/** The static fallback table of shift definitions: the three core shifts of
    the roster, keyed by their one-letter code. */
module Constants {
  import opened Options

  datatype Category = Primary | Task | Leave

  /** One row of the table; `labelText` is the row's `label`, `color` and
      `textColor` are style class names. */
  datatype ShiftDefinition = ShiftDefinition(
    code: string, labelText: string, color: string, textColor: string, category: Category)

  /** The table in declaration order, which is also the order of its values. */
  const SHIFT_DEFINITIONS: seq<(string, ShiftDefinition)> := [
    ("P", ShiftDefinition("P", "Dinas Pagi", "bg-white", "text-gray-900", Primary)),
    ("S", ShiftDefinition("S", "Dinas Sore", "bg-blue-100", "text-blue-900", Primary)),
    ("M", ShiftDefinition("M", "Dinas Malam", "bg-indigo-600", "text-white", Primary))
  ]

  /** The first entry of `table` under `key`. */
  function LookupIn(table: seq<(string, ShiftDefinition)>, key: string): (r: Option<ShiftDefinition>)
    ensures r.None? <==> forall i :: 0 <= i < |table| ==> table[i].0 != key
    ensures r.Some? ==> (key, r.value) in table
  {
    if table == [] then None
    else if table[0].0 == key then Some(table[0].1)
    else LookupIn(table[1..], key)
  }

  /** `SHIFT_DEFINITIONS[key]`: the table has exactly the keys `P`, `S` and
      `M`; each entry's code is its key and its category is `primary`. */
  function Lookup(key: string): (r: Option<ShiftDefinition>)
    ensures r.Some? <==> key == "P" || key == "S" || key == "M"
    ensures r.Some? ==> (key, r.value) in SHIFT_DEFINITIONS
    ensures r.Some? ==> r.value.code == key && r.value.category == Primary
  {
    var t := SHIFT_DEFINITIONS;
    var r := LookupIn(t, key);
    if r.Some? then
      assert (key, r.value) in t;
      r
    else
      assert t[0].0 != key && t[1].0 != key && t[2].0 != key;
      r
  }

  /** `Object.values(SHIFT_DEFINITIONS).filter(d => d.category === category)`. */
  function StaticDefs(category: Category): (r: seq<ShiftDefinition>)
    ensures |r| <= |SHIFT_DEFINITIONS|
    ensures forall d :: d in r ==> d.category == category
  {
    Filter(SHIFT_DEFINITIONS, category)
  }

  /** The values of `table` in the given category, in table order: every
      kept value is a row of the category and every row of the category is
      kept (`FilterConcat` states the order). */
  function Filter(table: seq<(string, ShiftDefinition)>, category: Category): (r: seq<ShiftDefinition>)
    ensures |r| <= |table|
    ensures forall d :: d in r ==> d.category == category
    ensures forall d :: d in r ==> exists i :: 0 <= i < |table| && table[i].1 == d
    ensures forall i :: 0 <= i < |table| && table[i].1.category == category ==> table[i].1 in r
  {
    if table == [] then []
    else
      var rest := Filter(table[1..], category);
      assert forall d :: d in rest ==> exists i :: 0 <= i < |table| && table[i].1 == d by {
        forall d | d in rest ensures exists i :: 0 <= i < |table| && table[i].1 == d {
          var j :| 0 <= j < |table| - 1 && table[1..][j].1 == d;
          assert table[j + 1].1 == d;
        }
      }
      assert forall i :: 1 <= i < |table| && table[i].1.category == category ==> table[i].1 in rest by {
        forall i | 1 <= i < |table| && table[i].1.category == category ensures table[i].1 in rest {
          assert table[1..][i - 1] == table[i];
        }
      }
      if table[0].1.category == category then [table[0].1] + rest else rest
  }

  /** Filtering keeps the order of the table: the kept values of two tables
      one after the other are those of the first, then those of the second. */
  lemma {:induction false} FilterConcat(a: seq<(string, ShiftDefinition)>, b: seq<(string, ShiftDefinition)>,
                                        category: Category)
    ensures Filter(a + b, category) == Filter(a, category) + Filter(b, category)
  {
    if a == [] {
      assert a + b == b;
    } else {
      assert (a + b)[1..] == a[1..] + b;
      FilterConcat(a[1..], b, category);
    }
  }

  /** A single row is kept exactly when it is of the category. */
  lemma FilterSingle(row: (string, ShiftDefinition), category: Category)
    ensures Filter([row], category) == if row.1.category == category then [row.1] else []
  {
    assert [row][1..] == [];
  }

  /** The static table only has `primary` rows, in table order. */
  lemma StaticDefsByCategory()
    ensures StaticDefs(Primary) == [SHIFT_DEFINITIONS[0].1, SHIFT_DEFINITIONS[1].1, SHIFT_DEFINITIONS[2].1]
    ensures StaticDefs(Task) == [] && StaticDefs(Leave) == []
  {
    var t := SHIFT_DEFINITIONS;
    assert t[1..][1..][1..] == [];
    assert t[1..][1..] == [t[2]];
    assert t[1..] == [t[1], t[2]];
  }

  /** The hexadecimal colour the roster views give a static colour class;
      unknown classes are white. */
  function ColorClassHex(colorClass: string): (hex: string)
    ensures hex != ""
  {
    if colorClass == "bg-white" then "#ffffff"
    else if colorClass == "bg-blue-100" then "#dbeafe"
    else if colorClass == "bg-indigo-600" then "#4f46e5"
    else if colorClass == "bg-red-600" then "#dc2626"
    else if colorClass == "bg-yellow-300" then "#fde047"
    else "#ffffff"
  }

  /** The colours of the three static rows in the views. */
  lemma StaticColors()
    ensures Lookup("P").Some? && ColorClassHex(Lookup("P").value.color) == "#ffffff"
    ensures Lookup("S").Some? && ColorClassHex(Lookup("S").value.color) == "#dbeafe"
    ensures Lookup("M").Some? && ColorClassHex(Lookup("M").value.color) == "#4f46e5"
  {
    var t := SHIFT_DEFINITIONS;
    assert Lookup("P") == Some(t[0].1);
    assert Lookup("S") == Some(t[1].1) by { assert t[0].0 != "S"; }
    assert Lookup("M") == Some(t[2].1) by { assert t[0].0 != "M" && t[1].0 != "M"; }
  }
}
