/** A minimal pandas DataFrame: named columns and rectangular rows of
    cells. Only the operations the scripts use are modelled: reading a
    column by name, assigning a column (`df[name] = values`), dropping a
    column and rendering a cell with `astype(str)`. */
module Frames {
  import opened Wrappers

  /** A cell: a missing value (NaN/None), text, or a boolean. */
  datatype Cell = Missing | Text(s: string) | Flag(b: bool)

  datatype Table = Table(columns: seq<string>, rows: seq<seq<Cell>>)

  predicate NoDuplicates(xs: seq<string>) {
    forall i, j :: 0 <= i < j < |xs| ==> xs[i] != xs[j]
  }

  /** Every row has one cell per column and column names are unique. */
  predicate WellFormed(t: Table) {
    && NoDuplicates(t.columns)
    && forall i :: 0 <= i < |t.rows| ==> |t.rows[i]| == |t.columns|
  }

  /** Position of `name` in `xs`, or `|xs|` when it is absent. */
  function IndexOf(xs: seq<string>, name: string): (k: nat)
    ensures k <= |xs|
    ensures k < |xs| <==> name in xs
    ensures k < |xs| ==> xs[k] == name
    ensures forall j :: 0 <= j < k ==> xs[j] != name
  {
    if |xs| == 0 then 0
    else if xs[0] == name then 0
    else 1 + IndexOf(xs[1..], name)
  }

  lemma IndexOfUnique(xs: seq<string>, k: nat)
    requires NoDuplicates(xs) && k < |xs|
    ensures IndexOf(xs, xs[k]) == k
  {
  }

  /** A prefix of a duplicate-free list is duplicate-free. */
  lemma NoDuplicatesPrefix(xs: seq<string>, k: nat)
    requires NoDuplicates(xs) && k <= |xs|
    ensures NoDuplicates(xs[..k])
  {
    forall i, j | 0 <= i < j < k ensures xs[..k][i] != xs[..k][j] {
      assert xs[..k][i] == xs[i] && xs[..k][j] == xs[j];
    }
  }

  /** Removing one name keeps a list duplicate-free. */
  lemma NoDuplicatesRemove(a: seq<string>, x: string, b: seq<string>)
    requires NoDuplicates(a + [x] + b)
    ensures NoDuplicates(a + b)
  {
    var all := a + [x] + b;
    var ab := a + b;
    forall i, j | 0 <= i < j < |ab| ensures ab[i] != ab[j] {
      var i' := if i < |a| then i else i + 1;
      var j' := if j < |a| then j else j + 1;
      assert ab[i] == all[i'] && ab[j] == all[j'];
    }
  }

  /** Removing the element between two parts leaves the two parts. */
  lemma RemoveAtMiddle<T>(a: seq<T>, x: T, b: seq<T>)
    ensures RemoveAt(a + [x] + b, |a|) == a + b
  {
    assert (a + [x] + b)[..|a|] == a;
    assert (a + [x] + b)[|a| + 1..] == b;
  }

  /** `str(value)` as `astype(str)` renders it. */
  function Render(c: Cell): (r: string)
    ensures c.Text? ==> r == c.s
    ensures c.Missing? ==> r == "nan"
    ensures c.Flag? ==> r == (if c.b then "True" else "False")
  {
    match c
    case Missing => "nan"
    case Text(s) => s
    case Flag(b) => if b then "True" else "False"
  }

  /** Truth value of a cell in `DataFrame.any`, which skips missing values. */
  predicate Truthy(c: Cell) {
    match c
    case Missing => false
    case Text(s) => |s| > 0
    case Flag(b) => b
  }

  /** `df[name] = vals`: replaces the column in place when it exists and
      appends it otherwise; no other cell changes. */
  function SetColumn(t: Table, name: string, vals: seq<Cell>): (r: Table)
    requires WellFormed(t) && |vals| == |t.rows|
    ensures WellFormed(r)
    ensures |r.rows| == |t.rows|
    ensures name in t.columns ==> r.columns == t.columns
    ensures name !in t.columns ==> r.columns == t.columns + [name]
    ensures forall i :: 0 <= i < |r.rows| ==> r.rows[i][IndexOf(r.columns, name)] == vals[i]
    ensures forall i, j :: 0 <= i < |t.rows| && 0 <= j < |t.columns| && t.columns[j] != name ==>
              r.rows[i][j] == t.rows[i][j]
  {
    var k := IndexOf(t.columns, name);
    if k < |t.columns| then
      Table(t.columns, seq(|t.rows|, i requires 0 <= i < |t.rows| => t.rows[i][k := vals[i]]))
    else
      var r := Table(t.columns + [name], seq(|t.rows|, i requires 0 <= i < |t.rows| => t.rows[i] + [vals[i]]));
      assert IndexOf(r.columns, name) == |t.columns|;
      r
  }

  /** Assigning a column the table lacks appends it after the others. */
  lemma SetColumnAppends(t: Table, name: string, vals: seq<Cell>)
    requires WellFormed(t) && |vals| == |t.rows| && name !in t.columns
    ensures SetColumn(t, name, vals) ==
            Table(t.columns + [name], seq(|t.rows|, i requires 0 <= i < |t.rows| => t.rows[i] + [vals[i]]))
  {
  }

  function RemoveAt<T>(xs: seq<T>, k: nat): (r: seq<T>)
    requires k < |xs|
    ensures |r| == |xs| - 1
  {
    xs[..k] + xs[k + 1..]
  }

  /** `df.drop(columns=name)`: pandas raises KeyError for an absent column;
      otherwise the column goes and every other column and cell stays in
      place. */
  function DropColumn(t: Table, name: string): (r: Result<Table>)
    requires WellFormed(t)
    ensures r.Success? <==> name in t.columns
    ensures r.Success? ==> WellFormed(r.value) && name !in r.value.columns
    ensures r.Success? ==> |r.value.rows| == |t.rows|
    ensures r.Success? ==> forall c :: c in t.columns && c != name ==> c in r.value.columns
    ensures r.Success? ==>
              r.value.columns == t.columns[..IndexOf(t.columns, name)] + t.columns[IndexOf(t.columns, name) + 1..]
    ensures r.Success? ==> forall i :: 0 <= i < |t.rows| ==>
              r.value.rows[i] == t.rows[i][..IndexOf(t.columns, name)] + t.rows[i][IndexOf(t.columns, name) + 1..]
  {
    var k := IndexOf(t.columns, name);
    if k == |t.columns| then Failure(Error(KeyError, name))
    else
      var cols := RemoveAt(t.columns, k);
      RemoveColumn(t.columns, k);
      var rows := seq(|t.rows|, i requires 0 <= i < |t.rows| => RemoveAt(t.rows[i], k));
      assert forall i :: 0 <= i < |rows| ==> |rows[i]| == |cols|;
      Success(Table(cols, rows))
  }

  /** Removing one entry of a duplicate-free header removes exactly that
      name and keeps the rest duplicate-free. */
  lemma RemoveColumn(columns: seq<string>, k: nat)
    requires k < |columns| && NoDuplicates(columns)
    ensures NoDuplicates(RemoveAt(columns, k))
    ensures columns[k] !in RemoveAt(columns, k)
    ensures forall c :: c in columns && c != columns[k] ==> c in RemoveAt(columns, k)
  {
    var cols := RemoveAt(columns, k);
    assert forall j :: 0 <= j < |cols| ==> cols[j] == (if j < k then columns[j] else columns[j + 1]);
    assert columns[k] !in cols by {
      forall j | 0 <= j < |cols| ensures cols[j] != columns[k] {
        if j >= k {
          assert columns[j + 1] != columns[k];
        }
      }
    }
    forall c | c in columns && c != columns[k] ensures c in cols {
      var j :| 0 <= j < |columns| && columns[j] == c;
      if j < k { assert cols[j] == c; } else { assert cols[j - 1] == c; }
    }
  }
  /** `df[name]`: the column's cells, or KeyError. */
  function Column(t: Table, name: string): (r: Result<seq<Cell>>)
    requires WellFormed(t)
    ensures r.Success? <==> name in t.columns
    ensures r.Success? ==> |r.value| == |t.rows|
    ensures r.Success? ==> forall i :: 0 <= i < |t.rows| ==> r.value[i] == t.rows[i][IndexOf(t.columns, name)]
  {
    var k := IndexOf(t.columns, name);
    if k == |t.columns| then Failure(Error(KeyError, name))
    else Success(seq(|t.rows|, i requires 0 <= i < |t.rows| => t.rows[i][k]))
  }
}
