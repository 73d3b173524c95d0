/**
 * The working table: named columns of equal height, as a value (`Table`) and
 * as the mutable object the stages change in place (`DataFrame`).
 */
module Tables {
  import opened Values
  import Dedup

  type Cells = seq<Value>
  type Row = seq<Value>

  /** Column-major: `cols[k]` holds the cells of the column called `names[k]`. */
  datatype Table = Table(names: seq<string>, cols: seq<Cells>, height: nat)

  predicate Distinct(names: seq<string>) {
    forall i, j :: 0 <= i < j < |names| ==> names[i] != names[j]
  }

  /** One column per name, every column `height` cells tall, no label twice. */
  predicate WellFormed(t: Table) {
    && |t.cols| == |t.names|
    && (forall k :: 0 <= k < |t.cols| ==> |t.cols[k]| == t.height)
    && Distinct(t.names)
  }

  /** Position of `name` in `names`, or `|names|` when it is absent. */
  function IndexOf(names: seq<string>, name: string): (r: nat)
    ensures r <= |names|
    ensures r < |names| <==> name in names
    ensures r < |names| ==> names[r] == name
    ensures forall k :: 0 <= k < r ==> names[k] != name
  {
    if names == [] then 0 else if names[0] == name then 0 else 1 + IndexOf(names[1..], name)
  }

  /** `df[name]`. */
  function Column(t: Table, name: string): (c: Cells)
    requires WellFormed(t) && name in t.names
    ensures |c| == t.height
  {
    t.cols[IndexOf(t.names, name)]
  }

  lemma ColumnAt(t: Table, k: nat)
    requires WellFormed(t) && k < |t.names|
    ensures Column(t, t.names[k]) == t.cols[k]
  {
    assert IndexOf(t.names, t.names[k]) == k;
  }

  /** A column of `n` missing cells (`df[col] = pd.NA`). */
  function Nulls(n: nat): (c: Cells)
    ensures |c| == n && forall i :: 0 <= i < n ==> c[i] == Null
  {
    seq(n, _ => Null)
  }

  /**
   * `df[name] = col`: an existing column is overwritten where it stands, a
   * new one is appended at the right; no other column changes.
   */
  function SetColumn(t: Table, name: string, col: Cells): (r: Table)
    requires WellFormed(t) && |col| == t.height
    ensures WellFormed(r) && r.height == t.height
    ensures name in r.names && Column(r, name) == col
    ensures name in t.names ==> r.names == t.names
    ensures name !in t.names ==> r.names == t.names + [name]
    ensures forall n :: n in t.names && n != name ==> n in r.names && Column(r, n) == Column(t, n)
  {
    if name in t.names then
      var r := Table(t.names, t.cols[IndexOf(t.names, name) := col], t.height);
      assert forall n :: n in t.names ==> IndexOf(r.names, n) == IndexOf(t.names, n);
      r
    else
      var r := Table(t.names + [name], t.cols + [col], t.height);
      assert forall n :: n in t.names ==> IndexOf(r.names, n) == IndexOf(t.names, n) by {
        forall n | n in t.names ensures IndexOf(r.names, n) == IndexOf(t.names, n) {
          var k := IndexOf(t.names, n);
          assert r.names[k] == n;
        }
      }
      assert IndexOf(r.names, name) == |t.names|;
      r
  }

  /** Writing a column's own cells back changes nothing. */
  lemma SetColumnSame(t: Table, name: string)
    requires WellFormed(t) && name in t.names
    ensures SetColumn(t, name, Column(t, name)) == t
  {
    var k := IndexOf(t.names, name);
    assert t.cols[k := t.cols[k]] == t.cols;
  }

  /** The names of `names` that are not in `drop`, in their order. */
  function Kept(names: seq<string>, drop: seq<string>): (r: seq<string>)
    ensures forall n :: n in r <==> n in names && n !in drop
    ensures |r| <= |names|
    ensures Distinct(names) ==> Distinct(r)
  {
    if names == [] then []
    else if names[0] in drop then Kept(names[1..], drop)
    else [names[0]] + Kept(names[1..], drop)
  }

  /** `df.drop(columns, axis=1)` for the listed columns that exist: the others, in their order. */
  function DropColumns(t: Table, drop: seq<string>): (r: Table)
    requires WellFormed(t)
    ensures WellFormed(r) && r.height == t.height
    ensures r.names == Kept(t.names, drop)
    ensures forall n :: n in r.names ==> Column(r, n) == Column(t, n)
  {
    SelectColumns(t, Kept(t.names, drop))
  }

  /** The label a rename map gives `n` (unchanged when `n` is not a key). */
  function RenamedName(m: map<string, string>, n: string): string {
    if n in m then m[n] else n
  }

  function Renamed(names: seq<string>, m: map<string, string>): (r: seq<string>)
    ensures |r| == |names|
  {
    seq(|names|, k requires 0 <= k < |names| => RenamedName(m, names[k]))
  }

  /** `df.rename(columns=m)`: labels change, cells and order do not. */
  function RenameColumns(t: Table, m: map<string, string>): (r: Table)
    requires WellFormed(t) && Distinct(Renamed(t.names, m))
    ensures WellFormed(r) && r.height == t.height && r.cols == t.cols
    ensures r.names == Renamed(t.names, m)
    ensures forall n :: n in t.names ==> RenamedName(m, n) in r.names && Column(r, RenamedName(m, n)) == Column(t, n)
  {
    var r := Table(Renamed(t.names, m), t.cols, t.height);
    forall n | n in t.names ensures RenamedName(m, n) in r.names && Column(r, RenamedName(m, n)) == Column(t, n) {
      var k := IndexOf(t.names, n);
      ColumnAt(r, k);
    }
    r
  }

  /** The cells of row `i`, column by column. */
  function RowAt(t: Table, i: nat): (row: Row)
    requires WellFormed(t) && i < t.height
    ensures |row| == |t.names|
  {
    seq(|t.cols|, k requires 0 <= k < |t.cols| => t.cols[k][i])
  }

  function Rows(t: Table): (rows: seq<Row>)
    requires WellFormed(t)
    ensures |rows| == t.height
    ensures forall i :: 0 <= i < |rows| ==> |rows[i]| == |t.names|
  {
    seq(t.height, i requires 0 <= i < t.height => RowAt(t, i))
  }

  function FromRows(names: seq<string>, rows: seq<Row>): (t: Table)
    requires forall i :: 0 <= i < |rows| ==> |rows[i]| == |names|
  {
    Table(names, seq(|names|, k requires 0 <= k < |names| => seq(|rows|, i requires 0 <= i < |rows| => rows[i][k])), |rows|)
  }

  /** Reading a table row by row and putting the rows back gives the same table. */
  lemma RowsRoundTrip(t: Table)
    requires WellFormed(t)
    ensures FromRows(t.names, Rows(t)) == t
  {
    var u := FromRows(t.names, Rows(t));
    forall k | 0 <= k < |t.names| ensures u.cols[k] == t.cols[k] {
      assert forall i :: 0 <= i < t.height ==> u.cols[k][i] == t.cols[k][i];
    }
  }

  /** Putting rows into a table and reading them back gives the same rows. */
  lemma FromRowsRoundTrip(names: seq<string>, rows: seq<Row>)
    requires Distinct(names)
    requires forall i :: 0 <= i < |rows| ==> |rows[i]| == |names|
    ensures WellFormed(FromRows(names, rows))
    ensures Rows(FromRows(names, rows)) == rows
  {
    var t := FromRows(names, rows);
    forall i | 0 <= i < |rows| ensures RowAt(t, i) == rows[i] {
      assert forall k :: 0 <= k < |names| ==> RowAt(t, i)[k] == rows[i][k];
    }
  }

  /** `df.drop_duplicates()`: the first occurrence of each distinct row, in order. */
  function Deduplicated(t: Table): (r: Table)
    requires WellFormed(t)
    ensures WellFormed(r) && r.names == t.names
    ensures Rows(r) == Dedup.Unique(Rows(t))
  {
    var u := Dedup.Unique(Rows(t));
    Dedup.UniqueKeepsEveryRow(Rows(t));
    assert forall i :: 0 <= i < |u| ==> u[i] in Rows(t);
    FromRowsRoundTrip(t.names, u);
    FromRows(t.names, u)
  }

  /** `df[names]`: the listed columns, in the listed order. */
  function SelectColumns(t: Table, names: seq<string>): (r: Table)
    requires WellFormed(t) && Distinct(names)
    requires forall n :: n in names ==> n in t.names
    ensures WellFormed(r) && r.names == names && r.height == t.height
    ensures forall n :: n in names ==> Column(r, n) == Column(t, n)
  {
    var r := Table(names, seq(|names|, k requires 0 <= k < |names| => Column(t, names[k])), t.height);
    forall n | n in names ensures Column(r, n) == Column(t, n) {
      ColumnAt(r, IndexOf(names, n));
    }
    r
  }

  /** The present cells of a column, in order. */
  function Present(c: Cells): (p: Cells)
    ensures |p| <= |c|
    ensures forall v :: v in p <==> v in c && !v.Null?
  {
    if c == [] then []
    else if c[0].Null? then Present(c[1..])
    else [c[0]] + Present(c[1..])
  }

  /** `Series.nunique()`: how many distinct values the present cells hold. */
  function NUnique(c: Cells): (r: nat)
    ensures r <= |c|
  {
    Dedup.UniqueNoLonger(Present(c));
    |Dedup.Unique(Present(c))|
  }

  /** No distinct values exactly when every cell is missing. */
  lemma NUniqueZero(c: Cells)
    ensures NUnique(c) == 0 <==> forall i :: 0 <= i < |c| ==> c[i].Null?
  {
    var p := Present(c);
    Dedup.UniqueKeepsEveryRow(p);
    if NUnique(c) == 0 {
      assert forall i :: 0 <= i < |c| ==> c[i] !in p;
    } else {
      assert Dedup.Unique(p)[0] in p;
    }
  }

  /** A pandas DataFrame that the stages change in place. */
  class DataFrame {
    var names: seq<string>
    var cols: seq<Cells>
    var height: nat

    function View(): Table
      reads this
    {
      Table(names, cols, height)
    }

    predicate Valid()
      reads this
    {
      WellFormed(View())
    }

    constructor (t: Table)
      requires WellFormed(t)
      ensures Valid() && View() == t
    {
      names, cols, height := t.names, t.cols, t.height;
    }

    /** `df[name] = col`. */
    method Assign(name: string, col: Cells)
      requires Valid() && |col| == height
      modifies this
      ensures Valid() && View() == SetColumn(old(View()), name, col)
    {
      var r := SetColumn(View(), name, col);
      names, cols, height := r.names, r.cols, r.height;
    }

    /** `df.drop(columns, axis=1, inplace=True)`. */
    method Drop(drop: seq<string>)
      requires Valid()
      modifies this
      ensures Valid() && View() == DropColumns(old(View()), drop)
    {
      var r := DropColumns(View(), drop);
      names, cols, height := r.names, r.cols, r.height;
    }

    /** `df.rename(columns=m, inplace=True)`. */
    method Rename(m: map<string, string>)
      requires Valid() && Distinct(Renamed(names, m))
      modifies this
      ensures Valid() && View() == RenameColumns(old(View()), m)
    {
      names := Renamed(names, m);
    }

    /** `df.drop_duplicates()`: a new frame; this one is left as it is. */
    method DropDuplicates() returns (d: DataFrame)
      requires Valid()
      ensures fresh(d) && d.Valid() && d.View() == Deduplicated(View())
    {
      var rows, _ := Dedup.DropDuplicates(Rows(View()));
      Dedup.UniqueKeepsEveryRow(Rows(View()));
      assert forall i :: 0 <= i < |rows| ==> rows[i] in Rows(View());
      FromRowsRoundTrip(names, rows);
      d := new DataFrame(FromRows(names, rows));
    }

    /** `df[names]`: a new frame holding the listed columns in the listed order. */
    method Select(cs: seq<string>) returns (d: DataFrame)
      requires Valid() && Distinct(cs)
      requires forall n :: n in cs ==> n in names
      ensures fresh(d) && d.Valid() && d.View() == SelectColumns(View(), cs)
    {
      d := new DataFrame(SelectColumns(View(), cs));
    }
  }
}
