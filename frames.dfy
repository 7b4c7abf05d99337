/**
 * The output table the converter builds: a pandas DataFrame reduced to what
 * the converter does with it. Columns have distinct labels; each row holds one
 * value per column, in column order. Rows are addressed by position, the
 * default integer index `df.iterrows()` and `df.at` use.
 */
module Frames {
  import opened Wrappers
  import opened Values

  predicate Distinct(s: seq<string>) {
    forall i, j :: 0 <= i < j < |s| ==> s[i] != s[j]
  }

  /** `df.columns.get_loc(c)` */
  function IndexIn(cols: seq<string>, c: string): (k: nat)
    requires c in cols
    ensures k < |cols| && cols[k] == c
    ensures c !in cols[..k]
  {
    if cols[0] == c then 0
    else
      var k := IndexIn(cols[1..], c);
      assert cols[..k + 1] == [cols[0]] + cols[1..][..k];
      k + 1
  }

  /** The position get_loc finds is the first one holding the label. */
  lemma IndexInFirst(cols: seq<string>, c: string, j: nat)
    requires j < |cols| && cols[j] == c && c !in cols[..j]
    ensures IndexIn(cols, c) == j
  {
    var k := IndexIn(cols, c);
  }

  /** In a list of distinct labels, a label's position is the only one holding it. */
  lemma IndexInDistinct(cols: seq<string>, k: nat)
    requires Distinct(cols) && k < |cols|
    ensures IndexIn(cols, cols[k]) == k
  {
    var j := IndexIn(cols, cols[k]);
  }

  /** Every row with `x` inserted at position `k`. */
  function InsertInRows(rows: seq<seq<Value>>, k: nat, x: Value): (r: seq<seq<Value>>)
    requires forall j :: 0 <= j < |rows| ==> k <= |rows[j]|
    ensures |r| == |rows|
    ensures forall i :: 0 <= i < |rows| ==> r[i] == rows[i][..k] + [x] + rows[i][k..]
  {
    seq(|rows|, i requires 0 <= i < |rows| => rows[i][..k] + [x] + rows[i][k..])
  }

  /** Every row with its `k`th value replaced by `x`. */
  function SetInRows(rows: seq<seq<Value>>, k: nat, x: Value): (r: seq<seq<Value>>)
    requires forall j :: 0 <= j < |rows| ==> k < |rows[j]|
    ensures |r| == |rows|
    ensures forall i :: 0 <= i < |rows| ==> r[i] == rows[i][k := x]
  {
    seq(|rows|, i requires 0 <= i < |rows| => rows[i][k := x])
  }

  /** Every row without its `k`th value. */
  function RemoveInRows(rows: seq<seq<Value>>, k: nat): (r: seq<seq<Value>>)
    requires forall j :: 0 <= j < |rows| ==> k < |rows[j]|
    ensures |r| == |rows|
    ensures forall i :: 0 <= i < |rows| ==> r[i] == rows[i][..k] + rows[i][k + 1..]
  {
    seq(|rows|, i requires 0 <= i < |rows| => rows[i][..k] + rows[i][k + 1..])
  }

  /** `cols` with the label `from` renamed to `to`. */
  function Renamed(cols: seq<string>, from: string, to: string): (r: seq<string>)
    ensures |r| == |cols|
    ensures forall i :: 0 <= i < |cols| ==> r[i] == if cols[i] == from then to else cols[i]
  {
    seq(|cols|, i requires 0 <= i < |cols| => if cols[i] == from then to else cols[i])
  }

  /** The layout an insertion of `newCols` right after position `pos` produces. */
  function InsertedAfter<T>(s: seq<T>, pos: nat, newCols: seq<T>): seq<T>
    requires pos < |s|
  {
    s[..pos + 1] + newCols + s[pos + 1..]
  }

  /** The inserted labels sit right after position `pos`; everything else keeps its relative order. */
  lemma InsertedAfterLayout<T>(s: seq<T>, pos: nat, newCols: seq<T>)
    requires pos < |s|
    ensures |InsertedAfter(s, pos, newCols)| == |s| + |newCols|
    ensures InsertedAfter(s, pos, newCols)[..pos + 1] == s[..pos + 1]
    ensures InsertedAfter(s, pos, newCols)[pos + 1..pos + 1 + |newCols|] == newCols
    ensures InsertedAfter(s, pos, newCols)[pos + 1 + |newCols|..] == s[pos + 1..]
  {
    var r := InsertedAfter(s, pos, newCols);
    assert r[..pos + 1] == s[..pos + 1];
    assert r[pos + 1..pos + 1 + |newCols|] == newCols;
    assert r[pos + 1 + |newCols|..] == s[pos + 1..];
  }

  /** Appending labels keeps the position of a label already present. */
  lemma IndexInPrefix(s: seq<string>, t: seq<string>, c: string)
    requires c in s
    ensures IndexIn(s + t, c) == IndexIn(s, c)
  {
    var k := IndexIn(s, c);
    assert (s + t)[..k] == s[..k];
    IndexInFirst(s + t, c, k);
  }

  /** Prepending labels other than `c` moves its position on by their number. */
  lemma {:induction false} IndexInAfter(t: seq<string>, s: seq<string>, c: string)
    requires c !in t && c in s
    ensures IndexIn(t + s, c) == |t| + IndexIn(s, c)
  {
    if t == [] {
      assert t + s == s;
    } else {
      var ts := t + s;
      assert ts[0] == t[0] && ts[1..] == t[1..] + s;
      assert c in ts[1..];
      IndexInAfter(t[1..], s, c);
    }
  }

  /** After inserting labels other than `c`, it keeps its place before the seam and moves on by the run after it. */
  lemma IndexInInserted(s: seq<string>, pos: nat, newCols: seq<string>, c: string)
    requires pos < |s| && c in s && c !in newCols
    ensures c in InsertedAfter(s, pos, newCols)
    ensures IndexIn(InsertedAfter(s, pos, newCols), c)
      == if IndexIn(s, c) <= pos then IndexIn(s, c) else IndexIn(s, c) + |newCols|
  {
    var front, back := s[..pos + 1], s[pos + 1..];
    assert s == front + back;
    if c in front {
      IndexInPrefix(front, back, c);
      IndexInPrefix(front, newCols + back, c);
      assert InsertedAfter(s, pos, newCols) == front + (newCols + back);
    } else {
      IndexInAfter(front, back, c);
      IndexInAfter(front + newCols, back, c);
    }
  }

  /** A row of a table with columns `cols` after the cells of the labels in `writes` are overwritten. */
  function Overwritten(cols: seq<string>, row: seq<Value>, writes: map<string, Value>): (r: seq<Value>)
    requires |row| == |cols|
    ensures |r| == |row|
    ensures forall k :: 0 <= k < |row| ==> r[k] == if cols[k] in writes then writes[cols[k]] else row[k]
  {
    seq(|row|, k requires 0 <= k < |row| => if cols[k] in writes then writes[cols[k]] else row[k])
  }

  /** No writes, no change. */
  lemma OverwrittenNothing(cols: seq<string>, row: seq<Value>)
    requires |row| == |cols|
    ensures Overwritten(cols, row, map[]) == row
  {
  }

  /** One more `df.at` write to a label of distinct columns extends the writes by that label. */
  lemma OverwrittenStep(cols: seq<string>, row: seq<Value>, writes: map<string, Value>, c: string, v: Value)
    requires |row| == |cols| && Distinct(cols) && c in cols
    ensures Overwritten(cols, row, writes)[IndexIn(cols, c) := v] == Overwritten(cols, row, writes[c := v])
  {
    var k := IndexIn(cols, c);
    var written, extended := Overwritten(cols, row, writes)[k := v], Overwritten(cols, row, writes[c := v]);
    forall j | 0 <= j < |row| ensures written[j] == extended[j] {
      if j != k {
        assert cols[j] != c by { IndexInDistinct(cols, j); }
      }
    }
  }

  class Frame {
    var columns: seq<string>
    var rows: seq<seq<Value>>

    ghost predicate Valid()
      reads this
    {
      Distinct(columns) && forall i :: 0 <= i < |rows| ==> |rows[i]| == |columns|
    }

    /** `pd.DataFrame` with these columns and rows; also `df.copy()`. */
    constructor (columns: seq<string>, rows: seq<seq<Value>>)
      requires Distinct(columns) && forall i :: 0 <= i < |rows| ==> |rows[i]| == |columns|
      ensures Valid() && this.columns == columns && this.rows == rows
    {
      this.columns := columns;
      this.rows := rows;
    }

    /** The values of column `c`, top to bottom: `df[c]`. */
    function Column(c: string): (r: seq<Value>)
      reads this
      requires Valid() && c in columns
      ensures |r| == |rows|
      ensures forall i :: 0 <= i < |rows| ==> r[i] == rows[i][IndexIn(columns, c)]
    {
      var k := IndexIn(columns, c);
      var rs := rows;
      seq(|rs|, i requires 0 <= i < |rs| && k < |rs[i]| => rs[i][k])
    }

    /**
     * `df.insert(loc, column, fill)`: raises (ok == false, nothing changed) when
     * `loc` is out of range or the label is already present.
     */
    method Insert(loc: nat, column: string, fill: Value) returns (ok: bool)
      requires Valid()
      modifies this
      ensures Valid()
      ensures ok <==> loc <= |old(columns)| && column !in old(columns)
      ensures ok ==> columns == old(columns)[..loc] + [column] + old(columns)[loc..]
      ensures ok ==> rows == InsertInRows(old(rows), loc, fill)
      ensures !ok ==> columns == old(columns) && rows == old(rows)
    {
      ok := loc <= |columns| && column !in columns;
      if ok {
        var cols := columns[..loc] + [column] + columns[loc..];
        assert forall i, j :: 0 <= i < j < |cols| ==> cols[i] != cols[j] by {
          forall i, j | 0 <= i < j < |cols| ensures cols[i] != cols[j] {
            if i == loc { assert cols[j] in columns; }
            else if j == loc { assert cols[i] in columns; }
            else {
              var i' := if i < loc then i else i - 1;
              var j' := if j < loc then j else j - 1;
              assert cols[i] == columns[i'] && cols[j] == columns[j'];
            }
          }
        }
        rows := InsertInRows(rows, loc, fill);
        columns := cols;
      }
    }

    /**
     * `df[column] = fill`: overwrites every cell of an existing column, or
     * appends a new column holding `fill` in every row.
     */
    method AssignColumn(column: string, fill: Value)
      requires Valid()
      modifies this
      ensures Valid()
      ensures column in old(columns) ==>
        columns == old(columns) && rows == SetInRows(old(rows), IndexIn(old(columns), column), fill)
      ensures column !in old(columns) ==>
        columns == old(columns) + [column] && rows == InsertInRows(old(rows), |old(columns)|, fill)
    {
      if column in columns {
        rows := SetInRows(rows, IndexIn(columns, column), fill);
      } else {
        var n := |columns|;
        rows := InsertInRows(rows, n, fill);
        columns := columns + [column];
        assert forall i :: 0 <= i < |rows| ==> rows[i] == old(rows)[i] + [fill];
      }
    }

    /** `df.at[i, column] = v` */
    method SetCell(i: nat, column: string, v: Value)
      requires Valid() && i < |rows| && column in columns
      modifies this
      ensures Valid() && columns == old(columns)
      ensures rows == old(rows)[i := old(rows)[i][IndexIn(columns, column) := v]]
    {
      rows := rows[i := rows[i][IndexIn(columns, column) := v]];
    }

    /** `df.rename(columns={from: to}, inplace=True)`; a label that is absent is ignored. */
    method Rename(from: string, to: string)
      requires Valid()
      requires to in columns ==> to == from
      modifies this
      ensures Valid() && rows == old(rows)
      ensures columns == Renamed(old(columns), from, to)
    {
      var cols := Renamed(columns, from, to);
      assert Distinct(cols) by {
        forall i, j | 0 <= i < j < |cols| ensures cols[i] != cols[j] {
          assert columns[i] != columns[j];
          if columns[i] == from { assert columns[j] in columns; }
          if columns[j] == from { assert columns[i] in columns; }
        }
      }
      columns := cols;
    }

    /** `df = df.drop(columns=[column])`: raises (ok == false) when the label is absent. */
    method Drop(column: string) returns (ok: bool)
      requires Valid()
      modifies this
      ensures Valid()
      ensures ok <==> column in old(columns)
      ensures ok ==> columns == old(columns)[..IndexIn(old(columns), column)] + old(columns)[IndexIn(old(columns), column) + 1..]
      ensures ok ==> rows == RemoveInRows(old(rows), IndexIn(old(columns), column))
      ensures !ok ==> columns == old(columns) && rows == old(rows)
    {
      ok := column in columns;
      if ok {
        var k := IndexIn(columns, column);
        var cols := columns[..k] + columns[k + 1..];
        assert Distinct(cols) by {
          forall i, j | 0 <= i < j < |cols| ensures cols[i] != cols[j] {
            var i' := if i < k then i else i + 1;
            var j' := if j < k then j else j + 1;
            assert cols[i] == columns[i'] && cols[j] == columns[j'];
          }
        }
        rows := RemoveInRows(rows, k);
        columns := cols;
      }
    }
  }

  /** One `df.at[i, c] = v` on a row that so far has had the cells `w` written. */
  method Write(df: Frame, i: nat, c: string, v: Value, ghost rows0: seq<seq<Value>>, ghost w: map<string, Value>)
    requires df.Valid() && i < |rows0| && c in df.columns
    requires |rows0[i]| == |df.columns|
    requires df.rows == rows0[i := Overwritten(df.columns, rows0[i], w)]
    modifies df
    ensures df.Valid() && df.columns == old(df.columns)
    ensures df.rows == rows0[i := Overwritten(df.columns, rows0[i], w[c := v])]
  {
    OverwrittenStep(df.columns, rows0[i], w, c, v);
    df.SetCell(i, c, v);
  }

  /** Every row has a string at position `k`. */
  predicate NamesPresent(rows: seq<seq<Value>>, k: nat) {
    forall i :: 0 <= i < |rows| ==> k < |rows[i]| && rows[i][k].Some? && rows[i][k].value.Str?
  }

  /** The strings of a column whose every cell holds one. */
  function Strings(cells: seq<Value>): (r: seq<string>)
    requires forall i :: 0 <= i < |cells| ==> cells[i].Some? && cells[i].value.Str?
    ensures |r| == |cells| && forall i :: 0 <= i < |cells| ==> cells[i] == Some(Str(r[i]))
  {
    seq(|cells|, i requires 0 <= i < |cells| => cells[i].value.text)
  }

  /**
   * Inserts `newCols`, filled with None, one by one at `position + 1 + i`
   * after the column `nameCol` (the column insertion of the converter). It
   * fails (ok == false) when `nameCol` is absent or a new label is already
   * present; the table is then left as far as the insertions got.
   */
  method InsertColumnsAfter(df: Frame, nameCol: string, newCols: seq<string>) returns (ok: bool)
    requires df.Valid() && Distinct(newCols)
    modifies df
    ensures df.Valid()
    ensures ok <==> nameCol in old(df.columns) && forall c :: c in newCols ==> c !in old(df.columns)
    ensures ok ==> df.columns == InsertedAfter(old(df.columns), IndexIn(old(df.columns), nameCol), newCols)
    ensures ok ==> df.rows == Padded(old(df.rows), IndexIn(old(df.columns), nameCol), |newCols|)
  {
    if nameCol !in df.columns {
      return false;
    }
    var position := IndexIn(df.columns, nameCol);
    ok := InsertRun(df, position, newCols);
  }

  /** The insertion loop: `newCols[i]` goes in at `position + 1 + i`, failing at the first label already present. */
  method InsertRun(df: Frame, position: nat, newCols: seq<string>) returns (ok: bool)
    requires df.Valid() && Distinct(newCols) && position < |df.columns|
    modifies df
    ensures df.Valid()
    ensures ok <==> forall c :: c in newCols ==> c !in old(df.columns)
    ensures ok ==> df.columns == InsertedAfter(old(df.columns), position, newCols)
    ensures ok ==> df.rows == Padded(old(df.rows), position, |newCols|)
  {
    var cols0, rows0 := df.columns, df.rows;
    ghost var front, back := cols0[..position + 1], cols0[position + 1..];
    assert cols0 == front + back;
    assert forall j :: 0 <= j < |rows0| ==> position < |rows0[j]|;
    PaddedZero(rows0, position);
    var i := 0;
    while i < |newCols|
      invariant 0 <= i <= |newCols|
      invariant df.Valid()
      invariant forall c :: c in newCols[..i] ==> c !in cols0
      invariant df.columns == front + newCols[..i] + back
      invariant df.rows == Padded(rows0, position, i)
    {
      NotInPrefix(newCols, i);
      var inserted := InsertNext(df, position, newCols, i, front, back, rows0);
      if !inserted {
        assert newCols[i] in newCols;
        return false;
      }
      PrefixExtend(newCols, i);
      i := i + 1;
    }
    assert newCols[..i] == newCols;
    return true;
  }

  /** One step of the insertion loop: `newCols[i]` goes in right after the `i` labels already inserted. */
  method InsertNext(df: Frame, position: nat, newCols: seq<string>, i: nat,
                    ghost front: seq<string>, ghost back: seq<string>, ghost rows0: seq<seq<Value>>)
    returns (inserted: bool)
    requires df.Valid() && i < |newCols| && newCols[i] !in newCols[..i] && |front| == position + 1
    requires forall j :: 0 <= j < |rows0| ==> position < |rows0[j]|
    requires df.columns == front + newCols[..i] + back && df.rows == Padded(rows0, position, i)
    modifies df
    ensures df.Valid()
    ensures inserted <==> newCols[i] !in front + back
    ensures inserted ==> df.columns == front + (newCols[..i] + [newCols[i]]) + back
    ensures inserted ==> df.rows == Padded(rows0, position, i + 1)
  {
    InsertBetween(front, newCols[..i], back, newCols[i]);
    RowsStep(rows0, position, i);
    inserted := df.Insert(position + 1 + i, newCols[i], None);
    if !inserted {
      InSeam(front, newCols[..i], back, newCols[i]);
    }
  }

  /** A prefix one longer is the prefix and the next element. */
  lemma PrefixExtend<T>(s: seq<T>, i: nat)
    requires i < |s|
    ensures s[..i + 1] == s[..i] + [s[i]]
  {
  }

  /** In distinct labels, the `i`th is not among the first `i`. */
  lemma NotInPrefix(s: seq<string>, i: nat)
    requires Distinct(s) && i < |s|
    ensures s[i] !in s[..i]
  {
  }

  /** A label of `a + b + c` that is not in `b` is in `a + c`. */
  lemma InSeam(a: seq<string>, b: seq<string>, c: seq<string>, x: string)
    requires x in a + b + c && x !in b
    ensures x in a + c
  {
  }

  /** Every row with `i` Nones inserted right after position `p`. */
  function Padded(rows: seq<seq<Value>>, p: nat, i: nat): (r: seq<seq<Value>>)
    requires forall j :: 0 <= j < |rows| ==> p < |rows[j]|
    ensures |r| == |rows|
    ensures forall k :: 0 <= k < |rows| ==> r[k] == InsertedAfter(rows[k], p, Nones(i))
  {
    seq(|rows|, k requires 0 <= k < |rows| => InsertedAfter(rows[k], p, Nones(i)))
  }

  /** Padding with no Nones leaves the rows as they are. */
  lemma PaddedZero(rows: seq<seq<Value>>, p: nat)
    requires forall j :: 0 <= j < |rows| ==> p < |rows[j]|
    ensures Padded(rows, p, 0) == rows
  {
    forall k | 0 <= k < |rows| ensures Padded(rows, p, 0)[k] == rows[k] {
      assert rows[k][..p + 1] + rows[k][p + 1..] == rows[k];
    }
  }

  /** One more None inserted after the block of `i` Nones keeps every row in the loop's shape. */
  lemma RowsStep(rows: seq<seq<Value>>, p: nat, i: nat)
    requires forall j :: 0 <= j < |rows| ==> p < |rows[j]|
    ensures forall j :: 0 <= j < |rows| ==> p + 1 + i <= |Padded(rows, p, i)[j]|
    ensures InsertInRows(Padded(rows, p, i), p + 1 + i, None) == Padded(rows, p, i + 1)
  {
    var before, after := Padded(rows, p, i), Padded(rows, p, i + 1);
    assert Nones(i + 1) == Nones(i) + [None];
    forall k | 0 <= k < |rows|
      ensures InsertInRows(before, p + 1 + i, None)[k] == after[k]
    {
      InsertBetween(rows[k][..p + 1], Nones(i), rows[k][p + 1..], None);
    }
  }

  /** A padded row holds the original cell `q`, `n` places on when `q` follows the seam. */
  lemma PaddedCell(rows: seq<seq<Value>>, p: nat, n: nat, i: nat, q: nat)
    requires forall j :: 0 <= j < |rows| ==> p < |rows[j]|
    requires i < |rows| && q < |rows[i]|
    ensures (if q <= p then q else q + n) < |Padded(rows, p, n)[i]|
    ensures Padded(rows, p, n)[i][if q <= p then q else q + n] == rows[i][q]
  {
    var row := rows[i];
    assert Padded(rows, p, n)[i] == row[..p + 1] + Nones(n) + row[p + 1..];
  }

  /** Inserting `x` at the seam between `b` and `c` of `a + b + c` extends `b`. */
  lemma InsertBetween<T>(a: seq<T>, b: seq<T>, c: seq<T>, x: T)
    ensures (a + b + c)[..|a| + |b|] + [x] + (a + b + c)[|a| + |b|..] == a + (b + [x]) + c
  {
    assert (a + b + c)[..|a| + |b|] == a + b;
    assert (a + b + c)[|a| + |b|..] == c;
  }

  /** `[None] * n` */
  function Nones(n: nat): (r: seq<Value>)
    ensures |r| == n && forall i :: 0 <= i < n ==> r[i] == None
  {
    seq(n, i => None)
  }
}
