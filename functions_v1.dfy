/**
 * The first version of the converter (Functions.py): its identifier
 * normalisation, which yields only the normalised string, and its offline
 * search, which tries every header column of every row and keeps every row
 * holding the identifier. Its addColumns and createDownloadURL are those of
 * the second version (GeneLookupV2).
 */
module FunctionsV1 {
  import opened Wrappers
  import opened Text
  import opened Values
  import opened Hgnc

  /**
   * transform_string: an `ENSG` identifier loses its trailing version
   * suffix; an `HGNC:` identifier becomes the text between its first and
   * second `:`; anything else is unchanged.
   */
  function TransformString(s: string): (r: string)
    ensures StartsWith(s, "ENSG") ==>
      (forall i: nat :: VersionSuffixAt(s, i) ==> r == s[..i])
      && ((exists i: nat :: VersionSuffixAt(s, i)) || r == s)
    ensures !StartsWith(s, "ENSG") && StartsWith(s, "HGNC:") ==>
      ':' !in r && 5 + |r| <= |s| && s[..5 + |r|] == "HGNC:" + r
      && (5 + |r| < |s| ==> s[5 + |r|] == ':')
    ensures !StartsWith(s, "ENSG") && !StartsWith(s, "HGNC:") ==> r == s
  {
    if StartsWith(s, "ENSG") then StripVersionSuffix(s)
    else if StartsWith(s, "HGNC:") then
      HgncFieldShape(s);
      Split(s, ":")[1]
    else s
  }

  /**
   * What search_single_gene returns: the four result columns of the frame
   * built from every row holding the normalised identifier; None where that
   * frame has no such column (no row matched, or the header lacks one) and
   * pandas raises KeyError.
   */
  function Search(snap: Snapshot, name: string): Option<GeneFields> {
    var v := TransformString(name);
    ColumnsOfRows(snap.header, RowsAt(snap.rows, Matching(snap.header, snap.rows, v)))
  }

  /** A search succeeds exactly when some row holds the identifier and the header has the result columns. */
  lemma SearchSucceeds(snap: Snapshot, name: string)
    ensures
      var v := TransformString(name);
      Search(snap, name).Some? <==>
        (exists k :: 0 <= k < |snap.rows| && RowHolds(snap.header, snap.rows[k], v))
        && forall col :: col in ResultColumns ==> col in snap.header
  {
    var v := TransformString(name);
    var hits := Matching(snap.header, snap.rows, v);
    if Search(snap, name).Some? {
      assert RowHolds(snap.header, snap.rows[hits[0]], v);
    }
    if exists k :: 0 <= k < |snap.rows| && RowHolds(snap.header, snap.rows[k], v) {
      var k :| 0 <= k < |snap.rows| && RowHolds(snap.header, snap.rows[k], v);
      assert k in hits;
    }
  }

  /** The fields of a successful search come from every row holding the identifier, each once and in table order. */
  lemma SearchFields(snap: Snapshot, name: string)
    requires Search(snap, name).Some?
    ensures
      var v := TransformString(name);
      var hits := Matching(snap.header, snap.rows, v);
      && (forall a, b :: 0 <= a < b < |hits| ==> hits[a] < hits[b])
      && (forall k :: 0 <= k < |snap.rows| ==> (k in hits <==> RowHolds(snap.header, snap.rows[k], v)))
      && var f := Search(snap, name).value;
      && |f.aSym| == |hits| && |f.aName| == |hits| && |f.pSym| == |hits| && |f.alias| == |hits|
      && forall a :: 0 <= a < |hits| ==>
           && f.aSym[a] == FromText(Cell(snap.rows[hits[a]], ApprovedSymbol))
           && f.aName[a] == FromText(Cell(snap.rows[hits[a]], ApprovedName))
           && f.pSym[a] == FromText(Cell(snap.rows[hits[a]], PreviousSymbols))
           && f.alias[a] == FromText(Cell(snap.rows[hits[a]], AliasSymbols))
  {
  }

  /** search_single_gene: the nested row and column loops, then the four columns of the results. */
  method SearchSingleGene(snap: Snapshot, name: string) returns (r: Option<GeneFields>)
    ensures r == Search(snap, name)
  {
    var v := TransformString(name);
    var results := MatchingRows(snap.header, snap.rows, v);
    r := ColumnsOfRows(snap.header, results);
  }

  /** The row loop: every row whose some column holds `v` is appended once, in table order. */
  method MatchingRows(header: seq<string>, rows: seq<Row>, v: string) returns (results: seq<Row>)
    ensures results == RowsAt(rows, Matching(header, rows, v))
  {
    results := [];
    ghost var hits: seq<nat> := [];
    var i := 0;
    while i < |rows|
      invariant i <= |rows| && Scanned(header, rows, v, i, hits, results)
    {
      results, hits := ScanRow(header, rows, v, i, hits, results);
      i := i + 1;
    }
    ScannedAll(header, rows, v, hits, results);
  }

  /** Once every row is scanned, the hits are all the matching rows. */
  lemma ScannedAll(header: seq<string>, rows: seq<Row>, v: string, hits: seq<nat>, results: seq<Row>)
    requires Scanned(header, rows, v, |rows|, hits, results)
    ensures results == RowsAt(rows, Matching(header, rows, v))
  {
    assert Matching(header, rows, v) == hits + MatchingFrom(header, rows, v, |rows|);
  }

  /** After the rows before `i`: `hits` are the matching rows among them, and the results are those rows. */
  ghost predicate Scanned(header: seq<string>, rows: seq<Row>, v: string, i: nat, hits: seq<nat>, results: seq<Row>) {
    && i <= |rows|
    && Matching(header, rows, v) == hits + MatchingFrom(header, rows, v, i)
    && (forall a :: 0 <= a < |hits| ==> hits[a] < i)
    && results == RowsAt(rows, hits)
  }

  /** One pass of the row loop: row `i` is appended when one of its columns holds `v`. */
  method ScanRow(header: seq<string>, rows: seq<Row>, v: string, i: nat, ghost hits: seq<nat>, results: seq<Row>)
      returns (results': seq<Row>, ghost hits': seq<nat>)
    requires i < |rows| && Scanned(header, rows, v, i, hits, results)
    ensures Scanned(header, rows, v, i + 1, hits', results')
  {
    var found := HoldsInSomeColumn(header, rows[i], v);
    MatchingStep(header, rows, v, hits, i);
    if found {
      RowsAtAppend(rows, hits, i);
      results', hits' := results + [rows[i]], hits + [i];
    } else {
      results', hits' := results, hits;
    }
  }

  /** The column loop: does some header column of `row` hold `v` as one of its `", "`-items? */
  method HoldsInSomeColumn(header: seq<string>, row: Row, v: string) returns (found: bool)
    ensures found <==> RowHolds(header, row, v)
  {
    var j := 0;
    while j < |header|
      invariant 0 <= j <= |header|
      invariant FirstColumn(header, row, v, InSplitCell) == FirstColumnFrom(header, row, v, InSplitCell, j)
    {
      if InSplitCell(Cell(row, header[j]), v) {
        return true;
      }
      j := j + 1;
    }
    return false;
  }
}
