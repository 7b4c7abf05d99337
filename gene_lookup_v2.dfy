/**
 * The second version of the converter (gene_lookup_v2): its column
 * selection, download URL, identifier classification, offline search, the
 * endpoint selection of its REST fallback and the table it builds, where
 * the identifier column gives way to the four result columns.
 */
module GeneLookupV2 {
  import opened Wrappers
  import opened Text
  import opened Values
  import opened Hgnc
  import opened Frames

  // ---------------------------------------------------------------------------
  // addColumns, createDownloadURL, makeAndFetchURL
  // ---------------------------------------------------------------------------

  /** addColumns: one pass over the whole identifier column raising three flags. */
  method AddColumns(labels: seq<string>) returns (cols: seq<string>)
    ensures cols == SelectColumns(labels)
  {
    var hgnc, ensembl, ncbi := false, false, false;
    var i := 0;
    while i < |labels|
      invariant 0 <= i <= |labels|
      invariant hgnc == HasHgncId(labels[..i])
      invariant ensembl == HasEnsemblId(labels[..i])
      invariant ncbi == HasNcbiId(labels[..i])
    {
      var lbl := labels[i];
      PatternsDisjoint(lbl);
      HasStep(labels, i);
      if !hgnc && IsHgncIdLabel(lbl) {
        hgnc := true;
      } else if !ensembl && IsEnsemblIdLabel(lbl) {
        ensembl := true;
      } else if !ncbi && IsNcbiIdLabel(lbl) {
        ncbi := true;
      }
      i := i + 1;
    }
    assert labels[..i] == labels;
    cols := DefaultColumns;
    if hgnc {
      cols := cols + ["hgnc_id"];
    }
    if ensembl {
      cols := cols + ["pub_ensembl_id"];
    }
    if ncbi {
      cols := cols + ["pub_eg_id"];
    }
  }

  /** createDownloadURL: `col=gd_<entry>&` appended for each entry, in order. */
  method CreateDownloadUrl(columns: seq<string>) returns (url: string)
    ensures url == ColumnParams(columns)
  {
    url := "";
    var i := 0;
    while i < |columns|
      invariant 0 <= i <= |columns|
      invariant url == ColumnParams(columns[..i])
    {
      var fullAdd := "col=gd_" + columns[i] + "&";
      assert columns[..i + 1][..i] == columns[..i];
      url := url + fullAdd;
      i := i + 1;
    }
    assert columns[..i] == columns;
  }

  /** The URL makeAndFetchURL downloads the snapshot from. */
  method MakeAndFetchUrl(columns: seq<string>) returns (url: string)
    ensures url == DownloadBase + ColumnParams(columns) + DownloadRest
  {
    var cols := CreateDownloadUrl(columns);
    url := DownloadUrl(cols);
  }

  // ---------------------------------------------------------------------------
  // transform_string
  // ---------------------------------------------------------------------------

  /**
   * transform_string. The rules are tried in order: an `ENSG` identifier
   * loses a trailing `.digits` version; an `HGNC:` identifier is reduced to
   * `split(":")[1]`; any other string with a `.` is an NCBI Gene ID; anything
   * else is untyped and unchanged.
   */
  function TransformString(s: string): (r: Classified)
    ensures StartsWith(s, "ENSG") ==>
      r.kind == Some(EnsemblGeneId)
      && (forall i: nat :: VersionSuffixAt(s, i) ==> r.value == s[..i])
      && ((exists i: nat :: VersionSuffixAt(s, i)) || r.value == s)
    ensures !StartsWith(s, "ENSG") && StartsWith(s, "HGNC:") ==>
      r.kind == Some(HgncId) && ':' !in r.value
      && 5 + |r.value| <= |s| && s[..5 + |r.value|] == "HGNC:" + r.value
      && (5 + |r.value| < |s| ==> s[5 + |r.value|] == ':')
    ensures !StartsWith(s, "ENSG") && !StartsWith(s, "HGNC:") ==>
      r.value == s && r.kind == (if '.' in s then Some(NcbiGeneId) else None)
  {
    if StartsWith(s, "ENSG") then Classified(StripVersionSuffix(s), Some(EnsemblGeneId))
    else if StartsWith(s, "HGNC:") then
      HgncFieldShape(s);
      Classified(Split(s, ":")[1], Some(HgncId))
    else if '.' in s then Classified(s, Some(NcbiGeneId))
    else Classified(s, None)
  }

  // ---------------------------------------------------------------------------
  // search_single_gene
  // ---------------------------------------------------------------------------

  /** The first row, from `j` on, whose `lbl` cell holds `name` as one of its `", "`-items. */
  function TypedHitFrom(rows: seq<Row>, lbl: string, name: string, j: nat): (r: Option<nat>)
    requires j <= |rows|
    ensures r.Some? ==> j <= r.value < |rows| && InSplitCell(Cell(rows[r.value], lbl), name)
    ensures r.Some? ==> forall k :: j <= k < r.value ==> !InSplitCell(Cell(rows[k], lbl), name)
    ensures r.None? ==> forall k :: j <= k < |rows| ==> !InSplitCell(Cell(rows[k], lbl), name)
    decreases |rows| - j
  {
    if j == |rows| then None
    else if InSplitCell(Cell(rows[j], lbl), name) then Some(j)
    else TypedHitFrom(rows, lbl, name, j + 1)
  }

  /** The rows the typed branch appends: the first hit, if there is one. */
  function TypedResults(rows: seq<Row>, lbl: string, name: string): (r: seq<Row>)
    ensures |r| <= 1
  {
    match TypedHitFrom(rows, lbl, name, 0)
    case Some(k) => [rows[k]]
    case None => []
  }

  /** The column each of the rows at `positions` matched in: its first header column holding `name`. */
  function MatchTypes(header: seq<string>, rows: seq<Row>, name: string, positions: seq<nat>): (r: seq<string>)
    requires forall a :: 0 <= a < |positions| ==> positions[a] < |rows| && FirstColumn(header, rows[positions[a]], name, InSplitCell).Some?
    ensures |r| == |positions|
    ensures forall a :: 0 <= a < |r| ==> r[a] == header[FirstColumn(header, rows[positions[a]], name, InSplitCell).value]
  {
    seq(|positions|, a requires 0 <= a < |positions| =>
      header[FirstColumn(header, rows[positions[a]], name, InSplitCell).value])
  }

  /**
   * The typed branch of search_single_gene: KeyError (None) on the first row
   * when the type's column is not in the header; otherwise the fields of the
   * first row holding the identifier in that column, and no match type. The
   * extraction raises too (None) when no row matched or the header lacks a
   * result column.
   */
  function TypedSearch(snap: Snapshot, lbl: string, v: string): (r: Option<SearchResult>)
    ensures r.Some? ==> (|r.value.fields.aSym| == 1 && r.value.matchTypes == []
      && |r.value.fields.aName| == 1 && |r.value.fields.pSym| == 1 && |r.value.fields.alias| == 1)
  {
    if |snap.rows| > 0 && lbl !in snap.header then None
    else
      match ColumnsOfRows(snap.header, TypedResults(snap.rows, lbl, v))
      case None => None
      case Some(f) => Some(SearchResult(f, []))
  }

  /**
   * The untyped branch of search_single_gene: the fields of every row holding
   * the identifier in some header column, in table order, with the column
   * each matched in; None when no row matched or the header lacks a result
   * column.
   */
  function UntypedSearch(snap: Snapshot, v: string): (r: Option<SearchResult>)
    ensures r.Some? ==> (|r.value.fields.aSym| > 0 && |r.value.matchTypes| == |r.value.fields.aSym|
      && |r.value.fields.aName| == |r.value.fields.aSym| && |r.value.fields.pSym| == |r.value.fields.aSym|
      && |r.value.fields.alias| == |r.value.fields.aSym|)
  {
    var hits := Matching(snap.header, snap.rows, v);
    match ColumnsOfRows(snap.header, RowsAt(snap.rows, hits))
    case None => None
    case Some(f) => Some(SearchResult(f, MatchTypes(snap.header, snap.rows, v, hits)))
  }

  /** search_single_gene on the normalised identifier; None where the source raises KeyError. */
  function Search(snap: Snapshot, name: string): (r: Option<SearchResult>)
    ensures r.Some? ==> (|r.value.fields.aSym| > 0
      && |r.value.fields.aName| > 0 && |r.value.fields.pSym| > 0 && |r.value.fields.alias| > 0)
  {
    var c := TransformString(name);
    match c.kind
    case Some(t) => TypedSearch(snap, TypeLabel(t), c.value)
    case None => UntypedSearch(snap, c.value)
  }

  /**
   * A typed search succeeds exactly when the type's column can be read, some
   * row holds the identifier there and the header has the result columns;
   * its fields then come from the first such row.
   */
  lemma TypedSearchMeaning(snap: Snapshot, lbl: string, v: string)
    ensures
      var hit := TypedHitFrom(snap.rows, lbl, v, 0);
      && (TypedSearch(snap, lbl, v).Some? <==>
           (|snap.rows| == 0 || lbl in snap.header) && hit.Some?
           && forall col :: col in ResultColumns ==> col in snap.header)
      && (TypedSearch(snap, lbl, v).Some? ==>
           TypedSearch(snap, lbl, v).value.fields == GeneFields(
             [FromText(Cell(snap.rows[hit.value], ApprovedSymbol))], [FromText(Cell(snap.rows[hit.value], ApprovedName))],
             [FromText(Cell(snap.rows[hit.value], PreviousSymbols))], [FromText(Cell(snap.rows[hit.value], AliasSymbols))]))
  {
  }

  /**
   * An untyped search succeeds exactly when some row holds the identifier and
   * the header has the result columns.
   */
  lemma UntypedSearchSucceeds(snap: Snapshot, v: string)
    ensures
      UntypedSearch(snap, v).Some? <==>
        (exists k :: 0 <= k < |snap.rows| && RowHolds(snap.header, snap.rows[k], v))
        && forall col :: col in ResultColumns ==> col in snap.header
  {
    var hits := Matching(snap.header, snap.rows, v);
    if UntypedSearch(snap, v).Some? {
      assert RowHolds(snap.header, snap.rows[hits[0]], v);
    }
    if exists k :: 0 <= k < |snap.rows| && RowHolds(snap.header, snap.rows[k], v) {
      var k :| 0 <= k < |snap.rows| && RowHolds(snap.header, snap.rows[k], v);
      assert k in hits;
    }
  }

  /**
   * The fields of a successful untyped search are read from every row holding
   * the identifier, each once and in table order, and its match types name
   * the column each matched in.
   */
  lemma UntypedSearchFields(snap: Snapshot, v: string)
    requires UntypedSearch(snap, v).Some?
    ensures
      var hits := Matching(snap.header, snap.rows, v);
      && (forall a, b :: 0 <= a < b < |hits| ==> hits[a] < hits[b])
      && (forall k :: 0 <= k < |snap.rows| ==> (k in hits <==> RowHolds(snap.header, snap.rows[k], v)))
      && var r := UntypedSearch(snap, v).value;
      && |r.fields.aSym| == |hits| && |r.fields.aName| == |hits| && |r.fields.pSym| == |hits| && |r.fields.alias| == |hits|
      && |r.matchTypes| == |hits|
      && forall a :: 0 <= a < |hits| ==>
           && r.fields.aSym[a] == FromText(Cell(snap.rows[hits[a]], ApprovedSymbol))
           && r.fields.aName[a] == FromText(Cell(snap.rows[hits[a]], ApprovedName))
           && r.fields.pSym[a] == FromText(Cell(snap.rows[hits[a]], PreviousSymbols))
           && r.fields.alias[a] == FromText(Cell(snap.rows[hits[a]], AliasSymbols))
           && r.matchTypes[a] == snap.header[FirstColumn(snap.header, snap.rows[hits[a]], v, InSplitCell).value]
  {
  }

  /** search_single_gene: the row scan of the identifier's branch, then the extraction of the four fields. */
  method SearchSingleGene(snap: Snapshot, name: string) returns (r: Option<SearchResult>)
    ensures r == Search(snap, name)
  {
    var c := TransformString(name);
    match c.kind {
      case Some(t) =>
        var raised, results := TypedRows(snap, TypeLabel(t), c.value);
        if raised {
          return None;
        }
        var fields := ColumnsOfRows(snap.header, results);
        if fields.None? {
          return None;
        }
        return Some(SearchResult(fields.value, []));
      case None =>
        var results, matchTypes := UntypedRows(snap, c.value);
        var fields := ColumnsOfRows(snap.header, results);
        if fields.None? {
          return None;
        }
        return Some(SearchResult(fields.value, matchTypes));
    }
  }

  /**
   * The typed row loop: `row[Type]` raises KeyError on the first row when the
   * column is not in the header; otherwise the first row holding the
   * identifier is appended and the loop left.
   */
  method TypedRows(snap: Snapshot, lbl: string, v: string) returns (raised: bool, results: seq<Row>)
    ensures raised <==> |snap.rows| > 0 && lbl !in snap.header
    ensures !raised ==> results == TypedResults(snap.rows, lbl, v)
  {
    results := [];
    var i := 0;
    while i < |snap.rows|
      invariant 0 <= i <= |snap.rows| && results == []
      invariant i > 0 ==> lbl in snap.header
      invariant TypedHitFrom(snap.rows, lbl, v, 0) == TypedHitFrom(snap.rows, lbl, v, i)
    {
      if lbl !in snap.header {
        return true, [];
      }
      var row := snap.rows[i];
      if InSplitCell(Cell(row, lbl), v) {
        results := [row];
        break;
      }
      i := i + 1;
    }
    raised := false;
  }

  /** The untyped nested loops: every row holding the identifier is appended, with its first matching column. */
  method UntypedRows(snap: Snapshot, v: string) returns (results: seq<Row>, matchTypes: seq<string>)
    ensures results == RowsAt(snap.rows, Matching(snap.header, snap.rows, v))
    ensures matchTypes == MatchTypes(snap.header, snap.rows, v, Matching(snap.header, snap.rows, v))
  {
    var header, rows := snap.header, snap.rows;
    results, matchTypes := [], [];
    ghost var hits: seq<nat> := [];
    var i := 0;
    while i < |rows|
      invariant i <= |rows| && Scanned(header, rows, v, i, hits, results, matchTypes)
    {
      results, matchTypes, hits := UntypedNext(header, rows, v, i, hits, results, matchTypes);
      i := i + 1;
    }
    ScannedAll(header, rows, v, hits, results, matchTypes);
  }

  /** Once every row is scanned, the hits are all the matching rows. */
  lemma ScannedAll(header: seq<string>, rows: seq<Row>, v: string, hits: seq<nat>,
                   results: seq<Row>, matchTypes: seq<string>)
    requires Scanned(header, rows, v, |rows|, hits, results, matchTypes)
    ensures results == RowsAt(rows, Matching(header, rows, v))
    ensures matchTypes == MatchTypes(header, rows, v, Matching(header, rows, v))
  {
    assert Matching(header, rows, v) == hits + MatchingFrom(header, rows, v, |rows|);
  }

  /**
   * The state of the untyped loop after the rows before `i`: `hits` are the
   * matching rows among them, and the results and match types are theirs.
   */
  ghost predicate Scanned(header: seq<string>, rows: seq<Row>, v: string, i: nat, hits: seq<nat>,
                          results: seq<Row>, matchTypes: seq<string>)
  {
    && i <= |rows|
    && Matching(header, rows, v) == hits + MatchingFrom(header, rows, v, i)
    && (forall a :: 0 <= a < |hits| ==> hits[a] < i && FirstColumn(header, rows[hits[a]], v, InSplitCell).Some?)
    && results == RowsAt(rows, hits)
    && matchTypes == MatchTypes(header, rows, v, hits)
  }

  /** One pass of the outer loop: row `i` is scanned column by column and appended when it matches. */
  method UntypedNext(header: seq<string>, rows: seq<Row>, v: string, i: nat, ghost hits: seq<nat>,
                     results: seq<Row>, matchTypes: seq<string>)
      returns (results': seq<Row>, matchTypes': seq<string>, ghost hits': seq<nat>)
    requires i < |rows| && Scanned(header, rows, v, i, hits, results, matchTypes)
    ensures Scanned(header, rows, v, i + 1, hits', results', matchTypes')
  {
    var row := rows[i];
    var col := RowColumn(header, row, v);
    MatchingStep(header, rows, v, hits, i);
    if col.Some? {
      UntypedStep(header, rows, v, hits, i);
      results', matchTypes', hits' := results + [row], matchTypes + [header[col.value]], hits + [i];
    } else {
      results', matchTypes', hits' := results, matchTypes, hits;
    }
  }

  /** Appending a matching row to the hits extends the appended rows and match types by that row's. */
  lemma UntypedStep(header: seq<string>, rows: seq<Row>, v: string, hits: seq<nat>, i: nat)
    requires i < |rows| && FirstColumn(header, rows[i], v, InSplitCell).Some?
    requires forall a :: 0 <= a < |hits| ==> hits[a] < i && FirstColumn(header, rows[hits[a]], v, InSplitCell).Some?
    ensures forall a :: 0 <= a < |hits + [i]| ==>
      (hits + [i])[a] < i + 1 && FirstColumn(header, rows[(hits + [i])[a]], v, InSplitCell).Some?
    ensures RowsAt(rows, hits + [i]) == RowsAt(rows, hits) + [rows[i]]
    ensures MatchTypes(header, rows, v, hits + [i])
      == MatchTypes(header, rows, v, hits) + [header[FirstColumn(header, rows[i], v, InSplitCell).value]]
  {
    assert RowsAt(rows, hits + [i]) == RowsAt(rows, hits) + [rows[i]];
    assert MatchTypes(header, rows, v, hits + [i])
      == MatchTypes(header, rows, v, hits) + [header[FirstColumn(header, rows[i], v, InSplitCell).value]];
  }

  /** The column loop of the untyped search: the first header column whose cell holds `name`. */
  method RowColumn(header: seq<string>, row: Row, name: string) returns (col: Option<nat>)
    ensures col == FirstColumn(header, row, name, InSplitCell)
  {
    var j := 0;
    while j < |header|
      invariant 0 <= j <= |header|
      invariant FirstColumn(header, row, name, InSplitCell) == FirstColumnFrom(header, row, name, InSplitCell, j)
    {
      if InSplitCell(Cell(row, header[j]), name) {
        return Some(j);
      }
      j := j + 1;
    }
    return None;
  }

  // ---------------------------------------------------------------------------
  // find_API: endpoint selection
  // ---------------------------------------------------------------------------

  /**
   * The endpoint selection of find_API: classify the identifier and quote its
   * value, then query the type's endpoint once, or the four untyped
   * endpoints in order up to the first that yields a record. `getData` and
   * `quote` are the HTTP lookup and `quote(…, safe='')`. The conversion never
   * calls it: Search succeeds only with a non-empty `aSym`, and otherwise the
   * conversion has already raised.
   */
  method FindApi(id: string, getData: string -> Option<Record>, quote: string -> string)
    returns (data: Option<Record>, requests: seq<string>)
    ensures Lookup(requests, data) == EndpointLookup(getData, TransformString(id).kind, quote(TransformString(id).value))
    ensures TransformString(id).kind.Some? ==>
      requests == [TypedUrl(TransformString(id).kind.value, quote(TransformString(id).value))]
    ensures TransformString(id).kind.None? ==>
      1 <= |requests| <= 4 && requests == UntypedUrls(quote(TransformString(id).value))[..|requests|]
      && (forall k :: 0 <= k < |requests| - 1 ==> !Found(getData(requests[k])))
      && (|requests| < 4 ==> Found(data))
  {
    var c := TransformString(id);
    var lbl := quote(c.value);
    data, requests := QueryEndpoints(getData, c.kind, lbl);
  }

  // ---------------------------------------------------------------------------
  // convert_gene_names
  // ---------------------------------------------------------------------------

  /** The snapshot convert_gene_names downloads for the identifiers in `labels`. */
  function Download(labels: seq<string>, download: string -> Option<Snapshot>): Option<Snapshot> {
    download(DownloadBase + ColumnParams(SelectColumns(labels)) + DownloadRest)
  }

  /** The four `df.at` writes of a row: the first value of each result field. */
  function FieldWrites(f: GeneFields): (w: map<string, Value>)
    requires |f.aSym| > 0 && |f.aName| > 0 && |f.pSym| > 0 && |f.alias| > 0
    ensures forall c :: c in w <==> c in ResultColumns
  {
    map[ApprovedSymbol := f.aSym[0], ApprovedName := f.aName[0],
        PreviousSymbols := f.pSym[0], AliasSymbols := f.alias[0]]
  }

  /** What the row loop writes for the identifier `name`; None where its search raises. */
  function RowWrites(snap: Snapshot, name: string): Option<map<string, Value>> {
    match Search(snap, name)
    case None => None
    case Some(r) => Some(FieldWrites(r.fields))
  }

  /**
   * `w` gives what the row loop writes for each identifier, for `snap`. The
   * trigger keeps the search from being unfolded at every application of `w`.
   */
  ghost predicate WritesFor(w: string -> Option<map<string, Value>>, snap: Snapshot) {
    forall name {:trigger RowWrites(snap, name)} :: w(name) == RowWrites(snap, name)
  }

  /** RowWrites for a fixed snapshot. */
  function Writer(snap: Snapshot): string -> Option<map<string, Value>> {
    name => RowWrites(snap, name)
  }

  /**
   * The rows once the first `n` have been processed, reading each identifier
   * at position `k` and applying what `writes` gives for it; None once a row
   * has no writes (its search raised).
   */
  function Processed(cols: seq<string>, rows: seq<seq<Value>>, k: nat,
                     writes: string -> Option<map<string, Value>>, n: nat): (r: Option<seq<seq<Value>>>)
    requires forall i :: 0 <= i < |rows| ==> |rows[i]| == |cols|
    requires NamesPresent(rows, k) && n <= |rows|
    ensures r.Some? ==> |r.value| == |rows|
    ensures r.Some? ==> forall i :: 0 <= i < |rows| ==> |r.value[i]| == |cols|
    ensures r.Some? ==> forall i :: n <= i < |rows| ==> r.value[i] == rows[i]
  {
    if n == 0 then Some(rows)
    else
      match Processed(cols, rows, k, writes, n - 1)
      case None => None
      case Some(done) =>
        match writes(rows[n - 1][k].value.text)
        case None => None
        case Some(w) => Some(done[n - 1 := Overwritten(cols, rows[n - 1], w)])
  }

  /** Once a row has no writes, no later row is processed. */
  lemma {:induction false} ProcessedFails(cols: seq<string>, rows: seq<seq<Value>>, k: nat,
                                          writes: string -> Option<map<string, Value>>, n: nat, m: nat)
    requires forall i :: 0 <= i < |rows| ==> |rows[i]| == |cols|
    requires NamesPresent(rows, k) && n <= m <= |rows|
    requires Processed(cols, rows, k, writes, n).None?
    ensures Processed(cols, rows, k, writes, m).None?
    decreases m - n
  {
    if n < m {
      ProcessedFails(cols, rows, k, writes, n + 1, m);
    }
  }

  /** The row loop gets through `n` rows exactly when each of them has writes. */
  lemma {:induction false} ProcessedSome(cols: seq<string>, rows: seq<seq<Value>>, k: nat,
                                         writes: string -> Option<map<string, Value>>, n: nat)
    requires forall i :: 0 <= i < |rows| ==> |rows[i]| == |cols|
    requires NamesPresent(rows, k) && n <= |rows|
    ensures Processed(cols, rows, k, writes, n).Some? <==> forall i :: 0 <= i < n ==> writes(rows[i][k].value.text).Some?
  {
    if n > 0 {
      ProcessedSome(cols, rows, k, writes, n - 1);
    }
  }

  /** Each processed row is its original with its own identifier's writes applied. */
  lemma {:induction false} ProcessedRow(cols: seq<string>, rows: seq<seq<Value>>, k: nat,
                                        writes: string -> Option<map<string, Value>>, n: nat, i: nat)
    requires forall j :: 0 <= j < |rows| ==> |rows[j]| == |cols|
    requires NamesPresent(rows, k) && i < n <= |rows|
    requires Processed(cols, rows, k, writes, n).Some?
    ensures writes(rows[i][k].value.text).Some?
    ensures Processed(cols, rows, k, writes, n).value[i] == Overwritten(cols, rows[i], writes(rows[i][k].value.text).value)
  {
    if i < n - 1 {
      ProcessedRow(cols, rows, k, writes, n - 1, i);
    }
  }

  /** The four `df.at` writes of one row. */
  method WriteFields(df: Frame, i: nat, f: GeneFields)
    requires df.Valid() && i < |df.rows| && forall c :: c in ResultColumns ==> c in df.columns
    requires |f.aSym| > 0 && |f.aName| > 0 && |f.pSym| > 0 && |f.alias| > 0
    modifies df
    ensures df.Valid() && df.columns == old(df.columns)
    ensures df.rows == old(df.rows)[i := Overwritten(df.columns, old(df.rows)[i], FieldWrites(f))]
  {
    ghost var rows0 := df.rows;
    assert |rows0[i]| == |df.columns|;
    OverwrittenNothing(df.columns, rows0[i]);
    Write(df, i, ApprovedSymbol, f.aSym[0], rows0, map[]);
    Write(df, i, ApprovedName, f.aName[0], rows0, map[ApprovedSymbol := f.aSym[0]]);
    Write(df, i, PreviousSymbols, f.pSym[0], rows0, map[ApprovedSymbol := f.aSym[0], ApprovedName := f.aName[0]]);
    Write(df, i, AliasSymbols, f.alias[0], rows0,
      map[ApprovedSymbol := f.aSym[0], ApprovedName := f.aName[0], PreviousSymbols := f.pSym[0]]);
  }

  /**
   * The row loop of convert_gene_names: search each row's identifier and
   * write the first value of each field into the row. It stops (ok ==
   * false) at the first search that raises.
   */
  method ProcessRows(df: Frame, nameCol: string, snap: Snapshot, ghost w: string -> Option<map<string, Value>>)
      returns (ok: bool)
    requires df.Valid() && nameCol in df.columns && forall c :: c in ResultColumns ==> c in df.columns
    requires NamesPresent(df.rows, IndexIn(df.columns, nameCol)) && WritesFor(w, snap)
    modifies df
    ensures df.Valid() && df.columns == old(df.columns)
    ensures ok <==> Processed(df.columns, old(df.rows), IndexIn(df.columns, nameCol), w, |old(df.rows)|).Some?
    ensures ok ==> df.rows == Processed(df.columns, old(df.rows), IndexIn(df.columns, nameCol), w, |old(df.rows)|).value
  {
    ghost var cols, rows0 := df.columns, df.rows;
    var k := IndexIn(df.columns, nameCol);
    var n := |df.rows|;
    var i := 0;
    while i < n
      invariant 0 <= i <= n && df.Valid() && df.columns == cols
      invariant Processed(cols, rows0, k, w, i) == Some(df.rows)
    {
      ok := ProcessRow(df, i, k, snap, rows0, w);
      if !ok {
        ProcessedFails(cols, rows0, k, w, i + 1, n);
        return;
      }
      i := i + 1;
    }
    return true;
  }

  /** One pass of the row loop: search row `i`'s identifier and write its fields, or stop where the search raises. */
  method ProcessRow(df: Frame, i: nat, k: nat, snap: Snapshot, ghost rows0: seq<seq<Value>>,
                    ghost w: string -> Option<map<string, Value>>) returns (ok: bool)
    requires df.Valid() && forall c :: c in ResultColumns ==> c in df.columns
    requires forall j :: 0 <= j < |rows0| ==> |rows0[j]| == |df.columns|
    requires NamesPresent(rows0, k) && i < |rows0| && WritesFor(w, snap)
    requires Processed(df.columns, rows0, k, w, i) == Some(df.rows)
    modifies df
    ensures df.Valid() && df.columns == old(df.columns)
    ensures ok <==> Processed(df.columns, rows0, k, w, i + 1).Some?
    ensures ok ==> Processed(df.columns, rows0, k, w, i + 1) == Some(df.rows)
  {
    var name := df.rows[i][k].value.text;
    var r := SearchSingleGene(snap, name);
    assert w(name) == RowWrites(snap, name);
    if r.None? {
      return false;
    }
    WriteFields(df, i, r.value.fields);
    return true;
  }

  /** Padding keeps each row's cells up to and including position `p`. */
  lemma PaddedNames(rows: seq<seq<Value>>, p: nat, n: nat)
    requires forall j :: 0 <= j < |rows| ==> p < |rows[j]|
    requires NamesPresent(rows, p)
    ensures NamesPresent(Padded(rows, p, n), p)
    ensures forall i :: 0 <= i < |rows| ==> Padded(rows, p, n)[i][p] == rows[i][p]
  {
    forall i | 0 <= i < |rows| ensures Padded(rows, p, n)[i][p] == rows[i][p] {
      PaddedCell(rows, p, n, i, p);
    }
  }

  /**
   * What the table holds after the row loop and the drop: the processed
   * rows without the identifier column; None where a search raises.
   */
  function Converted(cols: seq<string>, rows: seq<seq<Value>>, nameCol: string, snap: Snapshot): Option<seq<seq<Value>>>
    requires nameCol in cols && forall i :: 0 <= i < |rows| ==> |rows[i]| == |cols|
    requires NamesPresent(rows, IndexIn(cols, nameCol))
  {
    var p := IndexIn(cols, nameCol);
    var prows := Padded(rows, p, |ResultColumns|);
    PaddedNames(rows, p, |ResultColumns|);
    InsertedAfterLayout(cols, p, ResultColumns);
    match Processed(InsertedAfter(cols, p, ResultColumns), prows, p, Writer(snap), |prows|)
    case None => None
    case Some(done) => Some(RemoveInRows(done, p))
  }

  /**
   * convert_gene_names: select the columns and download the snapshot, copy
   * the table, insert the four result columns after `nameCol`, process every
   * row and drop `nameCol`. It fails (ok == false) where the source raises:
   * the identifier column is absent, the download fails, a result column is
   * already present or a row's search raises.
   */
  method ConvertGeneNames(original: Frame, nameCol: string, download: string -> Option<Snapshot>) returns (ok: bool, df: Frame)
    requires original.Valid()
    requires nameCol in original.columns ==> NamesPresent(original.rows, IndexIn(original.columns, nameCol))
    ensures fresh(df) && df.Valid()
    ensures ok <==> (nameCol in original.columns
      && Download(Strings(original.Column(nameCol)), download).Some?
      && (forall c :: c in ResultColumns ==> c !in original.columns)
      && Converted(original.columns, original.rows, nameCol, Download(Strings(original.Column(nameCol)), download).value).Some?)
    ensures ok ==>
      df.columns == original.columns[..IndexIn(original.columns, nameCol)] + ResultColumns
                    + original.columns[IndexIn(original.columns, nameCol) + 1..]
    ensures ok ==> df.rows == Converted(original.columns, original.rows, nameCol,
      Download(Strings(original.Column(nameCol)), download).value).value
  {
    df := new Frame([], []);
    if nameCol !in original.columns {
      return false, df;
    }
    var snap := FetchSnapshot(original, nameCol, download);
    if snap.None? {
      return false, df;
    }
    ok, df := ConvertWith(original, nameCol, snap.value);
  }

  /** The download step of convert_gene_names: the columns the identifiers need, their URL, and its snapshot. */
  method FetchSnapshot(original: Frame, nameCol: string, download: string -> Option<Snapshot>) returns (snap: Option<Snapshot>)
    requires original.Valid() && nameCol in original.columns
    requires NamesPresent(original.rows, IndexIn(original.columns, nameCol))
    ensures snap == Download(Strings(original.Column(nameCol)), download)
  {
    var labels := Strings(original.Column(nameCol));
    var columnsNeeded := AddColumns(labels);
    var url := MakeAndFetchUrl(columnsNeeded);
    snap := download(url);
  }

  /** convert_gene_names once the snapshot is at hand: copy, insert, process the rows, drop the identifier column. */
  method ConvertWith(original: Frame, nameCol: string, snap: Snapshot) returns (ok: bool, df: Frame)
    requires original.Valid() && nameCol in original.columns
    requires NamesPresent(original.rows, IndexIn(original.columns, nameCol))
    ensures fresh(df) && df.Valid()
    ensures ok <==> ((forall c :: c in ResultColumns ==> c !in original.columns)
      && Converted(original.columns, original.rows, nameCol, snap).Some?)
    ensures ok ==>
      df.columns == original.columns[..IndexIn(original.columns, nameCol)] + ResultColumns
                    + original.columns[IndexIn(original.columns, nameCol) + 1..]
    ensures ok ==> df.rows == Converted(original.columns, original.rows, nameCol, snap).value
  {
    var cols, rows := original.columns, original.rows;
    var p := IndexIn(cols, nameCol);
    df := new Frame(cols, rows);
    ok := InsertColumnsAfter(df, nameCol, ResultColumns);
    if !ok {
      return;
    }
    IndexInInserted(cols, p, ResultColumns, nameCol);
    PaddedNames(rows, p, |ResultColumns|);
    assert WritesFor(Writer(snap), snap);
    ok := ProcessRows(df, nameCol, snap, Writer(snap));
    if !ok {
      return;
    }
    var dropped := df.Drop(nameCol);
    DropInserted(cols, p, ResultColumns);
  }

  /** Dropping the column at the seam of an insertion leaves the inserted run in its place. */
  lemma DropInserted(s: seq<string>, p: nat, newCols: seq<string>)
    requires p < |s|
    ensures InsertedAfter(s, p, newCols)[..p] + InsertedAfter(s, p, newCols)[p + 1..] == s[..p] + newCols + s[p + 1..]
  {
    var r := InsertedAfter(s, p, newCols);
    assert r[..p] == s[..p];
    assert r[p + 1..] == newCols + s[p + 1..];
  }

  // ---------------------------------------------------------------------------
  // What the conversion does to each row
  // ---------------------------------------------------------------------------

  /** The identifier row `i` holds in column `nameCol`. */
  function NameAt(cols: seq<string>, rows: seq<seq<Value>>, nameCol: string, i: nat): string
    requires nameCol in cols && NamesPresent(rows, IndexIn(cols, nameCol)) && i < |rows|
  {
    rows[i][IndexIn(cols, nameCol)].value.text
  }

  /** The conversion gets through the table exactly when every row's search succeeds. */
  lemma ConvertedSucceeds(cols: seq<string>, rows: seq<seq<Value>>, nameCol: string, snap: Snapshot)
    requires nameCol in cols && forall i :: 0 <= i < |rows| ==> |rows[i]| == |cols|
    requires NamesPresent(rows, IndexIn(cols, nameCol))
    ensures Converted(cols, rows, nameCol, snap).Some? <==>
      forall i :: 0 <= i < |rows| ==> Search(snap, NameAt(cols, rows, nameCol, i)).Some?
  {
    var p := IndexIn(cols, nameCol);
    var prows := Padded(rows, p, |ResultColumns|);
    PaddedNames(rows, p, |ResultColumns|);
    InsertedAfterLayout(cols, p, ResultColumns);
    ProcessedSome(InsertedAfter(cols, p, ResultColumns), prows, p, Writer(snap), |prows|);
    forall i | 0 <= i < |rows|
      ensures Writer(snap)(prows[i][p].value.text).Some? <==> Search(snap, NameAt(cols, rows, nameCol, i)).Some?
    {
    }
  }

  /** The first value of each field of a search result, in the order of the result columns. */
  function FirstValues(f: GeneFields): seq<Value>
    requires |f.aSym| > 0 && |f.aName| > 0 && |f.pSym| > 0 && |f.alias| > 0
  {
    [f.aSym[0], f.aName[0], f.pSym[0], f.alias[0]]
  }

  /**
   * A successful conversion replaces each row's identifier cell by the first
   * value of each field its search gives, and keeps every other cell in order.
   */
  lemma ConvertedRow(cols: seq<string>, rows: seq<seq<Value>>, nameCol: string, snap: Snapshot, i: nat)
    requires nameCol in cols && forall j :: 0 <= j < |rows| ==> |rows[j]| == |cols|
    requires NamesPresent(rows, IndexIn(cols, nameCol)) && i < |rows|
    requires forall c :: c in ResultColumns ==> c !in cols
    requires Converted(cols, rows, nameCol, snap).Some?
    ensures Search(snap, NameAt(cols, rows, nameCol, i)).Some?
    ensures
      var p := IndexIn(cols, nameCol);
      Converted(cols, rows, nameCol, snap).value[i]
        == rows[i][..p] + FirstValues(Search(snap, NameAt(cols, rows, nameCol, i)).value.fields) + rows[i][p + 1..]
  {
    var p := IndexIn(cols, nameCol);
    var name := NameAt(cols, rows, nameCol, i);
    ConvertedSucceeds(cols, rows, nameCol, snap);
    var f := Search(snap, name).value.fields;
    var prows: seq<seq<Value>> := Padded(rows, p, |ResultColumns|);
    PaddedNames(rows, p, |ResultColumns|);
    InsertedAfterLayout(cols, p, ResultColumns);
    assert Writer(snap)(prows[i][p].value.text) == Some(FieldWrites(f));
    DroppedRow(cols, rows, p, InsertedAfter(cols, p, ResultColumns), prows, Writer(snap), i, f);
  }

  /** Row `i` after the row loop and the drop, for any writes that give row `i` the fields `f`. */
  lemma DroppedRow(cols: seq<string>, rows: seq<seq<Value>>, p: nat, ic: seq<string>, prows: seq<seq<Value>>,
                   writes: string -> Option<map<string, Value>>, i: nat, f: GeneFields)
    requires p < |cols| && forall j :: 0 <= j < |rows| ==> |rows[j]| == |cols|
    requires ic == InsertedAfter(cols, p, ResultColumns) && prows == Padded(rows, p, |ResultColumns|)
    requires (forall j :: 0 <= j < |prows| ==> |prows[j]| == |ic|) && NamesPresent(prows, p) && i < |rows|
    requires forall c :: c in ResultColumns ==> c !in cols
    requires |f.aSym| > 0 && |f.aName| > 0 && |f.pSym| > 0 && |f.alias| > 0
    requires writes(prows[i][p].value.text) == Some(FieldWrites(f))
    requires Processed(ic, prows, p, writes, |prows|).Some?
    ensures RemoveInRows(Processed(ic, prows, p, writes, |prows|).value, p)[i]
      == rows[i][..p] + FirstValues(f) + rows[i][p + 1..]
  {
    ProcessedRow(ic, prows, p, writes, |prows|, i);
    var out := Overwritten(ic, prows[i], FieldWrites(f));
    InsertedWrites(cols, rows[i], p, f);
    assert out[..p] == rows[i][..p];
    assert out[p + 1..] == FirstValues(f) + rows[i][p + 1..];
  }

  /**
   * The four writes of a row land in the four columns inserted after
   * position `p`, the identifier's, whatever the rest of the table holds.
   */
  lemma InsertedWrites(cols: seq<string>, row: seq<Value>, p: nat, f: GeneFields)
    requires |row| == |cols| && p < |cols| && forall c :: c in ResultColumns ==> c !in cols
    requires |f.aSym| > 0 && |f.aName| > 0 && |f.pSym| > 0 && |f.alias| > 0
    ensures |InsertedAfter(row, p, Nones(|ResultColumns|))| == |InsertedAfter(cols, p, ResultColumns)|
    ensures Overwritten(InsertedAfter(cols, p, ResultColumns), InsertedAfter(row, p, Nones(|ResultColumns|)), FieldWrites(f))
      == row[..p + 1] + FirstValues(f) + row[p + 1..]
  {
    var ic, prow := InsertedAfter(cols, p, ResultColumns), InsertedAfter(row, p, Nones(|ResultColumns|));
    var w := FieldWrites(f);
    var want := row[..p + 1] + FirstValues(f) + row[p + 1..];
    var out := Overwritten(ic, prow, w);
    forall k | 0 <= k < |want| ensures out[k] == want[k] {
      if k <= p {
        assert ic[k] == cols[k] && cols[k] in cols;
      } else if k < p + 5 {
        assert ic[k] == ResultColumns[k - p - 1];
      } else {
        assert ic[k] == cols[k - 4] && cols[k - 4] in cols;
      }
    }
  }
}
