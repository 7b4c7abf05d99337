/**
 * What the three versions of the HGNC gene-name converter share: the
 * identifier patterns, the column list of the bulk download and its URL, the
 * local snapshot of the registry, the REST endpoints and the scans over
 * snapshot columns and endpoints that every version performs.
 */
module Hgnc {
  import opened Wrappers
  import opened Text
  import opened Values

  // ---------------------------------------------------------------------------
  // Identifier patterns tested by addColumns (each `re.match` is anchored by ^ and $)
  // ---------------------------------------------------------------------------

  /** `^HGNC:\d+$` */
  predicate IsHgncIdLabel(l: string) {
    StartsWith(l, "HGNC:") && IsDigits(l[5..])
  }

  /** `^ENSG\d+$` */
  predicate IsEnsemblIdLabel(l: string) {
    StartsWith(l, "ENSG") && IsDigits(l[4..])
  }

  /** `^\d+(\.\d+)?$` */
  predicate IsNcbiIdLabel(l: string) {
    match IndexOf(l, '.')
    case None => IsDigits(l)
    case Some(i) => IsDigits(l[..i]) && IsDigits(l[i + 1..])
  }

  /** No label matches two of the patterns: they begin with `H`, with `E` and with a digit. */
  lemma PatternsDisjoint(l: string)
    ensures !(IsHgncIdLabel(l) && IsEnsemblIdLabel(l))
    ensures !(IsHgncIdLabel(l) && IsNcbiIdLabel(l))
    ensures !(IsEnsemblIdLabel(l) && IsNcbiIdLabel(l))
  {
    if IsHgncIdLabel(l) { assert l[0] == l[..5][0] == 'H'; }
    if IsEnsemblIdLabel(l) { assert l[0] == l[..4][0] == 'E'; }
    if IsNcbiIdLabel(l) {
      match IndexOf(l, '.')
      case None => assert IsDigit(l[0]);
      case Some(i) => assert IsDigit(l[..i][0]) && l[..i][0] == l[0];
    }
  }

  // ---------------------------------------------------------------------------
  // Columns requested from the bulk download
  // ---------------------------------------------------------------------------

  /** Always requested: approved symbol, approved name, previous symbols, aliases. */
  const DefaultColumns: seq<string> := ["app_sym", "app_name", "prev_sym", "aliases"]

  predicate HasHgncId(labels: seq<string>) {
    exists l :: l in labels && IsHgncIdLabel(l)
  }

  predicate HasEnsemblId(labels: seq<string>) {
    exists l :: l in labels && IsEnsemblIdLabel(l)
  }

  predicate HasNcbiId(labels: seq<string>) {
    exists l :: l in labels && IsNcbiIdLabel(l)
  }

  /**
   * The column list every version's addColumns computes: the four defaults
   * and then, in this fixed order, `hgnc_id`, `pub_ensembl_id` and `pub_eg_id`
   * for each pattern some label matches.
   */
  function SelectColumns(labels: seq<string>): seq<string> {
    DefaultColumns
    + (if HasHgncId(labels) then ["hgnc_id"] else [])
    + (if HasEnsemblId(labels) then ["pub_ensembl_id"] else [])
    + (if HasNcbiId(labels) then ["pub_eg_id"] else [])
  }

  /** What a one-label step of the flag scan of addColumns adds to each flag. */
  lemma HasStep(labels: seq<string>, i: nat)
    requires i < |labels|
    ensures HasHgncId(labels[..i + 1]) <==> HasHgncId(labels[..i]) || IsHgncIdLabel(labels[i])
    ensures HasEnsemblId(labels[..i + 1]) <==> HasEnsemblId(labels[..i]) || IsEnsemblIdLabel(labels[i])
    ensures HasNcbiId(labels[..i + 1]) <==> HasNcbiId(labels[..i]) || IsNcbiIdLabel(labels[i])
  {
    assert labels[..i + 1] == labels[..i] + [labels[i]];
  }

  /** A flag raised on a prefix of the labels stays raised for all of them. */
  lemma HasPrefix(labels: seq<string>, i: nat)
    requires i <= |labels|
    ensures HasHgncId(labels[..i]) ==> HasHgncId(labels)
    ensures HasEnsemblId(labels[..i]) ==> HasEnsemblId(labels)
    ensures HasNcbiId(labels[..i]) ==> HasNcbiId(labels)
  {
    assert forall l :: l in labels[..i] ==> l in labels;
  }

  /** The selection depends only on which labels occur, not on their order or repetition. */
  lemma SelectColumnsIgnoresOrder(a: seq<string>, b: seq<string>)
    requires forall l :: l in a <==> l in b
    ensures SelectColumns(a) == SelectColumns(b)
  {
    assert HasHgncId(a) == HasHgncId(b);
    assert HasEnsemblId(a) == HasEnsemblId(b);
    assert HasNcbiId(a) == HasNcbiId(b);
  }

  // ---------------------------------------------------------------------------
  // The bulk-download URL
  // ---------------------------------------------------------------------------

  const DownloadBase := "https://www.genenames.org/cgi-bin/download/custom?"
  const DownloadRest := "status=Approved&hgnc_dbtag=off&order_by=gd_app_sym_sort&format=text&submit=submit"

  /** The query parameter that requests one column. */
  function ColumnParam(c: string): string {
    "col=gd_" + c + "&"
  }

  /** The parameters for `cols`, one after the other, in order. */
  function ColumnParams(cols: seq<string>): string {
    if cols == [] then "" else ColumnParams(cols[..|cols| - 1]) + ColumnParam(cols[|cols| - 1])
  }

  /** ColumnParams read from the front: the first column's parameter comes first. */
  lemma {:induction false} ColumnParamsCons(cols: seq<string>)
    requires cols != []
    ensures ColumnParams(cols) == ColumnParam(cols[0]) + ColumnParams(cols[1..])
    decreases |cols|
  {
    if |cols| > 1 {
      var init := cols[..|cols| - 1];
      ColumnParamsCons(init);
      assert init[1..] == cols[1..][..|cols[1..]| - 1];
      assert init[0] == cols[0];
    }
  }

  /** `f"{BASE_URL}{COLS}{REST}"` of makeAndFetchURL. */
  function DownloadUrl(colsPart: string): string {
    DownloadBase + colsPart + DownloadRest
  }

  // ---------------------------------------------------------------------------
  // The local snapshot of the registry
  // ---------------------------------------------------------------------------

  /**
   * One row as `csv.DictReader` yields it. A header column missing from the
   * map stands for the `None` DictReader puts in a short row.
   */
  type Row = map<string, string>

  /** The downloaded table: its header (DictReader's fieldnames) and its rows, in file order. */
  datatype Snapshot = Snapshot(header: seq<string>, rows: seq<Row>)

  /** `row.get(c)` */
  function Cell(row: Row, c: string): Option<string> {
    if c in row then Some(row[c]) else None
  }

  /** Python truthiness of a snapshot cell: neither None nor the empty string. */
  predicate TruthyText(v: Option<string>) {
    v.Some? && v.value != ""
  }

  const ApprovedSymbol := "Approved symbol"
  const ApprovedName := "Approved name"
  const PreviousSymbols := "Previous symbols"
  const AliasSymbols := "Alias symbols"

  /** The result columns, in the order they are inserted into the output table. */
  const ResultColumns: seq<string> := [ApprovedSymbol, ApprovedName, PreviousSymbols, AliasSymbols]

  /**
   * The first of `cols[k..]` whose cell in `row` contains `name` under the
   * membership test `contains`: the column loop of every search.
   */
  function FirstColumnFrom(cols: seq<string>, row: Row, name: string,
                           contains: (Option<string>, string) -> bool, k: nat): (r: Option<nat>)
    requires k <= |cols|
    ensures r.Some? ==> k <= r.value < |cols| && contains(Cell(row, cols[r.value]), name)
    ensures r.Some? ==> forall j :: k <= j < r.value ==> !contains(Cell(row, cols[j]), name)
    ensures r.None? ==> forall j :: k <= j < |cols| ==> !contains(Cell(row, cols[j]), name)
    decreases |cols| - k
  {
    if k == |cols| then None
    else if contains(Cell(row, cols[k]), name) then Some(k)
    else FirstColumnFrom(cols, row, name, contains, k + 1)
  }

  /** Index of the first column of `cols` whose cell contains `name`. */
  function FirstColumn(cols: seq<string>, row: Row, name: string,
                       contains: (Option<string>, string) -> bool): Option<nat>
  {
    FirstColumnFrom(cols, row, name, contains, 0)
  }

  /**
   * `value and name in value.split(', ')`: the membership test of the first two
   * versions, exact comparison with the `", "`-separated items.
   */
  predicate InSplitCell(value: Option<string>, name: string) {
    TruthyText(value) && name in Split(value.value, ", ")
  }

  /** A cell written as the `", "`-join of comma-free items holds exactly those items. */
  lemma InSplitCellOfJoined(items: seq<string>, name: string)
    requires forall p :: p in items ==> ',' !in p
    requires Join(items, ", ") != ""
    ensures InSplitCell(Some(Join(items, ", ")), name) <==> name in items
  {
    SplitJoin(items, ", ");
  }

  /** A row holds `name` in some header column under the exact `", "`-item test. */
  predicate RowHolds(header: seq<string>, row: Row, name: string) {
    FirstColumn(header, row, name, InSplitCell).Some?
  }

  /**
   * The positions, from `j` on, of the rows that hold `name`: the rows the
   * first two versions' untyped search appends, in table order.
   */
  function MatchingFrom(header: seq<string>, rows: seq<Row>, name: string, j: nat): (r: seq<nat>)
    requires j <= |rows|
    ensures forall a :: 0 <= a < |r| ==> j <= r[a] < |rows|
    ensures forall a, b :: 0 <= a < b < |r| ==> r[a] < r[b]
    ensures forall k :: j <= k < |rows| ==> (k in r <==> RowHolds(header, rows[k], name))
    ensures forall a :: 0 <= a < |r| ==> FirstColumn(header, rows[r[a]], name, InSplitCell).Some?
    decreases |rows| - j
  {
    if j == |rows| then []
    else
      var rest := MatchingFrom(header, rows, name, j + 1);
      if RowHolds(header, rows[j], name) then [j] + rest else rest
  }

  function Matching(header: seq<string>, rows: seq<Row>, name: string): seq<nat> {
    MatchingFrom(header, rows, name, 0)
  }

  /** The rows at the given positions, in that order. */
  function RowsAt(rows: seq<Row>, positions: seq<nat>): (r: seq<Row>)
    requires forall a :: 0 <= a < |positions| ==> positions[a] < |rows|
    ensures |r| == |positions| && forall a :: 0 <= a < |r| ==> r[a] == rows[positions[a]]
  {
    seq(|positions|, a requires 0 <= a < |positions| => rows[positions[a]])
  }

  /** Appending a position appends its row. */
  lemma RowsAtAppend(rows: seq<Row>, positions: seq<nat>, i: nat)
    requires i < |rows| && forall a :: 0 <= a < |positions| ==> positions[a] < |rows|
    ensures RowsAt(rows, positions + [i]) == RowsAt(rows, positions) + [rows[i]]
  {
  }

  /** The hits so far and those from row `i` on, moved on by row `i`. */
  lemma MatchingStep(header: seq<string>, rows: seq<Row>, v: string, hits: seq<nat>, i: nat)
    requires i < |rows| && Matching(header, rows, v) == hits + MatchingFrom(header, rows, v, i)
    ensures RowHolds(header, rows[i], v) ==> Matching(header, rows, v) == (hits + [i]) + MatchingFrom(header, rows, v, i + 1)
    ensures !RowHolds(header, rows[i], v) ==> Matching(header, rows, v) == hits + MatchingFrom(header, rows, v, i + 1)
  {
    if RowHolds(header, rows[i], v) {
      assert hits + ([i] + MatchingFrom(header, rows, v, i + 1)) == (hits + [i]) + MatchingFrom(header, rows, v, i + 1);
    }
  }

  /** The four result fields a lookup yields: pandas Series, or lists of one element. */
  datatype GeneFields = GeneFields(
    aSym: seq<Value>, aName: seq<Value>,
    pSym: seq<Value>, alias: seq<Value>)

  const NoFields := GeneFields([], [], [], [])

  /** One result column read from every row of `results`. */
  function ColumnOf(results: seq<Row>, c: string): (r: seq<Value>)
    ensures |r| == |results| && forall a :: 0 <= a < |r| ==> r[a] == FromText(Cell(results[a], c))
  {
    seq(|results|, a requires 0 <= a < |results| => FromText(Cell(results[a], c)))
  }

  /**
   * `pd.DataFrame(results)[c]` for each result column `c`, as the first two
   * versions return it. The frame's columns are the header, so indexing
   * raises KeyError (None here) when there is no result or a result column is
   * not in the header.
   */
  function ColumnsOfRows(header: seq<string>, results: seq<Row>): (r: Option<GeneFields>)
    ensures r.None? <==> |results| == 0 || ApprovedSymbol !in header || ApprovedName !in header
                         || PreviousSymbols !in header || AliasSymbols !in header
    ensures r.Some? ==>
      && |r.value.aSym| == |results| && |r.value.aName| == |results|
      && |r.value.pSym| == |results| && |r.value.alias| == |results|
      && forall a :: 0 <= a < |results| ==>
           && r.value.aSym[a] == FromText(Cell(results[a], ApprovedSymbol))
           && r.value.aName[a] == FromText(Cell(results[a], ApprovedName))
           && r.value.pSym[a] == FromText(Cell(results[a], PreviousSymbols))
           && r.value.alias[a] == FromText(Cell(results[a], AliasSymbols))
  {
    if results == [] || exists c :: c in ResultColumns && c !in header then None
    else Some(GeneFields(ColumnOf(results, ApprovedSymbol), ColumnOf(results, ApprovedName),
                         ColumnOf(results, PreviousSymbols), ColumnOf(results, AliasSymbols)))
  }

  /** What search_single_gene returns: the four result fields and the list of matching columns. */
  datatype SearchResult = SearchResult(fields: GeneFields, matchTypes: seq<string>)

  // ---------------------------------------------------------------------------
  // Identifier types
  // ---------------------------------------------------------------------------

  datatype IdType = EnsemblGeneId | HgncId | NcbiGeneId

  /** The type string transform_string returns; it doubles as the snapshot column name. */
  function TypeLabel(t: IdType): string {
    match t
    case EnsemblGeneId => "Ensembl gene ID"
    case HgncId => "HGNC ID"
    case NcbiGeneId => "NCBI Gene ID"
  }

  /** A normalised identifier and its type; `kind == None` is an untyped symbol, alias or name. */
  datatype Classified = Classified(value: string, kind: Option<IdType>)

  // ---------------------------------------------------------------------------
  // Normalisation shared by the first two versions' transform_string
  // ---------------------------------------------------------------------------

  /** `\.\d+$` matches `s` from position `i`: a `.` followed by digits up to the end. */
  predicate VersionSuffixAt(s: string, i: nat) {
    i < |s| && s[i] == '.' && IsDigits(s[i + 1..])
  }

  /** A version suffix starts at the last `.` of the string. */
  lemma VersionSuffixLast(s: string, i: nat)
    requires VersionSuffixAt(s, i)
    ensures LastIndexOf(s, '.') == Some(i)
  {
  }

  /**
   * `re.sub(r"\.\d+$", "", s)`: the trailing version suffix removed, if there
   * is one; otherwise `s` unchanged. Only the last `.` can start the suffix.
   */
  function StripVersionSuffix(s: string): (r: string)
    ensures forall i: nat :: VersionSuffixAt(s, i) ==> r == s[..i]
    ensures (exists i: nat :: VersionSuffixAt(s, i)) || r == s
  {
    match LastIndexOf(s, '.')
    case None => s
    case Some(i) =>
      assert forall j: nat :: VersionSuffixAt(s, j) ==> j == i by {
        forall j: nat | VersionSuffixAt(s, j) ensures j == i {
          VersionSuffixLast(s, j);
        }
      }
      if IsDigits(s[i + 1..]) then
        assert VersionSuffixAt(s, i);
        s[..i]
      else s
  }

  /** `s.split(":")[1]` for an `HGNC:` identifier: the text between the first and the second `:`. */
  lemma HgncField(s: string)
    requires StartsWith(s, "HGNC:")
    ensures |Split(s, ":")| >= 2 && Split(s, ":")[1] == Before(s[5..], ':')
  {
    assert s[4] == ':' && ':' !in s[..4];
    FindChar(s, ':');
    assert Split(s, ":") == [s[..4]] + Split(s[5..], ":");
    SplitFirstChar(s[5..], ':');
  }

  /** The field HgncField names: free of `:`, right after the prefix, and ended by `:` or the string's end. */
  lemma HgncFieldShape(s: string)
    requires StartsWith(s, "HGNC:")
    ensures |Split(s, ":")| >= 2
    ensures var f := Split(s, ":")[1];
      && ':' !in f && 5 + |f| <= |s| && s[..5 + |f|] == "HGNC:" + f
      && (5 + |f| < |s| ==> s[5 + |f|] == ':')
  {
    HgncField(s);
    var f := Split(s, ":")[1];
    assert s[5..][..|f|] == f;
    assert s[..5 + |f|] == s[..5] + s[5..][..|f|];
  }

  // ---------------------------------------------------------------------------
  // The REST lookup
  // ---------------------------------------------------------------------------

  /**
   * One document of a REST response: its fields, each a string or a list of
   * strings (`prev_symbol` and `alias_symbol` are JSON arrays).
   */
  type Record = map<string, Obj>

  /** Python truthiness of what getData returns: a record that is not None and not empty. */
  predicate Found(d: Option<Record>) {
    d.Some? && d.value != map[]
  }

  const RestBase := "https://rest.genenames.org/fetch/"

  /** The URL find_API requests for a typed identifier. */
  function TypedUrl(t: IdType, q: string): string {
    match t
    case EnsemblGeneId => RestBase + "ensembl_gene_id/" + q
    case NcbiGeneId => RestBase + "entrez_id/" + q
    case HgncId => RestBase + "hgnc_id/" + q
  }

  /** The four endpoints tried for an untyped identifier, in the order they are tried. */
  const UntypedEndpoints: seq<string> := [
    RestBase + "symbol/", RestBase + "alias_symbol/", RestBase + "alias_name/", RestBase + "prev_symbol/"]

  function UntypedUrls(q: string): (r: seq<string>)
    ensures |r| == |UntypedEndpoints|
    ensures forall i :: 0 <= i < |r| ==> r[i] == UntypedEndpoints[i] + q
  {
    [UntypedEndpoints[0] + q, UntypedEndpoints[1] + q, UntypedEndpoints[2] + q, UntypedEndpoints[3] + q]
  }

  /** The requests find_API issued, in order, and the record it ended with. */
  datatype Lookup = Lookup(requests: seq<string>, record: Option<Record>)

  /** Try `urls` in order and stop at the first that yields a record. */
  function FirstFound(getData: string -> Option<Record>, urls: seq<string>): (r: Lookup)
    requires |urls| > 0
    ensures 1 <= |r.requests| <= |urls| && r.requests == urls[..|r.requests|]
    ensures forall k :: 0 <= k < |r.requests| - 1 ==> !Found(getData(r.requests[k]))
    ensures r.record == getData(r.requests[|r.requests| - 1])
    ensures !Found(r.record) ==> r.requests == urls
    decreases |urls|
  {
    var d := getData(urls[0]);
    if Found(d) || |urls| == 1 then Lookup([urls[0]], d)
    else
      var rest := FirstFound(getData, urls[1..]);
      assert urls[..|rest.requests| + 1] == [urls[0]] + urls[1..][..|rest.requests|];
      Lookup([urls[0]] + rest.requests, rest.record)
  }

  /**
   * The endpoint selection of find_API: a typed identifier is looked up once,
   * at its own endpoint; an untyped one at the four endpoints in order, up to
   * and including the first that yields a record.
   */
  function EndpointLookup(getData: string -> Option<Record>, kind: Option<IdType>, q: string): (r: Lookup)
    ensures kind.Some? ==> r.requests == [TypedUrl(kind.value, q)]
    ensures kind.None? ==> 1 <= |r.requests| <= 4 && r.requests == UntypedUrls(q)[..|r.requests|]
    ensures kind.None? ==> forall k :: 0 <= k < |r.requests| - 1 ==> !Found(getData(r.requests[k]))
    ensures kind.None? && |r.requests| < 4 ==> Found(r.record)
    ensures r.record == getData(r.requests[|r.requests| - 1])
  {
    match kind
    case Some(t) => Lookup([TypedUrl(t, q)], getData(TypedUrl(t, q)))
    case None => FirstFound(getData, UntypedUrls(q))
  }

  /**
   * The endpoint loop of find_API (the same code in the second and third
   * versions): one request for a typed identifier, otherwise the untyped
   * endpoints in order with a `break` at the first record found.
   */
  method QueryEndpoints(getData: string -> Option<Record>, kind: Option<IdType>, q: string)
    returns (data: Option<Record>, requests: seq<string>)
    ensures Lookup(requests, data) == EndpointLookup(getData, kind, q)
  {
    match kind {
      case Some(t) =>
        var url := TypedUrl(t, q);
        data := getData(url);
        requests := [url];
      case None =>
        var urls := UntypedUrls(q);
        data := None;
        requests := [];
        var i := 0;
        while i < |urls|
          invariant 0 <= i <= |urls|
          invariant requests == urls[..i]
          invariant forall k :: 0 <= k < i ==> !Found(getData(urls[k]))
          invariant i > 0 ==> data == getData(urls[i - 1])
        {
          var url := urls[i];
          data := getData(url);
          requests := requests + [url];
          if Found(data) {
            break;
          }
          i := i + 1;
        }
        var spec := FirstFound(getData, urls);
        assert i < |urls| ==> Found(getData(urls[i])) && requests == urls[..i + 1];
        assert i == |urls| ==> requests == urls;
    }
  }
}
