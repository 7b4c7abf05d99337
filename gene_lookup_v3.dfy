/**
 * The third version of the converter (gene_lookup_v3): its column selection,
 * download URL, identifier classification, offline search over the snapshot,
 * REST fallback and the per-row writes into the output table.
 */
module GeneLookupV3 {
  import opened Wrappers
  import opened Text
  import opened Values
  import opened Hgnc
  import opened Frames

  // ---------------------------------------------------------------------------
  // addColumns, createDownloadURL, makeAndFetchURL
  // ---------------------------------------------------------------------------

  /**
   * addColumns: one pass over the identifier column raising three flags, left
   * as soon as all three are raised.
   */
  method AddColumns(labels: seq<string>) returns (cols: seq<string>)
    ensures cols == SelectColumns(labels)
  {
    var hgnc, ensembl, ncbi := false, false, false;
    var i := 0;
    while i < |labels|
      invariant 0 <= i <= |labels|
      invariant hgnc == HasHgncId(labels[..i])
      invariant ensembl == HasEnsemblId(labels[..i])
      invariant ncbi == HasNcbiId(labels[..i])
    {
      var entry := labels[i];
      PatternsDisjoint(entry);
      HasStep(labels, i);
      if !hgnc && IsHgncIdLabel(entry) {
        hgnc := true;
      } else if !ensembl && IsEnsemblIdLabel(entry) {
        ensembl := true;
      } else if !ncbi && IsNcbiIdLabel(entry) {
        ncbi := true;
      }
      i := i + 1;
      if hgnc && ensembl && ncbi {
        break;
      }
    }
    HasPrefix(labels, i);
    assert i == |labels| ==> labels[..i] == labels;
    cols := DefaultColumns;
    if hgnc {
      cols := cols + ["hgnc_id"];
    }
    if ensembl {
      cols := cols + ["pub_ensembl_id"];
    }
    if ncbi {
      cols := cols + ["pub_eg_id"];
    }
  }

  /** createDownloadURL: `"&".join` of one `col=gd_…` per column, then a final `&`; `""` for no column. */
  function CreateDownloadUrl(columns: seq<string>): string {
    var parts := seq(|columns|, k requires 0 <= k < |columns| => "col=gd_" + columns[k]);
    if parts == [] then "" else Join(parts, "&") + "&"
  }

  /** The join-based URL part is each column's `col=gd_<c>&`, in column order. */
  lemma {:induction false} CreateDownloadUrlParams(columns: seq<string>)
    ensures CreateDownloadUrl(columns) == ColumnParams(columns)
    decreases |columns|
  {
    if columns != [] {
      ColumnParamsCons(columns);
      var tail := columns[1..];
      if tail == [] {
        assert ColumnParams(tail) == "";
      } else {
        CreateDownloadUrlParams(tail);
        var parts := seq(|columns|, k requires 0 <= k < |columns| => "col=gd_" + columns[k]);
        assert parts[1..] == seq(|tail|, k requires 0 <= k < |tail| => "col=gd_" + tail[k]);
      }
    }
  }

  /** The URL makeAndFetchURL downloads the snapshot from. */
  function MakeAndFetchUrl(columns: seq<string>): (url: string)
    ensures url == DownloadBase + ColumnParams(columns) + DownloadRest
  {
    CreateDownloadUrlParams(columns);
    DownloadUrl(CreateDownloadUrl(columns))
  }

  // ---------------------------------------------------------------------------
  // transform_string
  // ---------------------------------------------------------------------------

  /**
   * transform_string. The rules are tried in order: an `ENSG` identifier is
   * cut at its first `.`; an `HGNC:` identifier loses everything up to its
   * first `:`; any other string with a `.` is an NCBI Gene ID; anything else
   * is untyped and unchanged.
   */
  function TransformString(s: string): (r: Classified)
    ensures StartsWith(s, "ENSG") ==>
      r.kind == Some(EnsemblGeneId) && StartsWith(s, r.value) && '.' !in r.value
      && (|r.value| < |s| ==> s[|r.value|] == '.')
    ensures !StartsWith(s, "ENSG") && StartsWith(s, "HGNC:") ==>
      r.kind == Some(HgncId) && s == "HGNC:" + r.value
    ensures !StartsWith(s, "ENSG") && !StartsWith(s, "HGNC:") ==>
      r.value == s && r.kind == (if '.' in s then Some(NcbiGeneId) else None)
  {
    if StartsWith(s, "ENSG") then Classified(Before(s, '.'), Some(EnsemblGeneId))
    else if StartsWith(s, "HGNC:") then
      assert s[4] == ':' && ':' !in s[..4];
      assert Before(s, ':') == s[..4];
      Classified(After(s, ':'), Some(HgncId))
    else if '.' in s then Classified(s, Some(NcbiGeneId))
    else Classified(s, None)
  }

  // ---------------------------------------------------------------------------
  // _contains_gene
  // ---------------------------------------------------------------------------

  /** _contains_gene: a truthy cell that equals the name or has it among its stripped `,`-separated items. */
  predicate ContainsGene(value: Option<string>, name: string) {
    TruthyText(value)
    && (name == value.value || exists item :: item in Split(value.value, ",") && Strip(item) == name)
  }

  /**
   * On a cell written the way the registry writes lists (items joined by
   * `", "`, each free of commas and of surrounding whitespace), the test finds
   * exactly the items, besides the whole cell.
   */
  lemma ContainsGeneOfJoined(items: seq<string>, name: string)
    requires |items| > 0
    requires forall p :: p in items ==> ',' !in p && Stripped(p)
    requires Join(items, ", ") != ""
    ensures ContainsGene(Some(Join(items, ", ")), name) <==> name in items || name == Join(items, ", ")
  {
    StrippedPieces(items);
    ContainsGeneByPieces(Join(items, ", "), items, name);
  }

  /** The test on a cell whose `,`-pieces strip to `items`, one for one. */
  lemma ContainsGeneByPieces(value: string, items: seq<string>, name: string)
    requires value != ""
    requires |Split(value, ",")| == |items|
    requires forall k :: 0 <= k < |items| ==> Strip(Split(value, ",")[k]) == items[k]
    ensures ContainsGene(Some(value), name) <==> name in items || name == value
  {
    MappedMembers(Split(value, ","), items, s => Strip(s), name);
  }

  /** When `f` maps `pieces` to `items` one for one, some piece maps to `x` exactly when `x` is an item. */
  lemma MappedMembers(pieces: seq<string>, items: seq<string>, f: string -> string, x: string)
    requires |pieces| == |items| && forall k :: 0 <= k < |items| ==> f(pieces[k]) == items[k]
    ensures (exists p :: p in pieces && f(p) == x) <==> x in items
  {
    if x in items {
      var k :| 0 <= k < |items| && items[k] == x;
      assert pieces[k] in pieces;
    }
    forall p | p in pieces && f(p) == x ensures x in items {
      var k :| 0 <= k < |pieces| && pieces[k] == p;
      assert items[k] == x;
    }
  }

  /** The `,`-pieces of such a cell strip to its items, one for one. */
  lemma StrippedPieces(items: seq<string>)
    requires |items| > 0
    requires forall p :: p in items ==> ',' !in p && Stripped(p)
    ensures |Split(Join(items, ", "), ",")| == |items|
    ensures forall k :: 0 <= k < |items| ==> Strip(Split(Join(items, ", "), ",")[k]) == items[k]
  {
    var sp := Spaced(items);
    JoinSpaced(items);
    forall k | 0 <= k < |items| ensures ',' !in sp[k] && Strip(sp[k]) == items[k] {
      SpacedPiece(items, k);
    }
    assert forall p :: p in sp ==> ',' !in p;
    SplitJoin(sp, ",");
  }

  /** One spaced piece: still free of commas, and stripping it gives the item back. */
  lemma SpacedPiece(items: seq<string>, k: nat)
    requires k < |items|
    requires forall p :: p in items ==> ',' !in p && Stripped(p)
    ensures ',' !in Spaced(items)[k] && Strip(Spaced(items)[k]) == items[k]
  {
    assert items[k] in items;
    if k == 0 {
      StripAfterSpaces("", items[0]);
      assert "" + items[0] == items[0];
    } else {
      StripAfterSpaces(" ", items[k]);
    }
  }

  // ---------------------------------------------------------------------------
  // search_single_gene
  // ---------------------------------------------------------------------------

  /**
   * The column a row matches in under search_single_gene: a typed identifier
   * only in the column named by its type, an untyped one in the first header
   * column that contains it.
   */
  function RowMatch(header: seq<string>, row: Row, c: Classified): (r: Option<string>)
    ensures c.kind.Some? ==>
      (r.Some? <==> ContainsGene(Cell(row, TypeLabel(c.kind.value)), c.value))
      && (r.Some? ==> r.value == TypeLabel(c.kind.value))
    ensures c.kind.None? && r.Some? ==>
      exists k :: 0 <= k < |header| && header[k] == r.value && ContainsGene(Cell(row, header[k]), c.value)
        && (forall j :: 0 <= j < k ==> !ContainsGene(Cell(row, header[j]), c.value))
    ensures c.kind.None? && r.None? ==> forall k :: 0 <= k < |header| ==> !ContainsGene(Cell(row, header[k]), c.value)
  {
    match c.kind
    case Some(t) => if ContainsGene(Cell(row, TypeLabel(t)), c.value) then Some(TypeLabel(t)) else None
    case None =>
      match FirstColumn(header, row, c.value, ContainsGene)
      case Some(k) => Some(header[k])
      case None => None
  }

  /** The first row, from `j` on, that matches, with the column it matches in. */
  function FirstHit(header: seq<string>, rows: seq<Row>, c: Classified, j: nat): (r: Option<(nat, string)>)
    requires j <= |rows|
    ensures r.Some? ==> j <= r.value.0 < |rows| && RowMatch(header, rows[r.value.0], c) == Some(r.value.1)
    ensures r.Some? ==> forall k :: j <= k < r.value.0 ==> RowMatch(header, rows[k], c).None?
    ensures r.None? ==> forall k :: j <= k < |rows| ==> RowMatch(header, rows[k], c).None?
    decreases |rows| - j
  {
    if j == |rows| then None
    else match RowMatch(header, rows[j], c)
      case Some(col) => Some((j, col))
      case None => FirstHit(header, rows, c, j + 1)
  }

  /**
   * _extract_columns on the one-row frame of `row`: a result column the
   * header has yields the row's value, one missing yields an empty Series.
   */
  function ExtractColumns(header: seq<string>, row: Row): (r: GeneFields)
    ensures |r.aSym| == (if ApprovedSymbol in header then 1 else 0)
    ensures |r.aName| == (if ApprovedName in header then 1 else 0)
    ensures |r.pSym| == (if PreviousSymbols in header then 1 else 0)
    ensures |r.alias| == (if AliasSymbols in header then 1 else 0)
    ensures |r.aSym| == 1 ==> r.aSym[0] == FromText(Cell(row, ApprovedSymbol))
    ensures |r.aName| == 1 ==> r.aName[0] == FromText(Cell(row, ApprovedName))
    ensures |r.pSym| == 1 ==> r.pSym[0] == FromText(Cell(row, PreviousSymbols))
    ensures |r.alias| == 1 ==> r.alias[0] == FromText(Cell(row, AliasSymbols))
  {
    GeneFields(
      if ApprovedSymbol in header then [FromText(Cell(row, ApprovedSymbol))] else [],
      if ApprovedName in header then [FromText(Cell(row, ApprovedName))] else [],
      if PreviousSymbols in header then [FromText(Cell(row, PreviousSymbols))] else [],
      if AliasSymbols in header then [FromText(Cell(row, AliasSymbols))] else [])
  }


  /**
   * search_single_gene: at most one row, the first in table order that
   * matches the normalised name; its result fields and the one column it
   * matched in (the type's column for a typed identifier). No match gives
   * four empty fields and no column.
   */
  function Search(snap: Snapshot, name: string): (r: SearchResult)
    ensures |r.matchTypes| <= 1
    ensures |r.fields.aSym| <= 1 && |r.fields.aName| <= 1 && |r.fields.pSym| <= 1 && |r.fields.alias| <= 1
    ensures r.matchTypes == [] <==>
      forall k :: 0 <= k < |snap.rows| ==> RowMatch(snap.header, snap.rows[k], TransformString(name)).None?
    ensures r.matchTypes == [] ==> r.fields == NoFields
    ensures r.matchTypes != [] ==>
      exists k :: 0 <= k < |snap.rows|
        && RowMatch(snap.header, snap.rows[k], TransformString(name)) == Some(r.matchTypes[0])
        && (forall j :: 0 <= j < k ==> RowMatch(snap.header, snap.rows[j], TransformString(name)).None?)
        && r.fields == ExtractColumns(snap.header, snap.rows[k])
    ensures TransformString(name).kind.Some? && r.matchTypes != [] ==>
      r.matchTypes == [TypeLabel(TransformString(name).kind.value)]
  {
    var c := TransformString(name);
    match FirstHit(snap.header, snap.rows, c, 0)
    case Some(hit) => SearchResult(ExtractColumns(snap.header, snap.rows[hit.0]), [hit.1])
    case None => SearchResult(NoFields, [])
  }

  /** search_single_gene: the row loop, returning at the first row that matches. */
  method SearchSingleGene(snap: Snapshot, name: string) returns (fields: GeneFields, matchTypes: seq<string>)
    ensures SearchResult(fields, matchTypes) == Search(snap, name)
  {
    var c := TransformString(name);
    var header := snap.header;
    var i := 0;
    while i < |snap.rows|
      invariant 0 <= i <= |snap.rows|
      invariant FirstHit(header, snap.rows, c, 0) == FirstHit(header, snap.rows, c, i)
    {
      var row := snap.rows[i];
      var hit := MatchRow(header, row, c);
      if hit.Some? {
        return ExtractColumns(header, row), [hit.value];
      }
      i := i + 1;
    }
    return NoFields, [];
  }

  /**
   * The test search_single_gene makes on one row: a typed identifier against
   * its type's column, an untyped one against each header column in turn,
   * stopping at the first that contains it.
   */
  method MatchRow(header: seq<string>, row: Row, c: Classified) returns (hit: Option<string>)
    ensures hit == RowMatch(header, row, c)
  {
    match c.kind {
      case Some(t) =>
        if ContainsGene(Cell(row, TypeLabel(t)), c.value) {
          return Some(TypeLabel(t));
        }
        return None;
      case None =>
        var j := 0;
        while j < |header|
          invariant 0 <= j <= |header|
          invariant FirstColumn(header, row, c.value, ContainsGene) == FirstColumnFrom(header, row, c.value, ContainsGene, j)
        {
          if ContainsGene(Cell(row, header[j]), c.value) {
            return Some(header[j]);
          }
          j := j + 1;
        }
        return None;
    }
  }

  // ---------------------------------------------------------------------------
  // _extract_record, getData, find_API
  // ---------------------------------------------------------------------------

  /** The `response` object of a REST reply, with the two fields read from it (absent when None). */
  datatype ResponseBody = ResponseBody(numFound: Option<int>, docs: Option<seq<Record>>)

  /** A parsed REST reply: its `response` object, if present. */
  datatype ApiJson = ApiJson(response: Option<ResponseBody>)

  /** What `requests.get` yields: an exception, or a status code and the body, None when it is not JSON. */
  datatype HttpReply = Raised | Reply(status: int, json: Option<ApiJson>)

  /** `data.get("response", {}).get("numFound", 0)` */
  function NumFound(data: ApiJson): int {
    if data.response.Some? && data.response.value.numFound.Some? then data.response.value.numFound.value else 0
  }

  /** `data.get("response", {}).get("docs", [])` */
  function Docs(data: ApiJson): seq<Record> {
    if data.response.Some? && data.response.value.docs.Some? then data.response.value.docs.value else []
  }

  /** _extract_record: the first document when the reply reports a hit and lists a document. */
  function ExtractRecord(data: ApiJson): (r: Option<Record>)
    ensures r.Some? <==> NumFound(data) > 0 && Docs(data) != []
    ensures r.Some? ==> r.value == Docs(data)[0]
  {
    var response := data.response.GetOr(ResponseBody(None, None));
    if response.numFound.GetOr(0) > 0 then
      var docs := response.docs.GetOr([]);
      if docs != [] then Some(docs[0]) else None
    else None
  }

  /**
   * getData: None after an exception, a status other than 200, a body that is
   * not JSON, or a reply without a non-empty first document.
   */
  function GetData(reply: HttpReply): (r: Option<Record>)
    ensures r.Some? <==>
      reply.Reply? && reply.status == 200 && reply.json.Some? && Found(ExtractRecord(reply.json.value))
    ensures r.Some? ==> Some(r.value) == ExtractRecord(reply.json.value)
    ensures r.Some? <==> Found(r)
  {
    match reply
    case Raised => None
    case Reply(status, json) =>
      if status != 200 then None
      else match json
        case None => None
        case Some(data) =>
          var record := ExtractRecord(data);
          if Found(record) then record else None
  }

  /**
   * The collaborators: the bulk download behind makeAndFetchURL (None when
   * reading the URL raises), the HTTP call of getData and `quote(…, safe='')`.
   */
  datatype Remote = Remote(download: string -> Option<Snapshot>, http: string -> HttpReply, quote: string -> string)

  /** getData as the oracle from URLs to records. */
  function Fetcher(remote: Remote): string -> Option<Record> {
    url => GetData(remote.http(url))
  }

  /** The requests find_API sends for `label` and the record it ends with. */
  function FindApiLookup(id: string, remote: Remote): Lookup {
    var c := TransformString(id);
    EndpointLookup(Fetcher(remote), c.kind, remote.quote(c.value))
  }

  /** `data.get(key)` */
  function Get(d: Record, key: string): Value {
    if key in d then Some(d[key]) else None
  }

  /** The four one-element lists find_API returns for the record it ended with. */
  function ApiFields(data: Option<Record>): (r: GeneFields)
    ensures |r.aSym| == 1 && |r.aName| == 1 && |r.pSym| == 1 && |r.alias| == 1
    ensures !Found(data) ==> r == GeneFields([None], [None], [None], [None])
    ensures Found(data) ==>
      r.aSym[0] == Get(data.value, "symbol") && r.aName[0] == Get(data.value, "name")
      && r.pSym[0] == Get(data.value, "prev_symbol") && r.alias[0] == Get(data.value, "alias_symbol")
  {
    if Found(data) then
      var d := data.value;
      GeneFields([Get(d, "symbol")], [Get(d, "name")], [Get(d, "prev_symbol")], [Get(d, "alias_symbol")])
    else GeneFields([None], [None], [None], [None])
  }

  /**
   * find_API: classify and quote the label, query one endpoint for a typed
   * identifier or the four untyped endpoints up to the first record, and
   * read the four fields of that record.
   */
  method FindApi(id: string, remote: Remote) returns (fields: GeneFields, requests: seq<string>)
    ensures requests == FindApiLookup(id, remote).requests
    ensures fields == ApiFields(FindApiLookup(id, remote).record)
    ensures TransformString(id).kind.Some? ==>
      requests == [TypedUrl(TransformString(id).kind.value, remote.quote(TransformString(id).value))]
    ensures TransformString(id).kind.None? ==>
      1 <= |requests| <= 4 && requests == UntypedUrls(remote.quote(TransformString(id).value))[..|requests|]
  {
    var c := TransformString(id);
    var q := remote.quote(c.value);
    var data;
    data, requests := QueryEndpoints(Fetcher(remote), c.kind, q);
    fields := ApiFields(data);
  }

  // ---------------------------------------------------------------------------
  // _assign_gene_names, process_row
  // ---------------------------------------------------------------------------

  const MatchingStatus := "matching_status"

  /** The columns the per-row processing writes. */
  const RowColumns: seq<string> := ResultColumns + [MatchingStatus]

  /** The status text of a row. */
  function Status(matched: bool): string {
    if matched then "matched" else "un-matched"
  }

  /** The four result fields, named. */
  datatype Field = Sym | Name | Prev | AliasField

  function Pick(f: GeneFields, which: Field): seq<Value> {
    match which
    case Sym => f.aSym
    case Name => f.aName
    case Prev => f.pSym
    case AliasField => f.alias
  }

  /** The output column each field is written to. */
  function ColumnFor(which: Field): string {
    match which
    case Sym => ApprovedSymbol
    case Name => ApprovedName
    case Prev => PreviousSymbols
    case AliasField => AliasSymbols
  }

  /** `x is not None and len(x) > 0 and x[0]`: the guard of every result write. */
  predicate Writes(vals: seq<Value>) {
    |vals| > 0 && Truthy(vals[0])
  }

  /** The cells _assign_gene_names writes: a result column exactly when its field starts with a truthy value. */
  function GuardedWrites(fields: GeneFields): (w: map<string, Value>)
    ensures forall which: Field :: ColumnFor(which) in w <==> Writes(Pick(fields, which))
    ensures forall which: Field :: Writes(Pick(fields, which)) ==> ColumnFor(which) in w && w[ColumnFor(which)] == Pick(fields, which)[0]
    ensures forall c :: c in w ==> c in ResultColumns
  {
    Guard(Guard(Guard(Guard(map[], ApprovedSymbol, fields.aSym), ApprovedName, fields.aName),
                PreviousSymbols, fields.pSym), AliasSymbols, fields.alias)
  }

  /** `w` plus the write of `vals[0]` to `c` when the guard holds. */
  function Guard(w: map<string, Value>, c: string, vals: seq<Value>): map<string, Value> {
    if Writes(vals) then w[c := vals[0]] else w
  }


  /**
   * _assign_gene_names: of the four result cells of row `i`, each whose field
   * starts with a truthy value gets that value; every other cell is left alone.
   */
  method AssignGeneNames(df: Frame, i: nat, fields: GeneFields)
    requires df.Valid() && i < |df.rows| && forall c :: c in ResultColumns ==> c in df.columns
    modifies df
    ensures df.Valid() && df.columns == old(df.columns)
    ensures df.rows == old(df.rows)[i := Overwritten(df.columns, old(df.rows)[i], GuardedWrites(fields))]
  {
    ghost var rows0 := df.rows;
    assert rows0[i] in rows0;
    OverwrittenNothing(df.columns, rows0[i]);
    ghost var w0: map<string, Value> := map[];
    GuardedWrite(df, i, ApprovedSymbol, fields.aSym, rows0, w0);
    ghost var w1 := Guard(w0, ApprovedSymbol, fields.aSym);
    GuardedWrite(df, i, ApprovedName, fields.aName, rows0, w1);
    ghost var w2 := Guard(w1, ApprovedName, fields.aName);
    GuardedWrite(df, i, PreviousSymbols, fields.pSym, rows0, w2);
    ghost var w3 := Guard(w2, PreviousSymbols, fields.pSym);
    GuardedWrite(df, i, AliasSymbols, fields.alias, rows0, w3);
  }

  /** `if vals is not None and len(vals) > 0 and vals[0]: df.at[i, c] = vals[0]` */
  method GuardedWrite(df: Frame, i: nat, c: string, vals: seq<Value>,
                      ghost rows0: seq<seq<Value>>, ghost w: map<string, Value>)
    requires df.Valid() && i < |rows0| && c in df.columns
    requires |rows0[i]| == |df.columns|
    requires df.rows == rows0[i := Overwritten(df.columns, rows0[i], w)]
    modifies df
    ensures df.Valid() && df.columns == old(df.columns)
    ensures df.rows == rows0[i := Overwritten(df.columns, rows0[i], Guard(w, c, vals))]
  {
    if Writes(vals) {
      Write(df, i, c, vals[0], rows0, w);
    }
  }

  /** Whether a name was found, and the fields it was found with. */
  datatype Outcome = Outcome(found: bool, fields: GeneFields)

  /**
   * The lookup of one name shared by process_row and process_multiple_names:
   * the offline fields when the search yields a row (found, whatever the row
   * holds), else find_API's fields, found when their symbol is truthy.
   */
  function Resolve(snap: Snapshot, remote: Remote, name: string): Outcome {
    var offline := Search(snap, name).fields;
    if |offline.aSym| > 0 then Outcome(true, offline)
    else
      var api := ApiFields(FindApiLookup(name, remote).record);
      Outcome(Writes(api.aSym), api)
  }

  /**
   * With the default columns downloaded, a name is found exactly when the
   * offline search matches a row or the REST record it ends with has a
   * truthy symbol.
   */
  lemma ResolveFound(snap: Snapshot, remote: Remote, name: string)
    requires ApprovedSymbol in snap.header
    ensures Resolve(snap, remote, name).found <==>
      Search(snap, name).matchTypes != []
      || (FindApiLookup(name, remote).record.Some? && Truthy(Get(FindApiLookup(name, remote).record.value, "symbol")))
    ensures Search(snap, name).matchTypes != [] ==> Resolve(snap, remote, name).fields == Search(snap, name).fields
  {
    var s := Search(snap, name);
    var look := FindApiLookup(name, remote);
    var c := TransformString(name);
    var last := look.requests[|look.requests| - 1];
    assert look.record == Fetcher(remote)(last);
    assert look.record == GetData(remote.http(last));
    if s.matchTypes != [] {
      var k :| 0 <= k < |snap.rows|
        && RowMatch(snap.header, snap.rows[k], c) == Some(s.matchTypes[0])
        && (forall j :: 0 <= j < k ==> RowMatch(snap.header, snap.rows[j], c).None?)
        && s.fields == ExtractColumns(snap.header, snap.rows[k]);
      assert |s.fields.aSym| == 1;
    }
  }

  /** The cells process_row writes: the status, then the guarded result cells. */
  function SingleWrites(o: Outcome): map<string, Value> {
    map[MatchingStatus := Some(Str(Status(o.found)))] + GuardedWrites(o.fields)
  }

  /** Writing `w1` and then `w2` into a row is writing `w1 + w2`. */
  lemma OverwrittenTwice(cols: seq<string>, row: seq<Value>, w1: map<string, Value>, w2: map<string, Value>)
    requires |row| == |cols|
    ensures Overwritten(cols, Overwritten(cols, row, w1), w2) == Overwritten(cols, row, w1 + w2)
  {
  }

  /**
   * process_row: search offline, fall back to find_API when that yields no
   * row, write the status ("matched" for an offline row, otherwise iff the
   * API symbol is truthy), then assign the result cells. The branch for
   * several offline rows only logs, and Search never yields more than one.
   */
  method ProcessRow(df: Frame, i: nat, name: string, snap: Snapshot, remote: Remote)
    requires df.Valid() && i < |df.rows| && forall c :: c in RowColumns ==> c in df.columns
    modifies df
    ensures df.Valid() && df.columns == old(df.columns)
    ensures df.rows == old(df.rows)[i := Overwritten(df.columns, old(df.rows)[i], SingleWrites(Resolve(snap, remote, name)))]
  {
    var o := LookUp(snap, remote, name);
    WriteOutcome(df, i, o);
  }

  /** The writes of process_row once its name is resolved: the status, then the guarded result cells. */
  method WriteOutcome(df: Frame, i: nat, o: Outcome)
    requires df.Valid() && i < |df.rows| && forall c :: c in RowColumns ==> c in df.columns
    modifies df
    ensures df.Valid() && df.columns == old(df.columns)
    ensures df.rows == old(df.rows)[i := Overwritten(df.columns, old(df.rows)[i], SingleWrites(o))]
  {
    ghost var rows0 := df.rows;
    assert rows0[i] in rows0;
    OverwrittenNothing(df.columns, rows0[i]);
    Write(df, i, MatchingStatus, Some(Str(Status(o.found))), rows0, map[]);
    AssignGeneNames(df, i, o.fields);
    OverwrittenTwice(df.columns, rows0[i], map[MatchingStatus := Some(Str(Status(o.found)))], GuardedWrites(o.fields));
  }

  /**
   * The search of process_row and of each token of process_multiple_names:
   * search_single_gene, and find_API when the offline fields hold no row.
   */
  method LookUp(snap: Snapshot, remote: Remote, name: string) returns (o: Outcome)
    ensures o == Resolve(snap, remote, name)
  {
    var fields, matchTypes := SearchSingleGene(snap, name);
    var found := |fields.aSym| > 0;
    if !found {
      var requests;
      fields, requests := FindApi(name, remote);
      found := Writes(fields.aSym);
    }
    o := Outcome(found, fields);
  }

  // ---------------------------------------------------------------------------
  // process_multiple_names
  // ---------------------------------------------------------------------------

  /** The stripped, non-empty pieces, in order. */
  function TokensOf(pieces: seq<string>): (r: seq<string>)
    ensures forall t :: t in r <==> exists p :: p in pieces && Strip(p) == t && t != ""
  {
    if pieces == [] then []
    else
      var rest := TokensOf(pieces[1..]);
      assert forall p :: p in pieces <==> p == pieces[0] || p in pieces[1..];
      if Strip(pieces[0]) != "" then [Strip(pieces[0])] + rest else rest
  }

  /** `[n.strip() for n in name_str.split(',') if n.strip()]` */
  function Tokens(s: string): (r: seq<string>)
    ensures forall t :: t in r <==> exists p :: p in Split(s, ",") && Strip(p) == t && t != ""
    ensures forall t :: t in r ==> t != "" && Stripped(t) && ',' !in t
  {
    var pieces := Split(s, ",");
    var r := TokensOf(pieces);
    SplitPiecesAvoid(s, ',');
    forall t | t in r ensures Stripped(t) && ',' !in t {
      var p :| p in pieces && Strip(p) == t && t != "";
      StripIsStripped(p);
    }
    r
  }

  /** `f` applied to each token, in order. */
  function MapTokens(f: string -> Outcome, tokens: seq<string>): (r: seq<Outcome>)
    ensures |r| == |tokens|
    decreases |tokens|
  {
    if tokens == [] then []
    else MapTokens(f, tokens[..|tokens| - 1]) + [f(tokens[|tokens| - 1])]
  }

  /** Position `k` of the mapped tokens holds `f` of token `k`. */
  lemma {:induction false} MapTokensAt(f: string -> Outcome, tokens: seq<string>, k: nat)
    requires k < |tokens|
    ensures MapTokens(f, tokens)[k] == f(tokens[k])
    decreases |tokens|
  {
    var init := tokens[..|tokens| - 1];
    if k < |init| {
      MapTokensAt(f, init, k);
    }
  }

  /** The outcome of each token, in order. */
  function Outcomes(snap: Snapshot, remote: Remote, tokens: seq<string>): (r: seq<Outcome>)
    ensures |r| == |tokens|
  {
    MapTokens(name => Resolve(snap, remote, name), tokens)
  }

  /** The outcome of token `k` is that token's resolution. */
  lemma OutcomesAt(snap: Snapshot, remote: Remote, tokens: seq<string>, k: nat)
    requires k < |tokens|
    ensures Outcomes(snap, remote, tokens)[k] == Resolve(snap, remote, tokens[k])
  {
    MapTokensAt(name => Resolve(snap, remote, name), tokens, k);
  }

  /** Resolving one more token appends its outcome. */
  lemma OutcomesStep(snap: Snapshot, remote: Remote, tokens: seq<string>, k: nat)
    requires k < |tokens|
    ensures Outcomes(snap, remote, tokens[..k + 1]) == Outcomes(snap, remote, tokens[..k]) + [Resolve(snap, remote, tokens[k])]
  {
    assert tokens[..k + 1][..k] == tokens[..k];
  }

  /**
   * What one outcome adds to a field's set: the field's truthy first value,
   * if the name was found and that value is a string.
   */
  function Contribution(o: Outcome, which: Field): set<string> {
    var vals := Pick(o.fields, which);
    if o.found && Writes(vals) && Hashable(vals[0]) then {vals[0].value.text} else {}
  }

  /** A field whose truthy first value `set.add` refuses: a list, which is unhashable. */
  predicate ListHead(vals: seq<Value>) {
    Writes(vals) && !Hashable(vals[0])
  }

  /** Adding a found token's fields to the sets raises TypeError: one of them starts with a non-empty list. */
  predicate Unhashable(o: Outcome) {
    o.found && (ListHead(o.fields.aSym) || ListHead(o.fields.aName) || ListHead(o.fields.pSym) || ListHead(o.fields.alias))
  }

  /** Whether the token loop raises: some outcome cannot be added to the sets. */
  predicate AnyUnhashable(outcomes: seq<Outcome>) {
    exists k :: 0 <= k < |outcomes| && Unhashable(outcomes[k])
  }

  /** The record holds a non-empty list under `key`. */
  predicate ListAt(d: Record, key: string) {
    key in d && d[key].Strs? && d[key].items != []
  }

  /**
   * Only a REST record can make a token's fields unhashable: that happens
   * exactly when the token is not in the snapshot, the record find_API ends
   * with has a truthy symbol, and one of the four fields it reads is a
   * non-empty list.
   */
  lemma UnhashableMeaning(snap: Snapshot, remote: Remote, name: string)
    ensures Unhashable(Resolve(snap, remote, name)) <==>
      |Search(snap, name).fields.aSym| == 0
      && FindApiLookup(name, remote).record.Some?
      && var d := FindApiLookup(name, remote).record.value;
      && Truthy(Get(d, "symbol"))
      && (ListAt(d, "symbol") || ListAt(d, "name") || ListAt(d, "prev_symbol") || ListAt(d, "alias_symbol"))
  {
    var s := Search(snap, name);
    var o := Resolve(snap, remote, name);
    if |s.fields.aSym| > 0 {
      assert o == Outcome(true, s.fields);
      assert s.matchTypes != [];
      var k :| 0 <= k < |snap.rows| && s.fields == ExtractColumns(snap.header, snap.rows[k]);
      ExtractedHashable(snap.header, snap.rows[k]);
    } else {
      var rec := FindApiLookup(name, remote).record;
      var api := ApiFields(rec);
      assert o == Outcome(Writes(api.aSym), api);
      if rec.Some? && Truthy(Get(rec.value, "symbol")) {
        assert "symbol" in rec.value;
        assert Found(rec);
        var d := rec.value;
        ListHeadGet(d, "symbol");
        ListHeadGet(d, "name");
        ListHeadGet(d, "prev_symbol");
        ListHeadGet(d, "alias_symbol");
      }
    }
  }

  /** Fields read from the snapshot are strings or None, so none starts with a list. */
  lemma ExtractedHashable(header: seq<string>, row: Row)
    ensures var f := ExtractColumns(header, row);
      !ListHead(f.aSym) && !ListHead(f.aName) && !ListHead(f.pSym) && !ListHead(f.alias)
  {
  }

  /** A one-element field read from a record starts with a list exactly when the record holds a non-empty list there. */
  lemma ListHeadGet(d: Record, key: string)
    ensures ListHead([Get(d, key)]) <==> ListAt(d, key)
  {
  }

  /** The set one field accumulates over the outcomes: the truthy first values of the found tokens. */
  function Harvest(outcomes: seq<Outcome>, which: Field): set<string>
    decreases |outcomes|
  {
    if outcomes == [] then {}
    else Harvest(outcomes[..|outcomes| - 1], which) + Contribution(outcomes[|outcomes| - 1], which)
  }

  /** A value is accumulated exactly when some found token has it as the field's truthy first value. */
  lemma {:induction false} HarvestMembers(outcomes: seq<Outcome>, which: Field, v: string)
    ensures v in Harvest(outcomes, which) <==>
      exists k :: 0 <= k < |outcomes| && outcomes[k].found && Writes(Pick(outcomes[k].fields, which))
        && Pick(outcomes[k].fields, which)[0] == Some(Str(v))
    decreases |outcomes|
  {
    if outcomes != [] {
      var init := outcomes[..|outcomes| - 1];
      HarvestMembers(init, which, v);
      assert forall k :: 0 <= k < |init| ==> init[k] == outcomes[k];
    }
  }

  /** Whether some outcome was found. */
  function AnyFound(outcomes: seq<Outcome>): bool
    decreases |outcomes|
  {
    outcomes != [] && (AnyFound(outcomes[..|outcomes| - 1]) || outcomes[|outcomes| - 1].found)
  }

  /** The status of several names is "matched" iff at least one of them was found. */
  lemma {:induction false} AnyFoundMembers(outcomes: seq<Outcome>)
    ensures AnyFound(outcomes) <==> exists k :: 0 <= k < |outcomes| && outcomes[k].found
    decreases |outcomes|
  {
    if outcomes != [] {
      var init := outcomes[..|outcomes| - 1];
      AnyFoundMembers(init);
      assert forall k :: 0 <= k < |init| ==> init[k] == outcomes[k];
    }
  }

  /** The cells process_multiple_names writes: each result cell the sorted `"; "`-join of its set, then the status. */
  function MultiWrites(outcomes: seq<Outcome>): map<string, Value> {
    SetWrites(Harvest(outcomes, Sym), Harvest(outcomes, Name), Harvest(outcomes, Prev), Harvest(outcomes, AliasField), AnyFound(outcomes))
  }


  /** One step of the token loop: what an accumulator gains from the next outcome. */
  lemma HarvestAppend(outcomes: seq<Outcome>, o: Outcome, which: Field)
    ensures Harvest(outcomes + [o], which) == Harvest(outcomes, which) + Contribution(o, which)
  {
    assert (outcomes + [o])[..|outcomes|] == outcomes;
  }

  /** One step of the token loop: the flag is raised by the first found outcome. */
  lemma AnyFoundAppend(outcomes: seq<Outcome>, o: Outcome)
    ensures AnyFound(outcomes + [o]) == (AnyFound(outcomes) || o.found)
  {
    assert (outcomes + [o])[..|outcomes|] == outcomes;
  }

  /**
   * The body of the token loop: a found outcome raises the flag and adds each
   * truthy first value to its set, in field order; adding a list raises
   * TypeError (`raised`).
   */
  method Absorb(o: Outcome, symSet: set<string>, nameSet: set<string>, prevSet: set<string>, aliasSet: set<string>, matched: bool)
    returns (raised: bool, symSet': set<string>, nameSet': set<string>, prevSet': set<string>, aliasSet': set<string>, matched': bool)
    ensures raised <==> Unhashable(o)
    ensures !raised ==> symSet' == symSet + Contribution(o, Sym) && nameSet' == nameSet + Contribution(o, Name)
    ensures !raised ==> prevSet' == prevSet + Contribution(o, Prev) && aliasSet' == aliasSet + Contribution(o, AliasField)
    ensures !raised ==> matched' == (matched || o.found)
  {
    raised := false;
    symSet', nameSet', prevSet', aliasSet', matched' := symSet, nameSet, prevSet, aliasSet, matched;
    var found, fields := o.found, o.fields;
    if found {
      matched' := true;
      if Writes(fields.aSym) {
        if !Hashable(fields.aSym[0]) { return true, symSet', nameSet', prevSet', aliasSet', matched'; }
        symSet' := symSet' + {fields.aSym[0].value.text};
      }
      if Writes(fields.aName) {
        if !Hashable(fields.aName[0]) { return true, symSet', nameSet', prevSet', aliasSet', matched'; }
        nameSet' := nameSet' + {fields.aName[0].value.text};
      }
      if Writes(fields.pSym) {
        if !Hashable(fields.pSym[0]) { return true, symSet', nameSet', prevSet', aliasSet', matched'; }
        prevSet' := prevSet' + {fields.pSym[0].value.text};
      }
      if Writes(fields.alias) {
        if !Hashable(fields.alias[0]) { return true, symSet', nameSet', prevSet', aliasSet', matched'; }
        aliasSet' := aliasSet' + {fields.alias[0].value.text};
      }
    }
  }

  /**
   * The token loop of process_multiple_names: resolve each token in turn,
   * adding the truthy first value of each field of a found token to that
   * field's set, and noting whether any token was found. It stops with
   * `raised` at the first token whose fields cannot be added.
   */
  method Accumulate(snap: Snapshot, remote: Remote, genes: seq<string>)
    returns (raised: bool, symSet: set<string>, nameSet: set<string>, prevSet: set<string>, aliasSet: set<string>, matched: bool)
    ensures raised <==> AnyUnhashable(Outcomes(snap, remote, genes))
    ensures !raised ==> symSet == Harvest(Outcomes(snap, remote, genes), Sym)
    ensures !raised ==> nameSet == Harvest(Outcomes(snap, remote, genes), Name)
    ensures !raised ==> prevSet == Harvest(Outcomes(snap, remote, genes), Prev)
    ensures !raised ==> aliasSet == Harvest(Outcomes(snap, remote, genes), AliasField)
    ensures !raised ==> matched == AnyFound(Outcomes(snap, remote, genes))
  {
    raised := false;
    symSet, nameSet, prevSet, aliasSet := {}, {}, {}, {};
    matched := false;
    ghost var done: seq<Outcome> := [];
    var k := 0;
    while k < |genes|
      invariant Accumulated(snap, remote, genes, k, done, symSet, nameSet, prevSet, aliasSet, matched)
    {
      raised, symSet, nameSet, prevSet, aliasSet, matched, done :=
        AccumulateStep(snap, remote, genes, k, done, symSet, nameSet, prevSet, aliasSet, matched);
      if raised {
        return;
      }
      k := k + 1;
    }
    assert genes[..k] == genes;
  }

  /** After the tokens before `k`: `done` are their outcomes, none raised, and the sets and flag are harvested from them. */
  ghost predicate Accumulated(snap: Snapshot, remote: Remote, genes: seq<string>, k: nat, done: seq<Outcome>,
                              symSet: set<string>, nameSet: set<string>, prevSet: set<string>, aliasSet: set<string>, matched: bool) {
    && k <= |genes|
    && done == Outcomes(snap, remote, genes[..k])
    && !AnyUnhashable(done)
    && symSet == Harvest(done, Sym) && nameSet == Harvest(done, Name)
    && prevSet == Harvest(done, Prev) && aliasSet == Harvest(done, AliasField)
    && matched == AnyFound(done)
  }

  /** One pass of the token loop: resolve token `k` and absorb its outcome, or report that absorbing it raises. */
  method AccumulateStep(snap: Snapshot, remote: Remote, genes: seq<string>, k: nat, ghost done: seq<Outcome>,
                        symSet: set<string>, nameSet: set<string>, prevSet: set<string>, aliasSet: set<string>, matched: bool)
    returns (raised: bool, symSet': set<string>, nameSet': set<string>, prevSet': set<string>, aliasSet': set<string>, matched': bool,
             ghost done': seq<Outcome>)
    requires k < |genes| && Accumulated(snap, remote, genes, k, done, symSet, nameSet, prevSet, aliasSet, matched)
    ensures raised ==> AnyUnhashable(Outcomes(snap, remote, genes))
    ensures !raised ==> Accumulated(snap, remote, genes, k + 1, done', symSet', nameSet', prevSet', aliasSet', matched')
  {
    var o := LookUp(snap, remote, genes[k]);
    raised, symSet', nameSet', prevSet', aliasSet', matched' := Absorb(o, symSet, nameSet, prevSet, aliasSet, matched);
    done' := done + [o];
    if raised {
      OutcomesAt(snap, remote, genes, k);
      return;
    }
    OutcomesStep(snap, remote, genes, k);
    HarvestAppend(done, o, Sym);
    HarvestAppend(done, o, Name);
    HarvestAppend(done, o, Prev);
    HarvestAppend(done, o, AliasField);
    AnyFoundAppend(done, o);
    AnyUnhashableAppend(done, o);
  }

  /** One step of the token loop: the outcomes raise once one of them does. */
  lemma AnyUnhashableAppend(outcomes: seq<Outcome>, o: Outcome)
    ensures AnyUnhashable(outcomes + [o]) <==> AnyUnhashable(outcomes) || Unhashable(o)
  {
    assert forall j :: 0 <= j < |outcomes| ==> (outcomes + [o])[j] == outcomes[j];
    assert (outcomes + [o])[|outcomes|] == o;
  }

  /**
   * process_multiple_names: accumulate over the tokens of the cell, then
   * write each set, sorted and `"; "`-joined (`""` when empty), and the
   * status into row `i`. When the token loop raises, nothing is written.
   */
  method ProcessMultipleNames(df: Frame, i: nat, nameStr: string, snap: Snapshot, remote: Remote) returns (raised: bool)
    requires df.Valid() && i < |df.rows| && forall c :: c in RowColumns ==> c in df.columns
    modifies df
    ensures df.Valid() && df.columns == old(df.columns)
    ensures raised <==> AnyUnhashable(Outcomes(snap, remote, Tokens(nameStr)))
    ensures raised ==> df.rows == old(df.rows)
    ensures !raised ==> df.rows == old(df.rows)[i :=
      Overwritten(df.columns, old(df.rows)[i], MultiWrites(Outcomes(snap, remote, Tokens(nameStr))))]
  {
    var genes := Tokens(nameStr);
    var symSet, nameSet, prevSet, aliasSet, matched;
    raised, symSet, nameSet, prevSet, aliasSet, matched := Accumulate(snap, remote, genes);
    if raised {
      return;
    }
    WriteSets(df, i, symSet, nameSet, prevSet, aliasSet, matched);
  }

  /** The cells written from the accumulated sets and flag. */
  function SetWrites(symSet: set<string>, nameSet: set<string>, prevSet: set<string>, aliasSet: set<string>, matched: bool): map<string, Value> {
    map[ApprovedSymbol := Some(Str(JoinSorted(symSet))),
        ApprovedName := Some(Str(JoinSorted(nameSet))),
        PreviousSymbols := Some(Str(JoinSorted(prevSet))),
        AliasSymbols := Some(Str(JoinSorted(aliasSet))),
        MatchingStatus := Some(Str(Status(matched)))]
  }

  /** The writes at the end of process_multiple_names: the four joined sets, then the status. */
  method WriteSets(df: Frame, i: nat, symSet: set<string>, nameSet: set<string>, prevSet: set<string>, aliasSet: set<string>, matched: bool)
    requires df.Valid() && i < |df.rows| && forall c :: c in RowColumns ==> c in df.columns
    modifies df
    ensures df.Valid() && df.columns == old(df.columns)
    ensures df.rows == old(df.rows)[i := Overwritten(df.columns, old(df.rows)[i], SetWrites(symSet, nameSet, prevSet, aliasSet, matched))]
  {
    ghost var rows0 := df.rows;
    assert rows0[i] in rows0;
    OverwrittenNothing(df.columns, rows0[i]);
    ghost var w0: map<string, Value> := map[];
    Write(df, i, ApprovedSymbol, Some(Str(JoinSorted(symSet))), rows0, w0);
    ghost var w1 := w0[ApprovedSymbol := Some(Str(JoinSorted(symSet)))];
    Write(df, i, ApprovedName, Some(Str(JoinSorted(nameSet))), rows0, w1);
    ghost var w2 := w1[ApprovedName := Some(Str(JoinSorted(nameSet)))];
    Write(df, i, PreviousSymbols, Some(Str(JoinSorted(prevSet))), rows0, w2);
    ghost var w3 := w2[PreviousSymbols := Some(Str(JoinSorted(prevSet)))];
    Write(df, i, AliasSymbols, Some(Str(JoinSorted(aliasSet))), rows0, w3);
    ghost var w4 := w3[AliasSymbols := Some(Str(JoinSorted(aliasSet)))];
    Write(df, i, MatchingStatus, Some(Str(Status(matched))), rows0, w4);
  }

  // ---------------------------------------------------------------------------
  // convert_gene_names
  // ---------------------------------------------------------------------------

  /** The label the identifier column is renamed to at the end. */
  const UserInput := "user_input"


  /** The labels after `df['matching_status'] = "un-matched"`: the status column is appended unless present. */
  function StatusColumns(cols: seq<string>): seq<string> {
    if MatchingStatus in cols then cols else cols + [MatchingStatus]
  }

  /** The rows after `df['matching_status'] = "un-matched"`. */
  function StatusRows(cols: seq<string>, rows: seq<seq<Value>>): (r: seq<seq<Value>>)
    requires forall i :: 0 <= i < |rows| ==> |rows[i]| == |cols|
    ensures |r| == |rows| && forall i :: 0 <= i < |r| ==> |r[i]| == |StatusColumns(cols)|
  {
    if MatchingStatus in cols then SetInRows(rows, IndexIn(cols, MatchingStatus), Some(Str(Status(false))))
    else InsertInRows(rows, |cols|, Some(Str(Status(false))))
  }

  /** The labels of the table the rows are processed in: the status column added, the result columns inserted after `nameCol`. */
  function PreparedColumns(cols: seq<string>, nameCol: string): seq<string>
    requires nameCol in cols
  {
    InsertedAfter(StatusColumns(cols), IndexIn(StatusColumns(cols), nameCol), ResultColumns)
  }

  /** The rows of that table: the status cell set, four None cells after the identifier. */
  function PreparedRows(cols: seq<string>, rows: seq<seq<Value>>, nameCol: string): (r: seq<seq<Value>>)
    requires nameCol in cols && forall i :: 0 <= i < |rows| ==> |rows[i]| == |cols|
    ensures |r| == |rows| && forall i :: 0 <= i < |r| ==> |r[i]| == |PreparedColumns(cols, nameCol)|
  {
    var status := StatusRows(cols, rows);
    var p := IndexIn(StatusColumns(cols), nameCol);
    var r := Padded(status, p, |ResultColumns|);
    assert forall i :: 0 <= i < |r| ==> |r[i]| == |status[i]| + |ResultColumns|;
    r
  }

  /**
   * The copy, status column and column insertion of convert_gene_names. It
   * fails (ok == false) exactly when a result column is already present,
   * where `df.insert` raises.
   */
  method PrepareFrame(original: Frame, nameCol: string) returns (ok: bool, df: Frame)
    requires original.Valid() && nameCol in original.columns
    ensures fresh(df) && df.Valid()
    ensures ok <==> forall c :: c in ResultColumns ==> c !in original.columns
    ensures ok ==> df.columns == PreparedColumns(original.columns, nameCol)
    ensures ok ==> df.rows == PreparedRows(original.columns, original.rows, nameCol)
  {
    df := new Frame(original.columns, original.rows);
    df.AssignColumn(MatchingStatus, Some(Str(Status(false))));
    assert df.columns == StatusColumns(original.columns);
    assert df.rows == StatusRows(original.columns, original.rows);
    assert forall c :: c in ResultColumns ==> c != MatchingStatus;
    ok := InsertColumnsAfter(df, nameCol, ResultColumns);
  }

  /** What the per-row dispatch writes into a row whose identifier cell holds `name`. */
  function RowWrites(snap: Snapshot, remote: Remote, name: string): map<string, Value> {
    if ',' in name then MultiWrites(Outcomes(snap, remote, Tokens(name)))
    else SingleWrites(Resolve(snap, remote, name))
  }

  /** The rows once the first `n` have been processed, reading each identifier at position `k`. */
  function ProcessedRows(cols: seq<string>, rows: seq<seq<Value>>, k: nat, snap: Snapshot, remote: Remote, n: nat): (r: seq<seq<Value>>)
    requires forall i :: 0 <= i < |rows| ==> |rows[i]| == |cols|
    requires NamesPresent(rows, k) && n <= |rows|
    ensures |r| == |rows| && forall i :: 0 <= i < |r| ==> |r[i]| == |cols|
  {
    seq(|rows|, i requires 0 <= i < |rows| =>
      if i < n then Overwritten(cols, rows[i], RowWrites(snap, remote, rows[i][k].value.text)) else rows[i])
  }

  /** Processing row `n` moves the processed prefix on by one. */
  lemma ProcessedStep(cols: seq<string>, rows: seq<seq<Value>>, k: nat, snap: Snapshot, remote: Remote, n: nat)
    requires forall i :: 0 <= i < |rows| ==> |rows[i]| == |cols|
    requires NamesPresent(rows, k) && n < |rows|
    ensures ProcessedRows(cols, rows, k, snap, remote, n)[n] == rows[n]
    ensures ProcessedRows(cols, rows, k, snap, remote, n)[n := Overwritten(cols, rows[n], RowWrites(snap, remote, rows[n][k].value.text))]
      == ProcessedRows(cols, rows, k, snap, remote, n + 1)
  {
  }

  /** Whether processing a row with identifier `name` raises: only the several-names path can. */
  predicate RowRaises(snap: Snapshot, remote: Remote, name: string) {
    ',' in name && AnyUnhashable(Outcomes(snap, remote, Tokens(name)))
  }

  /**
   * A cell of several names raises exactly when one of its tokens is
   * unhashable (see UnhashableMeaning); a single name never raises.
   */
  lemma RowRaisesMeaning(snap: Snapshot, remote: Remote, name: string)
    ensures ',' in name ==> (RowRaises(snap, remote, name) <==>
      exists k :: 0 <= k < |Tokens(name)| && Unhashable(Resolve(snap, remote, Tokens(name)[k])))
    ensures ',' !in name ==> !RowRaises(snap, remote, name)
  {
    var tokens := Tokens(name);
    var outs := Outcomes(snap, remote, tokens);
    forall k | 0 <= k < |tokens| ensures outs[k] == Resolve(snap, remote, tokens[k]) {
      OutcomesAt(snap, remote, tokens, k);
    }
  }

  /**
   * The row loop of convert_gene_names: each row's identifier goes to
   * process_multiple_names when it holds a `,`, else to process_row. The
   * loop gets through (ok) exactly when no row raises.
   */
  method ProcessRows(df: Frame, nameCol: string, snap: Snapshot, remote: Remote) returns (ok: bool)
    requires df.Valid() && nameCol in df.columns && forall c :: c in RowColumns ==> c in df.columns
    requires NamesPresent(df.rows, IndexIn(df.columns, nameCol))
    modifies df
    ensures df.Valid() && df.columns == old(df.columns)
    ensures ok <==> NoRowRaises(old(df.rows), IndexIn(df.columns, nameCol), snap, remote, |old(df.rows)|)
    ensures ok ==> df.rows == ProcessedRows(df.columns, old(df.rows), IndexIn(df.columns, nameCol), snap, remote, |old(df.rows)|)
  {
    ghost var rows0 := df.rows;
    var k := IndexIn(df.columns, nameCol);
    var n := |df.rows|;
    var i := 0;
    while i < n
      invariant 0 <= i <= n && df.Valid() && df.columns == old(df.columns)
      invariant df.rows == ProcessedRows(df.columns, rows0, k, snap, remote, i)
      invariant NoRowRaises(rows0, k, snap, remote, i)
    {
      var raised := ProcessOne(df, k, i, snap, remote, rows0);
      NoRowRaisesStep(rows0, k, snap, remote, i);
      if raised {
        return false;
      }
      i := i + 1;
    }
    return true;
  }

  /** No row before `n` raises, reading each identifier at position `k`. */
  predicate NoRowRaises(rows: seq<seq<Value>>, k: nat, snap: Snapshot, remote: Remote, n: nat)
    requires NamesPresent(rows, k) && n <= |rows|
  {
    forall j :: 0 <= j < n ==> !RowRaises(snap, remote, rows[j][k].value.text)
  }

  /** The rows before `n + 1` get through exactly when those before `n` and row `n` do. */
  lemma NoRowRaisesStep(rows: seq<seq<Value>>, k: nat, snap: Snapshot, remote: Remote, n: nat)
    requires NamesPresent(rows, k) && n < |rows|
    ensures NoRowRaises(rows, k, snap, remote, n + 1)
      <==> NoRowRaises(rows, k, snap, remote, n) && !RowRaises(snap, remote, rows[n][k].value.text)
  {
  }

  /** One pass of the row loop: row `i` dispatched on its identifier; `raised` when its processing raises. */
  method ProcessOne(df: Frame, k: nat, i: nat, snap: Snapshot, remote: Remote, ghost rows0: seq<seq<Value>>) returns (raised: bool)
    requires df.Valid() && forall c :: c in RowColumns ==> c in df.columns
    requires (forall j :: 0 <= j < |rows0| ==> |rows0[j]| == |df.columns|) && NamesPresent(rows0, k) && i < |rows0|
    requires df.rows == ProcessedRows(df.columns, rows0, k, snap, remote, i)
    modifies df
    ensures df.Valid() && df.columns == old(df.columns)
    ensures raised <==> RowRaises(snap, remote, rows0[i][k].value.text)
    ensures !raised ==> df.rows == ProcessedRows(df.columns, rows0, k, snap, remote, i + 1)
  {
    ProcessedStep(df.columns, rows0, k, snap, remote, i);
    var name := df.rows[i][k].value.text;
    raised := false;
    if ',' in name {
      raised := ProcessMultipleNames(df, i, name, snap, remote);
    } else {
      ProcessRow(df, i, name, snap, remote);
    }
  }

  /** What the converted table holds: the prepared rows, each overwritten with what its identifier resolves to. */
  function ConvertedRows(cols: seq<string>, rows: seq<seq<Value>>, nameCol: string, snap: Snapshot, remote: Remote): (r: seq<seq<Value>>)
    requires nameCol in cols && forall i :: 0 <= i < |rows| ==> |rows[i]| == |cols|
    requires NamesPresent(rows, IndexIn(cols, nameCol))
    ensures |r| == |rows| && forall i :: 0 <= i < |r| ==> |r[i]| == |PreparedColumns(cols, nameCol)|
  {
    var pcols := PreparedColumns(cols, nameCol);
    var prows := PreparedRows(cols, rows, nameCol);
    PreparedNames(cols, rows, nameCol);
    ProcessedRows(pcols, prows, IndexIn(pcols, nameCol), snap, remote, |prows|)
  }

  /**
   * Every prepared row still holds a string under `nameCol`: the original
   * identifier, or `"un-matched"` when the identifier column is the status
   * column itself.
   */
  lemma PreparedNames(cols: seq<string>, rows: seq<seq<Value>>, nameCol: string)
    requires nameCol in cols && forall i :: 0 <= i < |rows| ==> |rows[i]| == |cols|
    requires NamesPresent(rows, IndexIn(cols, nameCol))
    ensures NamesPresent(PreparedRows(cols, rows, nameCol), IndexIn(PreparedColumns(cols, nameCol), nameCol))
    ensures forall i :: 0 <= i < |rows| ==>
      PreparedRows(cols, rows, nameCol)[i][IndexIn(PreparedColumns(cols, nameCol), nameCol)]
        == if nameCol == MatchingStatus then Some(Str(Status(false))) else rows[i][IndexIn(cols, nameCol)]
  {
    var p := IndexIn(cols, nameCol);
    PreparedNamePosition(cols, nameCol);
    var status := StatusRows(cols, rows);
    forall i | 0 <= i < |rows|
      ensures status[i][p] == if nameCol == MatchingStatus then Some(Str(Status(false))) else rows[i][p]
    {
      if MatchingStatus in cols {
        var m := IndexIn(cols, MatchingStatus);
        assert nameCol != MatchingStatus ==> m != p;
      } else {
        assert status[i] == rows[i][..|cols|] + [Some(Str(Status(false)))] + rows[i][|cols|..];
      }
    }
  }

  /** The identifier column keeps its position through the status column and the insertion. */
  lemma PreparedNamePosition(cols: seq<string>, nameCol: string)
    requires nameCol in cols
    ensures IndexIn(StatusColumns(cols), nameCol) == IndexIn(cols, nameCol)
    ensures IndexIn(PreparedColumns(cols, nameCol), nameCol) == IndexIn(cols, nameCol)
  {
    var p := IndexIn(cols, nameCol);
    var s := StatusColumns(cols);
    assert s[..p] == cols[..p] && s[p] == nameCol;
    IndexInFirst(s, nameCol, p);
    var r := PreparedColumns(cols, nameCol);
    InsertedAfterLayout(s, p, ResultColumns);
    assert r[..p] == s[..p] && r[p] == nameCol by {
      assert r[..p] == r[..p + 1][..p] && s[..p] == s[..p + 1][..p];
    }
    IndexInFirst(r, nameCol, p);
  }

  /** The snapshot convert_gene_names downloads for the identifiers in `labels`. */
  function Download(labels: seq<string>, remote: Remote): Option<Snapshot> {
    remote.download(MakeAndFetchUrl(SelectColumns(labels)))
  }

  /**
   * convert_gene_names: select the columns and download the snapshot, copy
   * the table, add the status and result columns, process every row and
   * rename the identifier column to `user_input`. It fails (ok == false)
   * where the source raises: the identifier column is absent, the download
   * fails, a result column is already present or a row of several names
   * gets a list from the REST API for a set.
   */
  method ConvertGeneNames(original: Frame, nameCol: string, remote: Remote) returns (ok: bool, df: Frame)
    requires original.Valid()
    requires nameCol in original.columns ==> NamesPresent(original.rows, IndexIn(original.columns, nameCol))
    requires UserInput in original.columns ==> nameCol == UserInput
    ensures fresh(df) && df.Valid()
    ensures ok <==> (nameCol in original.columns
      && Download(Strings(original.Column(nameCol)), remote).Some?
      && (forall c :: c in ResultColumns ==> c !in original.columns)
      && !Raises(original.columns, original.rows, nameCol, Download(Strings(original.Column(nameCol)), remote).value, remote))
    ensures ok ==> df.columns == Renamed(PreparedColumns(original.columns, nameCol), nameCol, UserInput)
    ensures ok ==> df.rows == ConvertedRows(original.columns, original.rows, nameCol,
      Download(Strings(original.Column(nameCol)), remote).value, remote)
  {
    if nameCol !in original.columns {
      ok := false;
      df := new Frame([], []);
      return;
    }
    var labels := Strings(original.Column(nameCol));
    var columnsNeeded := AddColumns(labels);
    var url := MakeAndFetchUrl(columnsNeeded);
    var snap := remote.download(url);
    if snap.None? {
      ok := false;
      df := new Frame([], []);
      return;
    }
    ok, df := ConvertWith(original, nameCol, snap.value, remote);
  }

  /** convert_gene_names once the snapshot is at hand: prepare the table, process the rows, rename the identifier column. */
  method ConvertWith(original: Frame, nameCol: string, snap: Snapshot, remote: Remote) returns (ok: bool, df: Frame)
    requires original.Valid() && nameCol in original.columns
    requires NamesPresent(original.rows, IndexIn(original.columns, nameCol))
    requires UserInput in original.columns ==> nameCol == UserInput
    ensures fresh(df) && df.Valid()
    ensures ok <==> ((forall c :: c in ResultColumns ==> c !in original.columns)
      && !Raises(original.columns, original.rows, nameCol, snap, remote))
    ensures ok ==> df.columns == Renamed(PreparedColumns(original.columns, nameCol), nameCol, UserInput)
    ensures ok ==> df.rows == ConvertedRows(original.columns, original.rows, nameCol, snap, remote)
  {
    ok, df := PrepareFrame(original, nameCol);
    if !ok {
      return;
    }
    ok := ProcessAndRename(df, original.columns, original.rows, nameCol, snap, remote);
  }

  /** The row loop and the rename, on the prepared table. */
  method ProcessAndRename(df: Frame, cols: seq<string>, rows: seq<seq<Value>>, nameCol: string, snap: Snapshot, remote: Remote)
    returns (ok: bool)
    requires nameCol in cols && forall i :: 0 <= i < |rows| ==> |rows[i]| == |cols|
    requires NamesPresent(rows, IndexIn(cols, nameCol))
    requires UserInput in cols ==> nameCol == UserInput
    requires df.Valid() && df.columns == PreparedColumns(cols, nameCol) && df.rows == PreparedRows(cols, rows, nameCol)
    modifies df
    ensures df.Valid()
    ensures ok <==> !Raises(cols, rows, nameCol, snap, remote)
    ensures ok ==> df.columns == Renamed(PreparedColumns(cols, nameCol), nameCol, UserInput)
    ensures ok ==> df.rows == ConvertedRows(cols, rows, nameCol, snap, remote)
  {
    PreparedNames(cols, rows, nameCol);
    PreparedHasRowColumns(cols, nameCol);
    PreparedHasUserInput(cols, nameCol);
    PreparedRaises(cols, rows, nameCol, snap, remote);
    ok := ProcessRows(df, nameCol, snap, remote);
    if !ok {
      return;
    }
    df.Rename(nameCol, UserInput);
  }

  /** The row loop over the prepared table raises exactly when Raises holds of the original table. */
  lemma PreparedRaises(cols: seq<string>, rows: seq<seq<Value>>, nameCol: string, snap: Snapshot, remote: Remote)
    requires nameCol in cols && forall i :: 0 <= i < |rows| ==> |rows[i]| == |cols|
    requires NamesPresent(rows, IndexIn(cols, nameCol))
    ensures NamesPresent(PreparedRows(cols, rows, nameCol), IndexIn(PreparedColumns(cols, nameCol), nameCol))
    ensures NoRowRaises(PreparedRows(cols, rows, nameCol), IndexIn(PreparedColumns(cols, nameCol), nameCol), snap, remote, |rows|)
      <==> !Raises(cols, rows, nameCol, snap, remote)
  {
    PreparedReads(cols, rows, nameCol);
  }

  /** The identifier the row loop reads from each prepared row is NameRead of the original row. */
  lemma PreparedReads(cols: seq<string>, rows: seq<seq<Value>>, nameCol: string)
    requires nameCol in cols && forall i :: 0 <= i < |rows| ==> |rows[i]| == |cols|
    requires NamesPresent(rows, IndexIn(cols, nameCol))
    ensures NamesPresent(PreparedRows(cols, rows, nameCol), IndexIn(PreparedColumns(cols, nameCol), nameCol))
    ensures forall i :: 0 <= i < |rows| ==>
      PreparedRows(cols, rows, nameCol)[i][IndexIn(PreparedColumns(cols, nameCol), nameCol)].value.text
        == NameRead(cols, rows, nameCol, i)
  {
    PreparedNames(cols, rows, nameCol);
  }

  /** The prepared table holds `user_input` only where the original did. */
  lemma PreparedHasUserInput(cols: seq<string>, nameCol: string)
    requires nameCol in cols
    ensures UserInput in PreparedColumns(cols, nameCol) ==> UserInput in cols
  {
    var s := StatusColumns(cols);
    var p := IndexIn(s, nameCol);
    assert PreparedColumns(cols, nameCol) == s[..p + 1] + ResultColumns + s[p + 1..];
    assert s == s[..p + 1] + s[p + 1..];
  }

  /** The prepared table has every column the row processing writes. */
  lemma PreparedHasRowColumns(cols: seq<string>, nameCol: string)
    requires nameCol in cols
    ensures forall c :: c in RowColumns ==> c in PreparedColumns(cols, nameCol)
  {
    var s := StatusColumns(cols);
    var p := IndexIn(s, nameCol);
    assert s == s[..p + 1] + s[p + 1..];
    assert MatchingStatus in s;
  }

  /** The per-row writes touch only the result columns and the status, and always set the status. */
  lemma RowWritesColumns(snap: Snapshot, remote: Remote, name: string)
    ensures forall c :: c in RowWrites(snap, remote, name) ==> c in RowColumns
    ensures MatchingStatus in RowWrites(snap, remote, name)
    ensures RowWrites(snap, remote, name)[MatchingStatus] == Some(Str(Status(RowFound(snap, remote, name))))
  {
    if ',' in name {
      MultiWritesColumns(Outcomes(snap, remote, Tokens(name)));
    } else {
      SingleWritesColumns(Resolve(snap, remote, name));
    }
  }

  /** process_row's writes: guarded result columns and the status. */
  lemma SingleWritesColumns(o: Outcome)
    ensures forall c :: c in SingleWrites(o) ==> c in RowColumns
    ensures MatchingStatus in SingleWrites(o) && SingleWrites(o)[MatchingStatus] == Some(Str(Status(o.found)))
  {
    assert MatchingStatus !in ResultColumns;
  }

  /** process_multiple_names' writes: the four result columns and the status. */
  lemma MultiWritesColumns(outcomes: seq<Outcome>)
    ensures forall c :: c in MultiWrites(outcomes) ==> c in RowColumns
    ensures MatchingStatus in MultiWrites(outcomes) && MultiWrites(outcomes)[MatchingStatus] == Some(Str(Status(AnyFound(outcomes))))
  {
  }

  /** Whether a row's identifier counts as found: some token found for several names, else the one name. */
  function RowFound(snap: Snapshot, remote: Remote, name: string): bool {
    if ',' in name then AnyFound(Outcomes(snap, remote, Tokens(name)))
    else Resolve(snap, remote, name).found
  }

  /**
   * The identifier the row loop reads from row `i`: the original one, or
   * `"un-matched"` when the identifier column is the status column, which
   * the status assignment overwrote.
   */
  function NameRead(cols: seq<string>, rows: seq<seq<Value>>, nameCol: string, i: nat): string
    requires nameCol in cols && NamesPresent(rows, IndexIn(cols, nameCol)) && i < |rows|
  {
    if nameCol == MatchingStatus then Status(false) else rows[i][IndexIn(cols, nameCol)].value.text
  }

  /** Whether the row loop raises on the table: some row's identifier, as the loop reads it, raises. */
  predicate Raises(cols: seq<string>, rows: seq<seq<Value>>, nameCol: string, snap: Snapshot, remote: Remote)
    requires nameCol in cols && NamesPresent(rows, IndexIn(cols, nameCol))
  {
    exists i :: 0 <= i < |rows| && RowRaises(snap, remote, NameRead(cols, rows, nameCol, i))
  }

  /** A cell holding several names is found exactly when one of its tokens is; a single name when it resolves. */
  lemma RowFoundMeaning(snap: Snapshot, remote: Remote, name: string)
    ensures ',' in name ==> (RowFound(snap, remote, name) <==>
      exists k :: 0 <= k < |Tokens(name)| && Resolve(snap, remote, Tokens(name)[k]).found)
    ensures ',' !in name ==> RowFound(snap, remote, name) == Resolve(snap, remote, name).found
  {
    var tokens := Tokens(name);
    var outs := Outcomes(snap, remote, tokens);
    AnyFoundMembers(outs);
    forall k | 0 <= k < |tokens| ensures outs[k] == Resolve(snap, remote, tokens[k]) {
      OutcomesAt(snap, remote, tokens, k);
    }
  }

  /** A cell of a converted row: what the row's writes put there, else the prepared value. */
  lemma ConvertedCell(cols: seq<string>, rows: seq<seq<Value>>, nameCol: string, snap: Snapshot, remote: Remote, i: nat, j: nat)
    requires nameCol in cols && forall k :: 0 <= k < |rows| ==> |rows[k]| == |cols|
    requires NamesPresent(rows, IndexIn(cols, nameCol))
    requires i < |rows| && j < |PreparedColumns(cols, nameCol)|
    ensures
      var pcols := PreparedColumns(cols, nameCol);
      var w := RowWrites(snap, remote, NameRead(cols, rows, nameCol, i));
      ConvertedRows(cols, rows, nameCol, snap, remote)[i][j]
        == if pcols[j] in w then w[pcols[j]] else PreparedRows(cols, rows, nameCol)[i][j]
  {
    PreparedNames(cols, rows, nameCol);
  }

  /** The status cell of every converted row says whether the row's identifier was found. */
  lemma ConvertedStatus(cols: seq<string>, rows: seq<seq<Value>>, nameCol: string, snap: Snapshot, remote: Remote, i: nat)
    requires nameCol in cols && forall k :: 0 <= k < |rows| ==> |rows[k]| == |cols|
    requires NamesPresent(rows, IndexIn(cols, nameCol)) && i < |rows|
    ensures MatchingStatus in PreparedColumns(cols, nameCol)
    ensures ConvertedRows(cols, rows, nameCol, snap, remote)[i][IndexIn(PreparedColumns(cols, nameCol), MatchingStatus)]
      == Some(Str(Status(RowFound(snap, remote, NameRead(cols, rows, nameCol, i)))))
  {
    PreparedHasRowColumns(cols, nameCol);
    var j := IndexIn(PreparedColumns(cols, nameCol), MatchingStatus);
    ConvertedCell(cols, rows, nameCol, snap, remote, i, j);
    RowWritesColumns(snap, remote, NameRead(cols, rows, nameCol, i));
  }

  /**
   * Every cell of the user's own columns (all but the status column) comes
   * through the conversion unchanged, at the column's new position.
   */
  lemma ConvertKeepsUserCells(cols: seq<string>, rows: seq<seq<Value>>, nameCol: string, snap: Snapshot, remote: Remote, i: nat, c: string)
    requires nameCol in cols && forall k :: 0 <= k < |rows| ==> |rows[k]| == |cols|
    requires NamesPresent(rows, IndexIn(cols, nameCol)) && i < |rows|
    requires forall r :: r in ResultColumns ==> r !in cols
    requires c in cols && c != MatchingStatus
    ensures c in PreparedColumns(cols, nameCol)
    ensures ConvertedRows(cols, rows, nameCol, snap, remote)[i][IndexIn(PreparedColumns(cols, nameCol), c)]
      == rows[i][IndexIn(cols, c)]
  {
    PreparedPosition(cols, nameCol, c);
    var j := IndexIn(PreparedColumns(cols, nameCol), c);
    ConvertedCell(cols, rows, nameCol, snap, remote, i, j);
    RowWritesColumns(snap, remote, NameRead(cols, rows, nameCol, i));
    assert c !in RowColumns;
    PreparedCell(cols, rows, nameCol, i, c);
  }

  /** Where a column of the original table sits in the prepared one: four places on when it follows the identifier. */
  lemma PreparedPosition(cols: seq<string>, nameCol: string, c: string)
    requires nameCol in cols && c in cols && c !in ResultColumns
    ensures c in PreparedColumns(cols, nameCol)
    ensures IndexIn(PreparedColumns(cols, nameCol), c)
      == if IndexIn(cols, c) <= IndexIn(cols, nameCol) then IndexIn(cols, c) else IndexIn(cols, c) + |ResultColumns|
  {
    var s := StatusColumns(cols);
    PreparedNamePosition(cols, nameCol);
    if MatchingStatus !in cols {
      IndexInPrefix(cols, [MatchingStatus], c);
    }
    IndexInInserted(s, IndexIn(cols, nameCol), ResultColumns, c);
  }

  /** A prepared row holds the original value of each user column other than the status column. */
  lemma PreparedCell(cols: seq<string>, rows: seq<seq<Value>>, nameCol: string, i: nat, c: string)
    requires nameCol in cols && forall k :: 0 <= k < |rows| ==> |rows[k]| == |cols|
    requires i < |rows| && c in cols && c != MatchingStatus && c !in ResultColumns
    ensures c in PreparedColumns(cols, nameCol)
    ensures PreparedRows(cols, rows, nameCol)[i][IndexIn(PreparedColumns(cols, nameCol), c)] == rows[i][IndexIn(cols, c)]
  {
    var p, q := IndexIn(cols, nameCol), IndexIn(cols, c);
    PreparedPosition(cols, nameCol, c);
    PreparedNamePosition(cols, nameCol);
    StatusCell(cols, rows, i, q);
    PaddedCell(StatusRows(cols, rows), p, |ResultColumns|, i, q);
  }

  /** The status assignment leaves every other cell of a row alone. */
  lemma StatusCell(cols: seq<string>, rows: seq<seq<Value>>, i: nat, q: nat)
    requires forall k :: 0 <= k < |rows| ==> |rows[k]| == |cols|
    requires i < |rows| && q < |cols| && cols[q] != MatchingStatus
    ensures StatusRows(cols, rows)[i][q] == rows[i][q]
  {
    if MatchingStatus !in cols {
      assert StatusRows(cols, rows)[i] == rows[i][..|cols|] + [Some(Str(Status(false)))] + rows[i][|cols|..];
    }
  }
}
