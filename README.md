# HGNC gene-name converter, modelled in Dafny

The converter takes a table with a column of gene identifiers and fills in four
result columns for each row: `Approved symbol`, `Approved name`, `Previous
symbols` and `Alias symbols`. The identifiers can be symbols, aliases, Ensembl
ids, HGNC ids or NCBI ids. Besides the rest of the table, it uses two sources:

- a bulk snapshot of the HGNC registry, downloaded through a URL that names
  the needed columns;
- the HGNC REST API, used as a fallback for each identifier.

The repository holds three versions of the converter. This project models all
three:

- `gene_lookup_v3.py`, the current one;
- `gene_lookup_v2.py`;
- `Functions.py`, the first.

For each version it proves what the code does, and it proves how the
versions differ.

Modules (one file each):

- `Wrappers` — `Option`.
- `Values` — what a table cell or a REST field holds: `None`, a string, or a
  list of strings (the REST API returns `prev_symbol` and `alias_symbol` as
  JSON arrays). It also gives Python truthiness and whether `set.add` accepts
  the value.
- `Text` — the Python string operations the converter relies on: `startswith`,
  `split`, `join`, `strip`, `sorted` on a set of strings.
- `Hgnc` — what the versions share:
  - the three identifier patterns of `addColumns` and the column list they
    select (`SelectColumns`);
  - the `col=gd_<c>&` parameters of the download URL;
  - the snapshot (a header and rows as maps from column to text, as
    `csv.DictReader` gives them);
  - the `", "`-item membership test of the first two versions;
  - the row and column scans over the snapshot;
  - the REST endpoints and the endpoint loop of `find_API`.
- `Frames` — the pandas DataFrame the converter edits in place:
  - a `class Frame` whose `columns` and `rows` fields are reassigned by
    `Insert`, `AssignColumn`, `SetCell`, `Rename` and `Drop`;
  - the functions that specify those edits.
- `GeneLookupV3`, `GeneLookupV2`, `FunctionsV1` — the three versions. Code
  that loops or writes cells becomes methods with loops and `modifies df`.
  Each method is proved against a specification function, and the lemmas
  state what the source promises about that function.
- `VersionDifferences` — how the versions' identifier normalisation and
  membership tests relate, with concrete identifiers that tell them apart.

Collaborators that cannot be seen are parameters:

- The snapshot download is `download: string -> Option<Snapshot>`. `None`
  stands for a failed download.
- The REST call is `http: string -> HttpReply` in the third version. In the
  second, it is `getData: string -> Option<Record>`.
- URL quoting is `quote: string -> string`.

Where the documented behaviour and the code disagree, the model follows the
code:

- **Ensembl identifiers in the third version.** It cuts at the first `.`
  (`split('.', 1)[0]`), in spite of its comment and the documentation, which
  both speak of the version suffix after the last dot.
- **HGNC identifiers in the first two versions.** They keep only the text
  between the first and second `:`, not everything after the colon.
- **Columns the offline search tries.** It tries the snapshot header in
  header order, not a fixed priority order.
- **Separators.** Only `,` (third version) or `", "` (first two) separates
  items; `;` does not.
- **Rows returned by the third version's search.** It returns at most the
  first matching row, even for untyped identifiers. So the
  multiple-match branch of `process_row` cannot run.
- **Missing REST fields.** A missing field gives Python `None`, not an empty
  value, and the guarded write then leaves the cell as it was.
- **Position of the result columns.** They go directly after the identifier
  column, wherever that column is. Columns before it stay before it.
- **REST lists in the third version.** `prev_symbol` and `alias_symbol` come
  back as lists. On a single-name row the guarded write stores the list
  itself in the cell, because the result columns have object dtype. On a
  row of several names, `set.add` of a non-empty list raises TypeError,
  which ends the whole conversion. So a row of several names whose token is
  only found through the REST API, with previous symbols or aliases, makes
  the third version fail.
- **REST fallback in the second version.** It is unreachable. An empty
  offline result already raises KeyError at `gene_lookup_v2.py:113`, or at
  line 102 for a typed identifier when the type column is missing. A
  non-empty result always gives a non-empty `aSym`. So the `find_API` branch
  at lines 194-197 never runs.

## Model

| member | source | states |
|---|---|---|
| Hgnc.PatternsDisjoint | Previous_Versions/Version_3/gene_lookup_v3.py:28-33 | no label matches two of the `^HGNC:\d+$`, `^ENSG\d+$`, `^\d+(\.\d+)?$` patterns, so the `elif` chain raises at most one flag per label |
| Hgnc.SelectColumnsIgnoresOrder | Previous_Versions/Version_3/gene_lookup_v3.py:23-45 | two identifier columns holding the same labels select the same download columns, whatever their order or repetitions |
| Hgnc.ColumnParamsCons | Previous_Versions/Version_1/Functions.py:38-44 | the parameter string of a non-empty column list is `col=gd_<first>&` followed by that of the rest |
| Hgnc.InSplitCellOfJoined | gene_lookup_v2.py:102-107 | a cell made of comma-free items joined by `", "` holds a name under the `split(', ')` test exactly when the name is one of the items |
| Hgnc.FirstColumnFrom | Previous_Versions/Version_3/gene_lookup_v3.py:98-101 | the column found is the first from position `k` on whose cell holds the name; no earlier column from `k` holds it; none found means no column from `k` holds it |
| Hgnc.MatchingFrom | gene_lookup_v2.py:105-110 | the matching rows from `j` on are listed in ascending table order, each in range, and a row is listed exactly when some header column of it holds the name |
| Hgnc.MatchingStep | Previous_Versions/Version_1/Functions.py:81-85 | scanning one more row appends it to the matches exactly when it holds the name |
| Hgnc.RowsAtAppend | Previous_Versions/Version_1/Functions.py:84 | appending a row position appends that row to the results |
| Hgnc.ColumnsOfRows | gene_lookup_v2.py:112-113 | indexing the four result columns of the results frame fails (KeyError) exactly when there are no results or the header lacks one of them; otherwise each of the four columns has one entry per result, and entry `a` is result `a`'s cell in that column |
| Hgnc.StripVersionSuffix | gene_lookup_v2.py:73 | `re.sub(r"\.\d+$", "", s)`: the result is `s` cut where a `.digits` suffix starts; when there is none, `s` itself |
| Hgnc.HgncField | gene_lookup_v2.py:78 | `split(":")[1]` of an `HGNC:` identifier is the text after `HGNC:` up to the next `:` |
| Hgnc.HgncFieldShape | gene_lookup_v2.py:78 | that field has no `:`, follows `HGNC:` directly, and is followed by a `:` or by the end of the identifier |
| Hgnc.UntypedUrls | Previous_Versions/Version_3/gene_lookup_v3.py:153-157 | the four untyped lookups are the symbol, alias-symbol, alias-name and previous-symbol endpoints, in that order, each followed by the quoted identifier |
| Hgnc.FirstFound | Previous_Versions/Version_3/gene_lookup_v3.py:171-175 | the requests made are a prefix of the endpoint list; every request but the last found nothing; the record is the last reply; when nothing is found, every endpoint was tried |
| Hgnc.EndpointLookup | Previous_Versions/Version_3/gene_lookup_v3.py:160-175 | a typed identifier makes exactly one request, to its type's endpoint; an untyped one makes 1 to 4 requests in the fixed order, stopping at the first that finds a record |
| Hgnc.QueryEndpoints | Previous_Versions/Version_3/gene_lookup_v3.py:160-175 | the endpoint loop with its `break` makes the requests and yields the record that EndpointLookup describes |
| Text.SortedElements | Previous_Versions/Version_3/gene_lookup_v3.py:252 | `sorted(s)` of a set lists exactly its members, strictly increasing in Python's string order |
| Text.SortedListingUnique | Previous_Versions/Version_3/gene_lookup_v3.py:252 | every strictly increasing listing of a set equals `sorted` of it, so the joined result cell depends only on the set |
| Frames.Frame.Insert | Previous_Versions/Version_3/gene_lookup_v3.py:199 | `df.insert` fails on a label already present or a position past the end; otherwise the label goes in at `loc` and every row gets the fill value there |
| Frames.Frame.AssignColumn | Previous_Versions/Version_3/gene_lookup_v3.py:282 | assigning a column overwrites every cell of an existing column, or appends a new column |
| Frames.Frame.SetCell | Previous_Versions/Version_3/gene_lookup_v3.py:204 | `df.at[i, c] = v` changes that one cell and nothing else |
| Frames.Frame.Rename | Previous_Versions/Version_3/gene_lookup_v3.py:293 | renaming relabels the column and leaves every cell as it was |
| Frames.Frame.Drop | gene_lookup_v2.py:218 | dropping a column removes its label and its cell from every row, and fails when it is absent |
| Frames.InsertColumnsAfter | Previous_Versions/Version_3/gene_lookup_v3.py:191-200 | the insertion loop succeeds exactly when the identifier column is present and none of the new labels is; the new columns then sit directly after it, filled with `None` |
| Frames.InsertedAfterLayout | Previous_Versions/Version_3/gene_lookup_v3.py:198-199 | after insertion the columns are those up to the identifier column, then the new ones, then the rest |
| Frames.IndexInInserted | Previous_Versions/Version_3/gene_lookup_v3.py:198-199 | an old column keeps its position if it is not after the identifier column; otherwise it moves right by the number of new columns |
| Frames.Overwritten | Previous_Versions/Version_3/gene_lookup_v3.py:202-210 | a row after a set of cell writes holds the written value in each written column and its old value elsewhere |
| Frames.OverwrittenStep | Previous_Versions/Version_3/gene_lookup_v3.py:204 | one more cell write is the same as overwriting with the writes extended by that cell |
| GeneLookupV3.AddColumns | Previous_Versions/Version_3/gene_lookup_v3.py:23-45 | the flag loop with its early `break` returns the four defaults, then `hgnc_id`, `pub_ensembl_id`, `pub_eg_id`, each present exactly when some label matches its pattern |
| GeneLookupV3.CreateDownloadUrlParams | Previous_Versions/Version_3/gene_lookup_v3.py:48-51 | the join-based URL part is `""` for no columns and otherwise the concatenation of `col=gd_<c>&` over the columns in order |
| GeneLookupV3.MakeAndFetchUrl | Previous_Versions/Version_3/gene_lookup_v3.py:53-57 | the download URL is the base, then the column parameters, then the fixed status, sort and format parameters |
| GeneLookupV3.TransformString | Previous_Versions/Version_3/gene_lookup_v3.py:65-72 | the rules apply in order. `ENSG…` becomes its text before the first `.`, typed Ensembl. `HGNC:…` becomes everything after the `HGNC:`, typed HGNC. A dotted string is unchanged and typed NCBI; any other string is unchanged and untyped |
| GeneLookupV3.ContainsGeneOfJoined | Previous_Versions/Version_3/gene_lookup_v3.py:74-79 | on a cell of stripped, comma-free items joined by `", "`, `_contains_gene` holds exactly for the items and the whole cell |
| GeneLookupV3.ContainsGeneByPieces | Previous_Versions/Version_3/gene_lookup_v3.py:74-79 | on a non-empty cell, `_contains_gene` holds exactly for the cell itself and the stripped `,`-pieces |
| GeneLookupV3.RowMatch | Previous_Versions/Version_3/gene_lookup_v3.py:93-101 | a typed identifier is tested only in its type's column, and the match list is that label. An untyped one gives the first header column holding it, and no earlier column holds it. No match means no column holds it |
| GeneLookupV3.FirstHit | Previous_Versions/Version_3/gene_lookup_v3.py:92-101 | the hit is the first row from `j` on that matches; no earlier row from `j` matches; none means no row from `j` matches |
| GeneLookupV3.ExtractColumns | Previous_Versions/Version_3/gene_lookup_v3.py:81-83 | each result column holds the row's cell when the header has that column, and is an empty series when it does not |
| GeneLookupV3.Search | Previous_Versions/Version_3/gene_lookup_v3.py:85-104 | the search returns at most one row: the first row in table order that matches, with its match column. It returns no match list and empty fields exactly when no row matches. A typed identifier's match list is its type's label |
| GeneLookupV3.SearchSingleGene | Previous_Versions/Version_3/gene_lookup_v3.py:85-104 | the nested row and column loops with their early returns compute Search |
| GeneLookupV3.MatchRow | Previous_Versions/Version_3/gene_lookup_v3.py:93-101 | the column loop over one row computes RowMatch |
| GeneLookupV3.ExtractRecord | Previous_Versions/Version_3/gene_lookup_v3.py:114-120 | the record is the first document exactly when `numFound > 0` and the document list is non-empty; otherwise none |
| GeneLookupV3.GetData | Previous_Versions/Version_3/gene_lookup_v3.py:122-146 | a record comes back exactly when the request did not raise, the status is 200, the body parsed and a non-empty record was extracted |
| GeneLookupV3.ApiFields | Previous_Versions/Version_3/gene_lookup_v3.py:177-186 | with a record, each field is a one-element list holding that key's value as the record has it, a string or a list (or `None` when absent); without one, all four are `[None]` |
| GeneLookupV3.FindApi | Previous_Versions/Version_3/gene_lookup_v3.py:148-189 | a typed identifier makes one request, to its endpoint. An untyped one makes 1 to 4 requests in the fixed order. The fields come from the record found |
| GeneLookupV3.GuardedWrites | Previous_Versions/Version_3/gene_lookup_v3.py:202-210 | a result column is written exactly when its list is non-empty and its first element is truthy, and then gets that element; nothing outside the four columns is written |
| GeneLookupV3.AssignGeneNames | Previous_Versions/Version_3/gene_lookup_v3.py:202-210 | the four guarded `df.at` writes change row `i` by exactly GuardedWrites and leave every other row unchanged |
| GeneLookupV3.ResolveFound | Previous_Versions/Version_3/gene_lookup_v3.py:259-271 | an identifier counts as found exactly when the offline search matched, or else the REST record has a truthy symbol; an offline match supplies its fields |
| GeneLookupV3.LookUp | Previous_Versions/Version_3/gene_lookup_v3.py:233-238 | the offline-then-REST lookup of one identifier yields Resolve |
| GeneLookupV3.ProcessRow | Previous_Versions/Version_3/gene_lookup_v3.py:259-274 | row `i` gets the status of the lookup and the guarded writes of its fields, and nothing else changes |
| GeneLookupV3.Tokens | Previous_Versions/Version_3/gene_lookup_v3.py:228 | the tokens are exactly the non-empty stripped `,`-pieces of the cell; each is stripped and comma-free |
| GeneLookupV3.OutcomesAt | Previous_Versions/Version_3/gene_lookup_v3.py:232-238 | each token is resolved on its own, by the offline search first and the REST lookup after |
| GeneLookupV3.HarvestMembers | Previous_Versions/Version_3/gene_lookup_v3.py:240-249 | a value is in a field's set exactly when some found token has it, truthy, as its first entry in that field |
| GeneLookupV3.AnyFoundMembers | Previous_Versions/Version_3/gene_lookup_v3.py:240-241 | `matched` is set exactly when some token was found |
| GeneLookupV3.Accumulate | Previous_Versions/Version_3/gene_lookup_v3.py:232-249 | the token loop raises exactly when some token's outcome is unhashable; otherwise it builds exactly the harvested sets and the any-found flag |
| GeneLookupV3.ProcessMultipleNames | Previous_Versions/Version_3/gene_lookup_v3.py:227-257 | raises (and writes nothing) exactly when some token's fields are unhashable; otherwise row `i` gets each field as the `"; "`-join of the sorted set (or `""`), and status matched exactly when some token was found |
| GeneLookupV3.Absorb | Previous_Versions/Version_3/gene_lookup_v3.py:240-249 | one pass of the token loop raises exactly when the outcome is unhashable; otherwise each set gains that outcome's contribution and the flag is raised when it was found |
| GeneLookupV3.UnhashableMeaning | Previous_Versions/Version_3/gene_lookup_v3.py:233-249 | a token's fields are unhashable exactly when the token is not in the snapshot, the REST record has a truthy symbol, and one of `symbol`, `name`, `prev_symbol`, `alias_symbol` is a non-empty list |
| GeneLookupV3.RowRaisesMeaning | Previous_Versions/Version_3/gene_lookup_v3.py:227-249 | a row of several names raises exactly when one of its tokens is unhashable; a single-name row never raises |
| GeneLookupV3.WriteSets | Previous_Versions/Version_3/gene_lookup_v3.py:252-257 | the five unconditional `df.at` writes change row `i` by exactly those five cells |
| GeneLookupV3.PrepareFrame | Previous_Versions/Version_3/gene_lookup_v3.py:281-283 | the copy gets `matching_status` set to `un-matched`, then the four `None` columns after the identifier column; this fails exactly when a result column already exists |
| GeneLookupV3.ProcessRows | Previous_Versions/Version_3/gene_lookup_v3.py:285-290 | the row loop sends a cell with a comma to the multi-name path and any other cell to the single-name path, row by row, and changes no columns; it gets through exactly when no row raises, and then yields the processed rows |
| GeneLookupV3.ConvertGeneNames | Previous_Versions/Version_3/gene_lookup_v3.py:276-298 | the conversion succeeds exactly when the identifier column exists, the download succeeds, no result column exists and no row raises. The columns are then the prepared ones, with the identifier column renamed `user_input`, and the rows are the converted rows |
| GeneLookupV3.ConvertWith | Previous_Versions/Version_3/gene_lookup_v3.py:281-293 | given the snapshot, the conversion succeeds exactly when no result column exists and no row raises, and then yields those columns and rows |
| GeneLookupV3.ProcessAndRename | Previous_Versions/Version_3/gene_lookup_v3.py:285-293 | on the prepared table, the row loop and the renaming get through exactly when no row of the original table raises, and then leave the renamed columns and the converted rows |
| GeneLookupV3.ProcessOne | Previous_Versions/Version_3/gene_lookup_v3.py:286-290 | one pass of the row loop raises exactly when its identifier has a comma and a token's fields are unhashable; otherwise row `i` becomes the processed row and the rest stay |
| GeneLookupV3.PreparedRaises | Previous_Versions/Version_3/gene_lookup_v3.py:281-290 | the identifiers the row loop reads from the prepared table are those of the original table, so the loop raises on one exactly when it raises on the other |
| GeneLookupV3.RowWritesColumns | Previous_Versions/Version_3/gene_lookup_v3.py:285-290 | every path writes only the four result columns and `matching_status`, and always writes the status of RowFound |
| GeneLookupV3.RowFoundMeaning | Previous_Versions/Version_3/gene_lookup_v3.py:285-290 | a multi-name row is matched exactly when some token is found; any other row exactly when its identifier is found |
| GeneLookupV3.ConvertedCell | Previous_Versions/Version_3/gene_lookup_v3.py:285-290 | every cell of a converted row is the value written for its column, or else the prepared cell |
| GeneLookupV3.ConvertedStatus | Previous_Versions/Version_3/gene_lookup_v3.py:282-290 | each converted row's `matching_status` is `matched` exactly when RowFound holds for its identifier |
| GeneLookupV3.ConvertKeepsUserCells | Previous_Versions/Version_3/gene_lookup_v3.py:281-293 | every user column other than `matching_status` keeps its cell in every row |
| GeneLookupV3.PreparedPosition | Previous_Versions/Version_3/gene_lookup_v3.py:191-200 | after preparation a user column keeps its position if it is not after the identifier column; otherwise it moves four places right |
| GeneLookupV3.PreparedCell | Previous_Versions/Version_3/gene_lookup_v3.py:281-283 | preparation keeps every user cell other than `matching_status` |
| GeneLookupV3.PreparedNames | Previous_Versions/Version_3/gene_lookup_v3.py:282-286 | the identifier cells read by the row loop are the original ones, unless the identifier column is `matching_status` itself |
| GeneLookupV2.AddColumns | gene_lookup_v2.py:20-44 | the full flag loop returns SelectColumns, the same list as the third version's early-exit loop |
| GeneLookupV2.CreateDownloadUrl | gene_lookup_v2.py:48-54 | the accumulating loop yields the concatenation of `col=gd_<c>&` over the columns, the same string as the third version's join |
| GeneLookupV2.MakeAndFetchUrl | gene_lookup_v2.py:56-60 | the download URL is the base, the column parameters and the fixed parameters |
| GeneLookupV2.TransformString | gene_lookup_v2.py:68-85 | `ENSG…` loses only a trailing `.digits`, typed Ensembl. `HGNC:…` becomes the field between the first and second `:`, typed HGNC. The dot and default rules are the third version's |
| GeneLookupV2.TypedHitFrom | gene_lookup_v2.py:100-104 | the typed scan stops at the first row from `j` on whose type column holds the identifier as a `", "`-item |
| GeneLookupV2.TypedResults | gene_lookup_v2.py:100-104 | the typed loop appends at most one row |
| GeneLookupV2.MatchTypes | gene_lookup_v2.py:106-109 | one match type per matched row: the first header column of that row holding the identifier |
| GeneLookupV2.TypedSearch | gene_lookup_v2.py:100-113 | a successful typed search gives one value per field and an empty match list |
| GeneLookupV2.UntypedSearch | gene_lookup_v2.py:105-113 | a successful untyped search has as many match types as results, and at least one |
| GeneLookupV2.Search | gene_lookup_v2.py:87-113 | a successful search has non-empty fields, so the `len(aSym.index) == 0` branch of the conversion cannot run; an empty result is the KeyError of line 113 |
| GeneLookupV2.TypedSearchMeaning | gene_lookup_v2.py:100-113 | a typed search succeeds exactly when a row's type column holds the identifier, the header has the result columns, and the type column exists (if there are rows). The fields are those of the first such row |
| GeneLookupV2.UntypedSearchSucceeds | gene_lookup_v2.py:105-113 | an untyped search succeeds exactly when some row holds the identifier in some column and the header has the result columns |
| GeneLookupV2.UntypedSearchFields | gene_lookup_v2.py:105-113 | a successful untyped search lists every matching row exactly once, in table order; entry `a` of each of the four fields is that row's cell, and its match type is the first column that matched in it |
| GeneLookupV2.SearchSingleGene | gene_lookup_v2.py:87-113 | the nested loops with their `break`s compute Search |
| GeneLookupV2.TypedRows | gene_lookup_v2.py:100-104 | `row[Type]` raises exactly when there are rows and the header lacks the type column; otherwise the loop yields TypedResults |
| GeneLookupV2.UntypedRows | gene_lookup_v2.py:105-110 | the untyped loops append every matching row once, in table order, along with its first matching column |
| GeneLookupV2.RowColumn | gene_lookup_v2.py:106-110 | the column loop finds the first header column of the row holding the identifier |
| GeneLookupV2.FindApi | gene_lookup_v2.py:135-161 | a typed identifier makes one request, to its endpoint. An untyped one makes 1 to 4 requests in the fixed order, each but the last finding nothing. Fewer than four means a record was found. The conversion never calls this code (see GeneLookupV2.Search) |
| GeneLookupV2.FieldWrites | gene_lookup_v2.py:212-215 | the four unguarded `df.at` writes cover exactly the result columns |
| GeneLookupV2.WriteFields | gene_lookup_v2.py:212-215 | those writes change row `i` by exactly FieldWrites |
| GeneLookupV2.ProcessRows | gene_lookup_v2.py:190-215 | the row loop gets through exactly when every row's search succeeds, and then yields the processed rows |
| GeneLookupV2.ProcessedSome | gene_lookup_v2.py:190-215 | the first `n` rows process without an exception exactly when each of their searches succeeds |
| GeneLookupV2.ProcessedFails | gene_lookup_v2.py:190-215 | once a row fails, the whole loop fails |
| GeneLookupV2.ProcessedRow | gene_lookup_v2.py:190-215 | each processed row is the original overwritten by its search's writes |
| GeneLookupV2.FetchSnapshot | gene_lookup_v2.py:173-174 | the snapshot is the download of the URL for the selected columns |
| GeneLookupV2.ConvertGeneNames | gene_lookup_v2.py:170-218 | the conversion succeeds exactly when the column exists, the download succeeds, no result column exists and every row's search succeeds. The identifier column is then replaced by the four result columns |
| GeneLookupV2.ConvertWith | gene_lookup_v2.py:177-218 | given the snapshot, the conversion inserts the four columns at `position+1+i`, writes each row and drops the identifier column |
| GeneLookupV2.ConvertedSucceeds | gene_lookup_v2.py:190-215 | the conversion gets through the rows exactly when every row's identifier is found offline |
| GeneLookupV2.ConvertedRow | gene_lookup_v2.py:177-218 | each output row is the input row with its identifier cell replaced by the first value of each of the four fields found |
| GeneLookupV2.DroppedRow | gene_lookup_v2.py:186-218 | a written row minus the identifier cell is the input row with that cell replaced by the four written values |
| GeneLookupV2.DropInserted | gene_lookup_v2.py:186-218 | inserting the columns after the identifier column and then dropping it puts them in its place |
| GeneLookupV2.InsertedWrites | gene_lookup_v2.py:186-215 | writing the four fields into the `None` cells inserted after the identifier cell gives the row with the four values after that cell |
| FunctionsV1.TransformString | Previous_Versions/Version_1/Functions.py:58-67 | `ENSG…` loses only a trailing `.digits`; `HGNC:…` becomes the field between the first and second `:`; anything else is unchanged; there is no type |
| FunctionsV1.SearchSucceeds | Previous_Versions/Version_1/Functions.py:69-88 | the search succeeds exactly when some row holds the identifier in some column and the header has the result columns |
| FunctionsV1.SearchFields | Previous_Versions/Version_1/Functions.py:69-88 | a successful search lists every matching row exactly once, in table order; each of the four fields has one entry per such row, and entry `a` is that row's cell |
| FunctionsV1.SearchSingleGene | Previous_Versions/Version_1/Functions.py:69-88 | the nested loops with their `break` compute Search |
| FunctionsV1.MatchingRows | Previous_Versions/Version_1/Functions.py:81-85 | the row loop collects exactly the matching rows, in table order |
| FunctionsV1.HoldsInSomeColumn | Previous_Versions/Version_1/Functions.py:82-85 | the column loop finds a match exactly when some header column of the row holds the identifier as a `", "`-item |
| VersionDifferences.FirstTwoNormaliseAlike | Previous_Versions/Version_1/Functions.py:58-67 | the first version's normalised string equals the second version's normalised value, for every input |
| VersionDifferences.LastTwoClassifyAlike | gene_lookup_v2.py:68-85 | the second and third versions give every input the same type; outside `ENSG` and `HGNC:` they also give the same value |
| VersionDifferences.EnsemblNormalisations | Previous_Versions/Version_3/gene_lookup_v3.py:66-67 | for an `ENSG` identifier the second and third versions agree exactly when it has no `.` or only digits follow its first `.` |
| VersionDifferences.CutMatchesStrip | gene_lookup_v2.py:73 | cutting at the first `.` equals stripping the trailing `.digits` exactly when there is no `.` or only digits follow the first one |
| VersionDifferences.EnsemblExample | Previous_Versions/Version_3/gene_lookup_v3.py:67 | `ENSG1.2.3` gives `ENSG1` in the third version and `ENSG1.2` in the second |
| VersionDifferences.EnsemblSuffixExample | gene_lookup_v2.py:73 | the second version turns `ENSG1.2` into `ENSG1` and leaves `ENSG1.x` unchanged |
| VersionDifferences.HgncNormalisations | Previous_Versions/Version_3/gene_lookup_v3.py:68-69 | for an `HGNC:` identifier the second and third versions agree exactly when there is no second `:` |
| VersionDifferences.HgncExampleLast | Previous_Versions/Version_3/gene_lookup_v3.py:69 | `HGNC:5:x` gives `5:x` in the third version |
| VersionDifferences.HgncExampleFirst | gene_lookup_v2.py:78 | `HGNC:5:x` gives `5` in the first and second versions |
| VersionDifferences.MembershipOnRegistryCells | Previous_Versions/Version_3/gene_lookup_v3.py:74-79 | on a registry-style `", "` cell, the third version's test is the first two's, plus the whole cell |
| VersionDifferences.NoSpacedSeparator | gene_lookup_v2.py:107 | a cell without a space is a single `", "`-item |
| VersionDifferences.UnspacedExampleFirst | gene_lookup_v2.py:107 | the first two versions do not find `P53` in `TP53,P53` |
| VersionDifferences.SecondOfPair | Previous_Versions/Version_3/gene_lookup_v3.py:79 | the third version finds the stripped second item of a cell `a,b` |
| VersionDifferences.UnspacedExampleLast | Previous_Versions/Version_3/gene_lookup_v3.py:79 | the third version finds `P53` in `TP53,P53` |
| VersionDifferences.SpacedExample | Previous_Versions/Version_3/gene_lookup_v3.py:79 | every version finds `P53` in `TP53, P53` |

## Left out

- Network access is not modelled. This covers `requests.get` in `getData` and `pd.read_csv` of the download URL. The download is the `download` parameter, and the REST reply is the `http` (third version) or `getData` (second version) parameter.
- File I/O is not modelled: writing, reading and removing `tempData.csv`, and `to_csv` of the result. The snapshot those files carry is given as a value (header and rows).
- Logging is not modelled: `setup_logging`, every `logging.info`, and `_handle_multiple_matches`, which only logs. The same goes for the multiple-match logging loop of the second version (`gene_lookup_v2.py:199-211`).
- `time.sleep` is not modelled: it affects only timing.
- `urllib.parse.quote` is an abstract `quote: string -> string` parameter.
- The `re` patterns are hand-written predicates over ASCII digits. Python's `$` before a trailing newline and its Unicode `\d` are not modelled.
- `_parse_json` raising is modelled as a body that did not parse (`json == None`).
- GeneLookupV2.FindApi: the second version's `getData` (`gene_lookup_v2.py:115-133`) is not modelled. As written, it raises NameError on the undefined `headers` at line 117. That exception is caught at line 130, so `getData` logs and returns None; line 124 could also read an unbound `data`. So the endpoint loop is modelled with `getData` as a parameter.
- GeneLookupV2.FindApi: the rest of the second version's `find_API` after the loop is not modelled. It would subscript None at line 163 and call an undefined `sleep` at line 167. The conversion never reaches it: a row not found offline ends the whole conversion with the KeyError of line 113 (or line 102), which GeneLookupV2.ConvertGeneNames models as `ok == false`.
- REST records hold only strings and lists of strings. JSON numbers, objects and nested lists are not modelled; the converter reads only the four fields `symbol`, `name`, `prev_symbol` and `alias_symbol`.
- Frames.Frame: column labels are distinct, and the index is pandas' default `RangeIndex`, so `df.at[idx, …]` addresses row `idx`. Frames with repeated labels or another index are not modelled.
- GeneLookupV3.ConvertGeneNames: requires no column other than the identifier column to be named `user_input` already. Pandas would let the rename create a duplicate label; the frame model keeps labels distinct.
- GeneLookupV3.ConvertGeneNames and GeneLookupV2.ConvertGeneNames: require every identifier cell to be a string. Python `None`/NaN cells, and `str(name)` of such cells at `gene_lookup_v3.py:287`, are not modelled.
- The `to_return` flag and the output file name are not modelled: the model always yields the frame.
- `Previous_Versions/Version_1/Functions.py:10-56` is not modelled separately. Its `addColumns`, `createDownloadURL` and `makeAndFetchURL` are textually identical to the second version's, so GeneLookupV2.AddColumns, GeneLookupV2.CreateDownloadUrl and GeneLookupV2.MakeAndFetchUrl model them.
