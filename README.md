# Patent search mini-app server: verified model of its query builders and graph logic

This project models, in Dafny, the computational core of the mini-app server for a patent search:

- the request handlers that turn query strings and JSON bodies into SQL text and named parameters;
- the handlers that turn the rows the database returns into graphs, thumbnails and CSV files;
- the column normalisers of the spreadsheet import.

Databases, HTTP and files are not modelled. Every handler takes the rows a query would return as a parameter and returns what it would send or execute.

| module | file | source | form |
|---|---|---|---|
| `Js` | js.dfy | JavaScript primitives the handlers rely on | functions |
| `Seqs`, `Text` | seqs.dfy, text.dfy | `new Set` order, `slice`, regex split / replace / join / test | functions, lemmas |
| `Paging` | paging.dfy | the page, page-size and `Math.max/min` clamps | functions |
| `AdvancedSearch` | advanced.dfy | src/routes/advanced.js | class `Compilation` with `count` and `params` fields (the shared `idxSeed` and `params` objects), specified by the pure compiler `CompileTree` |
| `FlatFilter` | flat_filter.dfy | the flat filter of src/routes/search.js and src/routes/inventor_graph.js | method pushing onto clause and parameter variables |
| `InventorGraph` | inventor_graph.dfy | src/routes/inventor_graph.js | methods updating the `nodeData` / `edgeCount` maps (keys kept in insertion order), specified by tallies of the name and pair streams |
| `Graph` | graph.dfy | src/routes/graph.js | methods pushing nodes and edges; pure trim and bridge selection |
| `Search` | search.dfy | src/routes/search.js | handler method; `pickThumb` as a loop |
| `Compare` | compare.dfy | src/routes/compare.js | functions |
| `XlsxImport` | xlsx_import.dfy | src/scripts/import-xlsx.js | functions |
| `Export` | export.dfy | src/routes/export.js | functions, with a reader that proves the CSV round trip |

Main results:

- The advanced-search compiler:
  - consumes one counter value per rule;
  - binds only names `p<i>` / `p<i>_like` with `i` in the consumed range, never rebinding one;
  - binds every name its SQL mentions.
- The flat filter emits exactly the set fields' conditions, in a fixed order, with their parameters.
- The inventor aggregation loop computes, for every inventor:
  - the number of qualifying records naming them;
  - their first five publication numbers.
  It also computes, for every unordered pair, the number of records naming both.
- The insertion sort is stable and a permutation.
- Every returned edge:
  - has weight at least `minWeight` and at most each endpoint's count;
  - joins two returned nodes.
- The neighbour trim never leaves a dangling edge.
- The bridge path takes the first shared applicant, else an equal IPC prefix.
- The import normalisers are idempotent and keep the applicant names.
- An exported CSV file reads back as exactly the five fields of every row.

## Model

| member | source | states |
|---|---|---|
| Js.OrElse | src/routes/search.js:71 | `a \|\| b` is `a` when `a` is truthy, else `b` |
| Js.Default | src/routes/search.js:9-18 | a destructuring default replaces only `undefined` |
| Js.UpperChar | src/scripts/import-xlsx.js:16 | a lower-case ASCII letter becomes the upper-case letter 32 below it; every other character is unchanged |
| Js.Upper | src/scripts/import-xlsx.js:16 | upper-casing keeps the length and maps each character to its ASCII upper case, every other character unchanged |
| Js.Trim | src/routes/search.js:27 | `trim()` is empty exactly for blank text; otherwise it neither starts nor ends with white space; it is the text itself when the text has none, and otherwise the characters after the leading white space up to the trailing white space |
| Js.ParseInt | src/routes/search.js:20-21 | `parseInt(s, 10)` is NaN exactly when no digit follows the leading white space and one optional sign |
| Js.ParseIntValue | src/routes/search.js:20-21 | after leading white space, a run of decimal digits reads as the value of that run, whatever follows it |
| Js.ParseIntValueNeg | src/routes/search.js:20-21 | the same run after a `-` reads as the negated value |
| Js.ParseIntValuePos | src/routes/search.js:20-21 | the same run after a `+` reads as its value |
| Js.ParseIntOr | src/routes/search.js:20-21 | `parseInt(String(v), 10) || d` is the parsed number when it is a number other than 0, and `d` when the parse is NaN or 0 |
| Js.ParseIntOfIntToString | src/routes/search.js:20-21 | `parseInt(String(n), 10)` gives `n` back for every integer |
| Js.NatToStringInjective | src/routes/advanced.js:9 | different counter values render to different digit strings |
| Js.ToNumber | src/routes/search.js:35 | `Number` of a number is itself, of `undefined` NaN, of `null` and of a blank string 0, of a boolean 0 or 1 |
| Js.ToNumberOfIntToString | src/routes/search.js:35 | `Number(String(n))` gives `n` back for every integer |
| Js.CodeUnits | src/routes/search.js:83 | a character gives one or two UTF-16 code units, each below 65536; a character below U+10000 is one unit, its own value; two units exactly when the last one is a low surrogate |
| Js.Utf16 | src/routes/search.js:83 | the code units of a string are at least as many as its characters, each below 65536 |
| Js.Utf16Injective | src/routes/inventor_graph.js:71 | two strings with the same code units are the same string |
| Js.Utf16Cons | src/routes/search.js:83 | the code units of a string are those of its first character, then those of the rest |
| Js.Utf16OfPrefix | src/scripts/import-xlsx.js:27 | when the first `k` characters are below U+10000, the first `k` code units are exactly those of the first `k` characters |
| Js.Utf16Last | src/scripts/import-xlsx.js:16 | the last code unit of a non-empty string equals a character below U+10000 exactly when its last character is that character |
| Js.Utf16Short | src/routes/inventor_graph.js:53 | a string is at most one code unit long (`s.length <= 1`) exactly when it is empty or one character below U+10000 |
| Seqs.Dedup | src/routes/compare.js:10 | `Array.from(new Set(xs))` has no duplicates and holds exactly the elements of `xs` |
| Seqs.DedupOrder | src/routes/compare.js:10 | the set keeps elements in order of first occurrence |
| Seqs.DedupOfDistinct | src/routes/inventor_graph.js:61 | a list without duplicates comes out of the set unchanged |
| Seqs.Limit | src/routes/inventor_graph.js:12 | `limit > 0 ? arr.slice(0, limit) : arr`: for `0 < limit < |arr|` the first `limit` elements; for `limit <= 0` or `limit >= |arr|` all of `arr` |
| Text.Tokens | src/routes/graph.js:8-11 | every piece kept by split / trim / filter is non-empty and free of delimiters |
| Text.SplitTrimFilterIsTokens | src/routes/graph.js:8-11 | splitting on runs of a delimiter class that includes white space, trimming and dropping empties gives the maximal delimiter-free runs |
| Text.SplitIsTokens | src/routes/compare.js:10 | `split(/[...]+/).filter(Boolean)` gives the maximal delimiter-free runs |
| Text.ReplaceRuns | src/scripts/import-xlsx.js:32 | `replace(/[...]+/g, rep)` leaves no character of the class except those of `rep`, keeps a first character outside the class, and leaves no two class characters side by side when `rep` is one of them |
| Text.ReplaceRunsIsSplitJoin | src/scripts/import-xlsx.js:32 | `s.replace(/[E]+/g, rep)` is `s.split(/[E]+/).join(rep)`: the pieces between the maximal runs, in order, with `rep` in place of each run |
| Text.ReplaceRunsKeepsTokens | src/scripts/import-xlsx.js:32 | replacing runs of delimiters by one delimiter keeps the tokens |
| Text.TokensOfJoin | src/routes/compare.js:14 | joining non-empty, delimiter-free parts with a delimiter and splitting again gives back the parts |
| Text.IndexOf | src/scripts/import-xlsx.js:37 | the search finds the leftmost occurrence at or after `from`, or reports that there is none |
| Text.SplitOnPair | src/routes/inventor_graph.js:87 | `(a + sep + b).split(sep)` is `[a, b]` when neither part contains the separator's first character |
| Text.LessTotal | src/routes/inventor_graph.js:71 | string `<` is irreflexive and orders any two different strings one way |
| Text.LessIsUnitOrder | src/routes/inventor_graph.js:71 | string `<` is the lexicographic order of the UTF-16 code units, a proper prefix first |
| Text.LessByCodeUnits | src/routes/inventor_graph.js:71 | a character above U+FFFF sorts before U+FF21, because its high surrogate 0xD840 is smaller, although its code point is larger |
| Text.JoinHasPart | src/routes/inventor_graph.js:28 | every part occurs in the joined text |
| Text.JoinHasSeam | src/routes/advanced.js:59 | two neighbouring parts show up in the joined text with the separator between them |
| Paging.Clamp | src/routes/inventor_graph.js:35-37 | the result lies in `[lo, hi]`; with the default in range it is the default when the parse is NaN or 0, `lo` or `hi` when the number is below or above, and the number otherwise |
| Paging.DefaultsParse | src/routes/inventor_graph.js:35-37 | the default texts `1`, `20`, `50`, `100` and `5000` parse to their numbers |
| Paging.PageNumber | src/routes/search.js:20 | the page is the parsed page when that is at least 1, and 1 otherwise (NaN, 0 or negative) |
| Paging.PageSize | src/routes/search.js:21 | the page size lies in `[1, 100]`: 20 when the parse is NaN or 0, 1 for a negative number, 100 above 100, the number otherwise |
| Paging.Paginate | src/routes/search.js:20-22 | the window pairs the clamped page and size with the offset of that page |
| Paging.Offset | src/routes/search.js:22 | the offset `(p - 1) * ps` of a page of at least 1 is never negative |
| AdvancedSearch.KeyShape | src/routes/advanced.js:9 | a name `p<i>` is `p`, then digits ending in a digit; `p<i>_like` extends it and ends in `e` |
| AdvancedSearch.KeysInjective | src/routes/advanced.js:8-14 | distinct counter values give distinct `p` names and distinct `_like` names, and no `_like` name equals a `p` name |
| AdvancedSearch.LogicOf | src/routes/advanced.js:49 | the connective is OR exactly for the strings `or`, `oR`, `Or` and `OR`; every other value, missing included, gives AND |
| AdvancedSearch.ClauseSql | src/routes/advanced.js:12-42 | a clause renders as `1=1` exactly when it has no condition; a condition names its `:p<i>` placeholder, and a keyword also its `:p<i>_like` one |
| AdvancedSearch.WhereSql | src/routes/advanced.js:48-59 | no group renders as `1=1`; a group shows every part's text, every two neighbouring parts with ` OR ` between them in an OR group and ` AND ` otherwise, and a single part stands alone |
| AdvancedSearch.CompileRule | src/routes/advanced.js:6-44 | a rule gives a real condition exactly for `kw`, `ipc_prefix`, `patent_type` or `applicant` with a truthy value, or for `apply_year` with a finite number and `>=`, `<=` or `=`; `kw` binds `pN` and `pN_like` to the same text; `apply_year` binds the number; an `apply_year` with another operator binds `pN` yet yields `1=1`; every other `1=1` binds nothing; apart from that operator case, the bound names are exactly those the clause mentions; `>=`, `<=` and `=` give the matching year comparison, `kw` a keyword clause, and `ipc_prefix`, `patent_type` and `applicant` their own clause with `pN` bound to the value's text |
| AdvancedSearch.CompileTree | src/routes/advanced.js:46-60 | a group gives `1=1` exactly when it is not a group, its `rules` is not an array, or the array is empty; otherwise one part per element, joined by its logic |
| AdvancedSearch.CompileParts | src/routes/advanced.js:50-58 | one part per element, parenthesised exactly for the elements that are groups |
| AdvancedSearch.CompileElement | src/routes/advanced.js:52-57 | a group element becomes a parenthesised part; a rule element consumes exactly one counter value |
| AdvancedSearch.PartSqls | src/routes/advanced.js:50-58 | the rendered parts are the parts' texts, one per part, in order |
| AdvancedSearch.CompileTreeSound | src/routes/advanced.js:46-60 | compiling a group advances the counter by its number of rules (groups whose `rules` is no array count none); every bound name is `p<i>` or `p<i>_like` for a counter value consumed here; every name the SQL mentions is bound |
| AdvancedSearch.CompilePartsSound | src/routes/advanced.js:51-58 | the same for a `rules` array |
| AdvancedSearch.CompileElementSound | src/routes/advanced.js:52-57 | the same for one element |
| AdvancedSearch.DisjointRanges | src/routes/advanced.js:8 | parameter maps drawn from disjoint counter ranges share no name |
| AdvancedSearch.NoRebinding | src/routes/advanced.js:51-58 | an element's parameters never overwrite a name bound by the elements before it; the array's map holds both unchanged |
| AdvancedSearch.Compilation.constructor | src/routes/advanced.js:71-72 | a fresh compilation starts with the counter at 1 and no parameters |
| AdvancedSearch.Compilation.BuildClauseFromRule | src/routes/advanced.js:6-44 | the method returns the rule's SQL, adds exactly the rule's bindings to `params` and increments `count` by one |
| AdvancedSearch.Compilation.BuildWhereFromTree | src/routes/advanced.js:46-60 | the method returns the SQL of `CompileTree` at the current counter, leaves the counter where it ends and adds its bindings to `params` |
| AdvancedSearch.Compilation.BuildParts | src/routes/advanced.js:50-58 | the `for` loop over the elements pushes each part's text in order, with the same counter and parameter effects as `CompileParts` |
| AdvancedSearch.Compilation.BuildPart | src/routes/advanced.js:52-57 | one element's text and effects, as `CompileElement` |
| AdvancedSearch.OrderSql | src/routes/advanced.js:75-77 | `year_desc` orders by year descending, `year_asc` ascending, and every other value by publication date descending |
| AdvancedSearch.AdvancedSearchQuery | src/routes/advanced.js:63-93 | the handler compiles the tree with the counter starting at 1; the count query wraps its condition; the list parameters add the page offset and size to the filter's parameters |
| AdvancedSearch.PagingNamesFree | src/routes/advanced.js:93 | no compiled tree binds `offset` or `ps`, so adding the page window overwrites nothing |
| FlatFilter.ActiveConditions | src/routes/search.js:27-53 | a condition is emitted exactly when its field is set (`kw` non-blank after trim, the others non-empty), in the fixed order kw, yearStart, yearEnd, type, ipcPrefix, applicant |
| FlatFilter.ActiveOrdered | src/routes/inventor_graph.js:19-27 | the emitted conditions keep the fixed field order |
| FlatFilter.NamesDisjoint | src/routes/search.js:29-52 | each condition binds exactly its own names; no two conditions share a name; none binds `lim`, `offset` or `ps` |
| FlatFilter.NumberParam | src/routes/search.js:35 | a year is bound as the number `Number` reads from it when it reads one, otherwise as NaN |
| FlatFilter.WhereOf | src/routes/inventor_graph.js:28 | `whereSql` is empty exactly without conditions; otherwise it starts with `WHERE ` and shows every condition's text |
| FlatFilter.Bindings | src/routes/inventor_graph.js:19-27 | every name an emitted condition binds is bound; the converse and the values are stated by `BindingsLookup` |
| FlatFilter.BindingsLookup | src/routes/search.js:25-53 | a name is bound exactly when some emitted condition binds it, and it carries that condition's value |
| FlatFilter.ParamsOfQuery | src/routes/inventor_graph.js:19-27 | each condition's names are bound exactly when its field is set, with `kw` and `kw_like` both the keyword, years as `Number`, the rest as strings |
| FlatFilter.Push | src/routes/search.js:27-53 | one conditional push appends the condition's text exactly when its field is set and then adds its bindings |
| FlatFilter.BuildWhereFromQuery | src/routes/inventor_graph.js:15-30 | the builder returns `''` exactly when no field is set, else `WHERE` and the emitted conditions joined by ` AND `, with exactly their bindings |
| InventorGraph.SplitToArray | src/routes/inventor_graph.js:6-13 | a falsy text gives no pieces; otherwise the non-empty pieces free of `\| ; , ， ； 、` and white space, at most `limit` of them when `limit > 0` |
| InventorGraph.CleanName | src/routes/inventor_graph.js:46-56 | `clean` returns `''` or the normalized name; that name has at least two UTF-16 code units, no `\|`, `，`, `；`, `;`, `、`, no leading, trailing or double space, and is not made only of `._-` |
| InventorGraph.CleanNameOfPiece | src/routes/inventor_graph.js:46-59 | on a delimiter-free piece `clean` is the identity, except that names of at most one code unit and punctuation-only names are dropped; one character above U+FFFF is two code units and is kept |
| InventorGraph.NormalizePiece | src/routes/inventor_graph.js:48-52 | the three replacements and the trim leave a piece free of delimiters and white space unchanged |
| InventorGraph.CleanAll | src/routes/inventor_graph.js:59 | `.map(clean).filter(Boolean)` keeps only well-formed names |
| InventorGraph.Uniq | src/routes/inventor_graph.js:61 | the deduplicated names are distinct and are exactly the record's cleaned names |
| InventorGraph.RecordsWithBothAtMost | src/routes/inventor_graph.js:62-75 | the records naming both of two inventors are no more than those naming either |
| InventorGraph.PairKeySymmetric | src/routes/inventor_graph.js:71-72 | the pair key does not depend on the order of the pair |
| InventorGraph.PairKey | src/routes/inventor_graph.js:71-72 | the key is the smaller name under string `<`, then `\|\|\|`, then the larger |
| InventorGraph.PairKeySplit | src/routes/inventor_graph.js:72-87 | splitting a pair key on `\|\|\|` gives the smaller name under string `<` (UTF-16 code-unit order), then the larger |
| InventorGraph.PairKeyInjective | src/routes/inventor_graph.js:72 | two pairs of bar-free names share a key only when they are the same pair |
| InventorGraph.PairCount | src/routes/inventor_graph.js:58-75 | the key of two different names occurs in the pair stream once per qualifying record naming both |
| InventorGraph.PairOfKey | src/routes/inventor_graph.js:72-87 | every key in the pair stream is the key of two different bar-free names, recovered by the split |
| InventorGraph.FirstPubs | src/routes/inventor_graph.js:66 | at most five distinct publication numbers are kept |
| InventorGraph.FirstPubsSnoc | src/routes/inventor_graph.js:66 | a number is added only when fewer than five are held and it is new |
| InventorGraph.NodeTallyMeaning | src/routes/inventor_graph.js:62-67 | visiting a name stream keys the map by first occurrence and gives each name its number of occurrences and its first five distinct numbers |
| InventorGraph.RowNamingsMeaning | src/routes/inventor_graph.js:59-62 | a record contributes its deduplicated names, each once, only when it names at least two before deduplication |
| InventorGraph.NodeTallyOfRows | src/routes/inventor_graph.js:58-67 | after all rows, an inventor has an entry exactly when some qualifying record names them; its count is the number of such records and its numbers the first five distinct ones |
| InventorGraph.TallyMeaning | src/routes/inventor_graph.js:73 | a `Map` counter fed a key stream lists keys by first occurrence and counts each key's occurrences |
| InventorGraph.EdgeTallyOfRows | src/routes/inventor_graph.js:68-75 | after all rows the pair key of two different names is present exactly when some qualifying record names both, with that number of records as weight |
| InventorGraph.Bump | src/routes/inventor_graph.js:73 | `edgeCount.set(key, (edgeCount.get(key) \|\| 0) + 1)` is the tally of the stream extended by the key |
| InventorGraph.CountPairsFrom | src/routes/inventor_graph.js:69-74 | the inner loop adds the pairs of `uniq[i]` with every later name |
| InventorGraph.CountPairs | src/routes/inventor_graph.js:68-75 | the nested loops add every pair `i < j` of the record |
| InventorGraph.VisitName | src/routes/inventor_graph.js:63-66 | one `forEach` step is the node tally of the stream extended by that name and number |
| InventorGraph.CountNames | src/routes/inventor_graph.js:62-67 | the `forEach` visits the record's names in order |
| InventorGraph.RowStep | src/routes/inventor_graph.js:59-60 | a record with fewer than two cleaned names, counted before deduplication, changes neither stream |
| InventorGraph.Aggregate | src/routes/inventor_graph.js:58-76 | the row loop leaves `nodeData` equal to the node tally of the name stream and `edgeCount` equal to the tally of the pair stream |
| InventorGraph.SortByCountMeaning | src/routes/inventor_graph.js:79 | the sort orders by non-increasing count, is a permutation, and keeps entries of equal count in insertion order |
| InventorGraph.SortByCount | src/routes/inventor_graph.js:79 | the sort is ordered by non-increasing count and is a permutation of its input |
| InventorGraph.InsertByCountPerm | src/routes/inventor_graph.js:79 | one insertion adds exactly the inserted entry |
| InventorGraph.InsertByCountSorted | src/routes/inventor_graph.js:79 | one insertion keeps the list ordered by count |
| InventorGraph.InsertByCountStable | src/routes/inventor_graph.js:79 | one insertion puts the entry after those of equal count |
| InventorGraph.TopEntriesMeaning | src/routes/inventor_graph.js:78-81 | the top entries are `min(topN, n)` entries ordered by count, all from the map, none with a lower count than an entry left out |
| InventorGraph.NamesIn | src/routes/inventor_graph.js:82 | `allowed` holds exactly the names of the top entries |
| InventorGraph.KeptEdgesMember | src/routes/inventor_graph.js:85-89 | an edge is kept exactly when some counted key yields it |
| InventorGraph.FilterEdges | src/routes/inventor_graph.js:84-89 | the edge loop keeps, in key order, each key of weight at least `minWeight` whose two names are allowed |
| InventorGraph.TopNodes | src/routes/inventor_graph.js:78-81 | at most `topN` nodes, in non-increasing count; each carries its number of qualifying records and first five numbers |
| InventorGraph.TopNodesRank | src/routes/inventor_graph.js:79-80 | an inventor left out has no more records than any inventor kept |
| InventorGraph.TopOf | src/routes/inventor_graph.js:78-81 | at most `topN` entries, in non-increasing count |
| InventorGraph.KeptEdges | src/routes/inventor_graph.js:85-89 | every kept edge weighs at least `minWeight` and joins two allowed names |
| InventorGraph.EdgesOf | src/routes/inventor_graph.js:84-89 | every edge weighs at least `minWeight` and joins two allowed names |
| InventorGraph.PairEdge | src/routes/inventor_graph.js:85-88 | the key of two different allowed bar-free names with weight at least `minWeight` yields exactly one edge, its names in `key.split` order |
| InventorGraph.EdgesSound | src/routes/inventor_graph.js:84-89 | every edge joins two different allowed names, its key splits back to them, and its weight is the number of records naming both, at least `minWeight` and at most either endpoint's count |
| InventorGraph.EdgesComplete | src/routes/inventor_graph.js:84-89 | every allowed pair named together by at least `minWeight` records has an edge with that weight |
| InventorGraph.NoDanglingRels | src/routes/inventor_graph.js:91-92 | every returned relation joins two different returned node ids |
| InventorGraph.TopN | src/routes/inventor_graph.js:35 | `topN` lies in `[10, 400]`: 100 when the query value is unset; otherwise 100 when the parse is NaN or 0, 10 or 400 below or above, the number in between |
| InventorGraph.MinWeight | src/routes/inventor_graph.js:36 | `minWeight` lies in `[1, 1000]`: 1 when unset; otherwise 1 when the parse is NaN or 0 or below 1, 1000 above, the number in between |
| InventorGraph.SampleLimit | src/routes/inventor_graph.js:37 | `sampleLimit` lies in `[100, 20000]`: 5000 when unset; otherwise 5000 when the parse is NaN or 0, 100 or 20000 below or above, the number in between |
| InventorGraph.InventorCollab | src/routes/inventor_graph.js:33-93 | the handler's query adds `lim` to the flat filter's parameters; its nodes are the top nodes and its relations the filtered edges |
| Graph.SplitToArray | src/routes/graph.js:6-13 | a falsy text gives no pieces; otherwise the non-empty pieces free of `; , ， ； 、` and white space (`\|` is kept), at most `limit` of them when `limit > 0` |
| Graph.EgoShape | src/routes/graph.js:27-49 | the untrimmed graph is the centre, then the orgs, the inventors and at most one domain, each node built from its name |
| Graph.EgoOf | src/routes/graph.js:27-49 | the ego graph starts with the centre and has one edge per other node, from the centre to that node, labelled by its kind |
| Graph.EgoEdges | src/routes/graph.js:31-49 | one edge per non-centre node, from the centre, labelled by the node's kind |
| Graph.SpokeIsNotCenter | src/routes/graph.js:27-46 | no spoke id equals the centre id |
| Graph.PushNamed | src/routes/graph.js:31-42 | a `forEach` pushes one node and one edge from the centre per name |
| Graph.BuildEgo | src/routes/graph.js:25-49 | the pushes build exactly the ego graph of the row |
| Graph.NodeBudget | src/routes/graph.js:52 | `lim` lies in `[1, 200]`: 50 when `limit` is absent; otherwise 50 when the parse is NaN or 0, 1 below 1, 200 above 200, the number in between |
| Graph.KeepEdges | src/routes/graph.js:55 | an edge is kept exactly when it has both ends among the ids |
| Graph.Trim | src/routes/graph.js:53-55 | the trim keeps the first `min(lim, n)` nodes and exactly the edges with both ends among them |
| Graph.TrimMeaning | src/routes/graph.js:53-55 | the trim keeps the first `lim` nodes and exactly the edges whose two ends are kept |
| Graph.EgoTrimKeepsCenter | src/routes/graph.js:53 | the centre survives every trim |
| Graph.EgoTrimKeepsEdge | src/routes/graph.js:53-55 | an edge is kept whenever its spoke is kept |
| Graph.EgoTrimEdge | src/routes/graph.js:53-55 | every kept edge runs from the centre to a kept spoke |
| Graph.Neighbor | src/routes/graph.js:16-57 | a missing `pub_no` gives `pub_no_required`; an unknown one an empty graph; otherwise the trimmed ego graph of the first row |
| Graph.SharedIndex | src/routes/graph.js:78 | `find` returns the index of the first element of `xs` that `ys` contains, or reports that there is none |
| Graph.FindSharedDedup | src/routes/graph.js:76-78 | `find` over the deduplicated set gives the first applicant of `a` that `b` has |
| Graph.SharedIpc | src/routes/graph.js:79 | `ipcShared` is set exactly when both prefixes are truthy and equal |
| Graph.Path | src/routes/graph.js:65-102 | a missing `src` or `dst` gives `src_dst_required`; an unknown patent gives no paths; otherwise the bridge paths of the two rows |
| Graph.PathsOf | src/routes/graph.js:84-102 | at most one path, none exactly when nothing is shared; a path is `a`, `b` and a third node, with an edge from `a` to it and one from it to `b` under the same label |
| Graph.PathsVia | src/routes/graph.js:87-102 | the same, given the shared applicant and the shared prefix |
| Graph.PathsShape | src/routes/graph.js:84-102 | there is no path or exactly one three-node bridge |
| Graph.PathsEmpty | src/routes/graph.js:87-102 | there is no path exactly when the patents share no applicant and no prefix |
| Graph.PathViaOrg | src/routes/graph.js:76-93 | a shared applicant wins: the path goes through the first applicant of `a` that `b` has, with `APPLIED_BY` edges |
| Graph.PathViaDomain | src/routes/graph.js:79-100 | with no shared applicant and an equal truthy prefix, the path goes through the domain with `BELONGS_TO` edges |
| Graph.PathsSymmetric | src/routes/graph.js:76-100 | a path is found from `a` to `b` exactly when one is found from `b` to `a` |
| Search.ThumbKey | src/routes/search.js:82 | the key is the upper-cased first truthy one of `ipc_main_prefix`, `ipc_main`, `pub_no`, else empty |
| Search.ThumbSum | src/routes/search.js:83 | the running sum stays in `[0, 997)` |
| Search.ThumbSumIsSumMod | src/routes/search.js:83 | reducing at every step gives the total of the code units modulo 997 |
| Search.Thumb | src/routes/search.js:81-85 | the thumbnail is one of the three, the one at the sum of the key's UTF-16 code units modulo 997, then modulo 3 |
| Search.PickThumb | src/routes/search.js:81-85 | the loop computes the checksum and returns one of the three thumbnails |
| Search.ThumbIgnoresOtherColumns | src/routes/search.js:82 | the thumbnail depends on no column but the three key columns |
| Search.WithThumbMeaning | src/routes/search.js:86 | each row keeps all its columns and gains `thumb_url`, a thumbnail; doing it twice changes nothing more |
| Search.WithThumbs | src/routes/search.js:86 | one row per row, in order; each keeps every column and value and gains `thumb_url`, its thumbnail |
| Search.Total | src/routes/search.js:71 | the total is the first count row's truthy `total`, else 0 |
| Search.SearchRoute | src/routes/search.js:6-88 | the handler's count and list queries share the flat filter; the list parameters add `offset` and `pageSize`; the list is the rows with thumbnails |
| Search.ListParamsMeaning | src/routes/search.js:73 | `offset` and `pageSize` are new names, so the list parameters keep every filter parameter |
| Compare.TokensEmpty | src/routes/compare.js:10-11 | no ids are found exactly when the text is made only of separators |
| Compare.RawIds | src/routes/compare.js:8 | the raw text is empty for an unset value or blank text, unchanged for text without white space, and never starts or ends with white space |
| Compare.FirstDistinct | src/routes/compare.js:10 | at most three distinct ids from the tokens; a token is left out only when three are already taken |
| Compare.CompareIds | src/routes/compare.js:10 | the ids are the distinct tokens in first-occurrence order, at most three, non-empty and separator-free; a token is left out only when three are kept; there are none exactly when the text is all separators |
| Compare.CompareIdsOrder | src/routes/compare.js:10 | the ids keep the order of their first occurrence |
| Compare.ParamNameInjective | src/routes/compare.js:14-15 | different positions give different names |
| Compare.Params | src/routes/compare.js:15 | the parameter names are exactly `p0 ... p{n-1}` |
| Compare.ParamsLookup | src/routes/compare.js:15 | `params[p_i]` is `ids[i]` |
| Compare.ParamsAll | src/routes/compare.js:15 | every id is bound under its own name |
| Compare.PlaceholdersRoundTrip | src/routes/compare.js:14 | the placeholder text splits on `,` into exactly `:p0, ..., :p{n-1}` |
| Compare.CompareRequest | src/routes/compare.js:8-22 | a blank `pub_nos` is refused with `pub_nos_required`; separators alone give an empty list without a query; otherwise the query carries one to three ids, the `i`-th bound to `p<i>` and nothing else bound, and the SQL's `IN (...)` list reads back as `:p0` to `:p<n-1>` |
| XlsxImport.LastChar | src/scripts/import-xlsx.js:16 | `slice(-1)` is empty for empty text, else the last character |
| XlsxImport.LastCharDecides | src/scripts/import-xlsx.js:16-19 | `slice(-1)` takes the last UTF-16 code unit: it is `U`, `S`, `A` or `B` exactly when the last character is |
| XlsxImport.DerivePatentType | src/scripts/import-xlsx.js:14-21 | a missing or blank number has no type; otherwise the last non-blank character decides, in either case: `U` utility model, `S` design, `A` or `B` invention, anything else none |
| XlsxImport.FirstMatch | src/scripts/import-xlsx.js:26 | the regex search finds the leftmost start of letter, digit, digit, or reports that there is none |
| XlsxImport.MatchLen | src/scripts/import-xlsx.js:26 | the greedy optional letter makes the match three or four characters long |
| XlsxImport.IpcTextShape | src/scripts/import-xlsx.js:25 | the normalised text has no white space and no lower-case letter |
| XlsxImport.IpcPrefix | src/scripts/import-xlsx.js:23-27 | an unset classification gives nothing; a set one a prefix of at most four characters, upper-case and white-space free |
| XlsxImport.IpcPrefixOfMatch | src/scripts/import-xlsx.js:26-27 | with a match, the prefix is the leftmost letter-digit-digit, three or four long, four exactly when a letter follows |
| XlsxImport.IpcPrefixWithoutMatch | src/scripts/import-xlsx.js:27 | without a match, the prefix is the first four characters of the normalised text |
| XlsxImport.IpcPrefixWithoutMatchUnits | src/scripts/import-xlsx.js:27 | without a match and with the first four characters below U+10000, the prefix is exactly the first four code units (`slice(0, 4)`) |
| XlsxImport.PrefixOfTextIdempotent | src/scripts/import-xlsx.js:26-27 | taking the prefix of a prefix changes nothing |
| XlsxImport.IpcPrefixIdempotent | src/scripts/import-xlsx.js:23-28 | feeding a non-empty prefix back in gives it back |
| XlsxImport.NormalizeShape | src/scripts/import-xlsx.js:32 | the normalised applicants contain no `\| ; ； 、` and no white space, no `,,`, and no leading or trailing comma |
| XlsxImport.NormalizeApplicant | src/scripts/import-xlsx.js:30-33 | an unset applicant gives nothing; a set one text with no separator but the comma, no `,,` and no comma at either end, whose comma-separated names are the input's names, in order |
| XlsxImport.NormalizeIdempotent | src/scripts/import-xlsx.js:32 | normalising twice changes nothing more |
| XlsxImport.NormalizeKeepsNames | src/scripts/import-xlsx.js:32 | the comma-separated names of the output are the input's names, in order |
| XlsxImport.IsGranted | src/scripts/import-xlsx.js:35-38 | the flag is 1 exactly when the status is set and contains `授权`, else 0 |
| XlsxImport.GrantedWhenMentioned | src/scripts/import-xlsx.js:37 | any text containing `授权` is granted |
| Export.FalsyField | src/routes/export.js:39 | a falsy value encodes as `""` |
| Export.Escape | src/routes/export.js:39 | doubling the quotes leaves a text without quotes unchanged and lengthens any other; `ReadEscaped` reads every escaped text back |
| Export.ReadEscaped | src/routes/export.js:39 | un-doubling the quotes of an escaped field, up to its closing quote, gives the field back |
| Export.EncodeField | src/routes/export.js:39 | every encoded field is quoted, and its inside reads back as the field's text |
| Export.EncodeRow | src/routes/export.js:39 | reading an encoded row back gives its five field texts and nothing left over |
| Export.RowRoundTrip | src/routes/export.js:39 | a row is exactly five quoted fields with four separating commas; reading it gives the five texts |
| Export.ReadJoined | src/routes/export.js:39 | quoted fields joined by commas read back as the fields |
| Export.ReadBody | src/routes/export.js:39 | the rows joined by line feeds read back row by row |
| Export.ExportFile | src/routes/export.js:38-40 | the file is the header and then one line per row with no trailing line feed: it reads back as the five fields of every row, in order |

## Left out

- Database evaluation:
  - MySQL's meaning of `MATCH ... AGAINST`, `LIKE` and `FIND_IN_SET` is not modelled: the model stops at the SQL text and the parameter map.
  - Each query's result is a parameter of the handler that issues it.
- Request and response plumbing is not modelled: async/await, the request and response objects, the JSON shape of replies, and the `500 internal_error` paths taken when the database throws.
- Compare rows pass through unchanged: `Compare.CompareRequest` returns the query and its parameters, not the rows.
- Advanced search returns its rows unchanged, so `AdvancedSearch.AdvancedSearchQuery` stops at the two queries.
- JavaScript primitives:
  - `Number()` reads only optionally signed decimal integers. Fractions, exponents, hex and `Infinity` are read as not finite, which is where `Number.isFinite` matters.
  - `toUpperCase` is modelled on ASCII letters only.
  - Request values are modelled as `undefined`, `null`, booleans, integers and strings only. Arrays (a repeated query key), objects, fractions, and the rounding of numbers beyond 2^53 are not modelled, so inputs such as `page=2.5` or `year_from: 2020.5` have no counterpart.
  - Js.ParseInt: its contract states when the result is NaN; the value read is stated by the lemmas `ParseIntValue`, `ParseIntValueNeg` and `ParseIntValuePos`.
- Js.ToNumber: its contract leaves a non-blank string to the body (trim, then an optionally signed run of decimal digits); `ToNumberOfIntToString` ties it to `String`.
- Search.SearchRoute: the list is specified with the `Thumb` function, which `PickThumb` is proved to compute; the handler does not call the loop itself.
- XlsxImport.LastChar: takes the last character, while `slice(-1)` takes the last UTF-16 code unit, half of a surrogate pair for a character above U+FFFF. A Dafny string cannot hold half a pair; `LastCharDecides` proves the two agree on every kind letter the import tests for.
- XlsxImport.IpcPrefixWithoutMatch: takes the first four characters, while `slice(0, 4)` takes four UTF-16 code units and can split a surrogate pair. `IpcPrefixWithoutMatchUnits` proves the two agree when the first four characters lie below U+10000.
- Thumbnail checksum: `charCodeAt` is modelled by UTF-16 code units, so characters outside the basic plane count as two units, as in JavaScript.
- src/scripts/import-xlsx.js:
  - `parseDate` is not modelled, because it relies on JavaScript `Date` parsing.
  - `main` is not modelled: it reads the spreadsheet, runs the insert transaction and logs to the console.
- src/routes/export.js is modelled only for its encoder (lines 38-40). Left out:
  - `auth` and the `export_tasks` inserts and updates;
  - the file write and the status and download endpoints;
  - the `String(Date)` rendering of `pub_date`. A date field is modelled as the text it renders to.
- Not modelled at all:
  - src/routes/user.js, src/routes/fav.js and src/routes/note.js: accounts, hashing, tokens and database CRUD;
  - src/routes/stats.js: SQL aggregation and a floating-point rate;
  - src/routes/patent.js: a single lookup;
  - src/scripts/export-docx.js: file globbing and the docx library;
  - src/db/mysql.js and src/app.js: configuration and wiring.
- The source and its design notes differ in three places; the model follows the source:
  - `clean` drops one-character names (src/routes/inventor_graph.js:53), and a record needs two cleaned names before deduplication (line 60).
  - The top-node sort compares counts only (line 79). Entries of equal count stay in insertion order (first appearance in the sample); they are not ordered by name.
  - The neighbour graph's `splitToArray` (src/routes/graph.js:6-13) does not remove duplicates. A name listed twice gives two nodes with the same id; only the path handler wraps its lists in a `Set`.
