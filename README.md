# ExtractTabel: table-page bookkeeping of a financial-statement PDF extractor

`ExtractTabel` (extract_table.py) reads a Brazilian financial-statement PDF and returns its tables
keyed by title. This project models the logic it applies around its PDF and table libraries:

- the table of contents (`_get_summary_pages`): the subtitles between the markers
  "DFs Individuais" and "Pareceres e Declarações" on page 1 are sorted into page numbers
  (`\d+` at the head) and item names (`[A-Za-z]+.+`); they are then paired by position into an
  insertion-ordered dictionary;
- the table pages (`get_summary_tables_pages`): every item that is not a report (`Relat.+`) or
  a note (`Nota.+`) gives the page after its listed page;
- the column names of a statement of changes in equity (`_get_dmpl_columns_names`) and of the
  other statements (`_get_dfs_columns_names`): the header texts are stripped, have their line
  breaks removed and are put in a fixed order. In the second one, the prior-period label is
  first moved from the last header to the one before it;
- the table of one page (`get_tables`): "DMPL" in the title chooses the column names and how
  many header rows are dropped;
- the collection loop (`extract_tables`): pages that raise are skipped, and the rest are stored
  under their titles.

Modules, in dependency order:

- `Results` (results.dfy): `Option`, `Result` and the Python exceptions that reach the model.
- `Text` (text.dfy): `re.match` of the two patterns, `int()`, `str.strip()`,
  `str.replace(x, '')` and `in`.
- `OrderedMaps` (ordered_maps.dfy): Python's insertion-ordered `dict` with string keys.
- `Summary` (summary.dfy): `_get_summary_pages` and `get_summary_tables_pages`.
- `Columns` (columns.dfy): the two column-name resolvers.
- `Extraction` (extraction.dfy): `get_tables`, `extract_tables` and the constructor.

The PDF is reduced to a `Document` value. It holds:

- the subtitle texts of the summary section;
- and, per page:
  - the table title;
  - the column-header texts;
  - the tables the table extractor finds.

Each of these is optional; a missing one stands for the library call that raises.

The loops and in-place updates of the source, and the methods that run them, are methods proved
equal to specification functions:

- `Summary.SortSubtitles`, `Summary.PairUp` and `Summary.BuildSummary`;
- `Columns.CleanHeaders`, `Columns.MergePriorPeriod` and `Columns.ResolveDfsColumns`;
- `Extraction.CollectTables`, `Extraction.ExtractTables` and `Extraction.Create`.

The properties are proved about those specification functions.

`Nota.+` does not match an English "Note 1". `Summary.EnglishNoteIsKept` proves that a table of
contents listing "Balance Sheet", "Income Statement" and "Note 1" gives `[11, 16, 21]`.
`Summary.ScenarioSubtitlesTablePages` proves `[11, 16]` for one ending in "Notas Explicativas".

## Model

| member | source | states |
|---|---|---|
| Text.MatchDigitsIsLongestMatch | extract_table.py:50 | `re.match(r'\d+', t)` succeeds exactly when some prefix of `t` is a digit run, and its match is the longest such prefix |
| Text.MatchNameIsLongestMatch | extract_table.py:51 | `re.match(r'[A-Za-z]+.+', t)` succeeds exactly when some prefix is letters followed by non-newline characters, and its match is the longest such prefix: the whole first line |
| Text.DecimalRoundTrip | extract_table.py:53 | `int()` of the decimal numeral of `n` is `n` |
| Text.LeadingDigitsOfNumeral | extract_table.py:50 | the digit run matched at the head of a numeral followed by a non-digit is that numeral |
| Text.MatchDigits | extract_table.py:50 | definition of `re.match(r'\d+', t)`: the leading digit run when `t` starts with a digit; properties in `Text.MatchDigitsIsLongestMatch` |
| Text.MatchName | extract_table.py:51 | definition of `re.match(r'[A-Za-z]+.+', t)`: the first line when `t` starts with a letter and that line has two or more characters; properties in `Text.MatchNameIsLongestMatch` |
| Text.DigitsValue | extract_table.py:53 | definition of `int()` on a digit run; properties in `Text.DecimalRoundTrip` |
| Text.FirstLineOf | extract_table.py:51 | the first line of a newline-free text followed by a line break or nothing is that text |
| Text.Strip | extract_table.py:85 | `str.strip()` leaves no whitespace (Python's `str.isspace` set) at either end |
| Text.StripIsSlice | extract_table.py:85 | `str.strip()` only removes whitespace runs at the two ends: the result is a slice of the input with whitespace on both sides |
| Text.StripTrimmed | extract_table.py:85 | stripping a text with no whitespace at its ends changes nothing |
| Text.RemoveChar | extract_table.py:85 | `replace('\n', '')` leaves no line break and changes nothing in a text without one; what it keeps is in `Text.RemoveCharAppend` and `Text.RemoveCharSingle` |
| Text.RemoveAll | extract_table.py:102 | `replace('Penúltimo Exercício', '')` never lengthens the text; properties in `Text.RemoveAllFirstOccurrence`, `Text.RemoveAllAbsent`, `Text.RemoveAllKeepsChars` and `Text.RemoveAllLeading` |
| Text.RemoveCharAppend | extract_table.py:85 | `replace('\n', '')` works character by character: on a concatenation it is the concatenation of the two results |
| Text.RemoveCharSingle | extract_table.py:85 | `replace('\n', '')` on one character deletes a line break and keeps any other character |
| Text.RemoveAllFirstOccurrence | extract_table.py:102 | `replace('Penúltimo Exercício', '')` keeps the text before the leftmost occurrence unchanged, deletes that occurrence and continues after it |
| Text.RemoveAllKeepsChars | extract_table.py:102 | `replace('Penúltimo Exercício', '')` introduces no character that was not in the text |
| Text.RemoveAllAbsent | extract_table.py:102 | replacing a label that does not occur leaves the text unchanged |
| Text.RemoveAllLeading | extract_table.py:102 | a leading occurrence of the label is deleted and the rest is processed on |
| Text.Contains | extract_table.py:131 | definition of `sub in s`; properties in `Text.ContainsIsOccurrence` |
| Text.ContainsIsOccurrence | extract_table.py:131 | `'DMPL' in title` holds exactly when "DMPL" occurs in the title at some position |
| OrderedMaps.Put | extract_table.py:58 | `d[k] = v` maps `k` to `v`, keeps the other entries, and leaves the existing keys in their order |
| OrderedMaps.PutAllKeys | extract_table.py:57-58 | the keys of a dictionary filled by assignments are the assigned keys in order of first assignment |
| OrderedMaps.PutAllDomain | extract_table.py:57-58 | a key is present exactly when it was assigned |
| OrderedMaps.PutAllLast | extract_table.py:57-58 | a key holds the value of its last assignment |
| OrderedMaps.OverwriteKeepsOrder | extract_table.py:58 | reassigning a present key changes its value and not the key order |
| OrderedMaps.PutAllDistinctKeys | extract_table.py:57-58 | with distinct keys, the key order is the assignment order |
| OrderedMaps.PutAllDistinctValues | extract_table.py:57-58 | with distinct keys, every assignment is stored as made |
| Summary.Classify | extract_table.py:50-55 | definition of one iteration of the first loop: a page number, a name, or no match (the `.group()` on `None`); properties in `Summary.ClassifyCases`, `Summary.PageNumberText` and `Summary.NameText` |
| Summary.ClassifyCases | extract_table.py:50-55 | a subtitle starting with a digit is the page number of its leading digit run; else one starting with a letter whose first line has two or more characters is that line as a name; any other subtitle has no match |
| Summary.PageNumberText | extract_table.py:50-53 | a page numeral, followed by nothing or a non-digit, reads back as its page number |
| Summary.NameText | extract_table.py:51-55 | a letter-led one-line name of two or more characters reads back as that name whatever lines follow |
| Summary.SortSubtitles | extract_table.py:47-55 | the first loop succeeds exactly when every subtitle classifies; it then returns the names and the page numbers in subtitle order; otherwise `.group()` on `None` raises |
| Summary.PairUp | extract_table.py:57-58 | the second loop fails with an index error exactly when there are fewer names than page numbers; otherwise it assigns the k-th name the k-th number, in order |
| Summary.BuildSummary | extract_table.py:46-60 | the two loops together compute the summary dictionary `SummaryOf(texts)` |
| Summary.SummaryOf | extract_table.py:46-60 | a summary that is built is a well-formed ordered dictionary |
| Summary.SummaryErrors | extract_table.py:49-58 | the build raises the attribute error exactly when some subtitle is neither number nor name; it raises the index error exactly when all classify and names are fewer than numbers |
| Summary.UnclassifiedSubtitleFails | extract_table.py:54-55 | one unclassifiable subtitle fails the whole build instead of being skipped |
| Summary.SummaryKeys | extract_table.py:57-58 | the keys are the first `len(page)` names in order of first appearance (surplus names ignored); there are at most `len(page)` of them, and exactly that many iff those names are distinct |
| Summary.SummaryPairing | extract_table.py:57-58 | the k-th name maps to the k-th number when no later paired name repeats it (the later number wins) |
| Summary.ListingLists | extract_table.py:49-55 | the subtitles of a table of contents written as name, page, name, page, ... all classify and give back the names and the pages |
| Summary.ListingIsPutAll | extract_table.py:46-60 | such a table of contents yields the dictionary built from its entries in order |
| Summary.ListingSummary | extract_table.py:46-60 | with distinct well-formed names it yields exactly those entries, in listed order |
| Summary.ListingOfThree | extract_table.py:46-60 | a table of contents listing three distinct well-formed names with their pages yields those three entries in order |
| Summary.KeptKeysMembers | extract_table.py:69 | the kept keys are exactly the keys matching neither `Relat.+` nor `Nota.+`, and are no more than the keys |
| Summary.IsReportOrNote | extract_table.py:69 | definition of `re.match(r'Relat.+\|Nota.+', k) != None`; properties in `Summary.FilterExamples` and `Summary.KeptKeysMembers` |
| Summary.PagesAfterKept | extract_table.py:70-71 | the j-th output is the page of the j-th kept key plus one, and there is one output per kept key |
| Summary.TablePages | extract_table.py:69-71 | `get_summary_tables_pages` gives, in dictionary order, `d[k] + 1` for exactly the kept keys |
| Summary.SummaryTablePages | extract_table.py:68-71 | `get_summary_tables_pages` succeeds exactly when the summary is built, passes the build's error through, and otherwise gives, for each kept key in order, its listed page plus one |
| Summary.FilterExamples | extract_table.py:69 | a report title and a notes title are filtered out; exactly "Relat", exactly "Nota", an English "Note 1" and table titles are kept |
| Summary.ExampleFilters | extract_table.py:69 | "Notas Explicativas" is filtered out; "Balanço Patrimonial Ativo", "Demonstração do Resultado", "Balance Sheet", "Income Statement" and "Note 1" are kept |
| Summary.TablePagesOfTwoTablesAndNote | extract_table.py:69-71 | two table keys followed by a note key give the pages after the two tables |
| Summary.TablePagesOfThreeTables | extract_table.py:69-71 | three keys that are neither reports nor notes give the page after each |
| Summary.ScenarioListingTablePages | extract_table.py:68-71 | the listing of two tables and the notes gives table pages `[11, 16]` |
| Summary.ScenarioSubtitlesTablePages | extract_table.py:68-71 | the subtitles "Balanço Patrimonial Ativo", "10", "Demonstração do Resultado", "15", "Notas Explicativas", "20" give table pages `[11, 16]` |
| Summary.EnglishNoteIsKept | extract_table.py:68-71 | that English table of contents gives `[11, 16, 21]`: "Note 1" is not filtered |
| Columns.CleanIdempotent | extract_table.py:85 | cleaning a header twice is cleaning it once |
| Columns.Clean | extract_table.py:85 | `h.strip().replace('\n', '')` contains no line break; properties in `Columns.CleanIdempotent` and `Columns.CleanAllKeepsTidyHeaders` |
| Columns.Permute | extract_table.py:86 | definition of `[c[i] for i in order]`; properties in `Columns.DmplOrderPlacesEveryName`, `Columns.DmplOrderPicks` and `Columns.DfsOrderPicks` |
| Columns.CleanAllKeepsTidyHeaders | extract_table.py:85 | headers without line breaks or surrounding whitespace are left as they are |
| Columns.DmplColumns | extract_table.py:83-86 | the DMPL names exist exactly when there are at least 8 headers (else an index error); there are 8, and name j is cleaned header `[3, 0, 4, 7, 1, 5, 6, 2][j]` |
| Columns.DmplOrderIsBijection | extract_table.py:84 | the DMPL order is a bijection on 0..7, with inverse `[1, 4, 7, 0, 2, 5, 6, 3]` |
| Columns.DmplOrderPlacesEveryName | extract_table.py:84-86 | reordering puts every one of the first 8 names at its inverse position |
| Columns.DmplColumnsArePermutation | extract_table.py:83-86 | every one of the first 8 cleaned headers appears in the DMPL names, at its inverse position |
| Columns.DmplExtraHeadersIgnored | extract_table.py:86 | headers beyond the 8th do not change the DMPL names |
| Columns.DmplColumnsExample | extract_table.py:83-86 | headers "a".."h" come out as d, a, e, h, b, f, g, c |
| Columns.Merged | extract_table.py:101-102 | the merge keeps the number of names |
| Columns.MergedKeepsFront | extract_table.py:101-102 | the merge prefixes `'Penúltimo Exercício '` to name -2, removes the label from name -1 and strips it, and leaves all other names alone |
| Columns.DfsColumns | extract_table.py:98-103 | the DFS names exist exactly when there are at least 5 headers (else an index error), and there are 5 |
| Columns.DfsOrderOfFive | extract_table.py:101-103 | on five names the result is `[c1, c0, c2, label + ' ' + c3, strip(c4 without label)]` |
| Columns.DfsOrderOfSix | extract_table.py:101-103 | on six names the prefixed name is the fifth output and the label-stripped name is lost |
| Columns.DfsOrderOfSevenOrMore | extract_table.py:101-103 | on seven names or more neither merged name reaches the output |
| Columns.DfsColumnsOfFive | extract_table.py:98-103 | five headers give `[c1, c0, c2, label + ' ' + c3, strip(c4 without label)]` of the cleaned headers |
| Columns.DfsColumnsOfSix | extract_table.py:98-103 | six headers give `[c1, c0, c2, c3, label + ' ' + c4]` of the cleaned headers |
| Columns.DfsWideTableIgnoresMerge | extract_table.py:98-103 | seven headers or more give the first five cleaned headers in the order `[1, 0, 2, 3, 4]` |
| Columns.PriorPeriodLabelRemoved | extract_table.py:102 | a last header made of the label followed by dates keeps only the stripped dates |
| Columns.MergedHasNoNewline | extract_table.py:101-102 | the merge adds no line break |
| Columns.CleanAllHasNoNewline | extract_table.py:85 | no cleaned header contains a line break |
| Columns.DmplColumnsHaveNoNewline | extract_table.py:85-86 | no DMPL column name contains a line break |
| Columns.DfsColumnsHaveNoNewline | extract_table.py:100-103 | no DFS column name contains a line break, the merged ones included |
| Columns.CleanHeaders | extract_table.py:100 | builds a fresh list holding the cleaned header texts, in order |
| Columns.MergePriorPeriod | extract_table.py:101-102 | overwriting positions -2 and -1 in place leaves the list equal to the merge of its old contents |
| Columns.ResolveDfsColumns | extract_table.py:98-104 | the in-place procedure returns exactly `DfsColumns(headers)`, the index errors included |
| Extraction.ColumnNames | extract_table.py:134 | the column names chosen for a table number 8 for DMPL and 5 otherwise |
| Extraction.KindOf | extract_table.py:131 | definition of `'DMPL' in title`; properties in `Extraction.KindDispatch` |
| Extraction.RowsDropped | extract_table.py:135 | definition of the rows `drop` removes: two for DMPL (line 135), one otherwise (line 140); properties in `Extraction.GetTable` |
| Extraction.GetTable | extract_table.py:130-141 | a table comes out only with a title and an extracted first table. Its kind is the title's, its column names match the table's width (8 or 5), and it keeps the rows after the 2 (DMPL) or 1 (other) dropped |
| Extraction.KindDispatch | extract_table.py:131-140 | DMPL exactly when "DMPL" occurs in the title; DMPL takes the names of page 7's headers, any other table those of its own page |
| Extraction.DmplColumnsIgnorePage | extract_table.py:83 | two DMPL tables on different pages get the same column names |
| Extraction.GetTableSucceeds | extract_table.py:130-141 | a table comes out exactly when there are a title, a first table, the kind's column names, as many names as columns, and the header rows to drop |
| Extraction.TryPage | extract_table.py:152-156 | a page adds an entry exactly when `get_tables` succeeds on it, keyed by its title |
| Extraction.OutcomeOfPage | extract_table.py:151 | the pages are processed in list order: outcome i is page i's |
| Extraction.Collect | extract_table.py:150-157 | the collected tables form a well-formed ordered dictionary |
| Extraction.FailureSkipped | extract_table.py:155-156 | a page that raises leaves the dictionary unchanged |
| Extraction.SuccessStored | extract_table.py:153 | a page that succeeds is assigned under its title; a title already present keeps its place and takes the new table |
| Extraction.StoredTitles | extract_table.py:151-156 | a title is stored exactly when some page succeeds with it |
| Extraction.CollectLatest | extract_table.py:151-156 | the table under a title is that of the last page succeeding with it |
| Extraction.ExtractAll | extract_table.py:149-157 | the result of the loop is a well-formed ordered dictionary |
| Extraction.ExtractAllKeys | extract_table.py:149-157 | the keys are exactly the titles of the pages that succeed, in order of first success |
| Extraction.ExtractAllLatest | extract_table.py:149-157 | a later page with the same title overwrites the table of an earlier one |
| Extraction.SummaryOfDocument | extract_table.py:29-45 | definition: a missing or repeated section marker is an element lookup error, otherwise the build of `Summary.SummaryOf`; properties in `Extraction.Extracted` and `Extraction.Create` |
| Extraction.Extracted | extract_table.py:149 | a failing summary is not caught: `extract_tables` succeeds exactly when the summary is built |
| Extraction.CollectTables | extract_table.py:150-157 | the loop computes `ExtractAll(doc, pages)` |
| Extraction.ExtractTables | extract_table.py:149-157 | `extract_tables` computes `Extracted(doc)` |
| Extraction.Create | extract_table.py:17-19 | construction succeeds exactly when the summary is built; it then holds the collected tables and the summary dictionary |

## Left out

- PDF loading and element lookup are not modelled (extract_table.py:17, 29-45, 114-118). The
  summary subtitles, the table title, the header texts and the extracted tables of each page
  are inputs of the `Document` value. A lookup that finds no element or several is
  `ElementLookupError`.
- Font classification (`FONT_MAPPING`, extract_table.py:8-16) happens inside the PDF library;
  the model receives texts already selected by font.
- Table extraction and DataFrames are foreign code. A table is its width and its rows, and
  `tabula.read_pdf` failing is `ExtractorError`. Of `set_axis` and `drop`, only the length check
  and the rows removed are modelled. `drop(0)` is modelled as dropping the first row, which
  assumes the extractor's default row labels 0, 1, 2, ...
- The module-level script (extract_table.py:160-161) and the unused `visualise` import are
  left out. They are a hard-coded file, printing and I/O.
- `\d` and `int()` are modelled on ASCII digits only; Python also accepts other Unicode digits.
- `extract_tables` calls `get_table_name` again for the key after `get_tables` succeeded. The
  model's title lookup is a function of the page, so the second call cannot differ from the first.
- The bare `except:` in `extract_tables` also catches exceptions the model does not have. Every
  error of `get_tables` modelled here is skipped, as in the source.
- Summary.Classify: `int()` of a digit run longer than 4300 digits raises ValueError on current
  CPython (the default `sys.get_int_max_str_digits()`), which would end `extract_tables` and the
  constructor; the model reads page numerals of any length.
- Columns.DmplColumnsArePermutation: the permutation is stated as an explicit inverse position
  for every header. It is not a multiset equality, which the solver cannot handle cheaply for
  eight elements.
