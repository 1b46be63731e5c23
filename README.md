# Tenant splitter: a verified model of the attribution core

The tenant splitter takes four bulk PDF documents (statements, invoices,
receipts and, optionally, water bills) that each hold the pages of many
tenants. It produces one PDF per tenant. The core decides, page by page,
which tenant a page belongs to:

- `extract_tenant_name` finds a name on the page.
- `first_two_words(normalize(name))` turns the name into a tenant key.
- On statement pages only, `extract_park`, `extract_godowns` and
  `extract_month_year` read the metadata that names and files the output.

`process_bulk_pdf` runs this over one document and accumulates into a shared
`tenants` aggregate. The run then writes each tenant's pages in the fixed
order statement, invoice, receipt, water to
`<park>/<key> <godowns> - <date>.pdf`.

This project models that core in Dafny:

- `text.dfy` (module `Text`): the ASCII meaning of the Python string
  operations the core uses (`upper`/`lower`, `strip`, `split("\n")`, `in`,
  `endswith`, `replace(pat, "")`, `\s`, `\d`, `\w`).
- `keys.dfy` (module `Keys`): `normalize` and `first_two_words`. `str.split()`
  is modelled by CPython's index scan.
- `park.dfy`, `godowns.dfy`, `dates.dfy` and `names.dfy`: the four
  extractors, as pure functions.
  - `extract_month_year` models `strptime` validity, leap years included.
  - The `ValueError` from `strptime` and the `IndexError` of `lines[i+1]`
    become `Err` values (`Common.Error`).
- `attribution.dfy` (module `Attribution`): the aggregate as a value
  (`Table`: the records plus the dict's insertion order). It also holds the
  loop of `process_bulk_pdf` as a function of the pages read (`Step`,
  `RunPages`, `PassOver`), and reference definitions stated from the pages
  alone (`CursorAt`, `Attributed`, `LastNamed`). Lemmas connect the loop to
  those definitions.
- `assembly.dfy` (module `Assembly`): the writer loop's page order, the
  path of each tenant's file, and the directory after all files are
  written (a later tenant with the same path overwrites the earlier file).
- `tenants.dfy` (module `Tenants`): the aggregate as an object updated in
  place (`TenantTable`).
  - `ProcessBulkPdf` is the page loop, `Export` is the writer loop and
    `SplitTenants` is the whole "Process PDFs" run. Each method is proved
    equal to the functions above.
  - End-to-end lemmas describe what a run produces.

Page texts are inputs: extracting text from a PDF is not modelled. An output
page is a `PageRef` (document type and page index) that stands for
`reader.pages[i]`.

## Model

| member | source | states |
|---|---|---|
| Text.JoinSplit | app.py:72 | Splitting the page text on newlines loses nothing: joining the pieces with newlines gives the text back. |
| Text.SplitJoin | app.py:72 | Newline-free pieces joined with newlines split back into the same pieces. |
| Text.KeepLinesMembers | app.py:72 | A line is kept exactly when it is the stripped form of some line of the text and is longer than the minimum. |
| Keys.Collapse | app.py:30 | `re.sub(r"\s+", " ", s)`: each maximal whitespace run becomes one space. The result is empty only for an empty input, and starts with whitespace exactly when the input does. |
| Keys.CollapseShape | app.py:30 | The collapsed string is single-spaced, and it has no lower-case letter when the input has none. |
| Keys.Normalize | app.py:28-31 | The result is upper case, has single-space runs only, and is stripped. |
| Keys.NormalizeWords | app.py:28-31 | `normalize` keeps the name's tokens: `normalize(x).split()` has as many tokens as `x.split()`, and each is the corresponding token upper-cased. |
| Keys.CollapseWords | app.py:30 | Collapsing whitespace runs leaves the tokens unchanged. |
| Keys.StripWords | app.py:31 | `strip()` leaves the tokens unchanged. |
| Keys.WordsFromUpper | app.py:29 | Upper-casing a string upper-cases each of its tokens and keeps their number. |
| Keys.CollapseSingleSpaced | app.py:30 | Collapsing whitespace runs leaves a string that already has single spaces unchanged. |
| Keys.NormalIsFixed | app.py:28-31 | Normalising an already normal string returns it unchanged. |
| Keys.NormalizeIdempotent | app.py:28-31 | `normalize(normalize(x)) == normalize(x)`. |
| Keys.Words | app.py:34 | `s.split()` with no argument: the maximal runs of non-whitespace, in order, by the index scan CPython uses. |
| Keys.WordsOfSpaces | app.py:34 | `split()` yields no tokens exactly when the string is all whitespace. |
| Keys.WordsFromShape | app.py:34 | Every token `split()` yields is non-empty and has no whitespace; tokens of an upper-case string are upper case. |
| Keys.WordsJoin | app.py:34 | Splitting the single-space join of tokens gives those tokens back (the round trip `split(join(ws)) == ws`). |
| Keys.JoinIsNormal | app.py:34 | Joining upper-case tokens with single spaces gives a normal string. |
| Keys.FirstTwoWords | app.py:33-34 | The key is normal, and its tokens are the first two tokens of the normalised name. |
| Keys.KeyWords | app.py:33-34 | The key's tokens are the first two tokens of the name (fewer when the name has fewer), each upper-cased. |
| Keys.KeyOfTwoWords | app.py:33-34 | A name with at least two tokens has the key `<FIRST> <SECOND>`, both upper-cased. |
| Keys.KeyIgnoresRest | app.py:33-34 | Whatever follows the second token, and however much whitespace separates the first two, the key is the two tokens upper-cased with one space between. |
| Keys.KeyExample | app.py:33-34 | "John Smith Suite 4" and "JOHN   SMITH" both get the key "JOHN SMITH". |
| Keys.FirstTwoWordsIdempotent | app.py:33-34 | Taking the key of a key returns the same key. |
| Keys.SameKey | app.py:33-34 | Two names share a key exactly when their normalised names agree on the first two tokens. |
| Keys.KeyNonEmpty | app.py:33-34 | A name with any non-whitespace character has a non-empty key. |
| Park.ExtractPark | app.py:36-46 | Computes the park: upper-cases the page, then tests SAPHIRE or SAPPHIRE, GRAPHITE, EMERALD and SCARLET in that order. The first keyword found names the park, and UNKNOWN is returned when none occurs. |
| Park.ParkCases | app.py:36-46 | The result is one of the five parks. SAPPHIRE wins whenever SAPHIRE or SAPPHIRE occurs. Each of GRAPHITE, EMERALD and SCARLET is returned exactly when it occurs and no higher-priority keyword does. UNKNOWN is returned exactly when none occurs. |
| Park.ParkIgnoresCase | app.py:37 | Lower- or upper-casing the page does not change the park. |
| Park.SaphireIsSapphire | app.py:38-39 | Any page containing the misspelling SAPHIRE, spelled in any mix of upper and lower case, is filed under SAPPHIRE. |
| Godowns.ExtractGodowns | app.py:48-62 | Computes the godown code of a page: the non-empty stripped lines, searched for the upper-cased tenant name. |
| Godowns.GodownsIn | app.py:50-62 | Computes the code from the first line that contains the name and the (at most three) lines after it, or `(OP)` when no line contains the name. |
| Godowns.ScanWindow | app.py:52-61 | Computes the code from the window: the code of its first qualifying line, or `(OP)` when no line qualifies. |
| Godowns.Code | app.py:58-60 | Computes the code of a qualifying line: the upper-cased line from its first digit on, stripped. |
| Godowns.FindNameLine | app.py:50-51 | Finds the first line whose upper-cased form contains the name, or none if no line does. |
| Godowns.ScanWindowOP | app.py:52-61 | The window yields `(OP)` exactly when none of its lines qualifies (a bare date, a PO box or a line without a digit does not). |
| Godowns.ScanWindowFirst | app.py:52-60 | The first qualifying line of the window gives the code. |
| Godowns.CodeIsSuffix | app.py:58-60 | The code is the suffix of the upper-cased line from its first digit, and it starts with a digit. |
| Godowns.GodownsInWindow | app.py:48-62 | Under the first line containing the name, the window holds at most three lines. The result is `(OP)` when none qualifies, otherwise the code of the first line that qualifies. |
| Godowns.GodownsShape | app.py:48-62 | The result is `(OP)` or a string starting with a digit. |
| Godowns.GodownsWithoutName | app.py:48-62 | A page without the name gives `(OP)`. |
| Dates.ExtractMonthYear | app.py:64-69 | Computes the statement month: `UNKNOWN_DATE` when no date matches. For the first match it gives `MON YY`, or `MalformedDate` when the match is not a real date. |
| Dates.ValidDate | app.py:68 | The dates `strptime("%d/%m/%Y")` accepts: year at least 1, month 1 to 12, day within the month (leap years included). |
| Dates.FindDate | app.py:65 | Finds the leftmost `\b\d{2}/\d{2}/\d{4}\b` match, or none if there is none. |
| Dates.MonthYear | app.py:69 | The text is the upper-case month abbreviation, a space, then the two-digit year `y % 100`. |
| Dates.MonthYearCases | app.py:64-69 | Gives `UNKNOWN_DATE` exactly when no date matches. Otherwise the first match decides: `MON YY` when it is a real calendar date, `MalformedDate` when `strptime` would reject it. |
| Dates.MonthYearShape | app.py:69 | A found date always renders as six characters: month name, space, two digits. |
| Dates.RenderDateFields | app.py:68 | Day, month and year printed as DD/MM/YYYY are read back unchanged (a round trip). |
| Dates.MonthYearOfRendered | app.py:64-69 | A date printed as DD/MM/YYYY inside non-digit text at word boundaries gives its own month and year, or `MalformedDate` exactly when it is not a real date. |
| Dates.MonthYearAfter | app.py:64-69 | The same, for any date-shaped token after a digit-free prefix. |
| Dates.MonthYearJanuary | app.py:64-69 | "Statement date 07/01/2024" gives "JAN 24". |
| Dates.MonthYearLeapDay | app.py:68 | "29/02/2024" gives "FEB 24". |
| Dates.MonthYearNoLeapDay | app.py:68 | "29/02/2023" raises `MalformedDate`. |
| Dates.MonthYearZeroMonth | app.py:68 | "15/00/2024" raises `MalformedDate`. |
| Dates.MonthYearNeedsBoundary | app.py:65-67 | A date glued to a word character is not matched: `UNKNOWN_DATE`. |
| Names.ExtractTenantName | app.py:71-81 | Computes the tenant name from the stripped lines longer than two characters. |
| Names.ScanNames | app.py:73-81 | Computes the name from the first recognised line, from the given index on, or `None` when no line is recognised. |
| Names.NameAt | app.py:74-80 | Computes what a recognised line gives. A header gives the next line, or `IndexOutOfRange` when there is none. A title gives the line with "Statement" removed, stripped. |
| Names.ScanNamesNone | app.py:73-81 | The scan gives no name exactly when no line from the start index on is recognised. |
| Names.ScanNamesFirst | app.py:73-80 | The first recognised line decides the result. |
| Names.TenantNameCases | app.py:71-81 | Gives `None` exactly when no kept line (stripped, longer than two characters) is recognised. Otherwise the first recognised line decides. |
| Names.TenantNameShape | app.py:71-81 | A found name is stripped. The only possible error is `IndexOutOfRange`, and it arises only when the last kept line is a header. |
| Names.TitleRoundTrip | app.py:79-80 | The page `"<n> Statement"` gives the name `n` back, for any stripped single-line `n` without "Statement" or "received from". |
| Names.HeaderRoundTrip | app.py:72-76 | The page `"Invoice To\n<n>"` gives `n` back, for any stripped single-line `n` longer than two characters (a shorter `n` is dropped by the line filter). |
| Names.HeaderAtEnd | app.py:75-78 | A header that is the first recognised line and also the last kept line raises `IndexOutOfRange` (Python's `lines[i+1]`). Shown on a page of two kept lines whose first line is not recognised. |
| Attribution.Read | app.py:88-95 | Computes what the extractors read off one page: the name (or its error), the key of the name, and the park, godowns and date. |
| Attribution.Step | app.py:89-97 | Computes one iteration of the page loop: it moves the cursor, stores the statement metadata and appends the page, or records the error. |
| Attribution.RunPages | app.py:87-97 | Computes the state after the first `n` pages. Once an error is raised, later pages are skipped. |
| Attribution.PassOver | app.py:83-97 | Computes the state after a whole document. |
| Attribution.Record.Append | app.py:97 | Appending page `i` to one list adds it at the end and changes no other list and no metadata. |
| Attribution.Table.Put | app.py:93-109 | Setting a key changes only that key, inserts a new key at the end of the order, and keeps the aggregate well-formed. |
| Attribution.ReadAll | app.py:87-89 | One reading per page, each the reading of that page's text. |
| Attribution.ReadWell | app.py:89-91 | A named page's key is never empty. |
| Attribution.LastNamed | app.py:90-95 | Finds the last of the first `n` pages that names `k`: the page found names `k`, and no later page below `n` does. Gives none when no page below `n` names `k`. |
| Attribution.StepFailure | app.py:89-95 | One page fails exactly when its name raises, or when it is a named statement page whose date raises. |
| Attribution.StepCursor | app.py:90-91 | A named page moves `current_key`; an unnamed page leaves it. |
| Attribution.StepPages | app.py:96-97 | A page is appended to the `doc` list of the tenant under the cursor, and no other list changes. |
| Attribution.StepMeta | app.py:92-95 | Only a named statement page writes park, godowns and date, and only for its own key. |
| Attribution.StepKeys | app.py:90-97 | A page inserts exactly its key, if any. |
| Attribution.RunFrozen | app.py:89-95 | Once a page raises, later pages change nothing. |
| Attribution.RunFailure | app.py:87-97 | A pass raises exactly when one of its pages fails. |
| Attribution.RunValid | app.py:83-97 | The aggregate stays well-formed: every key appears once in the insertion order. |
| Attribution.RunOrder | app.py:83-97 | Keys already present keep their places at the front of the insertion order. |
| Attribution.RunCursor | app.py:86-91 | Without failure, `current_key` is the most recently named key. |
| Attribution.CursorNonEmpty | app.py:90-96 | The most recent key, when there is one, is non-empty. |
| Attribution.RunPagesOf | app.py:87-97 | Without failure, each tenant's `doc` list grows by exactly the pages attributed to it, in page order. Other lists do not change. |
| Attribution.PagesCombine | app.py:96-97 | One more page extends the attributed lists by that page, for its most recent key only. |
| Attribution.RunMeta | app.py:92-95 | Without failure, a key's metadata comes from the last statement page naming it (last wins). Otherwise it is unchanged, and non-statement passes never touch it. |
| Attribution.RunKeys | app.py:90-97 | Without failure, the keys after a pass are the keys before it plus the keys its pages name. |
| Attribution.AttributedMember | app.py:96-97 | Page `i` goes to `k` exactly when `k` is the most recent key at page `i`. |
| Attribution.AttributedOwner | app.py:96-97 | The same, for every key at once. |
| Attribution.AttributedIncreasing | app.py:97 | The pages a tenant receives are in increasing source order. |
| Attribution.CursorNone | app.py:86-96 | There is no current key exactly when no earlier page names one. |
| Attribution.Unattributed | app.py:86-97 | A page before the first named page goes to no tenant, and every page goes to at most one tenant. |
| Assembly.OutputPages | app.py:118-121 | Computes the pages of a tenant's file: each document type's stored pages, in writer order. |
| Assembly.FileName | app.py:124-130 | Computes the file name `<key> <godowns> - <date>.pdf`, with an empty string for missing godowns or date. |
| Assembly.PathOf | app.py:123-131 | Computes the path of a tenant's file: its park directory (UNKNOWN by default) and its file name. |
| Assembly.Files | app.py:117-134 | Computes the directory after the writer loop: each tenant's pages at its path, in insertion order. A later tenant overwrites an earlier one at the same path. |
| Assembly.Rank | app.py:119 | The position of each document type in the writer's order. |
| Assembly.Tagged | app.py:120-121 | One output page per stored index, in order. |
| Assembly.OnlyAppend | app.py:119-121 | Filtering by document type distributes over concatenation. |
| Assembly.OnlyPagesFor | app.py:119-121 | Filtering the pages for distinct types by `d` gives `d`'s pages, or none when `d` is absent. |
| Assembly.OutputKeepsPages | app.py:117-121 | Each document type's pages appear in the output file exactly as stored. |
| Assembly.OutputPagesSpelled | app.py:119-121 | A file is the statement pages, then the invoice, receipt and water pages. |
| Assembly.PagesForRanked | app.py:119-121 | Pages of an earlier type in the order precede those of a later type. |
| Assembly.OutputRanked | app.py:119-121 | No page of a later document type comes before a page of an earlier one. |
| Assembly.FileNameDefaults | app.py:123-130 | Without metadata the file is `UNKNOWN/<key>  - .pdf`. |
| Assembly.FilesDomain | app.py:117-134 | A path is written exactly when some tenant is filed under it. |
| Assembly.FilesLastWins | app.py:117-134 | A path holds the pages of the last tenant, in insertion order, filed under it. |
| Assembly.PathCollision | app.py:130-134 | The keys `ACME` (godowns `7 5`) and `ACME 7` (godowns `5`) get the same path, and the later file overwrites the earlier. |
| Tenants.TenantTable.constructor | app.py:109 | Starts as an empty, well-formed aggregate. |
| Tenants.TenantTable.Store | app.py:93-97 | The aggregate becomes the old one with the key set. |
| Tenants.TenantTable.ProcessBulkPdf | app.py:83-97 | The page loop, in place: the new aggregate and the error it raises are those of the whole pass (`PassOver`) from the old aggregate. |
| Tenants.TenantTable.Export | app.py:117-134 | The writer loop produces exactly `Files` of the aggregate. |
| Tenants.CollectPages | app.py:118-121 | The nested loop collects exactly `OutputPages` of the record. |
| Tenants.SplitTenants | app.py:109-134 | The run gives the files of the aggregate after the statement, invoice, receipt and (if given) water passes, or the first error raised. |
| Tenants.ReadUploadWell | app.py:89-91 | Every named page of the upload has a non-empty key. |
| Tenants.Passes | app.py:109-115 | Computes the aggregate after the statement, invoice and receipt passes, and the water pass when water bills are given. The first error stops the run. |
| Tenants.PassesOk | app.py:109-115 | A run succeeds exactly when no page of any pass fails. The water pages count only when given. |
| Tenants.PassesValid | app.py:109-115 | A successful run leaves a well-formed aggregate. |
| Tenants.PassAdds | app.py:83-97 | A pass adds the pages it attributes to `k` to `k`'s list for that document, and to no other list. |
| Tenants.PassesPages | app.py:109-115 | Each tenant holds the pages attributed to it in each pass, and no water pages when water was not given. |
| Tenants.PassKeepsMeta | app.py:92 | Invoice, receipt and water passes leave all metadata unchanged. |
| Tenants.PassesMeta | app.py:92-115 | After a run, park, godowns and date come from the last statement page naming the tenant. A tenant no statement page names has none of them. |
| Tenants.LastNamedExists | app.py:90-91 | The last naming page exists exactly when some page names the key. |
| Tenants.PassesKeys | app.py:109-117 | The tenants of a run are exactly the keys some page of some document names. |
| Tenants.UnnamedInStatements | app.py:123-130 | A tenant named only outside the statements is filed as `UNKNOWN/<key>  - .pdf`. |
| Tenants.TenantFile | app.py:109-134 | End to end: unless a later tenant shares its path, a tenant's file holds its attributed statement pages, then its invoice, receipt and water pages. |

## Left out

- The Streamlit interface is not modelled: the upload widgets, the button, and the rule that processing starts only when statements, invoices and receipts are all uploaded. `SplitTenants` takes the four documents directly, water as an optional one.
- PDF parsing is not modelled: the texts of the pages are inputs. `page.extract_text() or ""` is a given string per page, and `reader.pages[i]` is the index `i`.
- Writing files is not modelled: temporary directories, `makedirs` and the zip archive. The output is a map from `(park directory, file name)` to the pages written there. Zip entry order and the download are not modelled.
- SplitTenants, TenantFile: the source does not sanitise file names, and the model treats every path as writable. A name containing `/` makes the write fail, or land outside the park directory. A key that starts with `/` makes `os.path.join` drop the park directory. A `../` prefix moves the file elsewhere. A realistic case: a "Date 07/01/2024" line under the name gives godowns "07/01/2024", so the file name contains `/`. The program then raises, while the model returns `Ok` with that path.
- Characters are ASCII only. Python's Unicode `upper`/`lower`, `\s`, `\d` and `\w` agree with the model on ASCII text only.
- The locale of `strftime("%b")` is assumed to be English (C locale).
- `process_bulk_pdf` calls the extractors inside its loop. The model reads every page first (`ReadAll`) and runs the loop over the readings. The extractors are pure and total, so the results are the same. A metadata extractor's value is only used on named statement pages, exactly as in the source.
- Exceptions are values: when a page raises, `ProcessBulkPdf` returns the error instead of unwinding, and the aggregate keeps what was stored before the error (park and godowns of that page included), as in Python.
- The `IndexError` of `lines[i+1]` for a header on the last kept line is modelled as the code raises it (`Err(IndexOutOfRange)`, see `Names.HeaderAtEnd`), and it aborts the run. Treating it as "no name found" would change the program's behaviour; the model follows the code. Likewise, two keys that map to the same path overwrite each other (`Assembly.PathCollision`), as the code does.

