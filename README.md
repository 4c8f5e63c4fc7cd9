# Price intelligence core: a Dafny model

This project models the product-quotation pipeline of a small Flask office application.

- **Uploads.** Employees and admins upload supplier price lists, as Excel sheets or PDFs. The parsers turn each file into product records: item name, CAS number, catalog number, brand, base price, GST rate and specification.
- **Catalogue.** Every record is upserted into the `ProductQuote` table and deduplicated on item, brand, CAS number, catalog number and base price. A repeated observation refreshes the existing row; a new one is inserted, private when an admin uploaded it.
- **Price intelligence.** The page groups the quotes a user may see by item and brand, and reports the lowest, highest and average price of each group, sorted by item name.
- **Product search.** The quotation form's search returns at most twenty matching products.
- **Price-list endpoint.** A separate JavaScript endpoint structures pasted price-list text into items with pack size and MRP, guessing the vendor from the file name.
- **Derived values.** `total_price`, `is_admin`, attendance `duration` and `status_color` are modelled on their records.

Modules, one per file:

| file | module | models |
|---|---|---|
| wrappers.dfy | Wrappers | `Option` and the filter-map used for queries |
| strings.dfy | Strings | `str.strip`/`trim`, lower-casing, substring tests, splitting, string order, decimal literals |
| models.dfy | Models | `app/models.py`: `ProductQuote`, `User`, `Attendance` and their properties |
| excel.dfy | ExcelParse | `parse_excel` |
| pdf.dfy | PdfParse | `parse_pdf` |
| catalog.dfy | Catalog | `process_uploaded_file`, as a class over the table and its session |
| intelligence.dfy | Intelligence | `get_price_intelligence` |
| search.dfy | Search | `search_products` |
| pricelist.dfy | PriceList | the `pdf-to-pricelist` handler |

How the pieces are represented:

- **Database.** The table is a sequence of `ProductQuote` rows in storage order, plus the next id to assign.
- **Session.** `Catalog.Catalog` keeps two states. The state the session sees (pending inserts and updates are visible to later lookups, as SQLAlchemy's autoflush makes them) is separate from the committed state, and `commit`/`rollback` move between the two.
- **Regular expressions.** The source's regexes are opaque parameters (`PdfParse.PdfMatchers`, `PriceList.ListMatchers`). Every property is proved for all choices of them.
- **Floats.** Python floats become `Models.Float`, which is a real or NaN, because a blank spreadsheet cell reaches the tax rate as NaN (`NaN or 18.0` is NaN).

## Model

| member | source | states |
|---|---|---|
| Models.Float.OrElse | app/utils.py:47-48 | Python's `x or default` on a float: the value itself when truthy (NaN included), the default only for 0.0 |
| Models.NewProductQuote | app/models.py:36-49 | a row built from its required columns gets the column defaults: GST 18 %, public, no numbers, specification or file |
| Models.TotalPrice | app/models.py:56-58 | total_price is NaN exactly when the tax rate is NaN |
| Models.TotalPriceAddsTax | app/models.py:56-58 | total_price exceeds the base price by exactly gst_percent per cent of it; never below a non-negative base at a non-negative rate; equal to it at rate 0 |
| Models.DefaultRateTotal | app/models.py:44 | a quote on the default rate costs 118 % of its base price |
| Models.IsAdmin | app/models.py:29-30 | only the "admin" role is an admin, so a user on the default role "employee" never is |
| Models.NewUser | app/models.py:11 | a user created without a role gets "employee" and is not an admin |
| Models.Duration | app/models.py:74-78 | 0 hours while either punch is missing; otherwise the hours between the punches, i.e. the seconds between them divided by 3600 |
| Models.StatusColor | app/models.py:80-83 | the colour is always "green" or "red" |
| Models.StatusColorGreenIff | app/models.py:74-83 | green exactly when both punches are recorded and at least 32400 seconds lie between them; an open day has duration 0 and is red |
| ExcelParse.FieldOrderComplete | app/utils.py:17-25 | the column-resolution loop visits every canonical key |
| ExcelParse.FirstMatchFrom | app/utils.py:30-33 | scanning from a given column, the column found matches the key and no column between the start and it does; None means no column from the start matches |
| ExcelParse.FirstMatchingColumn | app/utils.py:30-33 | the column found matches one of the key's synonyms ignoring case, no earlier column does, and None means no column matches |
| ExcelParse.ResolvedColumns | app/utils.py:28-33 | a key is resolved exactly when some label matches it, and then to the first matching column |
| ExcelParse.FindColumn | app/utils.py:30-33 | the inner scan stops at the first matching column, which is that specification |
| ExcelParse.FirstMatchUnique | app/utils.py:30-33 | "matches, and no earlier column does" determines the resolved column |
| ExcelParse.ResolveColumns | app/utils.py:28-33 | the resolution loop builds exactly the resolved-column map |
| ExcelParse.SharedColumn | app/utils.py:20-22 | columns are not exclusive: a "Product Number" column resolves both the item name and the catalog number |
| ExcelParse.RowQuote | app/utils.py:38-53 | a row's record, when it yields one, has a positive base price |
| ExcelParse.RowAdmittedIff | app/utils.py:38-53 | a row yields a record exactly when its trimmed name is not empty/"nan"/"none", both its price and tax cells convert, and its price (0 when falsy) is positive; the record's name is that trimmed name and its price is positive |
| ExcelParse.RowFields | app/utils.py:42-50 | a record's brand, tax rate, CAS number, catalog number and specification come from their columns as converted |
| ExcelParse.RowGstDefaults | app/utils.py:48 | the tax rate is 18 when the tax column is unresolved or its cell converts to 0, otherwise the converted cell |
| ExcelParse.RowMakeDefault | app/utils.py:46 | the brand is "Unknown" when no make column was resolved |
| ExcelParse.RowOptionalSpec | app/utils.py:44-45 | an optional text field is None exactly when its trimmed cell text is empty, else that trimmed text; None for an unresolved column |
| ExcelParse.ExtractedConcat | app/utils.py:36-56 | extraction works row by row: the records of joined row lists are the joined records |
| ExcelParse.ExtractedSingle | app/utils.py:36-56 | one row contributes exactly its own record or nothing |
| ExcelParse.ExtractedAdmitted | app/utils.py:39-53 | every extracted record has a positive price and a non-noise, trimmed item name |
| ExcelParse.ExtractRows | app/utils.py:36-56 | the row loop appends exactly the admitted records in row order |
| ExcelParse.ParseExcel | app/utils.py:10-61 | parse_excel yields the records of the resolved sheet (nothing for an unreadable file), each with a positive price and a usable name |
| PdfParse.LastHitFound | app/utils.py:79-106 | a field is set after the loop exactly when some line sets it |
| PdfParse.LastHitIsLast | app/utils.py:79-106 | the value kept for a field comes from a line after which no line sets that field again |
| PdfParse.FoldLines | app/utils.py:76-115 | the line loop leaves at most one record |
| PdfParse.FoldLinesSpec | app/utils.py:76-115 | at most one record, one exactly when some line carries a price; its name is the raw first line cut to 200 characters, tax 18, no specification; price, CAS and catalog number come from the last lines that carry them; the brand is the one on the last brand line, "Unknown" when no line carries one |
| PdfParse.ParsePdf | app/utils.py:64-120 | the line loop yields exactly that record, or nothing for an unreadable file |
| Catalog.Lookup | app/utils.py:151-157 | `.first()` returns the first row that matches the dedup filter, None when no row does |
| Catalog.LookupIsFirst | app/utils.py:151-157 | "matches, and nothing before it does" determines the lookup result |
| Catalog.AbsentNumbersNeverMatch | app/utils.py:154-155 | a row stored without a CAS or catalog number is never found again, because NULL never equals '' |
| Catalog.UpsertOnMatch | app/utils.py:159-164 | on a match the table keeps its length and other rows; the matched row takes the new specification only when non-empty, the new file and time, and keeps id, dedup tuple, tax, privacy and uploader |
| Catalog.UpsertOnMiss | app/utils.py:165-180 | with no match one row is appended with the next id, the record's fields, the file and time, uploader and privacy from the upload |
| Catalog.UpsertFindsOwnRow | app/utils.py:151-164 | after upserting a record with both numbers, the dedup lookup for that record finds the row just saved |
| Catalog.RepeatUpsertFindsRow | app/utils.py:151-164 | a record with both numbers, upserted twice, is stored once: the second pass finds the same row and the table does not grow |
| Catalog.RepeatUpsertWithoutCasDuplicates | app/utils.py:151-180 | a record without a CAS number matches no row, so upserting it twice appends two rows |
| Catalog.UpsertAll | app/utils.py:148-184 | the batch saves one position per record and grows the table by at most one row per record |
| Catalog.UpsertAllFindsSaved | app/utils.py:148-184 | after a batch of records that all carry both numbers, the lookup for each record finds the row saved for it |
| Catalog.RefreshOnlyBatch | app/utils.py:148-184 | a batch whose every record already finds a row only refreshes rows: the table keeps its length, no row loses its identity or tuple, and each record saves the row its lookup found |
| Catalog.BatchUploadIdempotent | app/utils.py:148-184 | uploading the same records twice, all carrying both numbers, adds no row the second time and saves the same rows as the first |
| Catalog.UpsertOneInvariants | app/utils.py:148-180 | one upsert keeps ids increasing below the next id, keeps every earlier row's identity, tuple, tax and privacy, and tags any new row with the uploader |
| Catalog.UpsertAllInvariants | app/utils.py:148-184 | a batch keeps the table well formed, never removes or re-keys a row, saves one position per record, every saved position in range, and all new rows belong to the uploader with its privacy |
| Catalog.LastIndexOf | app/utils.py:136 | the last occurrence of a character, None when absent |
| Catalog.Extension | app/utils.py:136 | os.path.splitext's extension is a suffix of the name, empty or starting with '.', with no later '.' or '/' |
| Catalog.ExtensionSpec | app/utils.py:136 | splitext finds an extension exactly when the name has a last '.' with no '/' after it and some character other than '.' between the last '/' and it, and the extension runs from that dot to the end |
| Catalog.UpperCaseExtensionAccepted | app/utils.py:136-142 | the extension is compared after lower-casing: "Quote.PDF" is a PDF |
| Catalog.LastExtensionCounts | app/utils.py:136-140 | only the last extension counts: "rates.2024.xlsx" is a spreadsheet |
| Catalog.NoExtension | app/utils.py:136 | a leading-dot name and a dot inside a directory part give no extension |
| Catalog.CandidatesSpec | app/utils.py:136-145 | an unsupported extension parses nothing, a PDF at most one record, and every record of a spreadsheet has a positive price and a usable stripped name |
| Catalog.Catalog.constructor | app/models.py:36-54 | an empty table, next id 1, nothing pending |
| Catalog.Catalog.Upsert | app/utils.py:149-180 | the session sees exactly the table after one upsert and the method returns the saved row's position; nothing is committed |
| Catalog.Catalog.UpsertBatch | app/utils.py:148-184 | the session sees exactly the table after the batch, with the saved positions in order; nothing is committed |
| Catalog.Catalog.Finish | app/utils.py:186-191 | commit makes the session's state durable; a failing commit rolls back to the last committed state |
| Catalog.Catalog.ProcessUploadedFile | app/utils.py:123-193 | an unsupported extension changes nothing and reports "Unsupported file type: " plus the lower-cased extension; otherwise every parsed record is upserted, and on commit the table is the batch result with no errors, while a failing commit leaves the table as it was and reports "Error processing file: " plus the message, still returning the saved positions |
| Intelligence.VisibleQuotesIff | app/utils.py:199-220 | a quote is fetched exactly when it is stored, visible to the user and (for a non-empty query) matches in one of the five columns; an employee never sees a private quote |
| Intelligence.GroupedSpec | app/utils.py:223-238 | grouped_data has distinct keys, no empty group, a group for exactly the keys that occur, each opened by the first quote with its key and holding that key's prices in order, all prices accounted for |
| Intelligence.KeyCollision | app/utils.py:225 | distinct (item, brand) pairs can share the key "item\|brand" and land in one group |
| Intelligence.SeqMinSpec | app/utils.py:250 | min is one of the prices and no price is below it |
| Intelligence.SeqMaxSpec | app/utils.py:251 | max is one of the prices and no price is above it |
| Intelligence.SummarizeBounds | app/utils.py:241-254 | a row's count is its group's size, its min and max are prices of the group bounding all of them, and its average lies between them |
| Intelligence.SortByNameSpec | app/utils.py:257 | the sort orders rows by item name, is a permutation, and keeps the relative order of rows with equal names |
| Intelligence.PriceIntelligenceSpec | app/utils.py:196-259 | the result is sorted by item name, every row reports at least one quote with min ≤ avg ≤ max, and the counts add up to the number of visible quotes |
| Intelligence.GroupQuotes | app/utils.py:223-238 | the dict loop builds the groups with their insertion order |
| Intelligence.GetPriceIntelligence | app/utils.py:196-259 | the imperative query returns exactly the specified rows |
| Search.MatchingIff | app/quote.py:59-78 | a row is selected exactly when it is stored, visible to the user, and matches in item name, CAS, catalog number or brand |
| Search.GstFraction | app/quote.py:90 | a non-zero rate is shown as a fraction, rate 0 as 0.18, NaN stays NaN |
| Search.ZeroRateShownAsDefault | app/quote.py:90 | a zero-rated row is shown with the same 0.18 as a row on the default rate |
| Search.ProjectSpec | app/quote.py:80-91 | a product copies id, names and price, shows a missing number as '', the unit "Unit" and the rate as a fraction |
| Search.SearchResult | app/quote.py:53-93 | the answer never holds more than 20 products |
| Search.SearchResultSpec | app/quote.py:53-93 | a blank stripped query yields nothing; otherwise the first min(n, 20) selected rows in storage order; every product comes from a stored, visible, matching row |
| Search.SearchComplete | app/quote.py:59-93 | when at most 20 rows are selected, every selected row is offered |
| Search.SearchProducts | app/quote.py:51-93 | the endpoint returns exactly that result |
| PriceList.LinesSpec | api/pdf-to-pricelist.js:10 | every line after the split, trim and filter is non-empty, trimmed and free of line breaks |
| PriceList.LinesOfRun | api/pdf-to-pricelist.js:10 | text without a line break gives its stripped self as its only line, or no line when it is blank |
| PriceList.LinesAtBreak | api/pdf-to-pricelist.js:10 | the lines of text cut at a '\n' or '\r' are the lines before the break followed by the lines after it; with LinesOfRun this fixes the lines of every text |
| PriceList.FirstChunkSpec | api/pdf-to-pricelist.js:26 | the kept slice is a prefix with no double space, cut exactly at the first run of two whitespace characters |
| PriceList.FirstChunkWhole | api/pdf-to-pricelist.js:26 | a name without a double space is kept whole |
| PriceList.CandidateSpec | api/pdf-to-pricelist.js:17-31 | a line yields an item exactly when it has a pack size and a finite price; the item carries the pruned name, the "amount unit" text, the price and the lower-cased key |
| PriceList.LineCandidate | api/pdf-to-pricelist.js:15-31 | the loop body up to the dedup test yields exactly the line's specified candidate: nothing without a pack size or a finite price |
| PriceList.CollectBounded | api/pdf-to-pricelist.js:14-35 | collected keys are distinct, and the loop breaks off exactly when it holds 1001 items, never more |
| PriceList.Collect | api/pdf-to-pricelist.js:14-35 | the loop never holds more items than the lines it has read |
| PriceList.CollectSound | api/pdf-to-pricelist.js:14-35 | every collected item is the candidate of an earlier line |
| PriceList.CollectFirstOccurrence | api/pdf-to-pricelist.js:30-33 | every item is the candidate of the first line whose candidate has its key, and the items come in the order of those first lines |
| PriceList.CollectComplete | api/pdf-to-pricelist.js:14-35 | until the loop breaks off, the key of every candidate seen is present |
| PriceList.StoppedStays | api/pdf-to-pricelist.js:34 | once the loop has broken off, later lines change nothing |
| PriceList.CollectItems | api/pdf-to-pricelist.js:13-35 | the loop with its continue and break collects exactly the specified items |
| PriceList.VendorHint | api/pdf-to-pricelist.js:38 | "CDH" exactly when the file name contains "cdh" ignoring case; "BBChem" exactly when it contains "bb" but not "cdh"; "" otherwise |
| PriceList.Finalize | api/pdf-to-pricelist.js:39-41 | every answered item keeps its name, unit and price, gains the vendor when there is one, and loses its key |
| PriceList.RespondSpec | api/pdf-to-pricelist.js:5-41 | 400 with "No text/bytes provided" exactly when there is no text of at least 50 trimmed characters and no bytes; otherwise 200 with at most 1001 items, each from a line that yields one, with the vendor attached |
| PriceList.BytesWithoutTextGiveNothing | api/pdf-to-pricelist.js:6-9 | bytes alone pass the input check but are never decoded: the answer is an empty list |
| PriceList.Handler | api/pdf-to-pricelist.js:3-45 | the handler answers exactly that response |
| Strings.TrimSpec | app/utils.py:38 | strip gives a contiguous part of the text that neither starts nor ends with whitespace, and everything it removes before and after that part is whitespace |
| Strings.TrimIdempotent | app/quote.py:53 | stripping twice is stripping once |
| Strings.ContainsIffAt | app/utils.py:208-216 | a substring test holds exactly when the pattern is the slice at some offset |
| Strings.SplitWhole | api/pdf-to-pricelist.js:10 | text without a separator splits into itself alone |
| Strings.SplitAtSeparator | api/pdf-to-pricelist.js:10 | the pieces of text cut at a separator are the pieces before it followed by the pieces after it |
| Strings.ParseDecimal | app/utils.py:47-48 | Python's float() of blank text fails |
| Strings.ParseDecimalIgnoresSpace | app/utils.py:47-48 | whitespace around a literal does not change what it reads as |
| Strings.ParseDecimalNegates | api/pdf-to-pricelist.js:28 | a leading minus reads exactly when the literal after it does, as its negation |
| Strings.ParseShowNat | api/pdf-to-pricelist.js:28 | reading back the digits of a whole number yields that number |

## What the code does (and does not do)

- **Labels come from the first row.** parse_excel reads the sheet with its default header, so the first row always supplies the column labels (app/utils.py:14, 28-33).
- **No totals stop.** The row loop visits every row and never stops at a totals row (app/utils.py:36-56).
- **Only "", "nan" and "none" are rejected as names**, in any case; numeric or short names pass (app/utils.py:39). A blank cell in a resolved text column reads as "nan", which the optional columns keep.
- **Columns are shared.** A heading can resolve several keys, and no heading is excluded for other words it contains (app/utils.py:29-33, `ExcelParse.SharedColumn`).
- **A missing item-name column is not an error.** Every row's name then reads as "" and is skipped, so the file yields nothing (app/utils.py:38-40).
- **A failed commit still returns the saved rows.** The saved list is not emptied after the rollback, although nothing is persisted (app/utils.py:186-193).
- **Errors are not capped.** Every per-record and per-file error is appended as it happens (app/utils.py:183, 189).
- **.pdf is accepted** next to .xlsx and .xls (app/utils.py:139-142).
- **A legacy .xls workbook yields nothing.** The .xls extension is accepted, but the sheet is read with the openpyxl engine only (app/utils.py:14), which cannot read the old binary format. The read raises, the error is logged, and the file yields no records (app/utils.py:58-61). The model represents this as a decoded file without a sheet.
- **A file without records is not reported.** An empty parse commits nothing and returns no error (app/utils.py:148-193).

## Left out

- File saving, the timestamped upload path and the wall clock. The saved path and a single `now` per upload are parameters of `Catalog.Upload`.
- File decoding. Reading the workbook (pandas/openpyxl), extracting PDF text (PyPDF2) and decoding base64 are not modelled. Their outputs are inputs: `ExcelParse.Sheet`, the PDF text, and the request's `text` field.
- Regular-expression semantics. The patterns are parameters, so no property depends on what they match.
- Unicode. Text is a sequence of code points, so lengths count code points; JavaScript's `text.trim().length` (api/pdf-to-pricelist.js:6) counts UTF-16 code units, which differs for characters outside the Basic Multilingual Plane. Lower-casing is ASCII only, and whitespace is the six ASCII whitespace characters both str.strip() and String.prototype.trim() remove. The further characters Python strips (\x1c-\x1f and Unicode spaces), JavaScript's further spaces and Unicode case mapping are not modelled.
- Number syntax. `Strings.ParseDecimal` reads plain decimal literals only. Exponents, `inf`/`nan` spellings and underscores accepted by float(), and hexadecimal and `Infinity` accepted by Number(), are not modelled.
- Strings.ParseDecimal: as Number() at api/pdf-to-pricelist.js:28 it rejects blank text, which Number() reads as 0. The argument there is the digit capture of the price pattern (api/pdf-to-pricelist.js:19), which is never blank, but `PriceList.ListMatchers.price` is an unconstrained parameter, so a blank capture would be dropped by the model and priced 0 by the source.
- Float arithmetic. Prices and rates are real numbers, so float rounding in total_price, the average and the tax fraction is not modelled.
- pandas' integer-key fallback. An unresolved price or tax key makes the source probe the integer label 0 or 18. Some pandas versions read that as a column position; the model reads the stated default.
- Per-record upsert failures. "Error processing quote" (app/utils.py:182-184) needs a database fault inside the loop, and the model's upsert cannot fail.
- Other failures. Only a failing commit is modelled, as `commitError`. Failed file saves are not modelled, and neither is the generic 500 answer of the JavaScript handler.
- Storage details. The NULL value of gst_percent, SQLite's storage of NaN and column length limits are not modelled. Ids are drawn from the model's own counter, which a rollback restores; PostgreSQL does not roll its id sequence back, so after a failed commit the real ids skip the values drawn during the failed upload, while `Catalog.Catalog.Finish` reuses them. Neither parser produces a NULL rate.
- Query order. None of the lookups has an ORDER BY: `.first()` (app/utils.py:151-157), `.limit(20).all()` (app/quote.py:67, 78) and `.all()` (app/utils.py:220). In production the database is PostgreSQL (app/__init__.py:17-25), which promises no order there. The model returns rows in insertion order, so `Catalog.Lookup` picks the earliest stored match, `Search.SearchResultSpec` the earliest 20 matches, and `Intelligence.GroupedSpec` opens a group with the earliest stored quote of its key. The real choice of row, of the 20 products and of a group's CAS, catalog number and specification may differ when there is more than one candidate.
- `ilike` wildcards. A `%` or `_` typed into a query is matched literally by the model; SQL treats them as wildcards.
- Attendance. Sub-second punch times are not modelled: times are whole seconds.
- Logging, authentication, routes and templates, get_motivational_quote, and the other tables (Leave, Expense, Task, TaskChat, ToDoAlarm).
