# A verified model of the TMZ news scraper

`Scrap_TMZ.py` reads a list of search terms (celebrity names, grouped by
category) and searches tmz.com for each one. From each search page it
collects the links to news articles and scrapes the title, three dates and
body text of every article. Each record goes into a MySQL table named after
the term. A record is inserted when its link is new, updated when the
article's modification date has changed, and left alone otherwise.

This project models the logic under the HTTP, HTML and SQL plumbing and
proves properties of it:

- `Text`: the Python string operations the code relies on:
  - `str.strip()` with the whitespace set of `str.isspace`;
  - one-character `str.replace`;
  - `''.join` and `' '.join`;
  - the substring test `in`.
- `Names`: the two renamings of a term. Spaces become `+` for the search
  URL, and `+` becomes `_` for the table name.
- `Extraction`: `extrair_texto`. It returns the text of a parsed element
  built from its direct children as a pure function, and also as the loop
  the code runs over the children.
- `Dates`: `formatar_data`. A strict parse of
  `YYYY-MM-DDTHH:MM:SS±HHMM` is followed by subtracting seven hours in
  calendar arithmetic, with borrows from day, month and year, and leap
  years. The result is rendered as `DD-MM-YYYY HH:MM:SS`. Anything that
  does not parse is returned unchanged.
- `Store`: the per-term tables and the change-detecting upsert
  (`inserir_dados_noticias`), together with table creation
  (`conexao_base_dados`).
  - The specification is pure (`TableState`, `Upserted`, `Ensured`).
  - The store that the pipeline changes in place is two classes: a `Table`
    with its rows and auto-increment counter, and a `Database` mapping
    names to tables.
- `ArticleFields`: the field selection of `scrap_pagina_noticia` on an
  abstract article page, with the fixed placeholder strings for missing
  fields.
- `Walker`: `scrap_obter_todas_noticias`.
  - It keeps the links that contain `https://www.tmz.com/20` and
    de-duplicates them in first-occurrence order.
  - It scrapes and upserts each link.
  - It returns the number of links, or 0 if any article fails.
- `Pagination`: `verificar_primeira_pagina_vazia` and `scrap_paginas`.
  - The probe of page 1 creates the table.
  - The loop walks search pages 1 to 20 and stops at the first page that
    counts 0.

Everything outside the program is an input:
- the search pages, as a map from page number to the hrefs and text
  strings on the page (a missing entry is a failed fetch);
- the article pages, as a map from URL to the parsed page (a missing entry
  is a failed request);
- the state of the database server, as `StoreStatus`.

The walker receives the article scraper as a function parameter
(`Walker.Scraper`). `Pagination.SiteRunIdempotent` instantiates it with
`ArticleFields.ScrapedArticle`.

Two behaviours of the code need a word:
- `formatar_data` can raise, although it only catches `ValueError`. When
  the seven-hour shift crosses year 1 it raises an overflow error. When a
  structured-data date is not a string it raises a type error. Neither is
  caught, so the article fails, and with it the walker's page. The model
  follows the code here: `FormatDate` returns `None` for the first and
  `ArticleFields.StoredDate` returns `None` for the second.
- A store that cannot be reached is meant to stop the process (line 59).
  As written, a refused connection makes the probe report the term as
  empty instead (see Findings). Here the model has both behaviours.
  `Pagination.Probed`, `Pagination.TermRun` and `Pagination.ScrapPages`
  follow the intended one. `Pagination.ProbedAsWritten`,
  `Pagination.TermRunAsWritten` and `Pagination.OutageReportedEmpty`
  follow the code as written.

## Model

| member | source | states |
|---|---|---|
| Text.Strip | Scrap_TMZ.py:124 | the result is the slice of the input between its leading and trailing whitespace runs, which are all whitespace; it neither starts nor ends with whitespace |
| Text.StripPadded | Scrap_TMZ.py:124 | strip removes exactly the whitespace around a core without outer whitespace |
| Text.StripIdempotent | Scrap_TMZ.py:124 | stripping twice equals stripping once |
| Text.ReplaceChar | Scrap_TMZ.py:262 | same length; every occurrence of the character is replaced and every other character is kept in place |
| Text.ReplaceCharIdempotent | Scrap_TMZ.py:200 | replacing a character a second time changes nothing, as the second renaming on line 154 does |
| Text.Concat | Scrap_TMZ.py:124 | `''.join`, with no contract of its own; its partner `Text.ConcatSplit` states what it means |
| Text.ConcatSplit | Scrap_TMZ.py:124 | joining two lists of pieces is joining each list and putting the results side by side |
| Text.Join | Scrap_TMZ.py:149 | `' '.join`, with no contract of its own; its partners `ArticleFields.BodyCases`, `ArticleFields.BodySingle` and `ArticleFields.BodyJoined` state that no parts give `""`, one part gives itself, and each further part adds one separator and itself |
| Text.Contains | Scrap_TMZ.py:198 | the substring test `in`, with no contract of its own; its partner `Text.ContainsAt` states it holds exactly when the pattern starts at some position of the string |
| Text.ContainsAt | Scrap_TMZ.py:198 | the substring test holds exactly when the pattern starts at some position of the string |
| Names.SearchName | Scrap_TMZ.py:262 | the URL form of a term has the term's length and no spaces |
| Names.TableName | Scrap_TMZ.py:178 | a table name has its term's length and no `+` |
| Names.TableNameIdempotent | Scrap_TMZ.py:200 | renaming `+` to `_` a second time (as line 154 does after line 200) changes nothing |
| Names.TableNameOfRaw | Scrap_TMZ.py:262 | the table name of a raw term has no spaces or `+`: both become `_` and every other character stays in place |
| Extraction.StrippedText | Scrap_TMZ.py:119-121 | `get_text(strip=True)` of a link, bold or italic element, with no contract of its own; its partners `Extraction.StrippedTextSingle` and `Extraction.KeptElementStripped` state that one string is contributed stripped and that a kept element contributes exactly this text |
| Extraction.PieceOf | Scrap_TMZ.py:117-123 | one turn of the loop over the children, with no contract of its own; its partners `Extraction.ExtractedTextAround`, `Extraction.TextNodeVerbatim`, `Extraction.KeptElementStripped` and `Extraction.IgnoresOtherElements` state what each kind of child adds to the text |
| Extraction.Pieces | Scrap_TMZ.py:117-123 | the pieces of the children in document order, with no contract of its own; its partner `Extraction.PiecesSplit` states that the pieces of two runs of children are the pieces of each, in order, and `Extraction.ExtractText` that the loop builds exactly these pieces |
| Extraction.ExtractedText | Scrap_TMZ.py:112-124 | an absent element gives `None` and only then; a present one gives text with no leading or trailing whitespace |
| Extraction.ExtractText | Scrap_TMZ.py:112-124 | the loop over the children computes exactly `ExtractedText` |
| Extraction.PiecesSplit | Scrap_TMZ.py:117-123 | the pieces of two runs of children are the pieces of each, in order |
| Extraction.IgnoresOtherElements | Scrap_TMZ.py:117-123 | a child element other than a link, bold or italic makes no difference to the text, wherever it stands |
| Extraction.ExtractedTextAround | Scrap_TMZ.py:117-124 | the text is the strip of what comes before a child, what the child contributes, and what comes after |
| Extraction.TextNodeVerbatim | Scrap_TMZ.py:122-124 | a text child is kept verbatim; only the final strip touches it |
| Extraction.KeptElementStripped | Scrap_TMZ.py:118-121 | a link, bold or italic child contributes its own stripped text |
| Extraction.StrippedTextSingle | Scrap_TMZ.py:119 | a link with one string contributes that string stripped |
| Dates.TwoDigits | Scrap_TMZ.py:162 | a two-digit field is two decimal digits |
| Dates.FourDigits | Scrap_TMZ.py:162 | the year field is four decimal digits |
| Dates.NumberTwoDigits | Scrap_TMZ.py:162 | reading back a rendered two-digit field gives the number |
| Dates.NumberFourDigits | Scrap_TMZ.py:162 | reading back the rendered year gives the year |
| Dates.Parse | Scrap_TMZ.py:159 | a successful parse has the 24-character ISO shape and yields a valid date and time and a valid offset |
| Dates.IsoString | Scrap_TMZ.py:159 | the ISO text of a date and offset is 24 characters long |
| Dates.ParseIso | Scrap_TMZ.py:159 | parsing the ISO text of any valid date, time and offset gives them back |
| Dates.IsoStringFields | Scrap_TMZ.py:159 | each field of the ISO text sits at its fixed place, with `-`, `T`, `:` and the offset's sign between them |
| Dates.TwoDigitsNumber | Scrap_TMZ.py:159 | two digits read as a number and written back with `%02d` are the same two digits |
| Dates.FourDigitsNumber | Scrap_TMZ.py:159 | four digits read as a number and written back with `%04d` are the same four digits |
| Dates.IsoStringParse | Scrap_TMZ.py:159 | every string that parses is the ISO text of what it parses to, except that its `T` may be lower-case; with an upper-case `T` it is exactly that text |
| Dates.YearOfMonths | Scrap_TMZ.py:161 | the twelve months add up to the year's length, leap years included |
| Dates.SevenHoursEarlier | Scrap_TMZ.py:161 | `- timedelta(hours=7)` on the wall clock, with borrows from day, month and year, and `None` for the overflow before year 1; it has no contract of its own, and its partner `Dates.SevenHoursEarlierCorrect` states what it computes |
| Dates.SevenHoursEarlierCorrect | Scrap_TMZ.py:161 | the shifted value is a valid date exactly seven hours earlier on the hour line, minutes and seconds kept; it exists exactly when that is not before year 1 |
| Dates.Render | Scrap_TMZ.py:162 | the rendering is 19 characters long |
| Dates.RenderFields | Scrap_TMZ.py:162 | day, month, year, hour, minute and second can be read back from their places in the rendering, with `-`, ` ` and `:` between them |
| Dates.FormatDate | Scrap_TMZ.py:157-164 | input that does not parse is returned unchanged |
| Dates.FormatDateParsed | Scrap_TMZ.py:158-162 | parsed input gives the rendering of the valid time seven hours earlier, and a result exactly when that time is not before year 1 |
| Dates.OffsetIgnored | Scrap_TMZ.py:159-162 | two timestamps that differ only in their offset format alike |
| Dates.FormatDateExample | Scrap_TMZ.py:157-162 | ten o'clock on 1 May 2023 is shown as three o'clock that morning: `2023-05-01T10:00:00+0000` and `...-0400` both give `01-05-2023 03:00:00` |
| Dates.FormatDateLeapBorrow | Scrap_TMZ.py:161 | 1 March 2024 at 02:30:15 borrows into 29 February |
| Dates.FormatDateYearBorrow | Scrap_TMZ.py:161 | 1 January 2023 at midnight borrows into 31 December 2022 at 17:00 |
| Dates.NoThirtiethOfFebruary | Scrap_TMZ.py:159 | 30 February does not parse |
| Dates.FormatDateUnchanged | Scrap_TMZ.py:163-164 | 30 February, the two placeholders, other text and the empty string come back unchanged |
| Dates.MayIso | Scrap_TMZ.py:159 | the ISO text of ten o'clock on 1 May 2023 with a zero offset |
| Dates.MayIsoWithOffset | Scrap_TMZ.py:159 | the ISO text of ten o'clock on 1 May 2023 with a `-0400` offset |
| Dates.MayRendered | Scrap_TMZ.py:162 | the display form of three o'clock on 1 May 2023 |
| Dates.LeapDayIso | Scrap_TMZ.py:159 | the ISO text of 02:30:15 on 1 March 2024 |
| Dates.LeapDayRendered | Scrap_TMZ.py:162 | the display form of 29 February 2024 |
| Dates.NewYearIso | Scrap_TMZ.py:159 | the ISO text of midnight on 1 January 2023 |
| Dates.NewYearRendered | Scrap_TMZ.py:162 | the display form of 31 December 2022 |
| Dates.NumberAppendTwo | Scrap_TMZ.py:159 | reading digits followed by two more digits is a base-100 shift plus the two |
| Store.FindByLink | Scrap_TMZ.py:71-72 | `None` exactly when no row has the link; otherwise the first row with that link |
| Store.UpdateByLink | Scrap_TMZ.py:85-95 | same number of rows and ids; every row with the link takes the incoming columns and every other row is unchanged |
| Store.Upserted | Scrap_TMZ.py:64-102 | the upsert on one table, with no contract of its own; its partners `Store.UpsertOutcomes`, `Store.UpsertNewLink`, `Store.UpsertChangedLink`, `Store.UpsertSameDate`, `Store.UpsertSettles`, `Store.UpsertIdempotent` and `Store.UpsertKeepsWellFormed` state which branch runs, what each branch does to the rows, that the link ends stored with the incoming date, that a second upsert changes nothing, and that the table invariant is kept |
| Store.UpsertOutcomes | Scrap_TMZ.py:74-102 | insert exactly when the link is absent; update exactly when it is present with a different modification date; no change exactly when the dates are equal; never an error on a present table |
| Store.UpsertNewLink | Scrap_TMZ.py:74-80 | a new link appends exactly one row holding all eight columns and a fresh id; the existing rows are untouched and the counter moves on by one |
| Store.UpsertChangedLink | Scrap_TMZ.py:83-96 | a changed date rewrites every row with the link; row count, ids, counter and all other rows are unchanged |
| Store.UpsertSameDate | Scrap_TMZ.py:100-102 | an equal date leaves the table as it was |
| Store.FindAfterAppend | Scrap_TMZ.py:71-80 | after inserting a new link, the lookup finds the inserted row |
| Store.UpsertSettles | Scrap_TMZ.py:71-102 | after an upsert the stored modification date for the link is the incoming one |
| Store.UpsertIdempotent | Scrap_TMZ.py:71-102 | upserting the same record twice gives the table of upserting it once, and the second call reports no change |
| Store.UpsertKeepsWellFormed | Scrap_TMZ.py:44 | ids from 1, increasing and below the counter, and unique links are preserved by an upsert |
| Store.InsertKeepsWellFormed | Scrap_TMZ.py:44 | a new link's row under the counter's id keeps the table invariant |
| Store.UpdateKeepsWellFormed | Scrap_TMZ.py:85-95 | rewriting a link's rows keeps ids, links and counter, and so the invariant |
| Store.UpsertKeepsOtherLinks | Scrap_TMZ.py:71-96 | the lookup of any other link gives the same row after an upsert |
| Store.FindPrefix | Scrap_TMZ.py:71-72 | appending rows does not change the lookup of a link the first rows already have |
| Store.UpdateKeepsOtherLinks | Scrap_TMZ.py:85-95 | the update does not change the lookup of any other link |
| Store.Ensured | Scrap_TMZ.py:30-62 | ensuring the term's table, with no contract of its own; its partners `Store.EnsureIdempotent` and `Store.EnsuredTableAcceptsUpserts` state that the table is created only when absent, existing tables are kept, and afterwards an upsert into it does not fail; `Pagination.OutageAborts` states that an unusable store stops the process and changes nothing |
| Store.EnsureIdempotent | Scrap_TMZ.py:37-55 | the table is created only when absent: ensuring twice is ensuring once, the second call finds it, and existing tables are kept |
| Store.UpsertedDb | Scrap_TMZ.py:64-109 | the upsert on a named table keeps the set of tables and every other table |
| Store.EnsuredTableAcceptsUpserts | Scrap_TMZ.py:37-55 | once the table has been ensured, an upsert into it does not fail |
| Store.UpsertAll | Scrap_TMZ.py:197-201 | a run of upserts on one table, with no contract of its own; its partners `Store.UpsertAllAppend`, `Store.UpsertAllKeepsWellFormed`, `Store.UpsertAllSettles` and `Store.UpsertAllIdempotent` state that runs compose, keep the table invariant, store each record with its own modification date, and change nothing when repeated |
| Store.UpsertAllDb | Scrap_TMZ.py:197-201 | the same run on the named table of the database, with no contract of its own; its partners `Store.UpsertAllDbStep`, `Store.UpsertAllDbAppend`, `Store.UpsertAllDbTable` and `Store.UpsertAllDbIdempotent` state that it is one upsert after another, touches only the named table, and changes nothing when repeated |
| Store.UpsertAllDbStep | Scrap_TMZ.py:154 | upserting one more record is one more upsert on the database |
| Store.UpsertAllDbAppend | Scrap_TMZ.py:154 | upserting two runs of records is upserting one run and then the other |
| Store.UpsertAllAppend | Scrap_TMZ.py:154 | the same on one table |
| Store.UpsertAllDbTable | Scrap_TMZ.py:64-109 | upserting records into a present table changes only that table; into an absent one, nothing |
| Store.UpsertAllKeepsWellFormed | Scrap_TMZ.py:44 | the table invariant survives any run of upserts |
| Store.UpsertAllSettles | Scrap_TMZ.py:71-102 | after a run of records that agree per link, each record is stored with its own modification date |
| Store.SettledUpsertsUnchanged | Scrap_TMZ.py:100-102 | upserting records that are all stored already changes nothing, and each reports no change |
| Store.ConsistentPrefix | Scrap_TMZ.py:197-200 | a prefix of records that agree per link still agrees per link |
| Store.SettlesKept | Scrap_TMZ.py:71-102 | an upsert keeps every record settled that it does not contradict, and settles its own |
| Store.UpsertAllIdempotent | Scrap_TMZ.py:71-102 | re-running the same upserts leaves the table as one run, and every second-run upsert reports no change |
| Store.UpsertAllDbIdempotent | Scrap_TMZ.py:71-102 | re-running the upserts on the named table leaves the database as one run, and every second-run upsert reports no change |
| Store.MapTableTwice | Scrap_TMZ.py:71-102 | a table that the upserts leave as it is stays so inside the database |
| Store.Database.constructor | Scrap_TMZ.py:30 | a new database has no tables |
| Store.Table.constructor | Scrap_TMZ.py:42-54 | a new table has no rows and ids starting at 1 |
| Store.Table.Upsert | Scrap_TMZ.py:71-102 | the table changed in place ends in the state, and reports the outcome, that `Upserted` gives |
| Store.Database.EnsureTable | Scrap_TMZ.py:30-62 | the database ends as `Ensured` gives: created only when absent, fatal when the store cannot be used; existing table objects kept, a created one fresh |
| Store.Database.Upsert | Scrap_TMZ.py:64-109 | the named table is upserted as `UpsertedDb` gives; the table map is unchanged; a missing table reports a store error |
| ArticleFields.Title | Scrap_TMZ.py:132-133 | the first heading class present gives the title, else the placeholder `Título não encontrado` |
| ArticleFields.Lookup | Scrap_TMZ.py:138-140 | `dados_json.get(key, 'Data não encontrada')`, with no contract of its own; its partners `ArticleFields.MissingKeyDate` and `ArticleFields.MissingKeyColumns` state that a missing key gives the placeholder, which the record then stores unchanged |
| ArticleFields.RawDates | Scrap_TMZ.py:135-142 | undecodable structured data, and only that, fails; with no script all three dates are `Datas não encontradas` |
| ArticleFields.StoredDate | Scrap_TMZ.py:154 | only a string date is stored; a string that does not parse is stored unchanged |
| ArticleFields.ParagraphTexts | Scrap_TMZ.py:148-149 | one text per paragraph |
| ArticleFields.ParagraphTextsAt | Scrap_TMZ.py:149 | the `i`-th text is the `i`-th paragraph's |
| ArticleFields.ScrapedArticle | Scrap_TMZ.py:127-154 | a record is stored under the article's link, with the term renamed `+`→`_`, the category, the selected title and the body text; it is made only from a page with no script or with decoded structured data; with structured data, each of the three date columns is the reformatted value looked up under `dateCreated`, `datePublished` and `dateModified` |
| ArticleFields.ScrapedArticleFails | Scrap_TMZ.py:129-159 | the record fails exactly when the page cannot be fetched, its structured data does not decode, or one of its dates cannot be reformatted |
| ArticleFields.NoScriptDates | Scrap_TMZ.py:141-142 | without structured data all three stored dates are `Datas não encontradas` |
| ArticleFields.DatesNotFoundUnchanged | Scrap_TMZ.py:142 | the shared placeholder passes the date reformatting unchanged |
| ArticleFields.DateNotFoundUnchanged | Scrap_TMZ.py:138-140 | the single-date placeholder passes the date reformatting unchanged |
| ArticleFields.MissingKeyDate | Scrap_TMZ.py:138-140 | a key missing from the structured data gives that date alone `Data não encontrada` |
| ArticleFields.MissingKeyColumns | Scrap_TMZ.py:138-154 | in the record, each date whose key is missing is `Data não encontrada`, and a page with all three keys missing always gives a record |
| ArticleFields.TitleMissing | Scrap_TMZ.py:132-133 | with neither heading class the stored title is exactly the placeholder |
| ArticleFields.BodyCases | Scrap_TMZ.py:146-151 | an empty paragraph list gives `""`, a missing body `Texto não encontrado` |
| ArticleFields.BodyText | Scrap_TMZ.py:144-151 | the body text, with no contract of its own; its partners `ArticleFields.BodyCases`, `ArticleFields.BodySingle` and `ArticleFields.BodyJoined` state that a missing body gives `Texto não encontrado`, and otherwise the paragraph texts are joined by single spaces |
| ArticleFields.BodyJoined | Scrap_TMZ.py:149 | the body is the paragraph texts separated by single spaces |
| ArticleFields.BodySingle | Scrap_TMZ.py:149 | one paragraph gives its own text, without a separator |
| Walker.Qualifies | Scrap_TMZ.py:198 | the test that a link's target contains `https://www.tmz.com/20`, with no contract of its own; its partner `Text.ContainsAt` states that it holds exactly when the prefix starts at some position of the target, and `Walker.Qualifying` that exactly such links are kept |
| Walker.Qualifying | Scrap_TMZ.py:197-199 | a link is kept exactly when it occurs on the page and contains the article prefix; no link is kept twice |
| Walker.FirstIndex | Scrap_TMZ.py:198 | the position of the first occurrence of a link on the page |
| Walker.FirstIndexExtended | Scrap_TMZ.py:198 | more hrefs after a link do not move its first occurrence |
| Walker.FirstIndexAppended | Scrap_TMZ.py:198 | an appended link that was absent has its first occurrence at the end |
| Walker.QualifyingInOrder | Scrap_TMZ.py:197-199 | the kept links come in the order of their first occurrence on the page |
| Walker.QualifyingCount | Scrap_TMZ.py:194-201 | the number of kept links is the number of distinct qualifying hrefs |
| Walker.QualifyingPrefix | Scrap_TMZ.py:197-199 | the links kept from the first hrefs are a prefix of those kept from all |
| Walker.Scraping | Scrap_TMZ.py:197-201 | the records are those of the links before the first failing one, in order; it succeeds exactly when every link scrapes |
| Walker.ScrapingStops | Scrap_TMZ.py:207-210 | once a link fails, the links after it are never scraped |
| Walker.Walk | Scrap_TMZ.py:186-210 | the walker on one search page, with no contract of its own; its partners `Walker.WalkFacts`, `Walker.WalkFailures` and `Walker.WalkStopsAt` state what it counts and upserts, and when it fails |
| Walker.WalkFacts | Scrap_TMZ.py:186-205 | the count is the number of distinct qualifying links when every article scrapes, else 0; each link is upserted at most once, in first-occurrence order, with its own record, under the table's name |
| Walker.WalkFailures | Scrap_TMZ.py:188 | a page that cannot be fetched, or whose first kept link fails, upserts nothing and counts 0 |
| Walker.WalkerTable | Scrap_TMZ.py:200 | the walker's upserts go to the table named by renaming the term once, although it is renamed twice on the way |
| Walker.FromSourceConsistent | Scrap_TMZ.py:200 | records scraped from their own links agree wherever the links agree |
| Walker.FromSourceAppend | Scrap_TMZ.py:200 | two runs of records scraped from their own links join into one |
| Walker.QualifyingStep | Scrap_TMZ.py:198-199 | one more href adds it to the kept links exactly when it qualifies and is new |
| Walker.ScrapingStep | Scrap_TMZ.py:200 | one more link either adds its record or ends the scraping |
| Walker.WalkStopsAt | Scrap_TMZ.py:207-210 | when a link fails, the whole walk ends there |
| Walker.WalkLinks | Scrap_TMZ.py:194-205 | the loop with its set of seen links upserts exactly the records scraped before the first failure, in order, and returns the number of distinct kept links, or 0 after a failure |
| Walker.WalkSearchPage | Scrap_TMZ.py:186-210 | the walker upserts exactly `Walk`'s records, in order, and returns its count |
| Pagination.Fetch | Scrap_TMZ.py:169 | a page is fetched exactly when it is among the inputs |
| Pagination.Probed | Scrap_TMZ.py:167-183 | an abort changes nothing; going on means the term's table exists |
| Pagination.ProbedAsWritten | Scrap_TMZ.py:57-62 | the probe as written differs from the intended one only when the connection is refused |
| Pagination.PagesFrom | Scrap_TMZ.py:226-236 | the loop from page `n` on, with no contract of its own; its partners `Pagination.PagesFromCounts`, `Pagination.PagesFromRecords` and `Pagination.PagesFromUpserted` state where it stops, what it counts and which records it upserts |
| Pagination.AfterProbe | Scrap_TMZ.py:221-236 | the run stops the process exactly when the probe aborts; a probe that does not go on leaves the database as the probe left it; one that goes on gives a finished run |
| Pagination.TermRun | Scrap_TMZ.py:213-236 | a run that stops the process changes nothing and happens only with a store that cannot be used; a `(0, 0)` result changes nothing |
| Pagination.TermRunAsWritten | Scrap_TMZ.py:213-236 | with the probe as written (lines 57-62), the run differs from the intended one only when the connection is refused, and it stops the process only when the store fails after connecting |
| Pagination.WalksFrom | Scrap_TMZ.py:226-228 | one result for each of the pages from `n` to 20 |
| Pagination.WalksFromAt | Scrap_TMZ.py:227-228 | the `k`-th result is that of page `n + k` |
| Pagination.Walks | Scrap_TMZ.py:227-228 | the walker run on each of the search pages 1 to 20, with no contract of its own beyond its 20 entries; its partner `Pagination.WalksAt` states that the entry at index `k` is the walker on page `k + 1` |
| Pagination.WalksAt | Scrap_TMZ.py:227-228 | the walk at index `k` is the walker on page `k + 1` |
| Pagination.CountsFrom | Scrap_TMZ.py:228 | one count for each of the pages from `n` to 20 |
| Pagination.CountsFromAt | Scrap_TMZ.py:228 | the `k`-th count is page `n + k`'s |
| Pagination.LeadingRun | Scrap_TMZ.py:229-231 | the leading counts are non-zero and the one after them is 0 |
| Pagination.PagesFromCounts | Scrap_TMZ.py:226-236 | from page `n`, the loop stops after the leading non-empty pages, having summed their counts |
| Pagination.LastVisited | Scrap_TMZ.py:226-231 | the last page the loop visits lies between the page before `n` and page 20 |
| Pagination.PagesFromRecords | Scrap_TMZ.py:226-234 | the loop stops at the last page it visits, or one past page 20, and upserts the records of every page visited, in page order |
| Pagination.PagesFromUpserted | Scrap_TMZ.py:226-234 | the loop from page `n` upserts the records of the leading non-empty pages followed by those of the first page counting 0, or of every page up to 20 when none does |
| Pagination.TermRunUpserted | Scrap_TMZ.py:213-236 | once the probe lets the run go on, the term's table receives the records of pages 1 up to the first page counting 0, or up to page 20 |
| Pagination.TermRunCounts | Scrap_TMZ.py:213-236 | after the probe, the result is 1 plus the number of leading non-empty pages, so at most 21, together with the sum of their counts |
| Pagination.EmptyFirstPage | Scrap_TMZ.py:175-176 | a first page that cannot be fetched or shows `No Content Found` gives `(0, 0)` and creates no table |
| Pagination.OutageAborts | Scrap_TMZ.py:57-59 | a store that cannot be used when the table is ensured stops the process and changes nothing |
| Pagination.OutageReportedEmpty | Scrap_TMZ.py:181-183 | as written, a refused connection gives `(0, 0)` where the intended probe stops the process |
| Pagination.TermRunFrame | Scrap_TMZ.py:178 | a term's run creates or writes only the term's own table; every other table keeps its contents |
| Pagination.WalkerWritesProbedTable | Scrap_TMZ.py:154 | the table the walker writes to is the one the probe ensured |
| Pagination.WalksSourced | Scrap_TMZ.py:200 | every page's records were scraped from their own links |
| Pagination.PagesFromSource | Scrap_TMZ.py:226-234 | so are the records of the whole loop |
| Pagination.ProbeAgain | Scrap_TMZ.py:175-178 | a probe that went on goes on again, changing nothing, once the table exists |
| Pagination.TermRunIdempotent | Scrap_TMZ.py:213-236 | running a term twice over unchanged pages ends with the same database and result as once, and every second-run upsert reports no change |
| Pagination.ArticleScraperKeyed | Scrap_TMZ.py:154 | the article scraper stores each record under its own link and the renamed term |
| Pagination.SiteRunIdempotent | Scrap_TMZ.py:213-236 | scraping the unchanged site a second time leaves database and result as the first run left them |
| Pagination.WalkedStep | Scrap_TMZ.py:228-234 | one turn of the loop keeps its invariant: a page counting 0 ends the run there, any other page is added on |
| Pagination.WalkedAll | Scrap_TMZ.py:226 | after page 20 the loop has walked the whole run |
| Pagination.WalkPage | Scrap_TMZ.py:227-228 | one turn of the loop runs the walker on page `n`, upserting that page's records and returning its count |
| Pagination.ProbeFirstPage | Scrap_TMZ.py:167-183 | the probe changes the database and decides as `Probed` gives; existing tables are kept and a created one is fresh |
| Pagination.WalkPages | Scrap_TMZ.py:225-236 | the loop over pages 1 to 20 upserts exactly the records of `PagesFrom`, and returns its page number and total |
| Pagination.ScrapPages | Scrap_TMZ.py:213-236 | the database and the result end as `TermRun` gives |

## Left out

- HTTP fetching with `requests.get` and `urllib.request.urlopen` is not modelled. The search and article pages are input maps, and a missing entry stands for a fetch that raises.
- HTML parsing is replaced by datatypes holding what the parser's queries return:
  - a search page's hrefs and text strings;
  - an article page's two headings, its structured data and its paragraphs.
- `find_all('p')` also returns nested paragraphs. The model takes the paragraph list as given, because it does not model how paragraphs nest.
- `json.loads` is not modelled. Its result is "no script", "does not decode" or a map of fields, and only string values are told apart from other kinds of value.
- The probe and the walker each fetch page 1 separately. The model gives both the same page 1, because the fetches are not modelled.
- The search URL (`https://www.tmz.com/search/?q=...&page=N`) is not built. A page is identified by its number.
- Store.FindByLink, Store.UpdateByLink, Store.Ensured: links and table names are compared exactly. MySQL compares `WHERE link = %s` under the column's collation, which may ignore case and accents, and `SHOW TABLES LIKE` treats `_` and `%` as wildcards, so an existing table `aXb` makes `a_b` look present. Collations and `LIKE` patterns are not modelled.
- MySQL is replaced by in-memory tables; connections, cursors, SQL text, commits and closes are left out.
  - Whether the server can be used is `StoreStatus`. It is fixed for the whole run of a term.
  - A connection lost after the probe is not modelled.
  - The SQL injection that the f-string table names allow is not modelled.
- Store.Ensured, Pagination.Probed: a term whose table name is not a bare MySQL identifier (`Jay-Z`, `O'Neal`, `Dr._Dre`) makes `SHOW TABLES LIKE` or `CREATE TABLE` fail after connecting, and the process exits. With `Reachable` the model creates the table and goes on; this case is expressed only by choosing `Failing` for that term.
- `Store.Database.Upsert`: a failed statement (a missing table) is `StoreError`, and nothing changes. As written, a refused connection during an upsert would also raise in the clean-up and end the walker's page. That is not modelled, because the store status is fixed after the probe.
- Store.Upserted, Store.UpsertOutcomes: a new link is always inserted and a changed one always updated, although every column is `TEXT` (at most 65,535 bytes). In strict mode an over-long text makes the statement fail; the error is reported, the article is not stored, and the walker goes on. Column sizes are not modelled.
- `time.sleep`, `random.uniform`, the wall-clock timing and its formatting, and every `print` are left out. They are delays and output with no effect on the stored data or the returned values.
- Loading `nomes.json` is not modelled.
- The loop of `main` over categories and terms, and its running total, are not modelled. From `main` the model keeps the renaming of each term (`Names.SearchName`), which is where a term's run starts.
- `Dates.Parse` accepts only the strict 24-character form with a four-digit year from 1 and a `±HHMM` offset. The laxer forms that `strptime` also takes are out of scope: single-digit or space-padded fields (a day written ` 1`), `Z`, `+00:00`, offsets with seconds or fractions of a second (`+000000`, `+000000.5`, `+00:00:00.000000`) and non-ASCII digits. `Dates.FormatDate` returns such a string unchanged, where the code would shift it by seven hours. The `T` separator is matched in either case.
- `Dates.Render` pads years below 1000 to four digits. The platform's `strftime` may not pad them.
- `Dates.FormatDate`: the overflow error raised when the shift would fall before year 1 is `None`. The error itself is not modelled.
- `Extraction.ExtractedText`: every string child, including comments, is taken verbatim, as the code's `isinstance(elemento, str)` test does. The parser's distinction between kinds of string is not modelled.
- Each element's `get_text(strip=True)` is given as the list of strings below it. How the parser collects those strings from nested markup is not modelled.
- `Walker.Scraper`: the walker takes the article scraper as a parameter, so its properties hold for any scraper. `Pagination.SiteRunIdempotent` instantiates it with `ArticleFields.ScrapedArticle`.

## Findings

| source | as written | input that shows it | evidently intended | confidence | as-written member | corrected member |
|---|---|---|---|---|---|---|
| Scrap_TMZ.py:57-62, Scrap_TMZ.py:181-183 | when `mysql.connector.connect` itself raises, `conn` is never bound, so `if conn:` in the `finally` block raises `UnboundLocalError` instead of letting `sys.exit(1)` go through; the probe's `except Exception` catches it, and the term is reported as having no results | a search term whose first page has results while the database server refuses connections | a database that cannot be reached stops the process with status 1 | not executed | Pagination.ProbedAsWritten, Pagination.OutageReportedEmpty | Pagination.Probed, Pagination.OutageAborts |
