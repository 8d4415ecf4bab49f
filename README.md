# b2b-scraper lead pipeline, modelled in Dafny

This project models the logic of the b2b-scraper lead pipeline:

- **Google Maps stage.** The actor input sent to Apify, and the transform that turns each dataset item into a business record.
- **Website crawler.** It decodes obfuscated addresses and extracts matches with the `EMAIL_PATTERN` grammar. It drops false positives, normalises the website and crawls the site plus ten contact pages. It also collects `mailto:` targets and records the finds on each lead.
- **SMTP verifier.** It derives the domain, classifies the RCPT reply and probes for a catch-all domain. It generates pattern guesses and runs the per-lead decision that assigns one `email_status`. It also collects a batch and counts the four statistics buckets.
- **Two Google Sheets exporters.** The backend copy appends a title row, the header row and the lead rows below the existing content. The root copy clears the sheet and rewrites it.
- **Party-venue finder.** It selects listing links and applies the title, pool, pool-table, distance and alcohol filters. It stops at 15 venues, sorts them by distance and writes the sheet.

Structure:

- **Values and errors.** Leads and items are JSON-like records (`Values.Record`, a map from text keys to `Value`), with Python truthiness, `dict.get` and `or` written out. Exceptions the code lets escape are `Values.Fault` values:
  - the `AttributeError` of `.strip()` on a non-text value;
  - the `IndexError` of `split('@')[1]`;
  - the `TypeError`/`KeyError` of `emails[0]`;
  - the `ValueError` of `urlsplit`.
- **External services.** Each one is a value passed in:
  - `Crawler.Web`: the page fetcher and the `<a href>` extractor;
  - `SmtpVerify.Mail`: the MX lookup and the SMTP session;
  - `Venues.Browser`: the visited listing pages, the haversine distance and Python's `str()` of a non-text value;
  - `Worksheets.Worksheet`: the worksheet, as a class whose `cells` grid `get_all_values`, `clear` and `update` read and change.
- **Concurrency.** The two thread-pool batches are sequentialised. The order in which tasks finish is a parameter `order`, a permutation of the lead indices (`Pool.IsCompletionOrder`). Python's iteration order over a set is an enumeration parameter (`Pool.IsEnumeration`).
- **Regular expression.** `EMAIL_PATTERN` is modelled exactly as a language:
  - `AddressPattern.MatchAt` is the grammar together with ASCII `\b`;
  - `findall` is a scanner that takes the longest match at the leftmost position where one starts;
  - `match` means that some prefix matches.
- **`urlparse`.** `Urls.UrlParse` follows CPython 3.12 `urlsplit`:
  - C0/space stripping;
  - tab and newline removal;
  - the scheme rule;
  - `//` authority;
  - `#`, `?` and `;` parameters;
  - the bracket check;
  - the `_checknetloc` check, which rejects a non-ASCII netloc holding a character that NFKC normalisation turns into `/`, `?`, `#`, `@` or `:` (`Urls.NfkcHostRejected`).

Where the code and its own comments and docstrings disagree, the model follows the code:

- `user[at]domain[dot]com` decodes to `user@domain.com`, but `domain.com` is one of the false-positive markers, so that page yields nothing (`Crawler.PlaceholderDomainDropped`).
- A `mailto:` target needs only a prefix match. Text after the address is kept with it (`Crawler.MailtoKeepsTrailingText`).
- Either of two cases leaves no guess behind:
  - a domain holding `{`, which drops all ten guesses (`SmtpVerify.BraceDomainNoGuesses`);
  - a name holding `{`, which drops the patterns that use that name.
- A scheme-less website is parsed as a path and kept whole, so `acme.com/about` gives the domain `acme.com/about`. An upper-case `WWW.` prefix is not removed.
- In `process_lead` of the verifier, `None` from the catch-all probe counts as "not catch-all". The guesses loop probes at most the first five guesses. With every guess kept, those five are the role accounts `info`, `contact`, `hello`, `sales` and `support`.
- In the venue finder, `calculate_distance`'s `if not venue_coords` never applies, because a pair is always truthy. The 999 sentinel comes only from the `if lat and lon` test, so a coordinate of `0` also gives 999.
- `push_venues` writes `Alcohol: Yes` by searching the address text for `Yes`. The address text's own `YES` is upper case, so the cell still reflects the alcohol test exactly (`Venues.VenueRowAlcohol`).

## Model

| member | source | states |
|---|---|---|
| AddressPattern.FindAll | backend/execution/crawl_website_for_email.py:26-28 | every element `findall` yields has the address shape and occurs in the text |
| AddressPattern.MatchEnd | backend/execution/crawl_website_for_email.py:26-28 | at a position the longest match is found, and there is none exactly when no prefix from there matches |
| AddressPattern.PrefixMatchesIff | backend/execution/crawl_website_for_email.py:145 | `EMAIL_PATTERN.match` succeeds exactly when some prefix of the text is a match |
| AddressPattern.FindAllWhole | backend/execution/crawl_website_for_email.py:62 | a text that is one whole match is found, alone |
| AddressPattern.AddressHasAt | backend/execution/crawl_website_for_email.py:26-28 | every address the pattern accepts holds an `@` |
| AddressPattern.AddressOfParts | backend/execution/crawl_website_for_email.py:26-28 | local part, `@`, domain, `.` and a top-level part of two or more letters form an address |
| Crawler.ExtractedAddresses | backend/execution/crawl_website_for_email.py:55-76 | every returned address matches the grammar, occurs in the decoded text and contains none of the twelve markers in any case; every match free of markers is returned in its own case |
| Crawler.ExtractEmailsFromHtml | backend/execution/crawl_website_for_email.py:55-76 | the filtering loop builds exactly the set of non-false-positive matches of the decoded text |
| Crawler.DecodeBracketed | backend/execution/crawl_website_for_email.py:58-60 | a `[at]`/`[dot]` obfuscated address decodes to the plain address |
| Crawler.ObfuscatedAddressExtracted | backend/execution/crawl_website_for_email.py:58-76 | a page holding an obfuscated address yields that plain address, unless it is a false positive |
| Crawler.DecodeExample | backend/execution/crawl_website_for_email.py:58-60 | `user[at]domain[dot]com` decodes to `user@domain.com` |
| Crawler.LaterPassesKeep | backend/execution/crawl_website_for_email.py:59-60 | the four passes after the bracketed ones leave text without spaces, `[` or `(` unchanged |
| Crawler.MarkerFlagged | backend/execution/crawl_website_for_email.py:67-73 | an address that holds a marker is dropped |
| Crawler.MarkersLower | backend/execution/crawl_website_for_email.py:69-72 | the markers are lower case, so the case-insensitive test compares them with the lower-cased address |
| Crawler.AddressCharsPlain | backend/execution/crawl_website_for_email.py:26-28 | address characters include no obfuscation opener, no `:`, no `?` and no whitespace |
| Crawler.PlainDecodes | backend/execution/crawl_website_for_email.py:58-60 | decoding leaves text without `[`, space or `(` untouched |
| Crawler.PlainAddressExtracted | backend/execution/crawl_website_for_email.py:62-76 | a page that is just an address yields that address, unless it is a false positive |
| Crawler.PlaceholderDomainDropped | backend/execution/crawl_website_for_email.py:58-74 | an address at `domain.com`, obfuscated or plain, yields nothing |
| Crawler.MailtoAddressesIff | backend/execution/crawl_website_for_email.py:141-146 | a target is collected exactly when some href starts with `mailto:` and its candidate text matches at its start |
| Crawler.MailtoAddressShape | backend/execution/crawl_website_for_email.py:144-146 | a collected target matches at its start, holds no `?` and has no whitespace at either end |
| Crawler.MailtoCandidate | backend/execution/crawl_website_for_email.py:144 | the candidate text is cut before the first `?` and has no whitespace at either end |
| Crawler.MailtoTestsTarget | backend/execution/crawl_website_for_email.py:143-144 | `mailto:` followed by text without `:`, `?` or surrounding whitespace is recognised and tests that text |
| Crawler.MailtoExampleKept | backend/execution/crawl_website_for_email.py:141-146 | a link to an `example.com` address is collected |
| Crawler.ExampleDomainDropped | backend/execution/crawl_website_for_email.py:65-74 | the same `example.com` address in page text is dropped |
| Crawler.MailtoBypassesFilter | backend/execution/crawl_website_for_email.py:136-146 | link targets skip the false-positive filter that text matches go through |
| Crawler.MailtoKeepsTrailingText | backend/execution/crawl_website_for_email.py:144-146 | since `match` anchors only the start, text after the address is kept in the collected target |
| Crawler.WithScheme | backend/execution/crawl_website_for_email.py:96-97 | the result starts with `http://` or `https://`; the input is kept exactly when it already does, otherwise `https://` is prefixed |
| Crawler.NormalizeWebsite | backend/execution/crawl_website_for_email.py:85-99 | falsy input gives `None`; a truthy non-text raises `AttributeError`; otherwise the result starts with one of the two schemes |
| Crawler.NormalizeBareHost | backend/execution/crawl_website_for_email.py:85-99 | a bare host gets `https://` and is otherwise unchanged |
| Crawler.NormalizeTrims | backend/execution/crawl_website_for_email.py:90-93 | surrounding whitespace and trailing slashes are removed and a given scheme is kept |
| Crawler.NormalizeSchemed | backend/execution/crawl_website_for_email.py:90-99 | a stripped, slash-trimmed text that already has a scheme is the normalised site |
| Crawler.GetBaseUrl | backend/execution/crawl_website_for_email.py:79-82 | the base is `scheme://netloc` of the parsed URL, and fails exactly when parsing does |
| Crawler.BaseUrlKeepsScheme | backend/execution/crawl_website_for_email.py:79-82 | the base URL of an `http(s)://` site keeps that scheme |
| Crawler.NfkcSiteRaises | backend/execution/crawl_website_for_email.py:124-130 | a site whose host holds a character such as `℀` that NFKC turns into a delimiter raises the `urlparse` ValueError before any page is fetched |
| Crawler.BaseUrlOfHost | backend/execution/crawl_website_for_email.py:79-82 | for an ASCII host, the base URL of `https://host/path` is `https://host` |
| Crawler.PagesToCheck | backend/execution/crawl_website_for_email.py:130 | eleven pages: the site, then the base joined with each of the ten contact paths in order |
| Crawler.FoundIsUnion | backend/execution/crawl_website_for_email.py:132-154 | an address is found exactly when some crawled page yields it; empty or failed pages add nothing and stop nothing |
| Crawler.CrawlWebsiteForEmails | backend/execution/crawl_website_for_email.py:118-154 | the result is the crawl of the normalised site; no page is fetched for a falsy website, otherwise exactly the eleven pages in order |
| Crawler.CrawlPages | backend/execution/crawl_website_for_email.py:132-152 | every page is requested once in order and the set is the union of their finds |
| Crawler.AddMailtoTargets | backend/execution/crawl_website_for_email.py:141-146 | the link loop adds exactly the collected `mailto:` targets to the set |
| Crawler.ListOfSet | backend/execution/crawl_website_for_email.py:163 | `list(emails)` enumerates each found address once |
| Crawler.WithEmailsFields | backend/execution/crawl_website_for_email.py:163-168 | the lead gains `emails_found` and `primary_email` and keeps every other field |
| Crawler.CrawlFailureFields | backend/execution/crawl_website_for_email.py:191-194 | a failed task's lead gets `[]`, `None` and the error text, and keeps every other field |
| Crawler.ProcessLead | backend/execution/crawl_website_for_email.py:157-171 | the task raises exactly when the lead has a website whose crawl raises; otherwise the lead records its finds |
| Crawler.PrimaryEmailIsFound | backend/execution/crawl_website_for_email.py:162-164 | `primary_email` is `None` exactly when nothing was found, and otherwise one of the finds; `emails_found` lists each find once |
| Crawler.EnumerationSize | backend/execution/crawl_website_for_email.py:163 | an enumeration of a set is as long as the set |
| Crawler.CrawlAllWebsites | backend/execution/crawl_website_for_email.py:174-201 | one result per lead, each the record of the lead whose task finished in that place, failures included |
| Crawler.FinishTask | backend/execution/crawl_website_for_email.py:190-195 | the record appended for a finished task, the updated lead or the failure record, is one the crawl of that lead may produce |
| Crawler.EveryLeadCrawled | backend/execution/crawl_website_for_email.py:183-195 | every input lead has its record among the results |
| MapsScrape.RunInput | backend/execution/scrape_google_maps.py:61-70 | the actor input has exactly the eight keys, the query as the only search string, the limit, and the fixed settings |
| MapsScrape.RunInputsDiffer | backend/execution/scrape_google_maps.py:61-70 | two actor inputs differ only in query and limit, and are equal exactly when both agree |
| MapsScrape.First | backend/execution/scrape_google_maps.py:99 | `emails[0]` is the first element of a list or the first character of a text, and raises on anything else |
| MapsScrape.BaseFields | backend/execution/scrape_google_maps.py:87-94 | the six fields come from title, address, phone, website, totalScore and reviewsCount, defaulting to `''` or 0 |
| MapsScrape.Business | backend/execution/scrape_google_maps.py:87-100 | `email` and `all_emails` are present exactly when `emails` is truthy, as its first element and the full list; it raises exactly on a truthy non-list non-text |
| MapsScrape.Transform | backend/execution/scrape_google_maps.py:85-106 | no more records come out than items went in |
| MapsScrape.TransformItems | backend/execution/scrape_google_maps.py:85-106 | the loop computes the transform, stopping with the first item's exception |
| MapsScrape.FaultPersists | backend/execution/scrape_google_maps.py:99 | once an item raises, every longer run of items raises the same exception |
| MapsScrape.NamedIndices | backend/execution/scrape_google_maps.py:102-103 | the increasing indices of exactly the items with a truthy title |
| MapsScrape.TransformKeepsNamed | backend/execution/scrape_google_maps.py:85-106 | the results are the business records of the named items, one each, in input order |
| MapsScrape.TransformNamed | backend/execution/scrape_google_maps.py:102-103 | every returned record has a truthy name |
| MapsScrape.TransformFault | backend/execution/scrape_google_maps.py:96-100 | a raising transform raises the exception of the first item whose `emails` cannot be indexed |
| MapsScrape.TransformSucceeds | backend/execution/scrape_google_maps.py:85-106 | the transform succeeds exactly when no item raises |
| LeadRows.EmailCell | backend/execution/push_to_sheets.py:101-105 | the first truthy of `email`, `verified_email`, `primary_email`, else the `primary_email` value or `''`; truthy exactly when one of them is |
| LeadRows.FormatColumns | backend/execution/push_to_sheets.py:98-116 | eight cells, one per header, each the lead's field or `''`, with the email cell in column three |
| LeadRows.Rows | backend/execution/push_to_sheets.py:179-180 | one formatted row per lead, in order |
| LeadRows.DataBlock | backend/execution/push_to_sheets.py:178-180 | the loop builds the header row followed by the lead rows |
| LeadRows.BlockShape | backend/execution/push_to_sheets.py:165-180 | the block has one row more than there are leads, starts with the header, and every row is eight cells wide |
| Worksheets.Trimmed | backend/execution/push_to_sheets.py:140-141 | the rows `get_all_values` returns are a prefix of the grid that ends in a row with a non-empty cell, and every row after them is empty |
| Worksheets.WriteRow | backend/execution/push_to_sheets.py:154 | a written row replaces the old cells under it, except that a `None` cell (JSON `null`) leaves the old cell; the old cells to its right stay |
| Worksheets.Overlay | backend/execution/push_to_sheets.py:154 | rows outside the written block are unchanged and each block row is written over the row under it |
| Worksheets.WriteShows | backend/execution/push_to_sheets.py:154 | a row written over an empty row shows exactly what was written, `None` as an empty cell |
| Worksheets.OverlayAppends | backend/execution/push_to_sheets.py:140-141 | writing at the row after the last appends the block, `None` cells shown empty, and changes nothing above |
| Worksheets.AppendPlainRow | backend/execution/push_to_sheets.py:154 | a row without `None` written after the last row is appended as it is |
| Worksheets.FillAllPlain | execution/find_venues.py:68 | rows without `None` are written as they are |
| Worksheets.FillHeader | execution/push_to_sheets.py:137-142 | a header row without `None` is written as it is above the data rows |
| Worksheets.TwoWrites | backend/execution/push_to_sheets.py:152-183 | a row and then a block written below it, over empty rows, keep the rows above, show what was written and keep the empty rows below |
| Worksheets.LaidOutParts | backend/execution/push_to_sheets.py:152-183 | in such a layout the row, the header row and data row `i` sit at rows `n`, `n + 1` and `n + 2 + i`, each showing what was written |
| Worksheets.AppendTwo | backend/execution/push_to_sheets.py:152-183 | a row and a header-and-data block written just below the last row are appended, `None` data cells shown empty |
| Worksheets.Worksheet.Update | backend/execution/push_to_sheets.py:183 | the grid after an update at row `n` is the overlay of the block at row `n` |
| Worksheets.Worksheet.Clear | execution/push_to_sheets.py:122 | the grid is empty after `clear` |
| Worksheets.Worksheet.GetAllValues | backend/execution/push_to_sheets.py:140 | `get_all_values` returns the rows up to the last one with a non-empty cell |
| SheetAppend.TitleText | backend/execution/push_to_sheets.py:147-150 | the title starts `SEARCH: ` and ends `Found <n> leads`; it names industry and location exactly when both are given and non-empty |
| SheetAppend.TitleRow | backend/execution/push_to_sheets.py:152 | the title row is eight cells wide: the title and seven empty cells |
| SheetAppend.PushToSheets | backend/execution/push_to_sheets.py:119-183 | the sheet becomes the title row written at the row after those `get_all_values` returned, with the header row and one row per lead written below it |
| SheetAppend.PushedLayout | backend/execution/push_to_sheets.py:140-183 | after a push the rows `get_all_values` returned are untouched, the title row, header row and lead rows follow them, each showing what was written, and the empty rows below are kept |
| SheetAppend.AppendOnTrimmed | backend/execution/push_to_sheets.py:140-183 | on a sheet whose last row is not empty, a push appends the title row, the header row and the lead rows, `None` cells shown empty |
| SheetAppend.AppendRows | backend/execution/push_to_sheets.py:163-183 | on a sheet appended below the `existing` rows, the title row sits at row `existing`, the header row just below it, and lead `i`'s formatted row, `None` cells shown empty, at row `existing + 2 + i` |
| SheetAppend.AppendWidth | backend/execution/push_to_sheets.py:152-180 | every row a push adds is eight cells wide |
| SheetRewrite.PushToSheets | execution/push_to_sheets.py:102-142 | the sheet becomes exactly the header row followed by one row per lead, `None` cells shown empty, whatever it held before |
| SheetRewrite.RewriteLayout | execution/push_to_sheets.py:121-142 | the header is in the first row, lead `i` in row `i + 1`, and every row is as wide as the header |
| SheetRewrite.RewriteColumns | execution/push_to_sheets.py:81-99 | each cell of a lead row shows that lead's field for its column, with the email cell under `Email` |
| SmtpVerify.Classify | execution/verify_email_smtp.py:97-103 | `True` exactly for 250, `False` exactly for 550, and `None` for every other code |
| SmtpVerify.MxHosts | execution/verify_email_smtp.py:56-62 | one host per MX record, in order, with trailing dots removed |
| SmtpVerify.DomainOfAddress | execution/verify_email_smtp.py:79 | raises `IndexError` exactly when there is no `@`; otherwise the part after the first `@`, up to any second `@` |
| SmtpVerify.VerifyEmailSmtp | execution/verify_email_smtp.py:65-114 | raises exactly when the address has no `@`; otherwise the probe result for that address, never catch-all |
| SmtpVerify.ProbeVerdict | execution/verify_email_smtp.py:81-112 | no MX gives `False` with `No MX records`; a reply classifies its code; a failure before the reply gives `False` with its error text |
| SmtpVerify.GivenHostUsed | execution/verify_email_smtp.py:82-95 | a non-empty `mx_host` is used as given, without a lookup |
| SmtpVerify.FakeAddress | execution/verify_email_smtp.py:119 | the probed address always has an `@`, so its domain part is taken after the made-up local part |
| SmtpVerify.CheckCatchAll | execution/verify_email_smtp.py:117-121 | the probe of the made-up address never raises, and the catch-all verdict is its `valid` |
| SmtpVerify.GetDomainFromWebsite | execution/verify_email_smtp.py:40-53 | falsy or non-text input gives `None`; a text gives a domain exactly when `urlparse` accepts it; the domain has no upper-case letter |
| SmtpVerify.SchemelessDomain | execution/verify_email_smtp.py:46-51 | a website without scheme or authority is all path, kept whole and lower-cased |
| SmtpVerify.NfkcWebsiteNoProbe | execution/verify_email_smtp.py:176-184 | a lead without an address whose website host holds such a character is `no_website` and no server is contacted |
| SmtpVerify.HttpsDomain | execution/verify_email_smtp.py:46-51 | for an ASCII host, the domain of `https://host/...` is the host, lower-cased, without a lower-case `www.` prefix |
| SmtpVerify.Guesses | execution/verify_email_smtp.py:138-149 | at most one guess per pattern, and every guess has an `@` and no `{` |
| SmtpVerify.GenerateEmailGuesses | execution/verify_email_smtp.py:124-149 | the guesses for the lead's domain and the first and last name tokens, lower-cased |
| SmtpVerify.FormatAll | execution/verify_email_smtp.py:138-147 | the loop keeps exactly the fully resolved patterns, in order |
| SmtpVerify.FormatChars | execution/verify_email_smtp.py:140-146 | formatting brings in a `{` only from a field that holds one, and keeps a literal `@` |
| SmtpVerify.GuessesComplete | execution/verify_email_smtp.py:23-34 | without `{` in the domain or the names, all ten patterns are kept in order |
| SmtpVerify.BraceDomainNoGuesses | execution/verify_email_smtp.py:140-147 | a domain holding `{` leaves no guess at all |
| SmtpVerify.GuessTexts | execution/verify_email_smtp.py:23-34 | the first seven guesses are the role accounts; for a one-word name the others are `first@`, `first.@` and `first@` |
| SmtpVerify.ProbedAreRoleAccounts | execution/verify_email_smtp.py:197-200 | with every guess kept, the five probed are `info`, `contact`, `hello`, `sales` and `support` at the domain |
| SmtpVerify.PrimaryVerdict | execution/verify_email_smtp.py:161-172 | `verified` for `True`, `unverified` for `None`, `invalid` for `False`; the address is kept unless invalid |
| SmtpVerify.FirstAccepted | execution/verify_email_smtp.py:199-205 | the index of the first accepted guess, every earlier one refused, or none when all are refused |
| SmtpVerify.FirstFive | execution/verify_email_smtp.py:199 | `guesses[:5]`: a prefix of at most five guesses |
| SmtpVerify.Verification | execution/verify_email_smtp.py:152-212 | never `error`; the address is `None` exactly for `invalid` and `no_website`; a lead with its own address is `verified`, `unverified` or `invalid` |
| SmtpVerify.ProbedGuesses | execution/verify_email_smtp.py:199-205 | the probed guesses are a prefix of the first five |
| SmtpVerify.ProbedGuessesStop | execution/verify_email_smtp.py:199-205 | probing stops at the first accepted guess, and the last probed guess is accepted exactly when some guess is |
| SmtpVerify.AppliedFields | execution/verify_email_smtp.py:152-212 | every path writes only `verified_email` and `email_status`, and keeps every other field |
| SmtpVerify.ProcessLead | execution/verify_email_smtp.py:152-212 | the lead gets the verdict's two fields or the escaping exception; the probes are exactly the decision's probes |
| SmtpVerify.ProcessPrimary | execution/verify_email_smtp.py:157-174 | the own-address branch probes that address once and applies its verdict |
| SmtpVerify.ProcessGuesses | execution/verify_email_smtp.py:177-212 | the no-address branch applies the guess verdict after exactly its probes |
| SmtpVerify.TryGuesses | execution/verify_email_smtp.py:199-205 | the loop finds the first accepted guess and probes exactly the guesses up to it |
| SmtpVerify.PrimaryOutcome | execution/verify_email_smtp.py:157-174 | own address: `verified` iff `True`, `unverified` iff `None`, kept unless invalid, invalid with no MX, and probed once |
| SmtpVerify.ConnectionFailureInvalid | execution/verify_email_smtp.py:105-112 | a failure before the RCPT reply makes the lead's own address `invalid` |
| SmtpVerify.NoWebsiteNoProbe | execution/verify_email_smtp.py:177-184 | without an own address or a domain the lead is `no_website` and nothing is probed |
| SmtpVerify.CatchAllOutcome | execution/verify_email_smtp.py:186-194 | `catch_all` exactly when the made-up address is accepted, with `info@domain` after that one probe |
| SmtpVerify.GuessedVerifiedIsFirstAccepted | execution/verify_email_smtp.py:196-205 | `guessed_verified` names the first accepted of the first five guesses, after the catch-all probe and the guesses before it |
| SmtpVerify.GuessBranch | execution/verify_email_smtp.py:186-212 | a guess status comes after a usable, non-catch-all domain and succeeding guess generation |
| SmtpVerify.GuessedUnverifiedTriedAll | execution/verify_email_smtp.py:207-210 | `guessed_unverified` gives `info@domain` after all of the first five guesses were refused |
| SmtpVerify.ErrorRecordFields | execution/verify_email_smtp.py:232-237 | a failed task gets `None`, `error` and the error text, and keeps every other field |
| SmtpVerify.OutcomeFields | execution/verify_email_smtp.py:228-237 | every collected record carries one of the eight statuses and keeps the lead's other fields |
| SmtpVerify.VerifyAllLeads | execution/verify_email_smtp.py:215-237 | one result per lead, each the outcome of the lead whose task finished in that place |
| SmtpVerify.Count | execution/verify_email_smtp.py:240-243 | a bucket count never exceeds the number of results |
| SmtpVerify.OneBucket | execution/verify_email_smtp.py:240-243 | each status falls in exactly one of the four buckets |
| SmtpVerify.StatsPartition | execution/verify_email_smtp.py:240-243 | the four bucket counts add up to the number of results |
| SmtpVerify.BatchStats | execution/verify_email_smtp.py:225-243 | the statistics of a batch cover each result exactly once |
| SmtpVerify.EveryLeadVerified | execution/verify_email_smtp.py:225-237 | every input lead has its outcome among the results |
| Venues.SelectListingLinks | execution/find_venues.py:127-130 | a link is kept exactly when it is an href holding `/listing/` or `/l/`; duplicates collapse |
| Venues.VenueName | execution/find_venues.py:146 | the name is no longer than the title and is the stripped title when there is no `|` |
| Venues.ListingOf | execution/find_venues.py:148-158 | coordinates come from the listing dict, and are `None` when the page data is missing, not a dict, or raises |
| Venues.VenueDistance | execution/find_venues.py:200-202 | 999 when either coordinate is falsy, otherwise the distance of the coordinates |
| Venues.Screen | execution/find_venues.py:168-234 | pool-table, no-pool and too-far skips each exactly under their conditions; a kept venue has a pool, the computed distance, is within 15 miles or in LA, has alcohol iff rules or description say so, and its price or `N/A` |
| Venues.Examine | execution/find_venues.py:145-234 | a title skip exactly on a negative keyword; a listing that is not a dict fails; a kept venue is named after the title |
| Venues.HasPoolIff | execution/find_venues.py:169-175 | a pool exactly when the page says `pool`, `jacuzzi` or `swim` or the amenities say `pool` |
| Venues.PoolTableNeedsIndoorText | execution/find_venues.py:179-187 | the pool-table skip needs `pool` on the page and no `pool` in the amenities |
| Venues.KeptVenue | execution/find_venues.py:145-236 | a kept venue passed every filter and records the link, the pool, the distance and the alcohol test |
| Venues.KeptOf | execution/find_venues.py:236 | a link adds one venue exactly when its pass keeps one, and adds that venue |
| Venues.KeptHasPool | execution/find_venues.py:232 | every appended venue has `has_pool` true |
| Venues.Visited | execution/find_venues.py:135-243 | at most one venue per visited link |
| Venues.Accepted | execution/find_venues.py:135-243 | at most one venue per visited link, all with a pool |
| Venues.VisitedPrefix | execution/find_venues.py:135-243 | visiting more links only appends venues |
| Venues.VisitedFrom | execution/find_venues.py:135-243 | every venue collected came from the pass over one of the visited links |
| Venues.Capped | execution/find_venues.py:136-137 | the first 15 venues, or all when fewer |
| Venues.VisitInOrder | execution/find_venues.py:134-243 | the loop keeps the first 15 venues kept in visiting order; `count` grows only on an append |
| Venues.VisitLink | execution/find_venues.py:145-237 | one pass appends the kept venue, if any, and counts it |
| Venues.CollectVenues | execution/find_venues.py:134-243 | the venues are the first 15 that the listing filters keep, in set iteration order |
| Venues.Insert | execution/find_venues.py:250 | insertion keeps a sorted list sorted and adds exactly the venue |
| Venues.SortByDistance | execution/find_venues.py:250 | the result is sorted by distance and a permutation of the input |
| Venues.SortKeepsVenues | execution/find_venues.py:250 | the sort keeps every venue whole and the count |
| Venues.InsertStable | execution/find_venues.py:250 | insertion puts the venue after those at its own distance and keeps the order of the others |
| Venues.SortStable | execution/find_venues.py:250 | the sort is stable: the venues at any one distance come out in input order |
| Venues.PyStr | execution/find_venues.py:173-174 | `str()` of a text is the text and of the empty list `[]` |
| Venues.MissingAmenities | execution/find_venues.py:168-219 | without `amenities` and `rules` keys both render as `[]`, and only the page text can give a pool |
| Venues.VenueRow | execution/find_venues.py:61-66 | one cell per header, none of them `None` |
| Venues.VenueRowAlcohol | execution/find_venues.py:63 | the amenities cell says `Alcohol: Yes` exactly when the alcohol test passed |
| Venues.VenueRows | execution/find_venues.py:59-66 | one row per venue, in order |
| Venues.PushVenues | execution/find_venues.py:47-68 | the sheet becomes the header row followed by one row per venue |
| Venues.Run | execution/find_venues.py:85-266 | the venues are the capped kept venues sorted by distance; the sheet is rewritten when there are any and untouched otherwise |
| Venues.AcceptedFrom | execution/find_venues.py:135-243 | every collected venue is the venue some visited link kept |
| Venues.RunResult | execution/find_venues.py:134-250 | at most 15 venues, sorted by distance, each kept by one of the visited links |
| Urls.UrlParse | backend/execution/crawl_website_for_email.py:81 | scheme and netloc of `urlsplit`; the `ValueError` for unbalanced brackets, and for a non-ASCII netloc holding a character whose NFKC form is a delimiter |
| Urls.HttpsNetloc | execution/verify_email_smtp.py:46 | for an ASCII host, `https://host/...` parses with netloc `host` |
| Urls.NfkcHostRejected | execution/verify_email_smtp.py:46 | `https://host/...` raises `ValueError` when the host holds a character such as `℀` whose NFKC form holds `/`, `?`, `#`, `@` or `:` |
| Urls.SchemelessIsPath | execution/verify_email_smtp.py:46-47 | a text without scheme, authority, query, fragment or parameters parses as all path |
| Urls.HttpSchemeDetected | backend/execution/crawl_website_for_email.py:81-82 | an `http://` or `https://` URL is split with that scheme |
| Pool.CompletionOrderCovers | execution/verify_email_smtp.py:228 | every submitted task appears in the completion order |

## Left out

- HTTP fetching (`fetch_page`), BeautifulSoup parsing, the `sleep` with random jitter, DNS MX resolution and the `smtplib` session are oracles: the `Web`, `Mail` and `Browser` values stand for them. Their own behaviour is not modelled, only what the code does with their results.
- The thread pools are sequentialised. Tasks run one at a time and their completion order is a parameter. Interleaving and shared-dict races are not modelled.
- Records are values: each stage returns the updated dict. Python's aliasing, the mutation of the caller's lead dicts in place, is not modelled.
- Google authentication, opening or creating a spreadsheet, cell formatting, freezing, auto-resizing and the returned sheet URL are gspread glue and are left out. Worksheets.Worksheet.GetAllValues: only trailing empty rows are dropped; the trailing empty cells of each returned row and the padding of short rows to a common width are not modelled, so the rows returned may be longer or shorter than the API's (only their number is used).
- The order of the backend's first `update` call (range first, values second at line 154) is read as the same write as the second call; gspread's argument handling is not part of this model.
- The Apify client calls and the actor run, Playwright navigation and scrolling, JSON loading and saving, `argparse`/`main`, and every `print` are I/O and are left out.
- The haversine distance and `float()` of the coordinates are the `Browser.distance` oracle. `str()` of a value that is neither text nor the empty list (amenities, rules, description) is the `Browser.render` oracle.
- Venues.Run: the venue dict's `phone` text (`%.1f mi` or `LA Area`), `email` `Check Link`, `rating` and `review_count` `Unknown` are derived or fixed texts and are not separate fields. The distance is a real, so the integer sentinel `999` and the float `999.0` are not told apart.
- Urls.UrlParse: `_check_bracketed_netloc` validation of bracketed hosts is not modelled. Only the unbalanced-bracket `ValueError` is.
- Urls.UrlParse: NFKC normalisation itself is not modelled. The `_checknetloc` test is exact for ASCII netlocs, which always pass; for a non-ASCII netloc only the listed characters whose NFKC form holds a delimiter (`／`, `？`, `＃`, `＠`, `：`, their small forms, `℀`, `℁`, `℅`, `℆`, `⁇`, `⁈`, `⁉`) raise, so a netloc with another such character parses where CPython raises.
- Text.Lower: ASCII only; Unicode case mapping is not modelled.
- AddressPattern.FindAll: `\b` and `\w` are taken in their ASCII meaning; Unicode word characters are not modelled.
- `backend/execution/run_lead_gen.py`, `backend/main.py` and `backend/test_sheet_render.py` are orchestration, web endpoints and a manual Sheets write script; they are not part of this model.
