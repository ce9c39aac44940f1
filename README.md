# Amazon deals observer — a Dafny model of the offer pipeline

The system watches the Amazon Brazil deals pages and forwards good offers to a WhatsApp group.
Its core is a chain of small decisions, modelled here:

- **Extraction** (`Extractor`): a scraped price string becomes a number, the struck-out and
  current prices give a rounded discount percentage, and a product URL gives its ten-character
  ASIN.
- **Affiliate links** (`Affiliate`): an ASIN and a store tag make the affiliate link. The model
  proves that the ASIN extractor reads back the ASIN from that link.
- **Deals page** (`Goldbox`): scraped fragments are mapped to products, filtered by price band,
  minimum discount, Prime and blocked keywords, then scored and cut at score 60. The rest are
  sorted stably by descending score, and a bounded loop checks the top ones for availability.
  It checks at most 12 and stops at 8 available products.
- **Offers archive** (`Storage`): a saved batch is appended to the archive. Offers without an ASIN
  are dropped, and so are offers whose ASIN is already stored or already taken earlier in the
  batch.
- **Sent history** (`Deduplication`): a class over a table of sent products, one row per ASIN. It
  supports insert-or-ignore, membership, filtering of new products, eviction down to the 100 rows
  sent last, listing, clearing and closing.
- **Delivery** (`Delivery`, `Messages`): the bot remembers the links it has sent, shuffles the
  new products (Fisher–Yates) and sends at most five, one by one, with a pause between two sends.
  The text helpers format phone numbers, clean message text and shorten titles.

Shared pieces live in `Wrappers` (Option/Result), `Sequences` (filter, map and subsequences),
`Text` (character classes, lower-casing, trimming) and `Offers` (the product records).

Prices and scores are `real`. `toFixed(2)` followed by `parseFloat` is rounding half up to two
decimals, and `Math.round` is `floor(x + 1/2)`. Randomness, the page checks, the connection check
and each send's success are parameters: a draw function, a list of check outcomes, a connection
value and a per-send oracle.

The sent history is keyed by ASIN (`src/services/deduplication.js:39`, `:87-92`), and before
sending only availability is checked (`src/pages/goldbox.js:390-448`).

## Model

| member | source | states |
|---|---|---|
| Text.ToLower | src/pages/goldbox.js:225 | lower-casing keeps the length and maps each character by the per-character lower-casing |
| Text.LowerNeverContainsUnlowered | src/pages/goldbox.js:225-230 | a keyword holding a character that lower-casing changes never occurs in a lower-cased title |
| Sequences.Filter | src/services/zapiService.js:208 | `filter`, and `replace` with a character-class pattern: every kept element passes, and an element occurs in the result iff it occurs in the input and passes |
| Sequences.FilterCounts | src/services/zapiService.js:494 | every passing element is kept exactly as often as it occurs in the input |
| Sequences.FilterInOrder | src/services/zapiService.js:494 | the kept elements are a subsequence of the input: the filter never reorders |
| Sequences.Map | src/pages/goldbox.js:246-249 | `map` gives one image per element, at the same index |
| Sequences.MapMembers | src/pages/goldbox.js:246-249 | the elements of a mapped list are exactly the images of the input's elements |
| Sequences.FilterAppend | src/extractors/extractor.js:30 | filtering distributes over concatenation |
| Sequences.FilterFilter | src/services/zapiService.js:445-446 | filtering by one condition and then another is filtering once by both |
| Text.Trim | src/services/zapiService.js:394 | trimming leaves no whitespace at either end and never lengthens; Text.TrimIsSlice states what it removes |
| Text.TrimIsSlice | src/services/zapiService.js:394 | the trimmed text is the slice of the input between a whitespace-only prefix and a whitespace-only suffix, so trimming removes whitespace at the ends and nothing else |
| Extractor.DiscountZeroFallback | src/extractors/extractor.js:8 | a missing or zero price, or a price that did not drop, gives discount 0 |
| Extractor.DiscountOfDrop | src/extractors/extractor.js:9 | for 0 < current < old the discount is the percentage drop rounded to two decimals, within 0.005 of the exact drop, and lies in [0, 100] |
| Extractor.FirstMatch | src/extractors/extractor.js:18 | the result is the leftmost index at which the pattern matches, or none when it matches nowhere |
| Extractor.ExtractAsin | src/extractors/extractor.js:17-20 | a found ASIN is ten characters of `[A-Z0-9]` |
| Extractor.ExtractAsinLeftmost | src/extractors/extractor.js:18-19 | an ASIN is found iff one of the two patterns matches; it is the capture of the leftmost `/dp/` match, and only without any `/dp/` match the leftmost `/gp/product/` one |
| Extractor.DigitsAndCommas | src/extractors/extractor.js:30 | the cleaned text holds only digits and commas and is no longer than the input |
| Extractor.DigitRun | src/extractors/extractor.js:31 | the longest prefix of digits: all digits, a prefix, followed by a non-digit or the end |
| Extractor.ParsePrice | src/extractors/extractor.js:27-32 | a missing or empty string gives null, and a non-null price is strictly positive |
| Extractor.ParseFloatDecimal | src/extractors/extractor.js:31 | `parseFloat` of `digits.digits` followed by a comma or nothing reads that decimal number |
| Extractor.ParsePriceDecimal | src/extractors/extractor.js:30-31 | a price whose cleaned text is `w,f` (maybe followed by another comma) reads as `w.f`: only the first comma becomes the decimal point |
| Extractor.ParsePriceWhole | src/extractors/extractor.js:30-31 | a price with no comma reads as the whole number its digits spell, so a thousands point is dropped |
| Extractor.GroupedDigits | src/extractors/extractor.js:30 | cleaning `prefix t.hhh,cc` leaves `thhh,cc` when the prefix has no digit and no comma |
| Extractor.ParsePriceBrazilian | src/extractors/extractor.js:27-32 | `R$ t.hhh,cc` parses as the decimal number `thhh.cc` |
| Extractor.ParsePriceBrazilianExample | src/extractors/extractor.js:27-32 | "R$ 1.234,56" parses as 1234.56 |
| Affiliate.BuildAffiliateLink | src/services/amazonAffiliate.service.js:8-16 | a blank ASIN is the first error, then a blank tag; otherwise the link is exactly base + ASIN + `/?tag=` + tag |
| Affiliate.NoSegmentInHost | src/services/amazonAffiliate.service.js:16 | no `/dp/` match starts inside the host part of a built link |
| Affiliate.ExtractAsinOfAffiliateLink | src/services/amazonAffiliate.service.js:16 | round trip: the extractor reads back the ASIN a link was built from |
| Goldbox.AffiliateTag | src/pages/goldbox.js:7 | the tag is the environment's when set and non-empty, else the default; never empty |
| Goldbox.MapProducts | src/pages/goldbox.js:177-203 | one product per fragment, each mapped in place |
| Goldbox.MappedLink | src/pages/goldbox.js:184-191 | the product link is the affiliate link exactly when an ASIN was extracted, else the scraped link |
| Goldbox.MappedLinkKeepsAsin | src/pages/goldbox.js:181-191 | rewriting the link does not change the ASIN the link yields |
| Goldbox.MappedDiscountInRange | src/pages/goldbox.js:178-180 | a mapped price is null or positive and the discount lies in [0, 100] |
| Goldbox.FilterProducts | src/pages/goldbox.js:208-233 | the kept products are exactly the input's products that pass the filter, each as often as it occurs, in extraction order |
| Goldbox.PassesFilterIff | src/pages/goldbox.js:208-233 | a product passes iff its price is present and in [20, 1500], its discount is at least 25, it is Prime when required, and no blocked keyword occurs in its lower-cased title |
| Goldbox.CapitalisedKeywordNeverMatches | src/pages/goldbox.js:92-97 | the keyword "Matemática" holds a capital letter and never matches a lower-cased title |
| Goldbox.CalculateProductScore | src/pages/goldbox.js:305-323 | the accumulated score equals the tiered score and lies in [10, 100] for a discount in [0, 100] |
| Goldbox.ScoreBounds | src/pages/goldbox.js:305-323 | for a discount in [0, 100] the score lies in [10, 100] |
| Goldbox.ScoreMonotoneInDiscount | src/pages/goldbox.js:309-312 | a larger discount never lowers the score |
| Goldbox.ScoreExample | src/pages/goldbox.js:309-322 | old price 100, price 70, not Prime: discount 30, passes the filter, score 60, survives the cut |
| Goldbox.ScoreAndCut | src/pages/goldbox.js:246-249 | every kept product carries its score, at least 60, and comes from the input; every input product scoring at least 60 is kept with its score, as often as it occurs and in input order |
| Goldbox.InsertByScore | src/pages/goldbox.js:251 | one insertion step adds exactly the element |
| Goldbox.InsertKeepsSorted | src/pages/goldbox.js:251 | inserting keeps the list in descending score order |
| Goldbox.InsertWithKey | src/pages/goldbox.js:251 | inserting keeps the relative order of the elements of every score |
| Goldbox.SortByScoreDesc | src/pages/goldbox.js:251 | the sort is a permutation, descending by score, and stable: the elements of each score keep their order |
| Goldbox.CandidatesQualified | src/pages/goldbox.js:208-251 | every candidate has a price in [20, 1500], a discount of at least 25 and a score of at least 60, and the candidates are sorted |
| Goldbox.CandidatesComplete | src/pages/goldbox.js:208-251 | every scraped product that passes the filter and scores at least 60 is a candidate, and the candidates are a permutation of the score cut of the filtered products |
| Goldbox.CandidatesStable | src/pages/goldbox.js:246-251 | candidates with equal scores keep extraction order: those of each score are a subsequence of the scraped products with their scores |
| Goldbox.ValidateSingleProduct | src/pages/goldbox.js:390-448 | a check counts as available only on a yes; a throw counts as no |
| Goldbox.PacedShape | src/pages/goldbox.js:373-379 | the check schedule checks indices in order and pauses exactly between two checks, never after the last |
| Goldbox.ValidateProductsIntelligent | src/pages/goldbox.js:328-385 | the loop returns the first (at most 8) available products among the first min(n, 12), and its checks and pauses follow the schedule up to the check that reaches 8 |
| Goldbox.AvailableOfPrefix | src/pages/goldbox.js:348-356 | what a shorter run finds is a prefix of what a longer run finds |
| Goldbox.BreakAtTarget | src/pages/goldbox.js:352-356 | stopping at 8 returns the first 8 products the full budget would find |
| Goldbox.ChecksMadeStopsOnlyAtTarget | src/pages/goldbox.js:332-356 | the loop never checks more than the budget, and it stops early only after 8 yes answers |
| Goldbox.ScrapeGoldbox | src/pages/goldbox.js:246-267 | the page result is the validated prefix of the ranked candidates, at most 8, all among the candidates |
| Goldbox.ValidatedAmong | src/pages/goldbox.js:328-385 | every validated product is one of the products handed to the loop |
| Storage.MergeOffers | src/storage/storage.js:16-25 | the merged list is the stored list unchanged, followed by the batch's accepted offers |
| Storage.SaveOffers | src/storage/storage.js:6-32 | an archive that is not a list makes the save throw before writing, so it stays as it was; otherwise an unreadable archive counts as empty and a successful write stores the merge, a write that fails before truncating leaves the archive as it was, and one that fails after truncating leaves it unreadable |
| Storage.UniqueNewAccepted | src/storage/storage.js:18-23 | every appended offer comes from the batch, has an ASIN, and its ASIN was not stored |
| Storage.UniqueNewDistinct | src/storage/storage.js:21 | no two appended offers share an ASIN |
| Storage.UniqueNewKeepsFirst | src/storage/storage.js:18-23 | the first offer of the batch with an untaken ASIN is appended |
| Storage.UniqueNewInOrder | src/storage/storage.js:18-23 | appended offers keep their relative order |
| Storage.UniqueNewCovers | src/storage/storage.js:16-23 | after a save every ASIN of the batch is stored |
| Storage.UniqueNewAllTaken | src/storage/storage.js:16-23 | a batch whose ASINs are all stored appends nothing |
| Storage.SaveTwiceAppendsNothing | src/storage/storage.js:16-25 | saving the same batch again appends nothing |
| Deduplication.StateError | src/services/deduplication.js:12 | a query before `initialize` fails for the missing handle; one on a closed handle fails as closed |
| Deduplication.RowFor | src/services/deduplication.js:122-133 | the stored row: title cut to 200 or "Sem título", price 0 when falsy, "Sem categoria" when missing |
| Deduplication.InsertOrIgnore | src/services/deduplication.js:115-133 | inserting never changes the rows already in the table |
| Deduplication.Evict | src/services/deduplication.js:151-173 | eviction keeps the last min(n, 100) rows of the table |
| Deduplication.NewProducts | src/services/deduplication.js:81-104 | each kept product comes from the input, has an ASIN, and that ASIN is not in the table |
| Deduplication.RecentLimit | src/services/deduplication.js:201-208 | a non-negative `LIMIT` returns min(limit, n) rows of n, and a negative one returns all n |
| Deduplication.NewestFirst | src/services/deduplication.js:203-207 | the listing has as many entries as the limit allows |
| Deduplication.DeduplicationService.constructor | src/services/deduplication.js:10-14 | a new service has no handle and the file's table |
| Deduplication.DeduplicationService.Initialize | src/services/deduplication.js:19-57 | a successful open leaves the handle open; a failed one rejects; the table is unchanged |
| Deduplication.DeduplicationService.WasRecentlySent | src/services/deduplication.js:62-75 | on an open table, true iff some row has the ASIN; otherwise it rejects |
| Deduplication.DeduplicationService.FilterNewProducts | src/services/deduplication.js:81-104 | on an open table, the products with an ASIN not in the table, in order; otherwise it rejects at the first product with an ASIN |
| Deduplication.DeduplicationService.MarkAsSent | src/services/deduplication.js:109-146 | an empty list does nothing; otherwise insert-or-ignore each product with an ASIN, stamped now, then evict; the table stays well formed |
| Deduplication.DeduplicationService.CleanOldEntries | src/services/deduplication.js:151-173 | on an open table the rows become the evicted table; the invariant is kept |
| Deduplication.DeduplicationService.GetRecentProducts | src/services/deduplication.js:201-216 | on an open table the last `limit` rows, newest first, with `limit` 10 when the caller gives none; otherwise it rejects |
| Deduplication.DeduplicationService.ClearHistory | src/services/deduplication.js:221-232 | on an open table every row is deleted and the id sequence is kept |
| Deduplication.DeduplicationService.Close | src/services/deduplication.js:237-252 | without a handle close resolves and does nothing; an open handle is closed; a closed one rejects |
| Deduplication.InsertOneKeeps | src/services/deduplication.js:37-45 | inserting a new ASIN keeps ASINs unique, ids increasing and the clock non-decreasing |
| Deduplication.InsertOrIgnoreKeeps | src/services/deduplication.js:115-133 | the inserts keep the table well formed, and the next id moves on by the number of rows inserted |
| Deduplication.InsertOrIgnoreCovers | src/services/deduplication.js:115-133 | after the inserts every ASIN of the batch has a row |
| Deduplication.InsertOrIgnoreNewRows | src/services/deduplication.js:115-133 | each inserted row is stamped now and has an ASIN of the batch that was not stored; a stored ASIN keeps its old row |
| Deduplication.EvictKeepsInvariant | src/services/deduplication.js:151-160 | eviction keeps the table well formed |
| Deduplication.EvictKeepsLatest | src/services/deduplication.js:151-160 | every kept row was sent no earlier than any evicted row |
| Deduplication.NewProductsInOrder | src/services/deduplication.js:81-104 | the filter keeps the order of its input |
| Deduplication.NewProductsComplete | src/services/deduplication.js:86-98 | every product with an ASIN not in the table is kept |
| Deduplication.NewProductsAllStored | src/services/deduplication.js:86-98 | a batch whose ASINs all have rows has nothing new |
| Deduplication.MarkThenFilterFindsNothing | src/services/deduplication.js:109-146 | filtering a batch right after marking it finds nothing new, provided the eviction deleted none of the rows that carry the batch's ASINs |
| Deduplication.InsertOrIgnoreGrowth | src/services/deduplication.js:115-133 | a batch adds at most one row per product |
| Deduplication.NewRowsSurviveEviction | src/services/deduplication.js:109-160 | a batch of at most 100 products loses none of the rows it inserts to the eviction: every ASIN of the batch that was not stored is stored afterwards |
| Deduplication.StoredAsinCanBeEvicted | src/services/deduplication.js:109-160 | the proviso above is needed: on a full table, a batch whose first ASIN is the oldest row's and whose second is new evicts that row, and filtering the batch again returns its first product |
| Deduplication.NewestFirstRows | src/services/deduplication.js:203-207 | the i-th entry listed is the i-th row from the end of the table |
| Deduplication.NewestFirstOrdered | src/services/deduplication.js:203-207 | the listing is newest first, and no row left out was sent later than one listed |
| Messages.FormatPhone | src/services/zapiService.js:203-215 | a group id is returned unchanged; otherwise the digits only, with 55 in front unless they start with 55 |
| Messages.DigitsAreNoGroup | src/services/zapiService.js:204-208 | a string of digits never contains the group suffix |
| Messages.FormatPhoneIdempotent | src/services/zapiService.js:203-215 | formatting twice is formatting once |
| Messages.CollapseWhitespace | src/services/zapiService.js:446 | the result has single plain spaces only, is empty iff the input is, and starts with whitespace iff the input does |
| Messages.TrimmedSlice | src/services/zapiService.js:447 | trimming keeps ASCII-only and single-spaced text so |
| Messages.CleanText | src/services/zapiService.js:443-448 | cleaned text is ASCII only, single-spaced and trimmed, and its non-whitespace characters are exactly the input's ASCII non-whitespace characters, in order |
| Messages.TrimKeepsWords | src/services/zapiService.js:447 | trimming keeps every non-whitespace character, in order |
| Messages.CollapseIsSqueezed | src/services/zapiService.js:446 | collapsing equals a one-pass reference that emits one space at the start of each whitespace run and copies every other character |
| Messages.CollapseKeepsWords | src/services/zapiService.js:446 | collapsing keeps every non-whitespace character, in order |
| Messages.CleanTextIsSqueezed | src/services/zapiService.js:443-448 | cleaning is: drop the non-ASCII characters, squeeze each whitespace run to one space, trim |
| Messages.CollapseFixed | src/services/zapiService.js:446 | collapsing single-spaced text changes nothing |
| Messages.CleanTextIdempotent | src/services/zapiService.js:443-448 | cleaning twice is cleaning once |
| Messages.Split | src/services/zapiService.js:359 | splitting on spaces gives at least one piece and no piece holds a space |
| Messages.JoinSplit | src/services/zapiService.js:359-370 | joining the pieces of a split gives the string back |
| Messages.DedupSameLower | src/services/zapiService.js:363-368 | only the lower-cased last word matters to the loop |
| Messages.DedupIsRunHeads | src/services/zapiService.js:363-368 | the loop keeps exactly the first word of each run of words equal ignoring case |
| Messages.DedupNoRepeats | src/services/zapiService.js:363-368 | no two adjacent kept words are equal ignoring case |
| Messages.LastIndexOf | src/services/zapiService.js:388 | the last index of the character, or -1 when it does not occur |
| Messages.Shorten | src/services/zapiService.js:386-394 | the result has at most 70 characters; a text of at most 70 is only trimmed; a longer one is cut before its last space among the first 70 characters when that space is at an index above 40, else after 70 characters, and then trimmed |
| Messages.SummarizeTitle | src/services/zapiService.js:358-395 | the summary is the shortened, stripped join of the de-duplicated words, and has at most 70 characters |
| Delivery.Swap | src/services/zapiService.js:273 | the two elements are exchanged and nothing else moves |
| Delivery.SwapPermutes | src/services/zapiService.js:273 | a swap keeps every element |
| Delivery.PickIndex | src/services/zapiService.js:272 | the drawn index lies in [0, i] |
| Delivery.ShuffleDownPermutes | src/services/zapiService.js:271-274 | the swaps from i down to 1 keep every element |
| Delivery.ShuffledPermutes | src/services/zapiService.js:269-276 | whatever the draws, the shuffle is a permutation of its input |
| Delivery.ShuffleArray | src/services/zapiService.js:269-276 | the copy shuffled in place is the specified shuffle of the input, a permutation of it |
| Delivery.Unsent | src/services/zapiService.js:494 | a product is kept iff it is in the input and its link was not sent |
| Delivery.UnsentExact | src/services/zapiService.js:494 | every product with an unsent link is kept exactly as often as it occurs, and the kept products keep their order |
| Delivery.Batch | src/services/zapiService.js:494-503 | a round takes min(new, 5) products, all from the input and with links not yet sent |
| Delivery.FirstFailure | src/services/zapiService.js:507-526 | every send before the result returns, and the send at the result, if any, throws |
| Delivery.AmazonDealsBot.constructor | src/services/zapiService.js:455-470 | a new bot has sent no links |
| Delivery.AmazonDealsBot.SendDealsToGroup | src/services/zapiService.js:478-555 | a failed or negative connection check sends nothing; no new product sends nothing; otherwise the batch is sent in schedule until the first send that throws, and exactly the links whose send returned are recorded |
| Delivery.AmazonDealsBot.SendEach | src/services/zapiService.js:507-535 | the sends and pauses follow the schedule up to the first failing send, and the recorded links are those of the sends that returned |
| Delivery.AmazonDealsBot.ClearSentLinks | src/services/zapiService.js:604-607 | the sent links are forgotten |
| Delivery.ScheduleShape | src/services/zapiService.js:507-535 | sends go in batch order, with a pause exactly between two sends and none after the last |
| Delivery.NeverResends | src/services/zapiService.js:494-503 | no send of a round goes to a link sent before the round, and a round has at most five sends |
| Delivery.UnsentEmptyIff | src/services/zapiService.js:494-499 | nothing is new iff every product's link was already sent |
| Delivery.DuplicatesNotFiltered | src/services/zapiService.js:494 | two products with the same new link in one call are both sent |

## Left out

- Browser automation is not modelled: the page navigation, DOM scraping, scrolling and the
  availability check itself. The scraped fragments and each check's outcome are inputs.
- HTTP is not modelled: the connection check, the image and text sends, group listing and the
  test script. Each is a parameter: a connection value and a per-send success oracle.
- Message rendering is not modelled: the product, list and summary message templates, emojis,
  greetings and the random delays. They are random choices and float formatting. The model
  assumes that formatting a product message does not throw.
- IEEE-754 doubles are not modelled. Prices are `real`, and `toFixed`/`Math.round` are the exact
  roundings above.
- Messages.SummarizeTitle: the regular expressions that strip the redundant patterns are an
  opaque `strip` parameter. The model proves nothing about what they remove.
- Text.ToLower: lower-casing covers ASCII and the Latin-1 capitals only, not all of Unicode.
  Strings are sequences of characters, not UTF-16 code units.
- SQLite and the JSON file are not modelled beyond what they hold: the table is a sequence of
  rows in insertion order and the archive a sequence of offers. Directory creation, `getStats`
  and the table creation are left out.
- Deduplication.Evict: with equal `sent_at` values the engine may evict any of the tied rows. The
  model keeps the table's tail, which is one of the allowed choices;
  Deduplication.EvictKeepsLatest states the property that every choice shares.
- Deduplication.DeduplicationService.Initialize: a failed open is modelled as a handle that every
  later query rejects. Concurrent queries and engine errors other than a closed or missing
  handle are not modelled.
- Deduplication.DeduplicationService.MarkAsSent: the clock is a parameter that must not run
  behind the stored rows, and one stamp serves the whole batch, where the engine stamps each
  insert on its own and stamps within a batch may differ across a second boundary. Eviction and
  listing come out the same either way, since stamps still never decrease along the table.
- Delivery.PickIndex: `Math.random()` is an injected draw `rand(i)`, reduced into [0, i].
- Delivery.AmazonDealsBot.constructor: the check of the group id in the environment and the
  debug flag are not modelled.
- Text.Trim: its own contract states only the ends of the result and its length; that exactly the
  leading and trailing whitespace is removed is the separate lemma Text.TrimIsSlice, kept apart
  because the quantified statement slows every proof that uses trimming.
- Messages.CollapseWhitespace: its own contract states the shape of the result; that each
  whitespace run becomes one space and every other character is kept in order is stated by
  Messages.CollapseIsSqueezed and Messages.CollapseKeepsWords.
- Storage.SaveOffers: a null batch and a stored list holding `null` elements make the source throw
  and swallow the error without writing; neither is modelled, because offers here are records.
- Deduplication.NewestFirst: `ORDER BY sent_at DESC` leaves the order of rows with equal
  `sent_at` to the engine, and the stamp has one-second resolution. The model lists ties from the
  last inserted backwards, which is one of the allowed orders; Deduplication.NewestFirstOrdered
  states what every order shares.
- Deduplication.DeduplicationService.GetRecentProducts: the same tie order as
  Deduplication.NewestFirst is pinned.
- The scheduler, the observer, the history command-line tool, coupon scraping and
  `scrapeMultipleCategories` are process wiring or random choices, and are not modelled.
