# Amazon product harvester and normaliser: field-level model

The repository has two parts:

- a harvester (`scraper_script.py`) that walks Amazon search pages, reads each product page and its reviews page, and writes one JSON object per product;
- a normaliser (`data_processing_script.py`) that loads that file into a pandas table, rewrites it column by column, and inserts it row by row into PostgreSQL.

This Dafny project models the deterministic text and record logic of both scripts. It also proves what that logic promises.

**Harvester parsers.** The harvester reads text from these places:

- the review count, with its "K+" branch (`ReviewCount`);
- the price figure (`Price`);
- the title and rating text (`Harvest`);
- the review-title cleanup and the helpful-vote and star-rating parses (`ReviewText`);
- the post date behind "on " (`PostDate`).

**Review record.** `ExtraParameters` shapes the review fields of a product: up to five general reviews, the Top_Positive and Critical viewpoints, and their defaults.

**Harvest loop.** `Harvest` models the loop itself: non-blank ASINs and the seen-identifier set.

**Normaliser.** The normaliser works on a table of cells:

- `Cells` holds one rule per column class;
- `Table` holds loading, padding to 42 columns, keep-first `drop_duplicates` and column drops;
- `Normalise` composes the passes in script order and proves them equal to a column-by-column reference;
- `CleanFormat` is `clean_format_data`, which maps a row to the 46-value insert tuple;
- `Insert` covers the insert query, its placeholder count and the insert loop.

**Cross-script properties.** `Pipeline` connects the two scripts: what the harvester's dates, defaults and ASINs become in the table.

**Values.** A cell is `Json.Value`: `Text`, `Number` (an exact `real`) or `Null`. `Null` stands for JSON `null`, Python `None`, pandas `NaN`/`NaT` and an absent key alike. The modelled passes treat them alike with one exception, the list membership test of `clean_format_data` on the Critical comment, which is listed under "Left out".

**External inputs.** Page elements are given as `Option<string>` (`None` where the lookup found nothing). `w2n.word_to_num` is a parameter (`WordToNum`). An exception the script does not catch is an `Err` result.

**Code vs. description.** Where the repository's own description and its code differ, the model follows the code:

- A missing date element is stored as `None`; only an unparseable one becomes "-" (`PostDate.ExtractPostDate`).
- The normaliser is not fault-tolerant. A required column absent from the whole file raises `KeyError` at module level (`Normalise.NormalizeFrame`). So does a row that lacks a column `clean_format_data` reads (`CleanFormat.RowTuple`), because that call is outside the `try`.
- One failing field read inside `scrape_extra_parameters` drops every review field of the product, not just that field (`ExtraParameters.ScrapeExtraParameters`).
- The Top_Positive comment slot of the insert tuple is read from the Critical comment column. This is modelled as written (`CleanFormat.TopPositiveCommentSlot`).

## Model

| member | source | states |
|---|---|---|
| ReviewCount.GetReviewCount | scraper_script.py:257-264 | a missing element, or text the parser rejects, yields 0; any other result is what `process_review_count` computes from the stripped text |
| ReviewCount.CountRoundTrip | scraper_script.py:273-275 | the page text "N ratings" (digits grouped by commas) reads back as N |
| ReviewCount.GroupedCountRoundTrip | scraper_script.py:273-275 | commas and the word "ratings" are removed before the integer parse, so "1,234 ratings" gives 1234 |
| ReviewCount.ThousandsRoundTrip | scraper_script.py:269-271 | "D.cK+" gives D*1000 + c*100, so "4.5K+" gives 4500 |
| ReviewCount.CommaBreaksThousands | scraper_script.py:262-271 | the "K+" branch keeps commas, so "1,2K+" fails to parse and yields 0 |
| ReviewCount.SingularRatingIsZero | scraper_script.py:262-275 | "N rating" keeps the word "rating", is not an integer, and yields 0 |
| Price.GetPrice | scraper_script.py:224-240 | the result is "" or a figure of the form digits-and-commas, a point, two digits; no element gives "" |
| Price.GetPriceLeftmost | scraper_script.py:227-237 | on the element read (`aok-offscreen`, else `a-offscreen`), the price is "" exactly when no "$" of its text starts a figure, and otherwise the figure after the leftmost "$" that starts one |
| Price.SearchAmountLeftmost | scraper_script.py:233 | `re.search` finds no match exactly when no "$" starts a figure, and otherwise the figure after the leftmost "$" that starts one |
| Price.AmountAtNone | scraper_script.py:233 | the group fails after a "$" exactly when no prefix of the following text has the figure's form |
| Price.AmountAtExact | scraper_script.py:233 | a figure at the start of the text is the one the group matches, whatever follows it |
| Price.FirstDollarFigure | scraper_script.py:233-235 | when the text's first "$" is followed by a figure, that figure is the price, without the "$" |
| Price.BareDollarSkipped | scraper_script.py:233-235 | a "$" with no figure after it is passed over for a later one: "$x $1.00" gives "1.00" |
| Price.DollarWithoutFigure | scraper_script.py:233-237 | a "$" that starts no figure gives no match: "$5 only" gives "" |
| Price.OffscreenFirst | scraper_script.py:227-237 | the first element is read when present, the fallback only when it is missing, and an element with no "$" figure gives "" even when the fallback has one |
| Price.NoDollarNoPrice | scraper_script.py:233-237 | text without "$" yields "" |
| Harvest.GetTitle | scraper_script.py:216-222 | a missing title is ""; a found one is trimmed at both ends |
| Harvest.GetRating | scraper_script.py:243-253 | no element found gives ""; otherwise the result comes from the first element only, is no longer than its text and is trimmed at both ends |
| Harvest.TitleKept | scraper_script.py:219 | a title padded with whitespace comes back as exactly the text between the padding |
| Harvest.TitleCuts | scraper_script.py:219 | the title drops only whitespace: the element text is the title with a run of whitespace on each side |
| Harvest.RatingKept | scraper_script.py:248 | the first element's text, padded with whitespace, comes back as exactly the text between the padding, whatever later elements hold |
| Harvest.RatingCuts | scraper_script.py:248 | the rating drops only whitespace: the first element's text is the rating with a run of whitespace on each side |
| ReviewText.RatedTitle | scraper_script.py:67-80 | a leading "k out of 5 stars" line (whole or fractional k) is removed and the title after it, a title without digits, is kept whole |
| ReviewText.NoDigitsUnchanged | scraper_script.py:78 | a title without digits is left unchanged |
| ReviewText.LeadingCount | scraper_script.py:149-157 | vote text that is a number printed without leading zeros, then text that starts with a non-digit and ends in a non-space, yields that number (any digit run: LeadingDigits) |
| ReviewText.LeadingDigits | scraper_script.py:149-157 | any digit run, leading zeros and surrounding whitespace allowed, then text that starts with a non-digit, yields the value of that run |
| ReviewText.WordCount | scraper_script.py:158-160 | vote text that does not start with a digit yields the word-to-number value of its first word |
| ReviewText.FeaturedHelpful | scraper_script.py:149-165 | a missing vote element counts 0; a leading digit run gives a non-negative count |
| ReviewText.GeneralHelpful | scraper_script.py:82-85 | a missing vote element counts 0; blank vote text has no first word and raises |
| ReviewText.GeneralWordCount | scraper_script.py:83-84 | a general review's count is word_to_num of the first whitespace-separated word, whatever whitespace precedes it and whatever follows it |
| ReviewText.GeneralDigitCount | scraper_script.py:83-84 | "12 people found this helpful" gives word_to_num("12") on a general review, which reads no digits itself, but 12 on a featured one |
| ReviewText.StarRating | scraper_script.py:63-64 | a missing rating element is 0.0; blank rating text raises (the same read of a featured review is at lines 197-199) |
| ReviewText.StarRatingOfText | scraper_script.py:63-64 | "D.c out of 5 stars" gives the rating D.c |
| PostDate.ExtractPostDate | scraper_script.py:91-107 | a missing element gives `None`; otherwise the result is "-" or the `isoformat()` of midnight on a valid date (the same code is repeated at lines 178-194) |
| PostDate.PostDateRoundTrip | scraper_script.py:91-98 | a line "... on March 1, 2023" gives "2023-03-01T00:00:00": the text after the leftmost "on " parses as month name, day, comma, year (repeated at lines 178-185) |
| PostDate.InvalidDateIsDash | scraper_script.py:96-101 | a line naming a day its month lacks gives "-" (repeated at lines 183-188) |
| PostDate.FebruaryThirtiethIsDash | scraper_script.py:96-101 | "February 30, YYYY" gives "-" |
| PostDate.NoMarkerIsDash | scraper_script.py:102-104 | text with no "on " gives "-" (repeated at lines 189-191) |
| PostDate.MonthPrefixOf | scraper_script.py:97 | each full month name is recognised as its own month (case-insensitively, `%B`) |
| ExtraParameters.SetDefaultValues | scraper_script.py:204-214 | exactly the seven keys of the review type; 'None' for ID, name, comment and title, zero influence and rating, no date |
| ExtraParameters.ReadGeneralReview | scraper_script.py:59-107 | a block fails exactly when its rating or vote read raises; a missing id is 'None', the comment is the cleaned title, missing rating and votes are 0, and the date is missing exactly when its element is |
| ExtraParameters.GeneralReviews | scraper_script.py:59-107 | with no failure, blocks 1..n give exactly the keys `Customer_i_{ID,Star_Rating,Comment,buying_influence,Date}` for i in 1..n; any failing block gives nothing |
| ExtraParameters.ReadViewpoint | scraper_script.py:132-202 | a viewpoint fails exactly when its vote or rating read raises; missing votes count 0, a missing rating is 0.0, and the date is missing exactly when its element is |
| ExtraParameters.ViewpointIdStripped | scraper_script.py:136-137 | the id "viewpoint-X" is stored as X |
| ExtraParameters.MissingViewpointId | scraper_script.py:136 | a viewpoint without an id is stored as 'None' |
| ExtraParameters.ExtractSpecificReview | scraper_script.py:132-202 | a viewpoint that reads gives exactly the seven keys of its review type |
| ExtraParameters.FeaturedReview | scraper_script.py:111-124 | a page with too few viewpoints gives the defaults of that review type |
| ExtraParameters.FirstGeneralReviews | scraper_script.py:56-59 | only the first five review blocks are read, and they give the keys of reviews 1..min(n, 5) |
| ExtraParameters.ScrapeExtraParameters | scraper_script.py:43-130 | no fields at all when the page timed out or any read raised; otherwise exactly the keys of the first min(n, 5) general reviews and both featured reviews, and never a product-detail key |
| ExtraParameters.ExtraGeneralFields | scraper_script.py:59-107 | on a page whose reads raise nothing, each general key holds the value read from its own block (block i for `Customer_i_*`) |
| ExtraParameters.ExtraFeaturedFields | scraper_script.py:111-124 | on a page whose reads raise nothing, Top_Positive is read from the first viewpoint and Critical from the second, or from the defaults when that viewpoint is absent |
| RecordKeys.KeyNameInjective | scraper_script.py:137-200 | no two record keys share a column name, so each field has its own column (the general keys are written at lines 60-107) |
| Harvest.ExtractAsins | scraper_script.py:339-349 | an attribute value is kept exactly when it is not blank; values are not trimmed |
| Harvest.AsinsNotEmpty | scraper_script.py:347 | an extracted ASIN is never empty, so the loop's emptiness test never rejects one (the emptiness test is at line 380) |
| Harvest.ProductDetails | scraper_script.py:279-301 | exactly the seven detail keys, with `Product_ID` the ASIN, `category` the category and `url` the reviews page (called at line 375) |
| Harvest.ExtraKeepsDetails | scraper_script.py:383-384 | the review fields never overwrite a product detail |
| Harvest.CollectProducts | scraper_script.py:372-385 | the loop returns the records of the first visit of each ASIN that reaches the seen test, in loop order |
| Harvest.HarvestFacts | scraper_script.py:379-385 | no more records than visits; every record has a `Product_ID`; no two share one; every ASIN whose page loaded is present |
| Harvest.ScrapeAmazon | scraper_script.py:351-391 | the same facts for the harvest with the real record builder |
| Dedup.KeepFirstIsFirsts | data_processing_script.py:70 | keep-first deduplication keeps exactly the elements that are first with their key, in order |
| Dedup.KeepFirstDistinct | data_processing_script.py:70 | after deduplication no two elements share a key |
| Dedup.KeepFirstKeys | data_processing_script.py:70 | deduplication keeps the set of keys |
| Dedup.KeepFirstOfDistinct | data_processing_script.py:70 | input with distinct keys is kept whole |
| Cells.CleanFeaturedCell | data_processing_script.py:23-25 | the cell becomes "Unavailable" exactly when it is a null token, missing, exactly "(" or ")", or already "Unavailable"; otherwise it is unchanged (the token list is at line 14) |
| Cells.CleanFeaturedIdempotent | data_processing_script.py:23-25 | cleaning a featured cell twice is the same as once |
| Cells.FillNone | data_processing_script.py:64-65 | only a missing value changes, and it becomes "None" |
| Cells.FillUnavailable | data_processing_script.py:73-75 | only a missing value changes, and it becomes "Unavailable" |
| Cells.CommentToken | data_processing_script.py:78-81 | every null token and missing value becomes "None"; anything else is unchanged |
| Cells.ZeroInfluence | data_processing_script.py:85-86 | exactly the texts '"NaN"', 'NaN' and 'None' become 0.0; nothing else changes |
| Cells.MissingInfluenceIsZero | data_processing_script.py:85-86 | a missing influence count ends as 0.0 (the fill is at lines 64-65) |
| Cells.NormalizeDate | data_processing_script.py:51-55 | the result is "1677-09-21" or the `YYYY-MM-DD` of a valid date |
| Cells.NormalizeIsoString | data_processing_script.py:53-55 | the `%Y-%m-%dT%H:%M:%S` text of a moment a pandas `Timestamp` can hold becomes its date |
| Cells.NormalizeDateOfText | data_processing_script.py:53-55 | a text that does not become "1677-09-21" is exactly the timestamp text of such a moment |
| Cells.NormalizeDateTwice | data_processing_script.py:53-55 | the pass is not idempotent: its own output becomes "1677-09-21" on a second pass |
| Calendar.TimestampRoundTrip | data_processing_script.py:53 | parsing the `isoformat()` text of an in-range moment gives that moment back |
| Calendar.TimestampExact | data_processing_script.py:53 | a string the parse accepts is the `isoformat()` text of the moment it denotes |
| Cells.FormatDate | data_processing_script.py:180-184 | a string with a `\d{4}-\d{2}-\d{2}` prefix is kept whole; anything else becomes "0001-01-01" |
| Cells.FormatNormalizedDate | data_processing_script.py:180-187 | `format_date` passes every normalised date through unchanged (the dates come from lines 51-55) |
| Table.Load | data_processing_script.py:11 | one column per key of any object and one row per object; every row holds every column, `NaN` where its object lacks the key |
| Table.Pad | data_processing_script.py:32-38 | a table of 42 or more columns is unchanged; a narrower one gains `Extra_Column_0` .. `Extra_Column_{41-w}`, all `None` |
| Table.PadWidth | data_processing_script.py:32-38 | after padding the width is max(w, 42) when no padding name was already a column |
| Table.DropDuplicatesFacts | data_processing_script.py:70 | `drop_duplicates` on a column leaves no two rows with the same cell, keeps the set of values and the columns, and keeps only input rows |
| Table.FirstMissing | data_processing_script.py:53-70 | `None` exactly when every looked-up column exists; otherwise the first missing one in lookup order |
| Normalise.NormalizeFrame | data_processing_script.py:17-90 | `KeyError` exactly when a column the passes look up without checking is missing, naming the first such column |
| Normalise.Normalise | data_processing_script.py:11-90 | on the loaded file, an error exactly when some required column occurs in no object |
| Normalise.NormalizeIsReference | data_processing_script.py:17-90 | the passes in script order equal the reference: the first row of each `Product_ID`, each column under its own rule, padding `None`, `review_responders` dropped |
| Normalise.ColumnRuleByKey | data_processing_script.py:17-90 | each harvested column ends under its class's rule: featured text cleaned, dates normalised, influence filled and zeroed, general comments filled and tokenised, general IDs filled, all others unchanged |
| Normalise.ReferenceShape | data_processing_script.py:89-90 | the output has the padded columns without `review_responders`, no more rows than the input, distinct `Product_ID`s and every input `Product_ID` (the padding is at lines 32-38 and the deduplication at line 70) |
| Normalise.ReferenceRows | data_processing_script.py:70 | each output row is the rewrite of an input row, and the first row of every `Product_ID` is among them |
| Normalise.ReferenceRectangular | data_processing_script.py:32-38 | every output row holds exactly the output columns (the drop is at lines 89-90) |
| Normalise.NormalizedColumns | data_processing_script.py:23-86 | in an output row: featured text is never a null token; dates are valid `YYYY-MM-DD` or "1677-09-21"; filled columns are never missing; a null-like general comment is "None" |
| CleanFormat.NoneToNull | data_processing_script.py:156-172 | a missing value or 'None' gives SQL NULL; anything else is unchanged |
| CleanFormat.NoneToZero | data_processing_script.py:163-173 | only 'None' changes, and it becomes 0 |
| CleanFormat.MissingToZero | data_processing_script.py:195-197 | only a missing value changes, and it becomes 0 (also lines 164 and 174) |
| CleanFormat.NoneTo | data_processing_script.py:194-198 | only 'None' changes, and it becomes the given default, which is never 'None' |
| CleanFormat.CriticalComment | data_processing_script.py:158-160 | a null-like Critical comment becomes "Unavailable"; anything else is unchanged |
| CleanFormat.TopPositiveComment | data_processing_script.py:169-171 | a null-like comment becomes NULL; anything else is unchanged |
| CleanFormat.RowTuple | data_processing_script.py:146-214 | `KeyError` exactly when the row lacks a column the function reads, naming the first in lookup order; otherwise 46 values |
| CleanFormat.AccessListReads | data_processing_script.py:146-199 | the columns looked up are every detail column, every featured column except the Top_Positive comment, and the five columns of each general review 1..5 |
| CleanFormat.RowTupleSlots | data_processing_script.py:202-208 | slot j holds the rule of the j-th insert column applied to the cell that slot reads |
| CleanFormat.TopPositiveCommentSlot | data_processing_script.py:158-171 | the Top_Positive comment slot is NULL exactly when the Critical comment is null-like, and otherwise equals the Critical comment slot |
| CleanFormat.FeaturedSlotAfterNormalise | data_processing_script.py:156-187 | after normalisation, a featured text slot is the cleaned cell, a date slot the normalised date, the influence the filled and zeroed count (the rules come from lines 23-65) |
| CleanFormat.GeneralSlotAfterNormalise | data_processing_script.py:194-198 | after normalisation: a general comment is "Unavailable" when null-like, a general ID is "Unavailable" when missing or 'None', and a date passes through (the rules come from lines 73-81) |
| Insert.InsertColumnsMatch | data_processing_script.py:223-228 | the insert query's column list is exactly the tuple's slot order (the tuple order is at lines 202-208) |
| Insert.QueryPlaceholders | data_processing_script.py:228-232 | the query has exactly 21 + 25 "%s" placeholders, equal to the tuple length |
| Insert.PlaceholdersCount | data_processing_script.py:228 | joining n "%s" gives n placeholders |
| Insert.ExecutedFacts | data_processing_script.py:234-266 | the loop succeeds exactly when no row raises, and then gives one tuple per row in row order |
| Insert.ExecutedStops | data_processing_script.py:234-235 | a row that raises ends the loop: later rows change nothing |
| Insert.InsertRows | data_processing_script.py:232-266 | the loop executes every row's tuple, never skipping one for emptiness or a length mismatch, or stops at the first `KeyError` |
| Insert.ExecuteEach | data_processing_script.py:234-266 | for any row builder whose tuples all have the placeholder count, the loop with its two skip tests hands on the same tuples as the reference `Executed`, and stops at the first raising row |
| Insert.ExecutedOnTable | data_processing_script.py:234-235 | on a non-empty table, the loop succeeds exactly when the table has every column `clean_format_data` reads (the lookups are at lines 146-199) |
| Pipeline.HarvestedDateNormalised | data_processing_script.py:51-55 | a stored "-" or missing date becomes "1677-09-21"; a stored midnight becomes its date when in `Timestamp` range; "-" never reaches the table (the harvester writes the date at lines 98-107 of scraper_script.py) |
| Pipeline.PostDateReachesTable | scraper_script.py:91-98 | "... on March 1, 2023" reaches the table and the insert as "2023-03-01" (the normaliser reads it at lines 51-55 and 180-187 of data_processing_script.py) |
| Pipeline.DefaultsNormalised | scraper_script.py:204-214 | the defaults of a missing viewpoint reach the table as "Unavailable" text, the `NaT` date and zero counts (the normaliser rules are at lines 17-86 of data_processing_script.py) |
| Pipeline.HarvestKeepsEveryRow | data_processing_script.py:70 | the harvested file has distinct `Product_ID`s, so `drop_duplicates` removes no row (the harvest loop is at lines 379-385 of scraper_script.py) |
| Pipeline.HarvestedProductIds | scraper_script.py:379-385 | the normalised table's `Product_ID`s are exactly the ASINs whose product page loaded (the deduplication is at line 70 of data_processing_script.py) |

## Left out

- Browser and HTML work is not modelled: the Selenium driver, navigation, waits, scrolling, sleeps and user agents, and BeautifulSoup/CSS lookups. Each lookup is an `Option<string>` input (the rating lookup, a `select` that returns a list, is the `seq<string>` of element texts), and each visited ASIN is a `Visit` whose pages either loaded or not.
- The search-page loop over categories and pages is not modelled, nor the timeouts that skip a page. `Harvest.CollectProducts` takes the ASINs in the order the loop meets them.
- The iteration order of the ASIN set is unspecified. Only the uniqueness it gives is proved.
- An exception from `extract_product_details` is not modelled; it skips that ASIN. A visit whose product page did not load is simply not kept.
- `w2n.word_to_num` is a foreign library. It is the parameter `WordToNum`, and `None` means it raised.
- Floating point is not modelled. `float()` and `int()` read plain decimal and integer text exactly, the "K+" product is exact before truncation, and star ratings are exact reals.
- Numbers.ParseDecimal and Numbers.ParseInt: read only an optional sign, ASCII digits and, for `float()`, one point. Python's `float()` also reads exponents ("1e3"), "inf", "nan" and "infinity", and both `float()` and `int()` read `_` between digits. The model rejects all of these. So ReviewCount.GetReviewCount gives 0 where the script gives a count: "1e3K+" is 1000000 in the script (scraper_script.py:271) and "1_234 ratings" is 1234 (line 275). "infK+" makes `int()` raise `OverflowError`, which line 261 does not catch. The ASIN is then dropped at line 387, while the model keeps the product with count 0. The same gap applies to the star-rating reads at lines 64 and 199.
- ReviewCount.GetReviewCount: uses the narrower parsers of the line above, so its "text the parser rejects" means rejected by plain decimal notation. It does not model the `OverflowError` of "infK+", which skips the product.
- Text handling is limited to ASCII digits and ASCII case folding for `%B`. Whitespace is the `str.isspace` set as listed in `Text`.
- `Calendar.ParseTimestamp` accepts only the exact 19-character `%Y-%m-%dT%H:%M:%S` shape within the `Timestamp` range, to whole seconds. pandas accepts some other spellings (single-digit fields, fractions of a second); the harvester never writes them.
- Integer counts are stored as `Number` reals. The model does not tell `0` from `0.0`, nor `int` from `float` columns.
- `pd.read_json` type inference is not modelled, such as numeric-looking text read as numbers. Cells keep the JSON value.
- Cells.NormalizeDate: a number in a date column is treated as `NaT`. pandas would read an integer as an epoch offset; the harvester never writes one.
- `astype(str)` of a number in a general comment column is not modelled. The number is kept as it is.
- Normalise.Normalise: the float coercion of `price`, `ratings` and `reviews` (data_processing_script.py:93-103) is not modelled. `clean_format_data` reads these three columns (lines 148-150) into slots 2-4 of the row tuple, so in the model those slots hold the cells as harvested, not the coerced values. The differences: in the script a price that `float()` rejects, such as "1,299.99", becomes 0.0 (lines 93-99); a missing rating becomes 0.0 (line 103); a missing review count becomes 0 (line 101). The `float(x)` at line 100 is not guarded: a rating text it rejects raises a ValueError and ends the script. The model does not include that failure, so the error condition `Normalise.Normalise` states covers only the missing required columns.
- The database is not modelled: connection, table creation, `execute`, `rollback` and `commit`. `Insert.InsertRows` returns the tuples handed to `execute`, and a failing insert is not modelled.
- `Insert.InsertQuery` models the query text on one line. The triple-quoted text's newlines and indentation are left out; only its column list and placeholder count matter.
- The mismatch report's column list (data_processing_script.py:246-259) is not modelled, because that branch is proved unreachable.
- The CSV rename and export and JSON file I/O are not modelled.
- The first `process_review_count` (scraper_script.py:26-30) is not modelled. The definition at line 268 replaces it before any call.
- The warning-only column checks (data_processing_script.py:44-48, 216-219) only log and are not modelled.
- CleanFormat.CriticalComment: a missing comment (`Null`) becomes "Unavailable". In data_processing_script.py, line 159 tests `in nan_variants`, a Python list membership test. It holds for the `np.nan` object itself but not for `None` or for any other NaN value, which the script keeps unchanged. `Null` does not tell these apart. In the script the case does not arise: the featured-comment pass at line 25 has already turned every missing comment into "Unavailable".
- CleanFormat.RowTuple: a column read several times is listed once in the lookup order, so the reported missing column is the first distinct one.
- Harvest.ProductRecord: the branch for a visit whose page did not load returns no fields and is never used by the loop.
