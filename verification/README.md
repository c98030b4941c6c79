# Adafruit product crawler: a Dafny model of its decision logic

The crawler (`fetch_data` in `Dhruv_web_crawler.py`) works in three stages:

1. It reads the category links of the Adafruit master page.
2. It fetches every category page and turns each `product-listing-right` block into one row of
   the SQLite table ADAFRUIT: category, product id, name, price, quantity, stock status.
3. Six fixed read routes query that table: five filter and order it, one lists its categories.

This project models the decisions in that pipeline as pure functions over strings and
sequences, and proves what they do.

- **Category discovery** (`Categories`). The model builds the ordered URL list, duplicates and
  "more" links included. It also builds the URL-to-name dictionary, in which a "more" label
  (any letter case) is skipped and a later link overwrites an earlier one.
- **Prices** (`Price`, with `Decimal` for Python's `float()` and `NumberPattern` for the two
  regular expressions).
  - A list price without a comma loses its first character and goes through `float()`. When
    that fails, the list price falls back to the first match of `[-+]?\d*\.\d+|\d+`.
  - A text with a comma is read as all of its digits, concatenated.
  - A sale price replaces the list price.
  - A block with no price at all costs 0.00.
  - The errors `float()` and `re.findall(...)[0]` raise (`ValueError`, `IndexError`) are values
    of `Results.Error`.
- **Stock** (`Stock`). The quantity is the first run of digits. The status comes from four
  phrase checks that all run, so the last phrase in the order IN STOCK, OUT OF STOCK,
  DISCONTINUED, COMING SOON that the text contains wins.
- **Crawl** (`Crawl`). The two nested loops are modelled literally, with the loop variables
  carried from block to block and the resets after every insert and at every page start. A
  stateless reference computes each row from its own block and its page's category. The
  lemmas prove the two agree, with one exception: the first block of the whole crawl raises
  `UnboundLocalError` when it has no stock div, because `product_qty` is unbound at that point.
  Any exception leaves the recreated table empty.
- **Read routes** (`Queries`). Each route's result is the rows its WHERE clause keeps, each as
  often as in the table, sorted by its ORDER BY. The categories route returns the distinct
  category values.

Things the crawler cannot decide itself become parameters:

- `pages: string -> seq<Block>` is what fetching and parsing a category URL yields.
- `strip: string -> string` is the tag stripping `soup(..., "html.parser").text` applies to
  `data-name`.

Behaviour of the code that the model keeps as written:

- The comma path reads every digit of the text (lines 254-256; its comment names "2,499" as the
  case it handles). The digits after the decimal point are read too, so "$2,499.00" gives
  249900 (`Price.ThousandsAmountScaled`, `Price.TwoThousandFourHundredNinetyNine`).
- The sale price has no pattern fallback (lines 266-269). A sale text that `float()` rejects
  raises `ValueError` (`Price.SalePrice`, `Price.FallbackExample`).
- A comma-free list price in which the pattern finds no number raises `IndexError` at the `[0]`
  of line 253.
- `price_string[1:]` (lines 251 and 268) drops the first character whatever it is, not only a
  currency symbol.
- `product_qty` is assigned only inside `if stock:` (lines 279 and 281) and by the reset at
  line 306. The first block of a crawl without a stock div therefore reaches the `print` at
  line 295 with it unbound and raises `UnboundLocalError`.
- A stock text with none of the four phrases keeps the status "" set at lines 189 and 307
  (`Stock.StockStatus.Unset`).
- The only commit of the crawl is at line 310, after the last page. The table is dropped and
  recreated at lines 116 and 122, so an exception part-way leaves it empty (`Crawl.Table`).

## Model

| member | source | states |
|---|---|---|
| `Categories.CategoryUrlsAppend` | Adafruit.com/Dhruv_web_crawler/Dhruv_web_crawler.py:157-159 | The URL list of concatenated link lists is the concatenation of their URL lists, so link order and duplicates are kept |
| `Categories.CategoryUrlsMembers` | Adafruit.com/Dhruv_web_crawler/Dhruv_web_crawler.py:157-159 | A URL is fetched exactly when some link whose href contains "/category" points to it, "more" links included |
| `Categories.CategoryNamesKeys` | Adafruit.com/Dhruv_web_crawler/Dhruv_web_crawler.py:157-161 | The name dictionary's keys are exactly the URLs named by a category link whose text is not "more" in any letter case |
| `Categories.CategoryNamesLastWins` | Adafruit.com/Dhruv_web_crawler/Dhruv_web_crawler.py:157-161 | Each URL in the name dictionary maps to the text of the last link that names it |
| `Categories.NamedUrlsAreFetched` | Adafruit.com/Dhruv_web_crawler/Dhruv_web_crawler.py:157-161 | Every named URL is fetched; a URL reached only through "more" links is fetched but has no name |
| `Text.MoreLabelAnyCase` | Adafruit.com/Dhruv_web_crawler/Dhruv_web_crawler.py:160 | `text.lower() != "more"` fails exactly for the four letters m, o, r, e in any mix of cases |
| `Text.ContainsIff` | Adafruit.com/Dhruv_web_crawler/Dhruv_web_crawler.py:283-290 | Python's `phrase in text` holds exactly when the phrase occurs at some index of the text |
| `Text.KeepDigitsContents` | Adafruit.com/Dhruv_web_crawler/Dhruv_web_crawler.py:255-256 | `re.findall('\d', text)` joined keeps every digit of the text, as often as it occurs, and nothing else |
| `Decimal.LexSpell` | Adafruit.com/Dhruv_web_crawler/Dhruv_web_crawler.py:251 | Reading back the text of a well-formed numeral recovers its sign, digits and point |
| `Decimal.SpellLex` | Adafruit.com/Dhruv_web_crawler/Dhruv_web_crawler.py:251 | Every text the numeral reader accepts is exactly the spelling of the numeral it returns |
| `Decimal.ParseFloatDigits` | Adafruit.com/Dhruv_web_crawler/Dhruv_web_crawler.py:256 | `float()` of a non-empty digit string is the natural number those digits spell |
| `NumberPattern.MatchAtSound` | Adafruit.com/Dhruv_web_crawler/Dhruv_web_crawler.py:253 | What the regex engine matches at an index lies in the language of the number pattern (optional sign, digits, point, digits; or digits alone) |
| `NumberPattern.MatchAtLongest` | Adafruit.com/Dhruv_web_crawler/Dhruv_web_crawler.py:253 | No longer text at the same index lies in that language |
| `NumberPattern.MatchAtComplete` | Adafruit.com/Dhruv_web_crawler/Dhruv_web_crawler.py:253 | Whenever some text at an index lies in the language, the engine matches there |
| `NumberPattern.FirstNumberSpan` | Adafruit.com/Dhruv_web_crawler/Dhruv_web_crawler.py:253 | The first `re.findall` result is the leftmost-longest text in the pattern's language; there is none exactly when no slice of the text is in the language |
| `NumberPattern.PatternIsNumeral` | Adafruit.com/Dhruv_web_crawler/Dhruv_web_crawler.py:253 | Every text the pattern matches is accepted by `float()`, so the fallback never raises `ValueError` |
| `NumberPattern.DigitRunFrom` | Adafruit.com/Dhruv_web_crawler/Dhruv_web_crawler.py:277-279 | The first `\d+` match starts at the first digit and ends where that run of digits ends; there is none exactly when the text has no digit |
| `Price.DigitsPrice` | Adafruit.com/Dhruv_web_crawler/Dhruv_web_crawler.py:254-256 | The comma path raises `ValueError` exactly when the text has no digit, and otherwise is the number all digits of the text spell together |
| `Price.ListPrice` | Adafruit.com/Dhruv_web_crawler/Dhruv_web_crawler.py:247-256 | Without a comma, a text whose `float(text[1:])` succeeds gives that value; otherwise the fallback raises `IndexError` exactly when no slice is a number, and never `ValueError`. With a comma it fails exactly when the text has no digit, and otherwise is the number all its digits spell |
| `Price.ListPriceFallback` | Adafruit.com/Dhruv_web_crawler/Dhruv_web_crawler.py:249-253 | When `float(text[1:])` fails on a comma-free text, the list price is the value of the leftmost-longest slice in the pattern's language |
| `Price.SalePrice` | Adafruit.com/Dhruv_web_crawler/Dhruv_web_crawler.py:266-272 | Without a comma it is the value of `float(text[1:])` and fails exactly when that fails; with a comma it fails exactly when the text has no digit and is otherwise the number all digits spell; every failure is `ValueError` |
| `Price.BlockPrice` | Adafruit.com/Dhruv_web_crawler/Dhruv_web_crawler.py:243-272 | No price spans give 0.00; a failing list price propagates; otherwise a sale price overrides; with no sale price the list price stands |
| `Price.SymbolNumeralRoundTrip` | Adafruit.com/Dhruv_web_crawler/Dhruv_web_crawler.py:249-251 | One symbol followed by any well-formed numeral reads back as that numeral's value, as a list price and as a sale price |
| `Price.ThousandsAmountScaled` | Adafruit.com/Dhruv_web_crawler/Dhruv_web_crawler.py:254-256 | A text "symbol a,b.c" reads as the number a, b and c spell together, which is (ab) scaled by ten to the number of decimals plus c |
| `Price.FallbackExample` | Adafruit.com/Dhruv_web_crawler/Dhruv_web_crawler.py:249-253 | "$12.50 ea" fails the direct read, falls back to 12.5 as a list price, and raises `ValueError` as a sale price |
| `Price.PriceExamples` | Adafruit.com/Dhruv_web_crawler/Dhruv_web_crawler.py:243-272 | "$12.50" gives 12.5, "$2,499.00" gives 249900, "$12.50" with sale "$9.99" gives 9.99, and no spans give 0.00 |
| `Stock.ClassifyIsLastMatch` | Adafruit.com/Dhruv_web_crawler/Dhruv_web_crawler.py:283-290 | The four sequential checks leave the status of the last phrase, in check order, that the text contains |
| `Stock.ClassifyIff` | Adafruit.com/Dhruv_web_crawler/Dhruv_web_crawler.py:283-290 | Each status results exactly when its phrase is present and no phrase checked after it is; the empty status exactly when none is present |
| `Stock.Quantity` | Adafruit.com/Dhruv_web_crawler/Dhruv_web_crawler.py:277-281 | A stock text with no digit has quantity 0 |
| `Stock.QuantityIsFirstRun` | Adafruit.com/Dhruv_web_crawler/Dhruv_web_crawler.py:277-279 | The quantity is the value of the first maximal run of digits |
| `Stock.QuantityExample` | Adafruit.com/Dhruv_web_crawler/Dhruv_web_crawler.py:276-281 | "142 IN STOCK" has quantity 142 |
| `Stock.InStockExample` | Adafruit.com/Dhruv_web_crawler/Dhruv_web_crawler.py:283-290 | "142 IN STOCK" is in stock |
| `Stock.TwoPhrasesExample` | Adafruit.com/Dhruv_web_crawler/Dhruv_web_crawler.py:285-288 | "OUT OF STOCK DISCONTINUED" is DISCONTINUED |
| `Crawl.PageStart` | Adafruit.com/Dhruv_web_crawler/Dhruv_web_crawler.py:187-189 | A page starts with the default id, name and status, and keeps the price and quantity variables as they were |
| `Crawl.Step` | Adafruit.com/Dhruv_web_crawler/Dhruv_web_crawler.py:203-307 | A block raises its price's error if that fails; raises `UnboundLocalError` exactly when the price parses, there is no stock div and the quantity is unbound; otherwise inserts a row with the page's category and the block's price and clears the variables |
| `Crawl.PageLoop` | Adafruit.com/Dhruv_web_crawler/Dhruv_web_crawler.py:203-307 | A page's loop inserts one row per block and leaves the variables cleared after a non-empty page |
| `Crawl.Table` | Adafruit.com/Dhruv_web_crawler/Dhruv_web_crawler.py:116-125 | The table is empty when the crawl's first block reads the quantity unbound or some block's price does not parse, and otherwise holds the stateless reference rows, one per block of every fetched page in order |
| `Crawl.BlockRow` | Adafruit.com/Dhruv_web_crawler/Dhruv_web_crawler.py:221-272 | A block's row fails exactly when its price does not parse, and otherwise carries the page's category and the block's price |
| `Crawl.BlockRowFields` | Adafruit.com/Dhruv_web_crawler/Dhruv_web_crawler.py:221-290 | A missing link gives id 0 and an empty name; a missing stock div gives quantity 0 and the empty status; otherwise id and name come from the link, the quantity from the stock text, and the status is the last phrase in check order the text contains, empty exactly when it contains none |
| `Crawl.EmptyBlockRow` | Adafruit.com/Dhruv_web_crawler/Dhruv_web_crawler.py:303-307 | A block with no link, price or stock div gives the row of defaults (category, 0, "", 0.00, 0, "") |
| `Crawl.PageRows` | Adafruit.com/Dhruv_web_crawler/Dhruv_web_crawler.py:203-298 | A page yields one row per block, each its block's row, or the error of the first block whose price does not parse |
| `Crawl.PlacementsOrigin` | Adafruit.com/Dhruv_web_crawler/Dhruv_web_crawler.py:180-190 | Every block of the crawl comes from a fetched page and carries that page URL's dictionary entry as its category |
| `Crawl.ExpectedRows` | Adafruit.com/Dhruv_web_crawler/Dhruv_web_crawler.py:180-307 | The reference succeeds exactly when every price parses, and then has one row per block of every page, in order, each that block's row |
| `Crawl.StepAgrees` | Adafruit.com/Dhruv_web_crawler/Dhruv_web_crawler.py:203-307 | With default fields and a quantity of 0 or about to be assigned, a step inserts exactly the block's reference row and clears the variables |
| `Crawl.PageLoopCleared` | Adafruit.com/Dhruv_web_crawler/Dhruv_web_crawler.py:203-307 | From cleared variables, a page's loop gives exactly the reference rows of its blocks |
| `Crawl.PageLoopUnassigned` | Adafruit.com/Dhruv_web_crawler/Dhruv_web_crawler.py:274-298 | On the first non-empty page, the loop raises `UnboundLocalError` exactly when the first block's price parses and it has no stock div, and otherwise gives the reference rows |
| `Crawl.CrawlLoopCleared` | Adafruit.com/Dhruv_web_crawler/Dhruv_web_crawler.py:180-307 | From cleared variables, the loop over the URLs gives exactly the reference rows |
| `Crawl.CrawlLoopUnassigned` | Adafruit.com/Dhruv_web_crawler/Dhruv_web_crawler.py:180-307 | From the start, the crawl gives the reference rows, unless the crawl's first block reads the quantity unbound |
| `Crawl.DownloadMatchesReference` | Adafruit.com/Dhruv_web_crawler/Dhruv_web_crawler.py:157-307 | What `fetch_data` inserts for the master page's links is the reference rows of every category page in URL order, or `UnboundLocalError` for a first block without a stock div |
| `Queries.Select` | Adafruit.com/Dhruv_web_crawler/Dhruv_web_crawler.py:333-383 | The WHERE clause keeps each selected row as often as the table has it, and no other row |
| `Queries.Sort` | Adafruit.com/Dhruv_web_crawler/Dhruv_web_crawler.py:333-383 | The ORDER BY result is sorted and a permutation of its input |
| `Queries.Query` | Adafruit.com/Dhruv_web_crawler/Dhruv_web_crawler.py:333-383 | A route returns exactly the rows its WHERE clause keeps, each as often as in the table, ordered by quantity descending or by name ascending |
| `Queries.QueryMembers` | Adafruit.com/Dhruv_web_crawler/Dhruv_web_crawler.py:333-383 | A row is in a route's result exactly when it is in the table and the WHERE clause keeps it |
| `Queries.BestSellerShape` | Adafruit.com/Dhruv_web_crawler/Dhruv_web_crawler.py:333-334 | Best sellers are in stock with at most 70 units, largest quantity first |
| `Queries.DistinctCategories` | Adafruit.com/Dhruv_web_crawler/Dhruv_web_crawler.py:395 | The categories route lists each category value of the table exactly once, NULL included, and nothing else |
| `Queries.CategoriesAreNamed` | Adafruit.com/Dhruv_web_crawler/Dhruv_web_crawler.py:157-161 | After a crawl, every listed category is NULL or a name from a master-page category link |

## Left out

- HTTP fetching, Flask routes, templates and `app.run`. The blocks of each category page are
  the parameter `pages`, a deterministic function of the URL. Fetch errors and non-success
  responses are not modelled.
- BeautifulSoup. A block is what the crawler finds in it: the `data-pid` and `data-name`
  attributes of the product link, and the texts of the price spans and the stock div. The
  tag stripping of `data-name` is the parameter `strip`.
- A missing `data-name` attribute on a product link. Line 223 would pass `None` to
  `soup(...)`, which raises a `TypeError`. A missing `data-pid` would store NULL as the id
  (line 222); the model's `Anchor` always carries both attributes.
- SQLite mechanics. The table is the row sequence. Also not modelled:
  - integer affinity turning the quantity text `r[0]` into an integer, and keeping a
    non-numeric `data-pid` as text (`Crawl.ProductId` keeps the text);
  - the double-quoted "IN STOCK" in the WHERE clauses, which SQLite reads as a string literal.
- Order of equal keys and of DISTINCT results. SQL leaves both open. Routes are specified as a
  sorted permutation, and `Query` computes one stable choice. `DistinctCategories` returns first
  appearances in table order, which is one of the orders SQLite may return.
- The `/query` route. It runs arbitrary SQL from the request.
- Floating point.
  - Prices are exact reals; binary rounding is not modelled.
  - `float()` is modelled on the decimal grammar only: an optional sign, then digits with at
    most one point.
  - Python also accepts surrounding whitespace, exponents, `inf`/`nan` and underscores. Those
    texts count as a failed direct read here.
- Unicode. `\d` is an ASCII digit and `lower()` lowers ASCII letters only.
- Timing and prints.
- `Stock.Quantity`: its own contract states only the no-digit case. The value in the
  digit case is stated by `Stock.QuantityIsFirstRun`.

