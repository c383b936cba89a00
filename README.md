# idnes.cz article scraper: the article record and its field extractor

This project models the part of the idnes.cz scraper (`uloha1/web_scraper.py`)
that does not touch the browser or the DOM:

- the `Article` record, with its six fields (title, content, category,
  photos, date, comments), its in-place trimming `strip_output` and its
  JSON view `get_json`;
- what the module-level `get_json` does once its XPath queries have
  returned. It takes the first text node of each query and builds the
  content from the lead paragraph (opener) followed by the body. It takes
  the category from the fourth `/`-separated piece of the page's resolved
  URL, counts the image nodes, and reads the comment count from the first
  run of digits in the comment link's text. Then it builds an `Article`,
  strips it and returns its JSON object.

The XPath results are inputs (`WebScraper.Page`). Each `[0]` on an empty
result, `split("/")[3]` on a URL with fewer than four pieces, and
`re.findall(...)[0]` on a label with no digit raises `IndexError` in
Python. Each of these is a `WebScraper.ExtractError` constructor, checked
in the order the source evaluates them.

Files and modules:

- `wrappers.dfy`, module `Wrappers`: `Option` and `Result`.
- `str_ops.dfy`, module `StrOps`: Python's `str.strip()` and
  `str.split(sep)`. `IsSpace` is the full set of code points for which
  Python's `str.isspace` holds, not just ASCII blanks. Scraped text may
  contain no-break spaces (U+00A0); they are stripped as Python strips
  them.
- `digit_run.dfy`, module `DigitRun`: `re.findall(r'\d+', s)[0]` as the
  leftmost maximal digit run, and `int` on a digit string.
- `web_scraper.dfy`, module `WebScraper`: the `Article` class, the
  `ArticleRecord` value it holds, `ToJson` (its JSON object), `FromJson` (reading an article back from
  its JSON object, the inverse of `Article.GetJson`), `Category`,
  `CommentCount`, the functional model `Extract` of the extractor, and the
  method `GetJson` that follows the source step by step.

A bare host URL with a trailing slash is not an error:
`"https://example.com/".split("/")` is `['https:', '', 'example.com', '']`,
four pieces, so its category is the empty string. Only a URL with fewer
than three slashes, such as `https://example.com`, fails
(`WebScraper.BareHostCategory`).

The second parameter of the source's `get_json` is called `html_source`,
but its caller passes `driver.current_url`. The model calls it `url`.

## Model

| member | source | states |
|---|---|---|
| WebScraper.Article.constructor | uloha1/web_scraper.py:110-116 | the new article holds exactly the six given field values |
| WebScraper.Article.GetJson | uloha1/web_scraper.py:117-125 | the JSON object has exactly the keys title, content, category, photos, date, comments, each bound to the matching field; reading it back with `FromJson` gives the article's value |
| WebScraper.ToJson | uloha1/web_scraper.py:117-125 | the six-key JSON object of an article record; Article.GetJson and FromJsonDeterminesObject characterise it |
| WebScraper.FromJsonDeterminesObject | uloha1/web_scraper.py:117-125 | a JSON object that reads back as an article is exactly `ToJson` of that article, so `get_json`'s output is determined by the record |
| WebScraper.Article.StripOutput | uloha1/web_scraper.py:126-130 | title, content, category and date become their stripped values; photos and comments are unchanged and are outside the method's frame; afterwards no string field begins or ends with whitespace |
| WebScraper.StripRecord | uloha1/web_scraper.py:126-130 | the record `strip_output` leaves: the four string fields stripped, photos and comments kept; its properties are StripRecordIsStripped, StripRecordIdempotent and StripRecordKeepsInfixes |
| WebScraper.StripRecordIsStripped | uloha1/web_scraper.py:126-130 | after stripping, none of the four string fields has leading or trailing whitespace |
| WebScraper.StripRecordIdempotent | uloha1/web_scraper.py:126-130 | stripping a record twice gives the same record as stripping it once |
| WebScraper.StripRecordKeepsInfixes | uloha1/web_scraper.py:127-130 | each stripped field is its original value with only whitespace removed at the two ends |
| StrOps.Strip | uloha1/web_scraper.py:127-130 | `s.strip()`: whitespace removed at both ends; characterised completely by StripIsTrimmed, StripIsInfix and StripUnique, and idempotent by StripIdempotent |
| StrOps.StripIsTrimmed | uloha1/web_scraper.py:127-130 | `s.strip()` neither begins nor ends with a whitespace character |
| StrOps.StripIsInfix | uloha1/web_scraper.py:127-130 | `s` is some whitespace, then `s.strip()`, then some whitespace |
| StrOps.StripUnique | uloha1/web_scraper.py:127-130 | for whitespace, a trimmed middle, then whitespace, `strip()` gives that middle; with StripIsInfix this pins `strip()` down completely |
| StrOps.StripIdempotent | uloha1/web_scraper.py:127-130 | `s.strip().strip() == s.strip()` |
| StrOps.Split | uloha1/web_scraper.py:139 | `url.split("/")`: always at least one piece; characterised by SplitJoin, JoinSplit, SplitPiecesAreSeparatorFree and SplitCount |
| StrOps.SplitJoin | uloha1/web_scraper.py:139 | `"/".join(url.split("/")) == url` |
| StrOps.JoinSplit | uloha1/web_scraper.py:139 | splitting the join of slash-free pieces gives back those pieces, so `split` is the only way to cut a string into slash-free pieces |
| StrOps.SplitPiecesAreSeparatorFree | uloha1/web_scraper.py:139 | no piece of `url.split("/")` contains `/` |
| StrOps.SplitCount | uloha1/web_scraper.py:139 | `url.split("/")` has one piece more than `url` has slashes |
| WebScraper.Category | uloha1/web_scraper.py:139 | `url.split("/")[3]`: a category is a single path segment, with no `/`; CategoryExists, CategoryIsFourthPiece, SportCategory and BareHostCategory say when it exists and which piece it is |
| WebScraper.CategoryExists | uloha1/web_scraper.py:139 | `split("/")[3]` exists exactly when the URL contains at least three slashes; otherwise extraction fails |
| WebScraper.CategoryIsFourthPiece | uloha1/web_scraper.py:139 | for `p0/p1/p2/c` followed by nothing or by `/...`, with slash-free pieces, the category is `c` |
| WebScraper.SportCategory | uloha1/web_scraper.py:139 | `https://www.idnes.cz/sport/archiv/5` has category `sport` |
| WebScraper.BareHostCategory | uloha1/web_scraper.py:139 | `https://example.com/` has the empty category; `https://example.com` has none |
| DigitRun.FirstDigitRun | uloha1/web_scraper.py:144 | `re.findall(r'\d+', s)[0]`: a found run is a non-empty string of digits; it is the first maximal run by FirstDigitRunFinds and FirstDigitRunSound, and it is missing exactly when there is no digit by FirstDigitRunNone |
| DigitRun.DigitsValue | uloha1/web_scraper.py:144 | `int` on a digit run, read in base 10; ShowRoundTrip proves it inverts `str` |
| DigitRun.FirstDigitRunFinds | uloha1/web_scraper.py:144 | whenever `s` is digit-free text, a non-empty digit run, then nothing or a non-digit, that run is `re.findall(r'\d+', s)[0]` |
| DigitRun.FirstDigitRunSound | uloha1/web_scraper.py:144 | what is returned as the first match is a maximal digit run preceded only by non-digits |
| DigitRun.FirstDigitRunNone | uloha1/web_scraper.py:144 | there is no match exactly when `s` holds no digit |
| DigitRun.LeadingZeroIgnored | uloha1/web_scraper.py:144 | a leading zero does not change the value `int` reads from a digit run (`int("007") == 7`) |
| DigitRun.ShowRoundTrip | uloha1/web_scraper.py:144 | `int(str(n)) == n`, and `str(n)` is a non-empty digit string |
| WebScraper.CommentCount | uloha1/web_scraper.py:143-144 | `int(re.findall(r'\d+', label)[0])`; CommentCountIsFirstRun, CommentCountOfLabel and CommentCountMissing characterise it |
| WebScraper.CommentCountIsFirstRun | uloha1/web_scraper.py:143-144 | the comment count is the decimal value of the first maximal digit run of the label |
| WebScraper.CommentCountOfLabel | uloha1/web_scraper.py:143-144 | a label showing the number n between digit-free text and a non-digit gives n |
| WebScraper.CommentCountMissing | uloha1/web_scraper.py:143-144 | the comment count is missing exactly when the label has no digit |
| WebScraper.CommentCountShown | uloha1/web_scraper.py:144 | `Zobrazit 42 komentářů` gives 42 |
| WebScraper.CommentCountNotShown | uloha1/web_scraper.py:144 | `žádné komentáře` gives no count |
| WebScraper.Extract | uloha1/web_scraper.py:134-147 | the functional model of module-level `get_json`: the first failing lookup in source order, or the stripped article built from the first text nodes; ExtractSucceeds and ExtractedArticle characterise it |
| WebScraper.ExtractSucceeds | uloha1/web_scraper.py:136-144 | extraction succeeds exactly when the title, opener, body, date and comment queries all matched, the URL has at least three slashes and the comment label holds a digit |
| WebScraper.ExtractedArticle | uloha1/web_scraper.py:136-147 | a successful extraction is stripped. Its title and date are the first text nodes, trimmed. Its content is opener followed by body, trimmed as one string. Its category is the trimmed fourth URL piece. Its photos equal the image count and are at least 0. Its comments are the value of the label's first digit run |
| WebScraper.ContentIsTrimmedAsAWhole | uloha1/web_scraper.py:137-146 | content is trimmed as one string. When the opener has a non-whitespace character and ends in whitespace, and the body has a non-whitespace character, that whitespace stays in the content, so the result differs from joining the separately trimmed parts |
| WebScraper.GetJson | uloha1/web_scraper.py:134-147 | the step-by-step extractor fails exactly when `Extract` does, with the same error; on success it returns a six-key JSON object that reads back as the extracted, stripped article |

## Left out

- Fetching pages (`scrape_url_articles`, `scrape_article`): driving Chrome through Selenium, the fixed sleeps, the waits with timeouts, the swallowed consent-click exception and `driver.quit`. This is browser I/O.
- The XPath and BeautifulSoup queries themselves. They are calls into lxml and bs4, so their results are the inputs in `WebScraper.Page`.
- `scrape_in_parallel`, `scrape_in_parallel_articles` and the global `ARTICLES`/`DATAS` lists that worker threads append to. Their point is thread-pool concurrency.
- The Chrome options, the driver path, the hard-coded `url_list` and the `__main__` block. These are configuration, JSON file output and wall-clock timing.
- `Article.__str__`. It is display formatting only.
- DigitRun.FirstDigitRun: only ASCII digits are modelled. Python's `\d` and `int()` also accept the other Unicode decimal digits (Arabic-Indic and so on), which the model treats as ordinary non-digit characters.
- WebScraper.Page: the image query's node list is modelled only by its length, which is all the source uses.
- WebScraper.CommentCount: no limit on the length of the digit run. Python 3.11 and later, and the 3.10.7, 3.9.14 and 3.8.14 releases, make `int` raise `ValueError` on a string of more than 4300 digits. On such a label the model returns a count where those interpreters raise, so `ExtractSucceeds` does not match them there.
- WebScraper.Article.GetJson: key order is not modelled. The source's dict lists title, content, category, photos, date, comments in that order and `json.dump` writes them so; a Dafny `map` has no order.
- StrOps.Strip: strings cannot hold lone surrogates. A Python `str` may contain them (for example from decoding with `surrogateescape`), but a Dafny `char` is a Unicode scalar value, so such text is outside the model.
