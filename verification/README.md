# URL shortener core, modelled in Dafny

A model of the core of a small URL-shortening service. The service takes a
long URL and an optional custom code. It validates both, picks a short code
(the custom one, or a random one that is not taken yet) and stores the
mapping. Visitors who open `/<code>` are redirected, and each visit counts a
click.

The model has three modules, one per source file:

- `Utils` (`utils.dfy`, for `utils.py`): the short-code format gate
  `IsValidShortCode`, code generation `GenerateShortCode`, `SanitizeCustomCode`,
  `FormatShortUrl` and `ValidateUrl`. They are pure functions. Python's
  `str.strip` and `str.rstrip('/')` are written out over `seq<char>`, and
  `str.isalnum` is written out for code points up to U+00FF.
- `Store` (`store.dfy`, for `database.py`): the `urls` table as a class
  `Database`. It holds a sequence of rows in insertion order, the
  AUTOINCREMENT high-water mark `nextId` and a logical `clock`. `Valid()`
  holds the schema's UNIQUE constraint on `short_code`, ids that grow and stay
  below `nextId` as AUTOINCREMENT issues them, and timestamps in insertion
  order. SQLite does not enforce the last one; it holds because the model's
  clock never runs backwards. Every mutating method
  ensures `Evolves(old(rows), rows)`. So rows are only ever appended, a row's
  id, code, URL and timestamp never change, and clicks never fall.
- `App` (`app.dfy`, for `main.py`): the two request handlers as methods over a
  `Database`. They return an outcome datatype in place of a rendered page or
  an HTTP response. `ShortenUrl` is proved against the specification function
  `Decide`, and the lemmas `DecideInvalidUrl`, `DecideCustomCode`,
  `DecideGenerated` and `DecideShortened` state what the decision promises.
  The retry loop is the method `PickFreeCode`. It is proved against
  `FirstFree`, the position of the first candidate whose code the table does
  not hold.

Parameters stand in for everything outside the code:

- The values `random.randint` and `random.choices` draw are passed in as a
  `CodeDraw`: the length, and one alphabet index per position. `ShortenUrl`
  takes one draw for each of the 100 attempts.
- The `validators.url` library check is the parameter `isUrl: string -> bool`.
- `BASE_DOMAIN` is the parameter `baseDomain`.
- `CURRENT_TIMESTAMP` is the store's logical clock. `AdvanceClock` models
  time passing. Several inserts may share a timestamp, as they do with
  SQLite's one-second resolution.
- A missing custom code (`None` or `""` in the form) is the empty string.

Where the code and its docstrings disagree (utils.py:20-24 promise only
`a-z`, `A-Z` and `0-9`), the model follows the code:

- The format gate uses Python's `isalnum`. That accepts more than
  `[a-zA-Z0-9]`, for instance accented Latin letters, so a code such as
  `cafés` passes it (`NonAsciiCodeIsValid`).
- On ASCII input the gate accepts exactly the 5 to 10 character strings over
  the generation alphabet (`ValidAsciiCodeIffInAlphabet`).
- A negative `limit` for `get_all_urls` returns every row, because SQLite
  reads a negative LIMIT as no limit.

## Model

| member | source | states |
|---|---|---|
| `Utils.IsValidShortCode` | utils.py:19-32 | accepts a code exactly when its length is 5 to 10 and every character is alphanumeric; the empty code is refused |
| `Utils.StrIsAlnum` | utils.py:30 | `isalnum` of a string holds exactly when it is non-empty and every character is alphanumeric |
| `Utils.ValidAsciiCodeIffInAlphabet` | utils.py:19-32 | on ASCII input the gate accepts exactly the 5 to 10 character strings over `ascii_letters + digits` |
| `Utils.NonAsciiCodeIsValid` | utils.py:22-30 | a code carrying a non-ASCII letter passes the gate although that letter is outside the alphabet |
| `Utils.InAlphabetIffAsciiAlnum` | utils.py:16 | a character is in the 62-character alphabet exactly when it is an ASCII letter or digit |
| `Utils.GenerateShortCode` | utils.py:9-17 | a generated code's length lies between the bounds and every character is from the alphabet |
| `Utils.GenerateShortCodeCovers` | utils.py:15-17 | every string over the alphabet whose length lies within the bounds is produced by some draw |
| `Utils.GeneratedCodeIsValid` | utils.py:9-32 | every code generated with the default bounds passes `is_valid_short_code` |
| `Utils.Strip` | utils.py:69 | the result is a contiguous slice of the input, everything cut away is whitespace, and the result neither starts nor ends with whitespace |
| `Utils.SanitizeCustomCode` | utils.py:64-70 | the empty input gives the empty code; otherwise the input with the whitespace of both ends removed and nothing else changed |
| `Utils.StripOfTrimmed` | utils.py:69 | stripping a string that has no whitespace at either end leaves it unchanged |
| `Utils.SanitizeIdempotent` | utils.py:66-70 | sanitizing twice gives the same code as sanitizing once |
| `Utils.RStrip` | utils.py:37 | `rstrip('/')` keeps a prefix of the input, removes only slashes, and leaves no trailing slash |
| `Utils.FormatShortUrl` | utils.py:34-41 | the short URL always starts with `http` and always ends with `/` followed by the code |
| `Utils.FormatShortUrlScheme` | utils.py:37-41 | `http://` is added exactly when the base domain, stripped of its trailing slashes, does not start with `http` |
| `Utils.RStripSlashes` | utils.py:37 | any number of trailing slashes leaves the result of `rstrip('/')` the same |
| `Utils.FormatShortUrlIgnoresTrailingSlashes` | utils.py:37 | any number of trailing slashes on the base domain gives the same short URL |
| `Utils.ShortUrlLastSegment` | utils.py:41 | for a valid code, the last path segment of the short URL is the code itself |
| `Utils.ValidateUrl` | utils.py:43-62 | blank input is refused with "URL is required"; an accepted URL passes the library check and is the stripped input, or it is that input with `https://` in front when it had no scheme and only the prefixed form passes; both directions of acceptance are stated |
| `Store.Find` | database.py:80-84 | finds a row with the given code, and finds none exactly when no row holds it |
| `Store.FindUnique` | database.py:44 | under the UNIQUE constraint, the row holding a code is the one the lookup finds |
| `Store.Clicked` | database.py:88-91 | one click raises that row's counter by exactly one and changes no other row or field |
| `Store.Database.constructor` | database.py:38-49 | a new database holds an empty table that meets the schema constraints, and its first id will be 1 |
| `Store.Database.AdvanceClock` | database.py:46 | the clock never runs backwards, and the table is untouched |
| `Store.Database.CreateUrl` | database.py:56-70 | refuses exactly when the code is already stored, and then changes nothing; otherwise appends one row with the URL, zero clicks, the current time and an id above every id issued; the constraints hold afterwards |
| `Store.Database.GetUrl` | database.py:72-93 | an absent code gives None and no change; a present code gives its row as it was before the call, and that row's clicks rise by exactly one |
| `Store.Database.UrlExists` | database.py:95-102 | true exactly when some row holds the code; reads only |
| `Store.Database.GetAllUrls` | database.py:104-111 | returns `limit` rows, or all of them when `limit` is negative or larger; newest first; each a stored row, none twice; no row left out is newer than one returned |
| `App.FirstFree` | main.py:98-103 | the first candidate whose code the table does not hold, or none when all are taken |
| `App.PickFreeCode` | main.py:97-110 | tries at most 100 candidates and stops at the first free one; gives none only when all 100 are taken |
| `App.ShortenUrl` | main.py:52-131 | answers as `Decide` does on the table it started from; inserts one row for the chosen code and validated URL on success, and changes nothing otherwise |
| `App.DecideInvalidUrl` | main.py:63-71 | the request ends with `InvalidUrl` exactly when `validate_url` refuses the URL, and then carries the message it gave: "URL is required" for blank input, the format message otherwise; no code is considered |
| `App.DecideCustomCode` | main.py:75-95 | a sanitized custom code that fails the gate is a format error; one that passes and is already stored is a duplicate error; otherwise it is used as it is |
| `App.DecideGenerated` | main.py:96-110 | without a custom code, generation gives up exactly when all 100 candidates are taken, and otherwise uses a candidate the table does not hold, all earlier candidates being taken |
| `App.DecideShortened` | main.py:112-131 | a short URL is handed out only for a valid code the table did not hold, under the accepted URL, formatted from the base domain; a failed insert is never reported |
| `App.ShortenKeepsCodesValid` | main.py:76-113 | inserting through the handler keeps every stored code valid |
| `App.RedirectToUrl` | main.py:134-151 | a code that fails the gate gets a 404 and the table is untouched; a valid stored code redirects to its URL and counts one click; a valid unknown code gets a 404 and no change |
| `App.ShortenThenRedirect` | main.py:113-151 | right after a short URL is created, visiting it redirects to the URL it was created for; the table is then the old one plus exactly one row, for that code and URL, with one click; when no short URL is created the table is unchanged |

## Left out

- Utils.IsValidShortCode: refuses every code containing a code point above U+00FF, for instance `ābcde` or `привет`. Python's `isalnum` accepts the letters and digits of every script, so the source accepts such codes.
- App.ShortenUrl: through the format gate above, answers `InvalidCustomCode` for a custom code with a letter or digit above U+00FF, where the source would store it.
- App.RedirectToUrl: through the format gate above, answers "Invalid short code" for a code with a letter or digit above U+00FF, where the source would look it up.
- Utils.StrIsAlnum: false for every string containing a code point above U+00FF, where `str.isalnum` is true if that character is a letter or digit of another script. The Unicode character database is not part of this model.
- Utils.IsAlnum: code points above U+00FF are treated as not alphanumeric. Python's `isalnum` also accepts the letters and digits of other scripts. The model decides ASCII and the Latin-1 Supplement exactly, but for those other scripts `IsValidShortCode` is stricter than the code.
- Utils.GenerateShortCode: bounds that would need a negative drawn length are outside the model. Python returns `""` there, and `randint` raises when `min_length > max_length`. The service only uses the default bounds 5 and 10.
- The random distribution of the drawn values is not modelled, only their ranges.
- Concurrency is not modelled: thread-local connections, simultaneous requests, and the gap between `url_exists` and `create_url`. With one caller at a time an insert after a successful existence check cannot fail, so the `CreateFailed` outcome is never reached (`DecideShortened`).
- Storage faults are not modelled: disk or connection errors that roll back and re-raise. Commit and rollback appear only as "a refused insert changes nothing".
- SQLite itself is not modelled: connections, cursors, the SQL text and the `idx_short_code` index, which affects speed only.
- `CREATE TABLE IF NOT EXISTS` on a file that already has data is not modelled. The constructor starts from an empty table.
- `clicks` and `id` are unbounded integers. SQLite's 64-bit limits are not modelled.
- The wall clock is not modelled. `created_at` comes from the logical clock.
- Store.Database.GetAllUrls: the contract leaves the order among equal timestamps open, as SQL does. The body happens to return later inserts first.
- The web layer is not modelled: FastAPI routing, form binding, Jinja templates, static files, the JSON/HTML 404 handler, and the `url`/`custom_code` values echoed back into the form. `load_dotenv` and uvicorn start-up are out too.
- `/api/stats` is not modelled. It is a thin wrapper over `get_all_urls`, which is modelled.
