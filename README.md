# Inventory dashboard and voice chatbot: the rules inside the glue

The repository holds two small Python programs. One is a Streamlit inventory-monitoring
dashboard. The other is a Windows voice chatbot. Almost all of their code is UI, camera,
speech and operating-system glue. This project models the few rules in them that have
statable behaviour and proves properties of those rules:

- **Shelf status** (`inventory.dfy`, module `Inventory`):
  - the three-way Good / Low / Out-of-stock rule that compares a shelf count with the
    product's threshold;
  - the loop that builds one summary row per catalog product;
  - the table of status colours.
- **Sales forecast** (`forecast.dfy`, module `Forecast`):
  - the forecast table is the chosen SKU's historical rows followed by 30 projected rows;
  - the projected rows are dated one day apart, starting at the latest historical date.
- **Voice commands** (`chatbot.dfy`, module `Chatbot`):
  - `listen` hands on the lower-cased transcript, or the empty string after an apology;
  - `process_command` is a priority-ordered keyword classifier that extracts its argument
    by `replace(...).strip()`;
  - `open_app` looks the application up in a table;
  - the `run` loop feeds each heard command to `process_command` until one returns False.
- **String operations** (`text.dfy`, module `Text`): the Python string operations the
  chatbot relies on, namely `p in s`, `s.replace(p, "")`, `s.strip()` and `s.lower()`.

Modelling choices:

- Dates are integer day numbers and sales figures are reals.
- The values the dashboard draws at random are parameters:
  - the shelf and POS counts;
  - the 30 projected sales figures.
- Speech output, web searches, Wikipedia lookups and application launches are recorded as
  `Effect` events rather than performed.
- The microphone is a sequence of `Recognition` outcomes, one per utterance. `run`
  consumes it in order.

Facts about the code that shape the model:

- The status rule has three outcomes. The alert list on the Alerts tab, which mentions
  "Mismatch", is literal data with no logic behind it, so it is not modelled.
- The forecast's dates come from `date_range(start=filtered_data['date'].max())`, so the
  first projected day is the latest historical day and that date appears twice in the
  forecast (`Forecast.ForecastDates`).
- The sidebar slider named "Low Stock Threshold" (`s/inventory_dashboard.py:57`) is never
  read. The rule uses each product's own threshold, and so does the model.

## Model

| member | source | states |
|---|---|---|
| `Inventory.MockCatalog` | s/inventory_dashboard.py:22-26 | the catalog has three products with pairwise distinct SKUs |
| `Inventory.CatalogSummary` | s/inventory_dashboard.py:97-111 | the summary of the loaded catalog has three rows with pairwise distinct SKUs; row i is the full summary row of catalog product i (SKU, name, both counts, status); A123 is judged against threshold 10, B456 against 5, C789 against 8 |
| `Inventory.StatusOf` | s/inventory_dashboard.py:104 | Good exactly when the count reaches the threshold; Low exactly when 0 < count < threshold; Out-of-stock exactly when the count is 0 and the threshold is positive |
| `Inventory.StatusMonotone` | s/inventory_dashboard.py:102-104 | a larger shelf count never gives a more severe status (Good < Low < Out-of-stock) |
| `Inventory.ZeroThresholdAlwaysGood` | s/inventory_dashboard.py:104 | with threshold 0 every count is Good, an empty shelf included |
| `Inventory.RowFor` | s/inventory_dashboard.py:104-111 | a summary row copies SKU, name and both counts, and its status is the rule applied to the shelf count and the product's threshold |
| `Inventory.BuildSummary` | s/inventory_dashboard.py:100-111 | one row per product, in catalog order; each row holds that product's SKU, name and counts, and the status the rule gives its shelf count |
| `Inventory.StatusIgnoresPos` | s/inventory_dashboard.py:103-110 | for one product and shelf count, a different POS count changes only the POS column of the row, never its status |
| `Inventory.StatusLabel` | s/inventory_dashboard.py:104 | every status is written as a non-empty label that is a key of the colour table |
| `Inventory.StatusColors` | s/inventory_dashboard.py:116-120 | the colour table: Good, Low and Out-of-stock map to the green, yellow and red background styles |
| `Inventory.CellStyle` | s/inventory_dashboard.py:123 | a label in the colour table gets that label's own style; any other text gets the empty style |
| `Inventory.EveryStatusStyled` | s/inventory_dashboard.py:104-123 | every status label the rule writes has a non-empty style in the colour table, and different statuses get different styles |
| `Inventory.ColorTableMatchesStatuses` | s/inventory_dashboard.py:116-120 | the colour table has keys for exactly the three labels the rule produces |
| `Forecast.FilterBySku` | s/inventory_dashboard.py:136 | a row is kept exactly when it is in the table and has the selected SKU; every kept row has that SKU |
| `Forecast.FilterOneRow` | s/inventory_dashboard.py:136 | a single row is kept exactly when it has the selected SKU |
| `Forecast.FilterAppend` | s/inventory_dashboard.py:136 | filtering a concatenation filters each part and concatenates the results, so kept rows stay in order and repeated rows are all kept |
| `Forecast.FilterKeepsOwnRows` | s/inventory_dashboard.py:136 | filtering rows that all have the SKU gives them back unchanged |
| `Forecast.MaxDate` | s/inventory_dashboard.py:141 | the result is at least every row's date and is some row's date |
| `Forecast.DateRange` | s/inventory_dashboard.py:140-144 | the dates begin at the start date and follow one day apart, as many as asked for |
| `Forecast.ProjectedRows` | s/inventory_dashboard.py:152-155 | one row per date, with that date, the selected SKU and the matching projected value |
| `Forecast.ForecastSeries` | s/inventory_dashboard.py:139-156 | the forecast has the history's length plus 30 rows |
| `Forecast.ForecastKeepsHistory` | s/inventory_dashboard.py:139-156 | the forecast's first rows are the historical rows, unchanged |
| `Forecast.ForecastProjectedRow` | s/inventory_dashboard.py:140-155 | projected row i is dated i days after the latest historical date and carries the selected SKU and the i-th projected value |
| `Forecast.ForecastDates` | s/inventory_dashboard.py:140-144 | the first projected date equals a historical date; the projected dates are consecutive days; no projected date precedes a historical one |
| `Forecast.SkuForecast` | s/inventory_dashboard.py:135-156 | for a SKU present in the sales table, every forecast row has that SKU, and the forecast is the SKU's rows followed by 30 projected rows |
| `Forecast.SkuForecastFilterRoundTrip` | s/inventory_dashboard.py:136-156 | filtering a SKU's forecast by that SKU gives the forecast back whole |
| `Text.Contains` | s/chatbot/voice_chatbot.py:102 | `p in s`; the empty string occurs in every string |
| `Text.ContainsIff` | s/chatbot/voice_chatbot.py:102 | `p in s` holds exactly when p occurs in s at some index |
| `Text.ContainsShorter` | s/chatbot/voice_chatbot.py:102 | only a string no longer than s can occur in s |
| `Text.ContainsFirstChar` | s/chatbot/voice_chatbot.py:102 | a non-empty p occurs in s only if its first character does |
| `Text.RemoveAll` | s/chatbot/voice_chatbot.py:108 | `replace(p, "")` never lengthens the string or adds characters; it shortens the string exactly when p occurs, and then by at least the length of p; with `RemoveAllSplit` and `RemoveAllAbsent` it removes every non-overlapping occurrence, left to right |
| `Text.RemoveAllSplit` | s/chatbot/voice_chatbot.py:108 | when the first occurrence of p in x + p + y is the one after x, removal keeps x whole, cuts that occurrence and carries on in y |
| `Text.RemoveAllAbsent` | s/chatbot/voice_chatbot.py:108 | removing a pattern that does not occur leaves the string unchanged |
| `Text.RemoveAllCanRecreatePattern` | s/chatbot/voice_chatbot.py:108 | one removal pass can produce a new occurrence of the pattern ("ssearchearch" becomes "search") |
| `Text.IsSpace` | s/chatbot/voice_chatbot.py:108 | the characters `str.isspace` accepts: space, tab to carriage return, the four separators 0x1C-0x1F, and the Unicode spaces and line/paragraph separators |
| `Text.TrimStart` | s/chatbot/voice_chatbot.py:108 | the result is a suffix of s; everything cut off is whitespace; the result does not start with whitespace |
| `Text.TrimEnd` | s/chatbot/voice_chatbot.py:108 | the result is a prefix of s; everything cut off is whitespace; the result does not end with whitespace |
| `Text.Strip` | s/chatbot/voice_chatbot.py:108 | the result is no longer than s and neither starts nor ends with whitespace |
| `Text.StripIsStripOf` | s/chatbot/voice_chatbot.py:108 | `strip()` returns a contiguous slice of s with only whitespace before and after it |
| `Text.StripUnique` | s/chatbot/voice_chatbot.py:108 | any slice of s with only whitespace around it and none at its ends is `strip()`'s result |
| `Text.TrimStartAt` | s/chatbot/voice_chatbot.py:108 | `lstrip()` keeps the string from its first non-whitespace character |
| `Text.TrimEndAt` | s/chatbot/voice_chatbot.py:108 | `rstrip()` keeps the string up to its last non-whitespace character |
| `Text.StripIdempotent` | s/chatbot/voice_chatbot.py:108 | stripping twice is stripping once |
| `Text.StripEmptyIff` | s/chatbot/voice_chatbot.py:109 | the stripped text is empty exactly when the text is all whitespace |
| `Text.Lower` | s/chatbot/voice_chatbot.py:39 | `lower()` keeps the length, maps each capital to its small letter and leaves every other character alone, so no capital letter is left |
| `Text.LowerIdempotent` | s/chatbot/voice_chatbot.py:39 | lower-casing twice is lower-casing once |
| `Chatbot.Listen` | s/chatbot/voice_chatbot.py:36-45 | a recognised utterance gives its lower-cased transcript and says nothing; an unintelligible one gives "" after "didn't understand"; a service error gives "" after "service is down" |
| `Chatbot.AppPaths` | s/chatbot/voice_chatbot.py:77-82 | the table of the four applications known by name and their paths |
| `Chatbot.LaunchFor` | s/chatbot/voice_chatbot.py:77-95 | an application is started by its path exactly when its lower-cased name is a known key, and by its given name otherwise |
| `Chatbot.KnownApps` | s/chatbot/voice_chatbot.py:77-82 | exactly chrome, notepad, calculator and paint are known by name |
| `Chatbot.LaunchCaseInsensitive` | s/chatbot/voice_chatbot.py:85-86 | names that differ only in letter case start the same known application |
| `Chatbot.SearchQuery` | s/chatbot/voice_chatbot.py:108 | the search query ("search" removed, then `StripOut` of "google") neither starts nor ends with whitespace and is no longer than the command |
| `Chatbot.StripOut` | s/chatbot/voice_chatbot.py:112-116 | the Wikipedia query (keyword "wikipedia") and the application name (keyword "open") neither start nor end with whitespace and are no longer than the command |
| `Chatbot.ProcessCommand` | s/chatbot/voice_chatbot.py:100-124 | the conversation goes on exactly when the command is not taken as stop |
| `Chatbot.FirstRuleFrom` | s/chatbot/voice_chatbot.py:102-123 | the index of the first keyword group, in table order, that occurs in the command; no earlier group occurs |
| `Chatbot.DispatchFollowsRules` | s/chatbot/voice_chatbot.py:102-123 | the branch taken is the first of hello/hi, time, search/google, wikipedia, open, stop/exit that matches, else the fallback |
| `Chatbot.StopsExactly` | s/chatbot/voice_chatbot.py:102-124 | False is returned exactly when "stop" or "exit" occurs and none of hello, hi, time, search, google, wikipedia, open does |
| `Chatbot.ArgumentsExtracted` | s/chatbot/voice_chatbot.py:107-118 | the search query, Wikipedia query and application name are the command with their keywords removed, then stripped |
| `Chatbot.IntentEffects` | s/chatbot/voice_chatbot.py:102-123 | each branch does one thing, and the search, lookup or launch is skipped exactly when its argument is empty |
| `Chatbot.StopThisGreets` | s/chatbot/voice_chatbot.py:102 | "stop this" holds "hi", so it is answered as a greeting and the conversation goes on |
| `Chatbot.PlainStopStops` | s/chatbot/voice_chatbot.py:119-121 | "stop" ends the conversation |
| `Chatbot.EndsRun` | s/chatbot/voice_chatbot.py:132-134 | a command ends the run only if it mentions "stop" or "exit" |
| `Chatbot.Handled` | s/chatbot/voice_chatbot.py:130-134 | every command handed to `process_command` is non-empty and lower-case, and there are no more of them than utterances |
| `Chatbot.HaltsAtFirstStop` | s/chatbot/voice_chatbot.py:130-134 | when utterance k is the first stop command, the run handles every non-empty command before it, then that one, and nothing after it |
| `Chatbot.NoStopHandlesAll` | s/chatbot/voice_chatbot.py:130-134 | without a stop command, every non-empty command heard is handled |
| `Chatbot.OnlyLastEndsRun` | s/chatbot/voice_chatbot.py:133-134 | every handled command except the last lets the run go on |
| `Chatbot.SessionLog` | s/chatbot/voice_chatbot.py:126-135 | everything the run does after its welcome line; at most one event per utterance |
| `Chatbot.GoodbyeOnlyForStop` | s/chatbot/voice_chatbot.py:102-123 | only the answer to a stop command ends with "Goodbye! Have a great day!" |
| `Chatbot.GoodbyeIffStopped` | s/chatbot/voice_chatbot.py:119-134 | the session log ends with the goodbye line exactly when the last handled command is one that ends the run |
| `Chatbot.Run` | s/chatbot/voice_chatbot.py:126-135 | the loop hands `process_command` exactly the commands of `Handled`, and its output is the welcome line followed by the session log |

## Left out

- The Streamlit layout, tabs, widgets, session state and the rendering of tables and
  plotly charts are UI. The style function is modelled; the table it is applied to is not.
- Camera capture with OpenCV and YOLO inference are device I/O and opaque model calls.
- The random draws are parameters of the model. These are `random.randint` for the shelf and
  POS counts, `np.random.poisson` for the mock sales, and `np.random.normal` with the sales
  mean and standard deviation for the projection. As a result:
  - `Inventory.BuildSummary` accepts any counts, not only 0..20;
  - `Forecast.ForecastSeries` accepts any 30 values.
- The mock sales table (`s/inventory_dashboard.py:29-35`) is random data over dates taken
  from the clock. `Forecast` takes any sales table instead.
- `Forecast.MaxDate`: dates are whole day numbers, so times of day and the clock are not
  modelled.
- The hard-coded alert list and its CSV download are literal data and file I/O.
- The Product Insights tab and the sidebar report buttons are random or UI only.
- Speech recognition and text-to-speech are I/O. A spoken line is an `Effect`.
- The browser, Wikipedia, `subprocess.Popen` and `os.startfile` are foreign calls.
  `search_web`, `search_wikipedia` and the launching part of `open_app` are reduced to one
  event each. The lines they speak and their own error paths (a failed search, a
  disambiguation error, an application that cannot be started) are not modelled.
- `Chatbot.Run` does not model `time.sleep(1)` between utterances. The source loop
  `while True` never ends on its own; the model consumes a finite sequence of utterances
  and ends when the sequence does.
- `datetime.now().strftime` in the time answer is the clock. The answer is the event
  `Say(CurrentTime)`.
- `Text.Lower`: lower-cases the ASCII letters only. Python's `str.lower` also maps non-ASCII
  capitals, which this model does not.
- The constructor of the chatbot sets the voice and speech rate once, which is device
  set-up.
