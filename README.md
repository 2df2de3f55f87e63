# IETT station tracker: a Dafny model

The station tracker is a Telegram bot for Istanbul's IETT bus network. A user sends a stop
code, or the address of a stop page on the IETT web site. The bot remembers that stop for
the user, fetches the upcoming arrivals and renders them as a message. A separate probe
script tries the data sources the bot might use:

- the MobiIETT OAuth service;
- a static dataset on GitHub;
- a fixed fallback timetable.

This project models the bot's core and the two pure fragments of a second probe script,
then proves properties of the model. Each module follows one piece of the program:

- `Text`, `Clock`, `Http`, `Wrappers`: the Python built-ins the core relies on.
  - `Text` has `str.find`, `in`, `str.isdigit` and `str(int)`.
  - `Clock` renders `strftime("%H:%M")` of a time some minutes ahead. The time is injected
    as local seconds, and the module proves the rendering round-trips through a parser.
  - `Http` gives abstract HTTP and JSON outcomes. A request either raises or answers with a
    status and a body, and a body either parses or not.
- `Percent`: `urllib.parse.unquote`, i.e. percent-decoding per section 2.1 of RFC 3986,
  with the decoded bytes read as UTF-8. It is proved against an encoder (`Quote`) by the
  round trip `Unquote(Quote(s)) == s`.
- `StationUrl`: `IETTBot.extract_station_code` and `extract_station_name`, written as the
  leftmost-match, greedy semantics of the two regular expressions. It also holds the rule
  `handle_message` uses to tell a stop URL from a bare stop code.
- `Arrivals`: three pieces of `IETTBot`.
  - `parse_bus_times` is the fixed example table.
  - `scrape_station_info` is its page wrapper.
  - `get_station_info` is the three-source fallback, recording which sources it asks.
- `BusFormat`: `IETTBot.format_bus_info`.
  - The messages for the guard cases.
  - The stable sort by `estimated_minutes`, with 999 for a missing value. It is proved
    to be the unique stable sort, so it is the order Python's `sorted` gives.
  - The labels, the cut direction line and the 25-dash rule.
  - The appending loop, as a method proved against the rendering function.
- `Bot`: the class `IETTBot`, with its `user_stations` dictionary as a map field.
  Save, get and delete are methods. `handle_message` is a method that classifies the text
  and saves the stop it finds.
- `ApiTester`: the class `SimpleAPITester` with its five state fields.
  - The token cache and the dataset cache are each specified by a pure step function
    (`TokenStep`, `DatasetStep`). The methods are proved to follow it, and lemmas about
    two successive calls state the cache behaviour.
  - The alias loop returns early at the first accepted answer. It is proved against
    `FirstAnswering`.
  - The fallback loop is proved to give minutes within `[(i+1)*3, (i+1)*3+4]`.
- `Probe`: the `<title>` extraction and the recommendation chain of `test_apis.py`.

No network, clock or randomness is used. Every HTTP outcome is a parameter, and so are
`get_istanbul_time()` / `datetime.now()` (as integer seconds of local time) and Python's
`hash` (a function `string -> int`).

In these cases the code does something its method names and docstrings do not suggest, and the model follows the code:

- `test_github_data` does not publish its two documents atomically.
  - If the buses body is not JSON, the stations cache has already been replaced.
  - The summary printed after loading can raise after all three fields were set. That
    happens when the stations document is not a list, when the buses document is `null`,
    or when one of the first five stations is not an object. The call then returns False
    with the new caches kept.
- `test_mobiiett_api` accepts an alias only if its first three items are JSON objects.
  Printing the preview calls `.get` on each, which raises on a non-object. The exception
  is caught per alias and the loop moves on.
- In `get_mobiiett_token`, a reply with status 200 and a non-numeric `expires_in` still
  stores `access_token`. The expiry is then left as it was and None is returned.
- `get_station_info` returns a mobile-API JSON body even when it is `null`. The lookup
  then ends with None and the main API is never asked.

## Model

| member | source | states |
|---|---|---|
| Text.Find | test_apis.py:283-284 | `str.find` from a start: the least index at or after the start where the substring occurs, or none when it occurs nowhere there |
| Text.ContainsIff | main.py:355 | `sub in s` holds exactly when `sub` occurs at some index |
| Text.NatToString | main.py:183-185 | the decimal rendering of a minute count: all digits, denotes the number, no leading zero |
| Clock.ClockText | main.py:125 | `%H:%M` is five characters with a colon in the middle |
| Clock.ClockAfterWraps | main.py:125-153 | the clock face `k` minutes after `t` is the minute of day of `t` plus `k`, taken modulo 24 hours |
| Clock.ParseClockText | main.py:125 | reading back a rendered `HH:MM` gives the minute it was rendered from |
| Clock.ClockTextParse | main.py:125 | every string the parser accepts is the rendering of the minute it yields |
| Http.GetField | api_only_test.py:116-118 | `dict.get(key, default)`: the stored value when the key is present, the default otherwise |
| Http.FirstField | api_only_test.py:116-118 | `d.get(a, d.get(b, default))`: the first key that is present wins, else the default |
| Percent.Unquote | main.py:58 | `unquote` returns a string without `%` unchanged |
| Percent.DecodeOfEncodeString | main.py:58 | UTF-8 decoding with replacement inverts UTF-8 encoding on every string |
| Percent.PercentBytesOfEscaped | main.py:58 | decoding the `%XX` escapes of a byte string gives back those bytes |
| Percent.UnquoteOfQuote | main.py:58 | `unquote` inverts percent-encoding of every UTF-8 byte, for every string |
| StationUrl.FirstKeyMatch | main.py:43 | the regex scan finds the least index from the start where the key occurs followed by a class character, or reports there is none |
| StationUrl.LeftmostIsUnique | main.py:43 | there is at most one leftmost match |
| StationUrl.SearchGroup | main.py:43-46 | `re.search(key + "([class]+)")` matches exactly when some occurrence of the key is followed by a class character; the group is the maximal class run after the leftmost one, non-empty and of class characters only |
| StationUrl.ExtractStationCode | main.py:39-49 | a code is returned exactly when some `dkod=` is followed by a digit, with no word boundary; it is the maximal digit run after the leftmost such `dkod=` and is all digits |
| StationUrl.ExtractStationName | main.py:51-62 | a name is returned exactly when some `stationname=` is followed by a character other than `&`; it is the unquoting of the text after the leftmost one up to the next `&` or the end |
| StationUrl.NameWithoutEscapes | main.py:55-59 | when the captured text has no `%`, the name is the captured text itself |
| StationUrl.ClassifyMessage | main.py:355-385 | the URL branch is taken exactly when the text contains both `iett.istanbul` and `dkod=`; there a code is saved with the extracted name when the code is found, otherwise nothing is; any other text is saved as a code exactly when it is all digits and at least 6 long |
| StationUrl.UrlBranchSavesIff | main.py:355-361 | a stop is saved from a URL exactly when the text contains `iett.istanbul` and some `dkod=` followed by a digit |
| StationUrl.DigitMessageIsBareCode | main.py:373-378 | an all-digit message never takes the URL branch: it is saved when at least 6 long, answered with help otherwise |
| Arrivals.ExampleBus | main.py:125 | an example arrival's time is the clock face of now plus its minutes, modulo 24 hours |
| Arrivals.ParseBusTimes | main.py:113-158 | the HTML is ignored; stop 322001 gets lines 142, 144A, 76D with their three directions and minutes 3, 8, 12; every other stop gets 34 and 98M with minutes 5 and 7; each arrival time is now plus its minutes as `HH:MM` |
| Arrivals.ScrapeStationInfo | main.py:93-111 | a result exactly on status 200, and then its buses are the example table; None on any other status or an exception |
| Arrivals.GetStationInfo | main.py:64-91 | sources are asked in order mobile, main, stop page; a mobile 200 with JSON is returned at once; otherwise a main 200 returns its JSON, or None when that is not JSON; a main status other than 200 returns the scrape result; a main exception returns None without asking the stop page |
| BusFormat.Insert | main.py:174 | inserting keeps the multiset of buses |
| BusFormat.StableSort | main.py:174 | the sort keeps the multiset of buses |
| BusFormat.InsertSorted | main.py:174 | insertion into a sorted list keeps it sorted by key |
| BusFormat.WithKeyInsert | main.py:174 | inserting a bus into a sorted list appends it to the buses of its own key and leaves the other keys' subsequences alone |
| BusFormat.StableSortCorrect | main.py:174 | the result is sorted by `estimated_minutes` (999 when absent), and for every key, the buses with that key keep their input order |
| BusFormat.SortedWithSameKeysEqual | main.py:174 | two sorted lists whose per-key subsequences agree are equal |
| BusFormat.StableSortUnique | main.py:174 | every stable sort by that key of the list equals the model's, so the model is Python's `sorted` |
| BusFormat.TimeText | main.py:180-185 | red "Durağa geldi" exactly at 1 minute or less, yellow exactly above 1 up to 5, green exactly above 5, with the number and "dk" outside the red case |
| BusFormat.DirectionLine | main.py:189-190 | an empty direction gives no line; one of at most 45 characters is shown whole; a longer one is cut to its first 45 followed by "..." |
| BusFormat.RuleIs25Dashes | main.py:191 | the rule is 25 `─` characters |
| BusFormat.BlocksSnoc | main.py:174-191 | the blocks of a list grown by one bus are the old blocks followed by that bus's block |
| BusFormat.AppendBlocks | main.py:174-191 | the loop leaves the heading followed by one block for each bus, in list order |
| BusFormat.FormatBusInfo | main.py:160-194 | the message is the rendering of the station info: the guard messages, or the heading (the time, the stop name when it is truthy), one block per bus of the stably sorted list (line and label, arrival time, direction, rule), and the footer |
| BusFormat.BusBlockShape | main.py:187-191 | each bus block opens with the bold line code and its time label on a line of its own and ends with the 25-dash rule and a newline |
| BusFormat.RenderedGuards | main.py:162-167 | no info or no "buses" key gives the "alınamadı" text; an empty list gives the "henüz otobüs bilgisi yok" text |
| BusFormat.RenderedInStableOrder | main.py:169-193 | for a non-empty list the message is the heading, then the blocks in the order of any stable sort by key, then the footer |
| BusFormat.MissingMinutesListedLater | main.py:174-181 | a bus with no "estimated_minutes" is labelled arrived but is listed after every bus due in under 999 minutes |
| Bot.IETTBot.constructor | main.py:18-25 | a new bot has an empty table |
| Bot.IETTBot.SaveUserStation | main.py:27-33 | the user's entry becomes (code, name, now), re-saving overwrites it, and every other user's entry is unchanged |
| Bot.IETTBot.GetUserStation | main.py:35-37 | the saved entry of a known user, None for an unknown one |
| Bot.IETTBot.DeleteUserStation | main.py:333-334 | removes exactly that user's entry, and only when it is present; reports whether it was |
| Bot.IETTBot.HandleMessage | main.py:349-385 | the reply is the classification; when it names a stop (a URL's code and name, or a bare code with no name) that entry is saved for the user at `now`, and every other reply leaves the table unchanged |
| ApiTester.Take | api_only_test.py:115 | `s[:n]` is the prefix of length `min(n, len(s))` |
| ApiTester.TokenStep | api_only_test.py:28-62 | no request while the cached token is truthy and unexpired, returning it; a full grant stores the token and an expiry of now plus `expires_in` (3600 when absent) minus 60, returning the token; any failure returns None and keeps the expiry, and keeps the token too unless the reply was a 200 object with a non-numeric `expires_in` |
| ApiTester.TokenReusedUntilMargin | api_only_test.py:33-34 | a token granted at `t` is returned without a request by every call before `t + expires_in - 60` |
| ApiTester.TokenRefetchedFromMargin | api_only_test.py:33-52 | from `t + expires_in - 60` on, the next call requests a new token |
| ApiTester.MissingAccessTokenForcesRefetch | api_only_test.py:48-55 | a 200 reply without `access_token` returns None, and the next call requests again whenever it comes |
| ApiTester.FailedTokenRequestKeepsState | api_only_test.py:56-62 | an exception or a status other than 200 returns None and changes neither field |
| ApiTester.FirstAnswering | api_only_test.py:103-137 | the index of the first alias whose answer is accepted, with every earlier alias rejected, or none when all are rejected |
| ApiTester.PreviewRow | api_only_test.py:116-118 | each preview column is the value of its first key when that key is present, else the value of its second key when present, else its default: HAT_HAT_KODU, HAT_KODU, "N/A"; HAT_HAT_ADI, HAT_ADI, "Bilinmiyor"; DURAK_ADI, DURAK_KISA_ADI, "Bilinmiyor" |
| ApiTester.DatasetStep | api_only_test.py:143-182 | a cache hit without a request when both documents are truthy and unexpired; otherwise one GET when the first raises, else two; two 200 JSON replies replace both documents and set the expiry to now plus 30 minutes, successful exactly when the summary can be printed; a failed GET or a status other than 200 changes nothing and fails |
| ApiTester.DatasetHitWithinLifetime | api_only_test.py:148-151 | after loading two non-empty documents at `t`, every call before `t + 30 min` succeeds from the cache without a request |
| ApiTester.DatasetRefetchedAfterLifetime | api_only_test.py:148-164 | from `t + 30 min` on, the documents are requested again |
| ApiTester.EmptyStationListRefetches | api_only_test.py:148 | an empty cached station list counts as no cache and is fetched again |
| ApiTester.FailedStatusKeepsDataset | api_only_test.py:158-178 | both GETs are issued before any status is checked, and a status other than 200 leaves the caches and the expiry unchanged |
| ApiTester.FallbackTable | api_only_test.py:189-204 | each stop has at least three lines; an unknown code gets "Durak <code>" with lines 142, 76D, 400A |
| ApiTester.FallbackMinutes | api_only_test.py:213 | the i-th line's minutes lie in `[(i+1)*3, (i+1)*3+4]`, since Python's `% 5` is in 0..4 |
| ApiTester.SimpleAPITester.constructor | api_only_test.py:14-26 | the token, its expiry, both caches and the cache expiry all start as None |
| ApiTester.SimpleAPITester.GetMobiiettToken | api_only_test.py:28-62 | the new token fields, the result and whether a request was made are those of `TokenStep`; the dataset fields do not change |
| ApiTester.SimpleAPITester.TestMobiiettApi | api_only_test.py:64-141 | no service request when the token is falsy; otherwise aliases are tried in order up to and including the first accepted one, which gives `{success: True, data, alias, count: len(data)}`, and None after all three fail |
| ApiTester.SimpleAPITester.TestGithubData | api_only_test.py:143-182 | the new dataset fields, the result and the number of GETs are those of `DatasetStep`; the token fields do not change |
| ApiTester.SimpleAPITester.TestFallbackData | api_only_test.py:184-221 | returns True with the table's name and its first three lines, each with minutes from the formula within `[(i+1)*3, (i+1)*3+4]` and the `HH:MM` that many minutes from now |
| Probe.FindFirstAt | test_apis.py:283-284 | `find` returns exactly the first occurrence at or after its start |
| Probe.PageTitle | test_apis.py:282-287 | no title when `<title>` does not occur; a title is never empty |
| Probe.PageTitleBetweenTags | test_apis.py:283-286 | with the first `<title>` at `p` and the next `</title>` at `e`, the title is `text[p+7:e]` when that is not empty, else nothing |
| Probe.PageTitleEnclosed | test_apis.py:283-286 | a title sits between the two tags in the page: `<title>`, the title and `</title>` occur together at the first opening tag |
| Probe.PageTitleUnclosed | test_apis.py:284-285 | without a `</title>` after the opening tag there is no title |
| Probe.Recommend | test_apis.py:336-347 | each recommendation is chosen exactly when its flag is the first true one in the order v2, old, GitHub, IBB, scraping; the hard-coded fallback exactly when all five are false |
| Probe.RecommendFirstTrue | test_apis.py:336-345 | the recommendation is the source of the first true flag |

## Left out

- The Telegram layer is not part of this model. That covers the command handlers, `reply_text`, `process_user_station_query`, `main()` and the bot token. They are asynchronous I/O; only the classification inside `handle_message` and its effect on the table are modelled.
- HTTP requests, URLs, headers, timeouts, the session object and the OAuth client credentials are not modelled. Each request is replaced by its outcome.
- `print` and `logging` output are not modelled. Values that `test_fallback_data` only prints are returned instead: the stop name and, for each line, its minutes and time.
- Time zones are not modelled. `datetime.now()` and `get_istanbul_time()` are one injected integer of local seconds, and `timedelta` overflow is ignored.
- TokenStep: a fractional `expires_in` is not modelled; the model has only integer seconds and values that are not numbers. Python's `timedelta` also accepts a float there.
- Python's `hash` is a parameter. Only its value modulo 5 matters to the model.
- JSON values are reduced to the shapes the code distinguishes:
  - an array of items, each an object with string values or some other value;
  - an object, or `null`, for whole documents;
  - a token reply whose `access_token` is a string or missing.
  
  A JSON `null` or non-string inside a bus or token record, non-integer minutes, and top-level strings or numbers are not modelled.
- Arrivals.Bus: a key present with value `null` is treated as absent. In Python, `.get` would return None there.
- Arrivals.StationInfo: a station-info document is modelled by its "buses" list alone, and other keys are ignored. So `format_bus_info` on an arbitrary mobile or main API body is not modelled beyond its "buses" key.
- StationUrl.ExtractStationCode: `\d` is restricted to ASCII digits. Python's `\d` also matches other Unicode decimal digits.
- StationUrl.IsBareCode: `str.isdigit` is restricted to ASCII digits for the same reason.
- Percent.Unquote: the well-formedness of the result is proved only through the round trip with `Quote` and the no-`%` case. No statement covers arbitrary malformed escapes or invalid UTF-8, although the decoder follows Python's replacement rule for them.
- The `except Exception` wrappers around the extractors are not modelled. The code inside them cannot raise on a string.
- quick_test.py, test_scraping.py and the other probe functions of test_apis.py are not part of this model. They are network probes whose results are only printed.
