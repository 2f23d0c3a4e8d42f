# Cursor_Weather: a Dafny model of the weather page generator

The generator fetches the current weather and the three-hour forecast for three
configured cities (Taipei, San Mateo, Chicago), reduces the forecast to the next
two days and writes one static HTML page with one card per city. This project
models the logic of that script in Dafny and proves properties about it:

- `forecast.dfy` (module `Forecast`) covers the forecast aggregator. The grouping loop
  skips entries on today's UTC date. It collects the remaining entries by date in
  first-seen order and stops at the first entry of a second date. The reduction
  loop turns each group into a daily summary: highest maximum, lowest minimum,
  and the most frequent description and icon.
- `moon.dfy` (module `Moon`) covers `moon_phase_name`, a first-match scan over the
  ascending `MOON_PHASES` table with a new-moon fallback.
- `cities.dfy` (module `Cities`) covers the per-city table. The current-weather pass
  stores a placeholder record at the configured coordinates when the request fails.
  The forecast pass attaches each city's forecast list, which is empty when the
  forecast request fails.
- `render.dfy` (module `Render`) covers the page structure. Each card has today's
  block, whose image tag appears only for a non-empty icon code, and one forecast
  block per forecast day. The first forecast block is labelled 明天 ("tomorrow");
  every later one is labelled 後天 ("the day after tomorrow").

Network responses and the clock are inputs. A current-weather response is a
`CurrentReply` and a forecast response is a `ForecastReply`: a status code plus
the parsed fields. "Today" is a UTC day number, and a UTC date is `dt / 86400`.
Dafny's `/` rounds down for a positive divisor, which matches
`utcfromtimestamp(...).date()`. A forecast day's `date` stays a day number.

The script's loops are modelled as methods with loop invariants: `CollectDays`,
`BuildForecastList`, `FetchCurrent`, `AttachForecasts`, `RenderPage` and
`RenderCard`, the inner loop that appends one city's forecast blocks. Each
method is proved equal to a specification function (`Groups`, `Summarize`,
`ForecastOf`, `CityInfoFor`, `Page`), and lemmas state the properties of those
functions. Python dictionaries are Dafny `map`s. The insertion order of
`forecast_days` is the separate sequence `order` returned by `CollectDays`.

Behaviour of the script worth noting, all of it kept in the model:

- Ties in the most frequent description or icon. The code takes
  `max(set(xs), key=xs.count)`, so set iteration order picks among tied values and
  no rule is promised. `Forecast.Mode` picks the first maximal value in list order,
  and `Forecast.ModeIsMostFrequent` promises only what the code promises: the value
  occurs, and no other value occurs more often.
- A failed current-weather request does not skip the forecast. The record gets
  the city's configured coordinates, and the forecast request is still made with them.
- Dates are UTC dates, not the city's local dates.
- Scanning stops at the first entry of the second upcoming date. The second day
  therefore summarises exactly one entry.

## Model

| member | source | states |
|---|---|---|
| `Forecast.Day` | generate_weather_html.py:82-83 | the date of a timestamp is the UTC day whose 86400-second span contains it |
| `Forecast.SkipToday` | generate_weather_html.py:84-85 | the entries not on today's date, in order; `Forecast.SkipTodayMembers` states which entries survive and `Forecast.SkipTodayKeepsOrder` that entries in timestamp order stay in timestamp order |
| `Forecast.SkipTodayMembers` | generate_weather_html.py:84-85 | an entry survives the today filter exactly when it is in the input and its date is not today |
| `Forecast.Run` | generate_weather_html.py:86-90 | the scan's first group runs until the first upcoming entry on a different date: every entry before that point shares the date, and the entry at it does not |
| `Forecast.Groups` | generate_weather_html.py:80-90 | the lists `forecast_days` holds when the scan ends: the upcoming entries up to the first one on a second date, split at that entry; `Forecast.GroupsShape` states their shape and `Forecast.CollectDays` that the loop yields them |
| `Forecast.GroupsShape` | generate_weather_html.py:80-93 | at most two non-empty groups; each group is on one date that is not today; two groups are on different dates; the second group holds one entry; the groups together are the upcoming entries up to the cut, in scan order; no groups exactly when there are no upcoming entries |
| `Forecast.CollectDays` | generate_weather_html.py:80-90 | the grouping loop with its `break` yields exactly those groups (`Collected`): `order` lists each group's date in first-seen order, and `byDay` maps each date to its group and holds no other key |
| `Forecast.ScanGrows` | generate_weather_html.py:84-90 | an entry on the date already collected, or the first upcoming entry, joins that date's list; one key remains, so the loop does not stop |
| `Forecast.ScanStops` | generate_weather_html.py:86-90 | the first upcoming entry on a second date adds a second key, which stops the loop, and the collected keys and lists are then complete |
| `Forecast.ScanEnds` | generate_weather_html.py:81-90 | a scan that reaches the end of the list without stopping has collected every upcoming entry under its single date |
| `Forecast.HighestMax` | generate_weather_html.py:94 | the largest `temp_max` of a group; `Forecast.HighestMaxIsMax` states it |
| `Forecast.HighestMaxIsMax` | generate_weather_html.py:94 | the group's `temp_max` is at least every entry's maximum and equals one of them |
| `Forecast.LowestMin` | generate_weather_html.py:95 | the smallest `temp_min` of a group; `Forecast.LowestMinIsMin` states it |
| `Forecast.LowestMinIsMin` | generate_weather_html.py:95 | the group's `temp_min` is at most every entry's minimum and equals one of them |
| `Forecast.Count` | generate_weather_html.py:98-99 | a value's count is positive exactly when the value occurs, and never exceeds the length |
| `Forecast.Mode` | generate_weather_html.py:98-99 | a most frequent description or icon; `Forecast.ModeIsMostFrequent` states it |
| `Forecast.MostCounted` | generate_weather_html.py:98-99 | the most counted candidate, the earliest on a tie; `Forecast.MostCountedIsMost` states it |
| `Forecast.ModeIsMostFrequent` | generate_weather_html.py:98-99 | the chosen value occurs in the list, and no value occurs more often |
| `Forecast.MostCountedIsMost` | generate_weather_html.py:98-99 | the value chosen among the candidates is one of them, and its count is at least every candidate's count |
| `Forecast.ModeOfRainRainClear` | generate_weather_html.py:96-99 | for descriptions rain, rain, clear the chosen description is rain |
| `Forecast.Summarize` | generate_weather_html.py:94-106 | the day record built from one group; `Forecast.SummaryTemperatures` and `Forecast.SummaryModes` state its fields |
| `Forecast.SummaryTemperatures` | generate_weather_html.py:94-95 | a day summary's maximum bounds its group's maxima and is attained by one of them; its minimum does the same for the minima |
| `Forecast.SummaryModes` | generate_weather_html.py:96-99 | a day summary's description and icon occur in the group at least as often as any other value |
| `Forecast.BuildForecastList` | generate_weather_html.py:92-106 | the reduction loop summarises the first two collected dates in key order, each from its own group |
| `Forecast.Aggregate` | generate_weather_html.py:79-106 | one summary per group, dated by the group's date; `Forecast.AggregateShape` and `Forecast.AggregateTemperatures` state it |
| `Forecast.ForecastOf` | generate_weather_html.py:73-107 | the forecast list of one city; `Forecast.ForecastOfShape` states it and `Forecast.ForecastFor` computes it |
| `Forecast.ForecastOfShape` | generate_weather_html.py:74-107 | the forecast list is empty on a non-200 status; otherwise it has at most two days, none of them today, on different dates |
| `Forecast.ForecastFor` | generate_weather_html.py:73-107 | the forecast step runs the grouping loop and then the reduction loop, giving exactly `ForecastOf` for the status and entries |
| `Forecast.AggregateShape` | generate_weather_html.py:79-107 | the aggregated days correspond one to one with the groups: at most two, none today, distinct dates, the first on the date of the first upcoming entry, and each the summary of its group |
| `Forecast.AggregateTemperatures` | generate_weather_html.py:92-106 | every entry of day `i`'s group lies on that day's date; the day's maximum bounds and is attained by the group's maxima; the same holds for its minimum and the minima |
| `Forecast.TwoDatesGiveTwoDays` | generate_weather_html.py:81-93 | if the input holds upcoming entries on two different dates, exactly two days come out |
| `Forecast.SecondDayCutsScan` | generate_weather_html.py:86-90 | with two groups, the first is every upcoming entry before the cut, and the second is the single entry at the cut |
| `Forecast.ChronologicalDaysAscend` | generate_weather_html.py:81-93 | for entries in timestamp order, the first day's date comes strictly before the second's |
| `Moon.FirstMatch` | generate_weather_html.py:25-27 | the scan stops at the first row whose threshold is at least the value; every earlier threshold is below the value |
| `Moon.MoonPhaseName` | generate_weather_html.py:24-28 | the result is the name and symbol of the first matching row; a value above 1.00 gives the new moon |
| `Moon.MoonPhasesAscending` | generate_weather_html.py:13-22 | the thresholds strictly ascend |
| `Moon.PhaseInterval` | generate_weather_html.py:13-28 | every value above row `i - 1`'s threshold and at most row `i`'s threshold names row `i` |
| `Moon.FractionsNameARow` | generate_weather_html.py:13-28 | every value up to 1.00 names a table row, so the fallback is never needed |
| `Moon.FullMoonExample` | generate_weather_html.py:18 | the value 0.5 names the full moon 滿月 🌕 |
| `Cities.CityInfoFor` | generate_weather_html.py:38-58 | the temperature is unavailable exactly on a non-200 status. On failure the record has the configured coordinates, the text 取得失敗 and an empty icon. On success it has the response's coordinates, temperature, description and icon |
| `Cities.FetchCurrent` | generate_weather_html.py:31-58 | the current-weather loop stores one record per configured name, with no other key; each name holds the record of the last city with that name |
| `Cities.AttachForecasts` | generate_weather_html.py:61-107 | the forecast loop changes only the `forecast` field. The last city with a name sets that name's forecast from its forecast response. Keys and the records of other names are unchanged |
| `Cities.BuildTable` | generate_weather_html.py:31-107 | after both loops, each city has its current-weather record and coordinates, together with the forecast its forecast response yields |
| `Cities.AllCitiesDistinct` | generate_weather_html.py:6-10 | the configured city names are distinct, so each city's record is its own |
| `Render.IconImg` | generate_weather_html.py:138 | an icon's image tag is never empty |
| `Render.TodayImg` | generate_weather_html.py:129 | today's image markup is empty exactly when the icon code is empty |
| `Render.Label` | generate_weather_html.py:133 | 明天 for the first forecast block, 後天 for every later one; `Render.CardOutlookAt` states it |
| `Render.Outlook` | generate_weather_html.py:132-140 | forecast block `i` for one forecast day; `Render.CardOutlookAt` states its fields |
| `Render.OutlookBlocks` | generate_weather_html.py:132-140 | one forecast block per forecast day, in order; `Render.OutlookBlocksCount` states the count |
| `Render.TodayOf` | generate_weather_html.py:125-130 | today's block of a card; `Render.CardToday` states it |
| `Render.Card` | generate_weather_html.py:121-142 | the card of one city; `Render.CardOutlookCount`, `Render.CardOutlookAt` and `Render.CardToday` state it and `Render.RenderCard` computes it |
| `Render.Page` | generate_weather_html.py:110-142 | the head followed by each city's card in city order; `Render.RenderPage` computes it |
| `Render.RenderCard` | generate_weather_html.py:121-142 | the text appended for one city is its card: card start, today's block, one forecast block per forecast day in order, card end |
| `Render.RenderPage` | generate_weather_html.py:110-142 | the rendering loop builds the head followed by each city's card, in city order |
| `Render.OutlookBlocksCount` | generate_weather_html.py:132-140 | one forecast block is rendered per forecast day |
| `Render.CardOutlookCount` | generate_weather_html.py:132-140 | a card holds exactly as many forecast blocks as the city has forecast days |
| `Render.CardOutlookAt` | generate_weather_html.py:132-138 | forecast block `i` shows forecast day `i`'s date, temperatures, description and icon tag; it is labelled 明天 exactly when `i` is 0 and 後天 otherwise |
| `Render.CardToday` | generate_weather_html.py:122-129 | today's block has an image tag exactly when the icon code is non-empty. After a failed current-weather request it shows N/A, 取得失敗 and no image |

## Left out

- HTTP requests and JSON decoding (generate_weather_html.py:33-39, 69-78) are network I/O. Responses are inputs that carry a status code and the parsed fields, and the request URLs are not modelled.
- A `requests.get` call that raises (a connection error or a timeout, generate_weather_html.py:37, 73) is not modelled: `CurrentReply` and `ForecastReply` always carry a status code. In the script such an error ends the whole run and no `index.html` is written; the requests also set no timeout, so one can hang.
- Malformed JSON, meaning a missing field that raises a lookup error, is not modelled: every response value is well formed.
- Reading `OWM_API_KEY` from the environment (generate_weather_html.py:5) is process configuration and only enters the request URLs.
- The clock read for "today" (`datetime.utcnow()`, generate_weather_html.py:79) is a parameter. The script reads "today" once per city. The model takes one `today` for the whole run, which differs only when a run crosses UTC midnight.
- `update_time` (generate_weather_html.py:110) is computed but the head template (111-117) never shows it, so the page does not depend on it and the model has no render time.
- `round(..., 1)` and the `strftime` date format (generate_weather_html.py:101-103) are float and library formatting. Temperatures are exact reals and a forecast date is its UTC day number.
- `Moon.MoonPhaseName` compares exact reals. The script compares binary floats, whose thresholds such as 0.02 are not exact.
- The HTML and CSS text is left out, including the elided head template (generate_weather_html.py:111-117). The page is modelled as its structural blocks: head, card start, today's block, forecast blocks and card end.
- Writing `index.html` (generate_weather_html.py:145-146) is file I/O.
- The `lat is None` branch (generate_weather_html.py:65-67) is unreachable: both current-weather outcomes store coordinates.
- The `forecast` key is absent from a record until the forecast pass runs. `Cities.CityInfoFor` stores an empty list there instead; nothing reads the field before the forecast pass sets it.
- `app.py` is a web route that only serves a template, and it holds no logic of its own.
