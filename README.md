# Crop recommendation and map click state, modelled in Dafny

This project models the two pieces of logic in the agrigeo-ai repository.

- **The backend's crop filter** (`backend/app/forecast.py`). It takes a series of daily
  maximum temperatures and a rule table. The table gives each crop an inclusive band
  `[temp_min, temp_max]`. The filter keeps, in table order, every crop whose band contains
  every temperature. It then returns `{location: {lat, lon}, forecast: temps, recommended: [...]}`.
  Module `Forecast` in `forecast.dfy`. The table is an ordered sequence of `Rule(crop, tempMin,
  tempMax)` entries passed as a parameter. `Recommended` is the specification function. The
  method `MatchingCrops` is the source's `for` loop, proved equal to it. The lemmas state
  what the filter promises.
- **The map component's click handling** (`frontend/src/components/MapView.tsx`). The
  component holds two nullable fields, `forecast` and `error`, and both start as null. A click
  with no coordinate changes nothing. A click whose fetch succeeds sets `forecast` and clears
  `error`. A click whose fetch fails sets `error` to `'Failed to fetch forecast.'` and clears
  `forecast`. Module `MapView` in `map_view.dfy`. The class `MapView` has the two fields and an
  `OnClick` method. The fetch's outcome is an input, of type `FetchReply`. `GetForecast` is the
  ok-check. `HandleClick` is the pure transition that `OnClick` is proved against. `Render` says
  which parts of the page show for a state.

`wrappers.dfy` holds `Option` and `Result`. `sequences.dfy` holds the subsequence and
duplicate-freedom predicates with their lemmas.

Temperatures, latitudes and longitudes are `real`. The code only compares them and prints
them, so no rounding is involved.

The panel shows the scalar `forecast.temperature` (MapView.tsx:77). Every failure, including
a rejected fetch and a body that is not JSON, takes the same failure transition
(MapView.tsx:58-61).

## Model

| member | source | states |
|---|---|---|
| `Forecast.Keys` | backend/app/forecast.py:17 | the table's crop names in iteration order, one per entry |
| `Forecast.InBand` | backend/app/forecast.py:18 | the chained comparison `temp_min <= t <= temp_max`, both ends included |
| `Forecast.Matches` | backend/app/forecast.py:18 | the `all(...)` test: every temperature of the series lies in the entry's band |
| `Forecast.Recommended` | backend/app/forecast.py:15-19 | the reference filter: the table's crops whose entry matches, in table order, each appended after the ones before it |
| `Forecast.MatchingCrops` | backend/app/forecast.py:15-19 | the filter loop appends exactly the crops of `Recommended`, in table order |
| `Forecast.GetForecastAndSuggestions` | backend/app/forecast.py:21-25 | the response echoes `lat`/`lon` unchanged, `forecast` is exactly the series, and `recommended` is the filter's result |
| `Forecast.RecommendedMembers` | backend/app/forecast.py:17-19 | a crop is recommended if and only if some table entry for it has every temperature in its band |
| `Forecast.RecommendedIffMatches` | backend/app/forecast.py:17-19 | with distinct keys, entry i's crop is recommended if and only if its band contains every temperature |
| `Forecast.RecommendedAreSound` | backend/app/forecast.py:17-19 | every recommended crop has an entry with `temp_min <= t <= temp_max` for every temperature `t` |
| `Forecast.RejectedHaveOutlier` | backend/app/forecast.py:17-19 | a table crop that is not recommended has some temperature below its minimum or above its maximum |
| `Forecast.BoundsAreInclusive` | backend/app/forecast.py:18 | a series made only of a band's two end values still recommends that crop |
| `Forecast.RecommendedIsSubsequence` | backend/app/forecast.py:15-19 | the recommendation is a subsequence of the table's keys in iteration order |
| `Forecast.RecommendedLength` | backend/app/forecast.py:15-19 | the recommendation is no longer than the table |
| `Forecast.RecommendedDistinct` | backend/app/forecast.py:15-19 | with distinct keys, no crop is recommended twice |
| `Forecast.EmptySeriesRecommendsAll` | backend/app/forecast.py:18 | an empty series recommends every crop of the table, in order |
| `Forecast.MoreTemperaturesRecommendFewer` | backend/app/forecast.py:17-19 | if every temperature of one series occurs in another, the other's recommendation is a subsequence of the first's |
| `Forecast.AppendingDaysNeverAddsCrops` | backend/app/forecast.py:17-19 | a crop recommended for a longer series was already recommended for its prefix |
| `MapView.GetForecast` | frontend/src/components/MapView.tsx:18-24 | success if and only if the reply is ok and its body decodes, and then the data is the body; a reply that is not ok fails with `'Failed to fetch forecast'` |
| `MapView.SetForecast` | frontend/src/components/MapView.tsx:56-61 | `setForecast`: replaces the forecast and keeps the error |
| `MapView.SetError` | frontend/src/components/MapView.tsx:57-60 | `setError`: replaces the error and keeps the forecast |
| `MapView.HandleClick` | frontend/src/components/MapView.tsx:47-63 | no coordinate leaves the state unchanged; success gives forecast = data and error = null; failure gives error = `'Failed to fetch forecast.'` and forecast = null |
| `MapView.Run` | frontend/src/components/MapView.tsx:47-63 | the state after a series of clicks, each handled to completion in order |
| `MapView.RunKeepsConsistent` | frontend/src/components/MapView.tsx:54-61 | every sequence of clicks keeps forecast and error from both being set, and keeps the failure message as the only error |
| `MapView.NeverBothSet` | frontend/src/components/MapView.tsx:28-61 | starting from both fields null, after any sequence of clicks forecast and error are never both non-null |
| `MapView.LastResolvedClickDecides` | frontend/src/components/MapView.tsx:47-63 | the last click with a coordinate alone decides the state; later clicks without one change nothing |
| `MapView.NotOkAlwaysFails` | frontend/src/components/MapView.tsx:20-23 | a reply with `ok == false` takes the failure transition whatever its body |
| `MapView.OnlyOkSucceeds` | frontend/src/components/MapView.tsx:20-57 | a click that leaves a forecast set had an ok reply with a decodable body, and the forecast is that body |
| `MapView.ListItems` | frontend/src/components/MapView.tsx:80-82 | one list item per suggestion, item i keyed i and showing suggestion i, in the original order |
| `MapView.Truthy` | frontend/src/components/MapView.tsx:72 | the JavaScript truthiness of `error` in `error &&`: set and not the empty string |
| `MapView.Render` | frontend/src/components/MapView.tsx:72-85 | the error paragraph shows exactly when error is a non-empty string, showing it; the panel shows exactly when forecast is set, with its coordinates, temperature and suggestions in order |
| `MapView.RenderShowsState` | frontend/src/components/MapView.tsx:72-85 | in every consistent state the paragraph shows iff error is set, the panel iff forecast is set, and never both |
| `MapView.FailureRendersMessageOnly` | frontend/src/components/MapView.tsx:58-74 | after a failed fetch the page shows the failure message and no forecast panel |
| `MapView.MapView.constructor` | frontend/src/components/MapView.tsx:28-29 | both fields start as null |
| `MapView.MapView.OnClick` | frontend/src/components/MapView.tsx:47-63 | the new fields are `HandleClick` of the old ones, in the source's order of setter calls, and consistency is preserved |

## Left out

- The Open-Meteo request, the JSON decode and the `data["daily"]["temperature_2m_max"]` lookup (backend/app/forecast.py:6-14): network I/O. The model starts from the series `temps`.
- A `null` entry in the fetched temperature series, for which Python's comparison raises: the series is modelled as numbers only.
- The contents of `CROP_RULES`: `app/crop_rules` is not part of this model, so the table is a parameter. Python dictionary keys are unique; the lemmas that need unique keys require `DistinctKeys`.
- The FastAPI routing and health check (backend/app/main.py, backend/main.py): framework wiring with no logic.
- The `fetch` call, the URL string building and the `fetch` wrapper in frontend/src/lib/api.ts: browser I/O. How a request settles is the `FetchReply` input.
- A JSON body that decodes to `null` or to an object of another shape: `Decoded` always carries a well-formed `ForecastData`.
- The mismatch between the backend's response shape (`forecast`/`recommended`) and the frontend's `ForecastData` (`temperature`/`lat`/`lon`/`suggestions`): each side is modelled against its own type.
- OpenLayers map construction, tile source, view, projection (`fromLonLat`/`toLonLat`) and the `setTarget` cleanup: calls into a foreign library. A click's coordinate is an `Option<Coordinate>`.
- `toFixed` formatting of the heading coordinates: floating-point library numerics. The panel holds the raw values.
- Logging, JSX markup beyond which parts render, and styling.
- Overlapping asynchronous clicks, where a stale response can overwrite a newer one: concurrency. Each click is one atomic step.
