# WeatherWise Wanderer: the mock weather engine and its CSV export, in Dafny

This project models the only non-UI logic of the WeatherWise Wanderer web app.

- **The mock weather API** (`src/lib/weather-api.ts`):
  - It hashes the location name to get a base temperature and a base precipitation.
  - It generates a 20-year synthetic history with a small warming trend.
  - It counts threshold crossings to get five condition probabilities.
  - It shifts temperatures by a seasonal offset before counting, but returns the unshifted history.
- **The export view** (`src/components/app/data-export.tsx`):
  - It serialises a weather bundle as line-oriented CSV.
  - It builds the name of the downloaded file.

Modules: `Types` holds the record shapes of `src/lib/types.ts`. `WeatherApi` models `weather-api.ts` and `DataExport` models `data-export.tsx`.

How the source's runtime pieces appear in the model:

- **Numbers.** JavaScript numbers become exact `real`s.
- **Rounding.** `parseFloat(x.toFixed(1))` becomes `RoundTenths`: the nearest tenth, ties away from zero, as `Number.prototype.toFixed` behaves on the magnitude.
- **Randomness.** Every `Math.random` draw is an input, in the order the source consumes them: a temperature and a precipitation fluctuation per year, then one windy draw per year.
- **Clock.** The current year, today's day number and the selected day's number are inputs.
- **Seasonal formula.** The sine formula is a parameter `seasonal` of the day difference.
- **Bell curve.** The bell-curve generator is a parameter `bellCurve` of the mean.
- **Number rendering.** JavaScript's number-to-string rendering in the CSV is a parameter `render`.

The name hash uses the string's UTF-16 code units, as `split('')` and `charCodeAt` do. A character above U+FFFF therefore adds both halves of its surrogate pair.

The comments next to the baseline say "between 15 and 30" and "between 80 and 120". The code's ranges are [15, 29] and [80, 119], and the model proves those.

The seasonal adjustment is always applied. Probabilities are divided by the series length. The CSV always has the five probability fields of the record.

## Model

| member | source | states |
|---|---|---|
| `WeatherApi.Utf16` | src/lib/weather-api.ts:84 | a character gives one code unit below U+10000 and otherwise a valid surrogate pair that decodes back to the character |
| `WeatherApi.NameHash` | src/lib/weather-api.ts:84 | the hash, the sum of the name's UTF-16 code units, equals the sum of its characters' code-unit weights |
| `WeatherApi.DeriveBaseline` | src/lib/weather-api.ts:84-86 | for every name the base temperature is an integer in [15, 29] and the base precipitation an integer in [80, 119] |
| `WeatherApi.NameHashByChars` | src/lib/weather-api.ts:84 | summing the name's UTF-16 code units equals summing each character's code-unit weight |
| `WeatherApi.SumByPermutation` | src/lib/weather-api.ts:84 | the reduce-sum does not depend on the order of the elements (equal multisets give equal sums) |
| `WeatherApi.Units` | src/lib/weather-api.ts:84 | definition, no contract: the name's UTF-16 code units in order, what `split('')` yields and `charCodeAt(0)` reads |
| `WeatherApi.BaselineOfUnitPermutation` | src/lib/weather-api.ts:84-86 | names whose UTF-16 code units form the same multiset get the same baseline, whatever characters those units make up |
| `WeatherApi.BaselineOfPermutation` | src/lib/weather-api.ts:84-86 | names that are permutations of the same characters get the same baseline |
| `WeatherApi.RoundTenths` | src/lib/weather-api.ts:31 | the result is the nearest integer to ten times the input, with ties rounded away from zero |
| `WeatherApi.Tenths` | src/lib/weather-api.ts:31-34 | definition, no contract: `parseFloat(x.toFixed(1))`, the rounded number of tenths divided by ten |
| `WeatherApi.WarmingTrend` | src/lib/weather-api.ts:30 | definition, no contract: `i * 0.05` |
| `WeatherApi.Max` | src/lib/weather-api.ts:34 | definition, no contract: `Math.max` of two numbers |
| `WeatherApi.Sample` | src/lib/weather-api.ts:27-36 | the record for index i has year currentYear-20+i, precipitation >= 0 and a temperature within 0.05 of baseTemp + draw + 0.05*i |
| `WeatherApi.History` | src/lib/weather-api.ts:23-39 | exactly 20 records; record i has year currentYear-20+i; every precipitation is >= 0 whatever the draw; every temperature lies within 0.05 of baseTemp + draw + 0.05*i |
| `WeatherApi.GenerateHistoricalData` | src/lib/weather-api.ts:23-39 | the 20-step push loop returns exactly that history |
| `WeatherApi.HistoryYearsConsecutive` | src/lib/weather-api.ts:25-27 | years start at currentYear-20, end at currentYear-1 and strictly increase |
| `WeatherApi.HistoryTemperatureBounds` | src/lib/weather-api.ts:29-31 | with a draw in [-2, 2], year i's temperature lies in [baseTemp-2+0.05i-0.05, baseTemp+2+0.05i+0.05] |
| `WeatherApi.HistoryPrecipitationUnclamped` | src/lib/weather-api.ts:33-34 | with a derived baseline and a draw in [-10, 10] the clamp at 0 never acts |
| `WeatherApi.Holds` | src/lib/weather-api.ts:55-61 | definition, no contract: hot is avgTemp > 30, cold avgTemp < 5, wet precipitation > 100, uncomfortable avgTemp > 30 and precipitation > 100 * 0.8 |
| `WeatherApi.Count` | src/lib/weather-api.ts:54-62 | a condition's count never exceeds the number of years |
| `WeatherApi.CountWindy` | src/lib/weather-api.ts:58 | the windy count never exceeds the number of draws |
| `WeatherApi.Share` | src/lib/weather-api.ts:64-71 | count/length lies in [0, 1]; it is 1 exactly when count = length and 0 exactly when count = 0 |
| `WeatherApi.ShareSum` | src/lib/weather-api.ts:66-67 | helper of `Probabilities`, an arithmetic fact about real division: shares over one length add up to the share of the summed counts |
| `WeatherApi.ShareMonotone` | src/lib/weather-api.ts:66-70 | helper of `Probabilities`, an arithmetic fact about real division: a smaller count gives a smaller or equal share |
| `WeatherApi.Probabilities` | src/lib/weather-api.ts:43-72 | all five fields lie in [0, 1]; hot + cold <= 1; uncomfortable <= hot; windy is the windy-draw count over the length, independent of temperature and precipitation |
| `WeatherApi.CalculateProbabilities` | src/lib/weather-api.ts:43-72 | the five-counter loop returns exactly `Probabilities` of the series and the windy draws |
| `WeatherApi.HotColdDisjoint` | src/lib/weather-api.ts:55-56 | no year is both hot (> 30) and cold (< 5), so the two counts add up to at most the length |
| `WeatherApi.UncomfortableWithinHot` | src/lib/weather-api.ts:59-61 | every uncomfortable year is hot, so its count is at most the hot count |
| `WeatherApi.CountAllIff` | src/lib/weather-api.ts:54-62 | a count equals the length if and only if every year meets the condition |
| `WeatherApi.CountNoneIff` | src/lib/weather-api.ts:54-62 | a count is zero if and only if no year meets the condition |
| `WeatherApi.ProbabilityExtremes` | src/lib/weather-api.ts:64-71 | a hot, cold, wet or uncomfortable probability is 1 iff every year meets the condition and 0 iff none does |
| `WeatherApi.SeasonalAdjustment` | src/lib/weather-api.ts:90-100 | the offset is 0 whenever the selected day is not after today |
| `WeatherApi.Adjust` | src/lib/weather-api.ts:103-106 | same length; each record keeps its year and precipitation and its temperature moves by exactly the offset |
| `WeatherApi.AdjustByZero` | src/lib/weather-api.ts:103-106 | an offset of 0 leaves the series unchanged |
| `WeatherApi.AdjustKeepsWet` | src/lib/weather-api.ts:57 | the adjustment does not change the wet count |
| `WeatherApi.SumTemps` | src/lib/weather-api.ts:110 | definition, no contract: the left-to-right sum of the temperatures |
| `WeatherApi.MeanTemp` | src/lib/weather-api.ts:110 | definition, no contract: the temperature sum divided by the length |
| `WeatherApi.SumTempsAdjust` | src/lib/weather-api.ts:110 | the temperature sum of the adjusted series is the unadjusted sum plus length times the offset |
| `WeatherApi.MeanTempAdjust` | src/lib/weather-api.ts:110-112 | the mean of the adjusted series is the unadjusted mean plus the offset |
| `WeatherApi.DivideShifted` | src/lib/weather-api.ts:112 | helper of `MeanTempAdjust`, an arithmetic fact about real division: (a + n*o)/n = a/n + o for n > 0 |
| `WeatherApi.FetchMockWeatherData` | src/lib/weather-api.ts:76-123 | returns the unadjusted history of the name's baseline; its probabilities come from the adjusted series; the curve is taken at the adjusted series' mean; when the date is not in the future, both come from the unadjusted series |
| `DataExport.JoinAppend` | src/components/app/data-export.tsx:18-29 | appending a line to the line list appends that line and a line feed to the text (one `+=`) |
| `DataExport.SplitJoin` | src/components/app/data-export.tsx:17-31 | splitting the joined text at line feeds gives back exactly the lines when none holds a line feed |
| `DataExport.JoinEndsWithNewline` | src/components/app/data-export.tsx:18-29 | a non-empty list of line-feed-terminated segments gives a non-empty text ending in a line feed |
| `DataExport.Entries` | src/components/app/data-export.tsx:22 | `Object.entries` of the probabilities record has five entries: hot, cold, wet, windy, uncomfortable in that order |
| `DataExport.EntryRow` | src/components/app/data-export.tsx:23 | definition, no contract: the key, a comma and the rendered value |
| `DataExport.TrendRow` | src/components/app/data-export.tsx:28 | definition, no contract: the rendered year, temperature and precipitation separated by commas |
| `DataExport.CsvLines` | src/components/app/data-export.tsx:17-31 | 6 + 5 + N lines: `category,value`, `location,<name>`, `date,<date>`, `---PROBABILITIES---`, one row per field in record order, `---HISTORICAL TRENDS---`, `year,avgTemp,precipitation`, one row per record in input order |
| `DataExport.CsvText` | src/components/app/data-export.tsx:17-31 | definition, no contract: the lines of `CsvLines`, each followed by a line feed |
| `DataExport.ConvertToCsv` | src/components/app/data-export.tsx:17-31 | the appending method returns exactly the join of the CSV lines |
| `DataExport.CsvOpening` | src/components/app/data-export.tsx:18-20 | the text starts with `category,value`, `location,<name>`, `date,<date>`, each ended by a line feed, with name and date copied verbatim |
| `DataExport.CsvEndsWithNewline` | src/components/app/data-export.tsx:18-29 | the text is non-empty and ends in a line feed |
| `DataExport.CsvLinesOneLine` | src/components/app/data-export.tsx:18-29 | no CSV line holds a line feed when the name, the date and every rendering are free of line feeds |
| `DataExport.CsvLayout` | src/components/app/data-export.tsx:18-29 | with such inputs the text splits into exactly 6 + 5 + N lines: the three opening lines; `---PROBABILITIES---`; one `key,value` row per field in record order; `---HISTORICAL TRENDS---` right before `year,avgTemp,precipitation`; one row per record in input order |
| `DataExport.IsWhitespace` | src/components/app/data-export.tsx:35 | definition, no contract: the ECMAScript WhiteSpace and LineTerminator code points that `\s` matches |
| `DataExport.ReplaceWhitespace` | src/components/app/data-export.tsx:35 | same length; each JavaScript whitespace character becomes `_` and every other character is kept; the result has no whitespace |
| `DataExport.Extension` | src/components/app/data-export.tsx:49 | definition, no contract: the format's name, `json` or `csv`, after the dot |
| `DataExport.ExportFilename` | src/components/app/data-export.tsx:35-49 | the name is `weatherwise_data_`, then the name with whitespace replaced, then `.` and the format; its length is the name's length plus the prefix and suffix; it contains no whitespace |
| `DataExport.FilenameOfReplacedName` | src/components/app/data-export.tsx:35 | replacing whitespace first gives the same file name, so the replacement is idempotent |

## Left out

- `generateBellCurveData` depends on `Math.exp`, `Math.sqrt`, `Math.PI` and a floating-point loop step. It is floating-point numerics and appears only as the parameter `bellCurve`. The model proves which mean it is called with.
- The sine seasonal formula and the millisecond `Date` arithmetic are floating-point and clock code. Days are integer day numbers, and `seasonal` is an opaque function of their difference. Day lengths that daylight saving makes non-integral are not modelled.
- `Math.random` and `new Date().getFullYear()` are replaced by explicit draw sequences and a `currentYear` input. The ranges `randomInRange` is called with ([-2, 2], [-10, 10]) appear only as lemma hypotheses.
- The 1500 ms artificial delay is timing only.
- `fetchLocationSuggestions` and `fetchLocationByCoords` are HTTP calls to a geocoding service plus schema parsing. They are network I/O.
- The JSON export branch, `Blob`, object URLs and the DOM link click in `handleExport` are browser I/O. Only the file name is modelled.
- Rounding is modelled on exact reals. It does not capture binary floating-point error in the sums, in `i * 0.05`, or in the double that `toFixed` rounds (a decimal tie such as 1.25 may sit just off the tie as a double).
- JavaScript's number-to-string rendering is the parameter `render`. `CsvLayout` assumes that the location name, the date and every rendering hold no line feed. The source does not rule out a name with a line feed; for such inputs only `CsvLines`, `CsvOpening` and `CsvEndsWithNewline` describe the text.
- `WeatherApi.CalculateProbabilities`: requires a non-empty history. On an empty one the source divides by zero and returns NaN fields. Its only caller always passes 20 records.
- `WeatherApi.Probabilities`: requires a non-empty history, for the same reason.
- WeatherApi.NameHash: takes the name as a Dafny `string`, whose characters are Unicode scalar values. A JavaScript string may hold an unpaired surrogate code unit (for example a name that reaches the app through `JSON.parse`). The source hashes such a lone unit and `replace(/\s/g, '_')` keeps it, but the model cannot represent that name. The same holds for `DataExport.ReplaceWhitespace`, `DataExport.ExportFilename` and the CSV text.
- The name hash is an unbounded natural. The source's double sum is exact for any name shorter than 2^37 code units.
- `src/app/actions.ts` (form and schema validation), the activity-recommendation LLM flow and all React components are UI, library wrappers or a foreign call. They are not part of this model.
