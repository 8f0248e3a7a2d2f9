/** Record shapes shared by the weather engine and the export view.
    JavaScript numbers are modelled as exact reals; strings as sequences of characters. */
module Types {

  /** A resolved place; only `name` takes part in the mock weather computation. */
  datatype Location = Location(name: string, lat: real, lon: real)

  /** One year of the synthetic history (an element of `HistoricalTrend`). */
  datatype YearSample = YearSample(year: int, avgTemp: real, precipitation: real)

  /** The five condition probabilities, in the field order of the record the engine builds. */
  datatype WeatherProbabilities = WeatherProbabilities(
    hot: real,
    cold: real,
    wet: real,
    windy: real,
    uncomfortable: real)

  /** One point of the temperature density curve (`label` is a Dafny keyword, hence `labelText`). */
  datatype ChartDataPoint = ChartDataPoint(labelText: string, value: real)

  /** The bundle the mock API returns and the export view serialises. */
  datatype WeatherData = WeatherData(
    location: Location,
    date: string,
    probabilities: WeatherProbabilities,
    tempDistribution: seq<ChartDataPoint>,
    historicalTrends: seq<YearSample>)
}
