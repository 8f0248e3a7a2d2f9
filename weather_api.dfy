/** The mock weather engine: a baseline derived from the location name, a synthetic
    20-year history, threshold-count probabilities and the seasonal adjustment that
    feeds them. Randomness, the clock and the sine-based seasonal formula are
    parameters; the bell-curve generator is a parameter too. */
module WeatherApi {
  import opened Types

  // ---------------------------------------------------------------------------
  // Baseline derivation: the name hash and the two base values
  // ---------------------------------------------------------------------------

  /** A UTF-16 code unit, what `charCodeAt` returns. */
  type CodeUnit = u: int | 0 <= u < 0x1_0000

  /** The code units of one character, as a JavaScript string stores it:
      one unit in the Basic Multilingual Plane, a surrogate pair above it. */
  function Utf16(c: char): (units: seq<CodeUnit>)
    ensures |units| == (if (c as int) < 0x1_0000 then 1 else 2)
    ensures |units| == 1 ==> units[0] == c as int
    ensures |units| == 2 ==>
      0xD800 <= units[0] < 0xDC00 <= units[1] < 0xE000 &&
      0x1_0000 + (units[0] as int - 0xD800) * 0x400 + (units[1] as int - 0xDC00) == c as int
  {
    if (c as int) < 0x1_0000 then [c as int]
    else
      var v := c as int - 0x1_0000;
      [0xD800 + v / 0x400, 0xDC00 + v % 0x400]
  }

  /** The code units of a string, in order: what `split('')` yields. */
  function Units(s: string): seq<CodeUnit>
  {
    if |s| == 0 then [] else Units(s[..|s| - 1]) + Utf16(s[|s| - 1])
  }

  /** A left-to-right sum of weights, the shape of `reduce((acc, x) => acc + w(x), 0)`. */
  function SumBy<T>(s: seq<T>, w: T -> nat): nat
  {
    if |s| == 0 then 0 else SumBy(s[..|s| - 1], w) + w(s[|s| - 1])
  }

  function UnitValue(u: CodeUnit): nat { u }

  /** The weight one character adds to the name hash: the sum of its code units. */
  function CharWeight(c: char): nat { SumBy(Utf16(c), UnitValue) }

  /** The name hash: the sum of the name's UTF-16 code units, which is the sum of
      the code-unit weights of its characters. */
  function NameHash(name: string): (h: nat)
    ensures h == SumBy(name, CharWeight)
  {
    NameHashByChars(name);
    SumBy(Units(name), UnitValue)
  }

  datatype Baseline = Baseline(baseTemp: int, basePrecip: int)

  /** The per-location baseline. The comments next to it promise "between 15 and 30"
      and "between 80 and 120"; the upper ends are never reached. */
  function DeriveBaseline(name: string): (b: Baseline)
    ensures 15 <= b.baseTemp <= 29
    ensures 80 <= b.basePrecip <= 119
  {
    var h := NameHash(name);
    Baseline(15 + h % 15, 80 + h % 40)
  }

  lemma {:induction false} SumByAppend<T>(a: seq<T>, b: seq<T>, w: T -> nat)
    ensures SumBy(a + b, w) == SumBy(a, w) + SumBy(b, w)
    decreases |b|
  {
    if |b| == 0 {
      assert a + b == a;
    } else {
      var b' := b[..|b| - 1];
      assert (a + b)[..|a + b| - 1] == a + b';
      SumByAppend(a, b', w);
    }
  }

  /** Summing the code units of a name is summing the weights of its characters. */
  lemma {:induction false} NameHashByChars(s: string)
    ensures SumBy(Units(s), UnitValue) == SumBy(s, CharWeight)
    decreases |s|
  {
    if |s| > 0 {
      var s' := s[..|s| - 1];
      NameHashByChars(s');
      SumByAppend(Units(s'), Utf16(s[|s| - 1]), UnitValue);
    }
  }

  /** A weighted sum does not depend on the order of its elements. */
  lemma {:induction false} SumByPermutation<T>(a: seq<T>, b: seq<T>, w: T -> nat)
    requires multiset(a) == multiset(b)
    ensures SumBy(a, w) == SumBy(b, w)
    decreases |a|
  {
    if |a| == 0 {
      assert |b| == |multiset(b)| == 0;
    } else {
      var x := a[|a| - 1];
      var a' := a[..|a| - 1];
      assert a == a' + [x];
      assert x in multiset(b);
      var k :| 0 <= k < |b| && b[k] == x;
      var b' := b[..k] + b[k + 1..];
      assert b == b[..k] + [x] + b[k + 1..];
      assert multiset(a') == multiset(a) - multiset{x};
      assert multiset(b') == multiset(b) - multiset{x};
      SumByPermutation(a', b', w);
      SumByAppend(b[..k] + [x], b[k + 1..], w);
      SumByAppend(b[..k], [x], w);
      SumByAppend(b[..k], b[k + 1..], w);
      assert SumBy([x], w) == w(x) by {
        assert [x][..0] == [];
      }
    }
  }

  /** The baseline depends only on the multiset of the name's UTF-16 code units:
      names whose units are a rearrangement of each other get the same baseline, even
      when they split those units into different characters. */
  lemma BaselineOfUnitPermutation(a: string, b: string)
    requires multiset(Units(a)) == multiset(Units(b))
    ensures DeriveBaseline(a) == DeriveBaseline(b)
  {
    SumByPermutation(Units(a), Units(b), UnitValue);
  }

  /** Names with the same characters, in any order, get the same baseline
      (a corollary of `BaselineOfUnitPermutation` stated on characters). */
  lemma BaselineOfPermutation(a: string, b: string)
    requires multiset(a) == multiset(b)
    ensures DeriveBaseline(a) == DeriveBaseline(b)
  {
    SumByPermutation(a, b, CharWeight);
  }

  // ---------------------------------------------------------------------------
  // History generation
  // ---------------------------------------------------------------------------

  /** Number of years in a generated history. */
  const Years: nat := 20

  /** The two `randomInRange` results drawn for one year, in call order:
      the temperature fluctuation (in [-2, 2]) and the precipitation fluctuation (in [-10, 10]). */
  datatype Draw = Draw(temp: real, precip: real)

  /** `parseFloat(x.toFixed(1))` as a number of tenths: the nearest integer to 10x,
      ties away from zero (toFixed works on the magnitude and takes the larger candidate). */
  function RoundTenths(x: real): (n: int)
    ensures 10.0 * x - 0.5 <= n as real <= 10.0 * x + 0.5
    ensures x >= 0.0 ==> 10.0 * x - 0.5 < n as real
    ensures x < 0.0 ==> n as real < 10.0 * x + 0.5
  {
    if x < 0.0 then -((-10.0 * x + 0.5).Floor) else (10.0 * x + 0.5).Floor
  }

  function Tenths(x: real): real { RoundTenths(x) as real / 10.0 }

  function Max(a: real, b: real): real { if a >= b then a else b }

  /** The warming trend of year index i, `i * 0.05`. */
  function WarmingTrend(i: int): real { i as real * 0.05 }

  /** The temperature of year index i before rounding. */
  function UnroundedTemp(baseTemp: int, d: Draw, i: int): real
  {
    baseTemp as real + d.temp + WarmingTrend(i)
  }

  /** The record pushed for year index i: its year counts up from twenty years back, its
      precipitation is never negative and its temperature is the unrounded one to a tenth. */
  function Sample(b: Baseline, currentYear: int, d: Draw, i: int): (s: YearSample)
    ensures s.year == currentYear - Years + i
    ensures s.precipitation >= 0.0
    ensures -0.05 <= s.avgTemp - UnroundedTemp(b.baseTemp, d, i) <= 0.05
  {
    YearSample(
      currentYear - Years + i,
      Tenths(UnroundedTemp(b.baseTemp, d, i)),
      Max(0.0, Tenths(b.basePrecip as real + d.precip)))
  }

  /** The history the generator builds from a baseline, the current year and its draws. */
  function History(b: Baseline, currentYear: int, draws: seq<Draw>): (h: seq<YearSample>)
    requires |draws| == Years
    ensures |h| == Years
    ensures forall i :: 0 <= i < Years ==> h[i].year == currentYear - Years + i
    ensures forall i :: 0 <= i < Years ==> h[i].precipitation >= 0.0
    ensures forall i :: 0 <= i < Years ==>
      -0.05 <= h[i].avgTemp - UnroundedTemp(b.baseTemp, draws[i], i) <= 0.05
  {
    seq(Years, i requires 0 <= i < Years => Sample(b, currentYear, draws[i], i))
  }

  /** `generateHistoricalData`: a 20-step loop pushing one record per year. */
  method GenerateHistoricalData(baseTemp: int, basePrecip: int, currentYear: int, draws: seq<Draw>)
    returns (data: seq<YearSample>)
    requires |draws| == Years
    ensures data == History(Baseline(baseTemp, basePrecip), currentYear, draws)
  {
    ghost var spec := History(Baseline(baseTemp, basePrecip), currentYear, draws);
    data := [];
    for i := 0 to Years
      invariant |data| == i
      invariant forall j :: 0 <= j < i ==> data[j] == spec[j]
    {
      var year := currentYear - Years + i;
      var tempFluctuation := draws[i].temp;
      var warmingTrend := i as real * 0.05;
      var avgTemp := RoundTenths(baseTemp as real + tempFluctuation + warmingTrend) as real / 10.0;
      var precipFluctuation := draws[i].precip;
      var precipitation := Max(0.0, RoundTenths(basePrecip as real + precipFluctuation) as real / 10.0);
      data := data + [YearSample(year, avgTemp, precipitation)];
    }
  }

  /** Years are consecutive, so strictly increasing, and end the year before the current one. */
  lemma HistoryYearsConsecutive(b: Baseline, currentYear: int, draws: seq<Draw>)
    requires |draws| == Years
    ensures var h := History(b, currentYear, draws);
      h[0].year == currentYear - Years && h[Years - 1].year == currentYear - 1 &&
      forall i, j :: 0 <= i < j < Years ==> h[i].year < h[j].year
  {
  }

  /** With a temperature draw in the range `randomInRange` is called with ([-2, 2]), the temperature of year i stays within
      two degrees (plus rounding) of the baseline shifted by the warming trend. */
  lemma HistoryTemperatureBounds(b: Baseline, currentYear: int, draws: seq<Draw>, i: nat)
    requires |draws| == Years && i < Years
    requires -2.0 <= draws[i].temp <= 2.0
    ensures var t := History(b, currentYear, draws)[i].avgTemp;
      b.baseTemp as real - 2.0 + WarmingTrend(i) - 0.05 <= t <= b.baseTemp as real + 2.0 + WarmingTrend(i) + 0.05
  {
  }

  /** For a derived baseline and a precipitation draw in [-10, 10] the clamp at zero
      never acts: the value is the rounded sum of baseline and draw. */
  lemma HistoryPrecipitationUnclamped(name: string, currentYear: int, draws: seq<Draw>, i: nat)
    requires |draws| == Years && i < Years
    requires -10.0 <= draws[i].precip <= 10.0
    ensures var b := DeriveBaseline(name);
      History(b, currentYear, draws)[i].precipitation == Tenths(b.basePrecip as real + draws[i].precip)
  {
  }

  // ---------------------------------------------------------------------------
  // Probability counting
  // ---------------------------------------------------------------------------

  const HotThreshold: real := 30.0
  const ColdThreshold: real := 5.0
  const WetThreshold: real := 100.0
  const WindyThreshold: real := 0.7

  /** The four conditions read off a sample; "windy" is a separate draw. */
  datatype Condition = Hot | Cold | Wet | Uncomfortable

  predicate Holds(c: Condition, s: YearSample)
  {
    match c
    case Hot => s.avgTemp > HotThreshold
    case Cold => s.avgTemp < ColdThreshold
    case Wet => s.precipitation > WetThreshold
    case Uncomfortable => s.avgTemp > HotThreshold && s.precipitation > WetThreshold * 0.8
  }

  /** The number of samples meeting a condition. */
  function Count(h: seq<YearSample>, c: Condition): (n: nat)
    ensures n <= |h|
  {
    if |h| == 0 then 0
    else Count(h[..|h| - 1], c) + (if Holds(c, h[|h| - 1]) then 1 else 0)
  }

  /** The number of windy draws above the threshold. */
  function CountWindy(w: seq<real>): (n: nat)
    ensures n <= |w|
  {
    if |w| == 0 then 0
    else CountWindy(w[..|w| - 1]) + (if w[|w| - 1] > WindyThreshold then 1 else 0)
  }

  /** A count divided by the series length. */
  function Share(k: nat, n: nat): (r: real)
    requires 0 < n && k <= n
    ensures 0.0 <= r <= 1.0
    ensures r == 1.0 <==> k == n
    ensures r == 0.0 <==> k == 0
  {
    k as real / n as real
  }

  lemma ShareSum(a: nat, b: nat, n: nat)
    requires 0 < n && a + b <= n
    ensures Share(a, n) + Share(b, n) == Share(a + b, n)
  {
  }

  lemma ShareMonotone(a: nat, b: nat, n: nat)
    requires 0 < n && a <= b <= n
    ensures Share(a, n) <= Share(b, n)
  {
    assert Share(b, n) - Share(a, n) == (b - a) as real / n as real;
  }

  /** `calculateProbabilities`: every field is a count divided by the series length. */
  function Probabilities(h: seq<YearSample>, w: seq<real>): (p: WeatherProbabilities)
    requires |h| > 0 && |w| == |h|
    ensures 0.0 <= p.hot <= 1.0 && 0.0 <= p.cold <= 1.0 && 0.0 <= p.wet <= 1.0
    ensures 0.0 <= p.windy <= 1.0 && 0.0 <= p.uncomfortable <= 1.0
    ensures p.hot + p.cold <= 1.0
    ensures p.uncomfortable <= p.hot
    ensures p.windy == Share(CountWindy(w), |h|)
  {
    var n := |h|;
    HotColdDisjoint(h);
    ShareSum(Count(h, Hot), Count(h, Cold), n);
    UncomfortableWithinHot(h);
    ShareMonotone(Count(h, Uncomfortable), Count(h, Hot), n);
    WeatherProbabilities(
      Share(Count(h, Hot), n),
      Share(Count(h, Cold), n),
      Share(Count(h, Wet), n),
      Share(CountWindy(w), n),
      Share(Count(h, Uncomfortable), n))
  }

  /** The loop of `calculateProbabilities`, with its five mutable counters. */
  method CalculateProbabilities(h: seq<YearSample>, windyDraws: seq<real>) returns (p: WeatherProbabilities)
    requires |h| > 0 && |windyDraws| == |h|
    ensures p == Probabilities(h, windyDraws)
  {
    var hotDays, coldDays, wetYears, windyYears, uncomfortableYears := 0, 0, 0, 0, 0;
    for i := 0 to |h|
      invariant hotDays == Count(h[..i], Hot)
      invariant coldDays == Count(h[..i], Cold)
      invariant wetYears == Count(h[..i], Wet)
      invariant windyYears == CountWindy(windyDraws[..i])
      invariant uncomfortableYears == Count(h[..i], Uncomfortable)
    {
      assert h[..i + 1][..i] == h[..i];
      assert windyDraws[..i + 1][..i] == windyDraws[..i];
      var yearData := h[i];
      if yearData.avgTemp > HotThreshold { hotDays := hotDays + 1; }
      if yearData.avgTemp < ColdThreshold { coldDays := coldDays + 1; }
      if yearData.precipitation > WetThreshold { wetYears := wetYears + 1; }
      if windyDraws[i] > WindyThreshold { windyYears := windyYears + 1; }
      if yearData.avgTemp > HotThreshold && yearData.precipitation > WetThreshold * 0.8 {
        uncomfortableYears := uncomfortableYears + 1;
      }
    }
    assert h[..|h|] == h;
    assert windyDraws[..|h|] == windyDraws;
    var totalYears := |h| as real;
    p := WeatherProbabilities(
      hotDays as real / totalYears,
      coldDays as real / totalYears,
      wetYears as real / totalYears,
      windyYears as real / totalYears,
      uncomfortableYears as real / totalYears);
  }

  /** No year is both hot and cold. */
  lemma {:induction false} HotColdDisjoint(h: seq<YearSample>)
    ensures Count(h, Hot) + Count(h, Cold) <= |h|
    decreases |h|
  {
    if |h| > 0 {
      HotColdDisjoint(h[..|h| - 1]);
    }
  }

  /** Every uncomfortable year is a hot year. */
  lemma {:induction false} UncomfortableWithinHot(h: seq<YearSample>)
    ensures Count(h, Uncomfortable) <= Count(h, Hot)
    decreases |h|
  {
    if |h| > 0 {
      UncomfortableWithinHot(h[..|h| - 1]);
    }
  }

  /** A count reaches the length exactly when every sample meets the condition. */
  lemma {:induction false} CountAllIff(h: seq<YearSample>, c: Condition)
    ensures Count(h, c) == |h| <==> forall i :: 0 <= i < |h| ==> Holds(c, h[i])
    decreases |h|
  {
    if |h| > 0 {
      var h' := h[..|h| - 1];
      CountAllIff(h', c);
      if forall i :: 0 <= i < |h| ==> Holds(c, h[i]) {
        assert forall i :: 0 <= i < |h'| ==> Holds(c, h'[i]) by {
          forall i | 0 <= i < |h'| ensures Holds(c, h'[i]) { assert h'[i] == h[i]; }
        }
      } else if Count(h, c) == |h| {
        assert Holds(c, h[|h| - 1]);
        forall i | 0 <= i < |h| ensures Holds(c, h[i]) {
          if i < |h'| { assert h'[i] == h[i]; }
        }
      }
    }
  }

  /** A count is zero exactly when no sample meets the condition. */
  lemma {:induction false} CountNoneIff(h: seq<YearSample>, c: Condition)
    ensures Count(h, c) == 0 <==> forall i :: 0 <= i < |h| ==> !Holds(c, h[i])
    decreases |h|
  {
    if |h| > 0 {
      var h' := h[..|h| - 1];
      CountNoneIff(h', c);
      if forall i :: 0 <= i < |h| ==> !Holds(c, h[i]) {
        assert forall i :: 0 <= i < |h'| ==> !Holds(c, h'[i]) by {
          forall i | 0 <= i < |h'| ensures !Holds(c, h'[i]) { assert h'[i] == h[i]; }
        }
      } else if Count(h, c) == 0 {
        forall i | 0 <= i < |h| ensures !Holds(c, h[i]) {
          if i < |h'| { assert h'[i] == h[i]; }
        }
      }
    }
  }

  /** The field a condition is reported in. */
  function Field(p: WeatherProbabilities, c: Condition): real
  {
    match c
    case Hot => p.hot
    case Cold => p.cold
    case Wet => p.wet
    case Uncomfortable => p.uncomfortable
  }

  /** A probability is 1 exactly when every year meets its condition, and 0 exactly when none does. */
  lemma ProbabilityExtremes(h: seq<YearSample>, w: seq<real>, c: Condition)
    requires |h| > 0 && |w| == |h|
    ensures Field(Probabilities(h, w), c) == 1.0 <==> forall i :: 0 <= i < |h| ==> Holds(c, h[i])
    ensures Field(Probabilities(h, w), c) == 0.0 <==> forall i :: 0 <= i < |h| ==> !Holds(c, h[i])
  {
    CountAllIff(h, c);
    CountNoneIff(h, c);
    assert Field(Probabilities(h, w), c) == Share(Count(h, c), |h|);
  }

  // ---------------------------------------------------------------------------
  // Seasonal adjustment and the mock API's result
  // ---------------------------------------------------------------------------

  /** The seasonal offset: the seasonal formula of the day difference when the selected
      day lies after today, otherwise zero. Days are local-midnight day numbers. */
  function SeasonalAdjustment(selectedDay: int, today: int, seasonal: int -> real): (offset: real)
    ensures selectedDay <= today ==> offset == 0.0
  {
    if selectedDay > today then seasonal(selectedDay - today) else 0.0
  }

  /** The `map` with spread: only the temperature of each record moves. */
  function Adjust(h: seq<YearSample>, offset: real): (r: seq<YearSample>)
    ensures |r| == |h|
    ensures forall i :: 0 <= i < |h| ==>
      r[i].year == h[i].year && r[i].precipitation == h[i].precipitation &&
      r[i].avgTemp == h[i].avgTemp + offset
  {
    seq(|h|, i requires 0 <= i < |h| => h[i].(avgTemp := h[i].avgTemp + offset))
  }

  lemma AdjustByZero(h: seq<YearSample>)
    ensures Adjust(h, 0.0) == h
  {
    assert forall i :: 0 <= i < |h| ==> Adjust(h, 0.0)[i] == h[i];
  }

  lemma {:induction false} AdjustPrefix(h: seq<YearSample>, offset: real, k: nat)
    requires k <= |h|
    ensures Adjust(h, offset)[..k] == Adjust(h[..k], offset)
  {
    assert forall i :: 0 <= i < k ==> Adjust(h, offset)[..k][i] == Adjust(h[..k], offset)[i];
  }

  /** Shifting temperatures leaves the wet count alone. */
  lemma {:induction false} AdjustKeepsWet(h: seq<YearSample>, offset: real)
    ensures Count(Adjust(h, offset), Wet) == Count(h, Wet)
    decreases |h|
  {
    if |h| > 0 {
      var n := |h| - 1;
      AdjustPrefix(h, offset, n);
      AdjustKeepsWet(h[..n], offset);
    }
  }

  /** The sum of temperatures, the `reduce` behind `avgTempFromHistory`. */
  function SumTemps(h: seq<YearSample>): real
  {
    if |h| == 0 then 0.0 else SumTemps(h[..|h| - 1]) + h[|h| - 1].avgTemp
  }

  function MeanTemp(h: seq<YearSample>): real
    requires |h| > 0
  {
    SumTemps(h) / |h| as real
  }

  lemma {:induction false} SumTempsAdjust(h: seq<YearSample>, offset: real)
    ensures SumTemps(Adjust(h, offset)) == SumTemps(h) + |h| as real * offset
    decreases |h|
  {
    if |h| > 0 {
      var n := |h| - 1;
      AdjustPrefix(h, offset, n);
      SumTempsAdjust(h[..n], offset);
    }
  }

  /** The mean of the adjusted series is the unadjusted mean plus the offset. */
  lemma MeanTempAdjust(h: seq<YearSample>, offset: real)
    requires |h| > 0
    ensures MeanTemp(Adjust(h, offset)) == MeanTemp(h) + offset
  {
    SumTempsAdjust(h, offset);
    DivideShifted(SumTemps(h), |h| as real, offset);
  }

  lemma DivideShifted(a: real, n: real, offset: real)
    requires n > 0.0
    ensures (a + n * offset) / n == a / n + offset
  {
    assert (a / n) * n == a;
    assert (a / n + offset) * n == a + n * offset;
  }

  /** `fetchMockWeatherData`. `isoDate` is the selected date's ISO rendering; `selectedDay`
      and `today` are its day number and today's; `draws` and `windyDraws` are the
      random values in the order the generator and the counter consume them;
      `seasonal` is the seasonal formula of the day difference; `bellCurve` the density
      curve generator (mean, standard deviation 5, 50 steps). */
  method FetchMockWeatherData(
    location: Location, isoDate: string, selectedDay: int, today: int, currentYear: int,
    draws: seq<Draw>, windyDraws: seq<real>,
    seasonal: int -> real, bellCurve: real -> seq<ChartDataPoint>)
    returns (data: WeatherData)
    requires |draws| == Years && |windyDraws| == Years
    ensures data.location == location && data.date == isoDate
    ensures data.historicalTrends == History(DeriveBaseline(location.name), currentYear, draws)
    ensures var adjusted := Adjust(data.historicalTrends, SeasonalAdjustment(selectedDay, today, seasonal));
      data.probabilities == Probabilities(adjusted, windyDraws) &&
      data.tempDistribution == bellCurve(MeanTemp(adjusted))
    ensures selectedDay <= today ==>
      data.probabilities == Probabilities(data.historicalTrends, windyDraws) &&
      data.tempDistribution == bellCurve(MeanTemp(data.historicalTrends))
  {
    var nameHash := NameHash(location.name);
    var baseTemp := 15 + nameHash % 15;
    var basePrecip := 80 + nameHash % 40;
    assert Baseline(baseTemp, basePrecip) == DeriveBaseline(location.name);

    var historicalTrends := GenerateHistoricalData(baseTemp, basePrecip, currentYear, draws);

    var seasonalAdjustment := 0.0;
    if selectedDay > today {
      seasonalAdjustment := seasonal(selectedDay - today);
    }
    assert seasonalAdjustment == SeasonalAdjustment(selectedDay, today, seasonal);

    var adjustedHistoricalTrends := Adjust(historicalTrends, seasonalAdjustment);
    var probabilities := CalculateProbabilities(adjustedHistoricalTrends, windyDraws);

    var avgTempFromHistory := SumTemps(historicalTrends) / |historicalTrends| as real;
    var tempDistributionMean := avgTempFromHistory + seasonalAdjustment;
    var tempDistribution := bellCurve(tempDistributionMean);

    MeanTempAdjust(historicalTrends, seasonalAdjustment);
    assert tempDistributionMean == MeanTemp(adjustedHistoricalTrends);
    if selectedDay <= today {
      AdjustByZero(historicalTrends);
    }
    data := WeatherData(location, isoDate, probabilities, tempDistribution, historicalTrends);
  }
}
