/** The export view: the CSV serialiser of a weather bundle and the download file name.
    JavaScript's rendering of numbers is the parameter `render`. */
module DataExport {
  import opened Types

  // ---------------------------------------------------------------------------
  // Lines and their text
  // ---------------------------------------------------------------------------

  /** Each line followed by a line feed, concatenated. */
  function Join(lines: seq<string>): string
  {
    if |lines| == 0 then "" else lines[0] + "\n" + Join(lines[1..])
  }

  /** Position of the first line feed, or the length when there is none. */
  function IndexOfNewline(s: string): (k: nat)
    ensures k <= |s|
    ensures k < |s| ==> s[k] == '\n'
    ensures forall j :: 0 <= j < k ==> s[j] != '\n'
  {
    if |s| == 0 || s[0] == '\n' then 0 else 1 + IndexOfNewline(s[1..])
  }

  /** Splits a text into its lines, each line ended by a line feed (an unterminated
      last line counts as a line too). */
  function SplitLines(s: string): seq<string>
    decreases |s|
  {
    if |s| == 0 then []
    else
      var k := IndexOfNewline(s);
      if k == |s| then [s] else [s[..k]] + SplitLines(s[k + 1..])
  }

  predicate OneLine(s: string) { '\n' !in s }

  lemma {:induction false} JoinAppend(lines: seq<string>, line: string)
    ensures Join(lines + [line]) == Join(lines) + line + "\n"
    decreases |lines|
  {
    if |lines| == 0 {
      assert [] + [line] == [line];
      assert [line][1..] == [];
    } else {
      assert (lines + [line])[1..] == lines[1..] + [line];
      JoinAppend(lines[1..], line);
    }
  }

  lemma {:induction false} JoinConcat(a: seq<string>, b: seq<string>)
    ensures Join(a + b) == Join(a) + Join(b)
    decreases |a|
  {
    if |a| == 0 {
      assert a + b == b;
    } else {
      assert (a + b)[1..] == a[1..] + b;
      JoinConcat(a[1..], b);
    }
  }

  lemma {:induction false} IndexOfNewlineAfter(a: string, b: string)
    requires OneLine(a)
    ensures IndexOfNewline(a + "\n" + b) == |a|
    decreases |a|
  {
    if |a| > 0 {
      assert (a + "\n" + b)[1..] == a[1..] + "\n" + b;
      IndexOfNewlineAfter(a[1..], b);
    }
  }

  /** Splitting the joined text gives back the lines, when none holds a line feed. */
  lemma {:induction false} SplitJoin(lines: seq<string>)
    requires forall i :: 0 <= i < |lines| ==> OneLine(lines[i])
    ensures SplitLines(Join(lines)) == lines
    decreases |lines|
  {
    if |lines| > 0 {
      var a, rest := lines[0], Join(lines[1..]);
      var s := a + "\n" + rest;
      IndexOfNewlineAfter(a, rest);
      assert s[..|a|] == a;
      assert s[|a| + 1..] == rest;
      SplitJoin(lines[1..]);
    }
  }

  /** Every segment ends in a line feed, so a non-empty text ends in one. */
  lemma {:induction false} JoinEndsWithNewline(lines: seq<string>)
    requires |lines| > 0
    ensures |Join(lines)| > 0 && Join(lines)[|Join(lines)| - 1] == '\n'
    decreases |lines|
  {
    if |lines| > 1 {
      JoinEndsWithNewline(lines[1..]);
    }
  }

  // ---------------------------------------------------------------------------
  // The CSV layout
  // ---------------------------------------------------------------------------

  const Header: string := "category,value"
  const ProbabilitiesMarker: string := "---PROBABILITIES---"
  const TrendsMarker: string := "---HISTORICAL TRENDS---"
  const TrendsHeader: string := "year,avgTemp,precipitation"

  /** `Object.entries` of the probabilities record: its fields in declaration order. */
  function Entries(p: WeatherProbabilities): (es: seq<(string, real)>)
    ensures |es| == 5
  {
    [("hot", p.hot), ("cold", p.cold), ("wet", p.wet), ("windy", p.windy),
     ("uncomfortable", p.uncomfortable)]
  }

  function EntryRow(e: (string, real), render: real -> string): string
  {
    e.0 + "," + render(e.1)
  }

  function TrendRow(d: YearSample, render: real -> string): string
  {
    render(d.year as real) + "," + render(d.avgTemp) + "," + render(d.precipitation)
  }

  function EntryRows(es: seq<(string, real)>, render: real -> string): (rows: seq<string>)
    ensures |rows| == |es|
  {
    seq(|es|, i requires 0 <= i < |es| => EntryRow(es[i], render))
  }

  function TrendRows(h: seq<YearSample>, render: real -> string): (rows: seq<string>)
    ensures |rows| == |h|
  {
    seq(|h|, i requires 0 <= i < |h| => TrendRow(h[i], render))
  }

  /** The lines of the CSV view: the location block, the probability section and the
      trends section, in that order, each line at a fixed position. */
  function CsvLines(d: WeatherData, render: real -> string): (ls: seq<string>)
    ensures var es := Entries(d.probabilities);
      var h := d.historicalTrends;
      |ls| == 6 + |es| + |h| &&
      ls[0] == Header && ls[1] == "location," + d.location.name && ls[2] == "date," + d.date &&
      ls[3] == ProbabilitiesMarker &&
      (forall k :: 0 <= k < |es| ==> ls[4 + k] == EntryRow(es[k], render)) &&
      ls[4 + |es|] == TrendsMarker && ls[5 + |es|] == TrendsHeader &&
      (forall i :: 0 <= i < |h| ==> ls[6 + |es| + i] == TrendRow(h[i], render))
  {
    [Header, "location," + d.location.name, "date," + d.date, ProbabilitiesMarker]
      + EntryRows(Entries(d.probabilities), render)
      + [TrendsMarker, TrendsHeader]
      + TrendRows(d.historicalTrends, render)
  }

  function CsvText(d: WeatherData, render: real -> string): string
  {
    Join(CsvLines(d, render))
  }

  /** `convertToCsv`: grows one string with `+=`, one line-feed-terminated segment at a time. */
  method ConvertToCsv(data: WeatherData, render: real -> string) returns (csv: string)
    ensures csv == CsvText(data, render)
  {
    ghost var lines := [Header];
    csv := "category,value\n";
    assert csv == Join(lines);
    JoinAppend(lines, "location," + data.location.name);
    csv := csv + "location," + data.location.name + "\n";
    lines := lines + ["location," + data.location.name];
    JoinAppend(lines, "date," + data.date);
    csv := csv + "date," + data.date + "\n";
    lines := lines + ["date," + data.date];
    JoinAppend(lines, ProbabilitiesMarker);
    csv := csv + "---PROBABILITIES---\n";
    lines := lines + [ProbabilitiesMarker];

    var entries := Entries(data.probabilities);
    ghost var head := lines;
    for i := 0 to |entries|
      invariant lines == head + EntryRows(entries[..i], render)
      invariant csv == Join(lines)
    {
      var (key, value) := entries[i];
      JoinAppend(lines, key + "," + render(value));
      csv := csv + key + "," + render(value) + "\n";
      lines := lines + [key + "," + render(value)];
      assert EntryRows(entries[..i + 1], render) == EntryRows(entries[..i], render) + [EntryRow(entries[i], render)];
    }
    assert entries[..|entries|] == entries;
    assert lines == [Header, "location," + data.location.name, "date," + data.date, ProbabilitiesMarker]
      + EntryRows(Entries(data.probabilities), render);

    JoinAppend(lines, TrendsMarker);
    csv := csv + "---HISTORICAL TRENDS---\n";
    lines := lines + [TrendsMarker];
    JoinAppend(lines, TrendsHeader);
    csv := csv + "year,avgTemp,precipitation\n";
    lines := lines + [TrendsHeader];

    var trends := data.historicalTrends;
    head := lines;
    for i := 0 to |trends|
      invariant lines == head + TrendRows(trends[..i], render)
      invariant csv == Join(lines)
    {
      var d := trends[i];
      var row := render(d.year as real) + "," + render(d.avgTemp) + "," + render(d.precipitation);
      JoinAppend(lines, row);
      csv := csv + row + "\n";
      lines := lines + [row];
      assert TrendRows(trends[..i + 1], render) == TrendRows(trends[..i], render) + [TrendRow(trends[i], render)];
    }
    assert trends[..|trends|] == trends;
    assert lines == CsvLines(data, render);
  }

  /** The text opens with the header, the location name and the date, each copied verbatim. */
  lemma CsvOpening(d: WeatherData, render: real -> string)
    ensures var opening := Header + "\n" + ("location," + d.location.name) + "\n" + ("date," + d.date) + "\n";
      |opening| <= |CsvText(d, render)| && CsvText(d, render)[..|opening|] == opening
  {
    var lines := CsvLines(d, render);
    var first := [Header, "location," + d.location.name, "date," + d.date];
    assert lines == first + lines[3..];
    JoinConcat(first, lines[3..]);
    assert Join(first[2..]) == "date," + d.date + "\n" by {
      assert first[2..][1..] == [];
    }
    assert first[1..][1..] == first[2..];
    assert Join(first[1..]) == "location," + d.location.name + "\n" + Join(first[2..]);
  }

  /** The text is non-empty and ends in a line feed. */
  lemma CsvEndsWithNewline(d: WeatherData, render: real -> string)
    ensures |CsvText(d, render)| > 0 && CsvText(d, render)[|CsvText(d, render)| - 1] == '\n'
  {
    JoinEndsWithNewline(CsvLines(d, render));
  }

  /** With one-line name, date and renderings, no line of the CSV view holds a line feed. */
  lemma CsvLinesOneLine(d: WeatherData, render: real -> string)
    requires OneLine(d.location.name) && OneLine(d.date)
    requires forall x :: OneLine(render(x))
    ensures forall i :: 0 <= i < |CsvLines(d, render)| ==> OneLine(CsvLines(d, render)[i])
  {
    var lines := CsvLines(d, render);
    var es := Entries(d.probabilities);
    var h := d.historicalTrends;
    forall i | 0 <= i < |lines| ensures OneLine(lines[i]) {
      if i == 1 {
        assert lines[i] == "location," + d.location.name;
      } else if i == 2 {
        assert lines[i] == "date," + d.date;
      } else if 4 <= i < 4 + |es| {
        var e := es[i - 4];
        assert lines[i] == e.0 + "," + render(e.1);
        assert OneLine(render(e.1));
      } else if 6 + |es| <= i {
        var y := h[i - 6 - |es|];
        assert lines[i] == render(y.year as real) + "," + render(y.avgTemp) + "," + render(y.precipitation);
        assert OneLine(render(y.year as real)) && OneLine(render(y.avgTemp)) && OneLine(render(y.precipitation));
      }
    }
  }

  /** When the name, the date and every rendered number fit on one line, the text splits
      into exactly 6 + 5 + N lines: the three opening lines, the probabilities marker, one
      `key,value` row per field in record order, the trends marker right before its header,
      and one row per record in input order. */
  lemma CsvLayout(d: WeatherData, render: real -> string)
    requires OneLine(d.location.name) && OneLine(d.date)
    requires forall x :: OneLine(render(x))
    ensures var ls := SplitLines(CsvText(d, render));
      var es := Entries(d.probabilities);
      var h := d.historicalTrends;
      |ls| == 6 + |es| + |h| &&
      ls[0] == Header && ls[1] == "location," + d.location.name && ls[2] == "date," + d.date &&
      ls[3] == ProbabilitiesMarker &&
      (forall k :: 0 <= k < |es| ==> ls[4 + k] == es[k].0 + "," + render(es[k].1)) &&
      ls[4 + |es|] == TrendsMarker && ls[5 + |es|] == TrendsHeader &&
      (forall i :: 0 <= i < |h| ==>
        ls[6 + |es| + i] ==
          render(h[i].year as real) + "," + render(h[i].avgTemp) + "," + render(h[i].precipitation))
  {
    CsvLinesOneLine(d, render);
    SplitJoin(CsvLines(d, render));
  }

  // ---------------------------------------------------------------------------
  // The download file name
  // ---------------------------------------------------------------------------

  datatype ExportFormat = Json | Csv

  function Extension(f: ExportFormat): string
  {
    match f
    case Json => "json"
    case Csv => "csv"
  }

  /** JavaScript's `\s`: the WhiteSpace and LineTerminator code points of ECMAScript. */
  predicate IsWhitespace(c: char)
  {
    c == '\t' || c == '\n' || c == '\U{000B}' || c == '\U{000C}' || c == '\r' || c == ' ' ||
    c == '\U{00A0}' || c == '\U{1680}' || ('\U{2000}' <= c <= '\U{200A}') ||
    c == '\U{2028}' || c == '\U{2029}' || c == '\U{202F}' || c == '\U{205F}' ||
    c == '\U{3000}' || c == '\U{FEFF}'
  }

  /** `replace(/\s/g, '_')`. */
  function ReplaceWhitespace(s: string): (r: string)
    ensures |r| == |s|
    ensures forall i :: 0 <= i < |s| ==> r[i] == (if IsWhitespace(s[i]) then '_' else s[i])
    ensures forall i :: 0 <= i < |r| ==> !IsWhitespace(r[i])
  {
    if |s| == 0 then []
    else [if IsWhitespace(s[0]) then '_' else s[0]] + ReplaceWhitespace(s[1..])
  }

  const FilenamePrefix: string := "weatherwise_data_"

  /** The name given to the downloaded file. */
  function ExportFilename(name: string, format: ExportFormat): (f: string)
    ensures |f| == |FilenamePrefix| + |name| + 1 + |Extension(format)|
    ensures f[..|FilenamePrefix|] == FilenamePrefix
    ensures f[|FilenamePrefix| + |name|..] == "." + Extension(format)
    ensures forall i :: 0 <= i < |name| ==>
      f[|FilenamePrefix| + i] == (if IsWhitespace(name[i]) then '_' else name[i])
    ensures forall i :: 0 <= i < |f| ==> !IsWhitespace(f[i])
  {
    var filename := FilenamePrefix + ReplaceWhitespace(name);
    var suffix := "." + Extension(format);
    var f := filename + suffix;
    assert forall i :: 0 <= i < |suffix| ==> !IsWhitespace(suffix[i]) by {
      if format == Json {
        assert suffix == ['.', 'j', 's', 'o', 'n'];
      } else {
        assert suffix == ['.', 'c', 's', 'v'];
      }
    }
    assert forall i :: 0 <= i < |FilenamePrefix| ==> !IsWhitespace(FilenamePrefix[i]);
    assert f[..|FilenamePrefix|] == FilenamePrefix;
    assert f[|filename|..] == suffix;
    assert forall i :: 0 <= i < |f| ==> f[i] == if i < |filename| then filename[i] else suffix[i - |filename|];
    f
  }

  /** Replacing whitespace twice changes nothing more, so a name that already went
      through the replacement yields the same file name. */
  lemma FilenameOfReplacedName(name: string, format: ExportFormat)
    ensures ExportFilename(ReplaceWhitespace(name), format) == ExportFilename(name, format)
  {
    var r := ReplaceWhitespace(name);
    assert ReplaceWhitespace(r) == r;
  }
}
