/** The metrics of Server-Timing fields, and that parsing undoes printing. */
module ServerTimingMetrics {
  import opened Options
  import opened ServerTiming
  import opened Text

  datatype Metric = Metric(name: string, durationMs: Option<real>, description: Option<string>)

  const MAX_METRICS := 128
  const MAX_NAME_LENGTH := 128
  const MAX_DESCRIPTION_LENGTH := 512

  predicate TokenCharacter(c: char) {
    c in "!#$%&'*+-.^_`|~" || '0' <= c <= '9' || 'A' <= c <= 'Z' || 'a' <= c <= 'z'
  }

  predicate MetricName(s: string) {
    1 <= |s| <= MAX_NAME_LENGTH && forall i | 0 <= i < |s| :: TokenCharacter(s[i])
  }

  datatype Parameter = Parameter(name: string, value: string)

  function ParameterValue(text: string): Option<Parameter> {
    var i := IndexOf(text, '=');
    if i == |text| then None
    else
      var name := Lower(Trim(text[..i]));
      if name == "" then None else Some(Parameter(name, Trim(text[i + 1..])))
  }

  function First(n: nat, s: string): string { if |s| <= n then s else s[..n] }

  /** One parameter: a later one of the same name wins, and a duration that is no finite number of at least
      zero is passed over. `number` reads the finite numbers. */
  function WithParameter(metric: Metric, text: string, number: string -> Option<real>): Metric {
    match ParameterValue(text)
    case None => metric
    case Some(Parameter(name, value)) =>
      if name == "dur" then
        if number(value).Some? && number(value).value >= 0.0 then metric.(durationMs := number(value)) else metric
      else if name == "desc" then metric.(description := Some(First(MAX_DESCRIPTION_LENGTH, Unquoted(value))))
      else metric
  }

  function WithParameters(metric: Metric, texts: seq<string>, number: string -> Option<real>): Metric {
    if texts == [] then metric
    else WithParameter(WithParameters(metric, texts[..|texts| - 1], number), texts[|texts| - 1], number)
  }

  /** A raw metric, unless its name is not one. */
  function MetricOf(raw: string, number: string -> Option<real>): Option<Metric> {
    var parts := SplitQuoted(raw, ';');
    if !MetricName(Trim(parts[0])) then None
    else Some(WithParameters(Metric(Trim(parts[0]), None, None), parts[1..], number))
  }

  function MetricsOf(raws: seq<string>, number: string -> Option<real>): seq<Metric> {
    if raws == [] then []
    else
      var metric := MetricOf(raws[|raws| - 1], number);
      MetricsOf(raws[..|raws| - 1], number) + if metric.Some? then [metric.value] else []
  }

  function RawsOf(fields: seq<string>): seq<string> {
    if fields == [] then [] else RawsOf(fields[..|fields| - 1]) + SplitQuoted(fields[|fields| - 1], ',')
  }

  /** The first metrics of all fields, up to the limit. */
  function Parsed(fields: seq<string>, number: string -> Option<real>): seq<Metric> {
    var metrics := MetricsOf(RawsOf(fields), number);
    if |metrics| <= MAX_METRICS then metrics else metrics[..MAX_METRICS]
  }

  /** The characters of a token, section 5.6.2 of RFC 9110. */
  predicate TokenCode(u: int) {
    u in {33, 35, 36, 37, 38, 39, 42, 43, 45, 46, 94, 95, 96, 124, 126} || 48 <= u <= 57 || 65 <= u <= 90 || 97 <= u <= 122
  }

  /** A name is a token of at most 128 characters. */
  lemma NamesExactly(s: string)
    ensures MetricName(s) <==> 1 <= |s| <= 128 && forall i | 0 <= i < |s| :: TokenCode(s[i] as int)
  {
    forall i | 0 <= i < |s| ensures TokenCharacter(s[i]) <==> TokenCode(s[i] as int) { TokensExactly(s[i]); }
  }

  lemma TokensExactly(c: char)
    ensures TokenCharacter(c) <==> TokenCode(c as int)
  {
    assert forall k | 0 <= k < 15 :: TokenCode("!#$%&'*+-.^_`|~"[k] as int);
  }

  /** What no metric exceeds: a name, a description of at most 512 characters and no negative duration. */
  predicate WithinLimits(metric: Metric) {
    && MetricName(metric.name)
    && (metric.durationMs.Some? ==> metric.durationMs.value >= 0.0)
    && (metric.description.Some? ==> |metric.description.value| <= 512)
  }

  /** What is kept is the first 128 of the metrics that all fields hold, each within the limits. */
  lemma ParsedWithinLimits(fields: seq<string>, number: string -> Option<real>)
    ensures var kept, all := Parsed(fields, number), MetricsOf(RawsOf(fields), number);
            kept <= all && |kept| == (if |all| < 128 then |all| else 128)
            && forall i | 0 <= i < |kept| :: WithinLimits(kept[i])
  {
    MetricsWithinLimits(RawsOf(fields), number);
  }

  lemma {:induction false} MetricsWithinLimits(raws: seq<string>, number: string -> Option<real>)
    ensures forall i | 0 <= i < |MetricsOf(raws, number)| :: WithinLimits(MetricsOf(raws, number)[i])
    decreases |raws|
  {
    if raws != [] {
      hide MetricOf, WithinLimits;
      MetricsWithinLimits(raws[..|raws| - 1], number);
      MetricWithinLimits(raws[|raws| - 1], number);
    }
  }

  lemma MetricWithinLimits(raw: string, number: string -> Option<real>)
    ensures MetricOf(raw, number).Some? ==> WithinLimits(MetricOf(raw, number).value)
  {
    var parts := SplitQuoted(raw, ';');
    hide SplitQuoted, Trim, MetricName, WithParameters;
    if MetricName(Trim(parts[0])) { ParametersWithinLimits(Metric(Trim(parts[0]), None, None), parts[1..], number); }
  }

  lemma {:induction false} ParametersWithinLimits(metric: Metric, texts: seq<string>, number: string -> Option<real>)
    requires WithinLimits(metric)
    ensures WithinLimits(WithParameters(metric, texts, number)) && WithParameters(metric, texts, number).name == metric.name
    decreases |texts|
  {
    if texts != [] {
      ParametersWithinLimits(metric, texts[..|texts| - 1], number);
      hide ParameterValue, Unquoted;
    }
  }

  lemma NextParameter(metric: Metric, texts: seq<string>, i: nat, number: string -> Option<real>)
    requires i < |texts|
    ensures WithParameters(metric, texts[..i + 1], number)
         == WithParameter(WithParameters(metric, texts[..i], number), texts[i], number)
  {
    hide WithParameter;
    assert texts[..i + 1][..i] == texts[..i];
  }

  method ParseMetric(raw: string, number: string -> Option<real>) returns (metric: Option<Metric>)
    ensures metric == MetricOf(raw, number)
  {
    var parts := SplitOutsideQuotes(raw, ';');
    var name := Trim(parts[0]);
    if !MetricName(name) {
      return None;
    }
    var parameters := parts[1..];
    var durationMs: Option<real>, description: Option<string> := None, None;
    var index := 0;
    assert parameters[..0] == [];
    hide WithParameters, SplitQuoted, Trim, Unquoted, ParameterValue, MetricName;
    while index < |parameters|
      invariant 0 <= index <= |parameters|
      invariant Metric(name, durationMs, description) == WithParameters(Metric(name, None, None), parameters[..index], number)
    {
      var parameter := ParameterValue(parameters[index]);
      NextParameter(Metric(name, None, None), parameters, index, number);
      if parameter.Some? {
        var value := parameter.value.value;
        if parameter.value.name == "dur" {
          var parsed := number(value);
          if parsed.Some? && parsed.value >= 0.0 {
            durationMs := parsed;
          }
        } else if parameter.value.name == "desc" {
          var unquoted := Unquote(value);
          description := Some(First(MAX_DESCRIPTION_LENGTH, unquoted));
        }
      }
      index := index + 1;
    }
    assert parameters[..index] == parameters;
    metric := Some(Metric(name, durationMs, description));
  }

  lemma {:induction false} MetricsAppend(a: seq<string>, b: seq<string>, number: string -> Option<real>)
    ensures MetricsOf(a + b, number) == MetricsOf(a, number) + MetricsOf(b, number)
    decreases |b|
  {
    if b == [] {
      assert a + b == a;
    } else {
      assert (a + b)[..|a + b| - 1] == a + b[..|b| - 1];
      MetricsAppend(a, b[..|b| - 1], number);
    }
  }

  lemma {:induction false} RawsGrow(fields: seq<string>, n: nat)
    requires n <= |fields|
    ensures RawsOf(fields[..n]) <= RawsOf(fields)
    decreases |fields|
  {
    if n < |fields| {
      RawsGrow(fields[..|fields| - 1], n);
      assert fields[..|fields| - 1][..n] == fields[..n];
    } else {
      assert fields[..n] == fields;
    }
  }

  /** Enough metrics from a first part of the fields are the answer. */
  lemma EnoughMetrics(fields: seq<string>, raws: seq<string>, number: string -> Option<real>)
    requires raws <= RawsOf(fields) && |MetricsOf(raws, number)| == MAX_METRICS
    ensures Parsed(fields, number) == MetricsOf(raws, number)
  {
    var all := RawsOf(fields);
    assert all == raws + all[|raws|..];
    MetricsAppend(raws, all[|raws|..], number);
  }

  lemma NextMetric(before: seq<string>, raws: seq<string>, i: nat, number: string -> Option<real>)
    requires i < |raws|
    ensures MetricsOf(before + raws[..i + 1], number)
         == MetricsOf(before + raws[..i], number) + if MetricOf(raws[i], number).Some? then [MetricOf(raws[i], number).value] else []
  {
    assert (before + raws[..i + 1])[..|before| + i] == before + raws[..i];
  }

  lemma NextField(fields: seq<string>, i: nat)
    requires i < |fields|
    ensures RawsOf(fields[..i + 1]) == RawsOf(fields[..i]) + SplitQuoted(fields[i], ',')
    ensures RawsOf(fields[..i + 1]) <= RawsOf(fields)
  {
    assert fields[..i + 1][..i] == fields[..i];
    RawsGrow(fields, i + 1);
  }

  lemma Prefixed(before: seq<string>, raws: seq<string>, i: nat, all: seq<string>)
    requires i <= |raws| && before + raws <= all
    ensures before + raws[..i] <= all && before + raws[..0] == before && before + raws[..|raws|] == before + raws
  {
  }

  method ParseServerTiming(fields: seq<string>, number: string -> Option<real>) returns (metrics: seq<Metric>)
    ensures metrics == Parsed(fields, number)
  {
    metrics := [];
    var field := 0;
    assert fields[..0] == [];
    while field < |fields|
      invariant 0 <= field <= |fields|
      invariant metrics == MetricsOf(RawsOf(fields[..field]), number) && |metrics| < MAX_METRICS
    {
      hide RawsOf, SplitQuoted, MetricOf, MetricsOf, Parsed;
      var raws := SplitOutsideQuotes(fields[field], ',');
      ghost var before := RawsOf(fields[..field]);
      NextField(fields, field);
      var index := 0;
      Prefixed(before, raws, 0, RawsOf(fields));
      while index < |raws|
        invariant 0 <= index <= |raws|
        invariant metrics == MetricsOf(before + raws[..index], number) && |metrics| < MAX_METRICS
      {
        var metric := ParseMetric(raws[index], number);
        NextMetric(before, raws, index, number);
        if metric.Some? {
          metrics := metrics + [metric.value];
          if |metrics| >= MAX_METRICS {
            Prefixed(before, raws, index + 1, RawsOf(fields));
            EnoughMetrics(fields, before + raws[..index + 1], number);
            return;
          }
        }
        index := index + 1;
      }
      field := field + 1;
    }
    assert fields[..field] == fields;
  }

  // ----- printing

  function PrintedParameters(metric: Metric, show: real -> string): seq<string> {
    (if metric.durationMs.Some? then ["dur=" + show(metric.durationMs.value)] else [])
    + if metric.description.Some? then ["desc=" + Quote(metric.description.value)] else []
  }

  function PrintedMetric(metric: Metric, show: real -> string): string {
    Join([metric.name] + PrintedParameters(metric, show), ';')
  }

  /** Metrics after the first stand after a comma and a space. */
  function PrintedRaws(metrics: seq<Metric>, show: real -> string): seq<string> {
    seq(|metrics|, i requires 0 <= i < |metrics| => (if i == 0 then "" else " ") + PrintedMetric(metrics[i], show))
  }

  function Printed(metrics: seq<Metric>, show: real -> string): string {
    Join(PrintedRaws(metrics, show), ',')
  }

  /** The text of a duration reads back and holds nothing that would end it early. */
  predicate ReadsBack(number: string -> Option<real>, show: real -> string, metric: Metric) {
    metric.durationMs.Some? ==>
      number(show(metric.durationMs.value)) == metric.durationMs && Unbroken(show(metric.durationMs.value))
  }

  predicate Unbroken(s: string) {
    forall i | 0 <= i < |s| :: s[i] !in "\",;" && !Space(s[i])
  }

  lemma UnbrokenTrim(s: string)
    requires Unbroken(s)
    ensures Trim(s) == s && Trim(" " + s) == s
  {
    assert (" " + s)[1..] == s;
  }

  lemma NameIsUnbroken(name: string)
    requires MetricName(name)
    ensures Unbroken(name) && NoQuote(name)
  {
    forall i | 0 <= i < |name| ensures name[i] !in "\",;" && !Space(name[i]) && name[i] != '"' {
      assert TokenCharacter(name[i]);
    }
  }

  lemma SeparatorFound(key: string, value: string)
    requires forall k | 0 <= k < |key| :: key[k] != '='
    ensures IndexOf(key + "=" + value, '=') == |key|
    ensures (key + "=" + value)[..|key|] == key && (key + "=" + value)[|key| + 1..] == value
  {
    var text := key + "=" + value;
    assert text[|key|] == '=' && forall k | 0 <= k < |key| :: text[k] == key[k];
  }

  lemma KeysAreLower()
    ensures Lower("dur") == "dur" && Lower("desc") == "desc"
  {
  }

  lemma ParameterRead(key: string, value: string)
    requires key == "dur" || key == "desc"
    ensures ParameterValue(key + "=" + value) == Some(Parameter(key, Trim(value)))
  {
    hide Trim, IndexOf, Lower;
    SeparatorFound(key, value);
    UnbrokenTrim(key);
    KeysAreLower();
  }

  /** Parameter names are recognized in any case. */
  lemma KeysIgnoreCase(key: string, lower: string, value: string)
    requires (lower == "dur" || lower == "desc") && SameLetters(key, lower)
    ensures ParameterValue(key + "=" + value) == Some(Parameter(lower, Trim(value)))
  {
    forall i | 0 <= i < |key| ensures 'A' <= key[i] <= 'z' && !Space(key[i]) { assert SameLetter(key[i], lower[i]); }
    hide Trim, IndexOf, Lower;
    CaseForgets(key, lower);
    SeparatorFound(key, value);
    UnbrokenTrim(key);
    KeysAreLower();
  }

  lemma DurationRead(metric: Metric, x: real, number: string -> Option<real>, show: real -> string)
    requires number(show(x)) == Some(x) && Unbroken(show(x)) && x >= 0.0
    ensures WithParameter(metric, "dur=" + show(x), number) == metric.(durationMs := Some(x))
  {
    hide ParameterValue, Trim, Unbroken;
    UnbrokenTrim(show(x));
    ParameterRead("dur", show(x));
    assert "dur=" + show(x) == "dur" + "=" + show(x);
  }

  lemma DescriptionRead(metric: Metric, d: string, number: string -> Option<real>)
    requires |d| <= 512
    ensures WithParameter(metric, "desc=" + Quote(d), number) == metric.(description := Some(d))
  {
    hide ParameterValue, Trim, Quote, Unquoted;
    UnquotedQuote(d);
    ParameterRead("desc", Quote(d));
    assert "desc=" + Quote(d) == "desc" + "=" + Quote(d);
  }

  lemma ParametersRead(metric: Metric, number: string -> Option<real>, show: real -> string)
    requires ReadsBack(number, show, metric) && WithinLimits(metric)
    ensures WithParameters(Metric(metric.name, None, None), PrintedParameters(metric, show), number) == metric
  {
    hide WithParameter, Quote;
    var bare := Metric(metric.name, None, None);
    if metric.durationMs.Some? {
      var dur := "dur=" + show(metric.durationMs.value);
      DurationRead(bare, metric.durationMs.value, number, show);
      assert [dur][..0] == [];
      assert WithParameters(bare, [dur], number) == bare.(durationMs := metric.durationMs);
      if metric.description.Some? {
        var desc := "desc=" + Quote(metric.description.value);
        DescriptionRead(bare.(durationMs := metric.durationMs), metric.description.value, number);
        assert PrintedParameters(metric, show) == [dur, desc] && [dur, desc][..1] == [dur];
      } else {
        assert PrintedParameters(metric, show) == [dur];
      }
    } else if metric.description.Some? {
      var desc := "desc=" + Quote(metric.description.value);
      DescriptionRead(bare, metric.description.value, number);
      assert PrintedParameters(metric, show) == [desc] && [desc][..0] == [];
    } else {
      assert PrintedParameters(metric, show) == [];
    }
  }

  /** Every part of a printed metric is closed, for the delimiter of parameters and for that of metrics. */
  lemma PartsClosed(metric: Metric, number: string -> Option<real>, show: real -> string, delimiter: char)
    requires ReadsBack(number, show, metric) && WithinLimits(metric) && (delimiter == ';' || delimiter == ',')
    ensures Closed(metric.name, delimiter) && Closed(" " + metric.name, delimiter)
    ensures forall i | 0 <= i < |PrintedParameters(metric, show)| :: Closed(PrintedParameters(metric, show)[i], delimiter)
  {
    hide Closed, Quote;
    NameIsUnbroken(metric.name);
    PlainIsClosed(metric.name, delimiter);
    PlainIsClosed(" " + metric.name, delimiter);
    if metric.durationMs.Some? {
      assert Unbroken(show(metric.durationMs.value));
      PlainIsClosed("dur=" + show(metric.durationMs.value), delimiter);
    }
    if metric.description.Some? {
      QuoteIsClosed(metric.description.value, delimiter);
      ClosedAfter("desc=", Quote(metric.description.value), delimiter);
    }
  }

  lemma {:induction false} JoinedClosed(parts: seq<string>, between: char, delimiter: char)
    requires parts != [] && between != '"' && between != delimiter
    requires forall i | 0 <= i < |parts| :: Closed(parts[i], delimiter)
    ensures Closed(Join(parts, between), delimiter)
    decreases |parts|
  {
    if |parts| > 1 {
      var rest := Join(parts[1..], between);
      JoinedClosed(parts[1..], between, delimiter);
      ClosedAfter([between], rest, delimiter);
      TwoClosed(parts[0], [between] + rest, delimiter);
      assert parts[0] + ([between] + rest) == parts[0] + [between] + rest;
    }
  }

  lemma TwoClosed(a: string, b: string, delimiter: char)
    requires Closed(a, delimiter) && Closed(b, delimiter)
    ensures Closed(a + b, delimiter)
  {
    var whole := a + b;
    EndAppends(Plain, a, b);
    forall i | 0 <= i < |whole| ensures !Bare(whole, delimiter, i) {
      if i < |a| {
        assert whole[..i] == a[..i] && !Bare(a, delimiter, i);
      } else {
        assert whole[..i] == a + b[..i - |a|];
        EndAppends(Plain, a, b[..i - |a|]);
        assert !Bare(b, delimiter, i - |a|);
      }
    }
  }

  lemma MetricReadsBack(metric: Metric, number: string -> Option<real>, show: real -> string, pad: string)
    requires ReadsBack(number, show, metric) && WithinLimits(metric) && (pad == "" || pad == " ")
    ensures var raw := pad + PrintedMetric(metric, show); MetricOf(raw, number) == Some(metric) && Closed(raw, ',')
  {
    hide SplitQuoted, WithParameters, MetricName, Join;
    var parameters := PrintedParameters(metric, show);
    var parts := [pad + metric.name] + parameters;
    PadsFirst(pad, metric.name, parameters);
    PartsClosed(metric, number, show, ';');
    PartsClosed(metric, number, show, ',');
    assert "" + metric.name == metric.name;
    OnlySplit(parts, ';');
    JoinedClosed(parts, ';', ',');
    NameIsUnbroken(metric.name);
    UnbrokenTrim(metric.name);
    ParametersRead(metric, number, show);
    assert parts[1..] == parameters;
  }

  lemma PadsFirst(pad: string, name: string, rest: seq<string>)
    ensures pad + Join([name] + rest, ';') == Join([pad + name] + rest, ';')
  {
    assert ([name] + rest)[1..] == rest && ([pad + name] + rest)[1..] == rest;
  }

  lemma {:induction false} MetricsRead(metrics: seq<Metric>, raws: seq<string>, number: string -> Option<real>)
    requires |raws| == |metrics| && forall i | 0 <= i < |metrics| :: MetricOf(raws[i], number) == Some(metrics[i])
    ensures MetricsOf(raws, number) == metrics
    decreases |metrics|
  {
    if metrics != [] {
      var n := |metrics| - 1;
      MetricsRead(metrics[..n], raws[..n], number);
      assert MetricOf(raws[n], number) == Some(metrics[n]) && metrics == metrics[..n] + [metrics[n]];
      hide MetricOf;
    }
  }

  /** Parsing undoes printing: any list of at most 128 metrics with valid names, durations of at least zero
      and descriptions of at most 512 characters, whatever those hold, comes back as it was. */
  lemma ParsedPrinted(metrics: seq<Metric>, number: string -> Option<real>, show: real -> string)
    requires |metrics| <= 128
    requires forall i | 0 <= i < |metrics| :: WithinLimits(metrics[i]) && ReadsBack(number, show, metrics[i])
    ensures Parsed([Printed(metrics, show)], number) == metrics
  {
    if metrics == [] { NothingPrinted(number, show); } else { SomePrinted(metrics, number, show); }
  }

  lemma SomePrinted(metrics: seq<Metric>, number: string -> Option<real>, show: real -> string)
    requires 1 <= |metrics| <= 128
    requires forall i | 0 <= i < |metrics| :: WithinLimits(metrics[i]) && ReadsBack(number, show, metrics[i])
    ensures Parsed([Printed(metrics, show)], number) == metrics
  {
    hide SplitQuoted, MetricOf, Join, Closed, PrintedMetric, ReadsBack, WithinLimits, RawsOf;
    var raws := PrintedRaws(metrics, show);
    forall i | 0 <= i < |metrics| ensures MetricOf(raws[i], number) == Some(metrics[i]) && Closed(raws[i], ',') {
      MetricReadsBack(metrics[i], number, show, if i == 0 then "" else " ");
    }
    ClosedSplit(raws, ',');
    MetricsRead(metrics, raws, number);
    OneField(Printed(metrics, show));
  }

  lemma OneField(field: string)
    ensures RawsOf([field]) == SplitQuoted(field, ',')
  {
    hide SplitQuoted;
    assert [field][..0] == [] && [] + SplitQuoted(field, ',') == SplitQuoted(field, ',');
  }

  lemma EmptySplits(delimiter: char)
    ensures SplitQuoted("", delimiter) == [""] && Trim("") == ""
  {
  }

  lemma NoMetric(number: string -> Option<real>)
    ensures MetricOf("", number).None?
  {
    hide WithParameters, SplitQuoted, Trim;
    EmptySplits(';');
  }

  lemma NothingPrinted(number: string -> Option<real>, show: real -> string)
    ensures Parsed([Printed([], show)], number) == []
  {
    hide Parsed, MetricsOf, MetricOf, RawsOf, SplitQuoted, Printed, Trim;
    EmptyPrinted(show);
    EmptySplits(',');
    OneField("");
    NoMetric(number);
    NothingParsed("", number);
  }

  lemma EmptyPrinted(show: real -> string)
    ensures Printed([], show) == ""
  {
    hide PrintedMetric;
    assert PrintedRaws([], show) == [];
  }

  lemma NothingParsed(field: string, number: string -> Option<real>)
    requires RawsOf([field]) == [field] && MetricOf(field, number).None?
    ensures Parsed([field], number) == []
  {
    hide MetricOf, RawsOf;
    assert [field][..0] == [];
    assert MetricsOf([field], number) == MetricsOf([], number) + [];
  }

  lemma ClosedSplit(parts: seq<string>, delimiter: char)
    requires parts != [] && delimiter != '"' && forall i | 0 <= i < |parts| :: Closed(parts[i], delimiter)
    ensures SplitQuoted(Join(parts, delimiter), delimiter) == parts
  {
    OnlySplit(parts, delimiter);
  }
}
