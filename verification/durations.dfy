/** `secondsToDuration`: seconds rendered as an ISO 8601 duration
    `PT{h}H{m}M{s}S`, with each component floored.

    The source computes `h = Math.floor(sec / 3600)`,
    `m = Math.floor((sec % 3600) / 60)` and `s = Math.floor(sec % 60)`, where
    JavaScript's `%` truncates (the remainder takes the sign of the dividend).
    Both operators are written out here, so negative inputs behave as in the
    source. */
module Durations {
  import opened Values
  import opened Decimal

  /** The three components a duration string is built from. */
  datatype Duration = Duration(hours: int, minutes: int, seconds: int)

  /** Minutes and seconds are proper clock components. */
  predicate WellFormed(d: Duration) {
    d.hours >= 0 && 0 <= d.minutes < 60 && 0 <= d.seconds < 60
  }

  function TotalSeconds(d: Duration): int {
    d.hours * 3600 + d.minutes * 60 + d.seconds
  }

  /** `Math.trunc`: rounds toward zero. */
  function Trunc(y: real): (t: int)
    ensures y >= 0.0 ==> t == y.Floor
    ensures y < 0.0 ==> y <= t as real <= 0.0
  {
    if y >= 0.0 then y.Floor else -((-y).Floor)
  }

  /** JavaScript `x % d` on numbers: `x - d * trunc(x / d)`. */
  function JsRem(x: real, d: real): real
    requires d > 0.0
  {
    x - d * Trunc(x / d) as real
  }

  /** The components `secondsToDuration` computes, before rendering. */
  function Decompose(sec: real): Duration {
    Duration((sec / 3600.0).Floor, (JsRem(sec, 3600.0) / 60.0).Floor, JsRem(sec, 60.0).Floor)
  }

  /** Shifting by an integer shifts the floor by the same integer. */
  lemma FloorShift(y: real, n: int)
    ensures (y + n as real).Floor == y.Floor + n
  {
  }

  /** For a non-negative number of seconds the components are a proper
      hours/minutes/seconds split of the whole seconds: `m < 60`, `s < 60`
      and `h*3600 + m*60 + s == floor(sec)`. */
  lemma DecomposeSplitsWholeSeconds(sec: real)
    requires sec >= 0.0
    ensures WellFormed(Decompose(sec))
    ensures TotalSeconds(Decompose(sec)) == sec.Floor
  {
    var d := Decompose(sec);
    var h := (sec / 3600.0).Floor;
    assert h >= 0;
    var r1 := sec - 3600.0 * h as real;
    assert JsRem(sec, 3600.0) == r1;
    assert 0.0 <= r1 < 3600.0;
    var m := (r1 / 60.0).Floor;
    assert d.minutes == m;
    assert 0 <= m < 60;
    var q := (sec / 60.0).Floor;
    assert sec / 60.0 == r1 / 60.0 + (60 * h) as real;
    FloorShift(r1 / 60.0, 60 * h);
    assert q == m + 60 * h;
    var r2 := sec - 60.0 * q as real;
    assert JsRem(sec, 60.0) == r2;
    assert 0.0 <= r2 < 60.0;
    FloorShift(sec, -60 * q);
    assert d.seconds == sec.Floor - 60 * q;
  }

  /** A negative input yields negative hours, so the rendering starts with
      `PT-`: the source does not guard against it. */
  lemma NegativeSecondsGiveNegativeHours(sec: real)
    requires sec < 0.0
    ensures Decompose(sec).hours < 0
    ensures SecondsToDuration(sec)[..3] == "PT-"
  {
    var h := Decompose(sec).hours;
    assert IntToString(h)[0] == '-';
  }

  /** `PT{h}H{m}M{s}S`. */
  function Render(d: Duration): string {
    "PT" + RenderBody(d) + "S"
  }

  /** The part of a rendering between `PT` and the final `S`. */
  function RenderBody(d: Duration): string {
    IntToString(d.hours) + "H" + (IntToString(d.minutes) + "M" + IntToString(d.seconds))
  }

  /** The position of the first `c` in `s`, if any. */
  function IndexOf(s: string, c: char): (r: Opt<nat>)
    ensures r.Present? ==> r.value < |s| && s[r.value] == c
    ensures r.Present? ==> forall k :: 0 <= k < r.value ==> s[k] != c
    ensures r.Absent? ==> forall k :: 0 <= k < |s| ==> s[k] != c
  {
    if |s| == 0 then Absent
    else if s[0] == c then Present(0)
    else match IndexOf(s[1..], c)
      case Absent => Absent
      case Present(i) => Present(i + 1)
  }

  /** Reads `PT{h}H{m}M{s}S` back into its components. */
  function Parse(t: string): Opt<Duration> {
    if |t| < 3 || t[0] != 'P' || t[1] != 'T' || t[|t| - 1] != 'S' then Absent
    else ParseHours(t[2..|t| - 1])
  }

  /** Reads `{h}H{m}M{s}`, splitting at the first `H`. */
  function ParseHours(body: string): Opt<Duration> {
    match IndexOf(body, 'H')
    case Absent => Absent
    case Present(i) =>
      match ParseInt(body[..i])
      case Absent => Absent
      case Present(h) => ParseMinutes(h, body[i + 1..])
  }

  /** Reads `{m}M{s}`, splitting at the first `M`, for hours `h`. */
  function ParseMinutes(h: int, rest: string): Opt<Duration> {
    match IndexOf(rest, 'M')
    case Absent => Absent
    case Present(j) =>
      match (ParseInt(rest[..j]), ParseInt(rest[j + 1..]))
      case (Present(m), Present(s)) => Present(Duration(h, m, s))
      case _ => Absent
  }

  /** The first `c` in `a + [c] + b` is right after `a` when `a` has none. */
  lemma IndexOfAfterPrefix(a: string, c: char, b: string)
    requires forall k :: 0 <= k < |a| ==> a[k] != c
    ensures IndexOf(a + [c] + b, c) == Present(|a|)
  {
    var s := a + [c] + b;
    assert s[|a|] == c;
    assert forall k :: 0 <= k < |a| ==> s[k] == a[k];
  }

  /** Splitting `a + [c] + b` after `a` gives back `a` and `b`. */
  lemma SplitAt(a: string, c: char, b: string)
    ensures (a + [c] + b)[..|a|] == a
    ensures (a + [c] + b)[|a| + 1..] == b
  {
  }

  /** A string is its prefix before position `i`, the character there, and
      the rest after it. */
  lemma SplitBack(s: string, i: nat)
    requires i < |s|
    ensures s == s[..i] + [s[i]] + s[i + 1..]
  {
  }

  /** The `{m}M{s}` tail of a rendering reads back as its minutes and
      seconds. */
  lemma MinutesRoundTrip(h: int, m: int, s: int)
    ensures ParseMinutes(h, IntToString(m) + "M" + IntToString(s)) == Present(Duration(h, m, s))
  {
    var b, c := IntToString(m), IntToString(s);
    IndexOfAfterPrefix(b, 'M', c);
    SplitAt(b, 'M', c);
    IntStringRoundTrip(m);
    IntStringRoundTrip(s);
  }

  /** The `{h}H{m}M{s}` body of a rendering reads back as its components. */
  lemma HoursRoundTrip(d: Duration)
    ensures ParseHours(RenderBody(d)) == Present(d)
  {
    var a := IntToString(d.hours);
    var rest := IntToString(d.minutes) + "M" + IntToString(d.seconds);
    assert RenderBody(d) == a + "H" + rest;
    IndexOfAfterPrefix(a, 'H', rest);
    SplitAt(a, 'H', rest);
    IntStringRoundTrip(d.hours);
    MinutesRoundTrip(d.hours, d.minutes, d.seconds);
  }

  /** Every rendering parses back to the components it was built from. */
  lemma RenderParseRoundTrip(d: Duration)
    ensures Parse(Render(d)) == Present(d)
  {
    var t := Render(d);
    assert t[2..|t| - 1] == RenderBody(d);
    HoursRoundTrip(d);
  }

  /** `ParseMinutes` accepts only `{m}M{s}` with both parts rendered. */
  lemma MinutesOnlyRenderings(h: int, rest: string)
    requires ParseMinutes(h, rest).Present?
    ensures ParseMinutes(h, rest).value.hours == h
    ensures rest == IntToString(ParseMinutes(h, rest).value.minutes) + "M"
      + IntToString(ParseMinutes(h, rest).value.seconds)
  {
    var j := IndexOf(rest, 'M').value;
    SplitBack(rest, j);
  }

  /** `ParseHours` accepts only `{h}H{m}M{s}` with every part rendered. */
  lemma HoursOnlyRenderings(body: string)
    requires ParseHours(body).Present?
    ensures body == RenderBody(ParseHours(body).value)
  {
    var i := IndexOf(body, 'H').value;
    var h := ParseInt(body[..i]).value;
    MinutesOnlyRenderings(h, body[i + 1..]);
    SplitBack(body, i);
  }

  /** `Parse` accepts only renderings: a string it reads as `d` is exactly
      `Render(d)`, so no two strings read as the same duration. */
  lemma ParseOnlyRenderings(t: string)
    requires Parse(t).Present?
    ensures Render(Parse(t).value) == t
  {
    var body := t[2..|t| - 1];
    assert Parse(t) == ParseHours(body);
    HoursOnlyRenderings(body);
    WrapShape(t);
  }

  /** A string that starts with `PT` and ends with `S` is `PT`, its middle
      and `S`. */
  lemma WrapShape(t: string)
    requires |t| >= 3 && t[0] == 'P' && t[1] == 'T' && t[|t| - 1] == 'S'
    ensures t == "PT" + t[2..|t| - 1] + "S"
  {
    assert t == t[..2] + t[2..|t| - 1] + [t[|t| - 1]];
  }

  /** `secondsToDuration(sec)` for a present `sec`. The string reads back as
      the floored components, and for `sec >= 0` those split the whole
      seconds into hours, minutes below 60 and seconds below 60. */
  function SecondsToDuration(sec: real): (t: string)
    ensures Parse(t) == Present(Decompose(sec))
    ensures sec >= 0.0 ==> WellFormed(Parse(t).value) && TotalSeconds(Parse(t).value) == sec.Floor
    ensures forall t' :: Parse(t') == Parse(t) ==> t' == t
  {
    RenderParseRoundTrip(Decompose(sec));
    forall t' | Parse(t') == Present(Decompose(sec))
      ensures t' == Render(Decompose(sec))
    {
      ParseOnlyRenderings(t');
    }
    if sec >= 0.0 then DecomposeSplitsWholeSeconds(sec); Render(Decompose(sec))
    else Render(Decompose(sec))
  }

  /** 12340 s is 3 h 25 min 40 s. */
  lemma SecondsToDurationExample()
    ensures SecondsToDuration(12340.0) == "PT3H25M40S"
  {
    assert (12340.0 / 3600.0).Floor == 3;
    assert JsRem(12340.0, 3600.0) == 1540.0;
    assert (1540.0 / 60.0).Floor == 25;
    assert JsRem(12340.0, 60.0) == 40.0;
    var d := Duration(3, 25, 40);
    assert Decompose(12340.0) == d;
    assert NatToString(25) == NatToString(2) + [Digit(5)] == "25";
    assert NatToString(40) == NatToString(4) + [Digit(0)] == "40";
    assert RenderBody(d) == "3" + "H" + ("25" + "M" + "40");
    assert Render(d) == "PT3H25M40S";
  }

  /** A negative input is not rejected: -1 s renders with every component
      negative, `PT-1H-1M-1S`, which does not add up to -1 s. */
  lemma NegativeSecondsExample()
    ensures Decompose(-1.0) == Duration(-1, -1, -1)
    ensures SecondsToDuration(-1.0) == "PT-1H-1M-1S"
  {
    assert (-1.0 / 3600.0).Floor == -1;
    assert Trunc(-1.0 / 3600.0) == 0;
    assert JsRem(-1.0, 3600.0) == -1.0;
    assert (-1.0 / 60.0).Floor == -1;
    assert Trunc(-1.0 / 60.0) == 0;
    assert JsRem(-1.0, 60.0) == -1.0;
    var d := Duration(-1, -1, -1);
    assert IntToString(-1) == "-1";
    assert RenderBody(d) == "-1" + "H" + ("-1" + "M" + "-1");
    assert Render(d) == "PT-1H-1M-1S";
  }

  /** A duration output field: omitted exactly when the input is absent, and
      otherwise the only string that reads as the input's floored components;
      for a non-negative input those split its whole seconds into hours,
      minutes and seconds. */
  predicate DurationField(out: Opt<string>, input: Opt<real>) {
    out.Present? == input.Present? &&
    (input.Present? ==>
      Parse(out.value) == Present(Decompose(input.value)) &&
      (input.value >= 0.0 ==>
        WellFormed(Parse(out.value).value) &&
        TotalSeconds(Parse(out.value).value) == input.value.Floor))
  }

  /** A present number of seconds as an ISO 8601 duration. */
  function DurationOpt(o: Opt<real>): (r: Opt<string>)
    ensures DurationField(r, o)
  {
    match o
    case Absent => Absent
    case Present(t) => Present(SecondsToDuration(t))
  }
}
