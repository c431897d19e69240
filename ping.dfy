/**
  The network probe: runs the system `ping`, reads the round-trip samples and
  the packet-loss figure out of its text output, and summarises the samples as
  minimum, maximum, mean and jitter.  Both regular expressions of the probe are
  written as hand-made scanners.  Each pattern can split the text in at most
  one way at a position, so a scanner that takes its runs greedily reports
  exactly the matches of the pattern, stated declaratively by `SampleMatchAt`
  and `LossMatchAt` (`SampleAtIff`, `LossAtIff`).
*/
module Ping {
  import opened Wrappers
  import opened Numeric
  import opened Text

  /** The summary handed back to the interface. */
  datatype PingResult = PingResult(
    target: string,
    minMs: Option<real>,
    maxMs: Option<real>,
    avgMs: Option<real>,
    jitterMs: Option<real>,
    lossPct: Option<real>,
    samples: seq<real>)

  /** `count.clamp(1, 20)`: the number of probes actually sent. */
  function ProbeCount(count: nat): (n: nat)
    ensures 1 <= n <= 20
    ensures 1 <= count <= 20 ==> n == count
    ensures count > 20 ==> n == 20
    ensures count == 0 ==> n == 1
  {
    Clamp(count, 1, 20)
  }

  /** The command line: `ping -n <count> <target>` on Windows, `ping -c <count> <target>` elsewhere. */
  function PingArgs(windows: bool, count: nat, target: string): (args: seq<string>)
    ensures |args| == 4 && args[0] == "ping" && args[3] == target
    ensures args[1] == (if windows then "-n" else "-c")
    ensures AllDigits(args[2]) && DecimalValue(args[2]) == ProbeCount(count)
  {
    DecimalRoundTrip(ProbeCount(count));
    ["ping", if windows then "-n" else "-c", NatToDecimal(ProbeCount(count)), target]
  }

  /* ---------------- scanners ---------------- */

  /** The end of the run of ASCII digits that starts at `i` (`[0-9]*`, greedy). */
  function DigitRun(s: string, i: nat): (e: nat)
    requires i <= |s|
    ensures i <= e <= |s|
    ensures forall k :: i <= k < e ==> IsDigit(s[k])
    ensures e == |s| || !IsDigit(s[e])
    decreases |s| - i
  {
    if i < |s| && IsDigit(s[i]) then DigitRun(s, i + 1) else i
  }

  /** The end of the run of white space that starts at `i` (`\s*`, greedy). */
  function WhitespaceRun(s: string, i: nat): (e: nat)
    requires i <= |s|
    ensures i <= e <= |s|
    ensures forall k :: i <= k < e ==> IsWhitespace(s[k])
    ensures e == |s| || !IsWhitespace(s[e])
    decreases |s| - i
  {
    if i < |s| && IsWhitespace(s[i]) then WhitespaceRun(s, i + 1) else i
  }

  /** A run of digits that stops at a non-digit is the run the scanner finds. */
  lemma {:induction false} DigitRunEnds(s: string, a: nat, b: nat)
    requires a <= b <= |s|
    requires forall k :: a <= k < b ==> IsDigit(s[k])
    requires b == |s| || !IsDigit(s[b])
    ensures DigitRun(s, a) == b
    decreases b - a
  {
    if a < b {
      DigitRunEnds(s, a + 1, b);
    }
  }

  /** A run of white space that stops elsewhere is the run the scanner finds. */
  lemma {:induction false} WhitespaceRunEnds(s: string, a: nat, b: nat)
    requires a <= b <= |s|
    requires forall k :: a <= k < b ==> IsWhitespace(s[k])
    requires b == |s| || !IsWhitespace(s[b])
    ensures WhitespaceRun(s, a) == b
    decreases b - a
  {
    if a < b {
      WhitespaceRunEnds(s, a + 1, b);
    }
  }

  function Pow10(n: nat): (p: nat)
    ensures p >= 1
  {
    if n == 0 then 1 else 10 * Pow10(n - 1)
  }

  /** `n` digits spell a number below 10^n. */
  lemma {:induction false} DecimalBelowPow10(s: string)
    requires AllDigits(s)
    ensures DecimalValue(s) < Pow10(|s|)
  {
    if s != [] {
      DecimalBelowPow10(s[..|s| - 1]);
    }
  }

  lemma AllDigitsAppend(a: string, b: string)
    requires AllDigits(a) && AllDigits(b)
    ensures AllDigits(a + b)
  {
    forall k | 0 <= k < |a + b|
      ensures IsDigit((a + b)[k])
    {
      if k < |a| { assert (a + b)[k] == a[k]; } else { assert (a + b)[k] == b[k - |a|]; }
    }
  }

  /** Appending digits shifts the value of the first ones left by as many places. */
  lemma {:induction false} DecimalAppend(a: string, b: string)
    requires AllDigits(a) && AllDigits(b)
    ensures AllDigits(a + b)
    ensures DecimalValue(a + b) == DecimalValue(a) * Pow10(|b|) + DecimalValue(b)
    decreases |b|
  {
    AllDigitsAppend(a, b);
    if b != [] {
      var init := b[..|b| - 1];
      assert (a + b)[..|a + b| - 1] == a + init;
      assert (a + b)[|a + b| - 1] == b[|b| - 1];
      DecimalAppend(a, init);
      ShiftStep(DecimalValue(a), DecimalValue(init), Pow10(|init|), DigitValue(b[|b| - 1]));
    } else {
      assert a + b == a;
    }
  }

  lemma ShiftStep(va: nat, vi: nat, p: nat, d: nat)
    ensures 10 * (va * p + vi) + d == va * (10 * p) + (10 * vi + d)
  {
  }

  /** `w + f / p` with a proper fraction `f / p`, scaled up by `p`, is `w * p + f`. */
  lemma ScaleDown(w: nat, f: nat, p: nat, t: nat)
    requires 1 <= p && f < p && t == w * p + f
    ensures w as real + f as real / p as real == t as real / p as real
    ensures w as real <= w as real + f as real / p as real < w as real + 1.0
  {
    var pr := p as real;
    var q := f as real / pr;
    var u := t as real / pr;
    assert q * pr == f as real;
    assert u * pr == t as real;
    assert t as real == w as real * pr + f as real by {
      assert (w * p) as real == w as real * pr;
    }
    Distribute(u, w as real, q, pr);
    ProductZero(u - w as real - q, pr);
    assert q >= 0.0 by {
      ProductSign(q, pr);
    }
    assert 1.0 - q > 0.0 by {
      assert (1.0 - q) * pr == pr - f as real;
      ProductSign(1.0 - q, pr);
    }
  }

  lemma Distribute(a: real, b: real, c: real, d: real)
    ensures (a - b - c) * d == a * d - b * d - c * d
  {
  }

  lemma ProductZero(a: real, b: real)
    requires b != 0.0 && a * b == 0.0
    ensures a == 0.0
  {
  }

  /** With a positive factor, a product has the sign of the other factor. */
  lemma ProductSign(a: real, b: real)
    requires b > 0.0
    ensures a * b >= 0.0 ==> a >= 0.0
    ensures a * b > 0.0 ==> a > 0.0
  {
  }

  /** The number `str::parse::<f64>` reads from `digits` or `digits.fraction`:
      the whole and fraction digits read as one integer, scaled down by one
      power of ten per fraction digit, so its integer part is the whole part. */
  function DecimalNumber(whole: string, fraction: string): (x: real)
    requires AllDigits(whole) && AllDigits(fraction)
    ensures x >= 0.0
    ensures fraction == [] ==> x == DecimalValue(whole) as real
  {
    DecimalValue(whole) as real + DecimalValue(fraction) as real / Pow10(|fraction|) as real
  }

  /** `12.5` is 125 tenths: the number is the integer all its digits spell,
      divided by one power of ten per fraction digit; and its integer part is
      the whole part, the fraction adding less than 1. */
  lemma DecimalNumberScaled(whole: string, fraction: string)
    requires AllDigits(whole) && AllDigits(fraction)
    ensures AllDigits(whole + fraction)
    ensures DecimalNumber(whole, fraction) == DecimalValue(whole + fraction) as real / Pow10(|fraction|) as real
    ensures DecimalValue(whole) as real <= DecimalNumber(whole, fraction) < DecimalValue(whole) as real + 1.0
  {
    DecimalAppend(whole, fraction);
    DecimalBelowPow10(fraction);
    ScaleDown(DecimalValue(whole), DecimalValue(fraction), Pow10(|fraction|), DecimalValue(whole + fraction));
  }

  /** One match of `time[=<]([0-9]+(?:\.[0-9]+)?)\s*ms`: the number captured and where the match ends. */
  datatype SampleMatch = SampleMatch(value: real, end: nat)

  /** The match of the sample pattern that starts at `i`, if any. */
  function SampleAt(s: string, i: nat): (r: Option<SampleMatch>)
    requires i <= |s|
    ensures r.Some? ==> StartsAt(s, i, "time") && i < r.value.end <= |s| && r.value.value >= 0.0
  {
    if !(StartsAt(s, i, "time") && i + 4 < |s| && (s[i + 4] == '=' || s[i + 4] == '<')) then None
    else
      var a := i + 5;
      var b := DigitRun(s, a);
      if b == a then None
      else
        var hasFraction := b + 1 < |s| && s[b] == '.' && IsDigit(s[b + 1]);
        var c := if hasFraction then DigitRun(s, b + 1) else b;
        var value := DecimalNumber(s[a..b], if hasFraction then s[b + 1..c] else "");
        var w := WhitespaceRun(s, c);
        if StartsAt(s, w, "ms") then Some(SampleMatch(value, w + 2)) else None
  }

  /** The pattern `time[=<]([0-9]+(?:\.[0-9]+)?)\s*ms` read off the text,
      with its pieces at fixed positions: `time`, then `=` or `<` at `i + 4`,
      the digits on [i + 5, b), an optional `.` at `b` followed by the
      fraction digits on (b, c), the white space on [c, w), and `ms` at `w`. */
  predicate SampleShape(s: string, i: nat, b: nat, c: nat, w: nat)
  {
    && i + 5 < b <= c <= w && w + 2 <= |s|
    && StartsAt(s, i, "time") && (s[i + 4] == '=' || s[i + 4] == '<')
    && (forall k :: i + 5 <= k < b ==> IsDigit(s[k]))
    && (c == b || (b + 1 < c && s[b] == '.' && forall k :: b + 1 <= k < c ==> IsDigit(s[k])))
    && (forall k :: c <= k < w ==> IsWhitespace(s[k]))
    && StartsAt(s, w, "ms")
  }

  /** The number the capture group of a match with these pieces holds. */
  function ShapeValue(s: string, i: nat, b: nat, c: nat, w: nat): real
    requires SampleShape(s, i, b, c, w)
  {
    DecimalNumber(s[i + 5..b], if c == b then "" else s[b + 1..c])
  }

  /** The pattern matches at `i`, ending at `e`, and captures `v`. */
  ghost predicate SampleMatchAt(s: string, i: nat, e: nat, v: real)
  {
    exists b: nat, c: nat, w: nat :: SampleShape(s, i, b, c, w) && e == w + 2 && v == ShapeValue(s, i, b, c, w)
  }

  /** The scanner reports a match exactly where the pattern matches, with the
      same end and the same captured number: the greedy runs it takes are the
      only way the pattern can split the text. */
  lemma SampleAtIff(s: string, i: nat, e: nat, v: real)
    requires i <= |s|
    ensures SampleAt(s, i) == Some(SampleMatch(v, e)) <==> SampleMatchAt(s, i, e, v)
  {
    if SampleAt(s, i) == Some(SampleMatch(v, e)) {
      ScannerMatches(s, i);
    }
    if SampleMatchAt(s, i, e, v) {
      var b: nat, c: nat, w: nat :| SampleShape(s, i, b, c, w) && e == w + 2 && v == ShapeValue(s, i, b, c, w);
      ShapeScanned(s, i, b, c, w);
    }
  }

  /** What the scanner finds has the shape of the pattern. */
  lemma ScannerMatches(s: string, i: nat)
    requires i <= |s| && SampleAt(s, i).Some?
    ensures SampleMatchAt(s, i, SampleAt(s, i).value.end, SampleAt(s, i).value.value)
  {
    var a := i + 5;
    var b := DigitRun(s, a);
    var hasFraction := b + 1 < |s| && s[b] == '.' && IsDigit(s[b + 1]);
    var c := if hasFraction then DigitRun(s, b + 1) else b;
    var w := WhitespaceRun(s, c);
    assert SampleShape(s, i, b, c, w);
  }

  /** A match of the pattern is the one the scanner reports. */
  lemma ShapeScanned(s: string, i: nat, b: nat, c: nat, w: nat)
    requires SampleShape(s, i, b, c, w)
    ensures SampleAt(s, i) == Some(SampleMatch(ShapeValue(s, i, b, c, w), w + 2))
  {
    ShapeRuns(s, i, b, c, w);
  }

  /** The greedy runs of the scanner stop exactly at the pieces of a match:
      the digits end at `b`, a fraction is taken exactly when `c != b` and
      ends at `c`, and the white space ends at `w`. */
  lemma ShapeRuns(s: string, i: nat, b: nat, c: nat, w: nat)
    requires SampleShape(s, i, b, c, w)
    ensures DigitRun(s, i + 5) == b
    ensures (b + 1 < |s| && s[b] == '.' && IsDigit(s[b + 1])) == (c != b)
    ensures c != b ==> DigitRun(s, b + 1) == c
    ensures WhitespaceRun(s, c) == w
  {
    assert s[w] == "ms"[0];
    if c == b {
      assert s[b] == '.' ==> false by {
        if b < w { assert IsWhitespace(s[b]); } else { assert s[b] == 'm'; }
      }
    }
    assert !IsDigit(s[b]) by {
      if c != b { assert s[b] == '.'; }
      else if b < w { assert IsWhitespace(s[b]); }
      else { assert s[b] == 'm'; }
    }
    DigitRunEnds(s, i + 5, b);
    if c != b {
      assert !IsDigit(s[c]) by {
        if c < w { assert IsWhitespace(s[c]); } else { assert s[c] == 'm'; }
      }
      DigitRunEnds(s, b + 1, c);
    }
    WhitespaceRunEnds(s, c, w);
  }

  /** `captures_iter` from position `i`: every match, leftmost first, each
      search resuming where the previous match ended. */
  function SamplesFrom(s: string, i: nat): (r: seq<real>)
    requires i <= |s|
    ensures |r| <= |s| - i
    decreases |s| - i
  {
    if i == |s| then []
    else
      match SampleAt(s, i)
      case Some(m) => [m.value] + SamplesFrom(s, m.end)
      case None => SamplesFrom(s, i + 1)
  }

  /** `parse_ping_samples`: the loop over the matches, pushing each captured
      number (the capture always parses, so none is skipped). */
  method ParsePingSamples(stdout: string) returns (samples: seq<real>)
    ensures samples == SamplesFrom(stdout, 0)
  {
    samples := [];
    var i := 0;
    while i < |stdout|
      invariant i <= |stdout|
      invariant samples + SamplesFrom(stdout, i) == SamplesFrom(stdout, 0)
      decreases |stdout| - i
    {
      var m := SampleAt(stdout, i);
      if m.Some? {
        samples := samples + [m.value.value];
        i := m.value.end;
      } else {
        i := i + 1;
      }
    }
  }

  /** The list is empty exactly when no position of the output starts a sample
      match: text without samples gives an empty list, not an error. */
  lemma {:induction false} SamplesEmptyIff(s: string, i: nat)
    requires i <= |s|
    ensures SamplesFrom(s, i) == [] <==> forall j :: i <= j < |s| ==> SampleAt(s, j).None?
    decreases |s| - i
  {
    if i < |s| && SampleAt(s, i).None? {
      SamplesEmptyIff(s, i + 1);
    }
  }

  /** Every sample is a round-trip time of zero or more milliseconds. */
  lemma {:induction false} SamplesNonNegative(s: string, i: nat)
    requires i <= |s|
    ensures forall k :: 0 <= k < |SamplesFrom(s, i)| ==> SamplesFrom(s, i)[k] >= 0.0
    decreases |s| - i
  {
    if i < |s| {
      match SampleAt(s, i)
      case Some(m) => SamplesNonNegative(s, m.end);
      case None => SamplesNonNegative(s, i + 1);
    }
  }

  /** Positions where no match starts contribute nothing: the search moves on. */
  lemma {:induction false} SamplesSkip(s: string, i: nat, j: nat)
    requires i <= j <= |s|
    requires forall k :: i <= k < j ==> SampleAt(s, k).None?
    ensures SamplesFrom(s, i) == SamplesFrom(s, j)
    decreases j - i
  {
    if i < j {
      SamplesSkip(s, i + 1, j);
    }
  }

  /** `captures_iter`: when the first match at or after `i` starts at `k`,
      ends at `e` and captures `v`, the samples from `i` are `v` followed by
      the samples found after `e`; text between matches is skipped. */
  lemma NextSample(s: string, i: nat, k: nat, e: nat, v: real)
    requires i <= k < |s|
    requires forall j :: i <= j < k ==> SampleAt(s, j).None?
    requires SampleMatchAt(s, k, e, v)
    ensures e <= |s| && SamplesFrom(s, i) == [v] + SamplesFrom(s, e)
  {
    SamplesSkip(s, i, k);
    SampleAtIff(s, k, e, v);
  }

  const TwoReplies := "time=2ms time<1.5 ms"

  lemma FirstReply()
    ensures SampleAt(TwoReplies, 0) == Some(SampleMatch(2.0, 8))
  {
    var s := TwoReplies;
    assert s[0..4] == "time" && s[6..8] == "ms";
    assert DigitRun(s, 5) == 6 && WhitespaceRun(s, 6) == 6;
    assert s[5..6] == "2" && DecimalValue("2") == 2;
  }

  lemma SecondReply()
    ensures SampleAt(TwoReplies, 9) == Some(SampleMatch(1.5, 20))
  {
    var s := TwoReplies;
    assert s[9..13] == "time" && s[18..20] == "ms";
    assert DigitRun(s, 14) == 15 && DigitRun(s, 16) == 17 && WhitespaceRun(s, 17) == 18;
    assert s[14..15] == "1" && s[16..17] == "5" && DecimalValue("1") == 1 && DecimalValue("5") == 5;
    assert DecimalNumber("1", "5") == 1.5;
  }

  lemma GapReply()
    ensures SampleAt(TwoReplies, 8).None?
  {
    NotStartsAt(TwoReplies, 8, "time");
  }

  /** Matches at 0 and 9 only, ending at 8 and at the end of the text, give
      their two numbers in that order. */
  lemma TwoMatches(s: string, x: real, y: real)
    requires |s| == 20
    requires SampleAt(s, 0) == Some(SampleMatch(x, 8)) && SampleAt(s, 8).None?
    requires SampleAt(s, 9) == Some(SampleMatch(y, 20))
    ensures SamplesFrom(s, 0) == [x, y]
  {
    assert SamplesFrom(s, 9) == [y];
  }

  /** Two replies, "time=2ms" then "time<1.5 ms", give the samples 2 and 1.5 in that order. */
  lemma SamplesInOutputOrder()
    ensures SamplesFrom(TwoReplies, 0) == [2.0, 1.5]
  {
    FirstReply();
    GapReply();
    SecondReply();
    TwoMatches(TwoReplies, 2.0, 1.5);
  }

  /** The packet-loss pattern `([0-9]+)%\s*(?:loss|packet loss)` at `i`: the captured digits' value. */
  function LossAt(s: string, i: nat): (r: Option<nat>)
    requires i <= |s|
    ensures r.Some? ==> i < |s| && IsDigit(s[i])
  {
    var b := DigitRun(s, i);
    if b == i || b == |s| || s[b] != '%' then None
    else
      var w := WhitespaceRun(s, b + 1);
      if StartsAt(s, w, "loss") || StartsAt(s, w, "packet loss") then Some(DecimalValue(s[i..b])) else None
  }

  /** The pattern `([0-9]+)%\s*(?:loss|packet loss)` read off the text: the
      digits on [i, b), `%` at `b`, white space on (b, w), then `loss` or
      `packet loss` at `w`. */
  predicate LossShape(s: string, i: nat, b: nat, w: nat)
  {
    && i < b < w <= |s|
    && (forall k :: i <= k < b ==> IsDigit(s[k]))
    && s[b] == '%'
    && (forall k :: b + 1 <= k < w ==> IsWhitespace(s[k]))
    && (StartsAt(s, w, "loss") || StartsAt(s, w, "packet loss"))
  }

  /** The pattern matches at `i` and its capture group holds the number `v`. */
  ghost predicate LossMatchAt(s: string, i: nat, v: nat)
  {
    exists b: nat, w: nat :: LossShape(s, i, b, w) && v == DecimalValue(s[i..b])
  }

  /** The scanner reports a loss match at `i` exactly where the pattern
      matches there, with the number of the digits directly before `%`. */
  lemma LossAtIff(s: string, i: nat, v: nat)
    requires i <= |s|
    ensures LossAt(s, i) == Some(v) <==> LossMatchAt(s, i, v)
  {
    if LossAt(s, i) == Some(v) {
      LossScanned(s, i);
    }
    if LossMatchAt(s, i, v) {
      var b: nat, w: nat :| LossShape(s, i, b, w) && v == DecimalValue(s[i..b]);
      ShapeLoss(s, i, b, w);
    }
  }

  /** What the loss scanner finds has the shape of the pattern. */
  lemma LossScanned(s: string, i: nat)
    requires i <= |s| && LossAt(s, i).Some?
    ensures LossMatchAt(s, i, LossAt(s, i).value)
  {
    var b := DigitRun(s, i);
    var w := WhitespaceRun(s, b + 1);
    assert LossShape(s, i, b, w);
  }

  /** A match of the loss pattern is the one the scanner reports. */
  lemma ShapeLoss(s: string, i: nat, b: nat, w: nat)
    requires LossShape(s, i, b, w)
    ensures LossAt(s, i) == Some(DecimalValue(s[i..b]))
  {
    LossRuns(s, i, b, w);
  }

  /** The greedy runs of the loss scanner stop at `%` and at the word. */
  lemma LossRuns(s: string, i: nat, b: nat, w: nat)
    requires LossShape(s, i, b, w)
    ensures DigitRun(s, i) == b && WhitespaceRun(s, b + 1) == w
  {
    DigitRunEnds(s, i, b);
    assert !IsWhitespace(s[w]) by {
      if StartsAt(s, w, "loss") { assert s[w] == 'l'; } else { assert s[w] == 'p'; }
    }
    WhitespaceRunEnds(s, b + 1, w);
  }

  datatype LossMatch = LossMatch(start: nat, value: nat)

  /** The leftmost loss match at or after `i`. */
  function LossFrom(s: string, i: nat): (r: Option<LossMatch>)
    requires i <= |s|
    ensures r.None? ==> forall k :: i <= k < |s| ==> LossAt(s, k).None?
    ensures r.Some? ==> i <= r.value.start < |s| && LossAt(s, r.value.start) == Some(r.value.value)
    ensures r.Some? ==> forall k :: i <= k < r.value.start ==> LossAt(s, k).None?
    decreases |s| - i
  {
    if i == |s| then None
    else
      match LossAt(s, i)
      case Some(v) => Some(LossMatch(i, v))
      case None => LossFrom(s, i + 1)
  }

  /** `parse_packet_loss`: the number of the first match, `None` when there is none. */
  function PacketLoss(stdout: string): (r: Option<real>)
    ensures r.None? <==> forall k :: 0 <= k < |stdout| ==> LossAt(stdout, k).None?
    ensures r.Some? ==> r.value >= 0.0
  {
    match LossFrom(stdout, 0)
    case None => None
    case Some(m) => Some(m.value as real)
  }

  /** `captures` reports the leftmost match: when the pattern first matches at
      `k`, capturing `v`, the loss is `v`. */
  lemma LeftmostLoss(s: string, k: nat, v: nat)
    requires k < |s|
    requires forall j :: 0 <= j < k ==> LossAt(s, j).None?
    requires LossMatchAt(s, k, v)
    ensures PacketLoss(s) == Some(v as real)
  {
    LossAtIff(s, k, v);
  }

  /** The capture holds only the digits next to `%`: "3.25% loss" reports 25. */
  lemma LossCapturesDigitsBeforePercent()
    ensures PacketLoss("3.25% loss") == Some(25.0)
  {
    var s := "3.25% loss";
    assert LossAt(s, 0).None? by { assert DigitRun(s, 0) == 1; }
    assert LossAt(s, 1).None?;
    assert DigitRun(s, 2) == 4;
    assert WhitespaceRun(s, 5) == 6;
    assert s[2..4] == "25";
    assert "25"[..1] == "2" && "2"[..0] == "";
    assert DecimalValue("25") == 25;
    assert LossAt(s, 2) == Some(25);
  }

  /* ---------------- statistics ---------------- */

  /** `samples.iter().copied().reduce(f64::min)`. */
  function Minimum(s: seq<real>): (r: Option<real>)
    ensures r.Some? <==> |s| > 0
    ensures r.Some? ==> r.value in s && forall k :: 0 <= k < |s| ==> r.value <= s[k]
  {
    if |s| == 0 then None
    else if |s| == 1 then Some(s[0])
    else Some(MinReal(Minimum(s[..|s| - 1]).value, s[|s| - 1]))
  }

  /** `samples.iter().copied().reduce(f64::max)`. */
  function Maximum(s: seq<real>): (r: Option<real>)
    ensures r.Some? <==> |s| > 0
    ensures r.Some? ==> r.value in s && forall k :: 0 <= k < |s| ==> s[k] <= r.value
  {
    if |s| == 0 then None
    else if |s| == 1 then Some(s[0])
    else Some(MaxReal(Maximum(s[..|s| - 1]).value, s[|s| - 1]))
  }

  function Sum(s: seq<real>): real
  {
    if s == [] then 0.0 else Sum(s[..|s| - 1]) + s[|s| - 1]
  }

  /** The mean, `None` for no samples. */
  function Mean(s: seq<real>): (r: Option<real>)
    ensures r.Some? <==> |s| > 0
  {
    if |s| == 0 then None else Some(Sum(s) / |s| as real)
  }

  /** A sum of values between `lo` and `hi` lies between `n*lo` and `n*hi`. */
  lemma {:induction false} SumBounds(s: seq<real>, lo: real, hi: real)
    requires forall k :: 0 <= k < |s| ==> lo <= s[k] <= hi
    ensures |s| as real * lo <= Sum(s) <= |s| as real * hi
  {
    if s != [] {
      SumBounds(s[..|s| - 1], lo, hi);
    }
  }

  /** The mean lies between the smallest and the largest sample. */
  lemma MeanBetweenExtremes(s: seq<real>)
    requires |s| > 0
    ensures Minimum(s).value <= Mean(s).value <= Maximum(s).value
  {
    MeanWithin(s, Minimum(s).value, Maximum(s).value);
  }

  /** The mean of values between `lo` and `hi` is between them too. */
  lemma MeanWithin(s: seq<real>, lo: real, hi: real)
    requires |s| > 0
    requires forall k :: 0 <= k < |s| ==> lo <= s[k] <= hi
    ensures lo <= Mean(s).value <= hi
  {
    SumBounds(s, lo, hi);
    DivBetween(Sum(s), |s| as real, lo, hi);
  }

  /** Dividing by a positive `n` keeps `n*lo <= x <= n*hi` as `lo <= x/n <= hi`. */
  lemma DivBetween(x: real, n: real, lo: real, hi: real)
    requires n > 0.0 && n * lo <= x <= n * hi
    ensures lo <= x / n <= hi
  {
    assert x / n * n == x;
  }

  /** The sum of `|s[k+1] - s[k]|` over neighbouring samples. */
  function DiffSum(s: seq<real>): (r: real)
    ensures r >= 0.0
  {
    if |s| < 2 then 0.0 else DiffSum(s[..|s| - 1]) + AbsReal(s[|s| - 1] - s[|s| - 2])
  }

  /** Jitter: the mean absolute difference of successive samples, `None` for
      fewer than two samples. */
  function JitterOf(s: seq<real>): (r: Option<real>)
    ensures r.None? <==> |s| <= 1
    ensures r.Some? ==> r.value >= 0.0
  {
    if |s| <= 1 then None else Some(DiffSum(s) / (|s| - 1) as real)
  }

  /** The jitter loop over `samples.windows(2)`. */
  method Jitter(samples: seq<real>) returns (jitter: Option<real>)
    ensures jitter == JitterOf(samples)
  {
    if |samples| <= 1 {
      return None;
    }
    var diffSum := 0.0;
    for i := 1 to |samples|
      invariant diffSum == DiffSum(samples[..i])
    {
      assert samples[..i + 1][..i] == samples[..i];
      diffSum := diffSum + AbsReal(samples[i] - samples[i - 1]);
    }
    assert samples[..|samples|] == samples;
    jitter := Some(diffSum / (|samples| - 1) as real);
  }

  /** No step between neighbours exceeds the spread of the samples. */
  lemma {:induction false} DiffSumBound(s: seq<real>, lo: real, hi: real)
    requires |s| >= 1
    requires forall k :: 0 <= k < |s| ==> lo <= s[k] <= hi
    ensures DiffSum(s) <= (|s| - 1) as real * (hi - lo)
  {
    if |s| >= 2 {
      var init := s[..|s| - 1];
      DiffSumBound(init, lo, hi);
      assert AbsReal(s[|s| - 1] - s[|s| - 2]) <= hi - lo;
      assert (|init| - 1) as real * (hi - lo) + (hi - lo) == (|s| - 1) as real * (hi - lo);
    }
  }

  /** Jitter never exceeds the spread between the largest and smallest sample. */
  lemma JitterWithinSpread(s: seq<real>)
    requires |s| >= 2
    ensures JitterOf(s).value <= Maximum(s).value - Minimum(s).value
  {
    JitterWithin(s, Minimum(s).value, Maximum(s).value);
  }

  lemma JitterWithin(s: seq<real>, lo: real, hi: real)
    requires |s| >= 2
    requires forall k :: 0 <= k < |s| ==> lo <= s[k] <= hi
    ensures JitterOf(s).value <= hi - lo
  {
    DiffSumBound(s, lo, hi);
    DivBetween(DiffSum(s), (|s| - 1) as real, 0.0, hi - lo);
  }

  /** Samples that never change have no jitter. */
  lemma {:induction false} SteadySamplesNoJitter(s: seq<real>)
    requires |s| >= 2
    requires forall k :: 0 <= k < |s| ==> s[k] == s[0]
    ensures JitterOf(s) == Some(0.0)
  {
    DiffSumBound(s, s[0], s[0]);
    assert (|s| - 1) as real * (s[0] - s[0]) == 0.0;
    assert DiffSum(s) == 0.0;
  }

  /** Three samples 23.4, 25.1, 24.0 ms: steps of 1.7 and 1.1 give a jitter of 1.4 ms. */
  lemma JitterExample()
    ensures JitterOf([23.4, 25.1, 24.0]) == Some(1.4)
  {
    var s := [23.4, 25.1, 24.0];
    assert s[..2][..1] == [23.4];
    assert DiffSum(s[..2]) == 1.7;
    assert DiffSum(s) == 2.8;
  }

  /* ---------------- run_ping ---------------- */

  /** `run_ping`. `run` stands for spawning the command and collecting its
      standard output as text; `None` is a failure to spawn. */
  method RunPing(target: string, count: nat, windows: bool, run: seq<string> -> Option<string>)
    returns (r: Result<PingResult, string>)
    ensures run(PingArgs(windows, count, target)).None? <==> r.Failure?
    ensures r.Failure? ==> r.error == "failed to run ping"
    ensures r.Success? ==>
      var stdout := run(PingArgs(windows, count, target)).value;
      var samples := SamplesFrom(stdout, 0);
      r.value == PingResult(target, Minimum(samples), Maximum(samples), Mean(samples),
                            JitterOf(samples), PacketLoss(stdout), samples)
  {
    var output := run(PingArgs(windows, count, target));
    if output.None? {
      return Failure("failed to run ping");
    }
    var stdout := output.value;
    var samples := ParsePingSamples(stdout);
    var loss := PacketLoss(stdout);
    var jitter := Jitter(samples);
    r := Success(PingResult(target, Minimum(samples), Maximum(samples), Mean(samples), jitter, loss, samples));
  }
}
