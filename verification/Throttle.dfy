/** Bandwidth limiting (`handle_io` of ftpdataio.c): after each read or write on the data connection, a
    pause that brings the rate back to the limit. Times are reals, in seconds. */
module Throttle {
  const UINT: real := 4294967296.0

  /** The truncated rate. A quotient that does not fit an unsigned int converts to something unknown. */
  function Rate(bytes: nat, elapsed: real, unknown: nat): nat
    requires elapsed > 0.0
  {
    var q := bytes as real / elapsed;
    if q < UINT then RateOf(bytes, elapsed) else unknown
  }

  function RateOf(bytes: nat, elapsed: real): nat
    requires elapsed > 0.0
  {
    var q := bytes as real / elapsed;
    assert q >= 0.0;
    q.Floor
  }

  /** How long one throttled call takes, from the last mark to the next, when `elapsed` had gone by
      and the pause is overslept by `extra`. */
  function Pause(bytes: nat, elapsed: real, max: nat, unknown: nat): (p: real)
    requires elapsed > 0.0 && max > 0
    ensures p >= 0.0
  {
    var rate := Rate(bytes, elapsed, unknown);
    if rate <= max then 0.0
    else
      Ratio(rate, max);
      (rate as real / max as real - 1.0) * elapsed
  }

  lemma Ratio(rate: nat, max: nat)
    requires rate > max > 0
    ensures rate as real / max as real > 1.0
  {
  }

  lemma Times(q: real, e: real, bytes: real)
    requires e > 0.0 && q == bytes / e
    ensures q * e == bytes
  {
  }

  lemma Scale(a: real, b: real, e: real)
    requires e > 0.0 && a < b
    ensures a * e < b * e
  {
  }

  /** Fewer bytes were moved than the truncated rate plus one allows. */
  lemma Truncated(bytes: nat, elapsed: real)
    requires elapsed > 0.0
    ensures bytes as real < (RateOf(bytes, elapsed) + 1) as real * elapsed
  {
    var q := bytes as real / elapsed;
    Times(q, elapsed, bytes as real);
    Scale(q, (RateOf(bytes, elapsed) + 1) as real, elapsed);
  }

  /** One call stays below the limit plus one byte per second, over the time it took. */
  lemma CallBelowLimit(bytes: nat, elapsed: real, max: nat, unknown: nat, extra: real)
    requires elapsed > 0.0 && max > 0 && extra >= 0.0 && bytes as real / elapsed < UINT
    ensures bytes as real < (max + 1) as real * (elapsed + Pause(bytes, elapsed, max, unknown) + extra)
  {
    var rate, pause := RateOf(bytes, elapsed), Pause(bytes, elapsed, max, unknown);
    Truncated(bytes, elapsed);
    if rate <= max {
      BelowUnpaused(bytes as real, (rate + 1) as real, (max + 1) as real, elapsed, pause, extra);
    } else {
      var t := PauseFactor(bytes, elapsed, max, unknown);
      BelowPaused(bytes as real, t, max as real, (max + 1) as real, elapsed, elapsed + pause, extra);
    }
  }

  /** A pause stretches the time by the quotient of the rate and the limit. */
  lemma PauseFactor(bytes: nat, elapsed: real, max: nat, unknown: nat) returns (t: real)
    requires elapsed > 0.0 && RateOf(bytes, elapsed) > max > 0 && bytes as real / elapsed < UINT
    ensures t > 1.0 && t * max as real == RateOf(bytes, elapsed) as real
    ensures elapsed + Pause(bytes, elapsed, max, unknown) == t * elapsed
  {
    var rate := RateOf(bytes, elapsed);
    t := rate as real / max as real;
    Ratio(rate, max);
    Times(t, max as real, rate as real);
  }

  lemma BelowUnpaused(b: real, r: real, m: real, e: real, pause: real, extra: real)
    requires 0.0 < r <= m && e > 0.0 && pause == 0.0 && extra >= 0.0 && b < r * e
    ensures b < m * (e + pause + extra)
  {
    Mono(r, m, e);
    Grow(m, e, extra);
  }

  lemma BelowPaused(b: real, t: real, max: real, m: real, e: real, s: real, extra: real)
    requires t > 1.0 && max > 0.0 && m == max + 1.0 && e > 0.0 && s == t * e && extra >= 0.0
    requires b < (t * max + 1.0) * e
    ensures b < m * (s + extra)
  {
    Stretch(m, t, e, s);
    Grow(m, s, extra);
    Chain(b, t * max + 1.0, m * t, e, m * s, m * (s + extra));
  }

  lemma Chain(b: real, r: real, q: real, e: real, x: real, y: real)
    requires b < r * e && r < q && e > 0.0 && q * e == x && x <= y
    ensures b < y
  {
    Scale(r, q, e);
  }

  lemma Stretch(m: real, t: real, e: real, s: real)
    requires s == t * e
    ensures m * t * e == m * s
  {
  }

  lemma Mono(a: real, b: real, e: real)
    requires e > 0.0 && a <= b
    ensures a * e <= b * e
  {
  }

  lemma Grow(m: real, e: real, extra: real)
    requires m > 0.0 && extra >= 0.0
    ensures m * e <= m * (e + extra)
  {
    assert m * (e + extra) == m * e + m * extra;
    assert m * extra >= 0.0;
  }

  /** When the quotient does not fit and converts to something within the limit, there is no pause and
      the bound fails, for every limit. */
  lemma OutOfRangeBreaksLimit(bytes: nat, elapsed: real, max: nat, unknown: nat)
    requires elapsed > 0.0 && 0 < max < 4294967296 && bytes as real / elapsed >= UINT && unknown <= max
    ensures bytes as real >= (max + 1) as real * (elapsed + Pause(bytes, elapsed, max, unknown))
  {
    var q := bytes as real / elapsed;
    Times(q, elapsed, bytes as real);
    Mono((max + 1) as real, q, elapsed);
  }

  /** The bound holds whatever an out-of-range conversion gives, if and only if the quotient fits an
      unsigned int. */
  lemma BelowLimitExact(bytes: nat, elapsed: real, max: nat)
    requires elapsed > 0.0 && 0 < max < 4294967296
    ensures (forall unknown: nat :: bytes as real < (max + 1) as real * (elapsed + Pause(bytes, elapsed, max, unknown)))
      <==> bytes as real / elapsed < UINT
  {
    if bytes as real / elapsed < UINT {
      forall unknown: nat
        ensures bytes as real < (max + 1) as real * (elapsed + Pause(bytes, elapsed, max, unknown))
      {
        CallBelowLimit(bytes, elapsed, max, unknown, 0.0);
      }
    } else {
      OutOfRangeBreaksLimit(bytes, elapsed, max, 0);
    }
  }

  /** One full buffer within a microsecond is such a call: the limit of 100 bytes per second fails when
      the conversion gives 0, and also when it gives 200 and a pause is made. */
  lemma MicrosecondBreaksLimit()
    ensures 65536.0 / 0.000001 >= UINT
    ensures 65536.0 >= 101.0 * (0.000001 + Pause(65536, 0.000001, 100, 0))
    ensures 65536.0 >= 101.0 * (0.000001 + Pause(65536, 0.000001, 100, 200))
  {
    assert 65536 as real / 0.000001 >= UINT;
    assert 200 as real / 100 as real == 2.0;
  }

  // ---------------------------------------------------------------------------
  // Whole runs

  /** One return of a read or write: its result, whether it was on the data descriptor, the time since
      the last mark, and by how much a pause is overslept. */
  datatype Io = Io(retval: int, ours: bool, gap: real, unknown: nat, extra: real)

  predicate Counts(io: Io) {
    io.ours && io.retval > 0
  }

  function Elapsed(gap: real): (e: real)
    ensures e > 0.0
  {
    if gap <= 0.0 then 0.01 else gap
  }

  /** The time from the last mark to the next. */
  function Took(max: nat, io: Io): real {
    if !Counts(io) || max == 0 then 0.0
    else if Rate(io.retval, Elapsed(io.gap), io.unknown) <= max then io.gap
    else io.gap + Pause(io.retval, Elapsed(io.gap), max, io.unknown) + io.extra
  }

  /** The rate over `time` is between the limit and the limit plus one. */
  predicate Evened(bytes: nat, max: nat, time: real) {
    max as real * time <= bytes as real < (max + 1) as real * time
  }

  /** A call below the limit plus one is not held up; any other is held up, but for oversleep, just as long
      as the limit asks, the elapsed time being taken for 0.01 when the clock did not advance. What is
      not counted takes no time. */
  lemma TookExact(max: nat, io: Io)
    requires Counts(io) ==> io.retval as real / (if io.gap > 0.0 then io.gap else 0.01) < UINT
    ensures max == 0 || !io.ours || io.retval <= 0 ==> Took(max, io) == 0.0
    ensures max > 0 && io.ours && io.retval > 0 ==>
      var elapsed := if io.gap > 0.0 then io.gap else 0.01;
      if io.retval as real / elapsed < (max + 1) as real then Took(max, io) == io.gap
      else Evened(io.retval, max, Took(max, io) - io.gap - io.extra + elapsed)
  {
    if max > 0 && Counts(io) {
      var elapsed := Elapsed(io.gap);
      RateAbove(io.retval, elapsed, max);
      if RateOf(io.retval, elapsed) > max {
        ThrottledExact(io.retval, elapsed, max, io.unknown);
        var pause := Pause(io.retval, elapsed, max, io.unknown);
        assert Took(max, io) - io.gap - io.extra + elapsed == elapsed + pause;
      }
    }
  }

  lemma RateAbove(bytes: nat, gap: real, max: nat)
    requires gap > 0.0
    ensures RateOf(bytes, gap) > max <==> bytes as real / gap >= (max + 1) as real
  {
  }

  lemma ThrottledExact(bytes: nat, gap: real, max: nat, unknown: nat)
    requires gap > 0.0 && RateOf(bytes, gap) > max > 0 && bytes as real / gap < UINT
    ensures Evened(bytes, max, gap + Pause(bytes, gap, max, unknown))
  {
    CallBelowLimit(bytes, gap, max, unknown, 0.0);
    var t := PauseFactor(bytes, gap, max, unknown);
    NotBelow(bytes, gap, RateOf(bytes, gap), t, max, gap + Pause(bytes, gap, max, unknown));
  }

  lemma NotBelow(bytes: nat, gap: real, rate: nat, t: real, max: nat, time: real)
    requires gap > 0.0 && rate as real <= bytes as real / gap && t * max as real == rate as real && time == t * gap
    ensures max as real * time <= bytes as real
  {
    var q := bytes as real / gap;
    Times(q, gap, bytes as real);
    Mono(rate as real, q, gap);
    Reorder(t, max as real, gap);
    assert max as real * time == t * max as real * gap;
  }

  lemma Reorder(t: real, m: real, e: real)
    ensures m * (t * e) == t * m * e
  {
  }

  class Meter {
    const max: nat
    var start: real
    var progress: bool

    constructor (max: nat, now: real)
      ensures this.max == max && start == now && !progress
    {
      this.max, start, progress := max, now, false;
    }

    /** `handle_io`. */
    method HandleIo(io: Io)
      modifies this
      ensures start == old(start) + Took(max, io)
      ensures progress == (old(progress) || (io.ours && io.retval > 0))
    {
      if !io.ours || io.retval < 0 || io.retval == 0 {
        return;
      }
      progress := true;
      if max == 0 {
        return;
      }
      var now := start + io.gap;
      var elapsed := now - start;
      if elapsed <= 0.0 {
        elapsed := 0.01;
      }
      var rate := Rate(io.retval, elapsed, io.unknown);
      if rate <= max {
        start := now;
        return;
      }
      var pause := (rate as real / max as real - 1.0) * elapsed;
      start := now + pause + io.extra;
    }

    /** A whole run of calls. */
    method HandleAll(ios: seq<Io>)
      modifies this
      ensures start == old(start) + TotalTime(Spans(max, ios))
      ensures max > 0 && (forall i :: 0 <= i < |ios| ==> Orderly(ios[i])) ==>
        Below(max, Span(TotalBytes(Spans(max, ios)), start - old(start)))
    {
      var i := 0;
      ghost var spans := Spans(max, ios);
      while i < |ios|
        invariant 0 <= i <= |ios| && start == old(start) + TotalTime(spans[..i])
      {
        assert spans[..i + 1][..i] == spans[..i];
        HandleIo(ios[i]);
        i := i + 1;
      }
      assert spans[..i] == spans;
      if max > 0 && forall j :: 0 <= j < |ios| ==> Orderly(ios[j]) {
        RunBelowLimit(max, ios);
      }
    }
  }

  /** The bytes a call moved and the time it took. */
  datatype Span = Span(bytes: nat, time: real)

  function Spans(max: nat, ios: seq<Io>): seq<Span> {
    seq(|ios|, i requires 0 <= i < |ios| => Span(if Counts(ios[i]) then ios[i].retval else 0, Took(max, ios[i])))
  }

  function TotalTime(spans: seq<Span>): real {
    if spans == [] then 0.0 else TotalTime(spans[..|spans| - 1]) + spans[|spans| - 1].time
  }

  function TotalBytes(spans: seq<Span>): nat {
    if spans == [] then 0 else TotalBytes(spans[..|spans| - 1]) + spans[|spans| - 1].bytes
  }

  /** The clock advances between calls, sleeps are not cut short, and the quotient fits. */
  predicate Orderly(io: Io) {
    Counts(io) ==> io.gap > 0.0 && io.extra >= 0.0 && io.retval as real / io.gap < UINT
  }

  /** Below the limit plus one byte per second. */
  predicate Below(max: nat, s: Span) {
    s.time >= 0.0 && (s.bytes > 0 ==> s.bytes as real < (max + 1) as real * s.time)
  }

  lemma OneCall(max: nat, io: Io)
    requires max > 0 && Orderly(io)
    ensures Below(max, Span(if Counts(io) then io.retval else 0, Took(max, io)))
  {
    if Counts(io) {
      var extra := if Rate(io.retval, io.gap, io.unknown) <= max then 0.0 else io.extra;
      CallBelowLimit(io.retval, io.gap, max, io.unknown, extra);
    }
  }

  lemma {:induction false} SpansBelow(max: nat, spans: seq<Span>)
    requires forall i :: 0 <= i < |spans| ==> Below(max, spans[i])
    ensures Below(max, Span(TotalBytes(spans), TotalTime(spans)))
  {
    if spans != [] {
      var init, last := spans[..|spans| - 1], spans[|spans| - 1];
      SpansBelow(max, init);
      Combine(max, TotalBytes(init), TotalTime(init), last.bytes, last.time);
    }
  }

  /** Over any run of calls the bytes moved are fewer than the limit plus one times the time gone by,
      although every single rate is truncated. */
  lemma RunBelowLimit(max: nat, ios: seq<Io>)
    requires max > 0 && forall i :: 0 <= i < |ios| ==> Orderly(ios[i])
    ensures Below(max, Span(TotalBytes(Spans(max, ios)), TotalTime(Spans(max, ios))))
  {
    forall i | 0 <= i < |ios| ensures Below(max, Spans(max, ios)[i]) {
      OneCall(max, ios[i]);
    }
    SpansBelow(max, Spans(max, ios));
  }

  lemma Sign(m: real, t: real)
    requires m > 0.0 && t >= 0.0
    ensures m * t >= 0.0
  {
  }

  /** Two stretches below the limit are below it together. */
  lemma Combine(max: nat, a: nat, s: real, b: nat, t: real)
    requires Below(max, Span(a, s)) && Below(max, Span(b, t))
    ensures Below(max, Span(a + b, s + t))
  {
    var m := (max + 1) as real;
    Sign(m, s);
    Sign(m, t);
    Add(m, s, t);
  }

  lemma Add(m: real, a: real, b: real)
    ensures m * (a + b) == m * a + m * b
  {
  }
}
