/**
 Whole runs of the jitter buffer.  Between an append and the shrink that follows it
 the buffer is unlocked, so a callback may take samples there.
 */
module JitterRuns {
  import opened Prelude
  import opened AudioRing
  import opened JitterBuffer

  datatype Event<T> =
    | Append(samples: seq<T>, between: nat, dt: int)
    | Callback(n: nat)
    | Reconfigure(sps: nat)

  /**
   A buffer with its history: what came in, what was played, how many samples were
   lost, and the occupancies reported since the last tick, each with the rate it was
   reported at.
   */
  datatype Run<T> = Run(a: Audio<T>, input: seq<T>, played: seq<T>, dropped: nat, window: seq<Occupancy>)

  /** How many samples were buffered, and how many of them make a second. */
  datatype Occupancy = Occupancy(samples: nat, sps: nat)

  predicate Possible<T>(e: Event<T>) {
    e.Reconfigure? ==> e.sps > 0
  }

  predicate AllPossible<T>(es: seq<Event<T>>) {
    forall i :: 0 <= i < |es| ==> Possible(es[i])
  }

  function Start<T>(): Run<T> {
    Run(Audio([], 96000, Zeros(BINS), 0), [], [], 0, [])
  }

  function Play<T>(r: Run<T>, n: nat): Run<T> {
    r.(a := Pop(r.a, n), played := r.played + r.a.buf[..Min(n, |r.a.buf|)])
  }

  function Arrive<T>(r: Run<T>, samples: seq<T>): Run<T> {
    var a := Push(r.a, samples);
    r.(a := a, input := r.input + samples, dropped := r.dropped + (|r.a.buf| + |samples| - |a.buf|))
  }

  /** How many samples the shrink step of an append drops. */
  function Shed<T>(a: Audio<T>, having: nat, dt: int): (d: nat)
    requires a.Valid()
    ensures d <= |a.buf| && Shrink(a, having, dt).buf == a.buf[d..]
  {
    if Ticks(a, dt) then Drop(|a.buf|, a.Capacity(), Record(a, having).hist) else 0
  }

  function Settle<T>(r: Run<T>, having: nat, dt: int): Run<T>
    requires r.a.Valid()
  {
    var ticks := Ticks(r.a, dt);
    r.(a := Shrink(r.a, having, dt),
       dropped := r.dropped + Shed(r.a, having, dt),
       window := if ticks then [] else r.window + [Occupancy(having, r.a.sps)])
  }

  function Step<T>(r: Run<T>, e: Event<T>): Run<T>
    requires r.a.Valid() && Possible(e)
    ensures Step(r, e).a.Valid()
  {
    match e
    case Append(samples, between, dt) =>
      var arrived := Arrive(r, samples);
      Settle(Play(arrived, between), |arrived.a.buf|, dt)
    case Callback(n) => Play(r, n)
    case Reconfigure(sps) =>
      var a := Resized(r.a, sps);
      r.(a := a, dropped := r.dropped + (|r.a.buf| - |a.buf|))
  }

  function Exec<T>(es: seq<Event<T>>): (r: Run<T>)
    requires AllPossible(es)
    ensures r.a.Valid()
  {
    if es == [] then Start() else Step(Exec(es[..|es| - 1]), es[|es| - 1])
  }

  /** The rate of the latest reconfiguration. */
  function LatestRate<T>(es: seq<Event<T>>): nat {
    if es == [] then 96_000
    else
      var last := es[|es| - 1];
      if last.Reconfigure? then last.sps else LatestRate(es[..|es| - 1])
  }

  /** In every run the buffer is for the latest rate and holds three seconds at most. */
  lemma {:induction false} RateIsLatest<T>(es: seq<Event<T>>)
    requires AllPossible(es)
    ensures Exec(es).a.sps == LatestRate(es) && |Exec(es).a.buf| <= 3 * LatestRate(es)
  {
    if es != [] {
      RateIsLatest(es[..|es| - 1]);
      StepRate(Exec(es[..|es| - 1]), es[|es| - 1]);
    }
  }

  lemma StepRate<T>(r: Run<T>, e: Event<T>)
    requires r.a.Valid() && Possible(e)
    ensures Step(r, e).a.sps == if e.Reconfigure? then e.sps else r.a.sps
  {
  }

  /** A new rate loses what is buffered, the old one again nothing; histogram and tick stay. */
  lemma ReconfigureMeaning<T>(r: Run<T>, sps: nat)
    requires r.a.Valid() && sps > 0
    ensures var a := Step(r, Reconfigure(sps)).a;
      a.buf == (if sps == r.a.sps then r.a.buf else []) && a.hist == r.a.hist && a.tms == r.a.tms
  {
  }

  // ----- Samples are neither invented, duplicated nor reordered -----

  predicate Subsequence<T(==)>(a: seq<T>, b: seq<T>) {
    a == [] ||
    (b != [] &&
     (Subsequence(a, b[..|b| - 1]) || (a[|a| - 1] == b[|b| - 1] && Subsequence(a[..|a| - 1], b[..|b| - 1]))))
  }

  lemma {:induction false} SubsequenceSkips<T>(a: seq<T>, b: seq<T>, c: seq<T>)
    requires Subsequence(a, b)
    ensures Subsequence(a, b + c)
  {
    if c == [] {
      assert b + c == b;
    } else {
      SubsequenceSkips(a, b, c[..|c| - 1]);
      assert (b + c)[..|b + c| - 1] == b + c[..|c| - 1];
    }
  }

  lemma {:induction false} SubsequenceTakes<T>(a: seq<T>, b: seq<T>, c: seq<T>)
    requires Subsequence(a, b)
    ensures Subsequence(a + c, b + c)
  {
    if c == [] {
      assert a + c == a && b + c == b;
    } else {
      SubsequenceTakes(a, b, c[..|c| - 1]);
      assert (a + c)[..|a + c| - 1] == a + c[..|c| - 1];
      assert (b + c)[..|b + c| - 1] == b + c[..|c| - 1];
    }
  }

  /** What is buffered is the newest part of the input; everything older was played, in order, or lost. */
  ghost predicate Accounted<T>(input: seq<T>, played: seq<T>, dropped: nat, buf: seq<T>) {
    && |played| + dropped + |buf| == |input|
    && buf == input[|input| - |buf|..]
    && Subsequence(played, input[..|input| - |buf|])
  }

  lemma AccountedDrop<T>(input: seq<T>, played: seq<T>, dropped: nat, buf: seq<T>, k: nat)
    requires Accounted(input, played, dropped, buf) && k <= |buf|
    ensures Accounted(input, played, dropped + k, buf[k..])
  {
    var n := |input| - |buf|;
    assert input[..n + k] == input[..n] + buf[..k];
    SubsequenceSkips(played, input[..n], buf[..k]);
  }

  lemma AccountedPlay<T>(input: seq<T>, played: seq<T>, dropped: nat, buf: seq<T>, k: nat)
    requires Accounted(input, played, dropped, buf) && k <= |buf|
    ensures Accounted(input, played + buf[..k], dropped, buf[k..])
  {
    var n := |input| - |buf|;
    assert input[..n + k] == input[..n] + buf[..k];
    SubsequenceTakes(played, input[..n], buf[..k]);
  }

  lemma AccountedArrive<T>(input: seq<T>, played: seq<T>, dropped: nat, buf: seq<T>, samples: seq<T>)
    requires Accounted(input, played, dropped, buf)
    ensures Accounted(input + samples, played, dropped, buf + samples)
  {
    var n := |input| - |buf|;
    assert (input + samples)[..n] == input[..n];
    assert (input + samples)[n..] == input[n..] + samples;
  }

  ghost predicate Consistent<T>(r: Run<T>) {
    Accounted(r.input, r.played, r.dropped, r.a.buf)
  }

  lemma ArriveConsistent<T>(r: Run<T>, samples: seq<T>)
    requires Consistent(r)
    ensures Consistent(Arrive(r, samples))
  {
    var all := r.a.buf + samples;
    AccountedArrive(r.input, r.played, r.dropped, r.a.buf, samples);
    var kept := Push(r.a, samples).buf;
    assert kept == all[|all| - |kept|..];
    AccountedDrop(r.input + samples, r.played, r.dropped, all, |all| - |kept|);
  }

  lemma StepConsistent<T>(r: Run<T>, e: Event<T>)
    requires r.a.Valid() && Possible(e) && Consistent(r)
    ensures Consistent(Step(r, e))
  {
    match e
    case Append(samples, between, dt) =>
      ArriveConsistent(r, samples);
      var arrived := Arrive(r, samples);
      AccountedPlay(arrived.input, arrived.played, arrived.dropped, arrived.a.buf, Min(between, |arrived.a.buf|));
      var p := Play(arrived, between);
      AccountedDrop(p.input, p.played, p.dropped, p.a.buf, Shed(p.a, |arrived.a.buf|, dt));
    case Callback(n) =>
      AccountedPlay(r.input, r.played, r.dropped, r.a.buf, Min(n, |r.a.buf|));
    case Reconfigure(sps) =>
      var k := |r.a.buf| - |Resized(r.a, sps).buf|;
      AccountedDrop(r.input, r.played, r.dropped, r.a.buf, k);
      assert r.a.buf[0..] == r.a.buf;
  }

  /**
   Over every run: appended = played + dropped + buffered, and what was played followed
   by what is buffered is an in-order subsequence of what came in.
   */
  lemma {:induction false} Conservation<T>(es: seq<Event<T>>)
    requires AllPossible(es)
    ensures var r := Exec(es);
      Consistent(r) && Subsequence(r.played + r.a.buf, r.input)
  {
    if es == [] {
      StartConsistent<T>();
    } else {
      Conservation(es[..|es| - 1]);
      StepConsistent(Exec(es[..|es| - 1]), es[|es| - 1]);
    }
    ConsistentOrder(Exec(es));
  }

  lemma StartConsistent<T>()
    ensures Consistent(Start<T>())
  {
  }

  lemma ConsistentOrder<T>(r: Run<T>)
    requires Consistent(r)
    ensures Subsequence(r.played + r.a.buf, r.input)
  {
    var n := |r.input| - |r.a.buf|;
    SubsequenceTakes(r.played, r.input[..n], r.a.buf);
    assert r.input[..n] + r.a.buf == r.input;
  }

  // ----- A tick never drops too much -----

  predicate Rated(window: seq<Occupancy>) {
    forall w :: w in window ==> w.sps > 0
  }

  function HistogramOf(window: seq<Occupancy>): (h: seq<nat>)
    requires Rated(window)
    ensures |h| == BINS
  {
    if window == [] then Zeros(BINS)
    else
      var h := HistogramOf(window[..|window| - 1]);
      var last := window[|window| - 1];
      var i := Bin(last.samples, last.sps);
      h[i := h[i] + 1]
  }

  lemma {:induction false} ReportedBinsFilled(window: seq<Occupancy>, k: nat)
    requires Rated(window) && k < |window|
    ensures HistogramOf(window)[Bin(window[k].samples, window[k].sps)] > 0
  {
    if k < |window| - 1 {
      ReportedBinsFilled(window[..|window| - 1], k);
    }
  }

  /** The histogram counts exactly the occupancies reported since the last tick, each by its own rate. */
  ghost predicate Counted<T>(r: Run<T>) {
    Rated(r.window) && r.a.hist == HistogramOf(r.window)
  }

  lemma StepCounted<T>(r: Run<T>, e: Event<T>)
    requires r.a.Valid() && Possible(e) && Counted(r)
    ensures Counted(Step(r, e))
  {
    if e.Append? {
      var having := |Arrive(r, e.samples).a.buf|;
      assert (r.window + [Occupancy(having, r.a.sps)])[..|r.window|] == r.window;
    }
  }

  /** In every run, whatever changes of the sample rate it holds. */
  lemma {:induction false} RunCounted<T>(es: seq<Event<T>>)
    requires AllPossible(es)
    ensures Counted(Exec(es))
  {
    if es != [] {
      RunCounted(es[..|es| - 1]);
      StepCounted(Exec(es[..|es| - 1]), es[|es| - 1]);
    }
  }

  /**
   The quota is even and, in seconds, at most two thirds of any occupancy whose bin is not
   below the leading run, plus one sample.
   */
  lemma QuotaBound(sps: nat, leading: nat, mode: nat, low: Occupancy)
    requires sps > 0 && low.sps > 0 && leading <= Bin(low.samples, low.sps)
    ensures var q := Quota(3 * sps, leading, mode);
      q % 2 == 0 && (q > 0 ==> 3 * ((q - 1) * low.sps) <= 2 * (low.samples * sps))
  {
    var safe := leading * 2 / 3;
    if mode >= 6 {
      var mark := if mode > safe * 4 then safe * 4 else mode;
      assert 3 * mark <= 8 * leading;
      var n := 3 * sps * mark / 120;
      RoundingBound(n);
      QuotaOfMark(sps, mark, n);
      MarkBound(leading, Bin(low.samples, low.sps), mark, low);
      ScaledBound(n, sps, mark, low.sps, low.samples);
      var q := Quota(3 * sps, leading, mode);
      if q > 0 {
        MulMonotone(q - 1, n, low.sps);
      }
    }
  }

  lemma RoundingBound(n: nat)
    ensures (n + 1 - (n + 1) % 2) % 2 == 0 && n + 1 - (n + 1) % 2 <= n + 1
  {
  }

  lemma QuotaOfMark(sps: nat, mark: nat, n: nat)
    requires n == 3 * sps * mark / 120
    ensures 40 * n <= sps * mark
  {
    assert 3 * sps * mark == 3 * (sps * mark);
  }

  lemma MarkBound(leading: nat, bin: nat, mark: nat, low: Occupancy)
    requires leading <= bin && bin * low.sps <= 10 * low.samples && 3 * mark <= 8 * leading
    ensures 3 * (mark * low.sps) <= 80 * low.samples
  {
    MulMonotone(leading, bin, low.sps);
    MulMonotone(3 * mark, 8 * leading, low.sps);
    assert 3 * mark * low.sps == 3 * (mark * low.sps);
    assert 8 * leading * low.sps == 8 * (leading * low.sps);
  }

  lemma ScaledBound(n: nat, sps: nat, mark: nat, rate: nat, low: nat)
    requires 40 * n <= sps * mark && 3 * (mark * rate) <= 80 * low
    ensures 3 * (n * rate) <= 2 * (low * sps)
  {
    MulMonotone(40 * n, sps * mark, rate);
    MulMonotone(3 * (mark * rate), 80 * low, sps);
    Reorder(n, sps, mark, rate, low);
  }

  lemma Reorder(n: nat, sps: nat, mark: nat, rate: nat, low: nat)
    ensures 40 * n * rate == 40 * (n * rate) && 80 * low * sps == 80 * (low * sps)
    ensures 3 * (mark * rate) * sps == 3 * (sps * mark * rate)
  {
    assert mark * rate * sps == sps * mark * rate;
  }

  lemma NothingLeading(cap: nat, mode: nat)
    ensures Quota(cap, 0, mode) == 0
  {
    if mode >= 6 {
      assert cap * 0 == 0;
    }
  }

  /**
   A drop of `d` out of `buffered` samples is even and less than a third of them, lasts at
   most two thirds of the shortest occupancy of the window plus one sample, and there is none
   when some occupancy was under a tenth of a second.
   */
  ghost predicate SafeDrop(d: nat, buffered: nat, window: seq<Occupancy>, sps: nat) {
    && d % 2 == 0
    && (d > 0 ==> 3 * d < buffered)
    && (d > 0 ==> forall w :: w in window ==> 3 * ((d - 1) * w.sps) <= 2 * (w.samples * sps))
    && ((exists w :: w in window && 10 * w.samples < w.sps) ==> d == 0)
  }

  /** The state in which the shrink of an append runs, and the window that it closes. */
  function BeforeShrink<T>(r: Run<T>, samples: seq<T>, between: nat): Run<T> {
    Play(Arrive(r, samples), between)
  }

  function ClosedWindow<T>(r: Run<T>, samples: seq<T>): seq<Occupancy> {
    r.window + [Occupancy(|Arrive(r, samples).a.buf|, r.a.sps)]
  }

  /** What the shrink of an append takes away, it takes safely and from the front. */
  ghost predicate ShrinksSafely<T>(r: Run<T>, samples: seq<T>, between: nat, dt: int)
    requires r.a.Valid()
  {
    CutSafely(BeforeShrink(r, samples, between).a.buf, Step(r, Append(samples, between, dt)).a.buf,
              ClosedWindow(r, samples), r.a.sps)
  }

  ghost predicate CutSafely<T>(before: seq<T>, kept: seq<T>, window: seq<Occupancy>, sps: nat) {
    && |kept| <= |before| && kept == before[|before| - |kept|..]
    && SafeDrop(|before| - |kept|, |before|, window, sps)
  }

  /** In every reachable state the next append drops safely. */
  lemma ShrinkIsSafe<T>(es: seq<Event<T>>, samples: seq<T>, between: nat, dt: int)
    requires AllPossible(es)
    ensures ShrinksSafely(Exec(es), samples, between, dt)
  {
    RunCounted(es);
    ShrinkStepIsSafe(Exec(es), samples, between, dt);
  }

  lemma ShrinkStepIsSafe<T>(r: Run<T>, samples: seq<T>, between: nat, dt: int)
    requires r.a.Valid() && Counted(r)
    ensures ShrinksSafely(r, samples, between, dt)
  {
    var p := BeforeShrink(r, samples, between);
    var having := |Arrive(r, samples).a.buf|;
    WindowHistogram(r, samples, between);
    SettleCutsSafely(p, having, dt, ClosedWindow(r, samples));
  }

  lemma SettleCutsSafely<T>(p: Run<T>, having: nat, dt: int, window: seq<Occupancy>)
    requires p.a.Valid() && window != [] && Rated(window)
    requires Record(p.a, having).hist == HistogramOf(window)
    ensures CutSafely(p.a.buf, Settle(p, having, dt).a.buf, window, p.a.sps)
  {
    var d := Shed(p.a, having, dt);
    HistogramDropIsSafe(window, p.a.sps, |p.a.buf|);
    CutOfSafeDrop(p.a.buf, d, window, p.a.sps);
  }

  lemma CutOfSafeDrop<T>(before: seq<T>, d: nat, window: seq<Occupancy>, sps: nat)
    requires d <= |before| && SafeDrop(d, |before|, window, sps)
    ensures CutSafely(before, before[d..], window, sps)
  {
  }

  lemma WindowHistogram<T>(r: Run<T>, samples: seq<T>, between: nat)
    requires r.a.Valid() && Counted(r)
    ensures Rated(ClosedWindow(r, samples))
    ensures Record(BeforeShrink(r, samples, between).a, |Arrive(r, samples).a.buf|).hist
      == HistogramOf(ClosedWindow(r, samples))
  {
    assert ClosedWindow(r, samples)[..|r.window|] == r.window;
  }

  lemma HistogramDropIsSafe(window: seq<Occupancy>, sps: nat, buffered: nat)
    requires sps > 0 && window != [] && Rated(window)
    ensures SafeDrop(Drop(buffered, 3 * sps, HistogramOf(window)), buffered, window, sps)
  {
    var hist := HistogramOf(window);
    var leading, mode := Leading(hist), Mode(hist, BINS);
    forall w | w in window
      ensures Quota(3 * sps, leading, mode) % 2 == 0
      ensures Quota(3 * sps, leading, mode) > 0 ==>
        3 * ((Quota(3 * sps, leading, mode) - 1) * w.sps) <= 2 * (w.samples * sps)
      ensures 10 * w.samples < w.sps ==> Quota(3 * sps, leading, mode) == 0
    {
      var k :| 0 <= k < |window| && window[k] == w;
      ReportedBinsFilled(window, k);
      QuotaBound(sps, leading, mode, w);
      if 10 * w.samples < w.sps {
        LowBin(w.samples, w.sps);
        NothingLeading(3 * sps, mode);
      }
    }
    assert window[0] in window;
  }

  lemma LowBin(w: nat, sps: nat)
    requires sps > 0 && 10 * w < sps
    ensures Bin(w, sps) == 0
  {
    var i := Bin(w, sps);
    if i > 0 {
      MulMonotone(1, i, sps);
    }
  }

  /** Dropping at all takes a window whose most frequent occupancy was at least 600 milliseconds. */
  lemma DropNeedsFullBuffer(window: seq<Occupancy>, sps: nat, buffered: nat)
    requires sps > 0 && Rated(window) && Drop(buffered, 3 * sps, HistogramOf(window)) > 0
    ensures Mode(HistogramOf(window), BINS) >= 6
    ensures exists w :: w in window && 10 * w.samples >= 6 * w.sps
  {
    var m := Mode(HistogramOf(window), BINS);
    var k := FilledBinReported(window, m);
    assert window[k] in window;
    MulMonotone(6, m, window[k].sps);
  }

  lemma {:induction false} FilledBinReported(window: seq<Occupancy>, i: nat) returns (k: nat)
    requires Rated(window) && i < BINS && HistogramOf(window)[i] > 0
    ensures k < |window| && Bin(window[k].samples, window[k].sps) == i
  {
    var last := window[|window| - 1];
    if Bin(last.samples, last.sps) == i {
      k := |window| - 1;
    } else {
      k := FilledBinReported(window[..|window| - 1], i);
    }
  }

  // ----- A tick drops what it should -----

  /** The tick is due twelve seconds after the last one, or after the first append. */
  predicate Due(tms: int, dt: int) {
    tms != 0 && dt >= tms + 12_000
  }

  /** The exact amount goes from the front on a tick, and nothing otherwise. */
  ghost predicate CutExactly<T>(before: seq<T>, kept: seq<T>, due: bool, sps: nat, h: seq<nat>)
    requires |h| == BINS
  {
    && |kept| <= |before| && kept == before[|before| - |kept|..]
    && if due then Trims(3 * sps, Leading(h), Mode(h, BINS), |before|, |before| - |kept|) else kept == before
  }

  /** So does the shrink of an append; the occupancies of the window are forgotten on a tick. */
  ghost predicate ShrinksExactly<T>(r: Run<T>, samples: seq<T>, between: nat, dt: int)
    requires r.a.Valid() && Rated(ClosedWindow(r, samples))
  {
    var after, window := Step(r, Append(samples, between, dt)), ClosedWindow(r, samples);
    && CutExactly(BeforeShrink(r, samples, between).a.buf, after.a.buf, Due(r.a.tms, dt), r.a.sps, HistogramOf(window))
    && after.window == if Due(r.a.tms, dt) then [] else window
  }

  /** In every reachable state. */
  lemma ShrinkIsExact<T>(es: seq<Event<T>>, samples: seq<T>, between: nat, dt: int)
    requires AllPossible(es)
    ensures Rated(ClosedWindow(Exec(es), samples)) && ShrinksExactly(Exec(es), samples, between, dt)
  {
    RunCounted(es);
    ShrinkStepIsExact(Exec(es), samples, between, dt);
  }

  lemma ShrinkStepIsExact<T>(r: Run<T>, samples: seq<T>, between: nat, dt: int)
    requires r.a.Valid() && Counted(r)
    ensures Rated(ClosedWindow(r, samples)) && ShrinksExactly(r, samples, between, dt)
  {
    WindowHistogram(r, samples, between);
    AppendSettles(r, samples, between, dt);
    SettleIsExact(
      BeforeShrink(r, samples, between), |Arrive(r, samples).a.buf|, dt, HistogramOf(ClosedWindow(r, samples)));
  }

  lemma AppendSettles<T>(r: Run<T>, samples: seq<T>, between: nat, dt: int)
    requires r.a.Valid()
    ensures var p, having := BeforeShrink(r, samples, between), |Arrive(r, samples).a.buf|;
      && p.a.Valid() && p.a.sps == r.a.sps && p.a.tms == r.a.tms
      && Step(r, Append(samples, between, dt)) == Settle(p, having, dt)
      && Settle(p, having, dt).window == if Due(r.a.tms, dt) then [] else ClosedWindow(r, samples)
  {
  }

  lemma SettleIsExact<T>(p: Run<T>, having: nat, dt: int, h: seq<nat>)
    requires p.a.Valid() && Record(p.a, having).hist == h
    ensures CutExactly(p.a.buf, Settle(p, having, dt).a.buf, Due(p.a.tms, dt), p.a.sps, h)
  {
    var d := Shed(p.a, having, dt);
    DropMeaning(3 * p.a.sps, Leading(h), Mode(h, BINS), |p.a.buf|, Drop(|p.a.buf|, 3 * p.a.sps, h));
    assert |Settle(p, having, dt).a.buf| == |p.a.buf| - d;
  }

  /** All occupancies were measured at one rate and lie in one tenth of a second, or beyond 2.9 seconds. */
  ghost predicate Steady(window: seq<Occupancy>, sps: nat, bin: nat) {
    forall w :: w in window ==> w.sps == sps && InBin(w, bin)
  }

  ghost predicate InBin(w: Occupancy, bin: nat) {
    bin < 30 && bin * w.sps <= 10 * w.samples && (bin < 29 ==> 10 * w.samples < (bin + 1) * w.sps)
  }

  lemma BinOf(w: Occupancy, bin: nat)
    requires w.sps > 0 && InBin(w, bin)
    ensures Bin(w.samples, w.sps) == bin
  {
    var i := Bin(w.samples, w.sps);
    if i < bin {
      MulMonotone(i + 1, bin, w.sps);
    } else if bin < i {
      MulMonotone(bin + 1, i, w.sps);
    }
  }

  lemma {:induction false} SteadyHistogram(window: seq<Occupancy>, sps: nat, bin: nat)
    requires Rated(window) && Steady(window, sps, bin) && bin < BINS
    ensures HistogramOf(window) == Zeros(BINS)[bin := |window|]
  {
    if window != [] {
      var front, last := window[..|window| - 1], window[|window| - 1];
      assert Steady(front, sps, bin);
      SteadyHistogram(front, sps, bin);
      BinOf(last, bin);
    }
  }

  lemma SteadyMarks(bin: nat, count: nat)
    requires 0 < bin < BINS && count > 0
    ensures var h := Zeros(BINS)[bin := count]; Leading(h) == bin && Mode(h, BINS) == bin
  {
    var h := Zeros(BINS)[bin := count];
    LeadingUnique(h, bin);
    ModeUnique(h, BINS, bin, Mode(h, BINS));
  }

  /** A quarter of a time goes from the front, to one sample, if three times as much is there. */
  ghost predicate QuarterGoes<T>(before: seq<T>, kept: seq<T>, sps: nat, bin: nat) {
    exists e: nat :: EvenFrom(sps * bin / 40, e) && kept == if 0 < 3 * e < |before| then before[e..] else before
  }

  lemma TrimIsQuarter<T>(before: seq<T>, d: nat, sps: nat, bin: nat)
    requires bin >= 6 && d <= |before| && Trims(3 * sps, bin, bin, |before|, d)
    ensures QuarterGoes(before, before[d..], sps, bin)
  {
    SteadyQuarter(sps, bin);
    var e: nat :| EvenFrom(3 * sps * Mark(bin, bin) / 120, e) && d == if 0 < 3 * e < |before| then e else 0;
    assert EvenFrom(sps * bin / 40, e);
  }

  ghost predicate SteadyTick<T>(r: Run<T>, samples: seq<T>, dt: int, bin: nat) {
    Due(r.a.tms, dt) && 6 <= bin < 30 && Steady(ClosedWindow(r, samples), r.a.sps, bin)
  }

  ghost predicate ShedsQuarter<T>(r: Run<T>, samples: seq<T>, between: nat, dt: int, bin: nat)
    requires r.a.Valid()
  {
    QuarterGoes(BeforeShrink(r, samples, between).a.buf, Step(r, Append(samples, between, dt)).a.buf, r.a.sps, bin)
  }

  /**
   A steady buffer of 600 milliseconds or more does shrink.  When all occupancies since the last
   tick lie in one tenth of a second, the tick drops a quarter of that time, to one sample, as
   soon as three times as much is buffered.
   */
  lemma SteadyBufferShrinks<T>(es: seq<Event<T>>, samples: seq<T>, between: nat, dt: int, bin: nat)
    requires AllPossible(es) && SteadyTick(Exec(es), samples, dt, bin)
    ensures ShedsQuarter(Exec(es), samples, between, dt, bin)
  {
    ShrinkIsExact(es, samples, between, dt);
    SteadyStep(Exec(es), samples, between, dt, bin);
  }

  lemma SteadyStep<T>(r: Run<T>, samples: seq<T>, between: nat, dt: int, bin: nat)
    requires r.a.Valid() && SteadyTick(r, samples, dt, bin)
    requires Rated(ClosedWindow(r, samples)) && ShrinksExactly(r, samples, between, dt)
    ensures ShedsQuarter(r, samples, between, dt, bin)
  {
    SteadyCut(BeforeShrink(r, samples, between).a.buf, Step(r, Append(samples, between, dt)).a.buf, r.a.sps,
              ClosedWindow(r, samples), bin);
  }

  lemma SteadyCut<T>(before: seq<T>, kept: seq<T>, sps: nat, window: seq<Occupancy>, bin: nat)
    requires 6 <= bin < 30 && window != [] && Rated(window) && Steady(window, sps, bin)
    requires CutExactly(before, kept, true, sps, HistogramOf(window))
    ensures QuarterGoes(before, kept, sps, bin)
  {
    SteadyHistogram(window, sps, bin);
    SteadyMarks(bin, |window|);
    TrimIsQuarter(before, |before| - |kept|, sps, bin);
  }

  lemma SteadyQuarter(sps: nat, bin: nat)
    requires bin >= 6
    ensures Mark(bin, bin) == bin && 3 * sps * Mark(bin, bin) / 120 == sps * bin / 40
  {
    assert 3 * sps * bin == 3 * (sps * bin);
    ThirdsCancel(sps * bin);
  }

  lemma ThirdsCancel(x: nat)
    ensures 3 * x / 120 == x / 40
  {
  }

  /** With that time still buffered, at any rate of more than twenty samples a second, something goes. */
  lemma SteadyBufferGetsShorter<T>(es: seq<Event<T>>, samples: seq<T>, between: nat, dt: int, bin: nat)
    requires AllPossible(es) && SteadyTick(Exec(es), samples, dt, bin) && Exec(es).a.sps > 20
    requires 10 * |BeforeShrink(Exec(es), samples, between).a.buf| >= bin * Exec(es).a.sps
    ensures |Step(Exec(es), Append(samples, between, dt)).a.buf| < |BeforeShrink(Exec(es), samples, between).a.buf|
  {
    SteadyBufferShrinks(es, samples, between, dt, bin);
    QuarterIsSomething(BeforeShrink(Exec(es), samples, between).a.buf,
                       Step(Exec(es), Append(samples, between, dt)).a.buf, Exec(es).a.sps, bin);
  }

  lemma QuarterIsSomething<T>(before: seq<T>, kept: seq<T>, sps: nat, bin: nat)
    requires QuarterGoes(before, kept, sps, bin) && bin >= 6 && sps > 20 && 10 * |before| >= bin * sps
    ensures |kept| < |before|
  {
    var e: nat :| EvenFrom(sps * bin / 40, e) && kept == if 0 < 3 * e < |before| then before[e..] else before;
    MulMonotone(6, bin, sps);
    QuarterIsLess(bin * sps, e, |before|);
  }

  lemma QuarterIsLess(x: nat, e: nat, n: nat)
    requires x > 120 && EvenFrom(x / 40, e) && 10 * n >= x
    ensures 0 < 3 * e < n
  {
  }

  /** The times of the appends. */
  function Times<T>(es: seq<Event<T>>): seq<int> {
    if es == [] then []
    else
      var last := es[|es| - 1];
      Times(es[..|es| - 1]) + if last.Append? then [last.dt] else []
  }

  ghost predicate LastTick(times: seq<int>, k: int, tms: int) {
    0 <= k < |times| && times[k] == tms && forall j :: k < j < |times| ==> times[j] < tms + 12_000
  }

  ghost predicate LatestTick(times: seq<int>, tms: int) {
    if times == [] then tms == 0 else exists k :: LastTick(times, k, tms)
  }

  lemma OneMoreTime(times: seq<int>, dt: int, tms: int)
    requires LatestTick(times, tms)
    ensures LatestTick(times + [dt], if tms == 0 || Due(tms, dt) then dt else tms)
  {
    if tms == 0 || Due(tms, dt) {
      assert LastTick(times + [dt], |times|, dt);
    } else {
      var k :| LastTick(times, k, tms);
      assert LastTick(times + [dt], k, tms);
    }
  }

  lemma AppendTicks<T>(r: Run<T>, e: Event<T>)
    requires r.a.Valid() && Possible(e)
    ensures Step(r, e).a.tms == if e.Append? && (r.a.tms == 0 || Due(r.a.tms, e.dt)) then e.dt else r.a.tms
  {
  }

  /** No tick is missed: the latest one was at an append, and no append since came twelve seconds after it. */
  lemma {:induction false} NoTickMissed<T>(es: seq<Event<T>>)
    requires AllPossible(es)
    ensures LatestTick(Times(es), Exec(es).a.tms)
  {
    if es != [] {
      var front, last := es[..|es| - 1], es[|es| - 1];
      NoTickMissed(front);
      AppendTicks(Exec(front), last);
      if last.Append? {
        OneMoreTime(Times(front), last.dt, Exec(front).a.tms);
      }
    }
  }

  // ----- Two channels stay two channels -----

  /** Events of a two-channel device: every count of samples is even. */
  ghost predicate Stereo<T>(e: Event<T>) {
    match e
    case Append(samples, between, dt) => |samples| % 2 == 0 && between % 2 == 0
    case Callback(n) => n % 2 == 0
    case Reconfigure(sps) => sps % 2 == 0
  }

  ghost predicate Aligned<T>(r: Run<T>) {
    r.a.sps % 2 == 0 && |r.a.buf| % 2 == 0 && |r.input| % 2 == 0
  }

  lemma EvenDrop(buffered: nat, cap: nat, hist: seq<nat>)
    requires |hist| == BINS
    ensures Drop(buffered, cap, hist) % 2 == 0
  {
    var safe := Leading(hist) * 2 / 3;
    var mode := Mode(hist, BINS);
    var mark := if mode > safe * 4 then safe * 4 else mode;
    EvenQuota(cap * mark / 120 + 1);
  }

  lemma EvenQuota(n: nat)
    ensures (n - n % 2) % 2 == 0
  {
  }

  lemma EvenMin(a: nat, b: nat)
    requires a % 2 == 0 && b % 2 == 0
    ensures Min(a, b) % 2 == 0 && (a + b) % 2 == 0 && (a >= b ==> (a - b) % 2 == 0)
  {
  }

  lemma EvenTriple(n: nat)
    requires n % 2 == 0
    ensures 3 * n % 2 == 0
  {
  }

  lemma ArriveAligned<T>(r: Run<T>, samples: seq<T>)
    requires Aligned(r) && |samples| % 2 == 0
    ensures Aligned(Arrive(r, samples))
  {
    EvenMin(|r.a.buf|, |samples|);
    EvenMin(|r.input|, |samples|);
    EvenTriple(r.a.sps);
    EvenMin(|r.a.buf| + |samples|, 3 * r.a.sps);
  }

  lemma PlayAligned<T>(r: Run<T>, n: nat)
    requires Aligned(r) && n % 2 == 0
    ensures Aligned(Play(r, n))
  {
    EvenMin(n, |r.a.buf|);
    EvenMin(|r.a.buf|, Min(n, |r.a.buf|));
  }

  lemma EvenShed<T>(a: Audio<T>, having: nat, dt: int)
    requires a.Valid()
    ensures Shed(a, having, dt) % 2 == 0
  {
    EvenDrop(|a.buf|, a.Capacity(), Record(a, having).hist);
  }

  lemma SettleAligned<T>(r: Run<T>, having: nat, dt: int)
    requires r.a.Valid() && Aligned(r)
    ensures Aligned(Settle(r, having, dt))
  {
    var d := Shed(r.a, having, dt);
    EvenShed(r.a, having, dt);
    EvenMin(|r.a.buf|, d);
    assert |Settle(r, having, dt).a.buf| == |r.a.buf| - d;
    assert Shrink(r.a, having, dt).sps == r.a.sps;
  }

  lemma StepAligned<T>(r: Run<T>, e: Event<T>)
    requires r.a.Valid() && Possible(e) && Stereo(e) && Aligned(r)
    ensures Aligned(Step(r, e))
  {
    match e
    case Append(samples, between, dt) =>
      var arrived := Arrive(r, samples);
      ArriveAligned(r, samples);
      PlayAligned(arrived, between);
      SettleAligned(Play(arrived, between), |arrived.a.buf|, dt);
    case Callback(n) =>
      PlayAligned(r, n);
    case Reconfigure(sps) =>
  }

  lemma {:induction false} RunAligned<T>(es: seq<Event<T>>)
    requires AllPossible(es) && forall i :: 0 <= i < |es| ==> Stereo(es[i])
    ensures Aligned(Exec(es))
  {
    if es != [] {
      RunAligned(es[..|es| - 1]);
      StepAligned(Exec(es[..|es| - 1]), es[|es| - 1]);
    }
  }

  /** The first buffered sample came in at an even index, as samples of the left channel do. */
  ghost predicate HeadIsLeft<T>(r: Run<T>) {
    r.a.buf != [] ==> exists k :: 0 <= k < |r.input| && k % 2 == 0 && r.a.buf == r.input[k..]
  }

  /** In every reachable state of a two-channel device the first buffered sample is a left one. */
  lemma ChannelsStayAligned<T>(es: seq<Event<T>>)
    requires AllPossible(es) && forall i :: 0 <= i < |es| ==> Stereo(es[i])
    ensures HeadIsLeft(Exec(es))
  {
    RunAligned(es);
    Conservation(es);
    AlignedHead(Exec(es));
  }

  lemma AlignedHead<T>(r: Run<T>)
    requires Aligned(r) && Consistent(r)
    ensures HeadIsLeft(r)
  {
    var k := |r.input| - |r.a.buf|;
    EvenMin(|r.input|, |r.a.buf|);
    assert r.a.buf == r.input[k..];
  }
}
