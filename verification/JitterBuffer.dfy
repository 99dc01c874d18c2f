/**
 The audio jitter buffer: a ring of three seconds of samples and a histogram of how
 full it was, from which a tick every twelve seconds decides how much to drop.

 The clock is an input of each step and samples are opaque.
 */
module JitterBuffer {
  import opened Prelude
  import opened AudioRing

  const BINS := 30
  const AUDIO_BUFFER_MS := 3000
  const TICK_MS := 12000

  /** The state of a buffer: its samples, samples per second, histogram and time of the last tick. */
  datatype Audio<T> = Audio(buf: seq<T>, sps: nat, hist: seq<nat>, tms: int) {
    ghost predicate Valid() {
      sps > 0 && |buf| <= Capacity() && |hist| == BINS
    }

    function Capacity(): nat {
      3 * sps
    }
  }

  /** The bin of an occupancy, in tenths of a second, the last bin taking the rest. */
  function Bin(having: nat, sps: nat): (i: nat)
    requires sps > 0
    ensures i < BINS
    ensures i < 29 ==> i * sps <= 10 * having < (i + 1) * sps
    ensures i == 29 ==> 29 * sps <= 10 * having
  {
    var q := having * 10 / sps;
    DivisionBounds(having * 10, sps);
    if q > 29 then
      MulMonotone(29, q, sps);
      29
    else q
  }

  lemma DivisionBounds(a: nat, b: nat)
    requires b > 0
    ensures a / b * b <= a < (a / b + 1) * b
  {
  }

  lemma MulMonotone(a: nat, b: nat, c: nat)
    requires a <= b
    ensures a * c <= b * c
  {
  }

  /** The length of the leading run of empty bins. */
  function Leading(h: seq<nat>): (z: nat)
    ensures z <= |h|
    ensures forall i :: 0 <= i < z ==> h[i] == 0
    ensures z < |h| ==> h[z] > 0
  {
    if h == [] || h[0] != 0 then 0 else 1 + Leading(h[1..])
  }

  /** `m` is the first of the bins 1 .. n-1 that is as full as any, or 0 when they are all empty. */
  ghost predicate IsMode(h: seq<nat>, n: nat, m: nat)
    requires n <= |h|
  {
    if m == 0 then forall j :: 1 <= j < n ==> h[j] == 0
    else m < n && h[m] > 0 && forall j :: 1 <= j < n ==> h[j] <= h[m] && (j < m ==> h[j] < h[m])
  }

  function Mode(h: seq<nat>, n: nat): (m: nat)
    requires n <= |h|
    ensures IsMode(h, n, m)
  {
    if n <= 1 then 0
    else
      var m := Mode(h, n - 1);
      if h[n - 1] > (if m == 0 then 0 else h[m]) then n - 1 else m
  }

  lemma ModeUnique(h: seq<nat>, n: nat, a: nat, b: nat)
    requires n <= |h| && IsMode(h, n, a) && IsMode(h, n, b)
    ensures a == b
  {
  }

  /** How many samples a tick wants to drop: an even number for the smaller of two water marks. */
  function Quota(cap: nat, leading: nat, mode: nat): nat {
    var safe := leading * 2 / 3;
    if mode < 6 then 0
    else
      var mark := if mode > safe * 4 then safe * 4 else mode;
      var n := cap * mark / (BINS * 4) + 1;
      n - n % 2
  }

  /** The quota, unless that is too much of what is buffered. */
  function DropFor(buffered: nat, quota: nat): (d: nat)
    ensures d <= buffered
  {
    if buffered > quota * 3 && quota > 0 then quota else 0
  }

  /** The even one of two neighbours. */
  ghost predicate EvenFrom(n: nat, e: nat) {
    e % 2 == 0 && n <= e <= n + 1
  }

  /** The smaller water mark, in tenths of a second: two thirds of the leading run count for four times as much. */
  function Mark(leading: nat, mode: nat): nat {
    Min(mode, 4 * (leading * 2 / 3))
  }

  /**
   Nothing goes while the buffer mostly held less than 600 milliseconds; otherwise a quarter of
   the water mark's share of the buffer, made even, if that is less than a third of what is there.
   */
  ghost predicate Trims(cap: nat, leading: nat, mode: nat, buffered: nat, d: nat) {
    if mode < 6 then d == 0
    else exists e: nat :: EvenFrom(cap * Mark(leading, mode) / 120, e) && d == if 0 < 3 * e < buffered then e else 0
  }

  lemma QuotaIsEven(cap: nat, leading: nat, mode: nat)
    requires mode >= 6
    ensures EvenFrom(cap * Mark(leading, mode) / 120, Quota(cap, leading, mode))
  {
    var safe := leading * 2 / 3;
    assert Mark(leading, mode) == if mode > safe * 4 then safe * 4 else mode;
    OneOfTwoIsEven(cap * Mark(leading, mode) / 120);
  }

  lemma OneOfTwoIsEven(n: nat)
    ensures EvenFrom(n, n + 1 - (n + 1) % 2)
  {
  }

  lemma EvenFromUnique(n: nat, a: nat, b: nat)
    requires EvenFrom(n, a) && EvenFrom(n, b)
    ensures a == b
  {
  }

  /** For any capacity, water marks and occupancy exactly this much is dropped. */
  lemma DropMeaning(cap: nat, leading: nat, mode: nat, buffered: nat, d: nat)
    ensures Trims(cap, leading, mode, buffered, d) <==> d == DropFor(buffered, Quota(cap, leading, mode))
  {
    if mode >= 6 {
      var n := cap * Mark(leading, mode) / 120;
      QuotaIsEven(cap, leading, mode);
      if e: nat :| EvenFrom(n, e) && d == if 0 < 3 * e < buffered then e else 0 {
        EvenFromUnique(n, e, Quota(cap, leading, mode));
      }
    }
  }

  function Drop(buffered: nat, cap: nat, hist: seq<nat>): (d: nat)
    requires |hist| == BINS
    ensures d <= buffered
  {
    DropFor(buffered, Quota(cap, Leading(hist), Mode(hist, BINS)))
  }

  function Zeros(n: nat): (r: seq<nat>)
    ensures |r| == n && forall i :: 0 <= i < n ==> r[i] == 0
  {
    if n == 0 then [] else Zeros(n - 1) + [0]
  }

  function Push<T>(a: Audio<T>, samples: seq<T>): Audio<T> {
    a.(buf := LastN(a.buf + samples, a.Capacity()))
  }

  function Record<T>(a: Audio<T>, having: nat): Audio<T>
    requires a.Valid()
  {
    var i := Bin(having, a.sps);
    a.(hist := a.hist[i := a.hist[i] + 1])
  }

  predicate Ticks<T>(a: Audio<T>, dt: int) {
    a.tms != 0 && dt >= a.tms + TICK_MS
  }

  function Shrink<T>(a: Audio<T>, having: nat, dt: int): Audio<T>
    requires a.Valid()
  {
    var r := Record(a, having);
    if a.tms == 0 then r.(tms := dt) else if !Ticks(a, dt) then r else Ticked(r, dt)
  }

  function Ticked<T>(r: Audio<T>, dt: int): Audio<T>
    requires r.Valid()
  {
    Audio(r.buf[Drop(|r.buf|, r.Capacity(), r.hist)..], r.sps, Zeros(BINS), dt)
  }

  function Pop<T>(a: Audio<T>, n: nat): Audio<T> {
    a.(buf := a.buf[Min(n, |a.buf|)..])
  }

  function Resized<T>(a: Audio<T>, sps: nat): Audio<T> {
    if sps == a.sps then a else a.(buf := [], sps := sps)
  }

  /** Making room first changes nothing: the newest samples remain. */
  lemma SkipThenPush<T>(was: seq<T>, buffer: seq<T>, cap: nat)
    requires |was| <= cap && |buffer| <= cap
    ensures var surplus := if |was| + |buffer| > cap then |was| + |buffer| - cap else 0;
      LastN(was[surplus..] + buffer, cap) == LastN(was + buffer, cap)
  {
  }

  /** Appends to a ring; a buffer longer than the ring is a case of its own. */
  method AppendTo<T(0)>(ring: Ring<T>, buffer: seq<T>) returns (having: nat)
    requires ring.Valid()
    modifies ring, ring.data
    ensures ring.Valid() && having == ring.len
    ensures ring.Contents() == LastN(old(ring.Contents()) + buffer, ring.data.Length)
  {
    var cap := ring.data.Length;
    ghost var was := ring.Contents();
    if |buffer| > cap {
      ring.PushSliceOverwrite(buffer);
      having := cap;
    } else {
      var wanted := ring.len + |buffer|;
      if wanted > cap {
        var _ := ring.Skip(wanted - cap);
      }
      SkipThenPush(was, buffer, cap);
      ring.PushSliceOverwrite(buffer);
      having := ring.len;
    }
  }

  /** Drops from a ring what two water marks call for. */
  method DropFrom<T(0)>(ring: Ring<T>, leading: nat, mode: nat)
    requires ring.Valid()
    modifies ring
    ensures ring.Valid()
    ensures var b := old(ring.Contents());
      ring.Contents() == b[DropFor(|b|, Quota(ring.data.Length, leading, mode))..]
    ensures var b, d := old(ring.Contents()), old(ring.len) - ring.len;
      0 <= d <= |b| && ring.Contents() == b[d..] && Trims(ring.data.Length, leading, mode, |b|, d)
  {
    var zero, max := leading * 2 / 3, mode;
    DropMeaning(ring.data.Length, leading, mode, ring.len, DropFor(ring.len, Quota(ring.data.Length, leading, mode)));
    if max < 6 {
      return;
    } else if max > zero * 4 {
      max := zero * 4;
    }
    var n := ring.data.Length * max / (BINS * 4) + 1;
    var skip := n - n % 2;
    assert skip == Quota(ring.data.Length, leading, mode);
    if ring.len > skip * 3 && skip > 0 {
      var _ := ring.Skip(skip);
    }
  }

  class AudioBuffer<T(0)> {
    var ring: Ring<T>
    var sps: nat
    const hist: array<nat>
    var tms: int

    ghost predicate Valid()
      reads this, ring
    {
      && ring.Valid() && sps > 0 && ring.data.Length == 3 * sps
      && hist.Length == BINS && hist as object != ring.data
    }

    ghost function State(): (a: Audio<T>)
      requires Valid()
      reads this, ring, ring.data, hist
      ensures a.Valid()
    {
      Audio(ring.Contents(), sps, hist[..], tms)
    }

    constructor ()
      ensures Valid() && fresh(ring) && fresh(ring.data) && fresh(hist)
      ensures State() == Audio([], 96000, Zeros(BINS), 0)
    {
      ring := new Ring(48000 * 2 * AUDIO_BUFFER_MS / 1000);
      sps := 48000 * 2;
      hist := new nat[BINS](i => 0);
      tms := 0;
      new;
      assert hist[..] == Zeros(BINS);
    }

    method Resize(sampleRate: nat, channels: nat)
      requires Valid() && sampleRate * channels > 0
      modifies this
      ensures Valid() && (ring == old(ring) || (fresh(ring) && fresh(ring.data)))
      ensures State() == Resized(old(State()), sampleRate * channels)
      ensures sps == sampleRate * channels && ring.data.Length == 3 * sps && hist[..] == old(hist[..])
      ensures ring.Contents() == if old(sps) == sps then old(ring.Contents()) else []
    {
      var n := sampleRate * channels;
      var capacity := n * AUDIO_BUFFER_MS / 1000;
      if capacity != ring.data.Length {
        ring := new Ring(capacity);
        sps := n;
      }
    }

    /** Appends samples, keeping only the newest three seconds, and tells how many are buffered. */
    method AppendPcm2(buffer: seq<T>) returns (having: nat)
      requires Valid()
      modifies ring, ring.data
      ensures Valid() && having == |State().buf|
      ensures State() == Push(old(State()), buffer)
    {
      having := AppendTo(ring, buffer);
    }

    /** The output callback takes what it needs, or what there is. */
    method Callback(n: nat) returns (played: seq<T>)
      requires Valid()
      modifies ring
      ensures Valid()
      ensures played == old(State()).buf[..Min(n, |old(State()).buf|)]
      ensures State() == Pop(old(State()), n)
    {
      played := ring.PopSlice(Min(n, ring.len));
    }

    /** One scan of the histogram finds both water marks and clears it. */
    method ScanAndClear() returns (zero: nat, max: nat)
      requires hist.Length == BINS
      modifies hist
      ensures zero == Leading(old(hist[..])) && max == Mode(old(hist[..]), BINS)
      ensures hist[..] == Zeros(BINS)
    {
      ghost var h := hist[..];
      zero, max := 0, 0;
      for i := 0 to BINS
        invariant zero <= i && (forall j :: 0 <= j < zero ==> h[j] == 0) && (zero < i ==> h[zero] > 0)
        invariant IsMode(h, i, max)
        invariant forall j :: i <= j < BINS ==> hist[j] == h[j]
        invariant forall j :: 0 <= j < i ==> hist[j] == if j == max && j > 0 then h[j] else 0
      {
        if hist[i] == 0 && zero == i {
          zero := zero + 1;
        }
        if hist[i] > hist[max] {
          hist[max] := 0;
          max := i;
        } else {
          hist[i] := 0;
        }
      }
      LeadingUnique(h, zero);
      ModeUnique(h, BINS, max, Mode(h, BINS));
      hist[max] := 0;
      assert hist[..] == Zeros(BINS);
    }

    /** Records an occupancy and, when a tick is due, drops samples. */
    method TryShrink(having: nat, dt: int)
      requires Valid()
      modifies this`tms, ring, hist
      ensures Valid()
      ensures State() == Shrink(old(State()), having, dt)
    {
      RecordOccupancy(having);
      if tms == 0 {
        tms := dt;
        return;
      } else if dt < tms + TICK_MS {
        return;
      }
      Tick(dt);
    }

    method RecordOccupancy(having: nat)
      requires Valid()
      modifies hist
      ensures Valid() && State() == Record(old(State()), having)
    {
      var i := having * 10 / sps;
      if i > 29 {
        i := 29;
      }
      assert i == Bin(having, sps);
      hist[i] := hist[i] + 1;
    }

    method Tick(dt: int)
      requires Valid()
      modifies this`tms, ring, hist
      ensures Valid() && State() == Ticked(old(State()), dt)
    {
      tms := dt;
      var zero, max := ScanAndClear();
      DropFrom(ring, zero, max);
    }
  }

  lemma {:induction false} LeadingUnique(h: seq<nat>, z: nat)
    requires z <= |h| && (forall j :: 0 <= j < z ==> h[j] == 0) && (z < |h| ==> h[z] > 0)
    ensures Leading(h) == z
  {
    if z > 0 {
      LeadingUnique(h[1..], z - 1);
    }
  }
}
