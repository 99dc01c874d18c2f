/**
 An interval timer that lets a tick through only if the one before it is far enough away.
 Instants are in nanoseconds.
 */
module Throttle {
  import opened Prelude

  /** A poll: the tick of the inner timer, if it has one, and the clock. */
  datatype Poll = Poll(inner: Option<nat>, now: nat)

  /** The least distance between ticks, nine tenths of the period. */
  function MinInterval(period: nat): nat {
    period * 9 / 10
  }

  /** The instant from which the next tick is let through. */
  function NextTick(start: nat, min: nat, polls: seq<Poll>): nat {
    if polls == [] then start
    else
      var front, last := polls[..|polls| - 1], polls[|polls| - 1];
      if last.inner.Some? && NextTick(start, min, front) <= last.now then last.now + min
      else NextTick(start, min, front)
  }

  /** Which polls are answered with a tick. */
  function Emitted(start: nat, min: nat, polls: seq<Poll>): (kept: seq<bool>)
    ensures |kept| == |polls|
  {
    if polls == [] then []
    else
      var front, last := polls[..|polls| - 1], polls[|polls| - 1];
      Emitted(start, min, front) + [last.inner.Some? && NextTick(start, min, front) <= last.now]
  }

  predicate ClockRuns(polls: seq<Poll>) {
    forall i, j :: 0 <= i < j < |polls| ==> polls[i].now <= polls[j].now
  }

  /** A choice of polls that have a tick, none of them too early or too close to another. */
  predicate Spaced(start: nat, min: nat, polls: seq<Poll>, kept: seq<bool>)
    requires |kept| == |polls|
  {
    && (forall i :: 0 <= i < |polls| && kept[i] ==> polls[i].inner.Some? && polls[i].now >= start)
    && (forall i, j :: 0 <= i < j < |polls| && kept[i] && kept[j] ==> polls[j].now >= polls[i].now + min)
  }

  function Count(kept: seq<bool>): nat {
    if kept == [] then 0 else Count(kept[..|kept| - 1]) + if kept[|kept| - 1] then 1 else 0
  }

  predicate Close(polls: seq<Poll>, kept: seq<bool>, min: nat, i: nat, now: nat)
    requires |kept| == |polls|
  {
    i < |polls| && kept[i] && now < polls[i].now + min
  }

  predicate TooClose(polls: seq<Poll>, kept: seq<bool>, min: nat, now: nat)
    requires |kept| == |polls|
  {
    exists i :: 0 <= i < |polls| && Close(polls, kept, min, i, now)
  }

  lemma TooCloseMore(polls: seq<Poll>, kept: seq<bool>, min: nat, now: nat)
    requires |kept| == |polls| > 0
    ensures TooClose(polls, kept, min, now) <==>
      TooClose(polls[..|polls| - 1], kept[..|polls| - 1], min, now) || Close(polls, kept, min, |polls| - 1, now)
  {
    var n := |polls| - 1;
    if i :| 0 <= i < n && Close(polls, kept, min, i, now) {
      assert Close(polls[..n], kept[..n], min, i, now);
    }
    if i :| 0 <= i < n && Close(polls[..n], kept[..n], min, i, now) {
      assert Close(polls, kept, min, i, now);
    }
  }

  /** The next tick waits for the start and for every tick let through, and for nothing else. */
  lemma {:induction false} NextTickMeaning(start: nat, min: nat, polls: seq<Poll>, now: nat)
    requires ClockRuns(polls)
    ensures NextTick(start, min, polls) >= start
    ensures now < NextTick(start, min, polls) <==>
      now < start || TooClose(polls, Emitted(start, min, polls), min, now)
  {
    if polls != [] {
      var n := |polls| - 1;
      var front, kept := polls[..n], Emitted(start, min, polls);
      assert kept[..n] == Emitted(start, min, front);
      NextTickMeaning(start, min, front, now);
      TooCloseMore(polls, kept, min, now);
      if kept[n] && polls[n].now + min <= now {
        assert forall i :: 0 <= i <= n ==> polls[i].now <= polls[n].now;
      }
    }
  }

  /** Of any two ticks let through the later comes at least the minimum after the earlier. */
  lemma {:induction false} TicksAreSpaced(start: nat, min: nat, polls: seq<Poll>)
    requires ClockRuns(polls)
    ensures Spaced(start, min, polls, Emitted(start, min, polls))
  {
    if polls != [] {
      var n := |polls| - 1;
      var front, kept := polls[..n], Emitted(start, min, polls);
      TicksAreSpaced(start, min, front);
      NextTickMeaning(start, min, front, polls[n].now);
      if kept[n] {
        forall i | 0 <= i < n && kept[i] ensures polls[n].now >= polls[i].now + min {
          assert !Close(front, Emitted(start, min, front), min, i, polls[n].now);
        }
      }
    }
  }

  /** A tick is let through exactly if it is not too early, nor too close to one that was let through. */
  lemma EmissionMeaning(start: nat, min: nat, polls: seq<Poll>, k: nat)
    requires ClockRuns(polls) && k < |polls|
    ensures Emitted(start, min, polls)[k] <==>
      && polls[k].inner.Some? && polls[k].now >= start
      && forall i :: 0 <= i < k && Emitted(start, min, polls)[i] ==> polls[k].now >= polls[i].now + min
  {
    EmittedPrefix(start, min, polls, k + 1);
    EmittedPrefix(start, min, polls, k);
    var kept := Emitted(start, min, polls);
    assert polls[..k + 1][..k] == polls[..k];
    NextTickMeaning(start, min, polls[..k], polls[k].now);
    forall i | 0 <= i < k
      ensures Close(polls[..k], kept[..k], min, i, polls[k].now) <==> kept[i] && polls[k].now < polls[i].now + min
    {
    }
    assert kept[..k + 1][k] == kept[k];
  }

  lemma {:induction false} EmittedPrefix(start: nat, min: nat, polls: seq<Poll>, n: nat)
    requires n <= |polls|
    ensures Emitted(start, min, polls)[..n] == Emitted(start, min, polls[..n])
  {
    if n < |polls| {
      var front := polls[..|polls| - 1];
      EmittedPrefix(start, min, front, n);
      assert front[..n] == polls[..n];
      assert Emitted(start, min, polls)[..|front|] == Emitted(start, min, front);
    } else {
      assert polls[..n] == polls;
    }
  }

  /** All inner ticks are let through if and only if they are far enough apart themselves. */
  lemma NothingDropped(start: nat, min: nat, polls: seq<Poll>)
    requires ClockRuns(polls)
    ensures var ticks := seq(|polls|, i requires 0 <= i < |polls| => polls[i].inner.Some?);
      Emitted(start, min, polls) == ticks <==> Spaced(start, min, polls, ticks)
  {
    var ticks := seq(|polls|, i requires 0 <= i < |polls| => polls[i].inner.Some?);
    TicksAreSpaced(start, min, polls);
    if Spaced(start, min, polls, ticks) {
      forall k | 0 <= k < |polls| ensures Emitted(start, min, polls)[k] == ticks[k] {
        EmissionMeaning(start, min, polls, k);
        assert forall i :: 0 <= i < |polls| && Emitted(start, min, polls)[i] ==> ticks[i] by {
          assert forall i :: 0 <= i < |polls| && Emitted(start, min, polls)[i] ==> polls[i].inner.Some?;
        }
      }
    }
  }

  /** The instant from which a choice could go on. */
  function Free(start: nat, min: nat, polls: seq<Poll>, kept: seq<bool>): nat
    requires |kept| == |polls|
  {
    if polls == [] then start
    else if kept[|kept| - 1] then polls[|polls| - 1].now + min
    else Free(start, min, polls[..|polls| - 1], kept[..|kept| - 1])
  }

  lemma {:induction false} FreeMeaning(start: nat, min: nat, polls: seq<Poll>, kept: seq<bool>, now: nat)
    requires |kept| == |polls| && now >= start
    requires forall i :: 0 <= i < |polls| && kept[i] ==> now >= polls[i].now + min
    ensures Free(start, min, polls, kept) <= now
  {
    if polls != [] && !kept[|kept| - 1] {
      FreeMeaning(start, min, polls[..|polls| - 1], kept[..|kept| - 1], now);
    }
  }

  lemma CountMore(kept: seq<bool>)
    requires kept != []
    ensures Count(kept) == Count(kept[..|kept| - 1]) + if kept[|kept| - 1] then 1 else 0
  {
  }

  /** No choice of well spaced ticks gets ahead of the ones let through: the timer drops as few as it can. */
  lemma {:induction false} StaysAhead(start: nat, min: nat, polls: seq<Poll>, kept: seq<bool>)
    requires ClockRuns(polls) && |kept| == |polls| && Spaced(start, min, polls, kept)
    ensures Count(kept) <= Count(Emitted(start, min, polls))
    ensures Count(kept) == Count(Emitted(start, min, polls)) ==>
      NextTick(start, min, polls) <= Free(start, min, polls, kept)
    ensures polls != [] ==>
      NextTick(start, min, polls) <= start || NextTick(start, min, polls) <= polls[|polls| - 1].now + min
  {
    if polls != [] {
      var n := |polls| - 1;
      var front, chosen := polls[..n], kept[..n];
      assert ClockRuns(front) && Spaced(start, min, front, chosen);
      StaysAhead(start, min, front, chosen);
      assert Emitted(start, min, polls)[..n] == Emitted(start, min, front);
      CountMore(kept);
      CountMore(Emitted(start, min, polls));
      assert n > 0 ==> polls[n - 1].now <= polls[n].now;
      if kept[n] {
        FreeMeaning(start, min, front, chosen, polls[n].now);
      }
    }
  }

  /** The timer; it is ready, or it waits and `woken` tells whether it asked to be polled again. */
  class ThrottledInterval {
    const start: nat
    const minInterval: nat
    var nextTick: nat
    ghost var polls: seq<Poll>
    ghost var kept: seq<bool>

    constructor (period: nat, now: nat)
      ensures Valid() && polls == [] && start == now && minInterval == MinInterval(period)
      ensures 10 * minInterval <= 9 * period < 10 * (minInterval + 1)
    {
      start, minInterval, nextTick := now, MinInterval(period), now;
      polls, kept := [], [];
    }

    ghost predicate Valid()
      reads this
    {
      nextTick == NextTick(start, minInterval, polls) && kept == Emitted(start, minInterval, polls)
    }

    /** Only the inner timer's own tick is passed on; a tick that is held back asks for another poll. */
    method PollTick(poll: Poll) returns (ready: Option<nat>, woken: bool)
      requires Valid()
      modifies this
      ensures Valid() && polls == old(polls) + [poll] && kept == old(kept) + [ready.Some?]
      ensures ready.Some? ==> ready == poll.inner
      ensures woken <==> poll.inner.Some? && ready.None?
    {
      ready, woken := None, false;
      if poll.inner.Some? {
        if nextTick <= poll.now {
          nextTick := poll.now + minInterval;
          ready := poll.inner;
        } else {
          woken := true;
        }
      }
      assert (polls + [poll])[..|polls|] == polls;
      polls, kept := polls + [poll], kept + [ready.Some?];
    }
  }
}
