/**
 Punching a hole for UDP: empty packets are sent at growing intervals until an answer
 arrives or twenty seconds have passed.  Instants are in nanoseconds, intervals in milliseconds.
 */
module UdpPunch {
  import opened Prelude

  const MS: nat := 1_000_000
  const FIRST_INTERVAL: nat := 20
  const MAX_INTERVAL: nat := 200
  const MAX_TIME: nat := 20_000
  const ROUNDING: nat := 10

  // ----- The intervals -----

  function Longer(interval: nat): nat {
    Min(interval * 3 / 2, MAX_INTERVAL)
  }

  /** The interval in force after some retries. */
  function Backoff(retries: nat): nat {
    if retries == 0 then FIRST_INTERVAL else Longer(Backoff(retries - 1))
  }

  /** The time that some retries take at least. */
  function Waited(retries: nat): nat {
    if retries == 0 then 0 else Waited(retries - 1) + Backoff(retries - 1)
  }

  lemma FirstIntervals()
    ensures Backoff(1) == 30 && Backoff(2) == 45 && Backoff(3) == 67
    ensures Backoff(4) == 100 && Backoff(5) == 150 && Backoff(6) == 200
  {
    assert Backoff(1) == 30;
    assert Backoff(2) == 45;
    assert Backoff(3) == 67;
    assert Backoff(4) == 100;
    assert Backoff(5) == 150;
  }

  /** The interval never shrinks, and is at its cap exactly from the sixth retry on. */
  lemma {:induction false} BackoffGrows(retries: nat)
    ensures Backoff(retries) <= Backoff(retries + 1)
    ensures FIRST_INTERVAL <= Backoff(retries) <= MAX_INTERVAL
    ensures Backoff(retries) == MAX_INTERVAL <==> retries >= 6
  {
    if retries < 6 {
      FirstIntervals();
      assert Backoff(0) == 20;
    } else if retries == 6 {
      FirstIntervals();
    } else {
      BackoffGrows(retries - 1);
    }
  }

  lemma {:induction false} WaitedClosed(retries: nat)
    requires retries >= 6
    ensures Waited(retries) == 412 + 200 * (retries - 6)
  {
    if retries == 6 {
      FirstIntervals();
      assert Waited(3) == 95;
      assert Waited(6) == Waited(3) + 67 + 100 + 150;
    } else {
      WaitedClosed(retries - 1);
      BackoffGrows(retries - 1);
    }
  }

  // ----- The loop -----

  /**
   What wakes the loop: the end of a sleep, with the clock as read for the time-out, for the
   interval, and after sending; a packet; or an error of the socket.
   */
  datatype Event = Woken(checked: nat, measured: nat, sent: nat) | Received(n: nat) | Failed

  datatype Outcome = Going | Punched(data: Option<nat>) | TimedOut | SocketError

  /** The variables of the loop, its outcome, and as history the instants of all packets. */
  datatype Punch =
    Punch(interval: nat, packets: nat, lastSend: nat, started: nat, outcome: Outcome, sends: seq<nat>)

  function Start(firstSend: nat, started: nat): Punch {
    Punch(FIRST_INTERVAL, 1, firstSend, started, Going, [firstSend])
  }

  function Step(listen: bool, p: Punch, e: Event): Punch {
    if p.outcome != Going then p
    else match e
      case Woken(checked, measured, sent) =>
        if checked > p.started + MAX_TIME * MS then p.(outcome := TimedOut)
        else if measured >= p.lastSend + p.interval * MS then
          p.(packets := p.packets + 1, interval := Longer(p.interval), lastSend := sent, sends := p.sends + [sent])
        else p
      case Received(n) =>
        if listen && n == 0 then p else p.(outcome := Punched(if listen then Some(n) else None))
      case Failed => p.(outcome := SocketError)
  }

  function After(listen: bool, p: Punch, events: seq<Event>): Punch {
    if events == [] then p
    else Step(listen, After(listen, p, events[..|events| - 1]), events[|events| - 1])
  }

  /** The latest reading of the clock. */
  function Clock(started: nat, events: seq<Event>): nat {
    if events == [] then started
    else
      var last := events[|events| - 1];
      if last.Woken? then last.sent else Clock(started, events[..|events| - 1])
  }

  /**
   What can happen: the clock does not run backwards, and while the loop goes on it wakes only
   when the sleep begun at its latest turn has lasted its interval.
   */
  ghost predicate Possible(listen: bool, firstSend: nat, started: nat, events: seq<Event>) {
    if events == [] then firstSend <= started
    else
      var front, last := events[..|events| - 1], events[|events| - 1];
      var p := After(listen, Start(firstSend, started), front);
      && Possible(listen, firstSend, started, front)
      && (last.Woken? ==>
        && Clock(started, front) <= last.checked <= last.measured <= last.sent
        && (p.outcome == Going ==> Slept(p.interval, Clock(started, front), last.checked)))
  }

  /** The length of a sleep goes through a 32-bit floating-point number of seconds, which may take off nanoseconds. */
  predicate Slept(interval: nat, from: nat, to: nat) {
    to + ROUNDING >= from + MS * interval
  }

  /** What holds at every moment of a run that started with these readings of the clock. */
  ghost predicate Paced(firstSend: nat, started: nat, p: Punch, clock: nat) {
    && p.started == started && p.packets >= 1 && p.interval == Backoff(p.packets - 1)
    && p.lastSend <= clock && started <= clock
    && p.lastSend >= firstSend + MS * Waited(p.packets - 1)
    && clock + ROUNDING >= started + MS * Waited(p.packets - 1)
    && (p.packets > 1 ==> p.lastSend + ROUNDING >= started + MS * Waited(p.packets - 1))
  }

  lemma WaitedMore(packets: nat)
    requires packets >= 1
    ensures Waited(packets) == Waited(packets - 1) + Backoff(packets - 1)
    ensures Backoff(packets) == Longer(Backoff(packets - 1))
    ensures Waited(1) == FIRST_INTERVAL
  {
    assert Waited(1) == Waited(0) + Backoff(0);
  }

  lemma WakeKeepsPace(listen: bool, firstSend: nat, started: nat, p: Punch, clock: nat, e: Event)
    requires Paced(firstSend, started, p, clock) && e.Woken? && clock <= e.checked <= e.measured <= e.sent
    requires p.outcome == Going ==> Slept(p.interval, clock, e.checked)
    ensures Paced(firstSend, started, Step(listen, p, e), e.sent)
  {
    WaitedMore(p.packets);
  }

  /** In every run the latest packet comes after all intervals so far, also counted from the start of the loop. */
  lemma {:induction false} RunKeepsPace(listen: bool, firstSend: nat, started: nat, events: seq<Event>)
    requires Possible(listen, firstSend, started, events)
    ensures Paced(firstSend, started, After(listen, Start(firstSend, started), events), Clock(started, events))
  {
    if events != [] {
      var front, last := events[..|events| - 1], events[|events| - 1];
      var p, clock := After(listen, Start(firstSend, started), front), Clock(started, front);
      RunKeepsPace(listen, firstSend, started, front);
      if last.Woken? {
        WakeKeepsPace(listen, firstSend, started, p, clock, last);
      }
    }
  }

  /** Each packet comes at least its interval after the one before it. */
  predicate Spaced(sends: seq<nat>) {
    forall i: nat :: i + 1 < |sends| ==> Follows(sends, i)
  }

  predicate Follows(sends: seq<nat>, i: nat)
    requires i + 1 < |sends|
  {
    sends[i] + MS * Backoff(i) <= sends[i + 1]
  }

  lemma OneMoreSpaced(sends: seq<nat>, sent: nat)
    requires sends != [] && Spaced(sends) && sends[|sends| - 1] + MS * Backoff(|sends| - 1) <= sent
    ensures Spaced(sends + [sent])
  {
    forall i: nat | i + 1 < |sends + [sent]| ensures Follows(sends + [sent], i) {
      assert i + 1 < |sends| ==> Follows(sends, i);
    }
  }

  /** In every run, whatever the clock shows around them, the packets are their intervals apart. */
  lemma {:induction false} PacketsSpaced(listen: bool, firstSend: nat, started: nat, events: seq<Event>)
    requires Possible(listen, firstSend, started, events)
    ensures var p := After(listen, Start(firstSend, started), events);
      |p.sends| == p.packets > 0 && p.sends[|p.sends| - 1] == p.lastSend && Spaced(p.sends)
  {
    if events != [] {
      var front, last := events[..|events| - 1], events[|events| - 1];
      var p := After(listen, Start(firstSend, started), front);
      PacketsSpaced(listen, firstSend, started, front);
      RunKeepsPace(listen, firstSend, started, front);
      if last.Woken? && last.measured >= p.lastSend + MS * p.interval {
        OneMoreSpaced(p.sends, last.sent);
      }
    }
  }

  lemma {:induction false} WaitedGrows(a: nat, b: nat)
    requires a <= b
    ensures Waited(a) <= Waited(b)
  {
    if a < b {
      WaitedGrows(a, b - 1);
    }
  }

  lemma FewRetries(retries: nat, limit: nat)
    requires limit >= 6 && Waited(retries) < 412 + 200 * (limit - 5)
    ensures retries <= limit
  {
    if retries > limit {
      WaitedClosed(limit + 1);
      WaitedGrows(limit + 1, retries);
    }
  }

  /** A packet is sent only after a sleep that ended in time, so there were few before it. */
  lemma SentInTime(listen: bool, firstSend: nat, started: nat, p: Punch, clock: nat, e: Event)
    requires Paced(firstSend, started, p, clock) && p.packets <= 104
    requires e.Woken? && p.outcome == Going ==> Slept(p.interval, clock, e.checked)
    ensures Step(listen, p, e).packets <= 104
  {
    if Step(listen, p, e).packets > p.packets {
      WaitedMore(p.packets);
      assert MS * Waited(p.packets) <= MS * MAX_TIME + 2 * ROUNDING;
      FewRetries(p.packets, 103);
    }
  }

  /** At most 104 packets are sent in any run, wherever the loop is held up. */
  lemma {:induction false} PacketsBounded(listen: bool, firstSend: nat, started: nat, events: seq<Event>)
    requires Possible(listen, firstSend, started, events)
    ensures After(listen, Start(firstSend, started), events).packets <= 104
  {
    if events != [] {
      var front, last := events[..|events| - 1], events[|events| - 1];
      PacketsBounded(listen, firstSend, started, front);
      RunKeepsPace(listen, firstSend, started, front);
      var p := After(listen, Start(firstSend, started), front);
      SentInTime(listen, firstSend, started, p, Clock(started, front), last);
    }
  }

  // ----- How the loop ends -----

  /** What an event ends the loop with: the time-out, what was received, or an error. */
  function Ending(listen: bool, started: nat, e: Event): Option<Outcome> {
    match e
    case Woken(checked, _, _) => if checked - started > 20_000_000_000 then Some(TimedOut) else None
    case Received(n) => if !listen then Some(Punched(None)) else if n > 0 then Some(Punched(Some(n))) else None
    case Failed => Some(SocketError)
  }

  /** Nothing among the first events ends the loop. */
  predicate GoesOn(listen: bool, started: nat, events: seq<Event>) {
    forall i :: 0 <= i < |events| ==> Ending(listen, started, events[i]) == None
  }

  lemma StepEnds(listen: bool, p: Punch, e: Event)
    requires p.outcome == Going
    ensures var q, ending := Step(listen, p, e), Ending(listen, p.started, e);
      && q.started == p.started
      && (ending.Some? ==> q == p.(outcome := ending.value))
      && (ending.None? ==> q.outcome == Going)
  {
  }

  lemma {:induction false} GoesOnMeaning(listen: bool, firstSend: nat, started: nat, events: seq<Event>)
    requires GoesOn(listen, started, events)
    ensures var p := After(listen, Start(firstSend, started), events); p.outcome == Going && p.started == started
  {
    if events != [] {
      var n := |events| - 1;
      GoesOnMeaning(listen, firstSend, started, events[..n]);
      StepEnds(listen, After(listen, Start(firstSend, started), events[..n]), events[n]);
    }
  }

  /** The loop ends exactly with its first event that ends it, in the way of that event; after it nothing is sent. */
  lemma OutcomeMeaning(listen: bool, firstSend: nat, started: nat, events: seq<Event>, k: nat)
    requires k <= |events| && GoesOn(listen, started, events[..k])
    requires k < |events| ==> Ending(listen, started, events[k]).Some?
    ensures var p := After(listen, Start(firstSend, started), events);
      && p.outcome == (if k < |events| then Ending(listen, started, events[k]).value else Going)
      && p.sends == After(listen, Start(firstSend, started), events[..k]).sends
  {
    var start := Start(firstSend, started);
    GoesOnMeaning(listen, firstSend, started, events[..k]);
    if k < |events| {
      StepEnds(listen, After(listen, start, events[..k]), events[k]);
      assert events[..k + 1][..k] == events[..k];
      EndsThere(listen, start, events, k + 1);
    } else {
      assert events[..k] == events;
    }
  }

  lemma {:induction false} SendsCounted(listen: bool, firstSend: nat, started: nat, events: seq<Event>)
    ensures var p := After(listen, Start(firstSend, started), events);
      && p.started == started && |p.sends| == p.packets > 0
      && p.interval == Backoff(p.packets - 1) && p.lastSend == p.sends[|p.sends| - 1]
  {
    if events != [] {
      SendsCounted(listen, firstSend, started, events[..|events| - 1]);
    }
  }

  /** While the loop goes on and in time, a packet is sent on waking exactly if the latest one is its interval old. */
  lemma SentWhenDue(listen: bool, firstSend: nat, started: nat, events: seq<Event>, e: Event)
    requires GoesOn(listen, started, events + [e]) && e.Woken?
    ensures var sends := After(listen, Start(firstSend, started), events).sends;
      sends != [] && After(listen, Start(firstSend, started), events + [e]).sends ==
      sends + if e.measured - sends[|sends| - 1] >= 1_000_000 * Backoff(|sends| - 1) then [e.sent] else []
  {
    assert (events + [e])[..|events|] == events && (events + [e])[|events|] == e;
    assert forall i :: 0 <= i < |events| ==> events[i] == (events + [e])[i];
    SendsCounted(listen, firstSend, started, events);
    GoesOnMeaning(listen, firstSend, started, events);
    assert Ending(listen, started, e) == None;
  }

  // ----- The bound is reached -----

  /** Sleeps that end just when the next packet is due. */
  function Eager(retries: nat): (events: seq<Event>)
    ensures |events| == retries
  {
    if retries == 0 then [] else Eager(retries - 1) + [Due(retries)]
  }

  function Due(retries: nat): Event {
    var t := MS * Waited(retries);
    Woken(t, t, t)
  }

  /** The state after some such sleeps. */
  function DuePunch(retries: nat): Punch {
    Punch(Backoff(retries), retries + 1, MS * Waited(retries), 0, Going, DueSends(retries))
  }

  function DueSends(retries: nat): seq<nat> {
    if retries == 0 then [0] else DueSends(retries - 1) + [MS * Waited(retries)]
  }

  lemma DueStep(listen: bool, retries: nat)
    requires retries > 0 && Waited(retries) <= MAX_TIME
    ensures Step(listen, DuePunch(retries - 1), Due(retries)) == DuePunch(retries)
    ensures Slept(Backoff(retries - 1), MS * Waited(retries - 1), MS * Waited(retries))
  {
    WaitedMore(retries);
  }

  lemma {:induction false} EagerRun(listen: bool, retries: nat)
    requires Waited(retries) <= MAX_TIME
    ensures Possible(listen, 0, 0, Eager(retries)) && Clock(0, Eager(retries)) == MS * Waited(retries)
    ensures After(listen, Start(0, 0), Eager(retries)) == DuePunch(retries)
  {
    if retries > 0 {
      WaitedGrows(retries - 1, retries);
      EagerRun(listen, retries - 1);
      DueStep(listen, retries);
      assert Eager(retries)[..retries - 1] == Eager(retries - 1);
    }
  }

  /** A run whose sleeps last exactly their intervals sends 104 packets. */
  lemma BoundReached(listen: bool)
    ensures Possible(listen, 0, 0, Eager(103))
    ensures After(listen, Start(0, 0), Eager(103)).packets == 104
  {
    WaitedClosed(103);
    EagerRun(listen, 103);
  }

  /** Runs the loop on the events that come. */
  method PunchUdp(listen: bool, firstSend: nat, started: nat, events: seq<Event>)
    returns (outcome: Outcome, packets: nat)
    ensures var p := After(listen, Start(firstSend, started), events);
      outcome == p.outcome && packets == p.packets
    ensures Possible(listen, firstSend, started, events) ==> packets <= 104
  {
    var interval, lastSend := FIRST_INTERVAL, firstSend;
    ghost var sends := [firstSend];
    packets, outcome := 1, Going;
    var i := 0;
    while i < |events|
      invariant 0 <= i <= |events|
      invariant After(listen, Start(firstSend, started), events[..i])
        == Punch(interval, packets, lastSend, started, outcome, sends)
      invariant outcome == Going
    {
      var e := events[i];
      assert events[..i + 1][..i] == events[..i];
      match e {
        case Woken(checked, measured, sent) =>
          if checked > started + MAX_TIME * MS {
            outcome := TimedOut;
          } else if measured >= lastSend + interval * MS {
            packets := packets + 1;
            interval := Longer(interval);
            lastSend := sent;
            sends := sends + [sent];
          }
        case Received(n) =>
          if !listen {
            outcome := Punched(None);
          } else if n > 0 {
            outcome := Punched(Some(n));
          }
        case Failed =>
          outcome := SocketError;
      }
      i := i + 1;
      if outcome != Going {
        break;
      }
    }
    EndsThere(listen, Start(firstSend, started), events, i);
    if Possible(listen, firstSend, started, events) {
      PacketsBounded(listen, firstSend, started, events);
    }
  }

  /** After its end a run changes no more. */
  lemma {:induction false} EndsThere(listen: bool, p: Punch, events: seq<Event>, n: nat)
    requires n <= |events| && (n < |events| ==> After(listen, p, events[..n]).outcome != Going)
    ensures After(listen, p, events) == After(listen, p, events[..n])
  {
    if n < |events| {
      assert events[..|events| - 1][..n] == events[..n];
      EndsThere(listen, p, events[..|events| - 1], n);
    } else {
      assert events[..n] == events;
    }
  }
}
