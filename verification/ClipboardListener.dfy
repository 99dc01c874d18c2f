/**
 The registry of those who want to hear of clipboard changes.  One listener thread serves
 them all; it is started for the first subscriber and stopped after the last.
 */
module ClipboardListener {
  import opened Prelude

  datatype Message = Next | Stop | StopWithError

  /** The sending ends of the subscribers, whether a handle is stored, and whether its thread still runs. */
  datatype Registry = Registry(subscribers: map<string, nat>, handle: bool, alive: bool)

  const EMPTY := Registry(map[], false, false)

  /**
   `starts` says whether the system lets a listener be made.  A thread may end by itself when
   listening fails; its handle stays.
   */
  datatype Event =
    | Subscribe(name: string, sender: nat, starts: bool) | Unsubscribe(name: string) | Ended | Changed | Errored

  function Step(r: Registry, e: Event): Registry {
    match e
    case Subscribe(name, sender, starts) =>
      Registry(r.subscribers[name := sender], r.handle || starts, if r.handle then r.alive else starts)
    case Unsubscribe(name) =>
      var left := r.subscribers - {name};
      Registry(left, r.handle && left != map[], r.alive && left != map[])
    case Ended => r.(alive := false)
    case _ => r
  }

  /** A subscription that found no listener and could not start one. */
  predicate Fails(r: Registry, e: Event) {
    e.Subscribe? && !r.handle && !e.starts
  }

  /** A message and the sending end that it goes through. */
  datatype Delivery = Delivery(sender: nat, message: Message)

  /** The messages that an event sends, by subscriber. */
  function Sent(r: Registry, e: Event): map<string, Delivery> {
    match e
    case Unsubscribe(name) =>
      if name in r.subscribers then map[name := Delivery(r.subscribers[name], Stop)] else map[]
    case Changed => if r.alive then map n | n in r.subscribers :: Delivery(r.subscribers[n], Next) else map[]
    case Errored => if r.alive then map n | n in r.subscribers :: Delivery(r.subscribers[n], StopWithError) else map[]
    case _ => map[]
  }

  function AfterFrom(r: Registry, events: seq<Event>): Registry {
    if events == [] then r else Step(AfterFrom(r, events[..|events| - 1]), events[|events| - 1])
  }

  function After(events: seq<Event>): Registry {
    AfterFrom(EMPTY, events)
  }

  /** There is a handle exactly while there is somebody to serve. */
  predicate InStep(r: Registry) {
    r.handle <==> r.subscribers != map[]
  }

  /** There is a running thread exactly while there is somebody to serve. */
  predicate Served(r: Registry) {
    r.alive <==> r.subscribers != map[]
  }

  predicate AlwaysInStep(events: seq<Event>) {
    InStep(After(events)) && (events != [] ==> AlwaysInStep(events[..|events| - 1]))
  }

  predicate AlwaysServed(events: seq<Event>) {
    Served(After(events)) && (events != [] ==> AlwaysServed(events[..|events| - 1]))
  }

  predicate NeverFails(events: seq<Event>) {
    events != [] ==>
      !Fails(After(events[..|events| - 1]), events[|events| - 1]) && NeverFails(events[..|events| - 1])
  }

  predicate NeverEnds(events: seq<Event>) {
    events != [] ==>
      (events[|events| - 1].Ended? ==> !After(events[..|events| - 1]).alive) && NeverEnds(events[..|events| - 1])
  }

  /** The thread never outlives its handle, nor the handle the subscribers. */
  lemma {:induction false} NoIdleListener(events: seq<Event>)
    ensures After(events).alive ==> After(events).handle
    ensures After(events).handle ==> After(events).subscribers != map[]
  {
    if events != [] {
      NoIdleListener(events[..|events| - 1]);
      var e := events[|events| - 1];
      if e.Subscribe? {
        assert e.name in After(events).subscribers;
      }
    }
  }

  lemma StepInStep(r: Registry, e: Event)
    requires InStep(r)
    ensures InStep(Step(r, e)) <==> !Fails(r, e)
  {
    if e.Subscribe? {
      assert e.name in Step(r, e).subscribers;
    }
    if e.Unsubscribe? && r.subscribers == map[] {
      assert r.subscribers - {e.name} == map[];
    }
  }

  lemma StepServed(r: Registry, e: Event)
    requires Served(r) && (r.alive ==> r.handle) && (r.handle ==> r.subscribers != map[])
    ensures Served(Step(r, e)) <==> !Fails(r, e) && (e.Ended? ==> !r.alive)
  {
    if e.Subscribe? {
      assert e.name in Step(r, e).subscribers;
    }
    if e.Unsubscribe? && r.subscribers == map[] {
      assert r.subscribers - {e.name} == map[];
    }
  }

  /**
   At every moment of a run there is a handle exactly while there are subscribers, if and only
   if no subscription failed: a failed one stays registered without being served.
   */
  lemma {:induction false} AlwaysInStepMeaning(events: seq<Event>)
    ensures AlwaysInStep(events) <==> NeverFails(events)
  {
    if events != [] {
      var front := events[..|events| - 1];
      AlwaysInStepMeaning(front);
      if AlwaysInStep(front) {
        assert InStep(After(front));
        StepInStep(After(front), events[|events| - 1]);
      }
    }
  }

  /** Everybody is served at every moment if and only if, besides, the thread never ended by itself. */
  lemma {:induction false} AlwaysServedMeaning(events: seq<Event>)
    ensures AlwaysServed(events) <==> NeverFails(events) && NeverEnds(events)
  {
    if events != [] {
      var front := events[..|events| - 1];
      AlwaysServedMeaning(front);
      NoIdleListener(front);
      if AlwaysServed(front) {
        assert Served(After(front));
        StepServed(After(front), events[|events| - 1]);
      }
    }
  }

  /** Somebody is registered throughout. */
  predicate NeverEmpty(r: Registry, events: seq<Event>) {
    AfterFrom(r, events).subscribers != map[] && (events != [] ==> NeverEmpty(r, events[..|events| - 1]))
  }

  /** A thread that ended by itself is not replaced before the registry has been empty: nobody hears of anything. */
  lemma {:induction false} EndedIsNotReplaced(r: Registry, events: seq<Event>)
    requires r.handle && !r.alive && NeverEmpty(r, events)
    ensures AfterFrom(r, events).handle && !AfterFrom(r, events).alive
    ensures Sent(AfterFrom(r, events), Changed) == map[] && Sent(AfterFrom(r, events), Errored) == map[]
  {
    if events != [] {
      EndedIsNotReplaced(r, events[..|events| - 1]);
    }
  }

  /** The latest event of a name decides whether it is registered, whatever happened to the others. */
  predicate LastSubscribed(events: seq<Event>, name: string) {
    events != [] &&
    var last := events[|events| - 1];
    if last.Subscribe? && last.name == name then true
    else if last.Unsubscribe? && last.name == name then false
    else LastSubscribed(events[..|events| - 1], name)
  }

  /** The sending end that came with the latest subscription of a name. */
  function LastSender(events: seq<Event>, name: string): nat
    requires LastSubscribed(events, name)
  {
    var last := events[|events| - 1];
    if last.Subscribe? && last.name == name then last.sender else LastSender(events[..|events| - 1], name)
  }

  lemma {:induction false} RegisteredMeaning(events: seq<Event>, name: string)
    ensures name in After(events).subscribers <==> LastSubscribed(events, name)
    ensures LastSubscribed(events, name) ==> After(events).subscribers[name] == LastSender(events, name)
  {
    if events != [] {
      RegisteredMeaning(events[..|events| - 1], name);
    }
  }

  /** The message for a name that an event sends, if it sends one. */
  function SentTo(events: seq<Event>, e: Event, name: string): Option<Delivery> {
    var sent := Sent(After(events), e);
    if name in sent then Some(sent[name]) else None
  }

  /**
   When nothing failed or ended by itself, a change or an error reaches exactly those whose
   latest event is a subscription, through the sending end of that; leaving is confirmed to
   the one who leaves, in any run.
   */
  lemma ChangeReaches(events: seq<Event>, name: string, other: string)
    ensures var to := if LastSubscribed(events, name) then Some(LastSender(events, name)) else None;
      && (NeverFails(events) && NeverEnds(events) ==>
        && SentTo(events, Changed, name) == (if to.Some? then Some(Delivery(to.value, Next)) else None)
        && SentTo(events, Errored, name) == (if to.Some? then Some(Delivery(to.value, StopWithError)) else None))
      && SentTo(events, Unsubscribe(other), name) ==
         (if to.Some? && name == other then Some(Delivery(to.value, Stop)) else None)
  {
    AlwaysServedMeaning(events);
    assert AlwaysServed(events) ==> Served(After(events));
    RegisteredMeaning(events, name);
  }

  /** One more subscription that starts a listener serves those, too, whose own had failed. */
  lemma NextSubscriptionRepairs(events: seq<Event>, name: string, sender: nat, other: string)
    requires other in After(events).subscribers && !After(events).handle
    ensures Served(Step(After(events), Subscribe(name, sender, true)))
    ensures other in Sent(Step(After(events), Subscribe(name, sender, true)), Changed)
  {
    assert name in Step(After(events), Subscribe(name, sender, true)).subscribers;
  }

  class Listener {
    var subscribers: map<string, nat>
    var handle: Option<nat>
    ghost var alive: bool

    constructor ()
      ensures State() == EMPTY
    {
      subscribers, handle, alive := map[], None, false;
    }

    ghost function State(): Registry
      reads this
    {
      Registry(subscribers, handle.Some?, alive)
    }

    /** `thread` is the new listener thread, if one could be started. */
    method SubscribeTo(name: string, sender: nat, thread: Option<nat>) returns (ok: bool)
      modifies this
      ensures State() == Step(old(State()), Subscribe(name, sender, thread.Some?))
      ensures ok <==> !Fails(old(State()), Subscribe(name, sender, thread.Some?))
      ensures old(handle).Some? ==> handle == old(handle)
    {
      subscribers := subscribers[name := sender];
      if handle.None? {
        alive := thread.Some?;
        if thread.None? {
          return false;
        }
        handle := thread;
      }
      return true;
    }

    /** The results are the sending end that is told to stop, and the thread that was stopped. */
    method UnsubscribeFrom(name: string) returns (told: Option<nat>, stopped: Option<nat>)
      modifies this
      ensures State() == Step(old(State()), Unsubscribe(name))
      ensures told.Some? <==> name in Sent(old(State()), Unsubscribe(name))
      ensures told.Some? ==> Sent(old(State()), Unsubscribe(name))[name] == Delivery(told.value, Stop)
      ensures stopped == if subscribers == map[] then old(handle) else None
    {
      told, stopped := if name in subscribers then Some(subscribers[name]) else None, None;
      subscribers := subscribers - {name};
      if subscribers == map[] {
        stopped, handle := handle, None;
        alive := false;
      }
    }
  }
}
