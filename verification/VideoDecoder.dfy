/**
 The decoder of a display, its count of failures, and the list of formats that the
 session declares unsupported because of them.
 */
module VideoDecoder {
  import opened Prelude

  datatype Codec = VP8 | VP9 | AV1 | H264 | H265 | Unknown

  /** A frame without a payload, or one with the outcome that decoding it has. */
  datatype Frame = Blank | Encoded(codec: Codec, ok: bool)

  const MAX_DECODE_FAIL_COUNTER := 3
  const USIZE_MAX := 0xFFFF_FFFF_FFFF_FFFF

  function FormatOf(f: Frame): Codec {
    if f.Blank? then Unknown else f.codec
  }

  /** A decoder and what happened to it since it was made. */
  datatype Video = Video(format: Codec, valid: bool, failCounter: nat, firstFrame: bool)

  /** A decoder for a format; `opens` says whether the library can make one. */
  function NewVideo(format: Codec, opens: bool): Video {
    Video(format, opens && format != Unknown, 0, true)
  }

  /** A frame of another format replaces the decoder first. */
  function ForFormat(v: Video, format: Codec, opens: bool): Video {
    if format != v.format then NewVideo(format, opens) else v
  }

  function Decoded(v: Video, ok: bool): Video {
    v.(firstFrame := false,
       failCounter :=
         if ok then 0
         else if v.failCounter >= USIZE_MAX then v.failCounter
         else if v.firstFrame && v.failCounter < MAX_DECODE_FAIL_COUNTER then MAX_DECODE_FAIL_COUNTER
         else v.failCounter + 1)
  }

  function HandleFrame(v: Video, f: Frame, opens: bool): Video {
    var w := ForFormat(v, FormatOf(f), opens);
    if f.Blank? then w else Decoded(w, f.ok)
  }

  // ----- What the failure counter counts -----

  datatype Event = FrameIn(frame: Frame, opens: bool) | ResetIn(opens: bool)

  function VideoStep(v: Video, e: Event): Video {
    match e
    case FrameIn(f, opens) => HandleFrame(v, f, opens)
    case ResetIn(opens) => NewVideo(v.format, opens)
  }

  function VideoAfter(v: Video, events: seq<Event>): Video {
    if events == [] then v
    else VideoStep(VideoAfter(v, events[..|events| - 1]), events[|events| - 1])
  }

  /** The format after an event: that of its frame, or the old one. */
  function NextFormat(format: Codec, e: Event): Codec {
    match e
    case FrameIn(Encoded(codec, _), _) => codec
    case FrameIn(Blank, _) => Unknown
    case ResetIn(_) => format
  }

  /** The format of the latest frame. */
  function LatestFormat(start: Codec, events: seq<Event>): Codec {
    if events == [] then start else NextFormat(LatestFormat(start, events[..|events| - 1]), events[|events| - 1])
  }

  /** The outcomes after an event: none before a reset or a change of format count any more. */
  function NextOutcomes(format: Codec, outcomes: seq<bool>, e: Event): seq<bool> {
    if e.ResetIn? then []
    else (if NextFormat(format, e) == format then outcomes else []) + if e.frame.Blank? then [] else [e.frame.ok]
  }

  /** The outcomes of decoding since the last reset or change of format. */
  function Outcomes(start: Codec, events: seq<Event>): seq<bool> {
    if events == [] then []
    else
      var front := events[..|events| - 1];
      NextOutcomes(LatestFormat(start, front), Outcomes(start, front), events[|events| - 1])
  }

  /** The length of the run of failures at the end. */
  function FailureRun(outcomes: seq<bool>): (n: nat)
    ensures n <= |outcomes|
    ensures forall i :: |outcomes| - n <= i < |outcomes| ==> !outcomes[i]
    ensures n < |outcomes| ==> outcomes[|outcomes| - n - 1]
  {
    if outcomes == [] || outcomes[|outcomes| - 1] then 0
    else 1 + FailureRun(outcomes[..|outcomes| - 1])
  }

  /** The failures at the end, with two more if they go back to the first frame. */
  function Weighed(outcomes: seq<bool>): nat {
    var n := FailureRun(outcomes);
    if 0 < n == |outcomes| then n + 2 else n
  }

  lemma CounterStep(outcomes: seq<bool>, v: Video, ok: bool)
    requires v.failCounter == Min(USIZE_MAX, Weighed(outcomes)) && (v.firstFrame <==> outcomes == [])
    ensures Decoded(v, ok).failCounter == Min(USIZE_MAX, Weighed(outcomes + [ok]))
  {
    var more := outcomes + [ok];
    assert more[..|more| - 1] == outcomes;
  }

  /** A decoder of this format that has counted these outcomes. */
  predicate Counts(v: Video, format: Codec, outcomes: seq<bool>) {
    v.format == format && v.failCounter == Min(USIZE_MAX, Weighed(outcomes)) && (v.firstFrame <==> outcomes == [])
  }

  lemma StepCounts(v: Video, format: Codec, outcomes: seq<bool>, e: Event)
    requires Counts(v, format, outcomes)
    ensures Counts(VideoStep(v, e), NextFormat(format, e), NextOutcomes(format, outcomes, e))
  {
    if e.FrameIn? {
      var before := if NextFormat(format, e) == format then outcomes else [];
      if e.frame.Encoded? {
        CounterStep(before, ForFormat(v, FormatOf(e.frame), e.opens), e.frame.ok);
      } else {
        assert NextOutcomes(format, outcomes, e) == before;
      }
    }
  }

  /** After any history the counter is the weighed run of failures since the last reset, as far as it can count. */
  lemma {:induction false} CounterMeaning(format: Codec, opens: bool, events: seq<Event>)
    ensures Counts(VideoAfter(NewVideo(format, opens), events), LatestFormat(format, events), Outcomes(format, events))
  {
    if events != [] {
      var front, last := events[..|events| - 1], events[|events| - 1];
      CounterMeaning(format, opens, front);
      var v := VideoAfter(NewVideo(format, opens), front);
      StepCounts(v, LatestFormat(format, front), Outcomes(format, front), last);
    }
  }

  /** Whether the library could make the decoder in use: asked at the latest reset or change of format. */
  function LatestOpens(start: Codec, opens: bool, events: seq<Event>): bool {
    if events == [] then opens
    else
      var front, last := events[..|events| - 1], events[|events| - 1];
      var before := LatestFormat(start, front);
      if last.FrameIn? && NextFormat(before, last) == before then LatestOpens(start, opens, front) else last.opens
  }

  lemma ValidStep(v: Video, e: Event)
    ensures var format := NextFormat(v.format, e);
      && VideoStep(v, e).format == format
      && VideoStep(v, e).valid == if e.FrameIn? && format == v.format then v.valid else e.opens && format != Unknown
  {
  }

  /** A decoder works exactly if the library could make it and its format is known. */
  lemma {:induction false} ValidMeaning(format: Codec, opens: bool, events: seq<Event>)
    ensures VideoAfter(NewVideo(format, opens), events).valid <==>
      LatestOpens(format, opens, events) && LatestFormat(format, events) != Unknown
  {
    if events != [] {
      var front, last := events[..|events| - 1], events[|events| - 1];
      ValidMeaning(format, opens, front);
      CounterMeaning(format, opens, front);
      ValidStep(VideoAfter(NewVideo(format, opens), front), last);
    }
  }

  /** A decoder is given up when nothing it got could be decoded, or the latest three frames could not. */
  predicate GivenUp(outcomes: seq<bool>) {
    || (outcomes != [] && forall i :: 0 <= i < |outcomes| ==> !outcomes[i])
    || (|outcomes| >= 3 && forall i :: |outcomes| - 3 <= i < |outcomes| ==> !outcomes[i])
  }

  predicate Condemned(v: Video) {
    !v.valid || v.failCounter >= MAX_DECODE_FAIL_COUNTER
  }

  /** Exactly these decoders are condemned, beside those that could not be made and those of no format. */
  lemma CondemnedMeaning(format: Codec, opens: bool, events: seq<Event>)
    ensures var v := VideoAfter(NewVideo(format, opens), events);
      Condemned(v) <==>
        || !LatestOpens(format, opens, events) || LatestFormat(format, events) == Unknown
        || GivenUp(Outcomes(format, events))
  {
    CounterMeaning(format, opens, events);
    ValidMeaning(format, opens, events);
    GivenUpMeaning(Outcomes(format, events));
  }

  lemma GivenUpMeaning(outcomes: seq<bool>)
    ensures GivenUp(outcomes) <==> Weighed(outcomes) >= 3
  {
    var n := FailureRun(outcomes);
    if n < |outcomes| {
      assert outcomes[|outcomes| - n - 1];
      assert GivenUp(outcomes) <==> n >= 3;
    }
  }

  // ----- The list of unsupported formats -----

  predicate NoDuplicates(marked: seq<Codec>) {
    forall i, j :: 0 <= i < j < |marked| ==> marked[i] != marked[j]
  }

  /** The list after a look at a decoder, and whether it grew. */
  function Judge(v: Video, marked: seq<Codec>): (r: (seq<Codec>, bool))
    ensures marked <= r.0 && |r.0| == |marked| + (if r.1 then 1 else 0)
    ensures NoDuplicates(marked) ==> NoDuplicates(r.0)
    ensures forall c :: c in r.0 <==> c in marked || (Condemned(v) && c == v.format)
  {
    if Condemned(v) && v.format !in marked then (marked + [v.format], true) else (marked, false)
  }

  /**
   The threads of a session, one for each display, with the list they share.  A thread that
   made the list grow is in `pending` until it has sent the list on; `updates` are the lists sent.
   */
  datatype Session = Session(videos: map<nat, Video>, marked: seq<Codec>, pending: set<nat>, updates: seq<seq<Codec>>)

  datatype Action =
    | ShowFrame(thread: nat, frame: Frame, opens: bool)
    | ResetThread(thread: nat, opens: bool)
    | SendUpdate(thread: nat)

  function VideoFor(s: Session, a: Action): Video
    requires a.ShowFrame?
  {
    var v := if a.thread in s.videos then s.videos[a.thread] else NewVideo(FormatOf(a.frame), a.opens);
    HandleFrame(v, a.frame, a.opens)
  }

  /** A thread does one thing at a time: what it cannot do yet does not happen. */
  predicate Enabled(s: Session, a: Action) {
    if a.SendUpdate? then a.thread in s.pending else a.thread !in s.pending
  }

  function Act(s: Session, a: Action): Session {
    if !Enabled(s, a) then s
    else match a
      case ShowFrame(t, _, _) =>
        var v := VideoFor(s, a);
        var (marked, grew) := Judge(v, s.marked);
        s.(videos := s.videos[t := v], marked := marked, pending := if grew then s.pending + {t} else s.pending)
      case ResetThread(t, opens) =>
        if t in s.videos then s.(videos := s.videos[t := NewVideo(s.videos[t].format, opens)]) else s
      case SendUpdate(t) => s.(pending := s.pending - {t}, updates := s.updates + [s.marked])
  }

  function Run(s: Session, actions: seq<Action>): Session {
    if actions == [] then s
    else Act(Run(s, actions[..|actions| - 1]), actions[|actions| - 1])
  }

  /** The formats whose decoder was found condemned after some frame. */
  function CondemnedIn(s: Session, actions: seq<Action>): set<Codec> {
    if actions == [] then {}
    else
      var front, last := actions[..|actions| - 1], actions[|actions| - 1];
      var t := Run(s, front);
      CondemnedIn(s, front) +
      if last.ShowFrame? && Enabled(t, last) && Condemned(VideoFor(t, last)) then {VideoFor(t, last).format} else {}
  }

  /** What holds of a session started with this list. */
  predicate Kept(start: seq<Codec>, s: Session) {
    && start <= s.marked && (NoDuplicates(start) ==> NoDuplicates(s.marked))
    && |s.marked| == |start| + |s.updates| + |s.pending|
    && (forall u :: u in s.updates ==> start < u <= s.marked)
    && (forall i, j :: 0 <= i < j < |s.updates| ==> s.updates[i] <= s.updates[j])
    && (s.pending != {} || s.marked == if s.updates == [] then start else s.updates[|s.updates| - 1])
  }

  lemma FrameKeeps(start: seq<Codec>, s: Session, a: Action)
    requires Kept(start, s) && a.ShowFrame? && Enabled(s, a)
    ensures Kept(start, Act(s, a))
  {
  }

  lemma SendKeeps(start: seq<Codec>, s: Session, a: Action)
    requires Kept(start, s) && a.SendUpdate? && Enabled(s, a)
    ensures Kept(start, Act(s, a))
  {
    assert |s.pending - {a.thread}| == |s.pending| - 1;
    var t := Act(s, a);
    assert |s.marked| > |start|;
    forall i, j | 0 <= i < j < |t.updates| ensures t.updates[i] <= t.updates[j] {
      assert t.updates[i] in s.updates;
    }
  }

  /**
   In every interleaving of the threads the list holds no format twice, each growth of it
   is answered by exactly one update, the updates only grow, and once none is pending the last
   one carried the whole list.
   */
  lemma {:induction false} RunKeeps(start: seq<Codec>, actions: seq<Action>)
    ensures Kept(start, Run(Session(map[], start, {}, []), actions))
  {
    if actions != [] {
      var front, last := actions[..|actions| - 1], actions[|actions| - 1];
      RunKeeps(start, front);
      var s := Run(Session(map[], start, {}, []), front);
      if Enabled(s, last) {
        match last
        case ShowFrame(_, _, _) => FrameKeeps(start, s, last);
        case ResetThread(_, _) =>
        case SendUpdate(_) => SendKeeps(start, s, last);
      }
    }
  }

  /** A format is on the list exactly if it was at the start or a frame left its decoder condemned. */
  lemma {:induction false} MarkedMeaning(s: Session, actions: seq<Action>)
    ensures forall c :: c in Run(s, actions).marked <==> c in s.marked || c in CondemnedIn(s, actions)
  {
    if actions != [] {
      MarkedMeaning(s, actions[..|actions| - 1]);
    }
  }

  lemma {:induction false} UnknownNeverValid(start: seq<Codec>, actions: seq<Action>, thread: nat)
    ensures var videos := Run(Session(map[], start, {}, []), actions).videos;
      thread in videos && videos[thread].format == Unknown ==> !videos[thread].valid
  {
    if actions != [] {
      UnknownNeverValid(start, actions[..|actions| - 1], thread);
    }
  }

  /** After any run, a frame without a payload that a thread takes puts the unknown format on the list. */
  lemma BlankMarksUnknown(start: seq<Codec>, actions: seq<Action>, thread: nat, opens: bool)
    requires var s := Run(Session(map[], start, {}, []), actions); Enabled(s, ShowFrame(thread, Blank, opens))
    ensures Unknown in Run(Session(map[], start, {}, []), actions + [ShowFrame(thread, Blank, opens)]).marked
  {
    UnknownNeverValid(start, actions, thread);
    assert (actions + [ShowFrame(thread, Blank, opens)])[..|actions|] == actions;
  }

  /** The frames and resets of one thread, as its decoder saw them after it was made. */
  function EventsOf(s: Session, actions: seq<Action>, thread: nat): seq<Event> {
    if actions == [] then []
    else
      var front, last := actions[..|actions| - 1], actions[|actions| - 1];
      EventsOf(s, front, thread) +
      if !Enabled(Run(s, front), last) || last.thread != thread then []
      else match last
        case ShowFrame(_, frame, opens) => [FrameIn(frame, opens)]
        case ResetThread(_, opens) => if thread in Run(s, front).videos then [ResetIn(opens)] else []
        case SendUpdate(_) => []
  }

  lemma VideoAfterMore(v: Video, events: seq<Event>, e: Event)
    ensures VideoAfter(v, events + [e]) == VideoStep(VideoAfter(v, events), e)
  {
    assert (events + [e])[..|events|] == events;
  }

  /** The decoder of a thread is what its own frames and resets make of it, whatever the other threads do. */
  lemma {:induction false} ThreadsAreIndependent(start: seq<Codec>, actions: seq<Action>, thread: nat)
    ensures var s, events := Session(map[], start, {}, []), EventsOf(Session(map[], start, {}, []), actions, thread);
      && (thread in Run(s, actions).videos <==> events != [])
      && (events != [] ==>
        && events[0].FrameIn?
        && Run(s, actions).videos[thread] ==
           VideoAfter(NewVideo(FormatOf(events[0].frame), events[0].opens), events))
  {
    if actions != [] {
      var s := Session(map[], start, {}, []);
      var front, last := actions[..|actions| - 1], actions[|actions| - 1];
      ThreadsAreIndependent(start, front, thread);
      var before, after := EventsOf(s, front, thread), EventsOf(s, actions, thread);
      if before != after {
        var e := after[|after| - 1];
        assert after == before + [e];
        var first := if before != [] then before[0] else e;
        VideoAfterMore(NewVideo(FormatOf(first.frame), first.opens), before, e);
      }
    }
  }

  // ----- The objects of the program -----

  class VideoHandler {
    var format: Codec
    var valid: bool
    var failCounter: nat
    var firstFrame: bool

    constructor (format: Codec, opens: bool)
      ensures State() == NewVideo(format, opens)
    {
      this.format, valid, failCounter, firstFrame := format, opens && format != Unknown, 0, true;
    }

    function State(): Video
      reads this
    {
      Video(format, valid, failCounter, firstFrame)
    }

    /** Makes the decoder anew, for another format if one is given. */
    method Reset(newFormat: Option<Codec>, opens: bool)
      modifies this
      ensures State() == NewVideo(if newFormat.Some? then newFormat.value else old(format), opens)
    {
      if newFormat.Some? {
        format := newFormat.value;
      }
      valid := opens && format != Unknown;
      failCounter := 0;
      firstFrame := true;
    }

    /** Takes a frame; the result says whether there is a picture to show. */
    method HandleFrame(f: Frame, opens: bool) returns (shown: bool)
      modifies this
      ensures State() == VideoStep(old(State()), FrameIn(f, opens))
      ensures shown <==> f.Encoded? && f.ok
    {
      if FormatOf(f) != format {
        Reset(Some(FormatOf(f)), opens);
      }
      match f
      case Blank =>
        return false;
      case Encoded(_, ok) =>
        if ok {
          failCounter := 0;
        } else if failCounter < USIZE_MAX {
          if firstFrame && failCounter < MAX_DECODE_FAIL_COUNTER {
            failCounter := MAX_DECODE_FAIL_COUNTER;
          } else {
            failCounter := failCounter + 1;
          }
        }
        firstFrame := false;
        return ok;
    }
  }

  class UnsupportedList {
    var marked: seq<Codec>

    constructor ()
      ensures marked == []
    {
      marked := [];
    }

    /** Looks at a decoder after a frame; true asks for an update to the peer. */
    method Check(handler: VideoHandler) returns (shouldUpdate: bool)
      modifies this
      ensures (marked, shouldUpdate) == Judge(handler.State(), old(marked))
    {
      shouldUpdate := false;
      if !handler.valid || handler.failCounter >= MAX_DECODE_FAIL_COUNTER {
        if handler.format !in marked {
          marked := marked + [handler.format];
          shouldUpdate := true;
        }
      }
    }
  }
}
