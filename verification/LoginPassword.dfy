/**
 Which password a session logs in with, where that password came from, and which
 passwords may end up in the stored configuration of a peer.
 */
module LoginPassword {
  import opened Prelude

  type Bytes = seq<Byte>

  /** What the hash function returns. */
  type Digest = b: Bytes | |b| == 32 witness Zeros(32)

  function Zeros(n: nat): (r: Bytes)
    ensures |r| == n
  {
    if n == 0 then [] else Zeros(n - 1) + [0]
  }

  type Sha = Bytes -> Digest

  /** Where the current password came from, as the session records it. */
  datatype Source = PersonalAb(hash: Bytes) | SharedAb(text: Bytes) | Undefined

  /**
   The login state.  `config` is the remembered password in memory, `stored` the one on disk,
   `shared` a text handed over by a shared address book, `switching` whether a request to
   switch sides is waiting.  The last two fields are history: whether the current password
   was made from a shared text, and whether such a password was ever newly stored or published.
   */
  datatype Login = Login(
    password: Bytes, source: Source, salt: Bytes, challenge: Bytes, remember: bool,
    config: Bytes, stored: Bytes, shared: Option<Bytes>, switching: bool, promptOnly: bool,
    fromShared: bool, leaked: bool)

  datatype Reply = Silent | SwitchRequest | Answer(response: Bytes) | Publish(password: Bytes)

  datatype Event =
    | HashReceived(newSalt: Bytes, newChallenge: Bytes, preset: Bytes, personal: Bytes, builtin: Bytes)
    | LoginRefused(overPassword: bool)
    | LoginTyped(typed: Bytes, keep: bool)
    | PeerInfo
    | ConfigSaved
    | StoredElsewhere(other: Bytes)

  /** A text as the peer would store it; no text gives no password. */
  function Salted(sha: Sha, text: Bytes, salt: Bytes): Bytes {
    if text == [] then [] else sha(text + salt)
  }

  predicate IsPersonalAb(source: Source, password: Bytes) {
    password != [] && source.PersonalAb? && source.hash == password
  }

  predicate IsSharedAb(sha: Sha, source: Source, password: Bytes, salt: Bytes) {
    password != [] && source.SharedAb? && sha(source.text + salt) == password
  }

  // ----- The steps -----

  /** A password that could be used, with its source. */
  datatype Candidate = Candidate(password: Bytes, source: Source, fromShared: bool)

  /** The candidates in order of precedence. */
  function Candidates(sha: Sha, s: Login, e: Event): seq<Candidate>
    requires e.HashReceived?
  {
    var card := if s.shared.Some? then s.shared.value else [];
    [Candidate(Salted(sha, card, e.newSalt), SharedAb(card), true),
     Candidate(s.password, s.source, s.fromShared),
     Candidate(Salted(sha, e.preset, e.newSalt), Undefined, false),
     Candidate(s.config, Undefined, false),
     Candidate(e.personal, PersonalAb(e.personal), false),
     Candidate(Salted(sha, e.builtin, e.newSalt), SharedAb(e.builtin), true)]
  }

  /** The first candidate that is a password at all. */
  function Pick(candidates: seq<Candidate>, otherwise: Candidate): Candidate {
    if candidates == [] then otherwise
    else if candidates[0].password != [] then candidates[0]
    else Pick(candidates[1..], otherwise)
  }

  /** Takes a password into use and answers with it. */
  function Use(sha: Sha, s: Login, e: Event, c: Candidate): (Login, Reply)
    requires e.HashReceived?
  {
    (s.(salt := e.newSalt, challenge := e.newChallenge, switching := false, shared := None,
       password := c.password, source := c.source, fromShared := c.fromShared),
     if s.promptOnly then Silent
     else if c.password == [] then Answer([])
     else Answer(sha(c.password + e.newChallenge)))
  }

  function OnHash(sha: Sha, s: Login, e: Event): (Login, Reply)
    requires e.HashReceived?
  {
    if s.switching then
      (s.(salt := e.newSalt, challenge := e.newChallenge, switching := false, source := Undefined), SwitchRequest)
    else Use(sha, s, e, Pick(Candidates(sha, s, e), Candidate([], s.source, s.fromShared)))
  }

  function OnTyped(sha: Sha, s: Login, e: Event): (Login, Reply)
    requires e.LoginTyped?
  {
    var t :=
      if e.typed != [] then
        s.(password := sha(e.typed + s.salt), source := Undefined, fromShared := false, remember := e.keep)
      else if s.password == [] && s.config != [] then
        s.(password := s.config, source := Undefined, fromShared := false)
      else s;
    (t, Answer(sha(t.password + s.challenge)))
  }

  /** The password that a successful login leaves in the configuration. */
  function Remembered(sha: Sha, s: Login): Bytes {
    if s.remember then
      if s.password == [] || IsSharedAb(sha, s.source, s.password, s.salt) then s.stored else s.password
    else
      if IsPersonalAb(s.source, s.password) then s.password else []
  }

  function OnPeerInfo(sha: Sha, s: Login): (Login, Reply) {
    var kept := Remembered(sha, s);
    var publish := kept != [] && !IsSharedAb(sha, s.source, s.password, s.salt) && !IsPersonalAb(s.source, s.password);
    var exposed := s.fromShared && s.password != [] && kept == s.password && (s.stored != kept || publish);
    (s.(config := kept, stored := kept, leaked := s.leaked || exposed), if publish then Publish(kept) else Silent)
  }

  function Step(sha: Sha, s: Login, e: Event): (Login, Reply) {
    match e
    case HashReceived(_, _, _, _, _) => OnHash(sha, s, e)
    case LoginRefused(overPassword) => (if overPassword then s.(password := []) else s, Silent)
    case LoginTyped(_, _) => OnTyped(sha, s, e)
    case PeerInfo => OnPeerInfo(sha, s)
    case ConfigSaved => (s.(config := s.stored), Silent)
    case StoredElsewhere(other) => (s.(stored := other), Silent)
  }

  // ----- What one step keeps -----

  /** The recorded source explains the password. */
  predicate Explained(sha: Sha, s: Login) {
    s.password != [] ==>
      match s.source
      case SharedAb(text) => s.password == sha(text + s.salt)
      case PersonalAb(hash) => s.password == hash
      case Undefined => true
  }

  /** The recorded source says whether the password was made from a shared text. */
  predicate Tagged(s: Login) {
    s.password != [] ==> (s.fromShared <==> s.source.SharedAb?)
  }

  predicate Sound(sha: Sha, s: Login) {
    Explained(sha, s) && Tagged(s)
  }

  /** No shared password is carried over into a switch of sides or under another salt. */
  predicate Safe(sha: Sha, s: Login, e: Event) {
    e.HashReceived? && s.password != [] && s.source.SharedAb? ==>
      && !s.switching
      && ((s.shared.Some? && s.shared.value != []) || sha(s.source.text + e.newSalt) == s.password)
  }

  /** The pick is one of the candidates, with a password and behind only empty ones, or there was none. */
  lemma {:induction false} PickCases(candidates: seq<Candidate>, otherwise: Candidate) returns (k: nat)
    ensures k <= |candidates|
    ensures forall j :: 0 <= j < k ==> candidates[j].password == []
    ensures k == |candidates| ==> Pick(candidates, otherwise) == otherwise
    ensures k < |candidates| ==> candidates[k].password != [] && Pick(candidates, otherwise) == candidates[k]
  {
    k := 0;
    if candidates != [] && candidates[0].password == [] {
      var j := PickCases(candidates[1..], otherwise);
      k := j + 1;
      assert forall i :: 1 <= i < k ==> candidates[i] == candidates[1..][i - 1];
    }
  }

  /** The order of precedence, spelled out. */
  lemma PickInOrder(sha: Sha, s: Login, e: Event)
    requires e.HashReceived?
    ensures var cs := Candidates(sha, s, e);
      Pick(cs, Candidate([], s.source, s.fromShared)) ==
      if cs[0].password != [] then cs[0]
      else if cs[1].password != [] then cs[1]
      else if cs[2].password != [] then cs[2]
      else if cs[3].password != [] then cs[3]
      else if cs[4].password != [] then cs[4]
      else if cs[5].password != [] then cs[5]
      else Candidate([], s.source, s.fromShared)
  {
    var k := PickCases(Candidates(sha, s, e), Candidate([], s.source, s.fromShared));
  }

  /** What can be said before the first hash message has brought the salt. */
  predicate Labelled(s: Login) {
    Tagged(s) && (s.password != [] && s.source.PersonalAb? ==> s.password == s.source.hash)
  }

  lemma HashKeepsSound(sha: Sha, s: Login, e: Event)
    requires e.HashReceived? && Labelled(s)
    ensures Sound(sha, OnHash(sha, s, e).0) <==> Safe(sha, s, e)
  {
    if !s.switching {
      var k := PickCases(Candidates(sha, s, e), Candidate([], s.source, s.fromShared));
    }
  }

  /** A step leaves the source right exactly when it is safe. */
  lemma StepKeepsSound(sha: Sha, s: Login, e: Event)
    requires Sound(sha, s)
    ensures Sound(sha, Step(sha, s, e).0) <==> Safe(sha, s, e)
  {
    if e.HashReceived? {
      HashKeepsSound(sha, s, e);
    }
  }

  /** While the source is right, a shared password is neither newly stored nor published. */
  lemma StepDoesNotLeak(sha: Sha, s: Login, e: Event)
    requires Sound(sha, s)
    ensures Step(sha, s, e).0.leaked == s.leaked
    ensures e.PeerInfo? && Step(sha, s, e).0.stored !in {s.stored, []} ==>
      Step(sha, s, e).0.stored == s.password && !s.fromShared
    ensures Step(sha, s, e).1.Publish? ==> s.password == [] || !s.fromShared
  {
  }

  // ----- Whole sessions -----

  function After(sha: Sha, s: Login, events: seq<Event>): Login {
    if events == [] then s
    else Step(sha, After(sha, s, events[..|events| - 1]), events[|events| - 1]).0
  }

  predicate AlwaysSound(sha: Sha, s: Login, events: seq<Event>) {
    Sound(sha, After(sha, s, events)) && (events != [] ==> AlwaysSound(sha, s, events[..|events| - 1]))
  }

  predicate AlwaysSafe(sha: Sha, s: Login, events: seq<Event>) {
    events != [] ==>
      var front := events[..|events| - 1];
      Safe(sha, After(sha, s, front), events[|events| - 1]) && AlwaysSafe(sha, s, front)
  }

  /** The source is right throughout a session if and only if every step of it is safe. */
  lemma {:induction false} SessionStaysSound(sha: Sha, s: Login, events: seq<Event>)
    requires Sound(sha, s)
    ensures AlwaysSound(sha, s, events) <==> AlwaysSafe(sha, s, events)
  {
    if events != [] {
      var front := events[..|events| - 1];
      SessionStaysSound(sha, s, front);
      if AlwaysSound(sha, s, front) {
        var now := After(sha, s, front);
        assert Sound(sha, now);
        StepKeepsSound(sha, now, events[|events| - 1]);
      }
    }
  }

  /** In a session of safe steps no shared password is ever newly stored or published. */
  lemma {:induction false} SessionDoesNotLeak(sha: Sha, s: Login, events: seq<Event>)
    requires Sound(sha, s) && AlwaysSafe(sha, s, events)
    ensures After(sha, s, events).leaked == s.leaked
  {
    if events != [] {
      var front := events[..|events| - 1];
      SessionDoesNotLeak(sha, s, front);
      SessionStaysSound(sha, s, front);
      StepDoesNotLeak(sha, After(sha, s, front), events[|events| - 1]);
    }
  }

  /** Every hash message carries this salt. */
  predicate FixedSalt(salt: Bytes, events: seq<Event>) {
    forall e :: e in events && e.HashReceived? ==> e.newSalt == salt
  }

  lemma OrdinaryStep(sha: Sha, s: Login, e: Event, salt: Bytes)
    requires Sound(sha, s) && FixedSalt(salt, [e])
    requires s.password != [] && s.source.SharedAb? ==> s.salt == salt && !s.switching
    ensures Safe(sha, s, e)
  {
    assert e in [e];
  }

  /** What an ordinary session keeps: a shared password is never under a foreign salt. */
  predicate SharedInPlace(s: Login, salt: Bytes) {
    s.password != [] && s.source.SharedAb? ==> s.salt == salt && !s.switching
  }

  lemma StepInPlace(sha: Sha, s: Login, e: Event, salt: Bytes)
    requires SharedInPlace(s, salt) && FixedSalt(salt, [e])
    ensures SharedInPlace(Step(sha, s, e).0, salt)
  {
    assert e in [e];
    if e.HashReceived? && !s.switching {
      var k := PickCases(Candidates(sha, s, e), Candidate([], s.source, s.fromShared));
    }
  }

  lemma {:induction false} OrdinarySession(sha: Sha, s: Login, events: seq<Event>, salt: Bytes)
    requires Sound(sha, s) && SharedInPlace(s, salt) && FixedSalt(salt, events)
    ensures AlwaysSafe(sha, s, events) && SharedInPlace(After(sha, s, events), salt)
  {
    if events != [] {
      var front, last := events[..|events| - 1], events[|events| - 1];
      assert FixedSalt(salt, front) && FixedSalt(salt, [last]);
      OrdinarySession(sha, s, front, salt);
      SessionStaysSound(sha, s, front);
      OrdinaryStep(sha, After(sha, s, front), last, salt);
      StepInPlace(sha, After(sha, s, front), last, salt);
    }
  }

  /**
   With one salt, and no switch of sides that starts from a shared password: at every moment
   a source of SharedAb(p) means that the password is empty or made from p, one of PersonalAb(q)
   that it is empty or q, and no shared password was newly stored or published.
   */
  lemma SharedPasswordsStayPut(sha: Sha, s: Login, events: seq<Event>, salt: Bytes)
    requires Sound(sha, s) && SharedInPlace(s, salt) && FixedSalt(salt, events)
    ensures var t := After(sha, s, events);
      && (t.source.SharedAb? ==> t.password == [] || t.password == sha(t.source.text + salt))
      && (t.source.PersonalAb? ==> t.password == [] || t.password == t.source.hash)
      && t.leaked == s.leaked
  {
    OrdinarySession(sha, s, events, salt);
    SessionStaysSound(sha, s, events);
    SessionDoesNotLeak(sha, s, events);
  }

  lemma {:induction false} AfterFirst(sha: Sha, s: Login, e: Event, events: seq<Event>)
    ensures After(sha, s, [e] + events) == After(sha, Step(sha, s, e).0, events)
  {
    if events == [] {
      assert [e] + events == [e] && [e][..0] == [];
      assert After(sha, s, [e]) == Step(sha, After(sha, s, []), e).0;
    } else {
      var n := |events| - 1;
      assert ([e] + events)[..n + 1] == [e] + events[..n];
      AfterFirst(sha, s, e, events[..n]);
    }
  }

  /**
   A session resumed from the token of an earlier one knows the salt only from its first hash message.
   If the peer's salt is still the one the token's password was made with, the same holds from there on.
   */
  lemma ResumedSession(sha: Sha, s: Login, e: Event, events: seq<Event>)
    requires e.HashReceived? && Labelled(s) && Safe(sha, s, e) && FixedSalt(e.newSalt, events)
    ensures var t := After(sha, s, [e] + events);
      && (t.source.SharedAb? ==> t.password == [] || t.password == sha(t.source.text + e.newSalt))
      && (t.source.PersonalAb? ==> t.password == [] || t.password == t.source.hash)
      && t.leaked == s.leaked
  {
    var t := OnHash(sha, s, e).0;
    HashKeepsSound(sha, s, e);
    AfterFirst(sha, s, e, events);
    assert SharedInPlace(t, e.newSalt) && t.leaked == s.leaked;
    SharedPasswordsStayPut(sha, t, events, e.newSalt);
  }

  /**
   A hash message and a successful login leak a shared password if and only if the message
   was unsafe and the session remembers passwords.
   */
  lemma UnsafeHashLeaks(sha: Sha, s: Login, e: Event)
    requires Labelled(s) && e.HashReceived? && !s.leaked
    ensures After(sha, s, [e, PeerInfo]).leaked <==> !Safe(sha, s, e) && s.remember
  {
    var t := OnHash(sha, s, e).0;
    assert [e, PeerInfo][..1] == [e] && [e][..0] == [];
    assert After(sha, s, [e]) == Step(sha, After(sha, s, []), e).0 == t;
    assert After(sha, s, [e, PeerInfo]) == OnPeerInfo(sha, t).0;
    HashKeepsSound(sha, s, e);
    if Safe(sha, s, e) {
      StepDoesNotLeak(sha, t, PeerInfo);
    } else {
      var k := PickCases(Candidates(sha, s, e), Candidate([], s.source, s.fromShared));
      assert t.password == s.password && t.fromShared;
    }
  }

  // ----- What the peer is answered -----

  /** What a peer accepts that holds a text under a salt and has asked this challenge. */
  function Proof(sha: Sha, text: Bytes, salt: Bytes, challenge: Bytes): Reply {
    Answer(sha(sha(text + salt) + challenge))
  }

  /**
   The password in force at a hash message: of a shared card, of the session, of a preset, of the
   stored configuration, of the personal address book, or one built in, in this order.
   */
  function InForce(sha: Sha, s: Login, e: Event): Bytes
    requires e.HashReceived?
  {
    if s.shared.Some? && |s.shared.value| > 0 then sha(s.shared.value + e.newSalt)
    else if |s.password| > 0 then s.password
    else if |e.preset| > 0 then sha(e.preset + e.newSalt)
    else if |s.config| > 0 then s.config
    else if |e.personal| > 0 then e.personal
    else if |e.builtin| > 0 then sha(e.builtin + e.newSalt)
    else []
  }

  lemma PickIsInForce(sha: Sha, s: Login, e: Event)
    requires e.HashReceived?
    ensures Pick(Candidates(sha, s, e), Candidate([], s.source, s.fromShared)).password == InForce(sha, s, e)
  {
    PickInOrder(sha, s, e);
  }

  /**
   After any events, a hash message is answered with the password in force: a peer that holds the
   text it was made from accepts, and without a password the answer is empty.  A prompt asks
   first, and a switch of sides asks for that instead.
   */
  lemma HashIsAnswered(sha: Sha, s: Login, events: seq<Event>, e: Event, text: Bytes)
    requires e.HashReceived?
    ensures var now := After(sha, s, events);
      var (next, reply) := Step(sha, now, e);
      && !next.switching
      && (now.switching ==> reply == SwitchRequest && next.password == now.password && next.shared == now.shared)
      && (!now.switching ==> next.password == InForce(sha, now, e) && next.shared == None)
      && (!now.switching && s.promptOnly ==> reply == Silent)
      && (!now.switching && !s.promptOnly && InForce(sha, now, e) == [] ==> reply == Answer([]))
      && (!now.switching && !s.promptOnly && InForce(sha, now, e) == sha(text + e.newSalt) ==>
        reply == Proof(sha, text, e.newSalt, e.newChallenge))
  {
    PromptStays(sha, s, events);
    PickIsInForce(sha, After(sha, s, events), e);
  }

  lemma StepHash(sha: Sha, s: Login, e: Event)
    ensures var t := Step(sha, s, e).0;
      && t.promptOnly == s.promptOnly
      && t.salt == (if e.HashReceived? then e.newSalt else s.salt)
      && t.challenge == (if e.HashReceived? then e.newChallenge else s.challenge)
  {
    if e.HashReceived? {
      HashStep(sha, s, e);
    }
  }

  lemma HashStep(sha: Sha, s: Login, e: Event)
    requires e.HashReceived?
    ensures var t := OnHash(sha, s, e).0;
      t.promptOnly == s.promptOnly && t.salt == e.newSalt && t.challenge == e.newChallenge
  {
  }

  lemma {:induction false} PromptStays(sha: Sha, s: Login, events: seq<Event>)
    ensures After(sha, s, events).promptOnly == s.promptOnly
  {
    if events != [] {
      var front := events[..|events| - 1];
      PromptStays(sha, s, front);
      StepHash(sha, After(sha, s, front), events[|events| - 1]);
    }
  }

  /** The salt and the challenge of the latest hash message. */
  function LatestHash(s: Login, events: seq<Event>): (Bytes, Bytes) {
    if events == [] then (s.salt, s.challenge)
    else
      var last := events[|events| - 1];
      if last.HashReceived? then (last.newSalt, last.newChallenge) else LatestHash(s, events[..|events| - 1])
  }

  lemma {:induction false} LatestHashInForce(sha: Sha, s: Login, events: seq<Event>)
    ensures LatestHash(s, events) == (After(sha, s, events).salt, After(sha, s, events).challenge)
  {
    if events != [] {
      var front := events[..|events| - 1];
      LatestHashInForce(sha, s, front);
      StepHash(sha, After(sha, s, front), events[|events| - 1]);
    }
  }

  /**
   After any events, a typed password is answered under the salt and the challenge of the latest
   hash message: a peer that holds it accepts.  With nothing typed the session's password is
   used, and without one the stored one.
   */
  lemma TypedIsAnswered(sha: Sha, s: Login, events: seq<Event>, typed: Bytes, keep: bool, text: Bytes)
    ensures var now, (salt, challenge) := After(sha, s, events), LatestHash(s, events);
      var (next, reply) := Step(sha, now, LoginTyped(typed, keep));
      && (typed != [] ==>
        reply == Proof(sha, typed, salt, challenge) && next.password == sha(typed + salt) && next.remember == keep)
      && (typed == [] ==> next.remember == now.remember)
      && (typed == [] ==> next.password == if |now.password| > 0 then now.password else now.config)
      && (typed == [] && next.password == sha(text + salt) ==> reply == Proof(sha, text, salt, challenge))
      && (next.password == [] ==> reply == Answer(sha(challenge)) && next.source == now.source)
  {
    LatestHashInForce(sha, s, events);
    assert [] + After(sha, s, events).challenge == After(sha, s, events).challenge;
  }

  /**
   A typed password that worked is stored and published if it is to be kept, and otherwise
   nothing stays stored.
   */
  lemma TypedThenWorked(sha: Sha, s: Login, events: seq<Event>, typed: Bytes, keep: bool)
    requires typed != []
    ensures var next := Step(sha, After(sha, s, events), LoginTyped(typed, keep)).0;
      var (last, reply) := Step(sha, next, PeerInfo);
      var hash := sha(typed + LatestHash(s, events).0);
      && last.stored == last.config == (if keep then hash else [])
      && reply == (if keep then Publish(hash) else Silent)
  {
    LatestHashInForce(sha, s, events);
  }

  // ----- What a login leaves behind -----

  /**
   Where the source is right, what a login leaves behind depends on where the password came from,
   not on hashes: a remembered one is stored unless it was shared, a personal one always, and
   otherwise nothing stays; what stays is published unless it is shared or personal already.
   */
  lemma PeerInfoMeaning(sha: Sha, s: Login)
    requires Sound(sha, s) && s.password != []
    ensures var (t, reply) := Step(sha, s, PeerInfo);
      var personal := s.source.PersonalAb?;
      var kept := if s.remember then (if s.fromShared then s.stored else s.password)
                  else if personal then s.password else [];
      && t.stored == t.config == kept && t.password == s.password && t.source == s.source
      && reply == (if kept != [] && !s.fromShared && !personal then Publish(kept) else Silent)
  {
  }

  /** Without a password a remembered one stays, and is published again; another is forgotten. */
  lemma PeerInfoWithoutPassword(sha: Sha, s: Login)
    requires s.password == []
    ensures var (t, reply) := Step(sha, s, PeerInfo);
      && t.stored == t.config == (if s.remember then s.stored else [])
      && reply == (if t.stored != [] then Publish(t.stored) else Silent)
  {
  }

  /** A personal address-book password that worked is stored, asked to or not. */
  lemma PersonalPasswordIsStored(sha: Sha, s: Login)
    requires Sound(sha, s) && s.source.PersonalAb? && s.password != []
    ensures OnPeerInfo(sha, s).0.stored == s.source.hash && OnPeerInfo(sha, s).1 == Silent
  {
  }

  /** Only a remembered password is published, and a second report of the peer changes nothing more. */
  lemma PeerInfoSettles(sha: Sha, s: Login)
    requires Sound(sha, s)
    ensures var (t, reply) := OnPeerInfo(sha, s);
      && t.config == t.stored && OnPeerInfo(sha, t) == (t, reply)
      && (reply.Publish? ==> s.remember && reply.password == t.stored != [])
  {
  }

  /** Other errors than those over the password leave everything as it is. */
  lemma OtherErrors(sha: Sha, s: Login)
    ensures Step(sha, s, LoginRefused(false)) == (s, Silent)
  {
  }

  /** A password stored by another part of the program is used once the configuration was read again. */
  lemma StoredElsewhereIsUsed(sha: Sha, s: Login, other: Bytes, text: Bytes, salt: Bytes, challenge: Bytes)
    requires other == sha(text + salt) && !s.switching && !s.promptOnly
    requires s.password == [] && (s.shared.None? || s.shared.value == [])
    ensures var t := After(sha, s, [StoredElsewhere(other), ConfigSaved]);
      Step(sha, t, HashReceived(salt, challenge, [], [], [])).1 == Proof(sha, text, salt, challenge)
  {
    var events := [StoredElsewhere(other), ConfigSaved];
    assert events[..1] == [StoredElsewhere(other)] && [StoredElsewhere(other)][..0] == [];
    assert After(sha, s, events[..1]) == s.(stored := other);
    assert After(sha, s, events) == s.(stored := other, config := other);
    HashIsAnswered(sha, s, events, HashReceived(salt, challenge, [], [], []), text);
  }

  /** The wrong password is not tried again: the next one comes from elsewhere or is empty. */
  lemma RefusedIsForgotten(sha: Sha, s: Login, e: Event)
    requires e.HashReceived? && !s.switching
    ensures var t := After(sha, s, [LoginRefused(true), e]);
      t.password == [] || t.password in
        {Salted(sha, if s.shared.Some? then s.shared.value else [], e.newSalt), Salted(sha, e.preset, e.newSalt),
         s.config, e.personal, Salted(sha, e.builtin, e.newSalt)}
  {
    var r := s.(password := []);
    assert [LoginRefused(true), e][..1] == [LoginRefused(true)] && [LoginRefused(true)][..0] == [];
    assert After(sha, s, [LoginRefused(true)]) == Step(sha, After(sha, s, []), LoginRefused(true)).0 == r;
    assert After(sha, s, [LoginRefused(true), e]) == OnHash(sha, r, e).0;
    var k := PickCases(Candidates(sha, r, e), Candidate([], s.source, s.fromShared));
  }

  // ----- The handler as the program runs it -----

  class LoginConfigHandler {
    const sha: Sha
    const promptOnly: bool
    var password: Bytes
    var source: Source
    var salt: Bytes
    var challenge: Bytes
    var remember: bool
    var config: Bytes
    var stored: Bytes
    var sharedPassword: Option<Bytes>
    var switching: bool
    ghost var fromShared: bool
    ghost var leaked: bool

    /** A fresh session; a token brings along a password and its source from an earlier one. */
    constructor (
        sha: Sha, stored: Bytes, token: Option<(Bytes, Source)>, shared: Option<Bytes>,
        switching: bool, promptOnly: bool)
      ensures token.None? ==> Sound(sha, State())
      ensures token.Some? && (token.value.1.PersonalAb? ==> token.value.0 in {[], token.value.1.hash}) ==>
        Labelled(State())
      ensures State() == Login(
        if token.Some? then token.value.0 else [], if token.Some? then token.value.1 else Undefined,
        [], [], stored != [], stored, stored, shared, switching, promptOnly,
        token.Some? && token.value.1.SharedAb?, false)
      ensures this.sha == sha
    {
      this.sha, this.promptOnly := sha, promptOnly;
      this.stored, config, remember := stored, stored, stored != [];
      salt, challenge, this.switching, sharedPassword := [], [], switching, shared;
      password, source := [], Undefined;
      if token.Some? {
        password, source := token.value.0, token.value.1;
      }
      fromShared, leaked := token.Some? && token.value.1.SharedAb?, false;
    }

    ghost function State(): Login
      reads this
    {
      Login(password, source, salt, challenge, remember, config, stored, sharedPassword, switching, promptOnly,
            fromShared, leaked)
    }

    /** Finds the first password there is, and where it comes from. */
    method ChoosePassword(ghost s: Login, salt: Bytes, challenge: Bytes, preset: Bytes, personal: Bytes, builtin: Bytes)
      returns (chosen: Bytes, from: Source, ghost isShared: bool)
      requires s == State()
      ensures Candidate(chosen, from, isShared) ==
        Pick(Candidates(sha, s, HashReceived(salt, challenge, preset, personal, builtin)),
             Candidate([], s.source, s.fromShared))
    {
      PickInOrder(sha, s, HashReceived(salt, challenge, preset, personal, builtin));
      chosen, from, isShared := password, source, fromShared;
      if chosen == [] && preset != [] {
        chosen, from, isShared := sha(preset + salt), Undefined, false;
      }
      if sharedPassword.Some? && sharedPassword.value != [] {
        chosen, from, isShared := sha(sharedPassword.value + salt), SharedAb(sharedPassword.value), true;
      }
      if chosen == [] {
        chosen := config;
        if chosen != [] {
          from, isShared := Undefined, false;
        }
      }
      if chosen == [] && personal != [] {
        chosen, from, isShared := personal, PersonalAb(personal), false;
      }
      if chosen == [] && builtin != [] {
        chosen, from, isShared := sha(builtin + salt), SharedAb(builtin), true;
      }
    }

    /** Takes the password into use. */
    method UsePassword(salt: Bytes, challenge: Bytes, chosen: Bytes, from: Source, ghost isShared: bool)
      returns (reply: Reply)
      requires !switching
      modifies this
      ensures forall preset, personal, builtin ::
          (State(), reply) == Use(sha, old(State()), HashReceived(salt, challenge, preset, personal, builtin),
                                  Candidate(chosen, from, isShared))
    {
      this.salt, this.challenge := salt, challenge;
      sharedPassword := None;
      password, source, fromShared := chosen, from, isShared;
      if promptOnly {
        return Silent;
      }
      return Answer(if chosen == [] then [] else sha(chosen + challenge));
    }

    /** Answers a hash message. */
    method HandleHash(salt: Bytes, challenge: Bytes, preset: Bytes, personal: Bytes, builtin: Bytes)
      returns (reply: Reply)
      modifies this
      ensures (State(), reply) == Step(sha, old(State()), HashReceived(salt, challenge, preset, personal, builtin))
    {
      if switching {
        this.salt, this.challenge, switching := salt, challenge, false;
        source := Undefined;
        return SwitchRequest;
      }
      ghost var isShared;
      var chosen, from;
      chosen, from, isShared := ChoosePassword(State(), salt, challenge, preset, personal, builtin);
      reply := UsePassword(salt, challenge, chosen, from, isShared);
    }

    method HandleLoginError(overPassword: bool)
      modifies this
      ensures (State(), Silent) == Step(sha, old(State()), LoginRefused(overPassword))
    {
      if overPassword {
        password := [];
      }
    }

    method HandleLoginFromUi(typed: Bytes, keep: bool) returns (reply: Reply)
      modifies this
      ensures (State(), reply) == Step(sha, old(State()), LoginTyped(typed, keep))
    {
      var hashed := password;
      if typed == [] {
        if hashed == [] {
          hashed := config;
          if hashed != [] {
            source, fromShared := Undefined, false;
          }
        }
      } else {
        source, fromShared := Undefined, false;
        remember := keep;
        hashed := sha(typed + salt);
      }
      password := hashed;
      return Answer(sha(hashed + challenge));
    }

    method HandlePeerInfo() returns (reply: Reply)
      modifies this
      ensures (State(), reply) == Step(sha, old(State()), PeerInfo)
    {
      var kept := stored;
      if remember {
        if password != [] && password != kept && !IsSharedAb(sha, source, password, salt) {
          kept := password;
        }
      } else if IsPersonalAb(source, password) {
        kept := password;
      } else if kept != [] {
        kept := [];
      }
      reply := Silent;
      if kept != [] && !IsSharedAb(sha, source, password, salt) && !IsPersonalAb(source, password) {
        reply := Publish(kept);
      }
      leaked := leaked || (fromShared && password != [] && kept == password && (stored != kept || reply.Publish?));
      config, stored := kept, kept;
    }
  }
}
