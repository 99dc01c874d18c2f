/**
 Two machines that keep their clipboards in step: each forwards what its user copies and
 marks what it receives, so that the change it causes itself is not sent back.

 Notifications and deliveries are atomic steps; messages may overtake each other because
 each is applied on a thread of its own.
 */
module ClipboardSync {
  import opened Prelude
  import opened ClipboardCodec

  datatype Side = Host | Client

  const OWNER := "dyn.com.anuvadini.owner"

  function Other(s: Side): Side {
    if s == Host then Client else Host
  }

  function OwnerData(s: Side): seq<Byte> {
    if s == Host then [1] else [2]
  }

  /** Either of the two low bits of the first byte marks the content as received, on both sides. */
  predicate IsOwner(data: seq<Byte>) {
    data != [] && data[0] % 4 != 0
  }

  predicate IsMarker(item: Item) {
    item.Special? && item.name == OWNER
  }

  predicate Owned(items: seq<Item>) {
    exists i :: 0 <= i < |items| && IsMarker(items[i]) && IsOwner(items[i].data)
  }

  predicate Forwarded(item: Item) {
    match item
    case Special(name, _) => name != OWNER
    case Text(text) => text != ""
    case _ => true
  }

  function Filtered(items: seq<Item>): seq<Item> {
    if items == [] then []
    else if Forwarded(items[0]) then [items[0]] + Filtered(items[1..])
    else Filtered(items[1..])
  }

  /** The compressor, the decompressor, and whether files have a service of their own. */
  datatype Env = Env(pack: Packer, unpack: Packer, files: bool)

  function FormatsFilter(items: seq<Item>, force: bool): seq<Item> {
    if items == [] then [] else if !force && Owned(items) then [] else Filtered(items)
  }

  function Get(env: Env, items: seq<Item>, force: bool): seq<Item> {
    var data := FormatsFilter(items, force);
    if env.files && (exists i :: 0 <= i < |data| && data[i].FileUrl?) then [] else data
  }

  /** The message for the current content, if there is anything to send. */
  function Checked(env: Env, items: seq<Item>, force: bool): Option<seq<Clip>> {
    var content := Get(env, items, force);
    if content == [] then None else Some(EncodeAll(env.pack, content))
  }

  function FirstText(clips: seq<Clip>): seq<Clip> {
    if clips == [] then [] else if clips[0].format == TextF then [clips[0]] else FirstText(clips[1..])
  }

  /** An old peer gets the first text only, if there is one. */
  function Outgoing(clips: seq<Clip>, multi: bool): seq<Clip> {
    if !multi && FirstText(clips) != [] then FirstText(clips) else clips
  }

  /** A clipboard, its unhandled change notifications, the cached message, what its user copied, and its inbox. */
  datatype Machine = Machine(
    clip: seq<Item>, pending: nat, cache: seq<Clip>, copies: seq<seq<Item>>, inbox: seq<seq<Clip>>)

  datatype Sent = Sent(side: Side, forced: bool, clips: seq<Clip>)

  datatype World = World(host: Machine, client: Machine, log: seq<Sent>)

  function At(w: World, s: Side): Machine {
    if s == Host then w.host else w.client
  }

  function Put(w: World, s: Side, m: Machine): World {
    if s == Host then w.(host := m) else w.(client := m)
  }

  datatype Event =
    | UserCopy(side: Side, items: seq<Item>, notices: nat)
    | Notify(side: Side, required: bool, multi: bool)
    | Deliver(side: Side, index: nat, accepted: bool, written: bool, notices: nat)
    | ForceSend(side: Side, multi: bool)

  /** A copy of the user carries no marker; a step takes what is there. */
  predicate Enabled(w: World, e: Event) {
    match e
    case UserCopy(_, items, _) => !Owned(items)
    case Notify(s, _, _) => At(w, s).pending > 0
    case Deliver(s, k, _, _, _) => k < |At(w, s).inbox|
    case ForceSend(_, _) => true
  }

  function Send(w: World, s: Side, forced: bool, clips: seq<Clip>): World {
    var peer := At(w, Other(s));
    Put(w, Other(s), peer.(inbox := peer.inbox + [clips])).(log := w.log + [Sent(s, forced, clips)])
  }

  /** What a received message puts on the clipboard, with the marker of this side. */
  function Received(env: Env, s: Side, clips: seq<Clip>): seq<Item> {
    DecodeAll(env.unpack, clips) + [Special(OWNER, OwnerData(s))]
  }

  function DoNotify(env: Env, w: World, s: Side, required: bool, multi: bool): World
    requires At(w, s).pending > 0
  {
    var m := At(w, s);
    match Checked(env, m.clip, false)
    case None => Put(w, s, m.(pending := m.pending - 1))
    case Some(clips) =>
      var w' := Put(w, s, m.(pending := m.pending - 1, cache := clips));
      if required then Send(w', s, false, Outgoing(clips, multi)) else w'
  }

  function DoDeliver(env: Env, w: World, s: Side, k: nat, accepted: bool, written: bool, notices: nat): World
    requires k < |At(w, s).inbox|
  {
    var m := At(w, s);
    var clips := m.inbox[k];
    var m' := m.(inbox := m.inbox[..k] + m.inbox[k + 1..]);
    if accepted && written && DecodeAll(env.unpack, clips) != [] then
      Put(w, s, m'.(clip := Received(env, s, clips), pending := m.pending + notices))
    else Put(w, s, m')
  }

  /** The message for a new connection: the cached one, else the content whoever owns it. */
  function DoForceSend(env: Env, w: World, s: Side, multi: bool): World {
    var m := At(w, s);
    var clips := if m.cache == [] then EncodeAll(env.pack, Get(env, m.clip, true)) else m.cache;
    var w' := Put(w, s, m.(cache := clips));
    var out := if multi then clips else FirstText(clips);
    if out == [] then w' else Send(w', s, true, out)
  }

  function Step(env: Env, w: World, e: Event): World
    requires Enabled(w, e)
  {
    match e
    case UserCopy(s, items, n) =>
      var m := At(w, s);
      Put(w, s, m.(clip := items, pending := m.pending + n, copies := m.copies + [items]))
    case Notify(s, required, multi) => DoNotify(env, w, s, required, multi)
    case Deliver(s, k, accepted, written, n) => DoDeliver(env, w, s, k, accepted, written, n)
    case ForceSend(s, multi) => DoForceSend(env, w, s, multi)
  }

  /** Runs, from two clipboards whose unmarked content counts as put there by their users. */
  ghost predicate Initial(w: World) {
    && w.log == []
    && Idle(w.host) && Idle(w.client)
  }

  ghost predicate Idle(m: Machine) {
    m.cache == [] && m.inbox == [] && m.copies == if Owned(m.clip) then [] else [m.clip]
  }

  ghost predicate Runs(env: Env, ws: seq<World>, es: seq<Event>) {
    && |ws| == |es| + 1
    && forall i :: 0 <= i < |es| ==> Enabled(ws[i], es[i]) && ws[i + 1] == Step(env, ws[i], es[i])
  }

  // ----- What is sent -----

  /** The messages that forward exactly one of the copies. */
  ghost predicate Forwards(env: Env, clips: seq<Clip>, copies: seq<seq<Item>>) {
    exists i, multi :: 0 <= i < |copies| && !Owned(copies[i])
      && clips == Outgoing(EncodeAll(env.pack, Get(env, copies[i], false)), multi)
  }

  /** No marker and no empty text. */
  ghost predicate Clean(env: Env, clips: seq<Clip>) {
    forall i :: 0 <= i < |clips| ==>
      && !(clips[i].format == SpecialF && clips[i].specialName == OWNER)
      && FromProto(env.unpack, clips[i]) != Some(Text(""))
  }

  /** Unmarked content is the latest copy of the machine's own user. */
  ghost predicate Provenance(m: Machine) {
    Owned(m.clip) || (m.copies != [] && m.clip == m.copies[|m.copies| - 1])
  }

  ghost predicate LogOk(env: Env, w: World) {
    forall i :: 0 <= i < |w.log| ==>
      && Clean(env, w.log[i].clips)
      && (!w.log[i].forced ==> Forwards(env, w.log[i].clips, At(w, w.log[i].side).copies))
  }

  ghost predicate Safe(env: Env, w: World) {
    && Provenance(w.host) && Provenance(w.client)
    && Clean(env, w.host.cache) && Clean(env, w.client.cache)
    && LogOk(env, w)
  }

  lemma {:induction false} FilteredForwarded(items: seq<Item>)
    ensures forall i :: 0 <= i < |Filtered(items)| ==> Forwarded(Filtered(items)[i])
  {
    if items != [] {
      FilteredForwarded(items[1..]);
    }
  }

  lemma GetForwarded(env: Env, items: seq<Item>, force: bool)
    ensures forall i :: 0 <= i < |Get(env, items, force)| ==> Forwarded(Get(env, items, force)[i])
  {
    FilteredForwarded(items);
  }

  lemma ForwardedClip(env: Env, item: Item)
    requires Undoes(env.unpack, env.pack) && Forwarded(item) && ToProto(env.pack, item).Some?
    ensures Clean(env, [ToProto(env.pack, item).value])
  {
    if item.Text? {
      ItemRoundTrip(env.pack, env.unpack, item);
    }
  }

  lemma {:induction false} EncodedClean(env: Env, items: seq<Item>)
    requires Undoes(env.unpack, env.pack)
    requires forall i :: 0 <= i < |items| ==> Forwarded(items[i])
    ensures Clean(env, EncodeAll(env.pack, items))
  {
    if items != [] {
      EncodedClean(env, items[1..]);
      if ToProto(env.pack, items[0]).Some? {
        ForwardedClip(env, items[0]);
        CleanCons(env, ToProto(env.pack, items[0]).value, EncodeAll(env.pack, items[1..]));
      }
    }
  }

  lemma CleanCons(env: Env, c: Clip, clips: seq<Clip>)
    requires Clean(env, [c]) && Clean(env, clips)
    ensures Clean(env, [c] + clips)
  {
    assert [c][0] == c;
  }

  lemma {:induction false} FirstTextClean(env: Env, clips: seq<Clip>)
    requires Clean(env, clips)
    ensures Clean(env, FirstText(clips))
  {
    if clips != [] {
      if clips[0].format == TextF {
        assert Clean(env, [clips[0]]);
      } else {
        FirstTextClean(env, clips[1..]);
      }
    }
  }

  lemma CheckedClean(env: Env, items: seq<Item>, force: bool)
    requires Undoes(env.unpack, env.pack)
    ensures Clean(env, EncodeAll(env.pack, Get(env, items, force)))
  {
    GetForwarded(env, items, force);
    EncodedClean(env, Get(env, items, force));
  }

  /** What a machine puts on its clipboard for a message is marked, so it is not forwarded again. */
  lemma ReceivedIsOwned(env: Env, s: Side, clips: seq<Clip>)
    ensures Owned(Received(env, s, clips))
    ensures Checked(env, Received(env, s, clips), false) == None
  {
    var items := Received(env, s, clips);
    assert IsMarker(items[|items| - 1]) && IsOwner(items[|items| - 1].data);
  }

  lemma MoreCopies(env: Env, clips: seq<Clip>, copies: seq<seq<Item>>, more: seq<seq<Item>>)
    requires Forwards(env, clips, copies)
    ensures Forwards(env, clips, copies + more)
  {
    var i, multi :| 0 <= i < |copies| && !Owned(copies[i])
      && clips == Outgoing(EncodeAll(env.pack, Get(env, copies[i], false)), multi);
    assert (copies + more)[i] == copies[i];
  }

  /** The log stays good when copies are only added and one good message is appended. */
  lemma LogGrows(env: Env, w: World, w': World, s: Side, more: seq<seq<Item>>)
    requires LogOk(env, w) && w'.log == w.log
    requires At(w', s).copies == At(w, s).copies + more && At(w', Other(s)).copies == At(w, Other(s)).copies
    ensures LogOk(env, w')
  {
    forall i | 0 <= i < |w'.log|
      ensures Clean(env, w'.log[i].clips)
      ensures !w'.log[i].forced ==> Forwards(env, w'.log[i].clips, At(w', w'.log[i].side).copies)
    {
      if !w.log[i].forced && w.log[i].side == s {
        MoreCopies(env, w.log[i].clips, At(w, s).copies, more);
      }
    }
  }

  lemma SendSafe(env: Env, w: World, s: Side, forced: bool, clips: seq<Clip>)
    requires Safe(env, w) && Clean(env, clips)
    requires !forced ==> Forwards(env, clips, At(w, s).copies)
    ensures Safe(env, Send(w, s, forced, clips))
  {
    var w' := Send(w, s, forced, clips);
    assert At(w', Host).copies == w.host.copies && At(w', Client).copies == w.client.copies;
    forall i | 0 <= i < |w'.log|
      ensures Clean(env, w'.log[i].clips)
      ensures !w'.log[i].forced ==> Forwards(env, w'.log[i].clips, At(w', w'.log[i].side).copies)
    {
      if i < |w.log| {
        assert w'.log[i] == w.log[i];
      }
    }
  }

  lemma NotifySafe(env: Env, w: World, s: Side, required: bool, multi: bool)
    requires Undoes(env.unpack, env.pack) && Safe(env, w) && At(w, s).pending > 0
    ensures Safe(env, DoNotify(env, w, s, required, multi))
  {
    var m := At(w, s);
    CheckedClean(env, m.clip, false);
    match Checked(env, m.clip, false)
    case None =>
      LogGrows(env, w, DoNotify(env, w, s, required, multi), s, []);
    case Some(clips) =>
      var w' := Put(w, s, m.(pending := m.pending - 1, cache := clips));
      LogGrows(env, w, w', s, []);
      FirstTextClean(env, clips);
      var last := |m.copies| - 1;
      assert !Owned(m.clip);
      assert m.copies[last] == m.clip;
      assert Outgoing(clips, multi) == Outgoing(EncodeAll(env.pack, Get(env, m.copies[last], false)), multi);
      SendSafe(env, w', s, false, Outgoing(clips, multi));
  }

  lemma DeliverSafe(env: Env, w: World, s: Side, k: nat, accepted: bool, written: bool, notices: nat)
    requires Safe(env, w) && k < |At(w, s).inbox|
    ensures Safe(env, DoDeliver(env, w, s, k, accepted, written, notices))
  {
    ReceivedIsOwned(env, s, At(w, s).inbox[k]);
    LogGrows(env, w, DoDeliver(env, w, s, k, accepted, written, notices), s, []);
  }

  lemma ForceSafe(env: Env, w: World, s: Side, multi: bool)
    requires Undoes(env.unpack, env.pack) && Safe(env, w)
    ensures Safe(env, DoForceSend(env, w, s, multi))
  {
    var m := At(w, s);
    CheckedClean(env, m.clip, true);
    var clips := if m.cache == [] then EncodeAll(env.pack, Get(env, m.clip, true)) else m.cache;
    var w' := Put(w, s, m.(cache := clips));
    LogGrows(env, w, w', s, []);
    FirstTextClean(env, clips);
    var out := if multi then clips else FirstText(clips);
    SendSafe(env, w', s, true, out);
  }

  lemma StepSafe(env: Env, w: World, e: Event)
    requires Undoes(env.unpack, env.pack) && Safe(env, w) && Enabled(w, e)
    ensures Safe(env, Step(env, w, e))
  {
    match e
    case UserCopy(s, items, n) => LogGrows(env, w, Step(env, w, e), s, [items]);
    case Notify(s, required, multi) => NotifySafe(env, w, s, required, multi);
    case Deliver(s, k, accepted, written, n) => DeliverSafe(env, w, s, k, accepted, written, n);
    case ForceSend(s, multi) => ForceSafe(env, w, s, multi);
  }

  /**
   In every run, every message sent without force forwards exactly what a user of the
   sending machine had copied there, never something received; and no message at all
   carries the marker or an empty text.
   */
  lemma {:induction false} OnlyLocalCopiesTravel(env: Env, ws: seq<World>, es: seq<Event>)
    requires Undoes(env.unpack, env.pack) && Runs(env, ws, es) && Initial(ws[0])
    ensures Safe(env, ws[|es|])
  {
    if es != [] {
      var n := |es| - 1;
      OnlyLocalCopiesTravel(env, ws[..|es|], es[..n]);
      StepSafe(env, ws[n], es[n]);
    }
  }

  // ----- What is delivered -----

  /** What a copy can bring to the other machine: no kind without a wire format, no marker, no empty text. */
  predicate Travels(item: Item) {
    match item
    case FileUrl(_) => false
    case Unsupported => false
    case Text(text) => |text| > 0
    case Special(name, _) => name != "dyn.com.anuvadini.owner"
    case _ => true
  }

  function Travelling(items: seq<Item>): seq<Item> {
    if items == [] then []
    else (if Travels(items[0]) then [items[0]] else []) + Travelling(items[1..])
  }

  function FirstTextItem(items: seq<Item>): seq<Item> {
    if items == [] then [] else if items[0].Text? then [items[0]] else FirstTextItem(items[1..])
  }

  /** What a peer is to get of these items: an old one gets the first text, if there is one. */
  function ForPeer(items: seq<Item>, multi: bool): seq<Item> {
    if multi || FirstTextItem(Travelling(items)) == [] then Travelling(items) else FirstTextItem(Travelling(items))
  }

  /** There is something other than markers and empty texts. */
  ghost predicate Worth(items: seq<Item>) {
    exists i :: 0 <= i < |items| && items[i] != Text("") && !IsMarker(items[i])
  }

  /** Files are left to their own service. */
  ghost predicate FilesApart(env: Env, items: seq<Item>) {
    env.files && exists i :: 0 <= i < |items| && items[i].FileUrl?
  }

  /** Some item is the marker of either side: its first byte has one of the two low bits. */
  ghost predicate Marked(items: seq<Item>) {
    exists i :: 0 <= i < |items| && IsMark(items[i])
  }

  predicate IsMark(item: Item) {
    && item.Special? && item.name == "dyn.com.anuvadini.owner" && |item.data| > 0
    && (item.data[0] % 2 == 1 || item.data[0] / 2 % 2 == 1)
  }

  lemma OwnedMeaning(items: seq<Item>)
    ensures Owned(items) <==> Marked(items)
  {
    forall i | 0 <= i < |items| ensures IsMark(items[i]) <==> IsMarker(items[i]) && IsOwner(items[i].data) {
      if items[i].Special? && items[i].data != [] {
        LowBits(items[i].data[0]);
      }
    }
  }

  lemma LowBits(b: nat)
    ensures b % 4 != 0 <==> b % 2 == 1 || b / 2 % 2 == 1
  {
  }

  lemma {:induction false} FilteredMembers(items: seq<Item>, item: Item)
    ensures item in Filtered(items) <==> item in items && Forwarded(item)
  {
    if items != [] {
      FilteredMembers(items[1..], item);
      assert items == [items[0]] + items[1..];
    }
  }

  lemma FilteredEmpty(items: seq<Item>)
    ensures Filtered(items) != [] <==> Worth(items)
  {
    if Worth(items) {
      var i :| 0 <= i < |items| && items[i] != Text("") && !IsMarker(items[i]);
      FilteredMembers(items, items[i]);
    }
    if Filtered(items) != [] {
      FilteredMembers(items, Filtered(items)[0]);
    }
  }

  lemma GetMeaning(env: Env, items: seq<Item>, force: bool)
    ensures Get(env, items, force) ==
      if (!force && Owned(items)) || FilesApart(env, items) then [] else Filtered(items)
  {
    if i :| 0 <= i < |items| && items[i].FileUrl? {
      FilteredMembers(items, items[i]);
    }
    if i :| 0 <= i < |Filtered(items)| && Filtered(items)[i].FileUrl? {
      FilteredMembers(items, Filtered(items)[i]);
    }
  }

  /** A message of filtered content holds the items that travel. */
  lemma {:induction false} EncodeFiltered(pack: Packer, items: seq<Item>)
    ensures EncodeAll(pack, Filtered(items)) == EncodeAll(pack, Travelling(items))
  {
    if items != [] {
      var rest := items[1..];
      EncodeFiltered(pack, rest);
      if Forwarded(items[0]) {
        assert ([items[0]] + Filtered(rest))[1..] == Filtered(rest);
      }
      if Travels(items[0]) {
        assert ([items[0]] + Travelling(rest))[1..] == Travelling(rest);
      } else {
        assert Travelling(items) == Travelling(rest);
      }
    }
  }

  lemma {:induction false} EncodeFirstText(pack: Packer, items: seq<Item>)
    ensures FirstText(EncodeAll(pack, items)) == EncodeAll(pack, FirstTextItem(items))
    ensures FirstText(EncodeAll(pack, items)) == [] <==> FirstTextItem(items) == []
  {
    if items != [] {
      EncodeFirstText(pack, items[1..]);
      if items[0].Text? {
        assert EncodeAll(pack, []) == [];
      } else if ToProto(pack, items[0]).Some? {
        assert EncodeAll(pack, items)[1..] == EncodeAll(pack, items[1..]);
      }
    }
  }

  lemma {:induction false} TravellingSupported(items: seq<Item>)
    ensures forall item :: item in Travelling(items) <==> item in items && Travels(item)
  {
    if items != [] {
      TravellingSupported(items[1..]);
      assert items == [items[0]] + items[1..];
    }
  }

  lemma {:induction false} FirstTextMember(items: seq<Item>)
    ensures FirstTextItem(items) == [] || (|FirstTextItem(items)| == 1 && FirstTextItem(items)[0] in items)
  {
    if items != [] {
      FirstTextMember(items[1..]);
    }
  }

  lemma {:induction false} AllSupported(items: seq<Item>)
    requires forall item :: item in items ==> Supported(item)
    ensures SupportedOnly(items) == items
  {
    if items != [] {
      assert items[0] in items;
      assert forall item :: item in items[1..] ==> item in items;
      AllSupported(items[1..]);
    }
  }

  lemma ForPeerSupported(items: seq<Item>, multi: bool)
    ensures forall item :: item in ForPeer(items, multi) ==> Supported(item)
    ensures SupportedOnly(ForPeer(items, multi)) == ForPeer(items, multi)
  {
    TravellingSupported(items);
    FirstTextMember(Travelling(items));
    AllSupported(ForPeer(items, multi));
  }

  lemma OutgoingIsForPeer(pack: Packer, items: seq<Item>, multi: bool)
    ensures Outgoing(EncodeAll(pack, Filtered(items)), multi) == EncodeAll(pack, ForPeer(items, multi))
  {
    EncodeFiltered(pack, items);
    EncodeFirstText(pack, Travelling(items));
  }

  /**
   What a notification does: unmarked content worth sending is cached and, if required, goes
   to the peer; markers, empty texts and files with a service of their own change nothing.
   */
  lemma NotifyMeaning(env: Env, w: World, s: Side, required: bool, multi: bool)
    requires At(w, s).pending > 0
    ensures var m, peer, w' := At(w, s), At(w, Other(s)), Step(env, w, Notify(s, required, multi));
      var sends := !Marked(m.clip) && Worth(m.clip) && !FilesApart(env, m.clip);
      var out := EncodeAll(env.pack, ForPeer(m.clip, multi));
      && At(w', s) == m.(pending := m.pending - 1,
                         cache := if sends then EncodeAll(env.pack, Travelling(m.clip)) else m.cache)
      && At(w', Other(s)) == peer.(inbox := peer.inbox + if sends && required then [out] else [])
      && w'.log == w.log + if sends && required then [Sent(s, false, out)] else []
  {
    var m := At(w, s);
    OwnedMeaning(m.clip);
    GetMeaning(env, m.clip, false);
    FilteredEmpty(m.clip);
    EncodeFiltered(env.pack, m.clip);
    OutgoingIsForPeer(env.pack, m.clip, multi);
  }

  /** A new connection gets the cached message, or else the content of the clipboard, whoever it came from. */
  lemma NewConnectionMeaning(env: Env, w: World, s: Side, multi: bool)
    ensures var m, peer, w' := At(w, s), At(w, Other(s)), Step(env, w, ForceSend(s, multi));
      var all := if m.cache != [] then m.cache
                 else if FilesApart(env, m.clip) then [] else EncodeAll(env.pack, Travelling(m.clip));
      var out := if multi then all else FirstText(all);
      && At(w', s) == m.(cache := all)
      && At(w', Other(s)) == peer.(inbox := peer.inbox + if out != [] then [out] else [])
      && w'.log == w.log + if out != [] then [Sent(s, true, out)] else []
  {
    var m := At(w, s);
    GetMeaning(env, m.clip, true);
    EncodeFiltered(env.pack, m.clip);
  }

  /** The mark that a side puts on what it received. */
  function Marker(s: Side): Item {
    Special("dyn.com.anuvadini.owner", match s case Host => [1] case Client => [2])
  }

  /** Delivering a message takes it from the inbox, and puts its items and one marker on the clipboard. */
  lemma DeliverMeaning(
      env: Env, w: World, s: Side, k: nat, accepted: bool, written: bool, notices: nat, items: seq<Item>, multi: bool)
    requires Undoes(env.unpack, env.pack)
    requires k < |At(w, s).inbox| && At(w, s).inbox[k] == EncodeAll(env.pack, ForPeer(items, multi))
    ensures var m, m' := At(w, s), At(Step(env, w, Deliver(s, k, accepted, written, notices)), s);
      var takes := accepted && written && Travelling(items) != [];
      && (takes ==> (m'.clip == ForPeer(items, multi) + [Marker(s)] <==> AllFit(env.pack, ForPeer(items, multi))))
      && (!takes ==> m'.clip == m.clip)
      && m' == m.(clip := m'.clip, inbox := m.inbox[..k] + m.inbox[k + 1..],
                  pending := m.pending + if takes then notices else 0)
  {
    var got := DecodedForPeer(env, items, multi);
    SameFront(got, ForPeer(items, multi), Marker(s));
  }

  lemma DecodedForPeer(env: Env, items: seq<Item>, multi: bool) returns (got: seq<Item>)
    requires Undoes(env.unpack, env.pack)
    ensures got == DecodeAll(env.unpack, EncodeAll(env.pack, ForPeer(items, multi)))
    ensures got == [] <==> Travelling(items) == []
    ensures got == ForPeer(items, multi) <==> AllFit(env.pack, ForPeer(items, multi))
  {
    var sent := ForPeer(items, multi);
    got := DecodeAll(env.unpack, EncodeAll(env.pack, sent));
    ForPeerSupported(items, multi);
    ListRoundTrip(env.pack, env.unpack, sent);
    assert sent == [] <==> Travelling(items) == [];
  }

  lemma SameFront<T>(a: seq<T>, b: seq<T>, x: T)
    ensures a + [x] == b + [x] <==> a == b
  {
    assert (a + [x])[..|a|] == a && (b + [x])[..|b|] == b;
  }

  /**
   From one clipboard to the other.  A user's copy, a required notification and the delivery of
   the message it sends, whatever happens in between: the peer's clipboard then holds what of
   the copy can travel, in order, and one marker, if and only if all of it fits the wire format.
   */
  lemma CopyArrives(
      env: Env, w: World, s: Side, items: seq<Item>, notices: nat, multi: bool, later: World, k: nat, more: nat)
    requires Undoes(env.unpack, env.pack) && At(w, s).pending + notices > 0
    requires !Marked(items) && !FilesApart(env, items) && Travelling(items) != []
    ensures Enabled(w, UserCopy(s, items, notices))
    ensures var copied := Step(env, w, UserCopy(s, items, notices));
      var sent := Step(env, copied, Notify(s, true, multi));
      |sent.log| == |w.log| + 1 && At(sent, Other(s)).inbox == At(w, Other(s)).inbox + [sent.log[|w.log|].clips] &&
      (k < |At(later, Other(s)).inbox| && At(later, Other(s)).inbox[k] == sent.log[|w.log|].clips ==>
        var got := At(Step(env, later, Deliver(Other(s), k, true, true, more)), Other(s)).clip;
        got == ForPeer(items, multi) + [Marker(Other(s))] <==> AllFit(env.pack, ForPeer(items, multi)))
  {
    OwnedMeaning(items);
    var copied := Step(env, w, UserCopy(s, items, notices));
    TravellingSupported(items);
    assert Travelling(items)[0] in items;
    assert Worth(items);
    NotifyMeaning(env, copied, s, true, multi);
    var sent := Step(env, copied, Notify(s, true, multi));
    if k < |At(later, Other(s)).inbox| && At(later, Other(s)).inbox[k] == sent.log[|w.log|].clips {
      DeliverMeaning(env, later, Other(s), k, true, true, more, items, multi);
    }
  }

  // ----- How long it takes to fall silent -----

  function Weight(m: Machine, bound: nat): nat {
    m.pending * (if Owned(m.clip) then 1 else bound + 2) + |m.inbox| * (bound + 1)
  }

  /** Pending notifications, more on machines whose content is their user's, and messages in flight. */
  function Activity(w: World, bound: nat): nat {
    Weight(w.host, bound) + Weight(w.client, bound)
  }

  /** A notification or a delivery that causes at most `bound` further notifications. */
  predicate Internal(e: Event, bound: nat) {
    e.Notify? || (e.Deliver? && e.notices <= bound)
  }

  lemma Scale(a: nat, b: nat, k: nat)
    ensures (a + b) * k == a * k + b * k
  {
  }

  lemma NotifyLowers(env: Env, w: World, s: Side, required: bool, multi: bool, bound: nat)
    requires At(w, s).pending > 0
    ensures Activity(DoNotify(env, w, s, required, multi), bound) < Activity(w, bound)
  {
    var m := At(w, s);
    var unit := if Owned(m.clip) then 1 else bound + 2;
    Scale(m.pending - 1, 1, unit);
    Scale(|At(w, Other(s)).inbox|, 1, bound + 1);
  }

  lemma DeliverLowers(env: Env, w: World, s: Side, k: nat, accepted: bool, written: bool, notices: nat, bound: nat)
    requires k < |At(w, s).inbox| && notices <= bound
    ensures Activity(DoDeliver(env, w, s, k, accepted, written, notices), bound) < Activity(w, bound)
  {
    var m := At(w, s);
    ReceivedIsOwned(env, s, m.inbox[k]);
    DeliveryWeight(m.pending, notices, |m.inbox|, if Owned(m.clip) then 1 else bound + 2, bound);
  }

  lemma DeliveryWeight(pending: nat, notices: nat, inbox: nat, unit: nat, bound: nat)
    requires unit > 0 && notices <= bound && inbox > 0
    ensures (pending + notices) * 1 + (inbox - 1) * (bound + 1) < pending * unit + inbox * (bound + 1)
    ensures pending * unit + (inbox - 1) * (bound + 1) < pending * unit + inbox * (bound + 1)
  {
    Scale(inbox - 1, 1, bound + 1);
    MulAtLeast(pending, unit);
  }

  lemma MulAtLeast(a: nat, b: nat)
    requires b > 0
    ensures a * b >= a
  {
  }

  lemma InternalLowers(env: Env, w: World, e: Event, bound: nat)
    requires Enabled(w, e) && Internal(e, bound)
    ensures Activity(Step(env, w, e), bound) < Activity(w, bound)
  {
    match e
    case Notify(s, required, multi) => NotifyLowers(env, w, s, required, multi, bound);
    case Deliver(s, k, accepted, written, n) => DeliverLowers(env, w, s, k, accepted, written, n, bound);
  }

  /**
   The protocol goes quiet.  Without further copies and connections, when each change of
   a clipboard raises at most `bound` notifications, no run is longer than the activity
   it starts with.
   */
  lemma {:induction false} GoesQuiet(env: Env, ws: seq<World>, es: seq<Event>, bound: nat)
    requires Runs(env, ws, es)
    requires forall i :: 0 <= i < |es| ==> Internal(es[i], bound)
    ensures |es| + Activity(ws[|es|], bound) <= Activity(ws[0], bound)
  {
    if es != [] {
      var n := |es| - 1;
      GoesQuiet(env, ws[..|es|], es[..n], bound);
      InternalLowers(env, ws[n], es[n], bound);
    }
  }

  /** Silence is exactly the absence of notifications and messages: then no internal step is possible. */
  lemma QuietMeansDone(w: World, bound: nat)
    ensures Activity(w, bound) == 0 <==>
      forall s: Side :: At(w, s).pending == 0 && At(w, s).inbox == []
    ensures Activity(w, bound) == 0 ==> forall e :: Internal(e, bound) ==> !Enabled(w, e)
  {
    WeightZero(w.host, bound);
    WeightZero(w.client, bound);
    assert At(w, Host) == w.host && At(w, Client) == w.client;
  }

  lemma WeightZero(m: Machine, bound: nat)
    ensures Weight(m, bound) == 0 <==> m.pending == 0 && m.inbox == []
  {
    if m.pending > 0 {
      Scale(m.pending - 1, 1, if Owned(m.clip) then 1 else bound + 2);
    }
    if m.inbox != [] {
      Scale(|m.inbox| - 1, 1, bound + 1);
    }
  }

  // ----- The operations as the program runs them -----

  /** The clipboard of a machine and the cached message. */
  class Clipboard {
    var clip: seq<Item>
    var cache: seq<Clip>

    constructor (items: seq<Item>)
      ensures clip == items && cache == []
    {
      clip := items;
      cache := [];
    }

    method FindOwnerMarker() returns (found: bool)
      ensures found <==> Owned(clip)
      ensures found <==> Marked(clip)
    {
      OwnedMeaning(clip);
      for i := 0 to |clip|
        invariant forall j :: 0 <= j < i ==> !(IsMarker(clip[j]) && IsOwner(clip[j].data))
      {
        if IsMarker(clip[i]) && IsOwner(clip[i].data) {
          return true;
        }
      }
      return false;
    }

    /** Reads the content; a message found is cached. */
    method CheckClipboard(env: Env, force: bool) returns (msg: Option<seq<Clip>>)
      modifies this`cache
      ensures msg == Checked(env, clip, force)
      ensures cache == if msg.Some? then msg.value else old(cache)
    {
      var owned := FindOwnerMarker();
      if clip == [] || (!force && owned) {
        return None;
      }
      var content := Filtered(clip);
      if env.files && (exists i :: 0 <= i < |content| && content[i].FileUrl?) {
        return None;
      }
      if content == [] {
        return None;
      }
      cache := EncodeAll(env.pack, content);
      return Some(cache);
    }

    /** Writes a received message, with the marker of this side, unless nothing of it can be read. */
    method UpdateClipboard(env: Env, s: Side, clips: seq<Clip>, written: bool)
      modifies this`clip
      ensures clip == if DecodeAll(env.unpack, clips) != [] && written then Received(env, s, clips) else old(clip)
      ensures written && DecodeAll(env.unpack, clips) != [] ==> clip == DecodeAll(env.unpack, clips) + [Marker(s)]
    {
      var data := DecodeAll(env.unpack, clips);
      if data == [] {
        return;
      }
      data := data + [Special(OWNER, OwnerData(s))];
      if written {
        clip := data;
      }
    }

    /** The message for a new connection. */
    method CurrentMessage(env: Env, multi: bool) returns (msg: seq<Clip>)
      modifies this`cache
      ensures cache == if old(cache) == [] then EncodeAll(env.pack, Get(env, clip, true)) else old(cache)
      ensures msg == if multi then cache else FirstText(cache)
    {
      if cache == [] {
        cache := EncodeAll(env.pack, Get(env, clip, true));
      }
      msg := if multi then cache else FirstText(cache);
    }
  }
}
