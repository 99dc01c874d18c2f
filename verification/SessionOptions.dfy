/**
 The toggles of a client session.  Each toggle sends a small message with what changed;
 at login the whole configuration is sent.  The question is whether a peer that has
 followed the small messages stands where a full one would put it.
 */
module SessionOptions {
  import opened Prelude
  import opened Text

  datatype Flag =
    | ShowRemoteCursor | FollowRemoteCursor | FollowRemoteWindow | DisableAudio | DisableClipboard
    | LockAfterSessionEnd | TerminalPersistent | PrivacyMode | FileCopyPaste | QualityMonitor | SwapKey
    | ViewOnly | ShowMyCursor

  datatype Field =
    | RemoteCursorField | MyCursorField | FollowCursorField | FollowWindowField | AudioField | ClipboardField
    | LockField | FilesField | KeyboardField | TerminalField | PrivacyField | BlockInputField

  /** The fields that a message sets, to Yes or No; the others are unchanged by it. */
  type OptionMessage = map<Field, bool>

  datatype ConnType = DefaultConn | FileTransfer | PortForward | Rdp | ViewCamera | Terminal

  /** A stored peer configuration: the flags that are on, the free-form options, and the image quality. */
  datatype Config = Config(
    flags: set<Flag>, options: map<string, string>, imageQuality: string, customImageQuality: seq<int>)

  /** The handler: its peer, the configuration in memory, what is stored, and what a missing file stands for. */
  datatype Handler = Handler(id: string, conn: ConnType, config: Config, store: map<string, Config>, missing: Config)

  const NOSTR := "nostr-webrtc://"

  function TrimNostr(id: string): string {
    if StartsWith(id, NOSTR) then TrimNostr(id[|NOSTR|..]) else id
  }

  /** The name under which a configuration is looked up. */
  function ConfigId(id: string): string {
    if StartsWith(id, NOSTR) then Split(TrimNostr(id), "?")[0] else id
  }

  function LoadConfig(h: Handler): Config {
    var key := ConfigId(h.id);
    if key in h.store then h.store[key] else h.missing
  }

  /** A configuration is stored under the peer's full id. */
  function SaveConfig(h: Handler, c: Config): Handler {
    h.(config := c, store := h.store[h.id := c])
  }

  function Flip(c: Config, f: Flag): Config {
    c.(flags := if f in c.flags then c.flags - {f} else c.flags + {f})
  }

  function FlagOf(name: string): Option<Flag> {
    if name == "show-remote-cursor" then Some(ShowRemoteCursor)
    else if name == "lock-after-session-end" then Some(LockAfterSessionEnd)
    else if name == "terminal-persistent" then Some(TerminalPersistent)
    else if name == "privacy-mode" then Some(PrivacyMode)
    else if name == "enable-file-copy-paste" then Some(FileCopyPaste)
    else if name == "disable-audio" then Some(DisableAudio)
    else if name == "disable-clipboard" then Some(DisableClipboard)
    else if name == "show-quality-monitor" then Some(QualityMonitor)
    else if name == "allow_swap_key" then Some(SwapKey)
    else if name == "view-only" then Some(ViewOnly)
    else if name == "show-my-cursor" then Some(ShowMyCursor)
    else if name == "follow-remote-cursor" then Some(FollowRemoteCursor)
    else if name == "follow-remote-window" then Some(FollowRemoteWindow)
    else None
  }

  function GetToggleOption(h: Handler, name: string): bool {
    match FlagOf(name)
    case Some(f) => f in h.config.flags
    case None => name in h.config.options && h.config.options[name] != ""
  }

  /** The names of the flags that the login message asks about. */
  lemma FlagNames()
    ensures FlagOf("show-remote-cursor") == Some(ShowRemoteCursor)
    ensures FlagOf("lock-after-session-end") == Some(LockAfterSessionEnd)
    ensures FlagOf("terminal-persistent") == Some(TerminalPersistent)
    ensures FlagOf("enable-file-copy-paste") == Some(FileCopyPaste)
    ensures FlagOf("disable-audio") == Some(DisableAudio)
    ensures FlagOf("disable-clipboard") == Some(DisableClipboard)
    ensures FlagOf("view-only") == Some(ViewOnly)
    ensures FlagOf("show-my-cursor") == Some(ShowMyCursor)
    ensures FlagOf("follow-remote-cursor") == Some(FollowRemoteCursor)
    ensures FlagOf("follow-remote-window") == Some(FollowRemoteWindow)
  {
  }

  /** The message field of a flag that is simply reported. */
  function FieldOf(f: Flag): Option<Field> {
    match f
    case ShowRemoteCursor => Some(RemoteCursorField)
    case FollowRemoteCursor => Some(FollowCursorField)
    case FollowRemoteWindow => Some(FollowWindowField)
    case DisableAudio => Some(AudioField)
    case DisableClipboard => Some(ClipboardField)
    case LockAfterSessionEnd => Some(LockField)
    case TerminalPersistent => Some(TerminalField)
    case FileCopyPaste => Some(FilesField)
    case ShowMyCursor => Some(MyCursorField)
    case _ => None
  }

  /** What a toggle's name asks for. */
  datatype Command = BlockInput(on: bool) | FlagCommand(flag: Flag) | Free(name: string)

  function CommandOf(name: string): Command {
    if name == "block-input" then BlockInput(true)
    else if name == "unblock-input" then BlockInput(false)
    else match FlagOf(name) case Some(f) => FlagCommand(f) case None => Free(name)
  }

  /** What turning view-only on overrides, or turning it off restores from the given flags. */
  function ViewMessage(on: bool, flags: set<Flag>): OptionMessage {
    if on then
      map[KeyboardField := true, ClipboardField := true, RemoteCursorField := true, FilesField := false,
          LockField := false]
    else
      map[KeyboardField := false, ClipboardField := DisableClipboard in flags,
          RemoteCursorField := ShowRemoteCursor in flags,
          FilesField := FileCopyPaste in flags, LockField := LockAfterSessionEnd in flags]
  }

  /** Turning view-only off also hides the own cursor. */
  function ToggleViewOnly(h: Handler): (Handler, OptionMessage) {
    var c := Flip(LoadConfig(h), ViewOnly);
    var m := ViewMessage(ViewOnly in c.flags, h.config.flags);
    if ViewOnly !in c.flags && ShowMyCursor in c.flags then
      (SaveConfig(h, Flip(c, ShowMyCursor)), m[MyCursorField := false])
    else (SaveConfig(h, c), m)
  }

  /** A name without a flag toggles a free-form option, and only locally. */
  function ToggleFree(h: Handler, name: string): Handler {
    var isSet := name in h.config.options && h.config.options[name] != "";
    SaveConfig(h, h.config.(options := if isSet then h.config.options - {name} else h.config.options[name := "Y"]))
  }

  function Obey(h: Handler, cmd: Command): (Handler, Option<OptionMessage>) {
    match cmd
    case BlockInput(on) => (h, Some(map[BlockInputField := on]))
    case Free(name) => (ToggleFree(h, name), None)
    case FlagCommand(ViewOnly) => var (h', m) := ToggleViewOnly(h); (h', Some(m))
    case FlagCommand(PrivacyMode) =>
      var c := LoadConfig(h);
      (SaveConfig(h, c), Some(map[PrivacyField := PrivacyMode !in c.flags]))
    case FlagCommand(f) =>
      var c := Flip(LoadConfig(h), f);
      (SaveConfig(h, c), Some(match FieldOf(f) case None => map[] case Some(field) => map[field := f in c.flags]))
  }

  function Toggle(h: Handler, name: string): (Handler, Option<OptionMessage>) {
    Obey(h, CommandOf(name))
  }

  /** The fields that the login message of a desktop or camera session speaks for. */
  const SHARED: set<Field> :=
    {RemoteCursorField, MyCursorField, FollowCursorField, FollowWindowField, AudioField, ClipboardField,
     LockField, FilesField, KeyboardField}

  /** What the login message wants of each field. */
  predicate Wanted(on: set<Flag>, f: Field) {
    match f
    case KeyboardField => ViewOnly in on
    case RemoteCursorField => ViewOnly in on || ShowRemoteCursor in on
    case MyCursorField => ViewOnly in on && ShowMyCursor in on
    case FollowCursorField => FollowRemoteCursor in on
    case FollowWindowField => FollowRemoteWindow in on
    case LockField => ViewOnly !in on && LockAfterSessionEnd in on
    case AudioField => DisableAudio in on
    case FilesField => ViewOnly !in on && FileCopyPaste in on
    case ClipboardField => ViewOnly in on || DisableClipboard in on
    case _ => false
  }

  /** What the login message says about the toggles; only Yes is ever said. */
  function Snapshot(h: Handler): Option<OptionMessage> {
    if h.conn in {PortForward, Rdp, FileTransfer} then None
    else if h.conn == Terminal then
      if TerminalPersistent in h.config.flags then Some(map[TerminalField := true]) else None
    else Some(map f: Field | f in SHARED && Wanted(h.config.flags, f) :: true)
  }

  /** The options a peer holds, by the fields that are Yes. */
  type Remote = set<Field>

  function Apply(r: Remote, m: OptionMessage): Remote {
    (set f: Field | f in r && f !in m) + (set f: Field | f in m && m[f])
  }

  function ApplyOption(r: Remote, m: Option<OptionMessage>): Remote {
    if m.None? then r else Apply(r, m.value)
  }

  /** The peer stands where the full message would put a fresh one. */
  ghost predicate Agrees(h: Handler, r: Remote) {
    forall f :: f in SHARED ==> (f in r <==> f in ApplyOption({}, Snapshot(h)))
  }

  ghost predicate Desktop(h: Handler) {
    (h.conn == DefaultConn || h.conn == ViewCamera) && LoadConfig(h) == h.config
  }

  predicate InStep(on: set<Flag>, r: Remote, f: Field) {
    f in r <==> Wanted(on, f)
  }

  ghost predicate AllInStep(on: set<Flag>, r: Remote) {
    forall f :: f in SHARED ==> InStep(on, r, f)
  }

  lemma AgreesMeaning(h: Handler, r: Remote)
    requires h.conn == DefaultConn || h.conn == ViewCamera
    ensures Agrees(h, r) <==> AllInStep(h.config.flags, r)
  {
    var m := Snapshot(h).value;
    assert forall f :: f in SHARED ==> (f in Apply({}, m) <==> Wanted(h.config.flags, f));
  }

  /** When a toggle can be sent on its own without the peer losing track. */
  predicate Harmless(on: set<Flag>, cmd: Command) {
    match cmd
    case FlagCommand(ShowRemoteCursor) => ViewOnly in on ==> ShowRemoteCursor !in on
    case FlagCommand(DisableClipboard) => ViewOnly in on ==> DisableClipboard !in on
    case FlagCommand(LockAfterSessionEnd) => ViewOnly in on ==> LockAfterSessionEnd in on
    case FlagCommand(FileCopyPaste) => ViewOnly in on ==> FileCopyPaste in on
    case FlagCommand(ShowMyCursor) => ViewOnly in on || ShowMyCursor in on
    case FlagCommand(ViewOnly) => ViewOnly in on || ShowMyCursor !in on
    case _ => true
  }

  lemma ApplyMeaning(r: Remote, m: OptionMessage, f: Field)
    ensures f in Apply(r, m) <==> if f in m then m[f] else f in r
  {
  }

  /** A reported flag can only put its own field out of step. */
  lemma ReportedToggle(on: set<Flag>, r: Remote, flag: Flag, f: Field)
    requires AllInStep(on, r) && f in SHARED
    requires FieldOf(flag).Some?
    ensures var on' := if flag in on then on - {flag} else on + {flag};
      InStep(on', Apply(r, map[FieldOf(flag).value := flag in on']), f) <==>
      (f == FieldOf(flag).value ==> Harmless(on, FlagCommand(flag)))
  {
    var on' := if flag in on then on - {flag} else on + {flag};
    ApplyMeaning(r, map[FieldOf(flag).value := flag in on'], f);
    assert InStep(on, r, f);
  }

  lemma ReportedToggles(on: set<Flag>, r: Remote, flag: Flag)
    requires AllInStep(on, r) && FieldOf(flag).Some?
    ensures var on' := if flag in on then on - {flag} else on + {flag};
      AllInStep(on', Apply(r, map[FieldOf(flag).value := flag in on'])) <==> Harmless(on, FlagCommand(flag))
  {
    var on' := if flag in on then on - {flag} else on + {flag};
    var r' := Apply(r, map[FieldOf(flag).value := flag in on']);
    forall f | f in SHARED
      ensures InStep(on', r', f) <==> (f == FieldOf(flag).value ==> Harmless(on, FlagCommand(flag)))
    {
      ReportedToggle(on, r, flag, f);
    }
    assert FieldOf(flag).value in SHARED || Harmless(on, FlagCommand(flag));
  }

  lemma ViewOn(on: set<Flag>, r: Remote)
    requires AllInStep(on, r) && ViewOnly !in on
    ensures AllInStep(on + {ViewOnly}, Apply(r, ViewMessage(true, on))) <==> ShowMyCursor !in on
  {
    var r' := Apply(r, ViewMessage(true, on));
    forall f | f in SHARED ensures InStep(on + {ViewOnly}, r', f) <==> (f == MyCursorField ==> ShowMyCursor !in on) {
      ApplyMeaning(r, ViewMessage(true, on), f);
      assert InStep(on, r, f);
    }
    assert MyCursorField in SHARED;
  }

  lemma ViewOff(on: set<Flag>, r: Remote)
    requires AllInStep(on, r) && ViewOnly in on
    ensures ShowMyCursor in on ==>
      AllInStep(on - {ViewOnly} - {ShowMyCursor}, Apply(r, ViewMessage(false, on)[MyCursorField := false]))
    ensures ShowMyCursor !in on ==> AllInStep(on - {ViewOnly}, Apply(r, ViewMessage(false, on)))
  {
    forall f | f in SHARED
      ensures ShowMyCursor in on ==>
        InStep(on - {ViewOnly} - {ShowMyCursor}, Apply(r, ViewMessage(false, on)[MyCursorField := false]), f)
      ensures ShowMyCursor !in on ==> InStep(on - {ViewOnly}, Apply(r, ViewMessage(false, on)), f)
    {
      ApplyMeaning(r, ViewMessage(false, on)[MyCursorField := false], f);
      ApplyMeaning(r, ViewMessage(false, on), f);
      assert InStep(on, r, f);
    }
  }

  lemma UnsharedMessage(on: set<Flag>, r: Remote, m: OptionMessage)
    requires AllInStep(on, r) && m.Keys !! SHARED
    ensures AllInStep(on, Apply(r, m))
  {
    forall f | f in SHARED ensures InStep(on, Apply(r, m), f) {
      ApplyMeaning(r, m, f);
      assert InStep(on, r, f);
    }
  }

  lemma SilentFlags(on: set<Flag>, r: Remote, flag: Flag)
    requires AllInStep(on, r) && flag in {QualityMonitor, SwapKey}
    ensures AllInStep(on - {flag}, r) && AllInStep(on + {flag}, r)
  {
    forall f | f in SHARED ensures InStep(on - {flag}, r, f) && InStep(on + {flag}, r, f) {
      assert InStep(on, r, f);
    }
  }

  lemma ViewKeepsStep(h: Handler, r: Remote)
    requires Desktop(h) && AllInStep(h.config.flags, r)
    ensures var (h', m) := ToggleViewOnly(h);
      AllInStep(h'.config.flags, Apply(r, m)) <==> Harmless(h.config.flags, FlagCommand(ViewOnly))
  {
    var on := h.config.flags;
    if ViewOnly in on {
      ViewOff(on, r);
    } else {
      ViewOn(on, r);
    }
  }

  lemma FlagKeepsStep(h: Handler, r: Remote, flag: Flag)
    requires Desktop(h) && AllInStep(h.config.flags, r) && flag != ViewOnly && flag != PrivacyMode
    ensures var (h', m) := Obey(h, FlagCommand(flag));
      AllInStep(h'.config.flags, ApplyOption(r, m)) <==> Harmless(h.config.flags, FlagCommand(flag))
  {
    var on := h.config.flags;
    if FieldOf(flag).Some? {
      ReportedToggles(on, r, flag);
    } else {
      SilentFlags(on, r, flag);
      UnsharedMessage(if flag in on then on - {flag} else on + {flag}, r, map[]);
    }
  }

  lemma CommandKeepsStep(h: Handler, r: Remote, cmd: Command)
    requires Desktop(h) && AllInStep(h.config.flags, r)
    ensures var (h', m) := Obey(h, cmd);
      AllInStep(h'.config.flags, ApplyOption(r, m)) <==> Harmless(h.config.flags, cmd)
  {
    match cmd
    case BlockInput(b) => UnsharedMessage(h.config.flags, r, map[BlockInputField := b]);
    case Free(_) =>
    case FlagCommand(flag) =>
      if flag == ViewOnly {
        ViewKeepsStep(h, r);
      } else if flag == PrivacyMode {
        UnsharedMessage(h.config.flags, r, map[PrivacyField := PrivacyMode !in h.config.flags]);
      } else {
        FlagKeepsStep(h, r, flag);
      }
  }

  /** A toggle keeps a peer in step exactly when it is harmless. */
  lemma ToggleKeepsStep(h: Handler, r: Remote, name: string)
    requires Desktop(h) && Agrees(h, r)
    ensures var (h', m) := Toggle(h, name);
      Agrees(h', ApplyOption(r, m)) <==> Harmless(h.config.flags, CommandOf(name))
  {
    AgreesMeaning(h, r);
    CommandKeepsStep(h, r, CommandOf(name));
    AgreesMeaning(Toggle(h, name).0, ApplyOption(r, Toggle(h, name).1));
  }

  /** What is stored under a plain id is what is loaded again. */
  lemma PlainIdReloads(h: Handler, cmd: Command)
    requires Desktop(h) && !StartsWith(h.id, NOSTR)
    ensures Desktop(Obey(h, cmd).0) && Obey(h, cmd).0.id == h.id
  {
  }

  // ----- What one toggle does -----

  /** The field in which a name is reported, beside those with messages of their own. */
  const FIELDS: map<string, Field> := map[
    "show-remote-cursor" := RemoteCursorField, "follow-remote-cursor" := FollowCursorField,
    "follow-remote-window" := FollowWindowField, "disable-audio" := AudioField,
    "disable-clipboard" := ClipboardField, "lock-after-session-end" := LockField,
    "terminal-persistent" := TerminalField, "enable-file-copy-paste" := FilesField,
    "show-my-cursor" := MyCursorField]

  lemma FieldsByName(name: string)
    ensures FlagOf(name).Some? ==>
      FieldOf(FlagOf(name).value) == if name in FIELDS then Some(FIELDS[name]) else None
    ensures FlagOf(name) == Some(ViewOnly) <==> name == "view-only"
    ensures FlagOf(name) == Some(PrivacyMode) <==> name == "privacy-mode"
    ensures FlagOf(name) == Some(ShowMyCursor) <==> name == "show-my-cursor"
  {
  }

  function NameOf(f: Flag): string {
    match f
    case ShowRemoteCursor => "show-remote-cursor"
    case FollowRemoteCursor => "follow-remote-cursor"
    case FollowRemoteWindow => "follow-remote-window"
    case DisableAudio => "disable-audio"
    case DisableClipboard => "disable-clipboard"
    case LockAfterSessionEnd => "lock-after-session-end"
    case TerminalPersistent => "terminal-persistent"
    case PrivacyMode => "privacy-mode"
    case FileCopyPaste => "enable-file-copy-paste"
    case QualityMonitor => "show-quality-monitor"
    case SwapKey => "allow_swap_key"
    case ViewOnly => "view-only"
    case ShowMyCursor => "show-my-cursor"
  }

  lemma NameOfFlag(f: Flag)
    ensures FlagOf(NameOf(f)) == Some(f)
  {
  }

  lemma FlagOfName(name: string)
    ensures FlagOf(name).Some? ==> name == NameOf(FlagOf(name).value)
  {
  }

  /** What a flag command does to the flags, and to the message unless that is its own. */
  lemma FlagCommandMeaning(h: Handler, f: Flag)
    requires Desktop(h) && f != PrivacyMode
    ensures var (h', m) := Obey(h, FlagCommand(f));
      && (f in h'.config.flags <==> f !in h.config.flags)
      && (forall g :: g != f ==>
        (g in h'.config.flags <==>
         g in h.config.flags && !(f == ViewOnly && g == ShowMyCursor && ViewOnly in h.config.flags)))
      && h'.config.options == h.config.options && RestStays(h, h') && h'.store == h.store[h.id := h'.config]
      && (f != ViewOnly ==>
        m == Some(match FieldOf(f) case None => map[] case Some(g) => map[g := f in h'.config.flags]))
  {
  }

  ghost predicate Same(h: Handler, h': Handler, name: string) {
    GetToggleOption(h', name) == GetToggleOption(h, name)
  }

  /** What was configured beside flags and options stays. */
  ghost predicate RestStays(h: Handler, h': Handler) {
    && h'.id == h.id && h'.conn == h.conn && h'.missing == h.missing
    && h'.config.imageQuality == h.config.imageQuality
    && h'.config.customImageQuality == h.config.customImageQuality
  }

  /** An option without a flag changes its own answer and nothing else, and the peer does not hear of it. */
  lemma FreeToggle(h: Handler, name: string)
    requires FlagOf(name).None? && name !in {"block-input", "unblock-input"}
    ensures var (h', m) := Toggle(h, name);
      && m == None
      && GetToggleOption(h', name) == !GetToggleOption(h, name)
      && (forall other :: other != name ==>
        && Same(h, h', other) && (other in h'.config.options <==> other in h.config.options)
        && (other in h.config.options ==> h'.config.options[other] == h.config.options[other]))
      && h'.config.flags == h.config.flags && RestStays(h, h') && h'.store == h.store[h.id := h'.config]
  {
  }

  /** Toggling such an option twice restores it exactly if it was unset or "Y". */
  lemma FreeToggleTwice(h: Handler, name: string)
    requires FlagOf(name).None? && name !in {"block-input", "unblock-input"}
    ensures Toggle(Toggle(h, name).0, name).0.config == h.config <==>
      name !in h.config.options || h.config.options[name] == "Y"
  {
    var c := Toggle(Toggle(h, name).0, name).0.config;
    if name !in h.config.options || h.config.options[name] == "Y" {
      assert c.options == h.config.options;
    } else if h.config.options[name] == "" {
      assert name !in c.options;
    } else {
      assert c.options[name] == "Y";
    }
  }

  /** Blocking the peer's input is no setting: the command goes out and nothing is kept. */
  lemma BlockInputToggle(h: Handler)
    ensures Toggle(h, "block-input") == (h, Some(map[BlockInputField := true]))
    ensures Toggle(h, "unblock-input") == (h, Some(map[BlockInputField := false]))
  {
  }

  /** Privacy mode is only asked for, as the opposite of what is configured. */
  lemma PrivacyToggle(h: Handler)
    requires Desktop(h)
    ensures var (h', m) := Toggle(h, "privacy-mode");
      && m == Some(map[PrivacyField := !GetToggleOption(h, "privacy-mode")])
      && h'.config == h.config && h'.store == h.store[h.id := h.config]
  {
    FieldsByName("privacy-mode");
  }

  /**
   A flag changes its own answer and, when view-only goes off, that of the own cursor; it is
   stored, and its message says in its field what it is now.
   */
  lemma FlagToggle(h: Handler, name: string)
    requires Desktop(h) && FlagOf(name).Some? && name != "privacy-mode"
    ensures var (h', m) := Toggle(h, name);
      && GetToggleOption(h', name) == !GetToggleOption(h, name)
      && (forall other :: other != name && FlagOf(other).Some? ==>
        if name == "view-only" && other == "show-my-cursor" && GetToggleOption(h, name) then !GetToggleOption(h', other)
        else Same(h, h', other))
      && h'.config.options == h.config.options && RestStays(h, h') && h'.store == h.store[h.id := h'.config]
      && (name != "view-only" ==>
        m == Some(if name in FIELDS then map[FIELDS[name] := GetToggleOption(h', name)] else map[]))
  {
    var f := FlagOf(name).value;
    FieldsByName(name);
    FlagOfName(name);
    NoBlockInput(name);
    FlagCommandMeaning(h, f);
    var h' := Toggle(h, name).0;
    forall other | other != name && FlagOf(other).Some?
      ensures if name == "view-only" && other == "show-my-cursor" && GetToggleOption(h, name)
              then !GetToggleOption(h', other) else Same(h, h', other)
    {
      FieldsByName(other);
      FlagOfName(other);
      assert FlagOf(other) != Some(f);
    }
  }

  lemma NoBlockInput(name: string)
    requires FlagOf(name).Some?
    ensures CommandOf(name) == FlagCommand(FlagOf(name).value)
  {
  }

  // ----- Whole sessions -----

  function After(h: Handler, names: seq<string>): Handler {
    if names == [] then h else Toggle(After(h, names[..|names| - 1]), names[|names| - 1]).0
  }

  function RemoteAfter(h: Handler, r: Remote, names: seq<string>): Remote {
    if names == [] then r
    else
      var n := |names| - 1;
      ApplyOption(RemoteAfter(h, r, names[..n]), Toggle(After(h, names[..n]), names[n]).1)
  }

  lemma {:induction false} SessionReloads(h: Handler, names: seq<string>)
    requires Desktop(h) && !StartsWith(h.id, NOSTR)
    ensures Desktop(After(h, names)) && After(h, names).id == h.id
  {
    if names != [] {
      SessionReloads(h, names[..|names| - 1]);
      PlainIdReloads(After(h, names[..|names| - 1]), CommandOf(names[|names| - 1]));
    }
  }

  /** In step at the start and after every toggle. */
  ghost predicate AlwaysAgrees(h: Handler, r: Remote, names: seq<string>) {
    && Agrees(After(h, names), RemoteAfter(h, r, names))
    && (names != [] ==> AlwaysAgrees(h, r, names[..|names| - 1]))
  }

  /** Every toggle is harmless where it happens. */
  predicate AlwaysHarmless(h: Handler, names: seq<string>) {
    names != [] ==>
      var front := names[..|names| - 1];
      Harmless(After(h, front).config.flags, CommandOf(names[|names| - 1])) && AlwaysHarmless(h, front)
  }

  /**
   A peer that starts in step stays in step after every toggle of a session if and only
   if every toggle of the session is harmless where it happens.
   */
  lemma {:induction false} SessionStaysInStep(h: Handler, r: Remote, names: seq<string>)
    requires Desktop(h) && !StartsWith(h.id, NOSTR) && Agrees(h, r)
    ensures AlwaysAgrees(h, r, names) <==> AlwaysHarmless(h, names)
  {
    if names != [] {
      var front := names[..|names| - 1];
      SessionStaysInStep(h, r, front);
      SessionReloads(h, front);
      if AlwaysAgrees(h, r, front) {
        ToggleKeepsStep(After(h, front), RemoteAfter(h, r, front), names[|names| - 1]);
      }
    }
  }

  /** A session that leaves alone what view-only overrides while it is on, and its own cursor while it is off. */
  predicate Careful(on: set<Flag>, cmd: Command) {
    match cmd
    case FlagCommand(ShowRemoteCursor) => ViewOnly !in on
    case FlagCommand(DisableClipboard) => ViewOnly !in on
    case FlagCommand(LockAfterSessionEnd) => ViewOnly !in on
    case FlagCommand(FileCopyPaste) => ViewOnly !in on
    case FlagCommand(ShowMyCursor) => ViewOnly in on
    case _ => true
  }

  lemma CarefulStep(h: Handler, cmd: Command)
    requires Desktop(h) && (ViewOnly !in h.config.flags ==> ShowMyCursor !in h.config.flags)
    requires Careful(h.config.flags, cmd)
    ensures Harmless(h.config.flags, cmd)
    ensures var on := Obey(h, cmd).0.config.flags; ViewOnly !in on ==> ShowMyCursor !in on
  {
  }

  predicate AlwaysCareful(h: Handler, names: seq<string>) {
    names != [] ==>
      var front := names[..|names| - 1];
      Careful(After(h, front).config.flags, CommandOf(names[|names| - 1])) && AlwaysCareful(h, front)
  }

  /** In a careful session the peer is always in step. */
  lemma {:induction false} CarefulSession(h: Handler, r: Remote, names: seq<string>)
    requires Desktop(h) && !StartsWith(h.id, NOSTR) && Agrees(h, r)
    requires ViewOnly !in h.config.flags ==> ShowMyCursor !in h.config.flags
    requires AlwaysCareful(h, names)
    ensures AlwaysHarmless(h, names) && AlwaysAgrees(h, r, names)
    ensures var on := After(h, names).config.flags; ViewOnly !in on ==> ShowMyCursor !in on
  {
    if names != [] {
      var front := names[..|names| - 1];
      CarefulSession(h, r, front);
      SessionReloads(h, front);
      CarefulStep(After(h, front), CommandOf(names[|names| - 1]));
    }
    SessionStaysInStep(h, r, names);
  }

  /** A terminal session has one setting, and its peer never loses track of it. */
  lemma {:induction false} TerminalStaysInStep(h: Handler, r: Remote, names: seq<string>)
    requires h.conn == Terminal && LoadConfig(h) == h.config && !StartsWith(h.id, NOSTR)
    requires TerminalField in r <==> TerminalField in ApplyOption({}, Snapshot(h))
    ensures var t := After(h, names);
      && t.conn == Terminal && t.id == h.id && LoadConfig(t) == t.config
      && (TerminalField in RemoteAfter(h, r, names) <==> TerminalField in ApplyOption({}, Snapshot(t)))
  {
    if names != [] {
      var front, last := names[..|names| - 1], names[|names| - 1];
      TerminalStaysInStep(h, r, front);
      TerminalToggle(After(h, front), RemoteAfter(h, r, front), CommandOf(last));
    }
  }

  lemma TerminalToggle(h: Handler, r: Remote, cmd: Command)
    requires h.conn == Terminal && LoadConfig(h) == h.config && !StartsWith(h.id, NOSTR)
    requires TerminalField in r <==> TerminalPersistent in h.config.flags
    ensures var (h', m) := Obey(h, cmd);
      && h'.conn == Terminal && h'.id == h.id && LoadConfig(h') == h'.config
      && (TerminalField in ApplyOption(r, m) <==> TerminalPersistent in h'.config.flags)
  {
    var (h', m) := Obey(h, cmd);
    match cmd
    case FlagCommand(f) =>
      ApplyMeaning(r, m.value, TerminalField);
      TerminalFlag(h, f);
    case BlockInput(_) =>
      ApplyMeaning(r, m.value, TerminalField);
    case Free(_) =>
  }

  lemma TerminalFlag(h: Handler, f: Flag)
    ensures var (h', m) := Obey(h, FlagCommand(f));
      && m.Some? && (TerminalField in m.value <==> f == TerminalPersistent)
      && h'.conn == h.conn && h'.id == h.id && h'.store == h.store[h.id := h'.config]
      && (LoadConfig(h) == h.config && f != TerminalPersistent ==>
        (TerminalPersistent in h'.config.flags <==> TerminalPersistent in h.config.flags))
      && (f == TerminalPersistent ==> m.value[TerminalField] == (TerminalPersistent in h'.config.flags))
  {
  }

  // ----- Toggling twice -----

  /** For a plain id, toggling twice restores the configuration, except that view-only takes the own cursor along. */
  lemma ToggleTwice(h: Handler, f: Flag)
    requires Desktop(h) && !StartsWith(h.id, NOSTR)
    ensures Obey(Obey(h, FlagCommand(f)).0, FlagCommand(f)).0.config == h.config <==>
      (f == ViewOnly ==> ShowMyCursor !in h.config.flags)
  {
    PlainIdReloads(h, FlagCommand(f));
    if f == ViewOnly {
      ViewOnlyTwice(h);
    } else {
      assert Flip(Flip(h.config, f), f).flags == h.config.flags;
    }
  }

  lemma ViewOnlyTwice(h: Handler)
    requires Desktop(h) && !StartsWith(h.id, NOSTR)
    ensures var c := ToggleViewOnly(ToggleViewOnly(h).0).0.config;
      c.flags == h.config.flags - {ShowMyCursor} && c.options == h.config.options
  {
    PlainIdReloads(h, FlagCommand(ViewOnly));
  }

  lemma {:induction false} TrimNostrShorter(id: string)
    ensures |TrimNostr(id)| <= |id|
    ensures StartsWith(id, NOSTR) ==> |TrimNostr(id)| < |id|
  {
    if StartsWith(id, NOSTR) {
      TrimNostrShorter(id[|NOSTR|..]);
    }
  }

  /** A configuration saved for a "nostr-webrtc://" id is stored under another name than the one it is loaded by. */
  lemma NostrIdElsewhere(id: string)
    requires StartsWith(id, NOSTR)
    ensures ConfigId(id) != id
  {
    TrimNostrShorter(id);
    FirstPieceIsPrefix(TrimNostr(id), "?");
  }

  /** So for such an id a toggle is forgotten: toggling twice leaves the flag as toggling once did. */
  lemma NostrToggleForgets(h: Handler, f: Flag)
    requires Desktop(h) && StartsWith(h.id, NOSTR) && f != PrivacyMode
    ensures Obey(Obey(h, FlagCommand(f)).0, FlagCommand(f)).0.config == Obey(h, FlagCommand(f)).0.config != h.config
  {
    NostrIdElsewhere(h.id);
    assert f in Flip(h.config, f).flags <==> f !in h.config.flags;
  }

  // ----- The login message beside the toggles -----

  datatype ImageQuality = Low | Balanced | Best

  /** What the message depends on outside the configuration; `decoding` stands for the decodings supported now. */
  datatype Environment = Environment(publicServer: bool, direct: Option<bool>, decoding: nat)

  datatype LoginMessage = LoginMessage(
    toggles: OptionMessage, quality: Option<ImageQuality>, customQuality: Option<int>, customFps: Option<int>,
    decoding: Option<nat>)

  function QualityOf(q: string, ignoreDefault: bool): Option<ImageQuality> {
    if q == "low" then Some(Low)
    else if q == "best" then Some(Best)
    else if q == "balanced" && !ignoreDefault then Some(Balanced)
    else None
  }

  /** A signed 32-bit integer shifted left by eight bits. */
  function ShiftByte(q: int): (r: int)
    ensures -0x8000_0000 <= r < 0x8000_0000
    ensures -0x80_0000 <= q < 0x80_0000 ==> r == q * 256
  {
    (q * 256 + 0x8000_0000) % 0x1_0000_0000 - 0x8000_0000
  }

  function Digits(s: string): (r: Option<nat>) {
    if s == [] then Some(0)
    else
      var last := s[|s| - 1];
      match Digits(s[..|s| - 1])
      case None => None
      case Some(n) => if '0' <= last <= '9' then Some(n * 10 + (last as int - 48)) else None
  }

  /** Decimal text of a signed 32-bit integer. */
  function ParseInt32(s: string): (r: Option<int>)
    ensures r.Some? ==> -0x8000_0000 <= r.value < 0x8000_0000
  {
    if s == [] then None
    else
      var signed := s[0] == '+' || s[0] == '-';
      var digits := if signed then s[1..] else s;
      match Digits(digits)
      case None => None
      case Some(n) =>
        var v: int := if s[0] == '-' then 0 - n else n;
        if digits == [] || v < -0x8000_0000 || v >= 0x8000_0000 then None else Some(v)
  }

  predicate AllowMore(env: Environment) {
    !env.publicServer || env.direct == Some(true)
  }

  /** The custom quality comes from the stored configuration, not from the one in memory. */
  function CustomQuality(h: Handler, env: Environment): int {
    var stored := LoadConfig(h).customImageQuality;
    if stored == [] then 50
    else if !AllowMore(env) && stored[0] > 100 then 50
    else stored[0]
  }

  function CustomFps(h: Handler, env: Environment): Option<int> {
    if "custom-fps" !in h.config.options then None
    else
      var fps := match ParseInt32(h.config.options["custom-fps"]) case None => 30 case Some(n) => n;
      Some(if !AllowMore(env) && fps > 30 then 30 else fps)
  }

  function LoginSnapshot(h: Handler, env: Environment, ignoreDefault: bool): Option<LoginMessage> {
    match Snapshot(h)
    case None => None
    case Some(toggles) =>
      if h.conn == Terminal then Some(LoginMessage(toggles, None, None, None, None))
      else
        var q := h.config.imageQuality;
        var custom := q == "custom";
        Some(LoginMessage(
               toggles, QualityOf(q, ignoreDefault), if custom then Some(ShiftByte(CustomQuality(h, env))) else None,
               if custom then CustomFps(h, env) else None, Some(env.decoding)))
  }

  /** A configuration as it is read: one custom quality of twelve bits, at least 10. */
  predicate ReadQuality(c: Config) {
    |c.customImageQuality| == 1 && 10 <= c.customImageQuality[0] <= 0xFFF
  }

  /**
   A message names a quality or gives a custom one, never both.  Over a public server
   without a direct connection it asks for no more than 30 frames a second and a custom
   quality of 100; otherwise for what is configured.
   */
  lemma LoginLimits(h: Handler, env: Environment, ignoreDefault: bool)
    requires LoginSnapshot(h, env, ignoreDefault).Some? && ReadQuality(LoadConfig(h))
    ensures var m := LoginSnapshot(h, env, ignoreDefault).value;
      && (m.quality.None? || m.customQuality.None?)
      && (m.customFps.Some? ==> m.customQuality.Some?)
      && (!AllowMore(env) && m.customFps.Some? ==> m.customFps.value <= 30)
      && (!AllowMore(env) && m.customQuality.Some? ==> 10 * 256 <= m.customQuality.value <= 100 * 256)
      && (AllowMore(env) && m.customQuality.Some? ==>
        m.customQuality.value == LoadConfig(h).customImageQuality[0] * 256)
  {
  }

  lemma {:induction false} DigitsOfDecimal(n: nat)
    ensures Decimal(n) != [] && Digits(Decimal(n)) == Some(n)
  {
    if n >= 10 {
      DigitsOfDecimal(n / 10);
      assert Decimal(n)[..|Decimal(n)| - 1] == Decimal(n / 10);
    } else {
      assert Decimal(n)[..0] == [];
    }
  }

  lemma {:induction false} OnlyDigits(s: string)
    ensures Digits(s).Some? <==> forall i :: 0 <= i < |s| ==> '0' <= s[i] <= '9'
  {
    if s != [] {
      var front := s[..|s| - 1];
      OnlyDigits(front);
      assert forall i :: 0 <= i < |front| ==> front[i] == s[i];
    }
  }

  lemma SignedText(d: string, sign: char)
    ensures ([sign] + d)[0] == sign && ([sign] + d)[1..] == d
  {
  }

  /** Decimal text, with or without a sign, is read as its number if that has 32 bits. */
  lemma ParseDecimal(n: nat)
    ensures ParseInt32(Decimal(n)) == ParseInt32("+" + Decimal(n)) == if n < 0x8000_0000 then Some(n) else None
    ensures var minus: int := 0 - n; ParseInt32("-" + Decimal(n)) == if n <= 0x8000_0000 then Some(minus) else None
  {
    var d := Decimal(n);
    DigitsOfDecimal(n);
    assert '0' <= d[0] <= '9';
    SignedText(d, '+');
    SignedText(d, '-');
  }

  /** Nothing else is: a text that reads as a number is digits behind at most one sign. */
  lemma ParseNeedsDigits(s: string)
    requires ParseInt32(s).Some?
    ensures var d := if s[0] in {'+', '-'} then s[1..] else s;
      d != [] && forall i :: 0 <= i < |d| ==> '0' <= d[i] <= '9'
  {
    OnlyDigits(if s[0] in {'+', '-'} then s[1..] else s);
  }

  /**
   What a configured quality asks for: its name, or when it is "custom" the stored number and,
   where a frame rate is given, that rate or 30 for what is no number; both within the limits
   of a public server.
   */
  lemma LoginQuality(h: Handler, env: Environment, ignoreDefault: bool)
    requires h.conn in {DefaultConn, ViewCamera}
    requires LoadConfig(h).customImageQuality == [] || ReadQuality(LoadConfig(h))
    ensures LoginSnapshot(h, env, ignoreDefault).Some?
    ensures var m, q := LoginSnapshot(h, env, ignoreDefault).value, h.config.imageQuality;
      var limited := env.publicServer && env.direct != Some(true);
      var stored := LoadConfig(h).customImageQuality;
      var custom := if stored == [] then 50 else stored[0];
      && (m.quality == Some(Low) <==> q == "low") && (m.quality == Some(Best) <==> q == "best")
      && (m.quality == Some(Balanced) <==> q == "balanced" && !ignoreDefault)
      && m.customQuality == (if q != "custom" then None else Some(256 * if limited && custom > 100 then 50 else custom))
      && (m.customFps.Some? <==> q == "custom" && "custom-fps" in h.config.options)
      && m.decoding == Some(env.decoding)
  {
  }

  /** Who gets a message at login: camera and desktop sessions, and terminals that are to persist, with that alone. */
  lemma LoginByConnection(h: Handler, env: Environment, ignoreDefault: bool)
    ensures var m := LoginSnapshot(h, env, ignoreDefault);
      && (m.Some? <==> h.conn in {DefaultConn, ViewCamera} ||
                       (h.conn == Terminal && GetToggleOption(h, "terminal-persistent")))
      && (h.conn == Terminal && m.Some? ==>
        m.value == LoginMessage(map[TerminalField := true], None, None, None, None))
      && (h.conn != Terminal && m.Some? ==> m.value.toggles.Values <= {true})
  {
    FlagNames();
  }

  /** A message says Yes of a field, or nothing. */
  ghost predicate Reports(toggles: OptionMessage, f: Field, yes: bool) {
    if yes then f in toggles && toggles[f] else f !in toggles
  }

  /**
   View-only takes the keyboard and the clipboard, shows the remote cursor and keeps files and
   the lock from the peer; for the rest each toggle is reported by its own field if it is on.
   */
  lemma LoginToggles(h: Handler, env: Environment, ignoreDefault: bool)
    requires h.conn in {DefaultConn, ViewCamera}
    ensures LoginSnapshot(h, env, ignoreDefault).Some?
    ensures var m, view := LoginSnapshot(h, env, ignoreDefault).value.toggles, GetToggleOption(h, "view-only");
      && m.Keys <= SHARED
      && Reports(m, KeyboardField, view)
      && Reports(m, ClipboardField, view || GetToggleOption(h, "disable-clipboard"))
      && Reports(m, RemoteCursorField, view || GetToggleOption(h, "show-remote-cursor"))
      && Reports(m, MyCursorField, view && GetToggleOption(h, "show-my-cursor"))
      && Reports(m, FilesField, !view && GetToggleOption(h, "enable-file-copy-paste"))
      && Reports(m, LockField, !view && GetToggleOption(h, "lock-after-session-end"))
      && Reports(m, AudioField, GetToggleOption(h, "disable-audio"))
      && Reports(m, FollowCursorField, GetToggleOption(h, "follow-remote-cursor"))
      && Reports(m, FollowWindowField, GetToggleOption(h, "follow-remote-window"))
  {
    FlagNames();
    TogglesReported(h);
    assert LoginSnapshot(h, env, ignoreDefault).value.toggles == Snapshot(h).value;
  }

  lemma TogglesReported(h: Handler)
    requires h.conn in {DefaultConn, ViewCamera}
    ensures Snapshot(h).Some? && Snapshot(h).value.Keys <= SHARED
    ensures forall f :: f in SHARED ==> Reports(Snapshot(h).value, f, Wanted(h.config.flags, f))
  {
  }

  /** The frame rate of a custom quality. */
  lemma LoginFrameRate(h: Handler, env: Environment, ignoreDefault: bool, n: nat)
    requires h.conn in {DefaultConn, ViewCamera} && h.config.imageQuality == "custom"
    requires "custom-fps" in h.config.options
    ensures LoginSnapshot(h, env, ignoreDefault).Some?
    ensures var fps, text := LoginSnapshot(h, env, ignoreDefault).value.customFps, h.config.options["custom-fps"];
      && (text == Decimal(n) && n < 0x8000_0000 ==>
        fps == Some(if env.publicServer && env.direct != Some(true) && n > 30 then 30 else n))
      && (ParseInt32(text) == None ==> fps == Some(30))
  {
    ParseDecimal(n);
    FrameRate(h, env);
  }

  lemma FrameRate(h: Handler, env: Environment)
    requires "custom-fps" in h.config.options
    ensures var parsed := ParseInt32(h.config.options["custom-fps"]);
      var n := if parsed.Some? then parsed.value else 30;
      CustomFps(h, env) == Some(if env.publicServer && env.direct != Some(true) && n > 30 then 30 else n)
  {
  }

  // ----- The handler as the program runs it -----

  class LoginConfigHandler {
    const id: string
    const conn: ConnType
    const missing: Config
    var config: Config
    var store: map<string, Config>

    constructor (id: string, conn: ConnType, store: map<string, Config>, missing: Config)
      ensures State() == Handler(id, conn, LoadConfig(Handler(id, conn, missing, store, missing)), store, missing)
    {
      this.id, this.conn, this.store, this.missing := id, conn, store, missing;
      config := LoadConfig(Handler(id, conn, missing, store, missing));
    }

    function State(): Handler
      reads this
    {
      Handler(id, conn, config, store, missing)
    }

    method Save(c: Config)
      modifies this
      ensures State() == SaveConfig(old(State()), c)
    {
      store := store[id := c];
      config := c;
    }

    /** Toggles an option and returns the message for the peer. */
    method ToggleOption(name: string) returns (msg: Option<OptionMessage>)
      modifies this
      ensures (State(), msg) == Toggle(old(State()), name)
    {
      var c := LoadConfig(State());
      match CommandOf(name)
      case BlockInput(on) =>
        return Some(map[BlockInputField := on]);
      case Free(_) =>
        if name in config.options && config.options[name] != "" {
          config := config.(options := config.options - {name});
        } else {
          config := config.(options := config.options[name := "Y"]);
        }
        store := store[id := config];
        return None;
      case FlagCommand(flag) =>
        var option: OptionMessage := map[];
        if flag == PrivacyMode {
          option := option[PrivacyField := PrivacyMode !in c.flags];
        } else {
          c := Flip(c, flag);
          if flag == ViewOnly {
            option := ViewMessage(ViewOnly in c.flags, config.flags);
            if ViewOnly !in c.flags && ShowMyCursor in c.flags {
              c := Flip(c, ShowMyCursor);
              option := option[MyCursorField := false];
            }
          } else if FieldOf(flag).Some? {
            option := option[FieldOf(flag).value := flag in c.flags];
          }
        }
        Save(c);
        return Some(option);
    }

    method IsOn(name: string, ghost f: Flag) returns (on: bool)
      requires FlagOf(name) == Some(f)
      ensures on <==> f in config.flags
    {
      on := GetToggleOption(State(), name);
    }

    /** The fields a desktop session asks for, one by one. */
    method WantedFields() returns (yes: set<Field>)
      ensures forall f :: f in yes <==> f in SHARED && Wanted(config.flags, f)
    {
      FlagNames();
      var view := IsOn("view-only", ViewOnly);
      var remoteCursor := IsOn("show-remote-cursor", ShowRemoteCursor);
      var myCursor := IsOn("show-my-cursor", ShowMyCursor);
      var followCursor := IsOn("follow-remote-cursor", FollowRemoteCursor);
      var followWindow := IsOn("follow-remote-window", FollowRemoteWindow);
      var lock := IsOn("lock-after-session-end", LockAfterSessionEnd);
      var noAudio := IsOn("disable-audio", DisableAudio);
      var files := IsOn("enable-file-copy-paste", FileCopyPaste);
      var noClipboard := IsOn("disable-clipboard", DisableClipboard);
      yes := {};
      if view { yes := yes + {KeyboardField}; }
      if view || remoteCursor { yes := yes + {RemoteCursorField}; }
      if view && myCursor { yes := yes + {MyCursorField}; }
      if followCursor { yes := yes + {FollowCursorField}; }
      if followWindow { yes := yes + {FollowWindowField}; }
      if !view && lock { yes := yes + {LockField}; }
      if noAudio { yes := yes + {AudioField}; }
      if !view && files { yes := yes + {FilesField}; }
      if view || noClipboard { yes := yes + {ClipboardField}; }
    }

    /** The custom quality and frame rate, if the configuration has them. */
    method CustomParts(env: Environment) returns (quality: int, fps: Option<int>)
      ensures quality == ShiftByte(CustomQuality(State(), env)) && fps == CustomFps(State(), env)
    {
      var c := LoadConfig(State());
      var allowMore := !env.publicServer || env.direct == Some(true);
      var q := 50;
      if c.customImageQuality != [] {
        q := c.customImageQuality[0];
        if !allowMore && q > 100 {
          q := 50;
        }
      }
      fps := None;
      if "custom-fps" in config.options {
        var parsed := ParseInt32(config.options["custom-fps"]);
        var n := if parsed.Some? then parsed.value else 30;
        if !allowMore && n > 30 {
          n := 30;
        }
        fps := Some(n);
      }
      return ShiftByte(q), fps;
    }

    /** The message for login. */
    method GetOptionMessage(env: Environment, ignoreDefault: bool) returns (msg: Option<LoginMessage>)
      ensures msg == LoginSnapshot(State(), env, ignoreDefault)
      ensures msg.Some? ==> Snapshot(State()) == Some(msg.value.toggles)
    {
      if conn == PortForward || conn == Rdp || conn == FileTransfer {
        return None;
      }
      FlagNames();
      if conn == Terminal {
        if GetToggleOption(State(), "terminal-persistent") {
          return Some(LoginMessage(map[TerminalField := true], None, None, None, None));
        }
        return None;
      }
      var quality, customQuality, customFps := QualityOf(config.imageQuality, ignoreDefault), None, None;
      if quality.None? && config.imageQuality == "custom" {
        var q, fps := CustomParts(env);
        customQuality, customFps := Some(q), fps;
      }
      var yes := WantedFields();
      var option: OptionMessage := map f | f in yes :: true;
      assert option == Snapshot(State()).value;
      return Some(LoginMessage(option, quality, customQuality, customFps, Some(env.decoding)));
    }
  }
}
