/** The state of the Electron main process that the hotkey pipeline touches, and one
    state-transformer function per operation of `archive/main.js`: loading a flow's
    configuration, capturing the selection, running the selector overlay, registering the
    two global hotkeys and running one hotkey activation end to end. The class in
    `MainProcess` performs these step by step and is proved to agree with them; the lemmas
    here state what the source promises about them. */
module HotkeyPipeline {
  import opened Wrappers
  import opened Text
  import opened Sections
  import opened Effects
  import opened MainConfig
  import opened Capture
  import opened SelectorOverlay
  import opened Transform
  import opened ResultDialog
  import opened ElectronAccelerators

  /** A snapshot of the process: the text it last put on the clipboard, the effect log, the
      accelerators it holds, the accelerators of the two flows, whether a selector window is
      open and the shortcuts its overlay registered (`registeredKeys`), and the two
      configuration files. */
  datatype Os = Os(
    clipboard: string,
    events: seq<Event>,
    shortcuts: set<string>,
    currentHotkey: Option<string>,
    currentSelectionHotkey: Option<string>,
    selectorOpen: bool,
    selectorKeys: seq<string>,
    inputFile: ConfigFile,
    selectionFile: ConfigFile)
  {
    function File(flow: Flow): ConfigFile {
      if flow == InputFlow then inputFile else selectionFile
    }
  }

  // ---------------------------------------------------------------- configuration loading

  /** `loadInputFieldConfig()` / `loadSelectionConfig()` as a state change: a file that does
      not hold a document is replaced by the default one. */
  function LoadStep(s: Os, flow: Flow): (r: (Document, Os))
    ensures r.0 == LoadConfig(s.File(flow)).0 && r.1.File(flow) == LoadConfig(s.File(flow)).1
    ensures r.1.events == s.events + (if s.File(flow).Stored? then [] else [ConfigSeeded(flow)])
    ensures r == (r.0, s.(events := r.1.events, inputFile := r.1.inputFile, selectionFile := r.1.selectionFile))
    ensures flow == InputFlow ==> r.1.selectionFile == s.selectionFile
    ensures flow == SelectionFlow ==> r.1.inputFile == s.inputFile
  {
    var (doc, file) := LoadConfig(s.File(flow));
    var seeded := if s.File(flow).Stored? then [] else [ConfigSeeded(flow)];
    var s1 := if flow == InputFlow then s.(inputFile := file) else s.(selectionFile := file);
    (doc, s1.(events := s1.events + seeded))
  }

  /** `inputCfg?.general?.hotkey` */
  function HotkeyOf(doc: Document): string {
    if doc.NullDocument? then "" else doc.hotkey
  }

  // ---------------------------------------------------------------- capture

  /** `copySelectionText()` as a state change. */
  function CaptureStep(s: Os, script: seq<ReadOutcome>): (r: (string, Os))
    ensures r.1.events == s.events + CaptureEvents(CaptureRun(script).readCount)
    ensures r.0 == CaptureRun(script).text
  {
    var c := CaptureRun(script);
    (c.text, s.(clipboard := "", events := s.events + CaptureEvents(c.readCount)))
  }

  // ---------------------------------------------------------------- selector overlay

  function Registrations(keys: seq<string>): (evs: seq<Event>)
    ensures |evs| == |keys| && forall i :: 0 <= i < |keys| ==> evs[i] == ShortcutRegistered(keys[i])
  {
    seq(|keys|, i requires 0 <= i < |keys| => ShortcutRegistered(keys[i]))
  }

  function Unregistrations(keys: seq<string>): (evs: seq<Event>)
    ensures |evs| == |keys| && forall i :: 0 <= i < |keys| ==> evs[i] == ShortcutUnregistered(keys[i])
  {
    seq(|keys|, i requires 0 <= i < |keys| => ShortcutUnregistered(keys[i]))
  }

  function KeySet(keys: seq<string>): set<string> {
    set k | k in keys
  }

  /** The outcome of the overlay's promise: it never settles, or settles with an index or
      `null`. */
  datatype Settled = Hangs | Settled(choice: Option<int>)

  /** The events that end an overlay: none while it hangs; when its window is closed,
      the close and then the release of its shortcuts; otherwise (`cleanup`) the release of
      its shortcuts and then the close. */
  function ClosingEvents(res: Resolution, keys: seq<string>): seq<Event> {
    match res
    case Unresolved => []
    case ByClose => [SelectorClosed] + Unregistrations(keys)
    case _ => Unregistrations(keys) + [SelectorClosed]
  }

  function SettledOf(res: Resolution): Settled {
    if res.Unresolved? then Hangs else Settled(ChoiceOf(res))
  }

  /** The accelerators the process holds apart from the shortcuts of a selector window still
      open: what remains once that window's `closed` handler has released them. */
  function OtherShortcuts(s: Os): set<string> {
    if s.selectorOpen then s.shortcuts - KeySet(s.selectorKeys) else s.shortcuts
  }

  /** Closing a selector window left open by an earlier overlay: the close, then its `closed`
      handler's release of that overlay's own shortcuts. */
  function ReplacedEvents(s: Os): seq<Event> {
    if s.selectorOpen then [SelectorClosed] + Unregistrations(s.selectorKeys) else []
  }

  /** The state once a selector window left open has been closed and its shortcuts
      released. */
  function ReplaceSelector(s: Os): (r: Os)
    ensures r.shortcuts == OtherShortcuts(s) && !r.selectorOpen
    ensures r.events == s.events + ReplacedEvents(s)
  {
    s.(events := s.events + ReplacedEvents(s), shortcuts := OtherShortcuts(s), selectorOpen := false,
       selectorKeys := if s.selectorOpen then [] else s.selectorKeys)
  }

  /** Settling an overlay after replacing a window left open is settling it with the
      replacement's effects in front of its own. */
  lemma SettleAfterReplacing(s: Os, openEvent: Event, keys: seq<string>, res: Resolution)
    ensures SettleOverlay(ReplaceSelector(s), [openEvent], OtherShortcuts(s), keys, res)
         == SettleOverlay(s, ReplacedEvents(s) + [openEvent], OtherShortcuts(s), keys, res)
  {
    Associate(s.events, ReplacedEvents(s), [openEvent]);
  }

  /** The accelerators the overlay registers: its bindings that are neither held by the
      process (a replaced overlay's shortcuts being released first) nor refused. */
  function OverlayKeys(s: Os, count: nat, refused: set<string>): seq<string> {
    Accelerators(Registerable(SelectorBindings(count), OtherShortcuts(s) + refused))
  }

  /** The effects of one overlay: replacing a selector window left open, opening the new one,
      registering its shortcuts, and the closing events once it settles. */
  function OverlayEvents(s: Os, count: nat, cursor: Point, display: Option<Display>, refused: set<string>,
                         evs: seq<OverlayEvent>): seq<Event>
  {
    var keys := OverlayKeys(s, count, refused);
    ReplacedEvents(s)
    + [SelectorOpened(SelectorBounds(count, cursor, display))]
    + Registrations(keys)
    + ClosingEvents(Resolve(Registerable(SelectorBindings(count), OtherShortcuts(s) + refused), evs), keys)
  }

  /** `showSelectorOverlay(profiles)` as a state change: the accelerators in `refused` are held
      by other applications, `evs` is what reaches the overlay while it is open. An overlay
      that hangs leaves its window open with its shortcuts (`selectorKeys`) registered. */
  function OverlayStep(s: Os, count: nat, cursor: Point, display: Option<Display>, refused: set<string>,
                       evs: seq<OverlayEvent>): (r: (Settled, Os))
    ensures r.1.clipboard == s.clipboard && r.1.File(InputFlow) == s.File(InputFlow) && r.1.File(SelectionFlow) == s.File(SelectionFlow)
    ensures r.1.currentHotkey == s.currentHotkey && r.1.currentSelectionHotkey == s.currentSelectionHotkey
    ensures count > 0 ==> r.1.events == s.events + OverlayEvents(s, count, cursor, display, refused, evs)
    ensures count == 0 ==> r.1 == s
  {
    if count == 0 then (Settled(None), s)
    else
      var keys := OverlayKeys(s, count, refused);
      var res := Resolve(Registerable(SelectorBindings(count), OtherShortcuts(s) + refused), evs);
      var registered := OtherShortcuts(s) + KeySet(keys);
      (SettledOf(res),
       s.(events := s.events + OverlayEvents(s, count, cursor, display, refused, evs),
          selectorOpen := res.Unresolved?,
          selectorKeys := if res.Unresolved? then keys else [],
          shortcuts := if res.Unresolved? then registered else registered - KeySet(keys)))
  }

  /** The state once an overlay that emitted `opening`, found `base` held and registered
      `keys` settles with `res`. */
  function SettleOverlay(s: Os, opening: seq<Event>, base: set<string>, keys: seq<string>, res: Resolution): (Settled, Os) {
    (SettledOf(res),
     s.(events := s.events + opening + Registrations(keys) + ClosingEvents(res, keys),
        selectorOpen := res.Unresolved?,
        selectorKeys := if res.Unresolved? then keys else [],
        shortcuts := if res.Unresolved? then base + KeySet(keys) else base + KeySet(keys) - KeySet(keys)))
  }

  /** An overlay step is the opening effects, the registrations of the bindings that are
      free, and the settlement on the first event that resolves. */
  lemma OverlayStepSettles(s: Os, count: nat, cursor: Point, display: Option<Display>, refused: set<string>,
                           evs: seq<OverlayEvent>)
    requires count > 0
    ensures OverlayStep(s, count, cursor, display, refused, evs)
         == SettleOverlay(s, ReplacedEvents(s) + [SelectorOpened(SelectorBounds(count, cursor, display))], OtherShortcuts(s),
                          OverlayKeys(s, count, refused), Resolve(Registerable(SelectorBindings(count), OtherShortcuts(s) + refused), evs))
  {
    var opening := ReplacedEvents(s) + [SelectorOpened(SelectorBounds(count, cursor, display))];
    var keys := OverlayKeys(s, count, refused);
    var res := Resolve(Registerable(SelectorBindings(count), OtherShortcuts(s) + refused), evs);
    var r := OverlayStep(s, count, cursor, display, refused, evs);
    var t := SettleOverlay(s, opening, OtherShortcuts(s), keys, res);
    assert OverlayEvents(s, count, cursor, display, refused, evs) == opening + Registrations(keys) + ClosingEvents(res, keys);
    Regroup(s.events, opening, Registrations(keys), ClosingEvents(res, keys));
    assert r.1.events == t.1.events;
    assert r.1.shortcuts == t.1.shortcuts;
  }

  lemma Associate<T>(a: seq<T>, b: seq<T>, c: seq<T>)
    ensures a + b + c == a + (b + c)
  {
  }

  lemma Regroup<T>(a: seq<T>, b: seq<T>, c: seq<T>, d: seq<T>)
    ensures a + (b + c + d) == a + b + c + d
  {
  }

  /** An empty list resolves `null` at once and opens nothing. */
  lemma OverlayEmptyResolvesNull(s: Os, cursor: Point, display: Option<Display>, refused: set<string>, evs: seq<OverlayEvent>)
    ensures OverlayStep(s, 0, cursor, display, refused, evs) == (Settled(None), s)
  {
  }

  /** A selector window left open is closed before the new one opens and its `closed`
      handler releases that overlay's shortcuts, one by one in the order they were
      registered; the new window has the selector's size. */
  lemma OverlayReplacesOpenWindow(s: Os, count: nat, cursor: Point, display: Option<Display>, refused: set<string>,
                                  evs: seq<OverlayEvent>)
    requires count > 0
    ensures var r := OverlayStep(s, count, cursor, display, refused, evs).1;
      var n := |s.events|;
      var k := |s.selectorKeys|;
      var openEvent := SelectorOpened(SelectorBounds(count, cursor, display));
      && r.events[..n] == s.events
      && (s.selectorOpen ==>
            && |r.events| > n + 1 + k
            && r.events[n] == SelectorClosed
            && (forall j :: 0 <= j < k ==> r.events[n + 1 + j] == ShortcutUnregistered(s.selectorKeys[j]))
            && r.events[n + 1 + k] == openEvent)
      && (!s.selectorOpen ==> |r.events| > n && r.events[n] == openEvent)
      && SelectorBounds(count, cursor, display).height == Min(MaxRows, count) * RowHeight + SelectorPadding
  {
    OverlayEventsBegin(s, count, cursor, display, refused, evs);
    BeginAfter(s.events, OverlayEvents(s, count, cursor, display, refused, evs), s.selectorKeys, s.selectorOpen,
               SelectorOpened(SelectorBounds(count, cursor, display)));
  }

  /** The beginning of an overlay's effects, seen in the whole log. */
  lemma BeginAfter(base: seq<Event>, tail: seq<Event>, keys: seq<string>, replacing: bool, openEvent: Event)
    requires replacing ==>
      && |tail| > 1 + |keys| && tail[0] == SelectorClosed && tail[1 + |keys|] == openEvent
      && (forall j :: 0 <= j < |keys| ==> tail[1 + j] == ShortcutUnregistered(keys[j]))
    requires !replacing ==> |tail| > 0 && tail[0] == openEvent
    ensures var r := base + tail;
      var n := |base|;
      && r[..n] == base
      && (replacing ==>
            && |r| > n + 1 + |keys| && r[n] == SelectorClosed && r[n + 1 + |keys|] == openEvent
            && (forall j :: 0 <= j < |keys| ==> r[n + 1 + j] == ShortcutUnregistered(keys[j])))
      && (!replacing ==> |r| > n && r[n] == openEvent)
  {
    var r := base + tail;
    var n := |base|;
    assert r[..n] == base;
    if replacing {
      forall j | 0 <= j < |keys| ensures r[n + 1 + j] == ShortcutUnregistered(keys[j]) {
        assert r[n + 1 + j] == tail[1 + j];
      }
    }
  }

  /** How the effects of one overlay begin: the replacement of an open window, then the new
      window. */
  lemma OverlayEventsBegin(s: Os, count: nat, cursor: Point, display: Option<Display>, refused: set<string>,
                           evs: seq<OverlayEvent>)
    ensures var tail := OverlayEvents(s, count, cursor, display, refused, evs);
      var k := |s.selectorKeys|;
      var openEvent := SelectorOpened(SelectorBounds(count, cursor, display));
      && (s.selectorOpen ==>
            && |tail| > 1 + k
            && tail[0] == SelectorClosed
            && (forall j :: 0 <= j < k ==> tail[1 + j] == ShortcutUnregistered(s.selectorKeys[j]))
            && tail[1 + k] == openEvent)
      && (!s.selectorOpen ==> |tail| > 0 && tail[0] == openEvent)
  {
    var tail := OverlayEvents(s, count, cursor, display, refused, evs);
    var openEvent := SelectorOpened(SelectorBounds(count, cursor, display));
    var k := |s.selectorKeys|;
    if s.selectorOpen {
      var head := [SelectorClosed] + Unregistrations(s.selectorKeys);
      assert tail[..k + 1] == head;
      forall j | 0 <= j < k ensures tail[1 + j] == ShortcutUnregistered(s.selectorKeys[j]) {
        assert tail[1 + j] == head[1 + j];
      }
      assert tail[k + 1] == openEvent;
    } else {
      assert tail[0] == openEvent;
    }
  }

  /** The overlay's own keys are ones the process did not hold apart from them. */
  lemma OverlayKeysFree(s: Os, count: nat, refused: set<string>)
    ensures forall k :: k in OverlayKeys(s, count, refused) ==> k !in OtherShortcuts(s) + refused
  {
    var active := Registerable(SelectorBindings(count), OtherShortcuts(s) + refused);
    var keys := OverlayKeys(s, count, refused);
    forall k | k in keys ensures k !in OtherShortcuts(s) + refused {
      var i :| 0 <= i < |keys| && keys[i] == k;
      assert active[i] in active;
    }
  }

  /** While an overlay hangs the process holds its shortcuts on top of the others; once the
      choice settles every selector shortcut is released again and the window is closed.
      Either way the accelerators held apart from the selector's are those held before, a
      replaced overlay's shortcuts excepted. An empty list changes nothing. */
  lemma OverlayReleasesShortcuts(s: Os, count: nat, cursor: Point, display: Option<Display>, refused: set<string>,
                                 evs: seq<OverlayEvent>)
    ensures var (settled, r) := OverlayStep(s, count, cursor, display, refused, evs);
      && (count == 0 ==> r == s)
      && (count > 0 ==>
            && OtherShortcuts(r) == OtherShortcuts(s)
            && (settled.Settled? ==> !r.selectorOpen && r.shortcuts == OtherShortcuts(s) && r.selectorKeys == [])
            && (settled.Hangs? ==> r.selectorOpen && r.selectorKeys == OverlayKeys(s, count, refused)
                                   && r.shortcuts == OtherShortcuts(s) + KeySet(r.selectorKeys)))
  {
    if count > 0 {
      var keys := OverlayKeys(s, count, refused);
      OverlayKeysFree(s, count, refused);
      assert (OtherShortcuts(s) + KeySet(keys)) - KeySet(keys) == OtherShortcuts(s);
    }
  }

  /** A hung overlay does not hold on to its shortcuts once the next overlay replaces it: the
      next one registers exactly what it would have registered had the hung one never opened,
      so a free Escape still cancels it. */
  lemma HungOverlayReplaced(s: Os, count: nat, cursor: Point, display: Option<Display>, refused: set<string>,
                            evs: seq<OverlayEvent>, next: nat, later: seq<OverlayEvent>)
    requires count > 0 && next > 0
    requires OverlayStep(s, count, cursor, display, refused, evs).0 == Hangs
    ensures var r := OverlayStep(s, count, cursor, display, refused, evs).1;
      && OverlayKeys(r, next, refused) == OverlayKeys(s, next, refused)
      && ("Escape" !in OtherShortcuts(s) + refused ==>
            OverlayStep(r, next, cursor, display, refused, [KeyPressed("Escape")] + later).0 == Settled(Some(-1)))
  {
    var r := OverlayStep(s, count, cursor, display, refused, evs).1;
    OverlayReleasesShortcuts(s, count, cursor, display, refused, evs);
    assert OtherShortcuts(r) == OtherShortcuts(s);
    if "Escape" !in OtherShortcuts(s) + refused {
      OverlaySettlesOnEscape(r, next, cursor, display, refused, later);
    }
  }

  /** The overlay settles with the index of the first Escape or digit shortcut pressed (-1 for
      Escape, d - 1 for digit d), with the index a choice message carries, or with `null`
      when the window closes first. */
  lemma OverlaySettlesOnFirstEvent(s: Os, count: nat, cursor: Point, display: Option<Display>, refused: set<string>,
                                   d: nat, later: seq<OverlayEvent>, i: int)
    requires count > 0
    ensures var held := OtherShortcuts(s) + refused;
      && ("Escape" !in held ==>
           OverlayStep(s, count, cursor, display, refused, [KeyPressed("Escape")] + later).0 == Settled(Some(-1)))
      && (1 <= d <= Min(MaxRows, count) && Dec(d) !in held ==>
           OverlayStep(s, count, cursor, display, refused, [KeyPressed(Dec(d))] + later).0 == Settled(Some(d - 1)))
      && OverlayStep(s, count, cursor, display, refused, [ChoiceMessage(i)] + later).0 == Settled(Some(i))
      && OverlayStep(s, count, cursor, display, refused, [WindowClosed] + later).0 == Settled(None)
  {
    if "Escape" !in OtherShortcuts(s) + refused {
      OverlaySettlesOnEscape(s, count, cursor, display, refused, later);
    }
    if 1 <= d <= Min(MaxRows, count) && Dec(d) !in OtherShortcuts(s) + refused {
      OverlaySettlesOnDigit(s, count, cursor, display, refused, d, later);
    }
    OverlaySettlesOnMessage(s, count, cursor, display, refused, later, i);
    OverlaySettlesOnClose(s, count, cursor, display, refused, later);
  }

  /** What an overlay settles with is decided by its events alone. */
  lemma OverlayChoice(s: Os, count: nat, cursor: Point, display: Option<Display>, refused: set<string>,
                      evs: seq<OverlayEvent>, res: Resolution)
    requires count > 0
    requires Resolve(Registerable(SelectorBindings(count), OtherShortcuts(s) + refused), evs) == res
    ensures OverlayStep(s, count, cursor, display, refused, evs).0 == SettledOf(res)
  {
  }

  lemma OverlaySettlesOnEscape(s: Os, count: nat, cursor: Point, display: Option<Display>, refused: set<string>,
                               later: seq<OverlayEvent>)
    requires count > 0 && "Escape" !in OtherShortcuts(s) + refused
    ensures OverlayStep(s, count, cursor, display, refused, [KeyPressed("Escape")] + later).0 == Settled(Some(-1))
  {
    SelectorKeysResolve(count, OtherShortcuts(s) + refused, 0, later);
    OverlayChoice(s, count, cursor, display, refused, [KeyPressed("Escape")] + later, ByKey(-1));
  }

  lemma OverlaySettlesOnDigit(s: Os, count: nat, cursor: Point, display: Option<Display>, refused: set<string>,
                              d: nat, later: seq<OverlayEvent>)
    requires count > 0 && 1 <= d <= Min(MaxRows, count) && Dec(d) !in OtherShortcuts(s) + refused
    ensures OverlayStep(s, count, cursor, display, refused, [KeyPressed(Dec(d))] + later).0 == Settled(Some(d - 1))
  {
    SelectorKeysResolve(count, OtherShortcuts(s) + refused, d, later);
    OverlayChoice(s, count, cursor, display, refused, [KeyPressed(Dec(d))] + later, ByKey(d - 1));
  }

  lemma OverlaySettlesOnMessage(s: Os, count: nat, cursor: Point, display: Option<Display>, refused: set<string>,
                                later: seq<OverlayEvent>, i: int)
    requires count > 0
    ensures OverlayStep(s, count, cursor, display, refused, [ChoiceMessage(i)] + later).0 == Settled(Some(i))
  {
    var evs := [ChoiceMessage(i)] + later;
    assert evs[0] == ChoiceMessage(i);
    OverlayChoice(s, count, cursor, display, refused, evs, ByMessage(i));
  }

  lemma OverlaySettlesOnClose(s: Os, count: nat, cursor: Point, display: Option<Display>, refused: set<string>,
                              later: seq<OverlayEvent>)
    requires count > 0
    ensures OverlayStep(s, count, cursor, display, refused, [WindowClosed] + later).0 == Settled(None)
  {
    var evs := [WindowClosed] + later;
    assert evs[0] == WindowClosed;
    OverlayChoice(s, count, cursor, display, refused, evs, ByClose);
  }

  // ---------------------------------------------------------------- hotkey registration

  predicate IsRegistration(e: Event) { e.ShortcutRegistered? }
  predicate IsUnregistration(e: Event) { e.ShortcutUnregistered? }

  function OldCurrents(s: Os): set<string> {
    (if s.currentHotkey.Some? then {s.currentHotkey.value} else {})
    + (if s.currentSelectionHotkey.Some? then {s.currentSelectionHotkey.value} else {})
  }

  /** Unregister a flow's current accelerator, if it has one, and forget it. */
  function Release(s: Os, flow: Flow): (r: Os)
    ensures |s.events| <= |r.events| && r.events[..|s.events|] == s.events
    ensures forall i :: |s.events| <= i < |r.events| ==> IsUnregistration(r.events[i])
  {
    var current := if flow == InputFlow then s.currentHotkey else s.currentSelectionHotkey;
    if current.None? then s
    else
      var s1 := s.(shortcuts := s.shortcuts - {current.value}, events := s.events + [ShortcutUnregistered(current.value)]);
      if flow == InputFlow then s1.(currentHotkey := None) else s1.(currentSelectionHotkey := None)
  }

  /** Whether `globalShortcut.register` throws for a flow's hotkey: its accelerator is one
      Electron cannot parse (say `CommandOrControl+ArrowUp`, a key Electron calls `Up`).
      `unparsable` is the set of such accelerators, which the model takes as given. */
  predicate Throws(hotkey: string, unparsable: set<string>) {
    hotkey != "" && ElectronAccelerator(hotkey) in unparsable
  }

  /** Register a flow's hotkey if it has one; the accelerator becomes the flow's current one
      only when the registration succeeds. A registration that throws changes nothing. */
  function Claim(s: Os, flow: Flow, hotkey: string, refused: set<string>, unparsable: set<string>): (r: Os)
    ensures |s.events| <= |r.events| && r.events[..|s.events|] == s.events
    ensures forall i :: |s.events| <= i < |r.events| ==> IsRegistration(r.events[i])
    ensures Throws(hotkey, unparsable) ==> r == s
  {
    if hotkey == "" then s
    else
      var a := ElectronAccelerator(hotkey);
      if a in unparsable || a in refused || a in s.shortcuts then s
      else
        var s1 := s.(shortcuts := s.shortcuts + {a}, events := s.events + [ShortcutRegistered(a)]);
        if flow == InputFlow then s1.(currentHotkey := Some(a)) else s1.(currentSelectionHotkey := Some(a))
  }

  /** Both configurations loaded (seeding defaults) and both previous accelerators released. */
  function Released(s: Os): (r: Os)
    ensures r.currentHotkey.None? && r.currentSelectionHotkey.None?
    ensures r.shortcuts == s.shortcuts - OldCurrents(s)
    ensures r.inputFile == LoadConfig(s.inputFile).1 && r.selectionFile == LoadConfig(s.selectionFile).1
    ensures |s.events| <= |r.events| && r.events[..|s.events|] == s.events
    ensures forall i :: |s.events| <= i < |r.events| ==> !IsRegistration(r.events[i])
  {
    var s1 := LoadStep(s, InputFlow).1;
    var s2 := LoadStep(s1, SelectionFlow).1;
    var s3 := Release(s2, InputFlow);
    var r := Release(s3, SelectionFlow);
    assert r.events[..|s2.events|] == s2.events;
    r
  }

  /** `registerGlobalHotkey()` as a state change, with whether it throws. The register calls
      are not guarded, so a throw for the input flow's hotkey ends the run before the
      selection flow's hotkey is registered. */
  function RegisterRun(s: Os, refused: set<string>, unparsable: set<string>): (Os, bool) {
    var s3 := Released(s);
    var inputHotkey := HotkeyOf(LoadConfig(s.inputFile).0);
    var selectionHotkey := HotkeyOf(LoadConfig(s.selectionFile).0);
    var s4 := Claim(s3, InputFlow, inputHotkey, refused, unparsable);
    if Throws(inputHotkey, unparsable) then (s4, true)
    else (Claim(s4, SelectionFlow, selectionHotkey, refused, unparsable), Throws(selectionHotkey, unparsable))
  }

  /** Both previous accelerators are released before anything is registered. */
  lemma RegisterReleasesBeforeClaiming(s: Os, refused: set<string>, unparsable: set<string>)
    ensures var r := RegisterRun(s, refused, unparsable).0;
      && r.events[..|s.events|] == s.events
      && forall i, j :: |s.events| <= i < j < |r.events| && IsRegistration(r.events[i]) ==> !IsUnregistration(r.events[j])
  {
    var s3 := Released(s);
    var s4 := Claim(s3, InputFlow, HotkeyOf(LoadConfig(s.inputFile).0), refused, unparsable);
    var r := RegisterRun(s, refused, unparsable).0;
    assert r.events[..|s4.events|] == s4.events;
    assert r.events[..|s3.events|] == s3.events;
    forall i | |s3.events| <= i < |r.events| ensures IsRegistration(r.events[i]) {
      if i < |s4.events| {
        assert r.events[i] == s4.events[i];
      }
    }
    RegistrationsLast(s.events, s3.events, r.events);
  }

  /** A log that extends `base` first by no registration and then only by registrations
      has no unregistration after a registration. */
  lemma RegistrationsLast(base: seq<Event>, mid: seq<Event>, all: seq<Event>)
    requires |base| <= |mid| <= |all| && all[..|mid|] == mid && mid[..|base|] == base
    requires forall i :: |base| <= i < |mid| ==> !IsRegistration(mid[i])
    requires forall i :: |mid| <= i < |all| ==> IsRegistration(all[i])
    ensures all[..|base|] == base
    ensures forall i, j :: |base| <= i < j < |all| && IsRegistration(all[i]) ==> !IsUnregistration(all[j])
  {
    assert all[..|base|] == mid[..|base|];
    forall i | |base| <= i < |mid| ensures !IsRegistration(all[i]) {
      assert all[i] == mid[i];
    }
  }

  /** A flow's accelerator is recorded exactly when its hotkey is set and its registration
      succeeds (the accelerator parses and is neither refused nor still held), and a
      recorded accelerator is the translated hotkey and is held by the process. The run
      throws exactly when a register call it reaches throws; a throw for the input flow
      leaves the state as released, with the selection flow not registered. */
  lemma RegisterRecordsSuccess(s: Os, refused: set<string>, unparsable: set<string>)
    ensures var (r, threw) := RegisterRun(s, refused, unparsable);
      var inputHotkey := HotkeyOf(LoadConfig(s.inputFile).0);
      var selectionHotkey := HotkeyOf(LoadConfig(s.selectionFile).0);
      && (threw <==> Throws(inputHotkey, unparsable) || Throws(selectionHotkey, unparsable))
      && (Throws(inputHotkey, unparsable) ==> r == Released(s))
      && (r.currentHotkey.Some? <==>
            inputHotkey != "" && ElectronAccelerator(inputHotkey) !in unparsable
            && ElectronAccelerator(inputHotkey) !in refused
            && ElectronAccelerator(inputHotkey) !in s.shortcuts - OldCurrents(s))
      && (r.currentHotkey.Some? ==> r.currentHotkey.value == ElectronAccelerator(inputHotkey) && r.currentHotkey.value in r.shortcuts)
      && (r.currentSelectionHotkey.Some? <==>
            !Throws(inputHotkey, unparsable) && selectionHotkey != ""
            && ElectronAccelerator(selectionHotkey) !in unparsable
            && ElectronAccelerator(selectionHotkey) !in refused
            && ElectronAccelerator(selectionHotkey) !in s.shortcuts - OldCurrents(s)
            && Some(ElectronAccelerator(selectionHotkey)) != r.currentHotkey)
      && (r.currentSelectionHotkey.Some? ==>
            r.currentSelectionHotkey.value == ElectronAccelerator(selectionHotkey) && r.currentSelectionHotkey.value in r.shortcuts)
  {
  }

  /** A previous accelerator is still held afterwards only when it was registered again. */
  lemma RegisterReleasesOld(s: Os, refused: set<string>, unparsable: set<string>)
    ensures var r := RegisterRun(s, refused, unparsable).0;
      forall a :: a in OldCurrents(s) ==> (a in r.shortcuts <==> Some(a) == r.currentHotkey || Some(a) == r.currentSelectionHotkey)
  {
    var s3 := Released(s);
    var s4 := Claim(s3, InputFlow, HotkeyOf(LoadConfig(s.inputFile).0), refused, unparsable);
    var r := RegisterRun(s, refused, unparsable).0;
    assert r == s4 || r == Claim(s4, SelectionFlow, HotkeyOf(LoadConfig(s.selectionFile).0), refused, unparsable);
    assert s4.currentSelectionHotkey.None?;
    assert s4.shortcuts == s3.shortcuts + (if s4.currentHotkey.Some? then {s4.currentHotkey.value} else {});
    assert r.currentHotkey == s4.currentHotkey;
    assert r.shortcuts == s4.shortcuts + (if r.currentSelectionHotkey.Some? then {r.currentSelectionHotkey.value} else {});
  }

  /** Two flows with the same hotkey cannot both hold it: the selection flow's registration
      is refused once the input flow holds the accelerator. */
  lemma SharedHotkeyGoesToInputFlow(s: Os, refused: set<string>, unparsable: set<string>)
    requires HotkeyOf(LoadConfig(s.inputFile).0) == HotkeyOf(LoadConfig(s.selectionFile).0)
    requires RegisterRun(s, refused, unparsable).0.currentHotkey.Some?
    ensures RegisterRun(s, refused, unparsable).0.currentSelectionHotkey.None?
  {
  }

  // ---------------------------------------------------------------- one hotkey activation

  datatype Platform = Darwin | Win32 | Linux

  /** Everything outside the process that one activation observes. */
  datatype Activation = Activation(
    platform: Platform,
    /** The frontmost application's name on macOS ("" when none is reported). */
    frontApp: string,
    firstReads: seq<ReadOutcome>,
    cursor: Point,
    display: Option<Display>,
    /** Accelerators other applications hold. */
    refused: set<string>,
    overlay: seq<OverlayEvent>,
    secondReads: seq<ReadOutcome>,
    apiKey: string,
    reply: Reply,
    /** Whether the floating status window exists and is not destroyed. */
    floatingAlive: bool,
    /** Whether writing the clipboard (input flow) or opening the dialog (selection flow)
        throws. */
    deliveryFails: bool,
    /** The cursor when the dialog opens, and the display nearest to it. */
    dialogCursor: Point,
    dialogDisplay: Option<Display>)

  datatype RunOutcome =
    | ConfigThrew
    | NoProfiles
    | SelectorHangs
    | Cancelled
    | NoSuchProfile
    | NothingCaptured
    | EmptyResult
    | DeliveryThrew
    | Delivered(result: string)

  /** The handler's early returns. */
  predicate IsAbort(o: RunOutcome) {
    o.NoProfiles? || o.SelectorHangs? || o.Cancelled? || o.NoSuchProfile? || o.NothingCaptured?
  }

  /** The status message a flow sends while the language model works. */
  function BusyStatus(flow: Flow): string {
    if flow == InputFlow then "input" else "selection"
  }

  const IdleStatus := "idle"

  /** An `ai-processing` message, sent only when the floating window is alive. */
  function Status(w: Activation, status: string): seq<Event> {
    if w.floatingAlive then [StatusSent(status)] else []
  }

  /** The application to return to: asked for on macOS only. */
  function PreviousApp(w: Activation): string {
    if w.platform == Darwin then w.frontApp else ""
  }

  predicate IsStatus(e: Event) { e.StatusSent? }
  predicate IsTransform(e: Event) { e.TransformRequested? }

  /** An effect that hands the result to the user: a non-empty clipboard write, the paste
      keystroke or a result dialog. */
  predicate IsDelivery(e: Event) {
    (e.ClipboardWritten? && e.text != "") || e == KeysSent("^v") || e.ResultShown?
  }

  predicate QuietEvent(e: Event) {
    !IsStatus(e) && !IsTransform(e) && !IsDelivery(e)
  }

  /** None of the effects is a status message, a language-model call or a delivery. */
  predicate Quiet(evs: seq<Event>) {
    evs == [] || (QuietEvent(evs[0]) && Quiet(evs[1..]))
  }

  lemma {:induction false} QuietAt(evs: seq<Event>, i: nat)
    requires Quiet(evs) && i < |evs|
    ensures QuietEvent(evs[i])
  {
    if i > 0 {
      QuietAt(evs[1..], i - 1);
    }
  }

  lemma {:induction false} QuietAll(evs: seq<Event>)
    requires forall i :: 0 <= i < |evs| ==> QuietEvent(evs[i])
    ensures Quiet(evs)
  {
    if evs != [] {
      QuietAll(evs[1..]);
    }
  }

  /** `t` extends the log of `s` with quiet effects, and its clipboard is unchanged or
      cleared. */
  predicate QuietlyExtends(s: Os, t: Os) {
    && |s.events| <= |t.events| && t.events[..|s.events|] == s.events
    && Quiet(t.events[|s.events|..])
    && (t.clipboard == s.clipboard || t.clipboard == "")
  }

  lemma {:induction false} QuietConcat(a: seq<Event>, b: seq<Event>)
    requires Quiet(a) && Quiet(b)
    ensures Quiet(a + b)
  {
    if a != [] {
      QuietConcat(a[1..], b);
      assert (a + b)[0] == a[0];
      assert (a + b)[1..] == a[1..] + b;
    } else {
      assert a + b == b;
    }
  }

  lemma QuietlyExtendsTrans(a: Os, b: Os, c: Os)
    requires QuietlyExtends(a, b) && QuietlyExtends(b, c)
    ensures QuietlyExtends(a, c)
  {
    assert c.events[|a.events|..] == b.events[|a.events|..] + c.events[|b.events|..];
    QuietConcat(b.events[|a.events|..], c.events[|b.events|..]);
  }

  lemma CaptureEventsQuiet(n: nat)
    ensures Quiet(CaptureEvents(n))
  {
    QuietAll(CaptureEvents(n));
  }

  lemma OverlayQuiet(s: Os, count: nat, cursor: Point, display: Option<Display>, refused: set<string>, evs: seq<OverlayEvent>)
    ensures Quiet(OverlayEvents(s, count, cursor, display, refused, evs))
  {
    var keys := OverlayKeys(s, count, refused);
    var res := Resolve(Registerable(SelectorBindings(count), OtherShortcuts(s) + refused), evs);
    var openEvent := SelectorOpened(SelectorBounds(count, cursor, display));
    OverlayPiecesQuiet(s, openEvent, keys, res);
  }

  lemma OverlayPiecesQuiet(s: Os, openEvent: Event, keys: seq<string>, res: Resolution)
    requires openEvent.SelectorOpened?
    ensures Quiet(ReplacedEvents(s) + [openEvent] + Registrations(keys) + ClosingEvents(res, keys))
  {
    var head := ReplacedEvents(s) + [openEvent];
    QuietAll(head);
    QuietAll(Registrations(keys));
    QuietAll(ClosingEvents(res, keys));
    QuietConcat(head, Registrations(keys));
    QuietConcat(head + Registrations(keys), ClosingEvents(res, keys));
  }

  /** The handler up to the language-model call: it either returns early, or has a chosen
      preset, a non-blank selection and the application to return to. */
  datatype Prep =
    | Abort(state: Os, outcome: RunOutcome)
    | Ready(state: Os, profile: Profile, text: string, previousApp: string)

  /** The second capture, made only when the first one came back blank. */
  function Recapture(s: Os, profile: Profile, first: string, previousApp: string, w: Activation): (p: Prep)
    ensures QuietlyExtends(s, p.state)
    ensures p.Ready? ==> !IsBlank(p.text) && p.profile == profile && p.previousApp == previousApp
    ensures p.Abort? ==> p.outcome == NothingCaptured
  {
    if IsBlank(first) then
      var (text, s1) := CaptureStep(s, w.secondReads);
      CaptureEventsQuiet(CaptureRun(w.secondReads).readCount);
      assert s1.events[|s.events|..] == CaptureEvents(CaptureRun(w.secondReads).readCount);
      if IsBlank(text) then Abort(s1, NothingCaptured) else Ready(s1, profile, text, previousApp)
    else
      assert s.events[|s.events|..] == [];
      Ready(s, profile, first, previousApp)
  }

  /** Capture the selection, let the user choose a preset, and capture again if needed. */
  function Choose(s: Os, profiles: seq<Profile>, previousApp: string, w: Activation): (p: Prep)
    requires profiles != []
    ensures QuietlyExtends(s, p.state)
    ensures p.Ready? ==> !IsBlank(p.text) && p.profile in profiles && p.previousApp == previousApp
    ensures p.Abort? ==> IsAbort(p.outcome)
  {
    var (first, s2) := CaptureStep(s, w.firstReads);
    var (settled, s3) := OverlayStep(s2, |profiles|, w.cursor, w.display, w.refused, w.overlay);
    CaptureEventsQuiet(CaptureRun(w.firstReads).readCount);
    OverlayQuiet(s2, |profiles|, w.cursor, w.display, w.refused, w.overlay);
    assert s2.events[|s.events|..] == CaptureEvents(CaptureRun(w.firstReads).readCount);
    assert s3.events[|s2.events|..] == OverlayEvents(s2, |profiles|, w.cursor, w.display, w.refused, w.overlay);
    QuietlyExtendsTrans(s, s2, s3);
    if settled.Hangs? then Abort(s3, SelectorHangs)
    else if settled.choice.None? || settled.choice.value < 0 then Abort(s3, Cancelled)
    else if settled.choice.value >= |profiles| then Abort(s3, NoSuchProfile)
    else
      var p := Recapture(s3, profiles[settled.choice.value], first, previousApp, w);
      QuietlyExtendsTrans(s, s3, p.state);
      p
  }

  /** The configuration events of loading a flow's file. */
  function Seeded(s: Os, flow: Flow): seq<Event> {
    if s.File(flow).Stored? then [] else [ConfigSeeded(flow)]
  }

  /** Loading the configuration only adds the seeding event, if any. */
  lemma LoadIsQuiet(s: Os, flow: Flow)
    ensures LoadStep(s, flow).1.events == s.events + Seeded(s, flow)
    ensures QuietlyExtends(s, LoadStep(s, flow).1)
  {
    var s1 := LoadStep(s, flow).1;
    assert s1.events[|s.events|..] == Seeded(s, flow);
  }

  /** The handler up to the language-model call. Reading `profiles` of a `null` document
      throws, and the catch block sends the idle status. */
  function Prepare(s: Os, flow: Flow, w: Activation): (p: Prep)
    ensures p.Abort? && p.outcome.ConfigThrew? ==> p.state.events == s.events + Seeded(s, flow) + Status(w, IdleStatus)
    ensures !(p.Abort? && p.outcome.ConfigThrew?) ==> QuietlyExtends(s, p.state)
    ensures p.Abort? ==> IsAbort(p.outcome) || p.outcome.ConfigThrew?
    ensures p.state.clipboard == s.clipboard || p.state.clipboard == ""
    ensures p.Ready? ==> !IsBlank(p.text) && p.previousApp == PreviousApp(w)
    ensures p.Ready? ==> LoadConfig(s.File(flow)).0.Document? && p.profile in FirstNine(LoadConfig(s.File(flow)).0.profiles)
  {
    var (doc, s1) := LoadStep(s, flow);
    LoadIsQuiet(s, flow);
    if doc.NullDocument? then Abort(s1.(events := s1.events + Status(w, IdleStatus)), ConfigThrew)
    else if FirstNine(doc.profiles) == [] then Abort(s1, NoProfiles)
    else
      var p := Choose(s1, FirstNine(doc.profiles), PreviousApp(w), w);
      QuietlyExtendsTrans(s, s1, p.state);
      p
  }

  /** The prompt sent for a preset and a selection. */
  function PromptFor(profile: Profile, text: string): string {
    profile.prompt + "\n\n" + text
  }

  /** What the handler does from the language-model call on: the call bracketed by the
      busy and idle statuses, then what follows it. */
  function FinishEvents(flow: Flow, w: Activation, prompt: string, previousApp: string, result: string): seq<Event> {
    CallEvents(flow, w, prompt) + AfterCall(flow, w, previousApp, result)
  }

  /** The busy status, the language-model call and the idle status. */
  function CallEvents(flow: Flow, w: Activation, prompt: string): seq<Event> {
    Status(w, BusyStatus(flow)) + [TransformRequested(prompt)] + Status(w, IdleStatus)
  }

  /** For a non-empty result, the return to the previous application (macOS) and the
      delivery, whose failure sends the idle status once more from the catch block. */
  function AfterCall(flow: Flow, w: Activation, previousApp: string, result: string): seq<Event> {
    if result == "" then []
    else
      (if w.platform == Darwin && previousApp != "" then [AppActivated(previousApp)] else [])
      + (if w.deliveryFails then Status(w, IdleStatus) else DeliveryEvents(flow, w, result))
  }

  /** The input flow pastes (the paste keystroke only on macOS and Windows); the selection
      flow shows the result in a dialog. */
  function DeliveryEvents(flow: Flow, w: Activation, result: string): seq<Event> {
    if flow == InputFlow then
      [ClipboardWritten(result)] + (if w.platform == Darwin || w.platform == Win32 then [KeysSent("^v")] else [])
    else
      [ResultShown(EscapeMarkup(result), DialogBounds(result, w.dialogCursor, w.dialogDisplay))]
  }

  function Outcome(w: Activation, result: string): RunOutcome {
    if result == "" then EmptyResult else if w.deliveryFails then DeliveryThrew else Delivered(result)
  }

  /** The handler from the language-model call on, after a preparation `p`; `result` is what
      the call returns. */
  function Finish(p: Prep, flow: Flow, w: Activation, result: string): (Os, RunOutcome) {
    match p
    case Abort(s1, outcome) => (s1, outcome)
    case Ready(s1, profile, text, previousApp) =>
      var pasted := flow == InputFlow && Outcome(w, result).Delivered?;
      (s1.(events := s1.events + FinishEvents(flow, w, PromptFor(profile, text), previousApp, result),
           clipboard := if pasted then result else s1.clipboard),
       Outcome(w, result))
  }

  /** One activation of a flow's hotkey handler. */
  function HotkeyRun(s: Os, flow: Flow, w: Activation): (Os, RunOutcome) {
    Finish(Prepare(s, flow, w), flow, w, TransformText(w.apiKey, w.reply))
  }

  // ---------------------------------------------------------------- properties of a run

  /** A preparation that reached the language model is finished by appending the call and
      what follows it. */
  lemma FinishReady(p: Prep, flow: Flow, w: Activation, result: string)
    requires p.Ready?
    ensures Finish(p, flow, w, result)
         == (p.state.(events := p.state.events + (CallEvents(flow, w, PromptFor(p.profile, p.text)) + AfterCall(flow, w, p.previousApp, result)),
                      clipboard := if flow == InputFlow && Outcome(w, result).Delivered? then result else p.state.clipboard),
             Outcome(w, result))
  {
  }

  /** What every preparation of a run from `s` guarantees (the postcondition of `Prepare`). */
  predicate Prepared(s: Os, flow: Flow, w: Activation, p: Prep) {
    && (p.Abort? && p.outcome.ConfigThrew? ==> p.state.events == s.events + Seeded(s, flow) + Status(w, IdleStatus))
    && (!(p.Abort? && p.outcome.ConfigThrew?) ==> QuietlyExtends(s, p.state))
    && (p.Abort? ==> IsAbort(p.outcome) || p.outcome.ConfigThrew?)
    && (p.state.clipboard == s.clipboard || p.state.clipboard == "")
    && (p.Ready? ==> !IsBlank(p.text) && p.previousApp == PreviousApp(w))
  }

  lemma PrepareIsPrepared(s: Os, flow: Flow, w: Activation)
    ensures Prepared(s, flow, w, Prepare(s, flow, w))
  {
  }

  /** The finishing stage keeps the prepared log as a prefix and appends the finishing effects
      exactly when the preparation reached the language model. */
  lemma FinishShape(p: Prep, flow: Flow, w: Activation, result: string)
    ensures p.Abort? ==> Finish(p, flow, w, result) == (p.state, p.outcome)
    ensures p.Ready? ==> Finish(p, flow, w, result).1 == Outcome(w, result)
    ensures p.Ready? ==>
      Finish(p, flow, w, result).0.events
        == p.state.events + (CallEvents(flow, w, PromptFor(p.profile, p.text)) + AfterCall(flow, w, p.previousApp, result))
  {
  }

  /** The handler's early returns (an empty preset list after the cap of nine, an overlay
      that never settles, a cancelled or out-of-range choice, a selection still blank after
      the second capture) neither send a status message nor call the language model, and
      deliver nothing. */
  lemma AbortsAreSilent(s: Os, flow: Flow, w: Activation)
    requires IsAbort(HotkeyRun(s, flow, w).1)
    ensures QuietlyExtends(s, HotkeyRun(s, flow, w).0)
  {
    PrepareIsPrepared(s, flow, w);
  }

  /** The call is the only language-model call of the finishing effects and sits between the
      busy and the idle status; every status after it is the idle one. */
  lemma CallEventsShape(flow: Flow, w: Activation, prompt: string)
    ensures var c := CallEvents(flow, w, prompt);
      var k := if w.floatingAlive then 1 else 0;
      && |c| == 1 + 2 * k
      && c[k] == TransformRequested(prompt)
      && (w.floatingAlive ==> c[0] == StatusSent(BusyStatus(flow)) && c[2] == StatusSent(IdleStatus))
      && (forall j :: 0 <= j < |c| && j != k ==> IsStatus(c[j]))
      && (forall j :: 0 <= j < |c| ==> !IsDelivery(c[j]))
  {
  }

  lemma AfterCallShape(flow: Flow, w: Activation, previousApp: string, result: string)
    ensures var a := AfterCall(flow, w, previousApp, result);
      && (result == "" ==> a == [])
      && (forall j :: 0 <= j < |a| ==> !IsTransform(a[j]) && (IsStatus(a[j]) ==> a[j] == StatusSent(IdleStatus)))
      && (flow == SelectionFlow ==> forall j :: 0 <= j < |a| ==>
            && a[j] != KeysSent("^v") && !(a[j].ClipboardWritten? && a[j].text != "")
            && (a[j].ResultShown? ==>
                  && result != "" && !w.deliveryFails && a[j].markup == EscapeMarkup(result)
                  && a[j].bounds == DialogBounds(result, w.dialogCursor, w.dialogDisplay)))
  {
  }

  /** Where an effect of the log `pre + (c + a)` comes from, when `pre` quietly extends `base`. */
  lemma Locate(base: seq<Event>, pre: seq<Event>, c: seq<Event>, a: seq<Event>, i: nat)
    requires |base| <= |pre| && Quiet(pre[|base|..]) && |base| <= i < |pre + (c + a)|
    ensures i < |pre| ==> QuietEvent((pre + (c + a))[i])
    ensures |pre| <= i < |pre| + |c| ==> (pre + (c + a))[i] == c[i - |pre|]
    ensures |pre| + |c| <= i ==> (pre + (c + a))[i] == a[i - |pre| - |c|]
  {
    if i < |pre| {
      assert (pre + (c + a))[i] == pre[|base|..][i - |base|];
      QuietAt(pre[|base|..], i - |base|);
    }
  }

  lemma PrefixOf<T>(pre: seq<T>, f: seq<T>)
    ensures (pre + f)[..|pre|] == pre
  {
  }

  lemma FinishBracketed(s: Os, p: Prep, flow: Flow, w: Activation, result: string)
    requires p.Ready? && Prepared(s, flow, w, p)
    ensures var r := Finish(p, flow, w, result).0;
      var n := |p.state.events|;
      var k := if w.floatingAlive then 1 else 0;
      && |r.events| > n + 2 * k
      && r.events[..n] == p.state.events
      && r.events[n + k] == TransformRequested(PromptFor(p.profile, p.text))
      && (w.floatingAlive ==> r.events[n] == StatusSent(BusyStatus(flow)) && r.events[n + 2] == StatusSent(IdleStatus))
      && (forall i :: |s.events| <= i < |r.events| && i != n + k ==> !IsTransform(r.events[i]))
  {
    FinishShape(p, flow, w, result);
    var c := CallEvents(flow, w, PromptFor(p.profile, p.text));
    var a := AfterCall(flow, w, p.previousApp, result);
    CallEventsShape(flow, w, PromptFor(p.profile, p.text));
    PrefixOf(p.state.events, c + a);
    CallOnly(s, p, flow, w, result);
  }

  lemma CallOnly(s: Os, p: Prep, flow: Flow, w: Activation, result: string)
    requires p.Ready? && Prepared(s, flow, w, p)
    ensures var r := Finish(p, flow, w, result).0;
      var k := if w.floatingAlive then 1 else 0;
      forall i :: |s.events| <= i < |r.events| && i != |p.state.events| + k ==> !IsTransform(r.events[i])
  {
    FinishShape(p, flow, w, result);
    var c := CallEvents(flow, w, PromptFor(p.profile, p.text));
    var a := AfterCall(flow, w, p.previousApp, result);
    CallEventsShape(flow, w, PromptFor(p.profile, p.text));
    AfterCallShape(flow, w, p.previousApp, result);
    var r := Finish(p, flow, w, result).0;
    var k := if w.floatingAlive then 1 else 0;
    forall i | |s.events| <= i < |r.events| && i != |p.state.events| + k ensures !IsTransform(r.events[i]) {
      Locate(s.events, p.state.events, c, a, i);
    }
  }

  /** When the handler gets as far as the language model, it sends exactly the chosen
      preset's prompt, a blank line and the selection; the busy status (when the floating
      window is alive) immediately precedes the call and the idle status immediately
      follows it; no other call is made. */
  lemma TransformBracketedByStatus(s: Os, flow: Flow, w: Activation)
    requires Prepare(s, flow, w).Ready?
    ensures var p := Prepare(s, flow, w);
      var r := HotkeyRun(s, flow, w).0;
      var n := |p.state.events|;
      var k := if w.floatingAlive then 1 else 0;
      && LoadConfig(s.File(flow)).0.Document? && p.profile in FirstNine(LoadConfig(s.File(flow)).0.profiles)
      && !IsBlank(p.text)
      && |r.events| > n + 2 * k
      && r.events[..n] == p.state.events
      && r.events[n + k] == TransformRequested(p.profile.prompt + "\n\n" + p.text)
      && (w.floatingAlive ==> r.events[n] == StatusSent(BusyStatus(flow)) && r.events[n + 2] == StatusSent(IdleStatus))
      && (forall i :: |s.events| <= i < |r.events| && i != n + k ==> !IsTransform(r.events[i]))
  {
    PrepareIsPrepared(s, flow, w);
    FinishBracketed(s, Prepare(s, flow, w), flow, w, TransformText(w.apiKey, w.reply));
  }

  lemma FinishLastIdle(s: Os, p: Prep, flow: Flow, w: Activation, result: string, i: nat)
    requires Prepared(s, flow, w, p)
    requires |s.events| <= i < |Finish(p, flow, w, result).0.events|
    requires IsStatus(Finish(p, flow, w, result).0.events[i])
    ensures exists j :: i <= j < |Finish(p, flow, w, result).0.events| && Finish(p, flow, w, result).0.events[j] == StatusSent(IdleStatus)
  {
    FinishShape(p, flow, w, result);
    var r := Finish(p, flow, w, result).0;
    if p.Ready? {
      var c := CallEvents(flow, w, PromptFor(p.profile, p.text));
      var a := AfterCall(flow, w, p.previousApp, result);
      CallEventsShape(flow, w, PromptFor(p.profile, p.text));
      AfterCallShape(flow, w, p.previousApp, result);
      var n := |p.state.events|;
      Locate(s.events, p.state.events, c, a, i);
      if r.events[i] != StatusSent(IdleStatus) {
        assert i == n;
        Locate(s.events, p.state.events, c, a, n + 2);
        assert r.events[n + 2] == StatusSent(IdleStatus);
      }
    } else if !p.outcome.ConfigThrew? {
      assert r.events == p.state.events + ([] + []);
      Locate(s.events, p.state.events, [], [], i);
    } else {
      assert r.events[|r.events| - 1] == StatusSent(IdleStatus);
    }
  }

  /** The last status message a run sends, if any, is the idle status: busy is never left
      standing, not even when the delivery throws or the configuration cannot be read. */
  lemma LastStatusIsIdle(s: Os, flow: Flow, w: Activation, i: nat)
    requires |s.events| <= i < |HotkeyRun(s, flow, w).0.events|
    requires IsStatus(HotkeyRun(s, flow, w).0.events[i])
    ensures exists j :: i <= j < |HotkeyRun(s, flow, w).0.events| && HotkeyRun(s, flow, w).0.events[j] == StatusSent(IdleStatus)
  {
    PrepareIsPrepared(s, flow, w);
    FinishLastIdle(s, Prepare(s, flow, w), flow, w, TransformText(w.apiKey, w.reply), i);
  }

  /** The log of a run whose configuration threw holds no delivery. */
  lemma ConfigThrewQuiet(base: seq<Event>, tail: seq<Event>)
    requires forall j :: 0 <= j < |tail| ==> tail[j].ConfigSeeded? || tail[j].StatusSent?
    ensures forall i :: |base| <= i < |base + tail| ==> !IsDelivery((base + tail)[i])
  {
    forall i | |base| <= i < |base + tail| ensures !IsDelivery((base + tail)[i]) {
      assert (base + tail)[i] == tail[i - |base|];
    }
  }

  /** From `base` on, the log holds no clipboard write of text and no paste keystroke, and
      every dialog shows `result` at `bounds` and appears only in a run that delivered it; for
      a result without `&` its markup is exactly the program's `<`/`>` escaping. */
  predicate NoPasteAfter(base: seq<Event>, evs: seq<Event>, outcome: RunOutcome, result: string, bounds: Rect) {
    && (forall i :: |base| <= i < |evs| ==> evs[i] != KeysSent("^v") && !(evs[i].ClipboardWritten? && evs[i].text != ""))
    && (forall i :: |base| <= i < |evs| && evs[i].ResultShown? ==>
          && outcome == Delivered(result) && DecodeText(evs[i].markup) == result && evs[i].bounds == bounds
          && ('&' !in result ==> evs[i].markup == EscapeAngles(result)))
  }

  lemma NoPasteIn(base: seq<Event>, pre: seq<Event>, c: seq<Event>, a: seq<Event>, outcome: RunOutcome, result: string,
                  bounds: Rect)
    requires |base| <= |pre| && Quiet(pre[|base|..])
    requires forall j :: 0 <= j < |c| ==> !IsDelivery(c[j])
    requires forall j :: 0 <= j < |a| ==> a[j] != KeysSent("^v") && !(a[j].ClipboardWritten? && a[j].text != "")
    requires forall j :: 0 <= j < |a| && a[j].ResultShown? ==>
               outcome == Delivered(result) && a[j].markup == EscapeMarkup(result) && a[j].bounds == bounds
    ensures NoPasteAfter(base, pre + (c + a), outcome, result, bounds)
  {
    EscapeMarkupShowsText(result);
    if '&' !in result {
      EscapeAnglesAgrees(result);
    }
    forall i | |base| <= i < |pre + (c + a)|
      ensures (pre + (c + a))[i] != KeysSent("^v") && !((pre + (c + a))[i].ClipboardWritten? && (pre + (c + a))[i].text != "")
      ensures (pre + (c + a))[i].ResultShown? ==> outcome == Delivered(result) && DecodeText((pre + (c + a))[i].markup) == result
                                                  && (pre + (c + a))[i].bounds == bounds
      ensures (pre + (c + a))[i].ResultShown? && '&' !in result ==> (pre + (c + a))[i].markup == EscapeAngles(result)
    {
      Locate(base, pre, c, a, i);
    }
  }

  lemma FinishNeverPastes(s: Os, p: Prep, w: Activation, result: string)
    requires Prepared(s, SelectionFlow, w, p)
    ensures var r := Finish(p, SelectionFlow, w, result).0;
      && (r.clipboard == s.clipboard || r.clipboard == "")
      && NoPasteAfter(s.events, r.events, Finish(p, SelectionFlow, w, result).1, result,
                      DialogBounds(result, w.dialogCursor, w.dialogDisplay))
  {
    if p.Abort? {
      AbortNeverPastes(s, p, w, result, DialogBounds(result, w.dialogCursor, w.dialogDisplay));
    } else {
      ReadyNeverPastes(s, p, w, result);
    }
  }

  lemma AbortNeverPastes(s: Os, p: Prep, w: Activation, result: string, bounds: Rect)
    requires Prepared(s, SelectionFlow, w, p) && p.Abort?
    ensures var r := Finish(p, SelectionFlow, w, result).0;
      && (r.clipboard == s.clipboard || r.clipboard == "")
      && NoPasteAfter(s.events, r.events, Finish(p, SelectionFlow, w, result).1, result, bounds)
  {
    FinishShape(p, SelectionFlow, w, result);
    if p.outcome.ConfigThrew? {
      ConfigThrewQuiet(s.events, Seeded(s, SelectionFlow) + Status(w, IdleStatus));
    } else {
      assert p.state.events == p.state.events + ([] + []);
      NoPasteIn(s.events, p.state.events, [], [], p.outcome, result, bounds);
    }
  }

  lemma ReadyNeverPastes(s: Os, p: Prep, w: Activation, result: string)
    requires Prepared(s, SelectionFlow, w, p) && p.Ready?
    ensures var r := Finish(p, SelectionFlow, w, result).0;
      && (r.clipboard == s.clipboard || r.clipboard == "")
      && NoPasteAfter(s.events, r.events, Finish(p, SelectionFlow, w, result).1, result,
                      DialogBounds(result, w.dialogCursor, w.dialogDisplay))
  {
    FinishShape(p, SelectionFlow, w, result);
    CallEventsShape(SelectionFlow, w, PromptFor(p.profile, p.text));
    AfterCallShape(SelectionFlow, w, p.previousApp, result);
    NoPasteIn(s.events, p.state.events, CallEvents(SelectionFlow, w, PromptFor(p.profile, p.text)),
      AfterCall(SelectionFlow, w, p.previousApp, result), Outcome(w, result), result,
      DialogBounds(result, w.dialogCursor, w.dialogDisplay));
  }

  /** The selection flow never pastes: it writes no text to the clipboard (only the capture's
      clearing) and sends no paste keystroke; a dialog appears only for a delivered result
      and shows exactly that result, in markup that for a result without `&` is exactly what
      the program writes, placed on the display nearest the cursor at that moment. */
  lemma SelectionFlowNeverPastes(s: Os, w: Activation)
    ensures var r := HotkeyRun(s, SelectionFlow, w).0;
      && (r.clipboard == s.clipboard || r.clipboard == "")
      && NoPasteAfter(s.events, r.events, HotkeyRun(s, SelectionFlow, w).1, TransformText(w.apiKey, w.reply),
                      DialogBounds(TransformText(w.apiKey, w.reply), w.dialogCursor, w.dialogDisplay))
  {
    PrepareIsPrepared(s, SelectionFlow, w);
    FinishNeverPastes(s, Prepare(s, SelectionFlow, w), w, TransformText(w.apiKey, w.reply));
  }

  lemma LastOf<T>(pre: seq<T>, f: seq<T>, k: nat)
    requires k < |f|
    ensures (pre + f)[|pre + f| - 1 - k] == f[|f| - 1 - k]
  {
  }

  /** A delivered input-flow log ends with the clipboard write and (on macOS and Windows) the
      paste keystroke, right after the return to the previous application. */
  lemma PastesLast(pre: seq<Event>, w: Activation, prompt: string, previousApp: string, result: string)
    requires result != "" && !w.deliveryFails
    ensures var e := pre + (CallEvents(InputFlow, w, prompt) + AfterCall(InputFlow, w, previousApp, result));
      var pastes := w.platform == Darwin || w.platform == Win32;
      var last := |e| - 1;
      && last >= 1
      && (pastes ==> e[last] == KeysSent("^v") && e[last - 1] == ClipboardWritten(result))
      && (!pastes ==> e[last] == ClipboardWritten(result))
      && (w.platform == Darwin && previousApp != "" ==> last >= 2 && e[last - 2] == AppActivated(previousApp))
  {
    var f := CallEvents(InputFlow, w, prompt) + AfterCall(InputFlow, w, previousApp, result);
    LastOf(pre, f, 0);
    LastOf(pre, f, 1);
    if w.platform == Darwin && previousApp != "" {
      LastOf(pre, f, 2);
    }
  }

  /** A run that ended in `outcome` delivered `result` by pasting: exactly the result is on
      the clipboard, the log ends with the clipboard write and (on macOS and Windows) the
      paste keystroke, right after the return to the previous application on macOS. */
  predicate PastedLast(r: Os, outcome: RunOutcome, w: Activation, result: string) {
    var pastes := w.platform == Darwin || w.platform == Win32;
    var last := |r.events| - 1;
    && outcome == Delivered(result) && result != ""
    && r.clipboard == result
    && last >= 1
    && (pastes ==> r.events[last] == KeysSent("^v") && r.events[last - 1] == ClipboardWritten(result))
    && (!pastes ==> r.events[last] == ClipboardWritten(result))
    && (w.platform == Darwin && w.frontApp != "" ==> last >= 2 && r.events[last - 2] == AppActivated(w.frontApp))
  }

  lemma FinishDelivers(s: Os, p: Prep, w: Activation, result: string)
    requires Prepared(s, InputFlow, w, p)
    requires Finish(p, InputFlow, w, result).1.Delivered?
    ensures PastedLast(Finish(p, InputFlow, w, result).0, Finish(p, InputFlow, w, result).1, w, result)
  {
    FinishShape(p, InputFlow, w, result);
    PastesLast(p.state.events, w, PromptFor(p.profile, p.text), p.previousApp, result);
  }

  /** The input flow delivers a non-empty result by putting exactly it on the clipboard, after
      returning to the previous application on macOS, and sends the paste keystroke last
      exactly on macOS and Windows. */
  lemma InputFlowPastesResult(s: Os, w: Activation)
    requires HotkeyRun(s, InputFlow, w).1.Delivered?
    ensures PastedLast(HotkeyRun(s, InputFlow, w).0, HotkeyRun(s, InputFlow, w).1, w, TransformText(w.apiKey, w.reply))
  {
    PrepareIsPrepared(s, InputFlow, w);
    FinishDelivers(s, Prepare(s, InputFlow, w), w, TransformText(w.apiKey, w.reply));
  }

  lemma FinishEmptyResult(s: Os, p: Prep, flow: Flow, w: Activation, result: string)
    requires Prepared(s, flow, w, p)
    requires Finish(p, flow, w, result).1 == EmptyResult
    ensures var r := Finish(p, flow, w, result).0;
      && (r.clipboard == s.clipboard || r.clipboard == "")
      && (forall i :: |s.events| <= i < |r.events| ==> !IsDelivery(r.events[i]))
  {
    FinishShape(p, flow, w, result);
    var r := Finish(p, flow, w, result).0;
    var c := CallEvents(flow, w, PromptFor(p.profile, p.text));
    var a := AfterCall(flow, w, p.previousApp, result);
    CallEventsShape(flow, w, PromptFor(p.profile, p.text));
    AfterCallShape(flow, w, p.previousApp, result);
    forall i | |s.events| <= i < |r.events| ensures !IsDelivery(r.events[i]) {
      Locate(s.events, p.state.events, c, a, i);
    }
  }

  /** An empty result ends the run after the idle status: nothing is delivered. */
  lemma EmptyResultDeliversNothing(s: Os, flow: Flow, w: Activation)
    requires HotkeyRun(s, flow, w).1 == EmptyResult
    ensures var r := HotkeyRun(s, flow, w).0;
      && (r.clipboard == s.clipboard || r.clipboard == "")
      && (forall i :: |s.events| <= i < |r.events| ==> !IsDelivery(r.events[i]))
  {
    PrepareIsPrepared(s, flow, w);
    FinishEmptyResult(s, Prepare(s, flow, w), flow, w, TransformText(w.apiKey, w.reply));
  }
}
