/** The Electron main process of `archive/main.js` as an object: its module-level state
    (the clipboard as far as the process wrote it, the effect log, the accelerators it holds,
    the two flows' current accelerators, the selector window and its shortcuts, and the two configuration
    files) are fields, and each operation updates them step by step. Every method is proved
    to agree with the state function of the same name in `HotkeyPipeline`, where the
    properties of the pipeline are proved. */
module MainProcess {
  import opened Wrappers
  import opened Text
  import opened Sections
  import opened Effects
  import opened MainConfig
  import opened Capture
  import opened SelectorOverlay
  import opened Transform
  import opened ResultDialog
  import opened ElectronAccelerators
  import opened HotkeyPipeline

  class ElectronMain {
    var clipboard: string
    var events: seq<Event>
    var shortcuts: set<string>
    var currentHotkey: Option<string>
    var currentSelectionHotkey: Option<string>
    var selectorOpen: bool
    var selectorKeys: seq<string>
    var inputFile: ConfigFile
    var selectionFile: ConfigFile

    /** The state of the process as a value. */
    function Snapshot(): Os
      reads this
    {
      Os(clipboard, events, shortcuts, currentHotkey, currentSelectionHotkey, selectorOpen, selectorKeys, inputFile, selectionFile)
    }

    constructor (inputFile: ConfigFile, selectionFile: ConfigFile)
      ensures Snapshot() == Os("", [], {}, None, None, false, [], inputFile, selectionFile)
    {
      clipboard := "";
      events := [];
      shortcuts := {};
      currentHotkey := None;
      currentSelectionHotkey := None;
      selectorOpen := false;
      selectorKeys := [];
      this.inputFile := inputFile;
      this.selectionFile := selectionFile;
    }

    /** `loadInputFieldConfig()` / `loadSelectionConfig()`. */
    method LoadFlowConfig(flow: Flow) returns (doc: Document)
      modifies this
      ensures (doc, Snapshot()) == LoadStep(old(Snapshot()), flow)
    {
      var current := if flow == InputFlow then inputFile else selectionFile;
      var file;
      doc, file := LoadConfig(current).0, LoadConfig(current).1;
      if flow == InputFlow {
        inputFile := file;
      } else {
        selectionFile := file;
      }
      if !current.Stored? {
        events := events + [ConfigSeeded(flow)];
      }
      ghost var s := old(Snapshot());
      assert current == s.File(flow);
      assert doc == LoadStep(s, flow).0;
      assert events == LoadStep(s, flow).1.events;
      assert inputFile == LoadStep(s, flow).1.inputFile;
      assert selectionFile == LoadStep(s, flow).1.selectionFile;
      assert clipboard == LoadStep(s, flow).1.clipboard;
    }

    /** `floatingWindow.webContents.send('ai-processing', status)` when the floating window
        is alive. */
    method SendStatus(w: Activation, status: string)
      modifies this
      ensures Snapshot() == old(Snapshot()).(events := old(events) + Status(w, status))
    {
      if w.floatingAlive {
        events := events + [StatusSent(status)];
      }
    }

    /** `copySelectionText()`: clear the clipboard, then copy and read it. */
    method CopySelectionText(script: seq<ReadOutcome>) returns (text: string)
      modifies this
      ensures (text, Snapshot()) == CaptureStep(old(Snapshot()), script)
    {
      clipboard := "";
      var log;
      text, log := ReadSelection(script);
      events := events + log;
    }

    /** The copy keystroke and the clipboard reads of `copySelectionText()`: read until the
        text is not blank, at most eight more times, copying again before the fifth read; a
        read that throws ends the capture with "". Returns the text and the effects. */
    static method ReadSelection(script: seq<ReadOutcome>) returns (text: string, log: seq<Event>)
      ensures text == CaptureRun(script).text
      ensures log == CaptureEvents(CaptureRun(script).readCount)
    {
      log := [ClipboardWritten(""), KeysSent("^c"), ClipboardRead];
      var read := ReadAt(script, 0);
      var threw := read.ReadFails?;
      text := if threw then "" else read.text;
      var attempts := 0;
      while !threw && IsBlank(text) && attempts < MaxRetries
        invariant 0 <= attempts <= MaxRetries
        invariant log == CaptureEvents(attempts + 1)
        invariant !threw ==> ScanFrom(script, attempts, text) == CaptureRun(script)
        invariant threw ==> CaptureRun(script) == Outcome("", attempts + 1, true) && text == ""
        decreases MaxRetries - attempts
      {
        CaptureEventsStep(attempts + 1);
        if attempts == RecopyAttempt {
          log := log + [KeysSent("^c")];
        }
        log := log + [ClipboardRead];
        read := ReadAt(script, attempts + 1);
        threw := read.ReadFails?;
        text := if threw then "" else read.text;
        attempts := attempts + 1;
      }
      assert CaptureRun(script) == Outcome(text, attempts + 1, threw);
    }

    /** `registerSelectorShortcuts(count)`: try Escape and the digits 1..min(9, count) in
        turn. Returns the bindings whose registration succeeded. */
    method RegisterSelectorShortcuts(count: nat, refused: set<string>) returns (active: seq<Binding>)
      modifies this
      ensures active == Registerable(SelectorBindings(count), old(shortcuts) + refused)
      ensures Snapshot() == old(Snapshot()).(
        shortcuts := old(shortcuts) + KeySet(Accelerators(active)),
        events := old(events) + Registrations(Accelerators(active)))
    {
      var holding;
      active, holding := TryRegister(SelectorBindings(count), shortcuts, refused);
      shortcuts := holding;
      events := events + Registrations(Accelerators(active));
    }

    /** The `reg` helper over a list of bindings: `globalShortcut.register` succeeds unless
        another application (`refused`) or this process (`holding`) already holds the
        accelerator, and a success pushes the accelerator. */
    static method TryRegister(bs: seq<Binding>, holding0: set<string>, refused: set<string>)
      returns (active: seq<Binding>, holding: set<string>)
      ensures active == Registerable(bs, holding0 + refused)
      ensures holding == holding0 + KeySet(Accelerators(active))
    {
      ghost var held := holding0 + refused;
      holding := holding0;
      active := [];
      var i := 0;
      while i < |bs|
        invariant 0 <= i <= |bs|
        invariant active == Registerable(bs[..i], held)
        invariant holding == holding0 + KeySet(Accelerators(active))
      {
        var b := bs[i];
        assert bs[..i + 1][..i] == bs[..i];
        var ok := b.accelerator !in refused && b.accelerator !in holding;
        if ok {
          holding := holding + {b.accelerator};
          assert Accelerators(active + [b]) == Accelerators(active) + [b.accelerator];
          active := active + [b];
        }
        i := i + 1;
      }
      assert bs[..i] == bs;
    }

    /** `unregisterSelectorShortcuts()`: release every registered selector accelerator. */
    method UnregisterSelectorShortcuts(keys: seq<string>)
      modifies this
      ensures Snapshot() == old(Snapshot()).(
        shortcuts := old(shortcuts) - KeySet(keys),
        events := old(events) + Unregistrations(keys))
    {
      var j := 0;
      while j < |keys|
        invariant 0 <= j <= |keys|
        invariant shortcuts == old(shortcuts) - KeySet(keys[..j])
        invariant events == old(events) + Unregistrations(keys[..j])
        invariant Snapshot() == old(Snapshot()).(shortcuts := shortcuts, events := events)
      {
        assert KeySet(keys[..j + 1]) == KeySet(keys[..j]) + {keys[j]};
        assert Unregistrations(keys[..j + 1]) == Unregistrations(keys[..j]) + [ShortcutUnregistered(keys[j])];
        shortcuts := shortcuts - {keys[j]};
        events := events + [ShortcutUnregistered(keys[j])];
        j := j + 1;
      }
      assert keys[..j] == keys;
    }

    /** Deliver the overlay's events one at a time until the first one that settles it: a
        registered shortcut, a choice message or the window closing. */
    static method AwaitChoice(active: seq<Binding>, evs: seq<OverlayEvent>) returns (res: Resolution)
      ensures res == Resolve(active, evs)
    {
      res := Unresolved;
      var k := 0;
      while k < |evs| && res.Unresolved?
        invariant 0 <= k <= |evs|
        invariant Resolve(active, evs) == if res.Unresolved? then Resolve(active, evs[k..]) else res
      {
        assert evs[k..][1..] == evs[k + 1..];
        match evs[k] {
          case KeyPressed(a) =>
            var hit := Lookup(active, a);
            if hit.Some? {
              res := ByKey(hit.value);
            }
          case ChoiceMessage(i) =>
            res := ByMessage(i);
          case WindowClosed =>
            res := ByClose;
        }
        k := k + 1;
      }
    }

    /** `showSelectorOverlay(profiles)` for a list of `count` presets: close a selector left
        open (its `closed` handler releasing that overlay's shortcuts), open the new one, register its shortcuts, and settle on the first event. */
    method ShowSelectorOverlay(count: nat, cursor: Point, display: Option<Display>, refused: set<string>,
                               evs: seq<OverlayEvent>) returns (settled: Settled)
      modifies this
      ensures (settled, Snapshot()) == OverlayStep(old(Snapshot()), count, cursor, display, refused, evs)
    {
      if count == 0 {
        return Settled(None);
      }
      ghost var s := Snapshot();
      ReplaceOpenSelector();
      settled := RunOverlay(count, cursor, display, refused, evs);
      OverlayStepSettles(s, count, cursor, display, refused, evs);
      SettleAfterReplacing(s, SelectorOpened(SelectorBounds(count, cursor, display)), OverlayKeys(s, count, refused),
                           Resolve(Registerable(SelectorBindings(count), OtherShortcuts(s) + refused), evs));
    }

    /** The overlay once no earlier selector window is open: open the window, register its
        shortcuts, and settle on the first event. */
    method RunOverlay(count: nat, cursor: Point, display: Option<Display>, refused: set<string>,
                      evs: seq<OverlayEvent>) returns (settled: Settled)
      modifies this
      ensures var active := Registerable(SelectorBindings(count), old(shortcuts) + refused);
        (settled, Snapshot()) == SettleOverlay(old(Snapshot()), [SelectorOpened(SelectorBounds(count, cursor, display))],
                                               old(shortcuts), Accelerators(active), Resolve(active, evs))
    {
      var active := OpenSelector(count, cursor, display, refused);
      var keys := Accelerators(active);
      var res := AwaitChoice(active, evs);
      CloseSelector(res, keys);
      settled := SettledOf(res);
    }

    /** Create the selector window and, once it has loaded, register its shortcuts
        (`registerSelectorShortcuts`); they become the open overlay's `registeredKeys`. */
    method OpenSelector(count: nat, cursor: Point, display: Option<Display>, refused: set<string>)
      returns (active: seq<Binding>)
      modifies this
      ensures active == Registerable(SelectorBindings(count), old(shortcuts) + refused)
      ensures Snapshot() == old(Snapshot()).(
        events := old(events) + [SelectorOpened(SelectorBounds(count, cursor, display))] + Registrations(Accelerators(active)),
        shortcuts := old(shortcuts) + KeySet(Accelerators(active)),
        selectorOpen := true,
        selectorKeys := Accelerators(active))
    {
      events := events + [SelectorOpened(SelectorBounds(count, cursor, display))];
      selectorOpen := true;
      active := RegisterSelectorShortcuts(count, refused);
      selectorKeys := Accelerators(active);
    }

    /** `selectorWindow.close()` on a window left open by an earlier overlay, followed by that
        window's `closed` handler, which releases the earlier overlay's shortcuts. */
    method ReplaceOpenSelector()
      modifies this
      ensures Snapshot() == ReplaceSelector(old(Snapshot()))
    {
      if selectorOpen {
        events := events + [SelectorClosed];
        selectorOpen := false;
        UnregisterSelectorShortcuts(selectorKeys);
        selectorKeys := [];
      }
    }

    /** What follows the first event: while nothing settles the overlay it stays open with its
        shortcuts; a closed window releases them after the close (`closed` handler), any
        other resolution releases them and then closes the window (`cleanup`). */
    method CloseSelector(res: Resolution, keys: seq<string>)
      modifies this
      ensures Snapshot() == old(Snapshot()).(
        events := old(events) + ClosingEvents(res, keys),
        selectorOpen := old(selectorOpen) && res.Unresolved?,
        selectorKeys := if res.Unresolved? then old(selectorKeys) else [],
        shortcuts := if res.Unresolved? then old(shortcuts) else old(shortcuts) - KeySet(keys))
    {
      if res.ByClose? {
        events := events + [SelectorClosed];
        selectorOpen := false;
        UnregisterSelectorShortcuts(keys);
        selectorKeys := [];
        assert events == old(events) + ([SelectorClosed] + Unregistrations(keys));
      } else if !res.Unresolved? {
        UnregisterSelectorShortcuts(keys);
        events := events + [SelectorClosed];
        selectorOpen := false;
        selectorKeys := [];
        assert events == old(events) + (Unregistrations(keys) + [SelectorClosed]);
      }
    }

    /** Unregister a flow's current accelerator, if any, and forget it. */
    method ReleaseFlow(flow: Flow)
      modifies this
      ensures Snapshot() == Release(old(Snapshot()), flow)
    {
      var current := if flow == InputFlow then currentHotkey else currentSelectionHotkey;
      if current.Some? {
        shortcuts := shortcuts - {current.value};
        events := events + [ShortcutUnregistered(current.value)];
        if flow == InputFlow {
          currentHotkey := None;
        } else {
          currentSelectionHotkey := None;
        }
      }
    }

    /** Register a flow's handler under the accelerator of `hotkey`; keep the accelerator
        as the flow's current one when `globalShortcut.register` reports success. `threw`
        says that the call threw instead of returning. */
    method ClaimFlow(flow: Flow, hotkey: string, refused: set<string>, unparsable: set<string>) returns (threw: bool)
      modifies this
      ensures threw == Throws(hotkey, unparsable)
      ensures Snapshot() == Claim(old(Snapshot()), flow, hotkey, refused, unparsable)
    {
      threw := false;
      if hotkey != "" {
        var accelerator := ElectronAccelerator(hotkey);
        if accelerator in unparsable {
          return true;
        }
        var ok := accelerator !in refused && accelerator !in shortcuts;
        if ok {
          shortcuts := shortcuts + {accelerator};
          events := events + [ShortcutRegistered(accelerator)];
          if flow == InputFlow {
            currentHotkey := Some(accelerator);
          } else {
            currentSelectionHotkey := Some(accelerator);
          }
        }
      }
    }

    /** `registerGlobalHotkey()`: load both configurations, release both previous
        accelerators, then register the input flow's and the selection flow's hotkeys;
        `threw` says that a register call threw, which ends the function there. */
    method RegisterGlobalHotkey(refused: set<string>, unparsable: set<string>) returns (threw: bool)
      modifies this
      ensures (Snapshot(), threw) == RegisterRun(old(Snapshot()), refused, unparsable)
    {
      ghost var s := Snapshot();
      var inputDoc := LoadFlowConfig(InputFlow);
      var selectionDoc := LoadFlowConfig(SelectionFlow);
      ReleaseFlow(InputFlow);
      ReleaseFlow(SelectionFlow);
      assert Snapshot() == Released(s);
      threw := ClaimFlow(InputFlow, HotkeyOf(inputDoc), refused, unparsable);
      if threw {
        return;
      }
      threw := ClaimFlow(SelectionFlow, HotkeyOf(selectionDoc), refused, unparsable);
    }

    /** One activation of a flow's hotkey handler: `w` fixes what the environment does
        (platform, clipboard contents, overlay events, the language model's reply). */
    method RunHotkey(flow: Flow, w: Activation) returns (outcome: RunOutcome)
      modifies this
      ensures (Snapshot(), outcome) == HotkeyRun(old(Snapshot()), flow, w)
    {
      var p := PrepareRun(flow, w);
      outcome := FinishRun(p, flow, w, TransformText(w.apiKey, w.reply));
    }

    /** The handler up to the language-model call: load the flow's configuration, take its
        first nine presets, capture the selection, let the user choose, capture again when
        the first capture is blank. */
    method PrepareRun(flow: Flow, w: Activation) returns (p: Prep)
      modifies this
      ensures p == Prepare(old(Snapshot()), flow, w) && Snapshot() == p.state
    {
      var doc := LoadFlowConfig(flow);
      if doc.NullDocument? {
        SendStatus(w, IdleStatus);
        return Abort(Snapshot(), ConfigThrew);
      }
      var profiles := FirstNine(doc.profiles);
      if profiles == [] {
        return Abort(Snapshot(), NoProfiles);
      }
      p := ChooseRun(profiles, PreviousApp(w), w);
    }

    /** Capture, then the overlay, then the chosen preset and a second capture if needed. */
    method ChooseRun(profiles: seq<Profile>, previousApp: string, w: Activation) returns (p: Prep)
      requires profiles != []
      modifies this
      ensures p == Choose(old(Snapshot()), profiles, previousApp, w) && Snapshot() == p.state
    {
      var first := CopySelectionText(w.firstReads);
      var settled := ShowSelectorOverlay(|profiles|, w.cursor, w.display, w.refused, w.overlay);
      if settled.Hangs? {
        return Abort(Snapshot(), SelectorHangs);
      }
      if settled.choice.None? || settled.choice.value < 0 {
        return Abort(Snapshot(), Cancelled);
      }
      if settled.choice.value >= |profiles| {
        return Abort(Snapshot(), NoSuchProfile);
      }
      var profile := profiles[settled.choice.value];
      var text := first;
      if IsBlank(first) {
        text := CopySelectionText(w.secondReads);
        if IsBlank(text) {
          return Abort(Snapshot(), NothingCaptured);
        }
      }
      p := Ready(Snapshot(), profile, text, previousApp);
    }

    /** The handler from the language-model call on, given its `result`. */
    method FinishRun(p: Prep, flow: Flow, w: Activation, result: string) returns (outcome: RunOutcome)
      requires Snapshot() == p.state
      modifies this
      ensures (Snapshot(), outcome) == Finish(p, flow, w, result)
    {
      if p.Abort? {
        return p.outcome;
      }
      ghost var s := Snapshot();
      SendStatus(w, BusyStatus(flow));
      events := events + [TransformRequested(PromptFor(p.profile, p.text))];
      SendStatus(w, IdleStatus);
      assert events == s.events + CallEvents(flow, w, PromptFor(p.profile, p.text));
      outcome := Deliver(flow, w, p.previousApp, result);
      FinishReady(p, flow, w, result);
      Associate(s.events, CallEvents(flow, w, PromptFor(p.profile, p.text)), AfterCall(flow, w, p.previousApp, result));
    }

    /** After the call: nothing for an empty result; otherwise return to the previous
        application on macOS, then paste (input flow) or show the dialog (selection flow).
        A failing delivery lands in the catch block, which sends the idle status. */
    method Deliver(flow: Flow, w: Activation, previousApp: string, result: string) returns (outcome: RunOutcome)
      modifies this
      ensures outcome == HotkeyPipeline.Outcome(w, result)
      ensures Snapshot() == old(Snapshot()).(
        events := old(events) + AfterCall(flow, w, previousApp, result),
        clipboard := if flow == InputFlow && outcome.Delivered? then result else old(clipboard))
    {
      if result == "" {
        return EmptyResult;
      }
      if w.platform == Darwin && previousApp != "" {
        events := events + [AppActivated(previousApp)];
      }
      outcome := DeliverResult(flow, w, result);
      assert events == old(events) + AfterCall(flow, w, previousApp, result);
    }

    /** Paste the result (input flow) or show it in the dialog (selection flow); a
        failure sends the idle status from the catch block. */
    method DeliverResult(flow: Flow, w: Activation, result: string) returns (outcome: RunOutcome)
      requires result != ""
      modifies this
      ensures outcome == HotkeyPipeline.Outcome(w, result)
      ensures Snapshot() == old(Snapshot()).(
        events := old(events) + (if w.deliveryFails then Status(w, IdleStatus) else DeliveryEvents(flow, w, result)),
        clipboard := if flow == InputFlow && !w.deliveryFails then result else old(clipboard))
    {
      if w.deliveryFails {
        SendStatus(w, IdleStatus);
        return DeliveryThrew;
      }
      if flow == InputFlow {
        clipboard := result;
        events := events + [ClipboardWritten(result)];
        if w.platform == Darwin || w.platform == Win32 {
          events := events + [KeysSent("^v")];
        }
      } else {
        events := events + [ResultShown(EscapeMarkup(result), DialogBounds(result, w.dialogCursor, w.dialogDisplay))];
      }
      outcome := Delivered(result);
    }
  }
}
