# ShortCutAI core, modelled in Dafny

ShortCutAI is a desktop helper. A global hotkey captures the text selected in any
application. The user then picks a preset (a named prompt) from a small overlay. The prompt
and the selection go to a language model. The answer is pasted back (the "input field" flow)
or shown in a dialog (the "selection" flow). The repository holds three generations of the
application: an Electron main process, React settings screens, and a Tauri front end with a
Rust back end.

This project models the parts of those generations that make decisions. Every operating-system
effect (clipboard, keystrokes, windows, global shortcuts, the network, files) is either an
oracle argument or an event appended to a log. Delays are plain steps.

| module | file | models |
|---|---|---|
| `Wrappers`, `Text`, `Js`, `Sections` | wrappers.dfy, text.dfy, js.dfy, sections.dfy | shared vocabulary: `Option`/`Result`; JavaScript `trim`, `split`, `join`, decimal printing and `parseInt`, ASCII case mapping; JavaScript values and truthiness; the three preset views |
| `Effects` | effects.dfy | the outward effects of the Electron main process |
| `MainConfig` | main_config.dfy | the two configuration files, default seeding, the nine-preset cap |
| `ElectronAccelerators` | accelerators.dfy | the hotkey-to-accelerator translation of `registerGlobalHotkey` |
| `Capture` | capture.dfy | the clipboard retry loop of `copySelectionText` |
| `Transform` | transform.dfy | how `callGptWithPrompt` takes the text out of a response |
| `SelectorOverlay` | overlay.dfy | size, placement, shortcuts and one-shot resolution of `showSelectorOverlay` |
| `ResultDialog` | result_dialog.dfy | size and markup escaping of `showResultDialog` |
| `HotkeyPipeline` | pipeline.dfy | one state-transformer function per operation of the main process, and the properties of a whole hotkey activation |
| `MainProcess` | main_process.dfy | class `ElectronMain`: the same operations performed step by step on fields, each proved equal to its function |
| `PresetEditing` | preset_editing.dfy | the preset lists of the four settings screens, as one class parameterised by the screen |
| `SelectorWindow` | selector.dfy | the keyboard and mouse state machine of the selector page |
| `TauriApp` | tauri_app.dfy | the preset state of the Tauri front end |
| `PresetStore` | preset_store.dfy | the Rust preset store: persisted-state defaults and a write-through cache over a file |
| `FloatingWindow` | floating_window.dfy | the preset lists of the Tauri floating window |
| `FloatingButton` | floating_button.dfy | the processing indicator of the Electron floating button |
| `Logs` | logs.dfy | the diagnostics panel: level filter, newest-first display, clear guard |

The four settings screens (`electron/src/InputField.jsx`, `src/InputField.jsx`,
`electron/src/Popup.jsx`, `src/Selection.jsx`) share one editing logic. They differ in the name
prefix ("Preset " or "Profile "), in what their general configuration holds and in when they
save. `PresetEditing.PresetEditor` takes the screen as a constructor argument. The table cites
each screen's own lines.

The two selector pages (`archive/src/selector-main.jsx` and `src/selector-main.jsx`) have the
same logic and differ only in styling. One class models both.

Notes on the code:
- `deletePreset` in `rust/src/App.tsx` moves the active id of a view only when the active
  id was the deleted one. Otherwise it keeps the active id as it was.
- `normalizeState` in `FloatingWindowApp.tsx` keeps a section's length only when every
  entry is an object, an array or missing. `.filter(Boolean)` drops entries such as `0`,
  `false` or `""` (`FloatingWindow.FalsyEntryDropped`).
- `handleDeleteProfile` filters by id, so a delete "never empties the list" only when ids
  are unique (`PresetEditing.DeleteKeepsOne`).

## Model

| member | source | states |
|---|---|---|
| `MainConfig.LoadConfig` | archive/main.js:142-197 | afterwards the input-field file is stored and holds the returned document; a stored file is left as it is; the same for the selection file |
| `MainConfig.LoadConfigSeedsOnce` | archive/main.js:142-164 | loading twice gives what loading once gives, so the default is written at most once; a missing or unreadable file yields the single default preset and an empty hotkey |
| `MainConfig.FirstNine` | archive/main.js:384 | `slice(0, 9)`: a prefix of at most nine; the list itself when it has nine or fewer, exactly nine otherwise |
| `MainConfig.CappedProfiles` | archive/main.js:344-350 | an array stays an array; one of nine or fewer entries is unchanged and a longer one becomes exactly its first nine entries; a non-array is unchanged |
| `MainConfig.CappedProfilesIdempotent` | archive/main.js:344-350 | applying the limit twice equals applying it once |
| `MainConfig.EnforceProfileLimit` | archive/main.js:344-350 | returns the object it was given (or null); its `profiles` property becomes the capped value, changed in place |
| `ElectronAccelerators.AcceleratorToken` | archive/main.js:360-364 | renaming a token neither adds nor removes a `+` |
| `ElectronAccelerators.MapTokens` | archive/main.js:360-364 | each token is renamed on its own, in order, and the count is kept |
| `ElectronAccelerators.ElectronAccelerator` | archive/main.js:357-358 | the empty hotkey gives the empty accelerator |
| `ElectronAccelerators.ElectronAcceleratorTokens` | archive/main.js:357-365 | the accelerator's `+` tokens are the hotkey's tokens, each with `Ctrl` renamed `CommandOrControl` and `Meta` renamed `Super`; the token count is kept |
| `ElectronAccelerators.ElectronAcceleratorInjective` | archive/main.js:357-365 | two hotkeys without tokens already spelled `CommandOrControl` or `Super` that give the same accelerator are equal |
| `Capture.Explains` | archive/main.js:296-312 | the shape of every capture outcome: one to nine reads; all reads but the last were blank strings; the last one threw (result "") or gave the result, which is non-blank unless all eight retries were used |
| `Capture.ScanFromShape` | archive/main.js:299-307 | the retry loop, entered after blank reads, produces an outcome of that shape |
| `Capture.CaptureShape` | archive/main.js:288-313 | every capture produces an outcome of that shape |
| `Capture.CaptureFirstNonBlank` | archive/main.js:299-309 | the first read that is not a blank string ends the capture; its text is returned, or "" when it threw |
| `Capture.RecopyIffFourBlankReads` | archive/main.js:300-303 | the copy keystroke is sent a second time exactly when the first four reads were blank strings |
| `Capture.Reads` | archive/main.js:305 | n reads log n clipboard-read events |
| `Capture.CaptureEvents` | archive/main.js:291-305 | the effect log of a capture with n reads |
| `Capture.ReadsCount` | archive/main.js:305 | n reads log exactly n reads and no copy keystroke |
| `Capture.CaptureEventsCount` | archive/main.js:291-305 | the clipboard is cleared first, the copy keystroke comes next, there are exactly n reads, and the keystroke is sent twice exactly when there are more than four reads |
| `Capture.CaptureEventsStep` | archive/main.js:299-307 | one more loop turn appends one read, preceded by the second copy keystroke exactly before the fifth read |
| `Transform.TransformText` | archive/main.js:315-342 | "" without an API key or when the request fails; a non-empty `output_text` is returned as is |
| `Transform.CandidateTextPreferred` | archive/main.js:332-336 | without `output_text`, the first candidate's non-empty `text` is returned |
| `Transform.MessageContentUsed` | archive/main.js:332-336 | without `text`, the first candidate's message content is returned |
| `Transform.EmptyOutputHidesChoices` | archive/main.js:332-337 | an empty `output` array is truthy, so `choices` is never read and the result is "" |
| `SelectorOverlay.SelectorHeight` | archive/main.js:498 | the height is `min(9, n) * 38 + 16` for n presets, between 54 and 358 |
| `SelectorOverlay.WorkArea` | archive/main.js:500-510 | the display's work area is used when present, else its bounds, else the origin with the window's own size; the origin is kept and a zero width or height falls back to the window's own |
| `SelectorOverlay.Place` | archive/main.js:512-521 | x and y never fall left of or above the work area; they stay inside it whenever it is at least as large as the window; a centred position already inside is kept |
| `SelectorOverlay.SelectorBounds` | archive/main.js:496-521 | the overlay is 260 wide and `SelectorHeight` tall |
| `SelectorOverlay.SelectorBindings` | archive/main.js:570-575 | Escape resolving -1 first, then digit i resolving i - 1 for i from 1 to min(9, n) |
| `SelectorOverlay.Accelerators` | archive/main.js:565-569 | the accelerators of the bindings, in order |
| `SelectorOverlay.Registerable` | archive/main.js:565-569 | only bindings whose accelerator is free are registered, and no accelerator twice |
| `SelectorOverlay.RegisterableCovers` | archive/main.js:565-569 | every binding whose accelerator is free is registered |
| `SelectorOverlay.SelectorBindingsDistinct` | archive/main.js:570-575 | the overlay's accelerators are pairwise distinct |
| `SelectorOverlay.Lookup` | archive/main.js:565-567 | finds a binding for an accelerator exactly when one exists |
| `SelectorOverlay.LookupDistinct` | archive/main.js:565-567 | with distinct accelerators, a press finds the index of its own binding |
| `SelectorOverlay.ResolveFirstWins` | archive/main.js:558-593 | once the promise has settled, later events change nothing |
| `SelectorOverlay.SelectorKeysResolve` | archive/main.js:571-574 | Escape resolves -1 and digit d (1 ≤ d ≤ min(9, n)) resolves d - 1 whenever that shortcut was free |
| `SelectorOverlay.BindingResolves` | archive/main.js:558-575 | pressing a registered binding settles with that binding's index |
| `SelectorOverlay.OutOfRangeDigitIgnored` | archive/main.js:573 | a digit beyond the listed presets is not registered and settles nothing |
| `ResultDialog.LongestLine` | archive/main.js:626 | the maximum line length, attained by some line |
| `ResultDialog.DialogWidth` | archive/main.js:626-627 | the width lies in [320, 900] and leaves room for every line that fits in 900 |
| `ResultDialog.DialogHeight` | archive/main.js:625-628 | the height lies in [120, 600] and leaves room for every line when they fit in 600 |
| `ResultDialog.DialogBounds` | archive/main.js:624-650 | the dialog has those sizes, placed by the same clamped placement as the overlay |
| `ResultDialog.ReplaceAll` | archive/main.js:683 | replacing a character by text without it removes it, and adds no other character |
| `ResultDialog.EscapeAngles` | archive/main.js:683 | the escaped text contains no `<` and no `>` |
| `ResultDialog.EscapeAnglesMisrendersEntity` | archive/main.js:683 | a result containing the text `&lt;` is shown as `<` (see Findings) |
| `ResultDialog.EscapeAnglesAgrees` | archive/main.js:683 | on a text without `&` the escaping as written equals the corrected one, so the two differ only for results containing `&` |
| `ResultDialog.EscapeMarkup` | archive/main.js:683 | the corrected escaping also leaves no `<` and no `>` |
| `ResultDialog.DecodeEscapedChar` | archive/main.js:683 | one escaped character decodes back to itself |
| `ResultDialog.EscapeMarkupShowsText` | archive/main.js:683 | the dialog shows exactly the result it was given |
| `HotkeyPipeline.LoadStep` | archive/main.js:142-197 | loading a flow's file returns its document, seeds the file only when it was not stored, logs the seeding, and leaves the other flow's file alone |
| `HotkeyPipeline.CaptureStep` | archive/main.js:288-313 | a capture returns `CaptureRun`'s text and appends exactly its effects |
| `HotkeyPipeline.Registrations` | archive/main.js:567 | one registration event per accelerator, in order |
| `HotkeyPipeline.Unregistrations` | archive/main.js:553-555 | one unregistration event per accelerator, in order |
| `HotkeyPipeline.OverlayStep` | archive/main.js:482-620 | an empty list changes nothing; otherwise the overlay's effects are appended; the clipboard, the files and the flows' accelerators are untouched |
| `HotkeyPipeline.OverlayStepSettles` | archive/main.js:491-593 | an overlay is the replacement of a window left open (its close and the release of its shortcuts), the opening, the registrations of the bindings free once those are released, then what the first settling event does |
| `HotkeyPipeline.OverlayEmptyResolvesNull` | archive/main.js:485-489 | an empty preset list resolves `null` and opens nothing |
| `HotkeyPipeline.OverlayReplacesOpenWindow` | archive/main.js:491-498 | a selector window left open is closed, then its `closed` handler (archive/main.js:589-593) releases that overlay's shortcuts one by one, before the new window opens with the overlay's size |
| `HotkeyPipeline.OverlayReleasesShortcuts` | archive/main.js:549-593 | the accelerators held apart from the open selector's are those held before, a replaced overlay's shortcuts excepted; once settled the window is closed and nothing of the overlay is held; while it hangs the window stays open holding exactly the overlay's shortcuts on top |
| `HotkeyPipeline.OverlayKeysFree` | archive/main.js:565-569 | the overlay registers only accelerators that were neither held apart from a replaced overlay's nor refused |
| `HotkeyPipeline.HungOverlayReplaced` | archive/main.js:589-593 | after an overlay that hangs, the next overlay registers what it would have registered had the hung one never opened, so a free Escape still cancels it |
| `HotkeyPipeline.OverlaySettlesOnFirstEvent` | archive/main.js:558-593 | the first Escape, digit, choice message or window close settles the overlay with -1, d - 1, the message's index or `null` |
| `HotkeyPipeline.Release` | archive/main.js:367-376 | releasing a flow only appends unregistrations to the log |
| `HotkeyPipeline.Claim` | archive/main.js:379-428 | claiming a flow only appends registrations to the log; a register call that throws (an accelerator Electron cannot parse) changes nothing |
| `HotkeyPipeline.Released` | archive/main.js:353-376 | after loading both files and releasing, neither flow has an accelerator, the old ones are no longer held, and nothing was registered |
| `HotkeyPipeline.RegisterReleasesBeforeClaiming` | archive/main.js:367-379 | no unregistration follows a registration: both previous accelerators are released before anything is registered |
| `HotkeyPipeline.RegisterRecordsSuccess` | archive/main.js:379-478 | a flow's accelerator is recorded exactly when its hotkey is set and its registration succeeds (it parses, is not refused and is not held, and for the selection flow the input flow did not throw and does not hold it); a recorded accelerator is the translated hotkey and is held; the run throws exactly when a register call it reaches throws, and a throw for the input flow leaves both flows unregistered |
| `HotkeyPipeline.RegisterReleasesOld` | archive/main.js:367-376 | a previous accelerator is still held afterwards only when it was registered again |
| `HotkeyPipeline.SharedHotkeyGoesToInputFlow` | archive/main.js:379-434 | when both flows have the same hotkey and the input flow got it, the selection flow has none |
| `HotkeyPipeline.Recapture` | archive/main.js:395-400 | the second capture is made only after a blank first one; the run aborts with nothing captured when it is blank too |
| `HotkeyPipeline.Choose` | archive/main.js:389-400 | a run that gets past the choice has a non-blank text and a preset from the list; otherwise it aborts quietly |
| `HotkeyPipeline.Prepare` | archive/main.js:383-401 | up to the language-model call: a configuration that throws logs only seeding and the idle status; otherwise the log grows quietly, and a ready run has a preset among the first nine and a non-blank text |
| `HotkeyPipeline.FinishReady` | archive/main.js:402-426 | a ready run is finished by the status-bracketed call and the delivery |
| `HotkeyPipeline.PrepareIsPrepared` | archive/main.js:383-401 | the preparation of every run satisfies `Prepared` |
| `HotkeyPipeline.FinishShape` | archive/main.js:402-426 | an aborted run ends as prepared; a ready run keeps its log as a prefix and appends the call and the delivery |
| `HotkeyPipeline.AbortsAreSilent` | archive/main.js:385-453 | the early returns (no presets, no choice, no such preset, nothing captured) send no status, make no language-model call and deliver nothing |
| `HotkeyPipeline.TransformBracketedByStatus` | archive/main.js:402-462 | the prompt is exactly the preset's prompt, a blank line and the selection; the busy status immediately precedes the call and the idle status immediately follows it; there is no other call |
| `HotkeyPipeline.LastStatusIsIdle` | archive/main.js:402-475 | every status a run sends is followed, then or later, by the idle status |
| `HotkeyPipeline.SelectionFlowNeverPastes` | archive/main.js:463-470 | the selection flow writes no text to the clipboard and sends no paste keystroke; a dialog appears only for a delivered result; its markup decodes to that result, and for a result without `&` it is exactly the program's `<`/`>` escaping; it is placed by `DialogBounds` on the display nearest the cursor when the dialog opens (also archive/main.js:621-650) |
| `HotkeyPipeline.InputFlowPastesResult` | archive/main.js:410-420 | a delivered input-flow result is exactly what is on the clipboard; the log ends with the clipboard write and, on macOS and Windows only, the paste keystroke, after the return to the previous application on macOS |
| `HotkeyPipeline.EmptyResultDeliversNothing` | archive/main.js:410-463 | an empty result delivers nothing |
| `MainProcess.ElectronMain.constructor` | archive/main.js:142-197 | a fresh process: empty clipboard and log, no shortcuts, no accelerators, no selector window |
| `MainProcess.ElectronMain.LoadFlowConfig` | archive/main.js:142-197 | the same result and new state as `LoadStep` |
| `MainProcess.ElectronMain.SendStatus` | archive/main.js:402-404 | appends the status message when the floating window is alive, and changes nothing else |
| `MainProcess.ElectronMain.CopySelectionText` | archive/main.js:288-313 | the same result and new state as `CaptureStep` |
| `MainProcess.ElectronMain.ReadSelection` | archive/main.js:294-307 | the retry loop returns `CaptureRun`'s text and logs exactly `CaptureEvents` |
| `MainProcess.ElectronMain.RegisterSelectorShortcuts` | archive/main.js:564-576 | registers exactly `Registerable` of the overlay's bindings and adds them to the held shortcuts |
| `MainProcess.ElectronMain.TryRegister` | archive/main.js:565-569 | the `reg` loop registers each free binding and records it |
| `MainProcess.ElectronMain.UnregisterSelectorShortcuts` | archive/main.js:552-557 | releases every registered selector accelerator |
| `MainProcess.ElectronMain.AwaitChoice` | archive/main.js:558-593 | returns `Resolve` of the events: the first settling one |
| `MainProcess.ElectronMain.ShowSelectorOverlay` | archive/main.js:482-620 | the same result and new state as `OverlayStep` |
| `MainProcess.ElectronMain.ReplaceOpenSelector` | archive/main.js:491-495 | a window left open is closed and its `closed` handler (archive/main.js:589-593) releases that overlay's shortcuts: the new state is `ReplaceSelector` of the old |
| `MainProcess.ElectronMain.OpenSelector` | archive/main.js:522-576 | the window opens and the free bindings (`Registerable`) are registered and become the open overlay's keys |
| `MainProcess.ElectronMain.RunOverlay` | archive/main.js:522-593 | with no earlier window open, the new state is `SettleOverlay` of the opening, the registered keys and the first settling event |
| `MainProcess.ElectronMain.CloseSelector` | archive/main.js:577-593 | cleanup after the first event: shortcuts released and window closed, or left open while nothing settles |
| `MainProcess.ElectronMain.ReleaseFlow` | archive/main.js:367-376 | the same new state as `Release` |
| `MainProcess.ElectronMain.ClaimFlow` | archive/main.js:379-478 | the same new state as `Claim`, and it reports a throw exactly for an unparsable accelerator |
| `MainProcess.ElectronMain.RegisterGlobalHotkey` | archive/main.js:352-480 | the same new state and throw as `RegisterRun`: a throw for the input flow ends the function before the selection flow is registered |
| `MainProcess.ElectronMain.RunHotkey` | archive/main.js:381-477 | one activation gives the same new state and outcome as `HotkeyRun` |
| `MainProcess.ElectronMain.PrepareRun` | archive/main.js:383-401 | the same result as `Prepare` |
| `MainProcess.ElectronMain.ChooseRun` | archive/main.js:389-400 | the same result as `Choose` |
| `MainProcess.ElectronMain.FinishRun` | archive/main.js:402-426 | the same new state and outcome as `Finish` |
| `MainProcess.ElectronMain.Deliver` | archive/main.js:410-470 | nothing for an empty result; otherwise return to the previous application, then deliver |
| `MainProcess.ElectronMain.DeliverResult` | archive/main.js:416-469 | pastes (input flow) or shows the dialog (selection flow), placed on the display nearest the cursor at that moment, not the overlay's; a delivery that throws ends with the idle status |
| `PresetEditing.NameFor` | electron/src/InputField.jsx:47 | a generated name starts with its prefix |
| `PresetEditing.NameForInjective` | electron/src/InputField.jsx:47 | different numbers give different names |
| `PresetEditing.FirstFreeUnique` | electron/src/InputField.jsx:46-51 | the number the name loop settles on is unique |
| `PresetEditing.TakenNumbersBound` | electron/src/InputField.jsx:48-51 | a list of n presets holds at most n generated names, so the name loop ends |
| `PresetEditing.UniqueName` | electron/src/InputField.jsx:46-51 | the loop returns the first number from length + 1 on whose name is free, and that name; also src/InputField.jsx:44-49: the same, with the prefix "Profile "; also electron/src/Popup.jsx:43-48: the same, with the prefix "Preset "; also src/Selection.jsx:46-51: the same, with the prefix "Profile " |
| `PresetEditing.GeneratedNameIsFresh` | electron/src/InputField.jsx:46-51 | the generated name collides with no existing name, so adding keeps names distinct |
| `PresetEditing.WithoutId` | electron/src/InputField.jsx:73 | the filter keeps exactly the presets with another id |
| `PresetEditing.WithoutIdSize` | electron/src/InputField.jsx:73 | with unique ids, removing a present id drops exactly one preset; an absent id drops none |
| `PresetEditing.DeleteKeepsOne` | electron/src/InputField.jsx:68-73 | with unique ids, a delete from two or more presets never empties the list |
| `PresetEditing.WithField` | electron/src/InputField.jsx:87 | an update never changes the id |
| `PresetEditing.UpdateSelected` | electron/src/InputField.jsx:86-88 | only the selected preset changes, in the given field; the length is kept |
| `PresetEditing.UpdateKeepsIds` | electron/src/InputField.jsx:86-88 | the ids are kept |
| `PresetEditing.ModifierTokens` | electron/src/InputField.jsx:113-117 | at most four modifiers, each one of Ctrl, Alt, Shift, Meta |
| `PresetEditing.KeyLabel` | electron/src/InputField.jsx:127-128 | " " is recorded as "Space", a single character upper-cased, a longer key as is |
| `PresetEditing.RecordKey` | electron/src/InputField.jsx:107-130 | Escape cancels, a modifier alone records nothing, anything else records the modifiers and the key joined by `+` |
| `PresetEditing.RecordedTokens` | electron/src/InputField.jsx:113-130 | a recorded hotkey splits back into the modifiers in order and the key |
| `PresetEditing.RecordedAccelerator` | electron/src/InputField.jsx:113-130 | the main process maps exactly those tokens: Ctrl to CommandOrControl, Meta to Super, the others unchanged |
| `PresetEditing.EnabledOnLoad` | src/Selection.jsx:17-18 | without a general object, the hook is enabled |
| `PresetEditing.EnabledOnLoadCases` | src/Selection.jsx:17-18 | a stored boolean is kept, a missing one means enabled, and `null`, `0` or `""` mean disabled |
| `PresetEditing.PresetEditor.constructor` | src/Selection.jsx:15-19 | a loaded section: its presets, nothing selected, not recording; the selection hook normalises `enabled` |
| `PresetEditing.PresetEditor.AddPreset` | electron/src/InputField.jsx:39-60 | refused at nine presets; otherwise appends a preset with the first free generated name, an empty prompt and the new id, keeps the others, and selects it; also src/InputField.jsx:37-58: the same, named "Profile k"; also electron/src/Popup.jsx:36-57: the same, named "Preset k"; also src/Selection.jsx:39-60: the same, named "Profile k" |
| `PresetEditing.PresetEditor.SelectPreset` | electron/src/InputField.jsx:62-64 | selects the id and changes nothing else |
| `PresetEditing.PresetEditor.DeletePreset` | electron/src/InputField.jsx:66-78 | refused at one preset or fewer; otherwise filters out the id and clears a matching selection; also src/InputField.jsx:64-76: the same; also electron/src/Popup.jsx:63-75: the same; also src/Selection.jsx:66-78: the same |
| `PresetEditing.PresetEditor.UpdatePreset` | electron/src/InputField.jsx:80-90 | a blank name is ignored; otherwise only the selected preset's field changes; also src/InputField.jsx:78-88: the same; also electron/src/Popup.jsx:77-87: the same; also src/Selection.jsx:80-90: the same |
| `PresetEditing.PresetEditor.StartRecording` | electron/src/InputField.jsx:96-98 | recording starts and nothing else changes |
| `PresetEditing.PresetEditor.HandleKeyDown` | electron/src/InputField.jsx:100-135 | ignored unless recording; Escape stops recording; a modifier alone is ignored; any other key stores the recorded hotkey and stops recording; also src/InputField.jsx:98-132: the same |
| `PresetEditing.PresetEditor.AutoSave` | electron/src/InputField.jsx:157-161 | saves exactly when there are presets or a hotkey is set, and the save API answers; also electron/src/Popup.jsx:25 and 94-98: the same; without the save API nothing is saved; also src/Selection.jsx:28 and 97-101: saves when there are presets or `enabled` is a boolean, and the save API exists |
| `PresetEditing.AddKeepsWellFormed` | electron/src/InputField.jsx:39-60 | adding below the cap with a fresh id keeps at most nine presets, distinct names and unique ids |
| `PresetEditing.DeleteKeepsWellFormed` | electron/src/InputField.jsx:66-78 | deleting keeps the list well formed |
| `SelectorWindow.KeyEffect` | archive/src/selector-main.jsx:23-41 | Escape picks -1; Enter picks the highlight; ArrowDown moves to `min(h+1, n-1)` and ArrowUp to `max(h-1, 0)`; a digit k picks k-1 when that row exists and does nothing otherwise; also src/selector-main.jsx:23-41: the same |
| `SelectorWindow.MoveKeepsHighlight` | archive/src/selector-main.jsx:29-34 | the arrow keys keep the highlight on a row of a non-empty list |
| `SelectorWindow.PickedIndex` | archive/src/selector-main.jsx:24-40 | a key picks a row of the list or -1; the one exception is Enter on an empty list |
| `SelectorWindow.DigitOutOfRange` | archive/src/selector-main.jsx:24-28 | a digit that names no row does nothing |
| `SelectorWindow.Selector.constructor` | archive/src/selector-main.jsx:5-7 | no profiles, an empty token, the first row highlighted |
| `SelectorWindow.Selector.SetData` | archive/src/selector-main.jsx:10-14 | new data replaces the profiles (`[]` when missing) and the token, and resets the highlight to 0; also src/selector-main.jsx:10-14: the same |
| `SelectorWindow.Selector.Choose` | archive/src/selector-main.jsx:17-20 | sends the index only with a token |
| `SelectorWindow.Selector.OnKey` | archive/src/selector-main.jsx:23-41 | performs `KeyEffect` and keeps the highlight valid; also src/selector-main.jsx:23-41: the same |
| `SelectorWindow.Selector.Hover` | archive/src/selector-main.jsx:65 | highlights the row; also src/selector-main.jsx:60: highlights the row |
| `SelectorWindow.Selector.Click` | archive/src/selector-main.jsx:66 | chooses the row; also src/selector-main.jsx:61: chooses the row |
| `TauriApp.SanitizePreset` | rust/src/App.tsx:73-77 | keeps the id; defaults the name to "Untitled Preset" and the prompt to "" |
| `TauriApp.SanitizeStored` | rust/src/App.tsx:73-77 | a complete preset is unchanged |
| `TauriApp.SanitizeAll` | rust/src/App.tsx:82-84 | each preset is sanitised in place; the length is kept |
| `TauriApp.NormalizePresets` | rust/src/App.tsx:79-85 | all three views; a missing view or collection becomes `[]`; a present list is sanitised element by element |
| `TauriApp.NormalizeStored` | rust/src/App.tsx:79-85 | normalising complete presets gives them back |
| `TauriApp.NormalizeActiveIds` | rust/src/App.tsx:87-93 | each view's stored id, or none |
| `TauriApp.PresetNumberOfId` | rust/src/App.tsx:99-100 | the number of `preset-N` is N |
| `TauriApp.MaxIdNumber` | rust/src/App.tsx:96-102 | at least every preset's number, and attained by one when positive |
| `TauriApp.DeriveNextPresetId` | rust/src/App.tsx:95-104 | at least 1 |
| `TauriApp.DerivedCounterAhead` | rust/src/App.tsx:95-104 | greater than the number of every preset id |
| `TauriApp.DerivedCounterLeast` | rust/src/App.tsx:95-104 | the least positive such counter |
| `TauriApp.AheadIdIsFresh` | rust/src/App.tsx:457 | a counter ahead of every id yields an id that no view holds |
| `TauriApp.HydratedNextId` | rust/src/App.tsx:217-222 | a stored positive number is used; anything else gives the derived counter |
| `TauriApp.FormatKeyName` | rust/src/App.tsx:134-151 | " " is "Space" and "Escape" is "Esc"; an `Arrow…` key is unchanged; any other single character is upper-cased; a longer all-lowercase key gets its first character upper-cased and the rest kept; any other key is unchanged; the length and the presence of `+` are kept except for " ", and a trimmed non-empty key stays trimmed and non-empty |
| `TauriApp.Capitalize` | rust/src/App.tsx:148 | the first character is upper-cased and the rest kept |
| `TauriApp.BuildHotkeyString` | rust/src/App.tsx:153-176 | the modifiers held in the order Ctrl, Meta, Alt, Shift, then the formatted key (or a lone modifier's name), joined by " + " |
| `TauriApp.CleanParts` | rust/src/App.tsx:181-182 | trimming and dropping empty parts never adds parts |
| `TauriApp.CleanPartsCons` | rust/src/App.tsx:181-182 | parts are cleaned one by one, in order |
| `TauriApp.SegmentsKept` | rust/src/App.tsx:181-182 | trimmed non-empty parts are kept as they are |
| `TauriApp.CleanedAreSegments` | rust/src/App.tsx:181-182 | cleaned parts are trimmed and non-empty |
| `TauriApp.AcceleratorSegments` | rust/src/App.tsx:178-183 | the accelerator's segments are trimmed and non-empty |
| `TauriApp.SplitSegments` | rust/src/App.tsx:178-183 | joining `+`-free segments with `+` splits back into them |
| `TauriApp.AcceleratorIdempotent` | rust/src/App.tsx:178-183 | normalising an accelerator twice equals normalising it once |
| `TauriApp.HotkeyAccelerator` | rust/src/App.tsx:153-183 | for a key without `+`, the accelerator of a displayed hotkey is its parts joined by `+` |
| `TauriApp.PlusKeyLost` | rust/src/App.tsx:153-183 | Ctrl with the `+` key shows "Ctrl + +" and its accelerator is just "Ctrl" |
| `TauriApp.UpdateById` | rust/src/App.tsx:483-485 | only presets with the id change; the length is kept |
| `TauriApp.Reconciled` | rust/src/App.tsx:277-292 | no active id exactly when the list is empty; otherwise an id of the list, the old one when present and the first one otherwise |
| `TauriApp.ReconcileIdempotent` | rust/src/App.tsx:273-295 | reconciling twice changes nothing more |
| `TauriApp.PresetState.Hydrate` | rust/src/App.tsx:205-246 | nothing stored (or stored text that does not parse) gives empty views, counter 1 and no active ids; otherwise the normalised presets, the hydrated counter and the stored active ids |
| `TauriApp.PresetState.AddPreset` | rust/src/App.tsx:455-474 | appends `preset-N` named "Preset N" with an empty prompt to the view, makes it active, increments the counter; other views are unchanged |
| `TauriApp.PresetState.UpdatePreset` | rust/src/App.tsx:476-487 | only the matching preset of that view changes |
| `TauriApp.PresetState.DeletePreset` | rust/src/App.tsx:498-526 | an absent id changes nothing; otherwise the preset is removed, and the active id moves to the first remaining id (or none) only when it was the deleted one |
| `TauriApp.PresetState.ReconcileActiveIds` | rust/src/App.tsx:273-295 | each view's active id becomes its reconciled value; the update is reported exactly when something changed |
| `TauriApp.AddKeepsCounterAhead` | rust/src/App.tsx:455-474 | adding keeps the counter ahead of every id, so added ids never collide |
| `TauriApp.DeleteKeepsCounterAhead` | rust/src/App.tsx:498-511 | deleting keeps the counter ahead |
| `PresetStore.Deserialize` | rust/src-tauri/src/lib.rs:54-122 | a missing counter gives 1, missing lists `[]`, missing active ids none; a counter outside `i32` is an error, and only that |
| `PresetStore.DeserializeSerialize` | rust/src-tauri/src/lib.rs:111-122 | a written state reads back as itself |
| `PresetStore.LoadFromDisk` | rust/src-tauri/src/lib.rs:137-145 | a missing file gives `Ok(None)` and only it; other read errors and parse errors are errors |
| `PresetStore.Load` | rust/src-tauri/src/lib.rs:147-159 | a cached state is returned without reading the file; otherwise the file's result becomes the cache; an error changes nothing |
| `PresetStore.Save` | rust/src-tauri/src/lib.rs:161-173 | succeeds exactly when every step does, then caches the state and returns it; a failure returns the error and changes nothing |
| `PresetStore.LoadIsTransparent` | rust/src-tauri/src/lib.rs:147-159 | with a coherent cache, loading gives what the file gives and stays coherent |
| `PresetStore.SaveThenLoad` | rust/src-tauri/src/lib.rs:147-173 | after a successful save the next load returns the saved state, and the file agrees |
| `PresetStore.MissingFileNotCached` | rust/src-tauri/src/lib.rs:142-158 | a missing file leaves the cache empty, so the next load reads the file again |
| `PresetStore.PresetStateStore.constructor` | rust/src-tauri/src/lib.rs:130-135 | the cache starts as given |
| `PresetStore.PresetStateStore.LoadState` | rust/src-tauri/src/lib.rs:147-159 | the same result and new state as `Load` |
| `PresetStore.PresetStateStore.SaveState` | rust/src-tauri/src/lib.rs:161-173 | the same result and new state as `Save` |
| `FloatingWindow.OrEmptyObject` | rust/src/floating-window/FloatingWindowApp.tsx:52-54 | a missing entry becomes `{}`; any other is kept |
| `FloatingWindow.CleanEntries` | rust/src/floating-window/FloatingWindowApp.tsx:52-54 | no longer than the list; every entry is truthy and is `{}` or an entry of the list |
| `FloatingWindow.CleanStructured` | rust/src/floating-window/FloatingWindowApp.tsx:52-54 | with structured entries, the length and order are kept and missing entries become `{}` |
| `FloatingWindow.FalsyEntryDropped` | rust/src/floating-window/FloatingWindowApp.tsx:52-54 | a falsy entry is dropped |
| `FloatingWindow.CleanSection` | rust/src/floating-window/FloatingWindowApp.tsx:50-55 | a stored array is cleaned; anything else gives `[]` |
| `FloatingWindow.NormalizeState` | rust/src/floating-window/FloatingWindowApp.tsx:47-59 | all three sections, each cleaned; a value that is not an object gives three empty sections |
| `FloatingWindow.NormalizeIdempotent` | rust/src/floating-window/FloatingWindowApp.tsx:47-59 | normalising a normalised state written back changes nothing |
| `FloatingWindow.FallbackState` | rust/src/floating-window/FloatingWindowApp.tsx:61-71 | the cached state, normalised, or three empty sections |
| `FloatingWindow.FetchLatestState` | rust/src/floating-window/FloatingWindowApp.tsx:73-88 | a truthy command result is cached and used; otherwise the cache decides |
| `FloatingWindow.FallbackRemembersCommand` | rust/src/floating-window/FloatingWindowApp.tsx:73-88 | after a successful command, a failing one shows the same lists |
| `FloatingWindow.DisplayName` | rust/src/floating-window/FloatingWindowApp.tsx:198 | a non-blank string name is shown as is; a missing or blank one shows "Untitled Preset"; any other name is an error |
| `FloatingWindow.DisplayNameNotBlank` | rust/src/floating-window/FloatingWindowApp.tsx:198 | a shown name is never blank |
| `FloatingButton.StatusFrom` | src/floating-main.jsx:26-32 | a string is kept; another value gives "input" when truthy and "idle" otherwise |
| `FloatingButton.PictureFor` | src/floating-main.jsx:43-48 | "selection" and "input" pick their thinking pictures |
| `FloatingButton.CaptionFor` | src/floating-main.jsx:49-54 | "selection" and "input" pick their captions |
| `FloatingButton.PictureMatchesProcessing` | src/floating-main.jsx:4-54 | the picture and the caption show "busy" exactly for the processing statuses |
| `FloatingButton.Button.constructor` | src/floating-main.jsx:8 | starts idle |
| `FloatingButton.Button.OnAIProcessing` | src/floating-main.jsx:26-32 | the status becomes `StatusFrom` of the payload |
| `FloatingButton.Button.Click` | src/floating-main.jsx:38-42 | the main window is requested exactly when nothing is processing |
| `Logs.WithLevel` | electron/src/Logs.jsx:40 | keeps exactly the entries of the level |
| `Logs.WithLevelAppend` | electron/src/Logs.jsx:40 | filtering keeps the order |
| `Logs.WithLevelAll` | electron/src/Logs.jsx:40 | entries all of the level are kept as they are |
| `Logs.FilteredLogs` | electron/src/Logs.jsx:38-41 | "all" shows every entry; another filter shows exactly the entries of that level |
| `Logs.Reverse` | electron/src/Logs.jsx:95-97 | the list in reverse order |
| `Logs.Displayed` | electron/src/Logs.jsx:95-97 | the filtered entries, last first |
| `Logs.NewestShownFirst` | electron/src/Logs.jsx:38-97 | a new entry that passes the filter is shown first |
| `Logs.EntriesOf` | electron/src/Logs.jsx:20-29 | an array is used; anything else gives `[]` |
| `Logs.LogsPanel.constructor` | electron/src/Logs.jsx:13-15 | no entries, filter "all", not clearing |
| `Logs.LogsPanel.LoadLogs` | electron/src/Logs.jsx:17-24 | a delivered payload replaces the entries; a failed call keeps them |
| `Logs.LogsPanel.OnLogsUpdated` | electron/src/Logs.jsx:28-30 | the update replaces the entries |
| `Logs.LogsPanel.SetFilter` | electron/src/Logs.jsx:66 | sets the filter and nothing else |
| `Logs.LogsPanel.StartClear` | electron/src/Logs.jsx:43-47 | a clear starts, and calls the clear API, exactly when none is running |
| `Logs.LogsPanel.FinishClear` | electron/src/Logs.jsx:48-53 | the flag goes down however the clear ended; the entries are reloaded only after a successful clear |
| `Logs.ClearTwice` | electron/src/Logs.jsx:43-54 | two presses during one clear call the clear API once |

## Left out

- Operating-system effects (clipboard, keystrokes, windows, global shortcuts, the language-model request, the file system, `localStorage`, timers) are oracle arguments or logged events. Nothing about their timing is modelled.
- Concurrency is fixed to one order. In the hotkey handler the first capture completes before the overlay opens. React state updates apply one after another, as written.
- `MainProcess.ElectronMain.RegisterGlobalHotkey`: which accelerators Electron fails to parse is an input (`unparsable`), not a model of Electron's parser. The method reports the throw; what its callers do then is not modelled. Those callers are the configuration-save handlers, whose IPC call rejects, and startup at archive/main.js:1079, which skips `createTray()` and the code after it.
- The repeated `sendData` calls of the overlay (immediately, after 50 ms, after 150 ms) are one step. The selector page receives its data once.
- `getFrontmostAppMac`, `activateAppMac` and `sendKeys` are oracle inputs or logged events. The helper scripts they run are not part of this model.
- Numbers are unbounded integers. JavaScript `Number` precision for very large preset numbers is not modelled. Rust's `i32` is modelled only where the store deserialises the counter.
- Case mapping covers ASCII only. JavaScript's `toUpperCase` and `toLowerCase` on other characters are not modelled.
- `normalizeSettings` and `normalizeHotkeys` in `rust/src/App.tsx` are not modelled. The settings and the screenshot hotkey are carried through unchanged.
- The persistence effect and the global-shortcut effect of `rust/src/App.tsx`, and the editor panel bookkeeping of `deletePreset`, are not modelled.
- The other React screens, the tutorial, the preload bridges and the overlay page of the Tauri build are not part of this model.
- `PresetStore.PresetStateStore.LoadState`: a poisoned mutex (the lock error) is not modelled.
- `PresetStore.Save`: a failed `fs::write` is modelled as leaving the file unchanged. A partly written file is not modelled.
- `FloatingWindow.FetchLatestState`: a failing `localStorage.setItem` is ignored, so the cache is always updated.
- `PresetEditing.DeleteKeepsOne`: proved only for lists with unique ids. Two presets added in the same millisecond share an id, and a delete then removes both.
- `PresetEditing.RecordedTokens`: requires a key without `+`. The `+` key itself splits into an extra empty token.
- `PresetEditing.PresetEditor.HandleKeyDown`: `src/Selection.jsx` has no recorder. Its editor never calls this method in the source.
- `TauriApp.HotkeyAccelerator`: requires a trimmed key without `+`. `TauriApp.PlusKeyLost` shows that the `+` key is dropped from the accelerator.
- `SelectorWindow.Selector.Hover`: requires a listed row, because the page only renders listed rows.
- `SelectorWindow.Selector.Click`: requires a listed row, for the same reason.
- `HotkeyPipeline.InputFlowPastesResult`: a delivery that throws ends with the idle status and is covered by `LastStatusIsIdle`, not by this lemma.
- `HotkeyPipeline.SelectionFlowNeverPastes`: the dialog markup in the pipeline is the corrected escaping `ResultDialog.EscapeMarkup`, not the escaping as written at archive/main.js:683 (see Findings). The two agree on results without `&` (`ResultDialog.EscapeAnglesAgrees`); for a result containing `&` the program's dialog can show other text than the result, and this lemma does not state what it shows.
- `MainProcess.ElectronMain.DeliverResult`: shows the corrected markup, as `HotkeyPipeline.DeliveryEvents` does; for a result containing `&` it differs from what the program writes.
- `HotkeyPipeline.OverlayStep`: the `closed` handler of a replaced selector window is taken to run right after `selectorWindow.close()`, before the new window is created. The order in which it runs later, and its `selectorWindow = null` then clears the reference to the new window, is not modelled.
- `HotkeyPipeline.OverlayStep`: a replaced overlay's promise settles with `null` in that handler, and the earlier hotkey run then returns without further effects (archive/main.js:392); that run is not continued in the model.
- `PresetEditing.PresetEditor.HandleKeyDown`: each editor has its own recording flag. In `electron/src/InputField.jsx` one `isRecording` is shared by the inline and the popup section, and a key recorded after switching sections is stored in the section active at the keydown; that cross-section case is not modelled.
- `Capture.CaptureEvents`: the `sendKeys('^c')` call is logged on every platform; on Linux `sendKeys` sends nothing (archive/main.js:216-243).
- `ResultDialog.DialogWidth`: line lengths count characters, while JavaScript's `.length` counts UTF-16 code units; the two differ for characters outside the Basic Multilingual Plane.
- `PresetStore.Save`: a lock error after the file was written (rust/src-tauri/src/lib.rs:169) returns an error with the file written and the cache unchanged; that case is not modelled.
- `MainConfig.LoadConfig`: writing the seeded default configuration is taken to succeed; a failing write, which is caught and logged and leaves the file as it was while the default is still returned, is not modelled.

## Findings

| source | as written | input that shows it | evidently intended | confidence | as-written member | corrected member |
|---|---|---|---|---|---|---|
| archive/main.js:683 | the dialog escapes `<` and `>` but not `&` before inserting the result into its markup | a result containing the text `&lt;` is displayed as `<` | the dialog shows the result text exactly (escape `&` as well) | not executed | `ResultDialog.EscapeAnglesMisrendersEntity` | `ResultDialog.EscapeMarkupShowsText` |
