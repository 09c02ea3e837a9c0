/** The preset lists of the settings screens: the inline section of `electron/src/InputField.jsx`,
    its predecessor `src/InputField.jsx`, the popup section of `electron/src/Popup.jsx` and the
    selection hook of `src/Selection.jsx`. The four files share one editing logic and differ in
    the name prefix ("Preset " or "Profile "), in what their general configuration holds and
    in when they save; `PresetEditor` is that logic with the file as a parameter. */
module PresetEditing {
  import opened Wrappers
  import opened Text
  import opened Js
  import opened Sections
  import opened ElectronAccelerators

  /** Number keys 1-9 choose a preset, so a list holds at most nine. */
  const MaxPresets := 9

  /** The four source files. */
  datatype EditorKind = ElectronInline | LegacyInline | ElectronPopup | SelectionHook

  /** The prefix of generated names: "Preset " in the Electron screens, "Profile " in the
      older ones. */
  function Prefix(kind: EditorKind): string {
    if kind == ElectronInline || kind == ElectronPopup then "Preset " else "Profile "
  }

  // ---------------------------------------------------------------- generated names

  /** `${prefix}${k}` */
  function NameFor(prefix: string, k: nat): (name: string)
    ensures |name| > |prefix| && name[..|prefix|] == prefix
  {
    prefix + Dec(k)
  }

  lemma NameForInjective(prefix: string, a: nat, b: nat)
    ensures NameFor(prefix, a) == NameFor(prefix, b) ==> a == b
  {
    if NameFor(prefix, a) == NameFor(prefix, b) {
      assert NameFor(prefix, a)[|prefix|..] == Dec(a);
      assert NameFor(prefix, b)[|prefix|..] == Dec(b);
      DecInjective(a, b);
    }
  }

  /** `profiles.some(p => p.name === name)` */
  predicate NameTaken(ps: seq<Profile>, name: string) {
    exists i :: 0 <= i < |ps| && ps[i].name == name
  }

  /** `k` is the number the name loop settles on: the first number from `|ps| + 1` on whose
      name no preset carries. */
  predicate IsFirstFree(ps: seq<Profile>, prefix: string, k: nat) {
    && k >= |ps| + 1
    && !NameTaken(ps, NameFor(prefix, k))
    && forall j :: |ps| + 1 <= j < k ==> NameTaken(ps, NameFor(prefix, j))
  }

  /** There is only one such number. */
  lemma FirstFreeUnique(ps: seq<Profile>, prefix: string, k1: nat, k2: nat)
    requires IsFirstFree(ps, prefix, k1) && IsFirstFree(ps, prefix, k2)
    ensures k1 == k2
  {
  }

  function Names(ps: seq<Profile>): set<string> {
    set i | 0 <= i < |ps| :: ps[i].name
  }

  lemma {:induction false} NamesBound(ps: seq<Profile>)
    ensures |Names(ps)| <= |ps|
  {
    if ps != [] {
      NamesBound(ps[1..]);
      forall x | x in Names(ps) ensures x in Names(ps[1..]) + {ps[0].name} {
        var i :| 0 <= i < |ps| && ps[i].name == x;
        if i > 0 {
          assert ps[1..][i - 1].name == x;
        }
      }
      assert Names(ps) <= Names(ps[1..]) + {ps[0].name};
      SubsetSize(Names(ps), Names(ps[1..]) + {ps[0].name});
    }
  }

  lemma {:induction false} SubsetSize<T>(a: set<T>, b: set<T>)
    requires a <= b
    ensures |a| <= |b|
  {
    if a != {} {
      var x :| x in a;
      SubsetSize(a - {x}, b - {x});
    }
  }

  function NumberedNames(prefix: string, lo: nat, hi: nat): set<string> {
    set k | lo <= k < hi :: NameFor(prefix, k)
  }

  lemma {:induction false} NumberedNamesSize(prefix: string, lo: nat, hi: nat)
    requires lo <= hi
    ensures |NumberedNames(prefix, lo, hi)| == hi - lo
    decreases hi - lo
  {
    if lo < hi {
      NumberedNamesSize(prefix, lo, hi - 1);
      forall k | lo <= k < hi - 1 ensures NameFor(prefix, k) != NameFor(prefix, hi - 1) {
        NameForInjective(prefix, k, hi - 1);
      }
      assert NumberedNames(prefix, lo, hi) == NumberedNames(prefix, lo, hi - 1) + {NameFor(prefix, hi - 1)};
    } else {
      assert NumberedNames(prefix, lo, hi) == {};
    }
  }

  /** Pigeonhole: a list of `n` presets carries at most `n` of the generated names, so the
      name loop stops by `2 * n + 1`. */
  lemma TakenNumbersBound(ps: seq<Profile>, prefix: string, lo: nat, hi: nat)
    requires lo <= hi
    requires forall j :: lo <= j < hi ==> NameTaken(ps, NameFor(prefix, j))
    ensures hi - lo <= |ps|
  {
    NumberedNamesSize(prefix, lo, hi);
    NamesBound(ps);
    forall x | x in NumberedNames(prefix, lo, hi) ensures x in Names(ps) {
      var k :| lo <= k < hi && x == NameFor(prefix, k);
      assert NameTaken(ps, NameFor(prefix, k));
    }
    SubsetSize(NumberedNames(prefix, lo, hi), Names(ps));
  }

  /** The name loop of the add handlers: start at `length + 1` and count up while the name is
      taken. */
  method UniqueName(ps: seq<Profile>, prefix: string) returns (k: nat, name: string)
    ensures IsFirstFree(ps, prefix, k) && name == NameFor(prefix, k)
  {
    k := |ps| + 1;
    name := NameFor(prefix, k);
    while NameTaken(ps, name)
      invariant |ps| + 1 <= k <= 2 * |ps| + 1
      invariant name == NameFor(prefix, k)
      invariant forall j :: |ps| + 1 <= j < k ==> NameTaken(ps, NameFor(prefix, j))
      decreases 2 * |ps| + 1 - k
    {
      TakenNumbersBound(ps, prefix, |ps| + 1, k + 1);
      k := k + 1;
      name := NameFor(prefix, k);
    }
  }

  /** The name a preset added to `ps` receives. */
  ghost predicate IsGeneratedName(ps: seq<Profile>, prefix: string, name: string) {
    exists k: nat :: IsFirstFree(ps, prefix, k) && name == NameFor(prefix, k)
  }

  predicate DistinctNames(ps: seq<Profile>) {
    forall i, j :: 0 <= i < j < |ps| ==> ps[i].name != ps[j].name
  }

  /** A generated name collides with no name in the list, so adding keeps names distinct. */
  lemma GeneratedNameIsFresh(ps: seq<Profile>, prefix: string, p: Profile)
    requires IsGeneratedName(ps, prefix, p.name)
    ensures !NameTaken(ps, p.name)
    ensures DistinctNames(ps) ==> DistinctNames(ps + [p])
  {
    if DistinctNames(ps) {
      forall i, j | 0 <= i < j < |ps + [p]| ensures (ps + [p])[i].name != (ps + [p])[j].name {
        if j == |ps| {
          assert (ps + [p])[i] == ps[i];
        }
      }
    }
  }

  // ---------------------------------------------------------------- list updates

  /** `profiles.filter(p => p.id !== id)` */
  function WithoutId(ps: seq<Profile>, id: string): (r: seq<Profile>)
    ensures |r| <= |ps|
    ensures forall p :: p in r <==> p in ps && p.id != id
  {
    if ps == [] then [] else (if ps[0].id == id then [] else [ps[0]]) + WithoutId(ps[1..], id)
  }

  predicate UniqueIds(ps: seq<Profile>) {
    forall i, j :: 0 <= i < j < |ps| ==> ps[i].id != ps[j].id
  }

  /** Removing a present id drops exactly one preset of a list with unique ids, and an absent
      id changes nothing. */
  lemma {:induction false} WithoutIdSize(ps: seq<Profile>, id: string)
    requires UniqueIds(ps)
    ensures HasId(ps, id) ==> |WithoutId(ps, id)| == |ps| - 1
    ensures !HasId(ps, id) ==> WithoutId(ps, id) == ps
  {
    if ps != [] {
      assert UniqueIds(ps[1..]) by {
        forall i, j | 0 <= i < j < |ps[1..]| ensures ps[1..][i].id != ps[1..][j].id {
          assert ps[1..][i] == ps[i + 1] && ps[1..][j] == ps[j + 1];
        }
      }
      WithoutIdSize(ps[1..], id);
      if ps[0].id == id {
        assert !HasId(ps[1..], id) by {
          forall i | 0 <= i < |ps[1..]| ensures ps[1..][i].id != id {
            assert ps[1..][i] == ps[i + 1];
          }
        }
      } else {
        assert HasId(ps, id) ==> HasId(ps[1..], id) by {
          if HasId(ps, id) {
            var i :| 0 <= i < |ps| && ps[i].id == id;
            assert ps[1..][i - 1] == ps[i];
          }
        }
        assert !HasId(ps, id) ==> !HasId(ps[1..], id) by {
          if HasId(ps[1..], id) {
            var i :| 0 <= i < |ps[1..]| && ps[1..][i].id == id;
            assert ps[i + 1].id == id;
          }
        }
        assert [ps[0]] + ps[1..] == ps;
      }
    }
  }

  /** With unique ids, a delete from a list of two or more never empties it. */
  lemma DeleteKeepsOne(ps: seq<Profile>, id: string)
    requires UniqueIds(ps) && |ps| > 1
    ensures |WithoutId(ps, id)| >= 1
  {
    WithoutIdSize(ps, id);
  }

  datatype Field = NameField | PromptField

  /** `{ ...p, [field]: value }` */
  function WithField(p: Profile, field: Field, value: string): (q: Profile)
    ensures q.id == p.id
  {
    match field
    case NameField => p.(name := value)
    case PromptField => p.(prompt := value)
  }

  /** `profiles.map(p => p.id === selectedProfileId ? { ...p, [field]: value } : p)`; a
      missing selection (`null`) matches no preset. */
  function UpdateSelected(ps: seq<Profile>, selected: Option<string>, field: Field, value: string): (r: seq<Profile>)
    ensures |r| == |ps|
    ensures forall i :: 0 <= i < |ps| ==> r[i] == if selected == Some(ps[i].id) then WithField(ps[i], field, value) else ps[i]
  {
    if ps == [] then []
    else [if selected == Some(ps[0].id) then WithField(ps[0], field, value) else ps[0]]
         + UpdateSelected(ps[1..], selected, field, value)
  }

  /** An update keeps every id, so it keeps the ids unique. */
  lemma UpdateKeepsIds(ps: seq<Profile>, selected: Option<string>, field: Field, value: string)
    ensures Ids(UpdateSelected(ps, selected, field, value)) == Ids(ps)
  {
  }

  // ---------------------------------------------------------------- hotkey recorder

  /** A `keydown` event: `e.key` and the four modifier flags. */
  datatype KeyPress = KeyPress(key: string, ctrl: bool, alt: bool, shift: bool, meta: bool)

  datatype Recording = Cancelled | Ignored | Recorded(hotkey: string)

  /** The keys that only press a modifier. */
  predicate IsModifierKey(key: string) {
    key == "Control" || key == "Alt" || key == "Shift" || key == "Meta"
  }

  /** The modifiers held, in the order Ctrl, Alt, Shift, Meta. */
  function ModifierTokens(e: KeyPress): (ms: seq<string>)
    ensures |ms| <= 4
    ensures forall i :: 0 <= i < |ms| ==> ms[i] in {"Ctrl", "Alt", "Shift", "Meta"}
  {
    (if e.ctrl then ["Ctrl"] else []) + (if e.alt then ["Alt"] else [])
    + (if e.shift then ["Shift"] else []) + (if e.meta then ["Meta"] else [])
  }

  /** The key as recorded: " " as "Space", a single character in upper case. */
  function KeyLabel(key: string): (shown: string)
    ensures key == " " ==> shown == "Space"
    ensures |key| == 1 && key != " " ==> shown == [UpperChar(key[0])]
    ensures |key| != 1 ==> shown == key
  {
    var k := if key == " " then "Space" else key;
    if |k| == 1 then [UpperChar(k[0])] else k
  }

  /** The tokens of a recorded hotkey. */
  function HotkeyTokens(e: KeyPress): seq<string> {
    ModifierTokens(e) + [KeyLabel(e.key)]
  }

  /** `handleKeyDown` while recording: Escape cancels, a modifier alone records nothing,
      anything else records the modifiers and the key joined by `+`. */
  method RecordKey(e: KeyPress) returns (r: Recording)
    ensures r == Cancelled <==> e.key == "Escape"
    ensures r == Ignored <==> e.key != "Escape" && IsModifierKey(e.key)
    ensures r.Recorded? ==> r.hotkey == Join(HotkeyTokens(e), "+")
  {
    if e.key == "Escape" {
      return Cancelled;
    }
    var modifiers := [];
    if e.ctrl {
      modifiers := modifiers + ["Ctrl"];
    }
    if e.alt {
      modifiers := modifiers + ["Alt"];
    }
    if e.shift {
      modifiers := modifiers + ["Shift"];
    }
    if e.meta {
      modifiers := modifiers + ["Meta"];
    }
    var key := e.key;
    if IsModifierKey(key) {
      return Ignored;
    }
    if key == " " {
      key := "Space";
    }
    if |key| == 1 {
      key := [UpperChar(key[0])];
    }
    assert modifiers == ModifierTokens(e);
    r := Recorded(Join(modifiers + [key], "+"));
  }

  /** A recorded hotkey splits back into its modifiers, in order, and the key (unless the key
      is `+` itself). */
  lemma RecordedTokens(e: KeyPress)
    requires '+' !in e.key
    ensures Split(Join(HotkeyTokens(e), "+"), '+') == HotkeyTokens(e)
  {
    var ts := HotkeyTokens(e);
    assert forall i :: 0 <= i < |ts| - 1 ==> ts[i] == ModifierTokens(e)[i];
    SplitJoin(ts, '+');
  }

  /** The main process turns a recorded hotkey into an accelerator token by token: `Ctrl`
      becomes `CommandOrControl`, `Meta` becomes `Super`, `Alt`, `Shift` and the key stay. */
  lemma RecordedAccelerator(e: KeyPress)
    requires '+' !in e.key && !IsModifierKey(e.key) && KeyLabel(e.key) != "Ctrl" && KeyLabel(e.key) != "Meta"
    ensures var ts := Split(ElectronAccelerator(Join(HotkeyTokens(e), "+")), '+');
      && |ts| == |ModifierTokens(e)| + 1
      && ts[|ts| - 1] == KeyLabel(e.key)
      && forall i :: 0 <= i < |ts| - 1 ==>
           ts[i] == (if ModifierTokens(e)[i] == "Ctrl" then "CommandOrControl"
                     else if ModifierTokens(e)[i] == "Meta" then "Super" else ModifierTokens(e)[i])
  {
    RecordedTokens(e);
    var h := Join(HotkeyTokens(e), "+");
    if h == "" {
      assert Split(ElectronAccelerator(h), '+') == MapTokens(HotkeyTokens(e));
    } else {
      ElectronAcceleratorTokens(h);
    }
  }

  // ---------------------------------------------------------------- loading and saving

  /** `general.enabled !== undefined ? Boolean(general.enabled) : true`, where `general` is
      `config.general || {}`. */
  function EnabledOnLoad(general: JsValue): (enabled: bool)
    ensures !general.Obj? ==> enabled
  {
    var g := if Truthy(general) then general else Obj(map[]);
    var e := Member(g, "enabled");
    if e.Undefined? then true else Truthy(e)
  }

  /** A stored boolean is kept, a missing one means enabled, and `null`, `0` or `""`
      mean disabled. */
  lemma EnabledOnLoadCases(b: bool)
    ensures EnabledOnLoad(Obj(map["enabled" := Bool(b)])) == b
    ensures EnabledOnLoad(Obj(map[])) && EnabledOnLoad(Undefined)
    ensures !EnabledOnLoad(Obj(map["enabled" := Null]))
    ensures !EnabledOnLoad(Obj(map["enabled" := Num(0)])) && !EnabledOnLoad(Obj(map["enabled" := Str("")]))
  {
  }

  /** A saved configuration. */
  datatype SavedConfig = SavedConfig(profiles: seq<Profile>, hotkey: string, enabled: JsValue)

  // ---------------------------------------------------------------- the editor

  class PresetEditor {
    const kind: EditorKind
    var profiles: seq<Profile>
    var selected: Option<string>
    /** `generalConfig.hotkey` of the inline and popup sections. */
    var hotkey: string
    /** `generalConfig.enabled` of the selection hook. */
    var enabled: JsValue
    var recording: bool
    /** What reached the save API, in order. */
    var saves: seq<SavedConfig>

    /** A section loaded with `profiles` and the given general configuration. */
    constructor (kind: EditorKind, profiles: seq<Profile>, hotkey: string, general: JsValue)
      ensures this.kind == kind && this.profiles == profiles && selected == None && !recording && saves == []
      ensures kind != SelectionHook ==> this.hotkey == hotkey
      ensures kind == SelectionHook ==> this.hotkey == "" && enabled == Bool(EnabledOnLoad(general))
    {
      this.kind := kind;
      this.profiles := profiles;
      selected := None;
      this.hotkey := if kind == SelectionHook then "" else hotkey;
      enabled := Bool(EnabledOnLoad(general));
      recording := false;
      saves := [];
    }

    /** `handleAddProfile()`: refused at nine presets; otherwise appends a preset with the
        first free generated name, an empty prompt and the id `newId` (`Date.now()`), and
        selects it. */
    method AddPreset(newId: string) returns (added: bool)
      modifies this
      ensures added <==> |old(profiles)| < MaxPresets
      ensures !added ==> profiles == old(profiles) && selected == old(selected)
      ensures added ==>
        && |profiles| == |old(profiles)| + 1
        && profiles[..|old(profiles)|] == old(profiles)
        && profiles[|old(profiles)|].id == newId && profiles[|old(profiles)|].prompt == ""
        && IsGeneratedName(old(profiles), Prefix(kind), profiles[|old(profiles)|].name)
        && selected == Some(newId)
      ensures hotkey == old(hotkey) && enabled == old(enabled) && recording == old(recording) && saves == old(saves)
    {
      if |profiles| >= MaxPresets {
        return false;
      }
      var k, name := UniqueName(profiles, Prefix(kind));
      var p := Profile(newId, name, "");
      profiles := profiles + [p];
      selected := Some(newId);
      added := true;
    }

    /** `handleProfileClick(id)` */
    method SelectPreset(id: string)
      modifies this
      ensures selected == Some(id)
      ensures profiles == old(profiles) && hotkey == old(hotkey) && enabled == old(enabled)
      ensures recording == old(recording) && saves == old(saves)
    {
      selected := Some(id);
    }

    /** `handleDeleteProfile(id)`: refused at one preset or fewer; otherwise removes the
        presets with that id and clears the selection when it was selected. */
    method DeletePreset(id: string) returns (deleted: bool)
      modifies this
      ensures deleted <==> |old(profiles)| > 1
      ensures !deleted ==> profiles == old(profiles) && selected == old(selected)
      ensures deleted ==> profiles == WithoutId(old(profiles), id)
      ensures deleted ==> selected == if old(selected) == Some(id) then None else old(selected)
      ensures hotkey == old(hotkey) && enabled == old(enabled) && recording == old(recording) && saves == old(saves)
    {
      if |profiles| <= 1 {
        return false;
      }
      profiles := WithoutId(profiles, id);
      if selected == Some(id) {
        selected := None;
      }
      deleted := true;
    }

    /** `handleProfileUpdate(field, value)`: a blank name is ignored; otherwise only the
        selected preset changes. */
    method UpdatePreset(field: Field, value: string) returns (applied: bool)
      modifies this
      ensures applied <==> !(field == NameField && IsBlank(value))
      ensures !applied ==> profiles == old(profiles)
      ensures applied ==> profiles == UpdateSelected(old(profiles), selected, field, value)
      ensures selected == old(selected) && hotkey == old(hotkey) && enabled == old(enabled)
      ensures recording == old(recording) && saves == old(saves)
    {
      BlankIffTrimEmpty(value);
      if field == NameField && Trim(value) == [] {
        return false;
      }
      profiles := UpdateSelected(profiles, selected, field, value);
      applied := true;
    }

    /** `handleStartRecording()` */
    method StartRecording()
      modifies this
      ensures recording
      ensures profiles == old(profiles) && selected == old(selected) && hotkey == old(hotkey)
      ensures enabled == old(enabled) && saves == old(saves)
    {
      recording := true;
    }

    /** `handleKeyDown(e)`: ignored unless recording; Escape stops recording, a modifier alone
        is ignored, any other key stores the recorded hotkey and stops recording. */
    method HandleKeyDown(e: KeyPress)
      modifies this
      ensures !old(recording) || (IsModifierKey(e.key) && e.key != "Escape") ==>
        recording == old(recording) && hotkey == old(hotkey)
      ensures old(recording) && e.key == "Escape" ==> !recording && hotkey == old(hotkey)
      ensures old(recording) && e.key != "Escape" && !IsModifierKey(e.key) ==>
        !recording && hotkey == Join(HotkeyTokens(e), "+")
      ensures profiles == old(profiles) && selected == old(selected) && enabled == old(enabled) && saves == old(saves)
    {
      if !recording {
        return;
      }
      var r := RecordKey(e);
      match r {
        case Cancelled =>
          recording := false;
        case Ignored =>
        case Recorded(h) =>
          hotkey := h;
          recording := false;
      }
    }

    /** The auto-save condition: presets exist, or (inline and popup sections) a hotkey is
        set, or (selection hook) `enabled` is a boolean. */
    predicate WantsSave()
      reads this
    {
      |profiles| > 0 || (if kind == SelectionHook then enabled.Bool? else hotkey != "")
    }

    /** The auto-save effect: `saveConfig()` when the condition holds; the save reaches the
        API only when the API is available (`saveConfig` returns early in the popup and
        selection hooks, the call throws and is caught in the inline sections). */
    method AutoSave(apiAvailable: bool) returns (saved: bool)
      modifies this
      ensures saved <==> old(WantsSave()) && apiAvailable
      ensures saved ==> saves == old(saves) + [SavedConfig(profiles, hotkey, enabled)]
      ensures !saved ==> saves == old(saves)
      ensures profiles == old(profiles) && selected == old(selected) && hotkey == old(hotkey)
      ensures enabled == old(enabled) && recording == old(recording)
    {
      if !WantsSave() || !apiAvailable {
        return false;
      }
      saves := saves + [SavedConfig(profiles, hotkey, enabled)];
      saved := true;
    }
  }

  /** An add followed by deletes never breaks the editor's invariants: at most nine presets
      (once within the cap), distinct generated names and unique ids. */
  predicate WellFormedList(ps: seq<Profile>) {
    |ps| <= MaxPresets && DistinctNames(ps) && UniqueIds(ps)
  }

  /** Adding a preset with a fresh id keeps a well-formed list well formed. */
  lemma AddKeepsWellFormed(ps: seq<Profile>, prefix: string, p: Profile)
    requires WellFormedList(ps) && |ps| < MaxPresets
    requires IsGeneratedName(ps, prefix, p.name)
    requires !HasId(ps, p.id)
    ensures WellFormedList(ps + [p])
  {
    GeneratedNameIsFresh(ps, prefix, p);
    var qs := ps + [p];
    forall i, j | 0 <= i < j < |qs| ensures qs[i].id != qs[j].id {
      if j == |ps| {
        assert qs[i] == ps[i];
      }
    }
  }

  /** Deleting keeps a well-formed list well formed. */
  lemma {:induction false} DeleteKeepsWellFormed(ps: seq<Profile>, id: string)
    requires WellFormedList(ps)
    ensures WellFormedList(WithoutId(ps, id))
  {
    if ps != [] {
      var rest := ps[1..];
      assert WellFormedList(rest) by {
        forall i, j | 0 <= i < j < |rest| ensures rest[i].id != rest[j].id && rest[i].name != rest[j].name {
          assert rest[i] == ps[i + 1] && rest[j] == ps[j + 1];
        }
      }
      DeleteKeepsWellFormed(rest, id);
      var r := WithoutId(rest, id);
      if ps[0].id != id {
        forall q | q in r ensures q.id != ps[0].id && q.name != ps[0].name {
          var j :| 0 <= j < |rest| && rest[j] == q;
          assert ps[j + 1] == q;
        }
        var qs := [ps[0]] + r;
        forall i, j | 0 <= i < j < |qs| ensures qs[i].id != qs[j].id && qs[i].name != qs[j].name {
          if i == 0 {
            assert qs[j] in r;
          } else {
            assert qs[i] == r[i - 1] && qs[j] == r[j - 1];
          }
        }
      }
    }
  }
}
