/** The preset state of the Tauri settings window (`rust/src/App.tsx`): three preset lists, one
    per section, the counter that numbers new presets and each section's active preset, with
    the normalisation applied to what is read back from storage and the hotkey recorder's
    display and accelerator strings. */
module TauriApp {
  import opened Wrappers
  import opened Text
  import opened Js
  import opened Sections
  import opened PresetEditing

  // ---------------------------------------------------------------- stored presets

  /** A preset as read back from storage: `name` and `prompt` may be missing or `null`. */
  datatype StoredPreset = StoredPreset(id: string, name: Option<string>, prompt: Option<string>)

  /** `sanitizePreset(preset)` */
  function SanitizePreset(p: StoredPreset): (q: Profile)
    ensures q.id == p.id
    ensures p.name.Some? ==> q.name == p.name.value
    ensures p.name.None? ==> q.name == "Untitled Preset"
    ensures p.prompt.Some? ==> q.prompt == p.prompt.value
    ensures p.prompt.None? ==> q.prompt == ""
  {
    Profile(p.id, p.name.GetOr("Untitled Preset"), p.prompt.GetOr(""))
  }

  /** A preset as it is written to storage. */
  function Stored(p: Profile): StoredPreset {
    StoredPreset(p.id, Some(p.name), Some(p.prompt))
  }

  /** Sanitising gives back a preset that went through storage unchanged. */
  lemma SanitizeStored(p: Profile)
    ensures SanitizePreset(Stored(p)) == p
  {
  }

  function SanitizeAll(ps: seq<StoredPreset>): (qs: seq<Profile>)
    ensures |qs| == |ps| && forall i :: 0 <= i < |ps| ==> qs[i] == SanitizePreset(ps[i])
  {
    if ps == [] then [] else [SanitizePreset(ps[0])] + SanitizeAll(ps[1..])
  }

  function StoredAll(ps: seq<Profile>): (qs: seq<StoredPreset>)
    ensures |qs| == |ps| && forall i :: 0 <= i < |ps| ==> qs[i] == Stored(ps[i])
  {
    if ps == [] then [] else [Stored(ps[0])] + StoredAll(ps[1..])
  }

  /** `normalizePresets(presets)`: a missing record or a missing section gives `[]`. */
  function NormalizePresets(stored: Option<PerView<Option<seq<StoredPreset>>>>): (r: PerView<seq<Profile>>)
    ensures forall v :: stored.None? || stored.value.Get(v).None? ==> r.Get(v) == []
    ensures forall v :: stored.Some? && stored.value.Get(v).Some? ==> r.Get(v) == SanitizeAll(stored.value.Get(v).value)
  {
    var s := stored.GetOr(Uniform(None));
    PerView(SanitizeAll(s.screenshot.GetOr([])), SanitizeAll(s.inputField.GetOr([])), SanitizeAll(s.selection.GetOr([])))
  }

  /** Normalising what was stored gives the presets back. */
  lemma NormalizeStored(presets: PerView<seq<Profile>>)
    ensures NormalizePresets(Some(PerView(Some(StoredAll(presets.screenshot)), Some(StoredAll(presets.inputField)),
                                          Some(StoredAll(presets.selection))))) == presets
  {
    forall ps: seq<Profile> ensures SanitizeAll(StoredAll(ps)) == ps {
      assert forall i :: 0 <= i < |ps| ==> SanitizeAll(StoredAll(ps))[i] == ps[i];
    }
  }

  /** `normalizeActivePresetIds(activeIds)` */
  function NormalizeActiveIds(stored: Option<PerView<Option<string>>>): (r: PerView<Option<string>>)
    ensures forall v :: r.Get(v) == if stored.None? then None else stored.value.Get(v)
  {
    stored.GetOr(Uniform(None))
  }

  // ---------------------------------------------------------------- preset numbers

  /** `id.match(/preset-(\d+)/)` read with `parseInt`: the leftmost `preset-` followed by a
      digit, and the whole run of digits after it. */
  function PresetNumber(id: string): Option<nat>
    decreases |id|
  {
    if |id| < 8 then None
    else if id[..7] == "preset-" && IsDigit(id[7]) then Some(ParseLeadingInt(id[7..]))
    else PresetNumber(id[1..])
  }

  /** The id `addPreset` gives preset number `n`. */
  function PresetId(n: nat): string {
    "preset-" + Dec(n)
  }

  /** The pattern reads back the number of a generated id. */
  lemma PresetNumberOfId(n: nat)
    ensures PresetNumber(PresetId(n)) == Some(n)
  {
    var id := PresetId(n);
    assert id[..7] == "preset-";
    assert id[7..] == Dec(n);
    assert IsDigit(id[7]);
    ParseLeadingIntFacts(Dec(n));
    ParseDec(n);
  }

  /** The number an id contributes to the maximum: its match, or 0. */
  function IdNumber(id: string): nat {
    match PresetNumber(id)
    case Some(n) => n
    case None => 0
  }

  function MaxIdNumber(ps: seq<Profile>): (m: nat)
    ensures forall i :: 0 <= i < |ps| ==> IdNumber(ps[i].id) <= m
    ensures m == 0 || exists i :: 0 <= i < |ps| && IdNumber(ps[i].id) == m
  {
    if ps == [] then 0
    else
      var rest := MaxIdNumber(ps[1..]);
      var first := IdNumber(ps[0].id);
      assert forall i :: 1 <= i < |ps| ==> ps[i] == ps[1..][i - 1];
      if first >= rest then first else rest
  }

  /** `deriveNextPresetId(presets)`: one more than the largest preset number in any section. */
  function DeriveNextPresetId(presets: PerView<seq<Profile>>): (n: nat)
    ensures n >= 1
  {
    MaxIdNumber(presets.screenshot + presets.inputField + presets.selection) + 1
  }

  /** The counter is ahead of every preset number in use. */
  ghost predicate CounterAhead(presets: PerView<seq<Profile>>, next: nat) {
    forall v, i :: 0 <= i < |presets.Get(v)| ==> IdNumber(presets.Get(v)[i].id) < next
  }

  /** The derived counter is ahead of every preset number. */
  lemma DerivedCounterAhead(presets: PerView<seq<Profile>>)
    ensures CounterAhead(presets, DeriveNextPresetId(presets))
  {
    var all := presets.screenshot + presets.inputField + presets.selection;
    forall v, i | 0 <= i < |presets.Get(v)| ensures IdNumber(presets.Get(v)[i].id) < DeriveNextPresetId(presets) {
      var j := match v
        case Screenshot => i
        case InputField => |presets.screenshot| + i
        case Selection => |presets.screenshot| + |presets.inputField| + i;
      assert all[j] == presets.Get(v)[i];
    }
  }

  /** No smaller positive counter is ahead. */
  lemma DerivedCounterLeast(presets: PerView<seq<Profile>>, next: nat)
    requires next >= 1 && CounterAhead(presets, next)
    ensures DeriveNextPresetId(presets) <= next
  {
    var all := presets.screenshot + presets.inputField + presets.selection;
    {
      var m := MaxIdNumber(all);
      if m != 0 {
        var j :| 0 <= j < |all| && IdNumber(all[j].id) == m;
        if j < |presets.screenshot| {
          assert all[j] == presets.Get(Screenshot)[j];
        } else if j < |presets.screenshot| + |presets.inputField| {
          assert all[j] == presets.Get(InputField)[j - |presets.screenshot|];
        } else {
          assert all[j] == presets.Get(Selection)[j - |presets.screenshot| - |presets.inputField|];
        }
      }
    }
  }

  /** A counter ahead of every preset number names an id no section uses. */
  lemma AheadIdIsFresh(presets: PerView<seq<Profile>>, next: nat, v: View)
    requires CounterAhead(presets, next)
    ensures !HasId(presets.Get(v), PresetId(next))
  {
    PresetNumberOfId(next);
    forall i | 0 <= i < |presets.Get(v)| ensures presets.Get(v)[i].id != PresetId(next) {
      assert IdNumber(presets.Get(v)[i].id) < next;
    }
  }

  /** The counter on hydration: a stored positive number is kept, anything else gives the
      derived counter. */
  function HydratedNextId(stored: JsValue, presets: PerView<seq<Profile>>): (n: nat)
    ensures n >= 1
    ensures stored.Num? && stored.n > 0 ==> n == stored.n
    ensures !(stored.Num? && stored.n > 0) ==> n == DeriveNextPresetId(presets)
  {
    if stored.Num? && stored.n > 0 then stored.n else DeriveNextPresetId(presets)
  }

  // ---------------------------------------------------------------- hotkey strings

  /** `formatKeyName(key)` */
  function FormatKeyName(key: string): (name: string)
    ensures key == " " ==> name == "Space"
    ensures key == "Escape" ==> name == "Esc"
    ensures key != " " ==> ('+' in name <==> '+' in key)
    ensures key != " " && key != "Escape" ==> |name| == |key|
    ensures key != [] && IsTrimmed(key) ==> name != [] && IsTrimmed(name)
    ensures |key| >= 5 && key[..5] == "Arrow" ==> name == key
    ensures |key| == 1 && key != " " ==> name == [UpperChar(key[0])]
    ensures |key| > 1 && key == Lower(key) ==>
              |name| == |key| && name[0] == UpperChar(key[0]) && name[1..] == key[1..]
    ensures |key| > 1 && key != Lower(key) && key != "Escape" ==> name == key
  {
    if key == " " then "Space"
    else if key == "Escape" then "Esc"
    else if |key| >= 5 && key[..5] == "Arrow" then key
    else if |key| == 1 then Upper(key)
    else if key == Lower(key) then Capitalize(key)
    else key
  }

  /** `key.charAt(0).toUpperCase() + key.slice(1)` */
  function Capitalize(s: string): (r: string)
    ensures |r| == |s| && (s != [] ==> r[0] == UpperChar(s[0]) && r[1..] == s[1..])
  {
    if s == [] then [] else [UpperChar(s[0])] + s[1..]
  }

  /** `MODIFIER_DISPLAY_MAP[key]` */
  function ModifierDisplay(key: string): string {
    if key == "Control" then "Ctrl" else key
  }

  /** The modifiers held, in the order the recorder lists them. */
  function HeldModifiers(e: KeyPress): seq<string> {
    (if e.ctrl then ["Ctrl"] else []) + (if e.meta then ["Meta"] else [])
      + (if e.alt then ["Alt"] else []) + (if e.shift then ["Shift"] else [])
  }

  /** The parts of a recorded hotkey: Ctrl, Meta, Alt, Shift as held, then the key; a
      modifier pressed alone is shown by its own name. */
  function HotkeyParts(e: KeyPress): seq<string> {
    var mods := HeldModifiers(e);
    if !IsModifierKey(e.key) then mods + [FormatKeyName(e.key)]
    else if mods == [] then [ModifierDisplay(e.key)]
    else mods
  }

  /** `buildHotkeyString(event)` */
  method BuildHotkeyString(e: KeyPress) returns (display: string)
    ensures display == Join(HotkeyParts(e), " + ")
  {
    var parts := [];
    if e.ctrl {
      parts := parts + ["Ctrl"];
    }
    if e.meta {
      parts := parts + ["Meta"];
    }
    if e.alt {
      parts := parts + ["Alt"];
    }
    if e.shift {
      parts := parts + ["Shift"];
    }
    assert parts == HeldModifiers(e);
    if !IsModifierKey(e.key) {
      parts := parts + [FormatKeyName(e.key)];
    } else if |parts| == 0 {
      parts := parts + [ModifierDisplay(e.key)];
    }
    display := Join(parts, " + ");
  }

  /** `parts.map(part => part.trim()).filter(Boolean)` */
  function CleanParts(ps: seq<string>): (r: seq<string>)
    ensures |r| <= |ps|
  {
    if ps == [] then [] else (if Trim(ps[0]) == [] then [] else [Trim(ps[0])]) + CleanParts(ps[1..])
  }

  lemma CleanPartsCons(x: string, rest: seq<string>)
    ensures CleanParts([x] + rest) == (if Trim(x) == [] then [] else [Trim(x)]) + CleanParts(rest)
  {
    assert ([x] + rest)[1..] == rest;
  }

  /** `toAccelerator(display)`: split on `+`, trim the parts, drop the empty ones, join with
      `+`. */
  function TauriAccelerator(display: string): string {
    Join(CleanParts(Split(display, '+')), "+")
  }

  /** A well-formed accelerator segment: non-empty, without surrounding white space and
      without `+`. */
  predicate IsSegment(s: string) {
    s != [] && IsTrimmed(s) && '+' !in s
  }

  predicate AllSegments(ps: seq<string>) {
    forall i :: 0 <= i < |ps| ==> IsSegment(ps[i])
  }

  predicate PlusFree(ps: seq<string>) {
    forall i :: 0 <= i < |ps| ==> '+' !in ps[i]
  }

  /** Trimming only removes characters. */
  lemma TrimKeepsOut(s: string, c: char)
    requires c !in s
    ensures c !in Trim(s)
  {
    var a := TrimStart(s);
    assert forall j :: 0 <= j < |a| ==> a[j] == s[|s| - |a| + j];
    var t := TrimEnd(a);
    assert forall j :: 0 <= j < |t| ==> t[j] == a[j];
  }

  lemma {:induction false} SegmentsKept(ps: seq<string>)
    requires AllSegments(ps)
    ensures CleanParts(ps) == ps
  {
    if ps != [] {
      SegmentsKept(ps[1..]);
      TrimOfTrimmed(ps[0]);
      CleanPartsCons(ps[0], ps[1..]);
      assert [ps[0]] + ps[1..] == ps;
    }
  }

  lemma {:induction false} CleanedAreSegments(ps: seq<string>)
    requires PlusFree(ps)
    ensures AllSegments(CleanParts(ps))
  {
    if ps != [] {
      CleanedAreSegments(ps[1..]);
      TrimKeepsOut(ps[0], '+');
      var head: seq<string> := if Trim(ps[0]) == [] then [] else [Trim(ps[0])];
      assert AllSegments(head);
      assert CleanParts(ps) == head + CleanParts(ps[1..]);
    }
  }

  /** The accelerator is its segments joined by `+`: none empty, none padded, and splitting
      it on `+` gives them back. */
  lemma AcceleratorSegments(display: string)
    ensures var segs := CleanParts(Split(display, '+'));
      AllSegments(segs) && TauriAccelerator(display) == Join(segs, "+")
      && (segs != [] ==> Split(TauriAccelerator(display), '+') == segs)
  {
    var segs := CleanParts(Split(display, '+'));
    CleanedAreSegments(Split(display, '+'));
    if segs != [] {
      SplitSegments(segs);
    }
  }

  lemma SplitSegments(segs: seq<string>)
    requires segs != [] && AllSegments(segs)
    ensures Split(Join(segs, "+"), '+') == segs
  {
    assert PlusFree(segs);
    SplitJoin(segs, '+');
  }

  /** `toAccelerator` is idempotent. */
  lemma AcceleratorIdempotent(display: string)
    ensures TauriAccelerator(TauriAccelerator(display)) == TauriAccelerator(display)
  {
    AcceleratorSegments(display);
    var segs := CleanParts(Split(display, '+'));
    if segs == [] {
      assert TauriAccelerator(display) == "";
      assert Split("", '+') == [""];
      assert CleanParts([""]) == [];
    } else {
      SegmentsKept(segs);
    }
  }

  /** The parts with the spaces of " + " attached: `a + b + c` is `"a "`, `" b "`, `" c"`
      joined by `+`. */
  function Padded(ps: seq<string>, lead: bool): (r: seq<string>)
    ensures |r| == |ps|
    decreases |ps|
  {
    if ps == [] then []
    else if |ps| == 1 then [Space(lead) + ps[0]]
    else [Space(lead) + ps[0] + " "] + Padded(ps[1..], true)
  }

  lemma {:induction false} JoinSpaced(ps: seq<string>, lead: bool)
    requires ps != []
    ensures Space(lead) + Join(ps, " + ") == Join(Padded(ps, lead), "+")
  {
    if |ps| > 1 {
      JoinSpaced(ps[1..], true);
      var l := Space(lead);
      assert l + Join(ps, " + ") == (l + ps[0] + " ") + "+" + (" " + Join(ps[1..], " + "));
    }
  }

  /** A space when `b` holds, nothing otherwise. */
  function Space(b: bool): (r: string)
    ensures forall i :: 0 <= i < |r| ==> IsJsWhitespace(r[i])
    ensures '+' !in r
  {
    if b then " " else ""
  }

  /** One padded part: a segment with the spaces of " + " on either side. */
  function PadOne(s: string, lead: bool, tail: bool): string {
    Space(lead) + s + Space(tail)
  }

  lemma PadOneCleans(s: string, lead: bool, tail: bool)
    requires IsSegment(s)
    ensures Trim(PadOne(s, lead, tail)) == s && '+' !in PadOne(s, lead, tail)
  {
    TrimPadded(Space(lead), s, Space(tail));
  }

  lemma PaddedCons(ps: seq<string>, lead: bool)
    requires ps != []
    ensures Padded(ps, lead) == [PadOne(ps[0], lead, |ps| > 1)] + Padded(ps[1..], true)
  {
    if |ps| == 1 {
      assert Space(lead) + ps[0] + "" == Space(lead) + ps[0];
    }
  }

  lemma {:induction false} PaddedPlusFree(ps: seq<string>, lead: bool)
    requires AllSegments(ps)
    ensures PlusFree(Padded(ps, lead))
  {
    if ps != [] {
      var h := PadOne(ps[0], lead, |ps| > 1);
      var t := Padded(ps[1..], true);
      PaddedCons(ps, lead);
      PadOneCleans(ps[0], lead, |ps| > 1);
      PaddedPlusFree(ps[1..], true);
      assert forall i :: 1 <= i < |ps| ==> ([h] + t)[i] == t[i - 1];
    }
  }

  lemma {:induction false} PaddedCleaned(ps: seq<string>, lead: bool)
    requires AllSegments(ps)
    ensures CleanParts(Padded(ps, lead)) == ps
  {
    if ps != [] {
      var h := PadOne(ps[0], lead, |ps| > 1);
      var t := Padded(ps[1..], true);
      PaddedCons(ps, lead);
      PadOneCleans(ps[0], lead, |ps| > 1);
      PaddedCleaned(ps[1..], true);
      CleanPartsCons(h, t);
      assert [ps[0]] + ps[1..] == ps;
    }
  }

  lemma ModifiersAreSegments(e: KeyPress)
    ensures AllSegments(HeldModifiers(e))
  {
    assert IsSegment("Ctrl") && IsSegment("Meta") && IsSegment("Alt") && IsSegment("Shift");
  }

  /** Every recorded part is a segment when the key's own name is. */
  lemma HotkeyPartsAreSegments(e: KeyPress)
    requires e.key != [] && IsTrimmed(e.key) && '+' !in e.key
    ensures AllSegments(HotkeyParts(e)) && HotkeyParts(e) != []
  {
    ModifiersAreSegments(e);
    var mods := HeldModifiers(e);
    if !IsModifierKey(e.key) {
      var k := FormatKeyName(e.key);
      assert IsSegment(k);
      assert HotkeyParts(e) == mods + [k];
    } else if mods == [] {
      assert IsSegment(ModifierDisplay(e.key));
    }
  }

  /** The recorded display string becomes the accelerator of its parts joined by `+`: the
      spaces of " + " disappear and every part survives, unless the key's name itself
      contains `+`. */
  lemma HotkeyAccelerator(e: KeyPress)
    requires e.key != [] && IsTrimmed(e.key) && '+' !in e.key
    ensures TauriAccelerator(Join(HotkeyParts(e), " + ")) == Join(HotkeyParts(e), "+")
  {
    var ps := HotkeyParts(e);
    HotkeyPartsAreSegments(e);
    JoinSpaced(ps, false);
    assert Space(false) + Join(ps, " + ") == Join(ps, " + ");
    PaddedCleaned(ps, false);
    PaddedPlusFree(ps, false);
    SplitJoin(Padded(ps, false), '+');
  }

  /** The `+` key itself does not survive: Ctrl with `+` is shown as "Ctrl + +" and its
      accelerator is "Ctrl". */
  lemma PlusKeyLost()
    ensures var e := KeyPress("+", true, false, false, false);
      Join(HotkeyParts(e), " + ") == "Ctrl + +" && TauriAccelerator(Join(HotkeyParts(e), " + ")) == "Ctrl"
  {
    CtrlPlusParts();
    CtrlPlusAccelerator();
  }

  lemma CtrlPlusParts()
    ensures HotkeyParts(KeyPress("+", true, false, false, false)) == ["Ctrl", "+"]
    ensures Join(["Ctrl", "+"], " + ") == "Ctrl + +"
  {
    assert FormatKeyName("+") == "+";
    assert Join(["Ctrl", "+"], " + ") == "Ctrl" + " + " + "+";
  }

  lemma CtrlPlusSplit()
    ensures Split("Ctrl + +", '+') == ["Ctrl ", " ", ""]
  {
    SplitFirst("Ctrl ", '+', " +");
    SplitFirst(" ", '+', "");
    assert "Ctrl " + ['+'] + " +" == "Ctrl + +";
    assert " " + ['+'] + "" == " +";
    assert Split("", '+') == [""];
  }

  lemma CtrlPlusAccelerator()
    ensures TauriAccelerator("Ctrl + +") == "Ctrl"
  {
    CtrlPlusSplit();
    TrimPadded("", "Ctrl", " ");
    assert "" + "Ctrl" + " " == "Ctrl ";
    BlankIffTrimEmpty(" ");
    BlankIffTrimEmpty("");
    CleanPartsCons("Ctrl ", [" ", ""]);
    CleanPartsCons(" ", [""]);
    CleanPartsCons("", []);
    assert CleanParts(["Ctrl ", " ", ""]) == ["Ctrl"];
  }

  // ---------------------------------------------------------------- the state

  /** `{ ...preset, ...updates }`: the fields present in `updates` replace the preset's. */
  datatype PresetUpdate = PresetUpdate(name: Option<string>, prompt: Option<string>)

  function Apply(p: Profile, u: PresetUpdate): (q: Profile)
    ensures q.id == p.id
  {
    Profile(p.id, u.name.GetOr(p.name), u.prompt.GetOr(p.prompt))
  }

  /** `list.map(preset => preset.id === id ? { ...preset, ...updates } : preset)` */
  function UpdateById(ps: seq<Profile>, id: string, u: PresetUpdate): (r: seq<Profile>)
    ensures |r| == |ps|
    ensures forall i :: 0 <= i < |ps| ==> r[i] == if ps[i].id == id then Apply(ps[i], u) else ps[i]
  {
    if ps == [] then [] else [if ps[0].id == id then Apply(ps[0], u) else ps[0]] + UpdateById(ps[1..], id, u)
  }

  /** A section's active id after reconciliation: none for an empty list, the old one when
      it is still in the list, the first preset's otherwise. */
  function Reconciled(ps: seq<Profile>, active: Option<string>): (r: Option<string>)
    ensures r.None? <==> ps == []
    ensures r.Some? ==> HasId(ps, r.value)
    ensures active.Some? && HasId(ps, active.value) ==> r == active
    ensures ps != [] && !(active.Some? && HasId(ps, active.value)) ==> r == Some(ps[0].id)
  {
    if ps == [] then None
    else if active.Some? && HasId(ps, active.value) then active
    else Some(ps[0].id)
  }

  /** Reconciling twice is reconciling once. */
  lemma ReconcileIdempotent(ps: seq<Profile>, active: Option<string>)
    ensures Reconciled(ps, Reconciled(ps, active)) == Reconciled(ps, active)
  {
  }

  /** The presets, the counter and the active ids of the settings window. */
  class PresetState {
    var presets: PerView<seq<Profile>>
    var nextPresetId: nat
    var activeIds: PerView<Option<string>>

    /** The hydration effect: a stored state is normalised, and nothing stored (or a parse
        failure) gives empty sections, counter 1 and no active presets. */
    constructor Hydrate(stored: Option<(Option<PerView<Option<seq<StoredPreset>>>>, JsValue, Option<PerView<Option<string>>>)>)
      ensures stored.None? ==> presets == Uniform([]) && nextPresetId == 1 && activeIds == Uniform(None)
      ensures stored.Some? ==>
        && presets == NormalizePresets(stored.value.0)
        && nextPresetId == HydratedNextId(stored.value.1, presets)
        && activeIds == NormalizeActiveIds(stored.value.2)
    {
      if stored.None? {
        presets := Uniform([]);
        nextPresetId := 1;
        activeIds := Uniform(None);
      } else {
        var (p, n, a) := stored.value;
        presets := NormalizePresets(p);
        nextPresetId := HydratedNextId(n, NormalizePresets(p));
        activeIds := NormalizeActiveIds(a);
      }
    }

    /** `addPreset(view)`: append `preset-N` named `Preset N` with an empty prompt, make it
        the section's active preset and advance the counter. */
    method AddPreset(view: View)
      modifies this
      ensures presets == old(presets).Set(view, old(presets).Get(view) + [Profile(PresetId(old(nextPresetId)), "Preset " + Dec(old(nextPresetId)), "")])
      ensures activeIds == old(activeIds).Set(view, Some(PresetId(old(nextPresetId))))
      ensures nextPresetId == old(nextPresetId) + 1
    {
      var p := Profile(PresetId(nextPresetId), "Preset " + Dec(nextPresetId), "");
      presets := presets.Set(view, presets.Get(view) + [p]);
      activeIds := activeIds.Set(view, Some(p.id));
      nextPresetId := nextPresetId + 1;
    }

    /** `updatePreset(view, id, updates)` */
    method UpdatePreset(view: View, id: string, u: PresetUpdate)
      modifies this
      ensures presets == old(presets).Set(view, UpdateById(old(presets).Get(view), id, u))
      ensures activeIds == old(activeIds) && nextPresetId == old(nextPresetId)
    {
      presets := presets.Set(view, UpdateById(presets.Get(view), id, u));
    }

    /** `deletePreset(view, id)`: nothing for an absent id; otherwise the preset is removed
        and, when it was the section's active one, the first remaining preset (or none)
        becomes active. */
    method DeletePreset(view: View, id: string) returns (deleted: bool)
      modifies this
      ensures deleted <==> HasId(old(presets).Get(view), id)
      ensures !deleted ==> presets == old(presets) && activeIds == old(activeIds)
      ensures deleted ==> presets == old(presets).Set(view, WithoutId(old(presets).Get(view), id))
      ensures deleted && old(activeIds).Get(view) == Some(id) ==>
        var rest := WithoutId(old(presets).Get(view), id);
        activeIds == old(activeIds).Set(view, if |rest| > 0 then Some(rest[0].id) else None)
      ensures deleted && old(activeIds).Get(view) != Some(id) ==> activeIds == old(activeIds)
      ensures nextPresetId == old(nextPresetId)
    {
      var updatedList: Option<seq<Profile>> := None;
      if HasId(presets.Get(view), id) {
        updatedList := Some(WithoutId(presets.Get(view), id));
        presets := presets.Set(view, updatedList.value);
      }
      if updatedList.None? {
        return false;
      }
      deleted := true;
      if activeIds.Get(view) == Some(id) {
        var rest := updatedList.value;
        activeIds := activeIds.Set(view, if |rest| > 0 then Some(rest[0].id) else None);
      }
    }

    /** The reconciliation effect: visit the sections in order on a copy of the active ids,
        and keep the old record when nothing changed. */
    method ReconcileActiveIds() returns (updated: bool)
      modifies this
      ensures forall v :: activeIds.Get(v) == Reconciled(presets.Get(v), old(activeIds).Get(v))
      ensures updated <==> activeIds != old(activeIds)
      ensures presets == old(presets) && nextPresetId == old(nextPresetId)
    {
      var nextState := activeIds;
      updated := false;
      for i := 0 to |AllViews|
        invariant forall j :: 0 <= j < i ==> nextState.Get(AllViews[j]) == Reconciled(presets.Get(AllViews[j]), activeIds.Get(AllViews[j]))
        invariant forall j :: i <= j < |AllViews| ==> nextState.Get(AllViews[j]) == activeIds.Get(AllViews[j])
        invariant updated <==> exists j :: 0 <= j < i && nextState.Get(AllViews[j]) != activeIds.Get(AllViews[j])
      {
        var view := AllViews[i];
        var currentList := presets.Get(view);
        if |currentList| == 0 {
          if nextState.Get(view) != None {
            nextState := nextState.Set(view, None);
            updated := true;
          }
        } else if !HasId(currentList, nextState.Get(view).GetOr("")) || nextState.Get(view).None? {
          nextState := nextState.Set(view, Some(currentList[0].id));
          updated := true;
        }
      }
      forall v ensures nextState.Get(v) == Reconciled(presets.Get(v), activeIds.Get(v)) {
        assert v == AllViews[0] || v == AllViews[1] || v == AllViews[2];
      }
      if updated {
        activeIds := nextState;
      } else {
        assert nextState.Get(AllViews[0]) == activeIds.Get(AllViews[0]);
        assert nextState.Get(AllViews[1]) == activeIds.Get(AllViews[1]);
        assert nextState.Get(AllViews[2]) == activeIds.Get(AllViews[2]);
        assert nextState == activeIds;
      }
    }
  }

  /** Adding keeps the counter ahead of every preset number, so the id it gave is unused in
      every section and the next one will be too. */
  lemma AddKeepsCounterAhead(presets: PerView<seq<Profile>>, next: nat, view: View)
    requires CounterAhead(presets, next)
    ensures !HasId(presets.Get(view), PresetId(next))
    ensures CounterAhead(presets.Set(view, presets.Get(view) + [Profile(PresetId(next), "Preset " + Dec(next), "")]), next + 1)
  {
    AheadIdIsFresh(presets, next, view);
    PresetNumberOfId(next);
    var q := presets.Set(view, presets.Get(view) + [Profile(PresetId(next), "Preset " + Dec(next), "")]);
    forall v, i | 0 <= i < |q.Get(v)| ensures IdNumber(q.Get(v)[i].id) < next + 1 {
      if v == view && i == |presets.Get(view)| {
      } else {
        assert q.Get(v)[i] == presets.Get(v)[i];
      }
    }
  }

  /** Deleting keeps the counter ahead. */
  lemma DeleteKeepsCounterAhead(presets: PerView<seq<Profile>>, next: nat, view: View, id: string)
    requires CounterAhead(presets, next)
    ensures CounterAhead(presets.Set(view, WithoutId(presets.Get(view), id)), next)
  {
    var q := presets.Set(view, WithoutId(presets.Get(view), id));
    forall v, i | 0 <= i < |q.Get(v)| ensures IdNumber(q.Get(v)[i].id) < next {
      if v == view {
        assert q.Get(v)[i] in presets.Get(view);
      }
    }
  }
}
