/** The preset lists of the Tauri floating window
    (`rust/src/floating-window/FloatingWindowApp.tsx`): how an untrusted state value is cleaned
    into three sections, where the state comes from (the back-end command, then the browser
    cache, then nothing), and the name a preset button shows. */
module FloatingWindow {
  import opened Wrappers
  import opened Text
  import opened Js
  import opened Sections

  /** The property name of a section in the stored state. */
  function SectionKey(v: View): string {
    match v
    case Screenshot => "screenshot"
    case InputField => "inputField"
    case Selection => "selection"
  }

  /** `preset ?? {}` */
  function OrEmptyObject(x: JsValue): (y: JsValue)
    ensures IsNullish(x) ==> y == Obj(map[])
    ensures !IsNullish(x) ==> y == x
  {
    if IsNullish(x) then Obj(map[]) else x
  }

  /** `list.map((preset) => preset ?? {}).filter(Boolean)` */
  function CleanEntries(items: seq<JsValue>): (r: seq<JsValue>)
    ensures |r| <= |items|
    ensures forall i :: 0 <= i < |r| ==> Truthy(r[i])
    ensures forall x :: x in r ==> x == Obj(map[]) || x in items
  {
    if items == [] then []
    else
      var y := OrEmptyObject(items[0]);
      (if Truthy(y) then [y] else []) + CleanEntries(items[1..])
  }

  /** An entry that survives cleaning unchanged in position: an object, an array, or a
      missing entry. */
  predicate Structured(x: JsValue) {
    x.Obj? || x.Arr? || IsNullish(x)
  }

  /** When every entry is structured (the shape the settings window writes), cleaning keeps
      the length and the order and only replaces missing entries by `{}`. */
  lemma {:induction false} CleanStructured(items: seq<JsValue>)
    requires forall i :: 0 <= i < |items| ==> Structured(items[i])
    ensures |CleanEntries(items)| == |items|
    ensures forall i :: 0 <= i < |items| ==> CleanEntries(items)[i] == OrEmptyObject(items[i])
  {
    if items != [] {
      CleanStructured(items[1..]);
      assert Truthy(OrEmptyObject(items[0]));
      assert CleanEntries(items) == [OrEmptyObject(items[0])] + CleanEntries(items[1..]);
    }
  }

  /** A falsy entry (`false`, `0`, `""`) is dropped, so the section gets shorter. */
  lemma FalsyEntryDropped(items: seq<JsValue>, x: JsValue)
    requires !IsNullish(x) && !Truthy(x)
    ensures CleanEntries([x] + items) == CleanEntries(items)
  {
    assert ([x] + items)[1..] == items;
  }

  /** The section a stored state gives: its list when that is an array, `[]` otherwise. */
  function CleanSection(raw: JsValue, v: View): (r: seq<JsValue>)
    ensures !(Member(Member(raw, "presets"), SectionKey(v))).Arr? ==> r == []
    ensures (Member(Member(raw, "presets"), SectionKey(v))).Arr? ==>
      r == CleanEntries(Member(Member(raw, "presets"), SectionKey(v)).items)
  {
    var list := Member(Member(raw, "presets"), SectionKey(v));
    if list.Arr? then CleanEntries(list.items) else []
  }

  /** `normalizeState(raw)`: all three sections, each cleaned from its stored list; a value
      that is not an object (arrays included, since they carry no `presets`) gives three
      empty sections. */
  function NormalizeState(raw: JsValue): (r: PerView<seq<JsValue>>)
    ensures forall v :: r.Get(v) == CleanSection(raw, v)
    ensures !raw.Obj? ==> r == Uniform([])
  {
    if Truthy(raw) && (raw.Obj? || raw.Arr?) then
      PerView(CleanSection(raw, Screenshot), CleanSection(raw, InputField), CleanSection(raw, Selection))
    else Uniform([])
  }

  /** A state written back as an object, one array per section. */
  function Written(r: PerView<seq<JsValue>>): JsValue {
    Obj(map["presets" := Obj(map["screenshot" := Arr(r.screenshot),
      "inputField" := Arr(r.inputField), "selection" := Arr(r.selection)])])
  }

  lemma WrittenSection(r: PerView<seq<JsValue>>, v: View)
    ensures Member(Member(Written(r), "presets"), SectionKey(v)) == Arr(r.Get(v))
  {
  }

  /** Normalising an already normalised state written back as an object changes nothing. */
  lemma NormalizeIdempotent(raw: JsValue)
    ensures NormalizeState(Written(NormalizeState(raw))) == NormalizeState(raw)
  {
    var r := NormalizeState(raw);
    var w := Written(r);
    forall v ensures CleanSection(w, v) == r.Get(v) {
      WrittenSection(r, v);
      CleanTruthy(r.Get(v));
    }
    var n := NormalizeState(w);
    assert n.Get(Screenshot) == r.Get(Screenshot);
    assert n.Get(InputField) == r.Get(InputField);
    assert n.Get(Selection) == r.Get(Selection);
  }

  lemma {:induction false} CleanTruthy(items: seq<JsValue>)
    requires forall i :: 0 <= i < |items| ==> Truthy(items[i])
    ensures CleanEntries(items) == items
  {
    if items != [] {
      CleanTruthy(items[1..]);
      assert !IsNullish(items[0]);
      assert [items[0]] + items[1..] == items;
    }
  }

  /** The browser cache entry: none (or empty), text that does not parse, or a parsed value. */
  datatype CacheEntry = NoEntry | Corrupt | Cached(value: JsValue)

  /** `getFallbackState()` */
  function FallbackState(cache: CacheEntry): (r: PerView<seq<JsValue>>)
    ensures cache.Cached? ==> r == NormalizeState(cache.value)
    ensures !cache.Cached? ==> r == Uniform([])
  {
    match cache
    case Cached(v) => NormalizeState(v)
    case _ => Uniform([])
  }

  /** What the `load_presets_state` command gave: an error, or a value (possibly null). */
  datatype CommandResult = CommandFailed | Returned(value: JsValue)

  /** `fetchLatestState()`: a truthy state from the command is written to the cache and used;
      otherwise the cache decides. Returns the state and the cache afterwards. */
  function FetchLatestState(command: CommandResult, cache: CacheEntry): (r: (PerView<seq<JsValue>>, CacheEntry))
    ensures command.Returned? && Truthy(command.value) ==> r == (NormalizeState(command.value), Cached(command.value))
    ensures !(command.Returned? && Truthy(command.value)) ==> r == (FallbackState(cache), cache)
  {
    if command.Returned? && Truthy(command.value) then (NormalizeState(command.value), Cached(command.value))
    else (FallbackState(cache), cache)
  }

  /** Once the command has answered, a later failure of the command shows the same lists. */
  lemma FallbackRemembersCommand(v: JsValue, cache: CacheEntry)
    requires Truthy(v)
    ensures var (shown, stored) := FetchLatestState(Returned(v), cache);
      FetchLatestState(CommandFailed, stored).0 == shown
  {
  }

  /** `preset?.name?.trim() ? preset.name : "Untitled Preset"`: a string name that is not
      blank is shown as written; a missing name or a blank one shows the default; any other
      name makes `trim` throw. */
  function DisplayName(preset: JsValue): (r: Result<string, string>)
    ensures var name := Member(preset, "name");
      && (IsNullish(name) ==> r == Ok("Untitled Preset"))
      && (name.Str? ==> r == Ok(if IsBlank(name.s) then "Untitled Preset" else name.s))
      && (!IsNullish(name) && !name.Str? <==> r.Err?)
  {
    var name := Member(preset, "name");
    BlankIffTrimEmpty(if name.Str? then name.s else "");
    if IsNullish(name) then Ok("Untitled Preset")
    else if !name.Str? then Err("TypeError: preset.name.trim is not a function")
    else if Trim(name.s) != [] then Ok(name.s)
    else Ok("Untitled Preset")
  }

  /** The shown name is never blank. */
  lemma DisplayNameNotBlank(preset: JsValue)
    requires DisplayName(preset).Ok?
    ensures !IsBlank(DisplayName(preset).value)
  {
    assert !IsBlank("Untitled Preset") by {
      BlankIffAllWhitespace("Untitled Preset");
      assert !IsJsWhitespace("Untitled Preset"[0]);
    }
  }
}
