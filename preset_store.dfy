/** The Tauri back end's preset store (`rust/src-tauri/src/lib.rs`): the persisted state with
    the defaults its deserialiser fills in, and a write-through cache in front of the file
    that holds it. The file system is a field of the store; what each write does is an oracle
    argument. */
module PresetStore {
  import opened Wrappers
  import opened Sections

  const I32Min: int := -0x8000_0000
  const I32Max: int := 0x7fff_ffff

  /** Rust's `i32`. */
  newtype i32 = x: int | I32Min <= x <= I32Max

  datatype Settings = Settings(autoOpenOnStart: bool, openaiApiKey: string)

  datatype Hotkeys = Hotkeys(screenshot: string)

  /** `PersistedState` */
  datatype PersistedState = PersistedState(
    presets: PerView<seq<Profile>>,
    nextPresetId: i32,
    activeIds: PerView<Option<string>>,
    settings: Option<Settings>,
    hotkeys: Option<Hotkeys>)

  /** The JSON object a state file holds, field by field: `None` is a missing field (or, for
      the active ids, a `null`). The numeric field is kept as the unbounded number written in
      the file. */
  datatype StoredDoc = StoredDoc(
    presets: Option<PerView<Option<seq<Profile>>>>,
    nextPresetId: Option<int>,
    activeIds: Option<PerView<Option<string>>>,
    settings: Option<Settings>,
    hotkeys: Option<Hotkeys>)

  /** The message of a rejected document; serde's wording is not part of the model. */
  const OutOfRange: string := "invalid value: integer, expected i32"
  const NotJson: string := "expected value"

  /** A section as written in the document, `[]` when it or the whole collection is missing. */
  function StoredSection(doc: StoredDoc, v: View): seq<Profile> {
    if doc.presets.None? || doc.presets.value.Get(v).None? then [] else doc.presets.value.Get(v).value
  }

  /** `serde_json::from_str::<PersistedState>` on a well-formed object: missing sections and
      a missing object give empty lists, a missing counter gives 1, missing active ids give
      none, and a counter outside the `i32` range is an error. */
  function Deserialize(doc: StoredDoc): (r: Result<PersistedState, string>)
    ensures r.Err? <==> doc.nextPresetId.Some? && !(I32Min <= doc.nextPresetId.value <= I32Max)
    ensures r.Ok? ==> doc.nextPresetId.None? ==> r.value.nextPresetId == 1
    ensures r.Ok? ==> doc.nextPresetId.Some? ==> r.value.nextPresetId as int == doc.nextPresetId.value
    ensures r.Ok? ==> forall v :: r.value.presets.Get(v) == StoredSection(doc, v)
    ensures r.Ok? ==> forall v :: r.value.activeIds.Get(v) == if doc.activeIds.None? then None else doc.activeIds.value.Get(v)
    ensures r.Ok? ==> r.value.settings == doc.settings && r.value.hotkeys == doc.hotkeys
  {
    var n := doc.nextPresetId.GetOr(1);
    if !(I32Min <= n <= I32Max) then Err(OutOfRange)
    else
      var p := doc.presets.GetOr(Uniform(None));
      Ok(PersistedState(
        PerView(p.screenshot.GetOr([]), p.inputField.GetOr([]), p.selection.GetOr([])),
        n as i32,
        doc.activeIds.GetOr(Uniform(None)),
        doc.settings,
        doc.hotkeys))
  }

  /** `serde_json::to_string_pretty(&state)`: every field is written. */
  function Serialize(s: PersistedState): StoredDoc {
    StoredDoc(
      Some(PerView(Some(s.presets.screenshot), Some(s.presets.inputField), Some(s.presets.selection))),
      Some(s.nextPresetId as int),
      Some(s.activeIds),
      s.settings,
      s.hotkeys)
  }

  /** A written state reads back as itself. */
  lemma DeserializeSerialize(s: PersistedState)
    ensures Deserialize(Serialize(s)) == Ok(s)
  {
  }

  /** The state file: absent, unreadable for another reason, or holding text that does or
      does not parse as a JSON object of the expected shape. */
  datatype FileState = Missing | Unreadable(reason: string) | Holds(doc: Option<StoredDoc>)

  /** `load_from_disk(path)` */
  function LoadFromDisk(f: FileState): (r: Result<Option<PersistedState>, string>)
    ensures f.Missing? <==> r == Ok(None)
    ensures f.Unreadable? ==> r == Err(f.reason)
    ensures f.Holds? && f.doc.None? ==> r.Err?
    ensures f.Holds? && f.doc.Some? ==>
      match Deserialize(f.doc.value)
      case Ok(s) => r == Ok(Some(s))
      case Err(e) => r == Err(e)
  {
    match f
    case Missing => Ok(None)
    case Unreadable(reason) => Err(reason)
    case Holds(None) => Err(NotJson)
    case Holds(Some(doc)) =>
      match Deserialize(doc)
      case Ok(s) => Ok(Some(s))
      case Err(e) => Err(e)
  }

  /** How the steps of `save_state` that touch the file system turn out. */
  datatype WriteOutcome = Written | CreateDirFailed(reason: string) | SerializeFailed(reason: string) | WriteFailed(reason: string)

  /** The cache and the file together. */
  datatype Store = Store(cache: Option<PersistedState>, file: FileState)

  /** `load_state`: a cached state is returned without reading the file; otherwise the file
      is read and what it gave, `None` included, becomes the cache; an error leaves the cache
      as it was. */
  function Load(s: Store): (r: (Result<Option<PersistedState>, string>, Store))
    ensures r.1.file == s.file
    ensures s.cache.Some? ==> r == (Ok(s.cache), s)
    ensures s.cache.None? ==> r.0 == LoadFromDisk(s.file)
    ensures s.cache.None? && r.0.Ok? ==> r.1.cache == r.0.value
    ensures r.0.Err? ==> r.1 == s
  {
    if s.cache.Some? then (Ok(s.cache), s)
    else
      match LoadFromDisk(s.file)
      case Ok(loaded) => (Ok(loaded), s.(cache := loaded))
      case Err(e) => (Err(e), s)
  }

  /** `save_state(state)`: a failure before the cache is touched returns the error and
      changes nothing; a success writes the file, caches the state and returns it. */
  function Save(s: Store, state: PersistedState, w: WriteOutcome): (r: (Result<PersistedState, string>, Store))
    ensures w.Written? <==> r.0 == Ok(state)
    ensures !w.Written? ==> r == (Err(w.reason), s)
    ensures w.Written? ==> r.1.cache == Some(state)
  {
    match w
    case Written => (Ok(state), Store(Some(state), Holds(Some(Serialize(state)))))
    case CreateDirFailed(reason) => (Err(reason), s)
    case SerializeFailed(reason) => (Err(reason), s)
    case WriteFailed(reason) => (Err(reason), s)
  }

  /** The cache agrees with the file whenever it holds a state. */
  predicate Coherent(s: Store) {
    s.cache.Some? ==> LoadFromDisk(s.file) == Ok(s.cache)
  }

  /** In a coherent store the cache is invisible: loading gives what reading the file gives,
      and the store stays coherent. */
  lemma LoadIsTransparent(s: Store)
    requires Coherent(s)
    ensures Load(s).0 == LoadFromDisk(s.file)
    ensures Coherent(Load(s).1)
  {
  }

  /** A successful save is seen by the next load, and after it the cache and the file agree
      even if the cache were dropped. */
  lemma SaveThenLoad(s: Store, state: PersistedState)
    ensures var after := Save(s, state, Written).1;
      Load(after).0 == Ok(Some(state)) && Coherent(after) && LoadFromDisk(after.file) == Ok(Some(state))
  {
    DeserializeSerialize(state);
  }

  /** A missing file leaves the cache empty, so the next load reads the file again. */
  lemma MissingFileNotCached(s: Store)
    requires s.cache.None? && s.file.Missing?
    ensures Load(s) == (Ok(None), s)
  {
  }

  /** `PresetStateStore`: the cache in its mutex and the file at its path. */
  class PresetStateStore {
    var cache: Option<PersistedState>
    var file: FileState

    function Snapshot(): Store
      reads this
    {
      Store(cache, file)
    }

    /** `PresetStateStore::new(path, initial)` */
    constructor (initial: Option<PersistedState>, onDisk: FileState)
      ensures Snapshot() == Store(initial, onDisk)
    {
      cache := initial;
      file := onDisk;
    }

    method LoadState() returns (r: Result<Option<PersistedState>, string>)
      modifies this
      ensures (r, Snapshot()) == Load(old(Snapshot()))
    {
      if cache.Some? {
        return Ok(cache);
      }
      var loaded := LoadFromDisk(file);
      if loaded.Err? {
        return Err(loaded.error);
      }
      cache := loaded.value;
      r := Ok(loaded.value);
    }

    method SaveState(state: PersistedState, w: WriteOutcome) returns (r: Result<PersistedState, string>)
      modifies this
      ensures (r, Snapshot()) == Save(old(Snapshot()), state, w)
    {
      if w.CreateDirFailed? || w.SerializeFailed? {
        return Err(w.reason);
      }
      if w.WriteFailed? {
        return Err(w.reason);
      }
      file := Holds(Some(Serialize(state)));
      cache := Some(state);
      r := Ok(state);
    }
  }
}
