/** The two preset configuration files of the Electron main process (one per hotkey flow),
    their default seeding on load, and the nine-preset cap applied on save. */
module MainConfig {
  import opened Js
  import opened Sections

  /** The parsed content of a configuration file as the hotkey code reads it: `null`, or an
      object whose missing `profiles` reads as `[]` and whose missing `general.hotkey` reads as
      the empty (falsy) string. */
  datatype Document = NullDocument | Document(profiles: seq<Profile>, hotkey: string)

  /** A configuration file on disk. */
  datatype ConfigFile =
    | Missing
    | Unreadable
    | Unparsable
    | Stored(doc: Document)

  const MaxProfiles := 9

  const DefaultProfile := Profile(
    "default-editgrammar",
    "EditGrammar",
    "Please fix the grammar and spelling in the following text while keeping the original meaning:")

  const DefaultDocument := Document([DefaultProfile], "")

  /** `loadInputFieldConfig` / `loadSelectionConfig`: the stored document when the file exists
      and parses; otherwise the default, which is also written back. */
  function LoadConfig(file: ConfigFile): (r: (Document, ConfigFile))
    ensures r.1.Stored? && r.1.doc == r.0
    ensures file.Stored? ==> r.1 == file
  {
    match file
    case Stored(doc) => (doc, file)
    case _ => (DefaultDocument, Stored(DefaultDocument))
  }

  /** Loading seeds a file at most once: a second load reads back what the first returned and
      leaves the file alone, and a seeded document has one preset and no hotkey. */
  lemma LoadConfigSeedsOnce(file: ConfigFile)
    ensures LoadConfig(LoadConfig(file).1) == LoadConfig(file)
    ensures !file.Stored? ==> LoadConfig(file).0.profiles == [DefaultProfile]
    ensures !file.Stored? ==> LoadConfig(file).0.hotkey == ""
  {
  }

  /** `profiles.slice(0, 9)` */
  function FirstNine<T>(ps: seq<T>): (r: seq<T>)
    ensures |r| <= MaxProfiles
    ensures r <= ps
    ensures |ps| <= MaxProfiles ==> r == ps
    ensures |ps| > MaxProfiles ==> |r| == MaxProfiles
  {
    if |ps| <= MaxProfiles then ps else ps[..MaxProfiles]
  }

  /** The effect of `enforceProfileLimit` on the `profiles` property. */
  function CappedProfiles(v: JsValue): (r: JsValue)
    ensures r.Arr? <==> v.Arr?
    ensures r.Arr? ==> |r.items| <= MaxProfiles && r.items <= v.items
    ensures r.Arr? && |v.items| <= MaxProfiles ==> r == v
    ensures r.Arr? && |v.items| > MaxProfiles ==> r.items == v.items[..MaxProfiles]
    ensures !v.Arr? ==> r == v
  {
    if v.Arr? then Arr(FirstNine(v.items)) else v
  }

  lemma CappedProfilesIdempotent(v: JsValue)
    ensures CappedProfiles(CappedProfiles(v)) == CappedProfiles(v)
  {
  }

  /** A configuration object received from a settings window. */
  class ConfigObject {
    var profiles: JsValue

    constructor (profiles: JsValue)
      ensures this.profiles == profiles
    {
      this.profiles := profiles;
    }
  }

  /** `enforceProfileLimit(config)`: a profiles array longer than nine is replaced, in place,
      by its first nine entries; anything else is returned untouched. */
  method EnforceProfileLimit(config: ConfigObject?) returns (r: ConfigObject?)
    modifies config
    ensures r == config
    ensures config != null ==> config.profiles == CappedProfiles(old(config.profiles))
  {
    if config == null || !config.profiles.Arr? {
      return config;
    }
    if |config.profiles.items| > MaxProfiles {
      config.profiles := Arr(config.profiles.items[..MaxProfiles]);
    }
    return config;
  }
}
