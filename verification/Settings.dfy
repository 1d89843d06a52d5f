/** The settings repository (app/settings/repository.py): theme and export directory in a file that
    is replaced atomically, the API key in a secret store and never in the file. */
module Settings {
  import opened Basics
  import opened AtomicWrite

  const KEY_NAME := "virustotal_api_key"
  const THEME := "theme"
  const DIRECTORY := "export_directory"

  datatype Json = Text(text: string) | Number(digits: string) | Bool(b: bool) | Null
                | Array(items: seq<Json>) | Object(fields: map<string, Json>)

  datatype Parsed = Malformed | Document(json: Json)

  /** The JSON library: the pieces it writes an object in, and what it reads from a text. */
  datatype Codec = Codec(pieces: map<string, Json> -> seq<string>, parse: string -> Parsed)
  {
    function Dump(fields: map<string, Json>): string { Concat(pieces(fields)) }

    /** What is dumped is read back. */
    ghost predicate Faithful() { forall fields :: parse(Dump(fields)) == Document(Object(fields)) }
  }

  /** The file may hold any JSON value for the two stored fields. */
  datatype ApplicationSettings = ApplicationSettings(apiKey: string, directory: Json, theme: Json)

  const DEFAULTS: ApplicationSettings :=
    ApplicationSettings("", Text("exports"), Text("Dark Mode (SOC-IQ Standard)"))

  /** `asdict(settings)` */
  function AsDict(s: ApplicationSettings): map<string, Json>
  {
    map[KEY_NAME := Text(s.apiKey), DIRECTORY := s.directory, THEME := s.theme]
  }

  /** What is saved: the dictionary with the API key popped. */
  function Payload(s: ApplicationSettings): map<string, Json>
  {
    AsDict(s) - {KEY_NAME}
  }

  /** How a file's content is taken. `Unusable` covers text that is no JSON, arrays and unknown
      fields; other values that are no objects raise an exception nobody catches. */
  datatype Reading = Missing | Unusable | NoObject | Usable(settings: ApplicationSettings, legacy: Option<Json>)

  function Field(fields: map<string, Json>, name: string, default: Json): Json
  {
    if name in fields then fields[name] else default
  }

  function Interpret(parsed: Parsed): Reading
  {
    match parsed
    case Malformed => Unusable
    case Document(Array(_)) => Unusable
    case Document(Object(fields)) =>
      if fields.Keys <= KNOWN then
        Usable(ApplicationSettings("", Field(fields, DIRECTORY, DEFAULTS.directory), Field(fields, THEME, DEFAULTS.theme)),
               if KEY_NAME in fields then Some(fields[KEY_NAME]) else None)
      else Unusable
    case Document(_) => NoObject
  }

  // ------------------------------------------------------------------ the secret store

  datatype StoreResult = Found(key: string) | NotFound | Unavailable

  /** The secret store; each call may find it unavailable. */
  class SecretStore {
    const reachable: nat -> bool
    var calls: nat
    var key: Option<string>

    constructor (reachable: nat -> bool, key: Option<string>)
      ensures this.key == key && this.reachable == reachable && calls == 0
    {
      this.reachable, this.key, calls := reachable, key, 0;
    }

    method Get() returns (r: StoreResult)
      modifies this`calls
      ensures calls == old(calls) + 1
      ensures r == if !reachable(old(calls)) then Unavailable else if key.Some? then Found(key.value) else NotFound
    {
      calls := calls + 1;
      if !reachable(calls - 1) {
        return Unavailable;
      }
      r := if key.Some? then Found(key.value) else NotFound;
    }

    method Set(value: string) returns (ok: bool)
      modifies this`calls, this`key
      ensures calls == old(calls) + 1 && ok == reachable(old(calls))
      ensures key == if ok then Some(value) else old(key)
    {
      calls := calls + 1;
      ok := reachable(calls - 1);
      if ok {
        key := Some(value);
      }
    }
  }

  // ------------------------------------------------------------------ the repository

  datatype Outcome<T> = Returned(value: T) | Raised

  /** The fields a settings file may have. */
  const KNOWN: set<string> := {KEY_NAME, DIRECTORY, THEME}

  /** The key that a file's text holds in plain text, unless it is blank. */
  function KeyIn(parsed: Parsed, strip: string -> string): Option<string>
  {
    match parsed
    case Document(Object(fields)) =>
      if KEY_NAME in fields && fields[KEY_NAME].Text? && strip(fields[KEY_NAME].text) != "" then Some(fields[KEY_NAME].text)
      else None
    case _ => None
  }

  /** The legacy key that `load` finds and moves. */
  function LegacyKey(reading: Reading, strip: string -> string): Option<string>
  {
    match reading
    case Usable(_, Some(Text(key))) => if strip(key) == "" then None else Some(key)
    case _ => None
  }

  /** The text is an object without an API key. */
  predicate Keyless(parsed: Parsed)
  {
    parsed.Document? && parsed.json.Object? && KEY_NAME !in parsed.json.fields
  }

  class SettingsRepository {
    const fs: FileSystem
    const store: SecretStore
    const json: Codec
    const path: string
    const strip: string -> string

    constructor (fs: FileSystem, store: SecretStore, json: Codec, path: string, strip: string -> string)
      requires fs.Valid() && json.Faithful()
      ensures Valid() && this.fs == fs && this.store == store && this.json == json && this.path == path && this.strip == strip
    {
      this.fs, this.store, this.json, this.path, this.strip := fs, store, json, path, strip;
    }

    ghost predicate Valid()
      reads this, fs
    {
      fs.Valid() && json.Faithful()
    }

    /** The complete file for some settings. */
    function FileText(s: ApplicationSettings): string
    {
      json.Dump(Payload(s))
    }

    /** Whatever a crash may find from record number `start` on, the file is the one there was
        before or one without an API key. */
    ghost predicate KeepsKeyOut(start: nat, before: Disk)
      reads this, fs
    {
      forall k :: start <= k < |fs.history| ==>
        var found := At(fs.history[k], path);
        found == At(before, path) || (found.Some? && Keyless(json.parse(found.value)))
    }

    /** Replaces the file by one without the API key. A crash or an exception at any step leaves the
        complete old or the complete new file. */
    method Save(s: ApplicationSettings) returns (r: Outcome<()>, ghost tmp: string)
      requires Valid()
      modifies fs
      ensures Valid() && fs.calls >= old(fs.calls)
      ensures |fs.history| >= |old(fs.history)| && fs.history[..|old(fs.history)|] == old(fs.history)
      ensures tmp !in old(fs.files) && AllIntact(fs.history, |old(fs.history)|, old(fs.files), tmp, path, FileText(s))
      ensures KeepsKeyOut(|old(fs.history)|, old(fs.files))
      ensures if r.Returned? then fs.files == old(fs.files)[path := FileText(s)] else Undone(fs, old(fs.files), tmp)
      ensures r.Raised? <==> SomeFailed(fs, old(fs.calls))
      ensures r.Returned? ==> fs.last == Moving && fs.previous == Syncing
    {
      SavedIsUsable(json, s);
      var payload := Payload(s);
      var made := fs.MakeTemp(path);
      if made.None? {
        ghost var n := Longer(fs.files.Keys);
        tmp := seq(n, _ => 'x');
        return Raised, tmp;
      }
      tmp := made.value;
      PutKeepsFillingFirst(fs.files, old(fs.files), tmp);
      FillingIsIntact(fs.files, old(fs.files), tmp, path, FileText(s));
      var ok := FillAndReplace(fs, made.value, path, json.pieces(payload), true, old(fs.files), |old(fs.history)|);
      r := if ok then Returned(()) else Raised;
    }

    /** The key is what the store holds, or "" if it holds none or is out of reach. */
    method PopulateKey(s: ApplicationSettings) returns (r: ApplicationSettings)
      modifies store`calls
      ensures store.calls == old(store.calls) + 1 && r == s.(apiKey := r.apiKey)
      ensures r.apiKey == (if store.reachable(old(store.calls)) && store.key.Some? then store.key.value else "")
    {
      var found := store.Get();
      r := s.(apiKey := if found.Found? then found.key else "");
    }

    /** What reading the file comes to when the next file operation is to fail, and when not. */
    function ReadingNow(): Reading
      reads this, fs
    {
      if path !in fs.files then Missing
      else if fs.fails(fs.calls) then Unusable
      else Interpret(json.parse(fs.files[path]))
    }

    method Read() returns (reading: Reading)
      requires Valid()
      modifies fs`calls, fs`last, fs`previous
      ensures Valid() && reading == old(ReadingNow())
      ensures fs.calls == old(fs.calls) + (if path in fs.files then 1 else 0)
    {
      if path !in fs.files {
        return Missing;
      }
      var failed := fs.Fails(Opening);
      reading := if failed then Unusable else Interpret(json.parse(fs.files[path]));
    }

    /** Nothing on disk has changed since. */
    twostate predicate DiskUntouched()
      reads this, fs
    {
      fs.files == old(fs.files) && fs.history == old(fs.history)
    }

    /** The file has been replaced by one for `s`, or an exception has left the old one. */
    twostate predicate Rewritten(s: ApplicationSettings, returned: bool, tmp: string)
      reads this, fs
    {
      && tmp !in old(fs.files) && |fs.history| >= |old(fs.history)|
      && AllIntact(fs.history, |old(fs.history)|, old(fs.files), tmp, path, FileText(s))
      && if returned then fs.files == old(fs.files)[path := FileText(s)] else Undone(fs, old(fs.files), tmp)
    }

    /** A legacy key is there and call number `call` to the store reaches it. */
    predicate Moves(reading: Reading, call: nat)
    {
      LegacyKey(reading, strip).Some? && store.reachable(call)
    }

    /** The settings returned come from the file or are the defaults, their key from the store. A
        missing or unusable file is replaced by the defaults. A usable one is replaced exactly if a
        legacy key in it has been put into the store, and then by one without the key. An exception
        means that a file operation after the reading failed, or that the file is no object. */
    method Load() returns (r: Outcome<ApplicationSettings>, ghost reading: Reading, ghost tmp: string)
      requires Valid()
      modifies fs, store
      ensures Valid() && reading == old(ReadingNow()) && KeepsKeyOut(|old(fs.history)|, old(fs.files))
      ensures r.Returned? ==> reading != NoObject && r.value == SettingsIn(reading).(apiKey := r.value.apiKey)
      ensures var call := old(store.calls) + (if LegacyKey(reading, strip).Some? then 1 else 0);
              r.Returned? ==>
                r.value.apiKey == (if store.reachable(call) && store.key.Some? then store.key.value else "")
      ensures r.Raised? ==> reading == NoObject || SomeFailed(fs, old(fs.calls) + (if reading == Missing then 0 else 1))
      ensures store.key ==
              if old(Moves(reading, store.calls)) then Some(strip(LegacyKey(reading, strip).value)) else old(store.key)
      ensures if old(Moves(reading, store.calls)) || reading in {Missing, Unusable}
              then Rewritten(SettingsIn(reading), r.Returned?, tmp)
              else DiskUntouched() && (r.Raised? <==> reading == NoObject)
      ensures KeyFate(r.Returned?)
    {
      tmp := "";
      var found := Read();
      reading := found;
      match found {
        case NoObject =>
          r := Raised;
        case Usable(_, _) =>
          r, tmp := UseFile(found);
        case _ =>
          r, tmp := ResetToDefaults();
      }
    }

    /** The rest of `load` for a usable file: a legacy key is moved, and the key comes from the store. */
    method UseFile(reading: Reading) returns (r: Outcome<ApplicationSettings>, ghost tmp: string)
      requires Valid() && reading.Usable?
      modifies fs, store
      ensures Valid() && KeepsKeyOut(|old(fs.history)|, old(fs.files))
      ensures r.Returned? ==> r.value == reading.settings.(apiKey := r.value.apiKey)
      ensures var call := old(store.calls) + (if LegacyKey(reading, strip).Some? then 1 else 0);
              r.Returned? ==>
                r.value.apiKey == (if store.reachable(call) && store.key.Some? then store.key.value else "")
      ensures r.Raised? ==> SomeFailed(fs, old(fs.calls))
      ensures store.key ==
              if old(Moves(reading, store.calls)) then Some(strip(LegacyKey(reading, strip).value)) else old(store.key)
      ensures if old(Moves(reading, store.calls)) then Rewritten(reading.settings, r.Returned?, tmp)
              else DiskUntouched() && r.Returned?
    {
      var saved;
      saved, tmp := MoveLegacyKey(reading);
      if saved.Raised? {
        return Raised, tmp;
      }
      var full := PopulateKey(reading.settings);
      r := Returned(full);
    }

    /** The defaults, with the key of the store, replace a file that is missing or of no use. */
    method ResetToDefaults() returns (r: Outcome<ApplicationSettings>, ghost tmp: string)
      requires Valid()
      modifies fs, store`calls
      ensures Valid() && KeepsKeyOut(|old(fs.history)|, old(fs.files))
      ensures r.Returned? ==> r.value == DEFAULTS.(apiKey := r.value.apiKey)
      ensures r.Returned? ==>
                r.value.apiKey == (if store.reachable(old(store.calls)) && store.key.Some? then store.key.value else "")
      ensures r.Raised? ==> SomeFailed(fs, old(fs.calls))
      ensures Rewritten(DEFAULTS, r.Returned?, tmp)
    {
      var full := PopulateKey(DEFAULTS);
      SameText(full, DEFAULTS);
      var saved;
      saved, tmp := Save(full);
      r := if saved.Raised? then Raised else Returned(full);
    }

    lemma SameText(s: ApplicationSettings, t: ApplicationSettings)
      requires s.theme == t.theme && s.directory == t.directory
      ensures FileText(s) == FileText(t)
    {
      assert Payload(s) == Payload(t);
    }

    /** The file is rewritten exactly if the store took a legacy key. */
    method MoveLegacyKey(reading: Reading) returns (saved: Outcome<()>, ghost tmp: string)
      requires Valid() && reading.Usable?
      modifies fs, store
      ensures Valid() && KeepsKeyOut(|old(fs.history)|, old(fs.files))
      ensures store.calls == old(store.calls) + (if LegacyKey(reading, strip).Some? then 1 else 0)
      ensures store.key ==
              if old(Moves(reading, store.calls)) then Some(strip(LegacyKey(reading, strip).value)) else old(store.key)
      ensures if old(Moves(reading, store.calls)) then Rewritten(reading.settings, saved.Returned?, tmp)
              else DiskUntouched() && saved.Returned?
      ensures saved.Raised? ==> SomeFailed(fs, old(fs.calls))
    {
      saved, tmp := Returned(()), "";
      var legacy := LegacyKey(reading, strip);
      if legacy.Some? {
        var moved := store.Set(strip(legacy.value));
        if moved {
          saved, tmp := Save(reading.settings);
        }
      }
    }

    // ---------------------------------------------------------------- what becomes of a plain-text key

    /** The key is in the file or in the store. */
    ghost predicate KeyKept(key: string)
      reads this, fs, store
    {
      (path in fs.files && KeyIn(json.parse(fs.files[path]), strip) == Some(key)) || store.key == Some(strip(key))
    }

    /** What `load` does to a key that the file holds in plain text and the store does not hold: when
        it returns, the key is kept if and only if the file could be read and has no unknown field;
        when it raises, the key is kept. */
    twostate predicate KeyFate(returned: bool)
      reads this, fs, store
    {
      path in old(fs.files) ==>
        var parsed := json.parse(old(fs.files)[path]);
        var key := KeyIn(parsed, strip);
        key.Some? && old(store.key) != Some(strip(key.value)) ==>
          if returned then KeyKept(key.value) <==> !fs.fails(old(fs.calls)) && parsed.json.fields.Keys <= KNOWN
          else KeyKept(key.value)
    }

    /** Loading a file that was saved from `s`: if it can be read, the same theme and directory come back
        and nothing on disk changes. */
    method LoadSaved(s: ApplicationSettings) returns (loaded: Outcome<ApplicationSettings>)
      requires Valid() && path in fs.files && fs.files[path] == FileText(s)
      modifies fs, store
      ensures Valid()
      ensures !old(fs.fails(fs.calls)) ==>
                && loaded.Returned? && loaded.value == s.(apiKey := loaded.value.apiKey)
                && loaded.value.apiKey
                   == (if store.reachable(old(store.calls)) && old(store.key).Some? then old(store.key).value else "")
                && store.key == old(store.key) && DiskUntouched()
    {
      SavedIsUsable(json, s);
      ghost var reading, tmp;
      loaded, reading, tmp := Load();
    }

    /** Saving and loading, with no file operation failing: both return, the same theme and directory come
        back, and the file is the saved one. */
    method SaveThenLoad(s: ApplicationSettings) returns (saved: Outcome<()>, loaded: Outcome<ApplicationSettings>)
      requires Valid()
      modifies fs, store
      ensures (forall k: nat :: k >= old(fs.calls) ==> !fs.fails(k)) ==>
                && saved.Returned? && loaded.Returned? && loaded.value == s.(apiKey := loaded.value.apiKey)
                && fs.files == old(fs.files)[path := FileText(s)] && store.key == old(store.key)
                && loaded.value.apiKey
                   == (if store.reachable(old(store.calls)) && old(store.key).Some? then old(store.key).value else "")
    {
      ghost var tmp;
      saved, tmp := Save(s);
      if saved.Raised? {
        return saved, Raised;
      }
      loaded := LoadSaved(s);
    }
  }

  /** The settings that a file gives, or the defaults. */
  function SettingsIn(reading: Reading): ApplicationSettings
  {
    if reading.Usable? then reading.settings else DEFAULTS
  }

  /** The saved text reads back as the saved settings, without an API key. */
  lemma SavedIsUsable(json: Codec, s: ApplicationSettings)
    requires json.Faithful()
    ensures var parsed := json.parse(json.Dump(Payload(s)));
      Keyless(parsed) && Interpret(parsed) == Usable(s.(apiKey := ""), None)
      && parsed.json.fields == map[DIRECTORY := s.directory, THEME := s.theme]
  {
    assert Payload(s).Keys == {DIRECTORY, THEME};
    assert KEY_NAME !in Payload(s);
  }

  /** Which documents are of use: objects with known fields only, whose settings are the defaults with the
      fields of the file put in their place. Other objects, arrays and texts that are no JSON are of no use. */
  lemma FieldsOverrideDefaults(parsed: Parsed)
    ensures Interpret(parsed).Usable? <==>
            parsed.Document? && parsed.json.Object? && parsed.json.fields.Keys <= {KEY_NAME, DIRECTORY, THEME}
    ensures Interpret(parsed).Usable? ==>
            Payload(Interpret(parsed).settings) == Payload(DEFAULTS) + (parsed.json.fields - {KEY_NAME})
    ensures Interpret(parsed).NoObject? <==> parsed.Document? && !parsed.json.Object? && !parsed.json.Array?
    ensures Interpret(parsed) != Missing
  {
  }

  /** The text written is the same for every API key. */
  lemma KeyNeverSaved(json: Codec, s: ApplicationSettings, key: string, other: string)
    ensures json.Dump(Payload(s.(apiKey := key))) == json.Dump(Payload(s.(apiKey := other)))
  {
    assert Payload(s.(apiKey := key)) == Payload(s.(apiKey := other));
  }

  // ------------------------------------------------------------------ a run in which a key is moved

  /** Nothing fails and the store is in reach: a key that is not blank goes from a file with known fields
      into the store, is returned, and is in the file no more. */
  method LegacyKeyIsMoved(json: Codec, path: string, strip: string -> string, fields: map<string, Json>, key: string,
                          stored: Option<string>)
    returns (r: Outcome<ApplicationSettings>, fs: FileSystem, store: SecretStore)
    requires json.Faithful() && fields.Keys <= {KEY_NAME, DIRECTORY, THEME}
    requires KEY_NAME in fields && fields[KEY_NAME] == Text(key) && strip(key) != ""
    ensures r.Returned? && r.value.apiKey == strip(key) && store.key == Some(strip(key))
    ensures fs.files.Keys == {path} && json.parse(fs.files[path]) == Document(Object(Payload(r.value)))
    ensures Payload(r.value) == Payload(DEFAULTS) + (fields - {KEY_NAME})
  {
    fs := new FileSystem(k => false, map[path := json.Dump(fields)]);
    store := new SecretStore(k => true, stored);
    var repository := new SettingsRepository(fs, store, json, path, strip);
    FieldsOverrideDefaults(Document(Object(fields)));
    ghost var reading, tmp;
    r, reading, tmp := repository.Load();
    repository.SameText(r.value, reading.settings);
    SamePayload(r.value, reading.settings);
  }

  lemma SamePayload(s: ApplicationSettings, t: ApplicationSettings)
    requires s.theme == t.theme && s.directory == t.directory
    ensures Payload(s) == Payload(t)
  {
  }

  // ------------------------------------------------------------------ runs in which a key is lost

  /** Nothing fails and the store is empty and in reach, but the file has a field the program does not
      know: the settings are reset and the key is gone. */
  method UnknownFieldLosesKey(json: Codec, path: string, strip: string -> string, key: string, field: string)
    returns (r: Outcome<ApplicationSettings>, repository: SettingsRepository)
    requires json.Faithful() && strip(key) != "" && field !in KNOWN
    ensures r.Returned? && !repository.KeyKept(key)
  {
    var text := json.Dump(map[KEY_NAME := Text(key), field := Null]);
    var fs := new FileSystem(k => false, map[path := text]);
    var store := new SecretStore(k => true, None);
    repository := new SettingsRepository(fs, store, json, path, strip);
    ghost var reading, tmp;
    r, reading, tmp := repository.Load();
  }

  /** Only the reading fails: a file in good order is reset and the key is gone. */
  method ReadErrorLosesKey(json: Codec, path: string, strip: string -> string, key: string)
    returns (r: Outcome<ApplicationSettings>, repository: SettingsRepository)
    requires json.Faithful() && strip(key) != ""
    ensures r.Returned? && !repository.KeyKept(key)
  {
    var text := json.Dump(map[KEY_NAME := Text(key)]);
    var fs := new FileSystem(k => k == 0, map[path := text]);
    var store := new SecretStore(k => true, None);
    repository := new SettingsRepository(fs, store, json, path, strip);
    ghost var reading, tmp;
    r, reading, tmp := repository.Load();
  }

  /** Nothing fails, but the file is JSON that is neither an object nor an array: `load` raises. */
  method NoObjectRaises(json: Codec, path: string, strip: string -> string, text: string)
    returns (r: Outcome<ApplicationSettings>, fs: FileSystem)
    requires json.Faithful()
    requires json.parse(text).Document? && !json.parse(text).json.Object? && !json.parse(text).json.Array?
    ensures r == Raised && fs.files == map[path := text]
  {
    fs := new FileSystem(k => false, map[path := text]);
    var store := new SecretStore(k => true, None);
    var repository := new SettingsRepository(fs, store, json, path, strip);
    ghost var reading, tmp;
    r, reading, tmp := repository.Load();
  }
}
