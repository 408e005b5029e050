/** The settings record, its flattened on-disk form, and the two procedures
    that move it to and from `settings.json`. Colours are stored as packed
    ARGB integers because `Color` itself is not serialisable. The file
    system and the JSON encoder are modelled by what they can answer: whether
    the directory and the file exist, whether reading, writing and directory
    creation succeed, and which JSON document the file holds. */
module SettingsStore {
  import opened Primitives
  import opened Colors

  /** `Settings`: two colours, an opacity and a circle size, with no
      clamping or validation of any field. */
  datatype Settings = Settings(cursorColor: Color, clickColor: Color, opacity: Float32, circleSize: int32)

  /** `new Settings()`: yellow, red, `0.5f`, 30. */
  const DefaultSettings := Settings(Yellow, Red, Half, 30)

  /** `SettingsData`: the serialisable mirror of `Settings`. Its properties
      have no initialisers, so a field the JSON does not mention keeps the
      zero of its type. */
  datatype SettingsData = SettingsData(cursorColorArgb: int32, clickColorArgb: int32, opacity: Float32, circleSize: int32)

  /** The object initialiser in `Save`: each colour becomes its packed ARGB
      integer, which decodes back to the colour's channels; opacity and circle
      size are copied unchanged. */
  function Flatten(s: Settings): (d: SettingsData)
    ensures FromArgb(d.cursorColorArgb) == s.cursorColor.(name := Unnamed)
    ensures FromArgb(d.clickColorArgb) == s.clickColor.(name := Unnamed)
    ensures d.opacity == s.opacity && d.circleSize == s.circleSize
  {
    ColorRoundTrip(s.cursorColor);
    ColorRoundTrip(s.clickColor);
    SettingsData(ToArgb(s.cursorColor), ToArgb(s.clickColor), s.opacity, s.circleSize)
  }

  /** The object initialiser in `Load`: each stored integer becomes an
      unnamed colour that packs back to that integer; opacity and circle size
      are taken exactly as stored. */
  function Rebuild(d: SettingsData): (s: Settings)
    ensures s.cursorColor.name == Unnamed && ToArgb(s.cursorColor) == d.cursorColorArgb
    ensures s.clickColor.name == Unnamed && ToArgb(s.clickColor) == d.clickColorArgb
    ensures s.opacity == d.opacity && s.circleSize == d.circleSize
  {
    ArgbRoundTrip(d.cursorColorArgb);
    ArgbRoundTrip(d.clickColorArgb);
    Settings(FromArgb(d.cursorColorArgb), FromArgb(d.clickColorArgb), d.opacity, d.circleSize)
  }

  /** Equality of settings as the packed form sees it: colours compared by
      their ARGB values, names ignored. */
  predicate SameValues(s: Settings, t: Settings) {
    SameArgb(s.cursorColor, t.cursorColor) && SameArgb(s.clickColor, t.clickColor) &&
    s.opacity == t.opacity && s.circleSize == t.circleSize
  }

  /** Rebuilding a stored record and flattening it again gives the record
      back exactly. */
  lemma RecordRoundTrip(d: SettingsData)
    ensures Flatten(Rebuild(d)) == d
  {
  }

  /** Flattening settings and rebuilding them preserves every value; the
      result equals the original exactly when neither colour had a name. */
  lemma SettingsRoundTrip(s: Settings)
    ensures SameValues(Rebuild(Flatten(s)), s)
    ensures Rebuild(Flatten(s)) == s <==> s.cursorColor.name == Unnamed && s.clickColor.name == Unnamed
  {
  }

  /** The defaults flatten to yellow 0xFFFFFF00 and red 0xFFFF0000 (as signed
      integers), `0.5f` and 30. */
  lemma DefaultsFlattened()
    ensures Flatten(DefaultSettings) == SettingsData(-0x100, -0x1_0000, Half, 30)
  {
  }

  /** Rebuilt from their record, the defaults have the same values but are
      not equal to `new Settings()`, whose colours are the named
      `Color.Yellow` and `Color.Red`. */
  lemma DefaultsLoseColorNames()
    ensures SameValues(Rebuild(Flatten(DefaultSettings)), DefaultSettings)
    ensures Rebuild(Flatten(DefaultSettings)) != DefaultSettings
  {
  }

  // ---------------------------------------------------------------------
  // JSON documents

  /** What `JsonSerializer.Deserialize<SettingsData>` can meet in the file: an
      object with or without each of the four properties, the literal `null`,
      or text it refuses (bad syntax, a property of the wrong type). */
  datatype JsonDocument =
    | JsonObject(cursorColorArgb: Option<int32>, clickColorArgb: Option<int32>,
                 opacity: Option<Float32>, circleSize: Option<int32>)
    | JsonNull
    | Malformed

  function OrZero(v: Option<int32>): int32 {
    match v
    case Some(x) => x
    case None => 0
  }

  /** `Deserialize`, with its exception folded into `None`. An object always
      gives a record, each field holding the object's property when present
      and the zero of its type when absent; `null` gives a null reference,
      which `Load` then dereferences and fails on, so it is `None` here too. */
  function Deserialize(doc: JsonDocument): (r: Option<SettingsData>)
    ensures r.Some? <==> doc.JsonObject?
    ensures doc.JsonObject? ==> r.value.cursorColorArgb == (if doc.cursorColorArgb.Some? then doc.cursorColorArgb.value else 0)
    ensures doc.JsonObject? ==> r.value.clickColorArgb == (if doc.clickColorArgb.Some? then doc.clickColorArgb.value else 0)
    ensures doc.JsonObject? ==> r.value.opacity == (if doc.opacity.Some? then doc.opacity.value else PositiveZero)
    ensures doc.JsonObject? ==> r.value.circleSize == (if doc.circleSize.Some? then doc.circleSize.value else 0)
  {
    match doc
    case JsonObject(cursor, click, opacity, size) =>
      Some(SettingsData(OrZero(cursor), OrZero(click),
                        match opacity case Some(o) => o case None => PositiveZero,
                        OrZero(size)))
    case _ => None
  }

  /** `JsonSerializer.Serialize`: it writes every property, and it refuses
      (throws) when the opacity is NaN or infinite. What it writes reads back
      as the same record. */
  function Serialize(d: SettingsData): (doc: Option<JsonDocument>)
    ensures doc.Some? <==> IsFinite(d.opacity)
    ensures doc.Some? ==> Deserialize(doc.value) == Some(d)
  {
    if IsFinite(d.opacity) then
      Some(JsonObject(Some(d.cursorColorArgb), Some(d.clickColorArgb), Some(d.opacity), Some(d.circleSize)))
    else
      None
  }

  /** A document that leaves every property out reads as a record of zeros,
      not as the defaults of `Settings`. */
  lemma AbsentPropertiesReadAsZero()
    ensures Deserialize(JsonObject(None, None, None, None)) == Some(SettingsData(0, 0, PositiveZero, 0))
  {
  }

  // ---------------------------------------------------------------------
  // The file system as `Load` and `Save` see it

  /** The settings directory and file, and which of the operations on them
      would succeed. `file` is `None` when `settings.json` does not exist. */
  datatype Disk = Disk(directoryExists: bool, canCreateDirectory: bool,
                       canRead: bool, canWrite: bool, file: Option<JsonDocument>)

  /** A file can only exist inside an existing directory. */
  type FileSystem = d: Disk | d.directoryExists || d.file.None?
    witness Disk(false, false, false, false, None)

  /** The record `Load` recovers from the file: `None` when the file is
      missing, cannot be read, or does not deserialise to a record. */
  function StoredRecord(fs: FileSystem): (r: Option<SettingsData>)
    ensures r.Some? ==> fs.file.Some? && fs.canRead && Deserialize(fs.file.value) == r
    ensures fs.file.Some? && fs.canRead && fs.file.value.JsonObject? ==> r.Some?
  {
    if fs.file.Some? && fs.canRead then Deserialize(fs.file.value) else None
  }

  /** The settings `Load` returns: the rebuilt record when there is one,
      the defaults otherwise. */
  function Loaded(fs: FileSystem): (s: Settings)
    ensures StoredRecord(fs).None? ==> s == DefaultSettings
    ensures StoredRecord(fs).Some? ==> Flatten(s) == StoredRecord(fs).value
  {
    match StoredRecord(fs)
    case Some(d) => RecordRoundTrip(d); Rebuild(d)
    case None => DefaultSettings
  }

  /** The file system after `Load`: the directory is created when it was
      missing and creation succeeds; the file is never touched. */
  function AfterLoad(fs: FileSystem): (fs': FileSystem)
    ensures fs'.file == fs.file && fs'.canRead == fs.canRead && fs'.canWrite == fs.canWrite
    ensures fs'.directoryExists == (fs.directoryExists || fs.canCreateDirectory)
  {
    if !fs.directoryExists && fs.canCreateDirectory then fs.(directoryExists := true) else fs
  }

  /** `Settings.Load`. Every failure inside the `try` (directory creation,
      reading, deserialising, dereferencing a null record) lands in the empty
      `catch` and falls through to the defaults, as does a missing file. */
  method Load(fs: FileSystem) returns (s: Settings, fs': FileSystem)
    ensures s == Loaded(fs) && fs' == AfterLoad(fs)
  {
    fs' := fs;
    if !fs'.directoryExists {
      if !fs'.canCreateDirectory {
        // Directory.CreateDirectory throws
        return DefaultSettings, fs';
      }
      fs' := fs'.(directoryExists := true);
    }
    if fs'.file.Some? {
      if !fs'.canRead {
        // File.ReadAllText throws
        return DefaultSettings, fs';
      }
      var data := Deserialize(fs'.file.value);
      if data.None? {
        // JsonException, or a NullReferenceException on a null record
        return DefaultSettings, fs';
      }
      return Rebuild(data.value), fs';
    }
    s := DefaultSettings;
  }

  /** `Save` writes only when serialisation succeeds and the file can be
      written; it does not create the directory, so `WriteAllText` fails
      when the directory is missing. */
  predicate SaveWrites(s: Settings, fs: FileSystem) {
    fs.directoryExists && fs.canWrite && IsFinite(s.opacity)
  }

  /** The file system after `Save`: the flattened settings in the file when
      `SaveWrites`, everything as it was otherwise. */
  function AfterSave(s: Settings, fs: FileSystem): (fs': FileSystem)
    ensures SaveWrites(s, fs) ==> fs'.file == Serialize(Flatten(s)) && fs'.file.Some?
    ensures !SaveWrites(s, fs) ==> fs' == fs
    ensures fs'.directoryExists == fs.directoryExists && fs'.canRead == fs.canRead && fs'.canWrite == fs.canWrite
  {
    if SaveWrites(s, fs) then fs.(file := Serialize(Flatten(s))) else fs
  }

  /** `Settings.Save`. An exception from the serialiser or from the write is
      swallowed and leaves the file as it was. The settings are a value, so
      saving cannot change them. */
  method Save(s: Settings, fs: FileSystem) returns (fs': FileSystem)
    ensures fs' == AfterSave(s, fs)
  {
    fs' := fs;
    var data := Flatten(s);
    var json := Serialize(data);
    if json.None? {
      // JsonSerializer.Serialize throws on NaN and infinities
      return;
    }
    if !fs'.directoryExists || !fs'.canWrite {
      // File.WriteAllText throws
      return;
    }
    fs' := fs'.(file := json);
  }

  // ---------------------------------------------------------------------
  // Properties of loading and saving

  /** With no settings file, `Load` returns the defaults, whether or not the
      directory existed or could be created. */
  lemma MissingFileLoadsDefaults(fs: FileSystem)
    requires fs.file.None?
    ensures Loaded(fs) == DefaultSettings
    ensures Loaded(AfterLoad(fs)) == DefaultSettings
  {
  }

  /** An unreadable file, a `null` document and a malformed document all load
      as the defaults. */
  lemma FailedReadLoadsDefaults(fs: FileSystem)
    requires fs.file.Some?
    requires !fs.canRead || fs.file.value == JsonNull || fs.file.value == Malformed
    ensures Loaded(fs) == DefaultSettings
  {
  }

  /** Whatever `Load` returns is either the defaults or the stored record,
      with opacity and circle size exactly as stored: nothing is clamped. */
  lemma LoadedIsDefaultOrStored(fs: FileSystem)
    ensures Loaded(fs) == DefaultSettings || StoredRecord(fs).Some?
    ensures StoredRecord(fs).Some? ==>
      Loaded(fs).opacity == StoredRecord(fs).value.opacity &&
      Loaded(fs).circleSize == StoredRecord(fs).value.circleSize
  {
  }

  /** A settings file whose object mentions none of the properties loads as
      transparent black for both colours, opacity 0 and circle size 0: the
      defaults of `Settings` are not used. */
  lemma EmptyObjectLoadsZeros(fs: FileSystem)
    requires fs.canRead && fs.file == Some(JsonObject(None, None, None, None))
    ensures Loaded(fs) == Settings(FromArgb(0), FromArgb(0), PositiveZero, 0)
    ensures Loaded(fs) != DefaultSettings
  {
  }

  /** Saving settings with a finite opacity into a writable, existing
      directory and loading them back gives the same values (colours compared
      by ARGB). */
  lemma SaveThenLoad(s: Settings, fs: FileSystem)
    requires SaveWrites(s, fs) && fs.canRead
    ensures StoredRecord(AfterSave(s, fs)) == Some(Flatten(s))
    ensures SameValues(Loaded(AfterSave(s, fs)), s)
  {
  }

  /** Saving what was just loaded from a readable record rewrites the same
      record (when the write succeeds): load and save agree on the format. */
  lemma LoadThenSaveKeepsRecord(fs: FileSystem)
    requires StoredRecord(fs).Some?
    requires SaveWrites(Loaded(fs), AfterLoad(fs))
    ensures StoredRecord(AfterSave(Loaded(fs), AfterLoad(fs))) == StoredRecord(fs)
  {
  }
}
