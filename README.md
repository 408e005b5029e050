# Mouse Highlighter: overlay state machine and settings store

This project models the two parts of Mouse Highlighter that carry logic in Dafny:

- **The click-through overlay** (`HighlighterForm`). It is a borderless form. Every timer tick it reads the cursor position and the left-button key state. It stores them and requests a repaint only when one of them changed. It paints a 30 x 30 ellipse around the stored position, in the click colour while the button is down and in the highlight colour otherwise. Its constructor ORs the layered and transparent bits into the window's extended style, so input passes through the window. The settings dialog's change event replaces its two colours and its opacity and requests a repaint.
- **The settings store** (`Settings`). Defaults are yellow, red, opacity `0.5f` and circle size 30. `Save` flattens the settings into a `SettingsData` record, with each colour as its packed `0xAARRGGBB` integer, and writes it as JSON. `Load` rebuilds settings from such a record. On any failure, or when there is no file, it returns the defaults.

Files:

- `primitives.dfy` (module `Primitives`): C# `short`, `int` and `byte`; unchecked 32-bit wrap-around; `float` carried by its bit pattern; `Option`.
- `colors.dfy` (module `Colors`): `Color` as four channels plus an optional known name; `ToArgb` and `FromArgb`; the packing round-trips.
- `highlighter_form.dfy` (module `Overlay`): the key-state bit test, the extended-style OR, the paint rectangle, the tick as a transition on values with lemmas over runs of ticks, and the class `HighlighterForm`.
- `settings.dfy` (module `SettingsStore`): `Settings`, `SettingsData`, the mappings between them, an abstract JSON document, the file system as `Load` and `Save` see it, the two procedures and their properties.

How the system's inputs become model inputs:

- The operating system's answers are parameters: `Cursor.Position`, `GetAsyncKeyState` (as its 16-bit word) and `GetWindowLong` (as a `bv32`).
- `Invalidate` increments a repaint counter.
- The file system is a value that `Load` and `Save` take and return. It records whether the directory exists, whether directory creation, reading and writing succeed, and which JSON document `settings.json` holds (or that it is missing).
- The JSON text is abstracted to a document that is an object with or without each of the four properties, the literal `null`, or text the deserialiser rejects.

The code has none of the following, and neither does the model:

- There is no ring thickness and no legacy-field migration.
- Loaded values are not clamped or validated.
- `Save` writes the file directly; there is no temporary file.
- Properties missing from the JSON come back as zeros, not as the defaults.
- The overlay does not recompute display bounds.

## Model

| member | source | states |
|---|---|---|
| `Overlay.IsButtonDown` | HighlighterForm.cs:61 | the `& 0x8000` test on the widened key state holds exactly when bit 15 is set, that is, exactly when the `short` is negative |
| `Overlay.Widen` | HighlighterForm.cs:61 | widening the `short` keeps its 16 bits and fills the upper half with copies of the sign |
| `Overlay.HighlighterForm.Tick` | HighlighterForm.cs:58-69 | after a tick the stored position and clicking flag equal the sample; exactly one repaint is requested when either differed from the stored state, none otherwise; the appearance fields and the style stay unchanged |
| `Overlay.Step` | HighlighterForm.cs:60-68 | the tick on values: the new state holds the sample, and the repaint count grows by one exactly when the sample differed |
| `Overlay.UnchangedSampleIsIgnored` | HighlighterForm.cs:63-68 | a sample equal to the stored position and button state leaves the whole state unchanged, repaint count included |
| `Overlay.RepeatedSampleIsIgnored` | HighlighterForm.cs:60-68 | a second tick with the same sample changes nothing and requests no repaint |
| `Overlay.RunRepaintsOncePerChange` | HighlighterForm.cs:58-69 | over any run of ticks, the repaint count grows by the number of samples that differ from their predecessor, and the final state is the last sample |
| `Overlay.RunAppend` | HighlighterForm.cs:58-69 | a run of ticks followed by one more tick is the tick applied to the run's result |
| `Overlay.EllipseBounds` | HighlighterForm.cs:79-84 | the ellipse box is a `circleSize` square (30, line 11); its corner plus half a side is the cursor position in 32-bit arithmetic, and exactly so, negative coordinates included, whenever the subtraction does not wrap |
| `Overlay.HighlighterForm.Paint` | HighlighterForm.cs:71-86 | the brush takes its channels from the click colour when clicking and from the highlight colour otherwise, and its alpha from the opacity; the box is the ellipse box around the stored position |
| `Overlay.WithClickThrough` | HighlighterForm.cs:31-32 | the style passed to `SetWindowLong` has the layered bit `0x80000` and the transparent bit `0x20` set and keeps every bit of the initial style |
| `Overlay.ClickThroughAddsOnlyItsBits` | HighlighterForm.cs:32 | the OR adds no bit other than `0x80000` and `0x20` |
| `Overlay.CreateParamsExStyle` | HighlighterForm.cs:94-103 | the two compound ORs in `CreateParams` give the same word as the constructor's single OR |
| `Overlay.ClickThroughIdempotent` | HighlighterForm.cs:31-32 | applying the OR again, also to a style produced by `CreateParams`, leaves the style unchanged |
| `Overlay.HighlighterForm.constructor` | HighlighterForm.cs:11-41 | a new form stores the cursor position, is not clicking, has requested no repaint, starts yellow, red and `0.5f`, and its extended style is the initial style with both click-through bits |
| `Overlay.HighlighterForm.OnSettingsChanged` | HighlighterForm.cs:107-113 | the handler sets the three appearance fields to the event's values, requests one repaint, and leaves position, clicking flag and style unchanged |
| `Colors.ToArgb` | Settings.cs:57-58 | the packed integer is negative exactly when alpha is at least 128, and equals the word `0xAARRGGBB` modulo 2^32 |
| `Colors.FromArgb` | Settings.cs:36-37 | unpacking gives an unnamed colour whose word `0xAARRGGBB` is the integer's two's-complement word |
| `Colors.PackedWord` | Settings.cs:57-58 | each channel of the colour is one base-256 digit of the 32-bit packed word |
| `Colors.ArgbRoundTrip` | Settings.cs:36-37 | unpacking a stored integer and packing it again gives the same integer |
| `Colors.ColorRoundTrip` | Settings.cs:57-58 | packing a colour and unpacking it gives the same channels without the name |
| `Colors.SameArgbIffSameChannels` | Settings.cs:57-58 | two colours pack to the same integer exactly when all four channels agree |
| `Colors.DefaultColorValues` | Settings.cs:10-11 | yellow packs to `0xFFFFFF00` and red to `0xFFFF0000`, read as signed integers |
| `SettingsStore.Flatten` | Settings.cs:55-61 | each stored integer decodes to the colour's channels; opacity and circle size are copied unchanged |
| `SettingsStore.Rebuild` | Settings.cs:34-40 | each rebuilt colour is unnamed and packs back to the stored integer; opacity and circle size are taken as stored |
| `SettingsStore.RecordRoundTrip` | Settings.cs:34-40 | rebuilding a record and flattening it again gives the same record |
| `SettingsStore.SettingsRoundTrip` | Settings.cs:55-61 | flattening and rebuilding keeps every value, with colours compared by ARGB; the result is equal to the original exactly when neither colour had a name |
| `SettingsStore.DefaultsFlattened` | Settings.cs:10-13 | the defaults flatten to yellow, red, `0.5f` and 30 |
| `SettingsStore.DefaultsLoseColorNames` | Settings.cs:10-11 | the rebuilt defaults have the same values as `new Settings()` but are not equal to it, because `Color.Yellow` and `Color.Red` carry names |
| `SettingsStore.Deserialize` | Settings.cs:33 | the deserialiser yields a record exactly for a JSON object, `null` and rejected text yield none; each field of the record is the object's property when present and zero when absent (`SettingsData` has no initialisers, Settings.cs:75-78) |
| `SettingsStore.AbsentPropertiesReadAsZero` | Settings.cs:73-79 | an object without properties deserialises to a record of zeros |
| `SettingsStore.Serialize` | Settings.cs:63 | serialisation succeeds exactly when the opacity is finite, and what it writes deserialises to the same record |
| `SettingsStore.StoredRecord` | Settings.cs:30-33 | a record is recovered only from an existing, readable file holding a JSON object, and always from such a file |
| `SettingsStore.Loaded` | Settings.cs:20-49 | `Load` returns the defaults when no record is recovered; otherwise the returned settings flatten back to the recovered record |
| `SettingsStore.AfterLoad` | Settings.cs:24-28 | `Load` creates the directory when it is missing and creation succeeds, and never touches the file |
| `SettingsStore.Load` | Settings.cs:20-49 | the procedure, with every failure path falling through to the defaults, returns exactly `Loaded` and leaves the file system as `AfterLoad` says |
| `SettingsStore.AfterSave` | Settings.cs:51-70 | `Save` puts the serialised flattened settings in the file when the directory exists, writing succeeds and the opacity is finite; otherwise nothing changes |
| `SettingsStore.Save` | Settings.cs:51-70 | the procedure, with every failure swallowed, leaves the file system exactly as `AfterSave` says |
| `SettingsStore.MissingFileLoadsDefaults` | Settings.cs:30 | with no settings file, `Load` returns the defaults, whether or not the directory existed or could be created |
| `SettingsStore.FailedReadLoadsDefaults` | Settings.cs:43-48 | an unreadable file, a `null` document and a rejected document all load as the defaults |
| `SettingsStore.LoadedIsDefaultOrStored` | Settings.cs:38-39 | `Load` returns the defaults or the stored record, with opacity and circle size exactly as stored |
| `SettingsStore.EmptyObjectLoadsZeros` | Settings.cs:75-78 | a settings object without properties loads as transparent black, opacity 0 and size 0, not as the defaults |
| `SettingsStore.SaveThenLoad` | Settings.cs:55-64 | saving into a writable existing directory and loading back recovers the flattened record and the same values |
| `SettingsStore.LoadThenSaveKeepsRecord` | Settings.cs:34-40 | saving what was just loaded rewrites the same record |

## Left out

- Tray icon, context menu, `Application.Exit`, and the form properties (border, taskbar, topmost, transparency key, maximised): these are thin operating-system wrappers with no state to model.
- The timer (16 ms interval): each timer tick is one call of `Tick`, or one `Step`.
- The `(int)(255 * opacity)` alpha and anti-aliased rendering: floating-point arithmetic and drawing. A `Brush` records the opacity and the colour the alpha and channels come from.
- The `SettingsChanged` event subscription and the modal dialog: only the handler's effect is modelled.
- Settings path construction (`%APPDATA%\MouseHighlighter\settings.json`) and the JSON text format (indentation, property names, number syntax): these are library calls. The file holds an abstract document.
- `Save` failing part-way through `WriteAllText`: the model treats a failed write as leaving the file as it was; a truncated file is not modelled.
- Extended-style write failure: `SetWindowLong` is taken to store the word it is given.
- `HighlighterForm` never reads or writes `Settings`; the model keeps the two parts separate as the code does.
