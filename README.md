# Activity metrics store: a Dafny model

This project models the core of a small desktop activity tracker. Several
*watchers* observe the X11 input devices and count events into one shared
*data store*. The store persists one row per interval into an SQLite table
named `metrics`. The model covers these parts:

- **Default merging.** The store merges the watchers' `METRIC_KEYS`
  declarations into one ordered table of metric defaults. An old-style set
  of names gives every name the default `0`. If two watchers declare the
  same name, the later watcher's default wins.
- **Schema check at start-up.** The merged defaults fix the table layout the
  store expects. The store compares that layout with the table on disk. On
  a mismatch it asks the operator. If the operator agrees, it backs the
  file up, removes it and creates a fresh table. If not, it exits with
  status 1.
- **Store operations.** The store resets its metrics to the defaults and
  hands out snapshots. It builds the row that `save_to_db` inserts.
- **Mouse watcher.** Button presses become click and scroll counters.
  Pointer motion accumulates in the watcher and is flushed into the store.
- **Keyboard watcher.** The keycode table names the keys. Each key press
  increments `keyboard.key.<name>`, or `keyboard.other` for an unnamed
  keycode.

Python values are a datatype (`Values.Value`). `bool` is a kind of `int` in
Python, so a boolean default is typed `INTEGER` (and never `BOOLEAN`).
Dicts keep insertion order (`Dicts.Dict`). The SQLite files are abstract
state: a map from path to a file that may or may not hold the `metrics`
table (`Storage.Files`). The operator's answer, the clock reading and the
`json.dumps` encoder are parameters.

Some behaviour of the code that is easy to miss, and that the model keeps:

- **When to ask.** The store asks for confirmation on any mismatch. That
  includes a missing file or table, where the layout read back is empty
  (`Schema.SchemaPlan`, `Schema.DeclinedMigrationAborts`). Reading the
  layout opens the database, and opening creates an empty file when there
  is none. So on a first start the store always asks, and a confirmed
  migration backs up that empty file (`Schema.FirstStartBacksUpEmptyFile`).
- **Store contents.** The store holds only `metrics`. It has no other
  containers, and the snapshot copies only `metrics`.
- **Unsupported defaults.** An unsupported default raises `TypeError` in
  the schema check, not when the defaults are merged.
- **Timestamps.** The row's timestamp is whatever string the caller passes.

## Model

| member | source | states |
|---|---|---|
| Registry.MergeDefaults | watchers/__init__.py:24-31 | The constructor's loop leaves `metric_defaults` equal to the fold of `dict.update` over the watchers, in order (`Registry.Merged`). |
| Registry.Merged | watchers/__init__.py:24-31 | The merged defaults form a valid ordered dict. |
| Registry.MergedKeys | watchers/__init__.py:24-31 | The merged names are exactly the union of the names every watcher declares. |
| Registry.LaterWatcherWins | watchers/__init__.py:24-31 | A name gets the default of the last watcher that declares it. A set-style declaration gives 0. |
| Registry.MergedCounters | watchers/__init__.py:26-28 | Names whose every declaration has an integer default have an integer default after merging. |
| Registry.MergedOrderStable | watchers/__init__.py:24-31 | Merging more watchers never moves a name already merged: the earlier order is a prefix of the later one. |
| Registry.MergedOrder | watchers/__init__.py:24-31 | The merged names are the new names of all entries, watcher after watcher. Each has an entry, and any two are ordered as their first declarations are. |
| Registry.Upgraded | watchers/__init__.py:26-31 | A set declaration becomes one entry `(name, 0)` per name, in iteration order. A dict declaration gives its own entries. The properties are in `Registry.UpgradedLookup`. |
| Registry.UpgradedLookup | watchers/__init__.py:26-28 | The upgrade of a set declaration has the declared names as keys, each ending on its declared default (0). |
| Dicts.Put | watchers/__init__.py:73 | Assigning a key keeps the dict valid and updates the mapping. An existing key keeps its place and a new key is appended. |
| Dicts.Update | watchers/__init__.py:29-31 | `dict.update` keeps the dict valid. Its keys are the old keys, in place, followed by the new keys. |
| Dicts.NewKeysOrder | watchers/__init__.py:29-31 | The keys an update adds were not present before and each has an entry. They are listed in the order of their first entries. |
| Dicts.NewKeysAppend | watchers/__init__.py:24-31 | Two updates in a row add the first run's new keys, then the second run's keys that are still new. |
| Dicts.UpdateLookup | watchers/__init__.py:29-31 | After `dict.update`, a key is present iff it was before or some entry has it. The last entry for a key wins, and other keys keep their values. |
| Dicts.LastValueFound | watchers/__init__.py:29-31 | A list of entries has a last value for a key exactly when some entry carries the key. |
| Values.PythonToSqlType | watchers/__init__.py:36-47 | int, bool and float get INTEGER. str, list, dict and set get TEXT. BOOLEAN is never chosen. Anything else is `UnsupportedMetricType`. All iff. |
| Values.SerializeValue | watchers/__init__.py:49-56 | Scalars pass unchanged. Encodable lists and dicts become their JSON text. A set, a tuple, `None`, a non-encodable container or another type is an error. The result is always a scalar. |
| Values.JsonEncodable | watchers/__init__.py:51-52 | `json.dumps` accepts a list or tuple whose items it accepts, and a dict with `str`, number, bool or `None` keys whose values it accepts. A set or an object of an unknown class is refused. Its effect is stated in `Values.SerializeValue`. |
| Values.NestedTupleIsStored | watchers/__init__.py:36-52 | A tuple default is unsupported and a bare tuple cannot be serialized. A tuple inside a list is still encoded. |
| Store.SetDefaultCannotBeSaved | watchers/__init__.py:44-45 | A set default is typed TEXT, yet serializing it fails, since `json.dumps` refuses sets. |
| Storage.Upper | watchers/__init__.py:64 | The upper-cased type name has the original length. |
| Storage.ColumnTypesKeys | watchers/__init__.py:64 | The introspected layout names exactly the table's columns. |
| Storage.ColumnTypesLookup | watchers/__init__.py:64 | Without repeated names, each column's introspected type is its declared type upper-cased. |
| Storage.Connect | watchers/__init__.py:61 | Opening a database creates an empty file when there is none. It leaves every other file, and what introspection reads, as it was. |
| Storage.ColumnTypes | watchers/__init__.py:62-64 | Column name to upper-cased declared type, a later column overriding an earlier one. Its properties are in `Storage.ColumnTypesKeys` and `Storage.ColumnTypesLookup`. |
| Storage.TableColumns | watchers/__init__.py:59-67 | The layout of the `metrics` table, or the empty mapping when the file or the table is missing. |
| Storage.Insert | watchers/__init__.py:130-131 | The insert succeeds iff the file holds the table and the row fits its columns. The row is then appended and nothing else changes. |
| Schema.FixedLayout | watchers/__init__.py:71 | The two fixed columns form a valid ordered dict. |
| Schema.ExpectedUpTo | watchers/__init__.py:71-73 | Each partial `expected_cols` is a valid dict that starts with the fixed columns. |
| Schema.ExpectedUpToStep | watchers/__init__.py:72-73 | A successful partial layout is the previous one with the next default's column put in, typed by the mapping. |
| Schema.PutNextKey | watchers/__init__.py:73 | Putting a new, non-fixed column appends its name to the column order. |
| Schema.PutKeepsFixed | watchers/__init__.py:73 | Putting a non-fixed column keeps `timestamp:TEXT` and `interval_seconds:INTEGER`. |
| Schema.ExpectedLayoutAsWritten | watchers/__init__.py:71-73 | The expected layout exactly as the loop computes it. A default named like a fixed column overwrites that column's entry. |
| Schema.ExpectedLayout | watchers/__init__.py:71-73 | The corrected layout: a metric named `timestamp` or `interval_seconds` is refused with `ReservedColumn`, otherwise it is the as-written layout. Its properties are in `Schema.ExpectedLayoutOk` and `Schema.ExpectedLayoutShape`. |
| Schema.ExpectedUpToErrorStays | watchers/__init__.py:72-73 | Once a default raises, the loop's outcome is that error. |
| Schema.ExpectedUpToSucceeds | watchers/__init__.py:72-73 | Typing the defaults succeeds iff every default has a supported type. |
| Schema.ExpectedUpToKeys | watchers/__init__.py:71-73 | Without reserved names, the layout is the fixed columns followed by the defaults in merged order. |
| Schema.ExpectedUpToFixed | watchers/__init__.py:71-73 | Without reserved names, the fixed columns keep TEXT and INTEGER. |
| Schema.ExpectedUpToTypes | watchers/__init__.py:72-73 | Each default's column carries the type the mapping gives its default. |
| Schema.ExpectedLayoutOk | watchers/__init__.py:71-73 | The expected layout exists iff no default is named like a fixed column and every default has a supported type. |
| Schema.ExpectedLayoutShape | watchers/__init__.py:71-73 | When the expected layout exists, it is `timestamp:TEXT`, `interval_seconds:INTEGER` and one column per default, in merged order, typed by the mapping. |
| Schema.TypeNames | watchers/__init__.py:73-77 | The compared layout has the expected names, each with its type's name. |
| Schema.TableDefinition | watchers/__init__.py:100-105 | The CREATE statement's columns: the fixed columns, then every expected column after the first two, NOT NULL. Its properties are in `Schema.TableDefinitionShape`. |
| Schema.BackupName | watchers/__init__.py:90 | `<path>.bak.<stamp>` of the clock reading; injective in the reading (`Timestamps.StampInjective`). |
| Schema.SchemaPlan | watchers/__init__.py:69-106 | The decision of the check: raise on an invalid layout, return on a match, exit with status 1 unless confirmed, else migrate. Its properties are in the lemmas that follow. |
| Schema.MigrationSteps | watchers/__init__.py:88-106 | Copy and remove the file when it exists, then create the table. Its properties are in `Schema.MigrationStepOrder`. |
| Schema.ApplyStep | watchers/__init__.py:88-106 | `shutil.copy2`, `os.remove` and `CREATE TABLE` on the abstract files. |
| Schema.ApplySteps | watchers/__init__.py:88-106 | The steps, run one after the other. |
| Schema.ApplyPlan | watchers/__init__.py:69-106 | Only a migration touches the files. |
| Schema.MatchingLayoutIsLeftAlone | watchers/__init__.py:75-78 | When the table on disk has the expected layout, the check returns and the files are untouched. |
| Schema.DeclinedMigrationAborts | watchers/__init__.py:83-86 | On a mismatch the check exits with status 1 iff the answer is not `y`. It touches no file then. |
| Prompt.Strip | watchers/__init__.py:83 | `str.strip()` is `rstrip` after `lstrip`. Its properties are in `Prompt.StripStart` and `Prompt.StripEnd`. |
| Prompt.Confirmed | watchers/__init__.py:83-84 | `resp == 'y'` after `strip().lower()`. Its properties are in `Prompt.ConfirmedIff` and `Prompt.PaddingIsIgnored`. |
| Prompt.ConfirmedIff | watchers/__init__.py:83-84 | The answer confirms exactly when, stripped of whitespace, it is `y` or `Y`. |
| Prompt.StripStart | watchers/__init__.py:83 | `lstrip` drops exactly a whitespace prefix and stops at a non-space. |
| Prompt.StripEnd | watchers/__init__.py:83 | `rstrip` drops exactly a whitespace suffix and stops at a non-space. |
| Prompt.Lower | watchers/__init__.py:83 | Lower-casing keeps the length. |
| Prompt.StripStartPadding | watchers/__init__.py:83 | `lstrip` removes exactly the leading whitespace in front of a word. |
| Prompt.StripEndPadding | watchers/__init__.py:83 | `rstrip` removes exactly the trailing whitespace after a word. |
| Prompt.PaddingIsIgnored | watchers/__init__.py:83-84 | Whitespace around an answer never changes the decision. A padded word confirms iff the word is `y` or `Y`. |
| Schema.MigrationStepOrder | watchers/__init__.py:88-106 | A migration backs up, then removes, only when the file exists. It always ends by creating the table. |
| Schema.MigrationStepsUnfold | watchers/__init__.py:88-106 | Running the steps copies the file to the backup, removes it and creates the empty table. |
| Schema.MigrationStepsEffect | watchers/__init__.py:88-106 | After the steps, the backup holds the old file verbatim and the path holds an empty table with the given columns. Every other file is unchanged. |
| Schema.MigrationResult | watchers/__init__.py:75-106 | A migration happens iff the layout is valid, differs from the one on disk and the answer is `y`. It keeps the old file under `<path>.bak.<stamp>` and creates the expected empty table. It touches no other file. |
| Schema.TableDefinitionShape | watchers/__init__.py:100-105 | The created table's columns are the expected names in order, all NOT NULL, each with its expected type. |
| Schema.TableDefinitionEntry | watchers/__init__.py:100-105 | Each expected column reads back from the created table with its expected type (read back as at line 64). |
| Schema.TableDefinitionKeys | watchers/__init__.py:100-105 | The created table has exactly the expected column names (read back as at line 64). |
| Schema.UpperTypeName | watchers/__init__.py:64 | Upper-casing a type name leaves it unchanged (applied to the types written at line 104). |
| Schema.TableDefinitionReadsBack | watchers/__init__.py:100-105 | Introspecting the created table gives back the layout it was created from (read back as at line 64). |
| Schema.FirstStartBacksUpEmptyFile | watchers/__init__.py:61-96 | With no database file, the empty file that opening creates never matches, so the operator is always asked. A confirmed migration leaves that empty file under the backup name. |
| Schema.MigrationIsIdempotent | watchers/__init__.py:69-106 | After a migration, the next check with the same defaults finds the layout up to date, whatever the answer and clock. |
| Schema.ReservedNameNeverSettles | watchers/__init__.py:71-73 | As written, a metric `timestamp` with default 0 retypes the fixed column to INTEGER. The created table still has it as TEXT, so it never matches (the CREATE statement at lines 101-104). |
| Schema.ReservedNameRefused | watchers/__init__.py:71-73 | With the correction, such a metric is refused with `ReservedColumn`, and no file is touched. |
| Timestamps.Stamp | watchers/__init__.py:90 | `strftime("%Y%m%d_%H%M%S")` as zero-padded fields. Its properties are in `Timestamps.StampFields`, `Timestamps.StampDigits` and `Timestamps.StampRoundTrip`. |
| Timestamps.ParseStamp | watchers/__init__.py:90 | Reads a 15-character stamp back into its fields, or nothing. It is the inverse in `Timestamps.StampRoundTrip`. |
| Timestamps.Pad | watchers/__init__.py:90 | A padded field has exactly its width and only digits. |
| Timestamps.PadRoundTrip | watchers/__init__.py:90 | A number below 10^width is recovered from its padded digits. |
| Timestamps.StampFields | watchers/__init__.py:90 | The backup stamp is 15 characters: zero-padded year, month, day, `_`, hour, minute, second, at fixed positions. |
| Timestamps.StampDigits | watchers/__init__.py:90 | Every character of the stamp except position 8 is a digit. |
| Timestamps.StampRoundTrip | watchers/__init__.py:90 | `%Y%m%d_%H%M%S` is 15 characters: digits with `_` at position 8. It parses back to the clock reading. |
| Timestamps.StampInjective | watchers/__init__.py:90 | Different clock readings give different backup names. |
| Store.DataStore.constructor | watchers/__init__.py:18-31 | The store keeps its path and the merged defaults. It has no metrics before the first reset. |
| Store.DataStore.ExpectedColumns | watchers/__init__.py:71-73 | The loop building `expected_cols` yields the expected layout, or the first error. |
| Store.DataStore.ColumnDefinitions | watchers/__init__.py:100-104 | The loop building `col_defs` yields the table definition. |
| Store.DataStore.EnsureSchema | watchers/__init__.py:69-107 | `_ensure_schema` takes the decision `Schema.SchemaPlan` describes on the files as opening left them. A raised error leaves the files alone. Otherwise the files are the opened ones with that plan's effects. |
| Store.Open | watchers/__init__.py:18-34 | Construction raises on an invalid layout and exits with status 1 on a refusal, with the opened file left behind. Otherwise it runs with the planned files and metrics equal to the defaults. |
| Store.DataStore.Reset | watchers/__init__.py:109-114 | After reset, the metrics are exactly the defaults: the same keys and values. |
| Store.DataStore.Snapshot | watchers/__init__.py:116-120 | The snapshot equals the current metrics, which stay unchanged. Later changes cannot reach it. |
| Store.DataStore.Add | watchers/mouse.py:48-78 | `metrics[key] += n` replaces that one counter by its integer plus `n`. |
| Store.Bump | watchers/mouse.py:48 | A counter update keeps the key set, adds `n` to that counter and leaves the others. |
| Store.BumpKeepsCounters | watchers/keyboard.py:86 | Counting keeps every counter an integer. |
| Store.ResetReady | watchers/__init__.py:109-114 | Names declared only with integer defaults are integer counters right after construction (constructor at lines 24-31). |
| Store.SerializedUpTo | watchers/__init__.py:128-129 | Each partial value list has one value per key so far. |
| Store.SerializedErrorStays | watchers/__init__.py:128-129 | Once a value fails to serialize, the save raises that error. |
| Store.SerializedUpToSpec | watchers/__init__.py:128-129 | Serializing succeeds iff every name is present and serializable, giving each value in order. Otherwise it raises the first failing name's error. |
| Store.RowShape | watchers/__init__.py:125-129 | The row has 2 + n names and values: timestamp, interval, then each metric's serialized value in defaults order. It exists iff every metric can be stored. |
| Store.DataStore.SaveToDb | watchers/__init__.py:122-131 | `save_to_db` inserts exactly that row. It does not reset the metrics. |
| Store.InsertRow | watchers/__init__.py:125-129 | The row `save_to_db` builds: the fixed names and the default names, with the interval's values. Its properties are in `Store.RowShape`. |
| Store.Save | watchers/__init__.py:122-131 | Build the row, then insert it. Its properties are in `Store.SaveAfterMigration`. |
| Store.FreshTableAcceptsRow | watchers/__init__.py:125-130 | The table a migration creates accepts every row built from the same defaults (table created at lines 100-105). |
| Store.SaveAfterMigration | watchers/__init__.py:99-131 | After a migration, a save succeeds and the table holds exactly that row. |
| Store.AfterResetRow | watchers/__init__.py:125-129 | Right after reset, the row exists iff every default is serializable. It then has 2 + (number of defaults) values (after the reset at lines 109-114). |
| Mouse.MetricKeys | watchers/mouse.py:10-21 | The mouse watcher's ten declared names, as an old-style set. |
| Mouse.ButtonCounter | watchers/mouse.py:49-54 | Buttons 1, 3 and 2 count as primary, secondary and middle clicks. Other buttons add no click counter. |
| Mouse.ScrollCounter | watchers/mouse.py:58-65 | Buttons 4/5 scroll up/down and 6/7 left/right. Other buttons add no scroll counter. |
| Mouse.Moves | watchers/mouse.py:33-40 | A run of motion events, one `MotionStep` each. Its property is in `Mouse.MotionNeverNegative`. |
| Mouse.Touched | watchers/mouse.py:47-65 | A press always touches `mouse.clicks.total`, and only declared mouse metrics (declared names at lines 10-21). |
| Mouse.TouchedByButton | watchers/mouse.py:48-65 | Buttons 1/3/2 add primary/secondary/middle and 4/5/6/7 add scroll up/down/left/right. Any other button adds nothing. Movement counters are never touched. |
| Mouse.Click | watchers/mouse.py:47-65 | A press keeps the store's key set. |
| Mouse.ClickEffect | watchers/mouse.py:47-65 | A press adds exactly 1 to the total and to its dispatched counter. No other metric changes. |
| Mouse.MotionStep | watchers/mouse.py:33-40 | A motion records the position. The first adds nothing, later ones add \|dx\| and \|dy\| to the pending totals. |
| Mouse.MotionNeverNegative | watchers/mouse.py:33-40 | A run of motions never decreases the pending totals. |
| Mouse.FlushInto | watchers/mouse.py:75-78 | A flush with both deltas 0 leaves the store untouched. Otherwise it changes only the two movement counters. |
| Mouse.FlushConserves | watchers/mouse.py:70-78 | The store gains exactly the pending movement on each axis. |
| Mouse.MouseTouchesOwnKeys | watchers/mouse.py:47-78 | Neither a press nor a flush changes a metric outside the mouse's declared names (declared names at lines 10-21). |
| Mouse.MouseWatcher.constructor | watchers/mouse.py:23-28 | A new watcher has no pending movement and no last position. |
| Mouse.MouseWatcher.HandleEvent | watchers/mouse.py:30-65 | A motion updates only the watcher, as `MotionStep` says. A press updates only the store, as `Click` says. Other events change nothing. Pending totals stay non-negative. |
| Mouse.MouseWatcher.FlushMovement | watchers/mouse.py:70-78 | One flush round zeroes the pending totals and keeps the last position. The store becomes `FlushInto` of the old totals. |
| Keyboard.KeycodeToName | watchers/keyboard.py:9-58 | The keycode table as the groups of the dict literal, a later entry for a keycode overriding an earlier one. Its properties are in `Keyboard.Keycode117`, `Keyboard.Keycode87` and `Keyboard.DuplicateKeycodesLastWins`. |
| Keyboard.Counters | watchers/keyboard.py:62 | `keyboard.key.<name>` for each name, plus `keyboard.other`. Its property is in `Keyboard.CountersExactly`. |
| Keyboard.MetricKeys | watchers/keyboard.py:61-62 | The counters of the names in the keycode table. Its property is in `Keyboard.MetricKeysExactly`. |
| Keyboard.MetricFor | watchers/keyboard.py:83-84 | The counter a keycode counts under, for a given table. Its properties are in `Keyboard.MetricForChoice`. |
| Keyboard.LaterGroupWins | watchers/keyboard.py:9-58 | A keycode keeps its group's name when no later group lists it. |
| Keyboard.PenultimateGroupWins | watchers/keyboard.py:9-58 | Likewise when only the last group follows. |
| Keyboard.UnionValues | watchers/keyboard.py:61 | A name neither part gives is not a name of the union. |
| Keyboard.NotAName | watchers/keyboard.py:9-61 | A name no group gives is not in `_ISO_105_NAMES`. |
| Keyboard.Navigation117 | watchers/keyboard.py:40-44 | Within the navigation cluster, 117 is `Page_Down`. No later group lists it. |
| Keyboard.Keypad87 | watchers/keyboard.py:46-54 | Within the keypad, 87 is `KP_Add`. No later group lists it. |
| Keyboard.AllGroupsLack | watchers/keyboard.py:9-61 | `End`, `KP_1` and the empty string are not key names. |
| Keyboard.Keycode117 | watchers/keyboard.py:42-43 | Keycode 117 maps to `Page_Down`. |
| Keyboard.Keycode87 | watchers/keyboard.py:48-53 | Keycode 87 maps to `KP_Add`. |
| Keyboard.DuplicateKeycodesLastWins | watchers/keyboard.py:42-53 | Repeated keycodes resolve to their later entry, so `End` and `KP_1` vanish from the names. No name is empty. |
| Keyboard.MetricKeysExactly | watchers/keyboard.py:61-62 | `keyboard.key.<n>` is a metric iff `n` is a key name, and `keyboard.other` is a metric. |
| Keyboard.NoEndOrKp1Counter | watchers/keyboard.py:42-62 | There is no `keyboard.key.End` or `keyboard.key.KP_1` metric. |
| Keyboard.KeyMetric | watchers/keyboard.py:83-84 | The metric chosen for any keycode is a declared keyboard metric. |
| Keyboard.KeyMetricChoice | watchers/keyboard.py:83-84 | A mapped keycode counts as `keyboard.key.<name>`. The result is `keyboard.other` iff the keycode is unmapped. |
| Keyboard.CountersExactly | watchers/keyboard.py:62 | For any set of key names, `keyboard.key.<n>` is a counter iff `n` is in the set. `keyboard.other` is always a counter. |
| Keyboard.PrefixedNameDeclared | watchers/keyboard.py:61-62 | Every name of the keycode table has its `keyboard.key.<name>` counter declared. |
| Keyboard.MetricForChoice | watchers/keyboard.py:83-84 | For a table with no empty name, a mapped keycode counts under its prefixed name. The result is `keyboard.other` iff the keycode is unmapped. |
| Keyboard.PressedKeys | watchers/keyboard.py:78-86 | A run of events names at most one counter per event. |
| Keyboard.PressedKeysFromPresses | watchers/keyboard.py:80-84 | A counter is named by a run of events iff some key press in it maps to that counter. |
| Keyboard.PressedKeysDeclared | watchers/keyboard.py:80-84 | Every counter a run of key presses names is a declared keyboard metric (declared names at lines 61-62). |
| Keyboard.Tally | watchers/keyboard.py:86 | Adding 1 per named counter keeps the store's key set. |
| Keyboard.TallyCounts | watchers/keyboard.py:78-86 | Each named counter rises by the number of times it is named. Every other metric is unchanged. |
| Keyboard.TallyCons | watchers/keyboard.py:82-86 | Counting a first name and then the rest is one increment followed by the tally of the rest. |
| Keyboard.HandleKeyEvents | watchers/keyboard.py:78-86 | The callback's loop over a batch of events leaves the store's metrics equal to `Tally` of the counters the key presses name. |
| Keyboard.TallyOutside | watchers/keyboard.py:86 | A tally over names inside a set leaves every metric outside the set unchanged. |
| Keyboard.KeyboardTouchesOwnKeys | watchers/keyboard.py:82-86 | Every counter a key press reaches is declared. No metric outside the keyboard's own declared metrics changes (declared names at lines 61-62). |
| Basics.DistinctCard | watchers/__init__.py:125 | A list without repeats has as many elements as its set. |
| Basics.DistinctNotEarlier | watchers/__init__.py:72 | In a dict's key order, no key occurs before its own position. |

## Left out

- Threads and locks: each `with ...lock:` block is one atomic step, and the daemon threads, `threading.Event().wait` and the watchers' own locks are not modelled.
- X11: the display connection, record contexts, `parse_binary_value` and the reply checks of the callbacks are not modelled. The mouse callback's loop over parsed events is the repeated call of `Mouse.MouseWatcher.HandleEvent`.
- `_flush_movement` runs forever with a one-second sleep; one round of it is modelled (`Mouse.MouseWatcher.FlushMovement`).
- SQL text: quoting of column names, the placeholder list, SQLite type affinity and the stored representation of values are not modelled. A row is a list of names and values, a table a list of columns and rows.
- `sqlite3.connect` creates an empty file when none exists. This is modelled where the layout is read (`Storage.Connect`). A first start therefore always asks and then backs up an empty file. Any other SQLite failure (a corrupt file, a full disk) is not modelled.
- Storage.Insert: a save into a missing file is an error (`NoSuchTable`). The empty file that `save_to_db`'s own connect leaves behind is not modelled.
- `input()` raises `EOFError` when standard input is closed. The operator's answer is a parameter, so this case is not modelled.
- Printed messages are not modelled.
- `Prompt.Lower` and `Storage.Upper` case-map ASCII letters only. No other character lower-cases to `y`, so the confirmation test is exact. Declared type names are ASCII.
- Timestamps: `Timestamps.StampRoundTrip` assumes a four-digit year.
- Floats: a float is carried as a tag with its text, for the type mapping and pass-through only.
- Store.DataStore.Add: requires an `int` (or `bool`) metric. `+=` on a float metric (float arithmetic) and the `TypeError` for other kinds are not modelled. Every watcher here declares integer counters only.
- `json.dumps`: its exact text is the parameter `enc`. The model does keep which values it refuses: sets, dict keys that are not `str`, numbers, bools or `None`, and objects of classes the encoder does not know. It encodes a tuple as an array, like a list.
- `copy.deepcopy` is the identity on the model's immutable values. This is what makes a snapshot independent of later changes.
- The iteration order of a set-style `METRIC_KEYS` depends on string hashing. It is a parameter (`Registry.KeySet`).
- Schema.ExpectedLayout: refuses every metric named `timestamp` or `interval_seconds` with `ReservedColumn`. Lines 71-73 accept such a name, and some of them settle, for example a `timestamp` default that is a string. The as-written layout is `Schema.ExpectedLayoutAsWritten`.
- Schema.SchemaPlan: built on `Schema.ExpectedLayout`. For a metric named `timestamp` or `interval_seconds` it plans `Invalid(ReservedColumn)`, where the source would return, ask or migrate.
- Schema.MigrationResult: its "migration happens iff" uses `Schema.ExpectedLayout`. A metric named like a fixed column, which the source may migrate, never migrates here.
- Store.DataStore.ExpectedColumns: checks for the reserved names before the loop of lines 71-73, which has no such check. It returns `ReservedColumn` for names the source types.
- Store.DataStore.EnsureSchema: follows `Schema.SchemaPlan`, so it raises `ReservedColumn` where lines 69-107 return or migrate for a metric named `timestamp` or `interval_seconds`.
- Store.Open: construction raises `ReservedColumn` for such a metric, where the source starts, or asks on every start when the clash changes a fixed column's type.
- `main.py`, `watchers/window.py` and `watchers/dummy.py` are not part of this model.

## Findings

| source | as written | input that shows it | evidently intended | confidence | as-written member | corrected member |
|---|---|---|---|---|---|---|
| watchers/__init__.py:71-73, 101-104 | A metric named `timestamp` or `interval_seconds` overwrites that fixed column's entry in `expected_cols`. The CREATE statement still writes the fixed columns with their own types and skips the first two entries. | A watcher declaring `{'timestamp': 0}`: the expected layout has `timestamp` INTEGER, the created table has it TEXT. Every start finds a mismatch, asks again and moves the data into another backup. | A metric name never collides with a fixed column, so that a migration settles the schema. | not executed; the name clash needs such a watcher | Schema.ReservedNameNeverSettles | Schema.ExpectedLayout |

`Schema.ExpectedLayoutAsWritten` types the defaults as the source does.
`Schema.ExpectedLayout` refuses a reserved name with a configuration error.
The rest of the model uses `Schema.ExpectedLayout`. For it,
`Schema.MigrationIsIdempotent` proves that a migration settles the layout.
