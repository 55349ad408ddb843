# snap-shot-core: the snapshot decision engine in Dafny

This project models the core of `snap-shot-core`: the engine in `src/index.js` and the helpers it uses from `src/utils.js`. It proves properties of that model.

A call to `core` does the following:

1. It checks its options.
2. It resolves the snapshot key. An exact name, when given, is the key. Otherwise the key is `<specName> <n>`, where `n` comes from a per-test counter.
3. It looks the key up in the table of the backing file.
4. If nothing is stored under the key, the call either refuses (on CI) or writes `store(strip(value))` under the key and returns it.
5. If a baseline is stored, the call hands the current and the stored value to the raiser and returns the stored value.

The project has four files:

- `wrappers.dfy`: `Option` stands for JavaScript's `undefined`, and `Result` for a thrown exception.
- `json.dfy` (module `Json`):
  - JavaScript values, including function values.
  - `JSON.stringify` without indentation (`Ser`/`Stringify`).
  - A reader for the text it writes (`ParseValue`/`Parse`).
  - The round trip `Parse(Ser(v)) == Some(Visible(v))`, where `Visible(v)` is what JSON keeps of `v`: functions in arrays become `null`, and members holding functions are dropped.
- `utils.dfy` (module `Utils`):
  - `snapshotIndex`, as the `Counters` class whose `SnapshotIndex` method updates the map in place.
  - `strip`, `compare` and `exportText`.
  - `isSurroundedByNewLines` and `removeExtraNewLines`; the latter is a loop over the keys of a table.
- `engine.dfy` (module `Engine`):
  - `formKey`, `findStoredValue` and `throwCannotSaveOnCI`.
  - The `Engine` class. Its fields are the counters object `snapshotsPerTest` and the backing store, a map from file to table. Its methods are `Restore`, `StoreValue` and `Core`.
  - `Core` is proved equal to the pure function `Evaluate`, and the lemmas about `Evaluate` state what one call does to its result, the counters and the store.

Two behaviours of the code the model keeps:

- **The raiser.** When a baseline exists, `setOrCheckValue` always calls the raiser, and the raiser does the comparing (src/index.js:297-303). Nothing compares first and calls the raiser only on a mismatch.
- **The default extension.** `utils.DEFAULT_EXTENSION` is not exported by `src/utils.js`. So when a call gives no extension, `ext` is `undefined`, and no extension check is made (src/index.js:203, 232-234).

The counters object and the loaded tables are ordinary JavaScript objects, so `name in object` also holds for the names they inherit from `Object.prototype` (`ObjectPrototype` in `utils.dfy`). The model keeps the two consequences:

- **Counter names.** A test called `constructor`, `toString` or `valueOf` gets a counter that `+= 1` turns into a string. `core` then refuses the index (src/index.js:246-255), on that call and every later one.
- **Exact names.** An exact name such as `toString`, missing from a file's table, is found on the prototype as a built-in function. That function is handed to the raiser as the stored value.

Inputs that come from outside the program are parameters:

- the host's CI detection is `hostCI`. `Opts.ci` is `None` only when `opts` has no `ci` key; a present key counts by its truthiness, so `{ci: undefined}` is `Some(false)` (src/index.js:222-225, 269);
- `store`, `compare` and `raiser` are Dafny functions in the `Call`. `store` and `compare` return `Err` for what they throw; a raiser returns the message it throws;
- the backing store is the `tables` field.

## Model

| member | source | states |
|---|---|---|
| `Json.ParseSer` | src/utils.js:30 | reading the JSON text of any value, followed by text that cannot extend it, gives back what JSON keeps of the value and leaves the following text untouched |
| `Json.ParseStringify` | src/utils.js:30 | `JSON.parse(JSON.stringify(v))` is `Visible(v)` for every value that is not a function |
| `Json.ParseIntText` | src/utils.js:30 | an integer's decimal text reads back as the same integer |
| `Json.ParseEscaped` | src/utils.js:30 | a string's escaped text and closing quote read back as the same string |
| `Json.VisiblePlain` | src/utils.js:30 | JSON keeps all of a value that has no function in it |
| `Json.SerVisible` | src/utils.js:34-35 | the JSON text of what JSON keeps of a value is the JSON text of the value |
| `Json.SerEqualIff` | src/utils.js:34-36 | two non-function values have the same JSON text exactly when JSON keeps the same of both, member order included |
| `Utils.Counters.constructor` | src/index.js:39 | a fresh counter map is empty |
| `Utils.Counters.SnapshotIndex` | src/utils.js:11-22 | a missing or empty spec name or file is refused with nothing changed; otherwise the counter of `specName` takes the next count, which is returned, and no other entry changes |
| `Utils.NextCount` | src/utils.js:16-21 | whenever the index `snapshotIndex` hands out is a number, it is at least 1 |
| `Utils.RepeatedFromAbsent` | src/utils.js:16-21 | for a name that is neither counted nor inherited, n successive calls return 1, 2, ..., n, leave its count at n and leave every other count unchanged |
| `Utils.RepeatedInherited` | src/utils.js:16-21 | for a name inherited from `Object.prototype`, or one whose counter is already a string, every call returns a string and never a number |
| `Utils.RestartAfterRemoval` | src/index.js:58 | once a test's entry is deleted it counts as never counted (next index 1 unless the name is inherited), and other tests' next indices are unaffected |
| `Utils.Strip` | src/utils.js:26-31 | a function is returned unchanged; any other value becomes what JSON keeps of it; a value without functions comes back equal |
| `Utils.StripIdempotent` | src/utils.js:26-31 | stripping a stripped value changes nothing |
| `Utils.VisibleIsPlain` | src/utils.js:30 | what JSON keeps of any value has no function left in it |
| `Utils.Compare` | src/utils.js:33-40 | the result is `Same` exactly when the two `JSON.stringify` results are equal; otherwise the error message contains both renderings (`undefined` for a function) |
| `Utils.CompareSameIff` | src/utils.js:33-40 | two values compare equal exactly when both are functions, or neither is and JSON keeps the same of both |
| `Utils.ComparePlain` | src/utils.js:33-40 | on values without functions, the comparator is structural equality, member order included |
| `Utils.CompareKeyOrder` | src/utils.js:33-40 | `{a: 1, b: 2}` and `{b: 2, a: 1}` do not compare equal |
| `Utils.ExportLineHolds` | src/utils.js:59-60 | the exported line contains the snapshot name and, between backticks, the text with a new line on each side |
| `Utils.ExportText` | src/utils.js:47-61 | an empty name is refused; a value that is not a non-empty string is refused with a message naming the snapshot; otherwise the exported line holds the name and the text wrapped in new lines |
| `Utils.Unwrapped` | src/utils.js:72-83 | a string of two or more characters that starts and ends with a new line loses exactly those two characters, so wrapping the result gives back the value; any other value is unchanged |
| `Utils.RemoveExtraNewLines` | src/utils.js:79-87 | the table keeps its key set and every value becomes its unwrapped form |
| `Utils.UnwrapWithNewLines` | src/utils.js:59-83 | on the loaded table, unwrapping removes exactly the new lines `exportText` put around any string |
| `Utils.TextRoundTrip` | src/utils.js:59-83 | on the loaded table, a table of texts each wrapped in new lines unwraps back to the texts themselves |
| `Engine.FormKeyInjective` | src/index.js:46 | for one spec name, two formed keys are equal exactly when their indices are |
| `Engine.FindStoredValue` | src/index.js:62-98 | an empty file is refused; the result is absent exactly when updating, when the file has no table, or when the table neither holds the key nor inherits it; otherwise it is the value stored under the key or, for an inherited name, the built-in function |
| `Engine.SavedChangesOneKey` | src/index.js:137-148 | a save sets the key of the one file's table; every other key of that table and every other file stays as it was |
| `Engine.FindAfterSave` | src/index.js:137-139 | a value saved under a key is what the next lookup of that key finds |
| `Engine.CannotSaveOnCINames` | src/index.js:162-184 | the CI error message names the file, the snapshot and the test key, each in double quotes |
| `Engine.Engine.constructor` | src/index.js:39 | an engine starts with empty counters and the given store |
| `Engine.Engine.Restore` | src/index.js:48-60 | with no options the counters are replaced by an empty map; with options, both names must be given (else an error and nothing changes), and only `specName`'s counter is removed; the store is never touched |
| `Engine.Engine.StoreValue` | src/index.js:100-158 | an undefined value, an empty file, no name, an index of 0 without an exact name, or an empty comment is refused with nothing written; otherwise the value is put under the key of the loaded table, which is saved unless this is a dry run |
| `Engine.Engine.Core` | src/index.js:186-311 | the result, the counters and the store after a call are those `Evaluate` gives from the state before it |
| `Engine.RejectedCallChangesNothing` | src/index.js:191-234 | a call with no value, no file, neither name, or an extension not starting with `.` fails before any counter or file changes |
| `Engine.EvaluateCounters` | src/index.js:237-255 | with an exact name the counters are untouched and the name is the key; otherwise the spec's counter takes its next count, and when that is a number it is positive and forms the key `<specName> <index>` |
| `Engine.InheritedNameFails` | src/index.js:238-255 | a numbered call of a test whose name is inherited, or whose counter is already a string, fails with "invalid snapshot index", leaves the counter a string and writes nothing, so every later call fails as well |
| `Engine.EvaluateOnCI` | src/index.js:268-279 | with no stored value on CI the call fails with an error naming the file, the snapshot and the key, and the store is unchanged |
| `Engine.EvaluateWrites` | src/index.js:281-292 | with no stored value off CI, what `store` returns for the stripped value is returned, and is written under the key unless this is a dry run |
| `Engine.EvaluateStoresUndefined` | src/index.js:114 | a `store` that returns `undefined` makes the call fail with nothing written |
| `Engine.EvaluateStoreThrows` | src/index.js:281-292 | what `store` throws is what the call throws, and nothing is written |
| `Engine.EvaluateFound` | src/index.js:295-303 | with a stored value the raiser gets the stripped value, the stored value and the used name; the call returns the stored value unless the raiser throws, and writes nothing |
| `Engine.EvaluateFoundByDefault` | src/index.js:295-303 | with the default raiser and comparator, the stored value is returned exactly when `compare` finds it the same as the stripped current value, otherwise `compare`'s message is thrown; for non-function values that is exactly when JSON keeps the same of both |
| `Engine.InheritedKeyFound` | src/index.js:91-97 | an exact name inherited from `Object.prototype` and missing from an existing table is found as the built-in function; with the default raiser the call then throws unless the current value is a function, and nothing is written |
| `Engine.ExactCallTwice` | src/index.js:237-303 | a first call with an exact name stores the stripped value; the same call again finds it, passes and changes nothing |
| `Engine.NumberedCallTwice` | src/index.js:238-245 | two calls of a new test with a name that is not inherited and no exact name use the distinct keys `<specName> 1` and `<specName> 2` |

## Left out

- The promise branch (src/index.js:160, 306-307): only the immediate-value path is modelled.
- Logging: `debug` and `console.log` output.
- `is-ci` detection (src/index.js:8): it becomes the `hostCI` parameter, used when `opts.ci` is absent.
- Storage backends: `./file-system`, `./cypress-system` and `./browser-system` are not part of this model.
  - Loading and saving a table are a read and a write of the `tables` map.
  - `findStoredValue` reads a file without a table as "absent".
  - `storeValue` starts such a file from an empty table.
  - `fromCurrentFolder`, `useRelativePath`, `sortSnapshots` and `show` only affect paths, ordering on disk and output, so they are left out.
- The default raiser `fs.raiseIfDifferent`: file-system.js is not part of this model. `DefaultRaiser` calls the comparator and throws its message on a mismatch. The diff formatting of the real raiser is not modelled.
- `R.clone(options)` and the `sortSnapshots` default in `opts`: they have no effect on the decision.
- `./prune`: it is not part of this model.
- `sameTypes` and `compareTypes`: the engine never uses them, and they read names outside their parameters.
- `exportObject`: its serialisation is done by the `jsesc` library.
- Utils.ExportText: the name and the text are put into the line without escaping. So the round trip through the file holds only for texts without `` ` ``, `\` or `${`, and for names without `'`; the round trip is proved on the loaded table only. The engine's save and load are plain writes and reads of the `tables` map. So the new-line wrapping and the empty-text refusal are not part of `Engine.Core`.
- Runtime type checks (`is.object(options)`, `is.fn` on `compare`, `store` and `raiser`, non-string names): these are enforced by Dafny's types instead.
- `lazy-ass` messages: an `AssertionFailed` error keeps only the leading description, not the dump of the arguments that `la` appends.
- JSON beyond what the engine needs:
  - numbers are integers;
  - `undefined` members, `toJSON`, symbols, cycles and lone surrogate escapes are not modelled;
  - `Parse` reads exactly the text `Ser` writes (no whitespace, fractions or exponents);
  - object members keep the order given, with no JavaScript reordering of integer-like keys and no duplicate keys.
- `findStoredValue`'s default `index = 1` when no index is passed: `core` always passes one.
- Engine.Engine.StoreValue: an undefined `index` cannot be represented, because `index` is a `nat`. `is.maybe.positive` accepts an undefined index, and `formKey` then writes the key `<specName> undefined`. `core` never passes an undefined index.
- `__proto__` as a spec name or key: assigning to it changes or ignores the object's prototype instead of setting a key. The model treats it as an ordinary name.
- `ObjectPrototype` holds only the standard names of `Object.prototype`. Properties that other code adds to `Object.prototype` are not modelled.
- `RemoveExtraNewLines`: it returns the new table instead of overwriting the entries of the caller's object, so aliasing of that object is not modelled.
