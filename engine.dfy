/**
  The snapshot engine of `src/index.js`: it resolves the key of a snapshot, looks it up
  in the table of the backing file, and then either stores the new value (refusing to
  on CI) or hands the stored and the current value to the raiser.

  The backing store is a map from file to table; `loadSnapshots` and `saveSnapshots`
  are a read and a write of that map. The per-test counters live in a `Counters`
  object that `restore()` replaces and `restore({file, specName})` edits. Counters and
  tables are ordinary objects, so `in` on them also finds the names of `ObjectPrototype`.
*/
module Engine {
  import opened Wrappers
  import opened Json
  import opened Utils

  /** A backing file: its path and the extension it is saved under (`None` when undefined). */
  datatype SnapshotFile = SnapshotFile(path: string, ext: Option<string>)

  /** The backing store: the table of snapshots saved in each file. */
  type Tables = map<SnapshotFile, map<string, Value>>

  // ---------------------------------------------------------------------------
  // Keys (src/index.js:46, 91, 138, 169)
  // ---------------------------------------------------------------------------

  /** `formKey`: the spec name, a space and the index in decimal. */
  function FormKey(specName: string, index: nat): string
  {
    specName + " " + NatText(index)
  }

  /** For one spec name, different indices form different keys. */
  lemma FormKeyInjective(specName: string, i: nat, j: nat)
    ensures FormKey(specName, i) == FormKey(specName, j) <==> i == j
  {
    if FormKey(specName, i) == FormKey(specName, j) {
      var n := |specName| + 1;
      assert FormKey(specName, i)[n..] == NatText(i);
      assert FormKey(specName, j)[n..] == NatText(j);
      DigitsValueOfNatText(i);
      DigitsValueOfNatText(j);
    }
  }

  /** `exactSpecName || formKey(specName, index)`: an exact name, when given, is the key. */
  function KeyFor(specName: Option<string>, exactSpecName: Option<string>, index: nat): string
  {
    if Given(exactSpecName) then exactSpecName.value else FormKey(Render(specName), index)
  }

  // ---------------------------------------------------------------------------
  // findStoredValue and storeValue (src/index.js:62-158)
  // ---------------------------------------------------------------------------

  /**
    `findStoredValue`: `Ok(None)` is the `undefined` it returns when updating, when the
    file has no table, or when `key in snapshots` is false: the table neither holds the
    key nor inherits it from `Object.prototype`, whose built-in function it returns then.
  */
  function FindStoredValue(tables: Tables, file: string, specName: Option<string>,
                           exactSpecName: Option<string>, index: nat, ext: Option<string>,
                           update: bool): (r: Result<Option<Value>, Error>)
    ensures r.Err? <==> file == ""
    ensures r == Ok(None) <==>
      file != "" &&
      (update || SnapshotFile(file, ext) !in tables ||
       (KeyFor(specName, exactSpecName, index) !in tables[SnapshotFile(file, ext)] &&
        KeyFor(specName, exactSpecName, index) !in ObjectPrototype))
    ensures r.Ok? && r.value.Some? ==>
      var key := KeyFor(specName, exactSpecName, index);
      SnapshotFile(file, ext) in tables &&
      (key in tables[SnapshotFile(file, ext)] ==> r.value.value == tables[SnapshotFile(file, ext)][key]) &&
      (key !in tables[SnapshotFile(file, ext)] ==> r.value.value == Fn(ObjectPrototype[key]))
  {
    if file == "" then Err(AssertionFailed("missing file to find spec for"))
    else if update then Ok(None)
    else if SnapshotFile(file, ext) !in tables then Ok(None)
    else
      var snapshots := tables[SnapshotFile(file, ext)];
      var key := KeyFor(specName, exactSpecName, index);
      if key in snapshots then Ok(Some(snapshots[key]))
      else if key in ObjectPrototype then Ok(Some(Fn(ObjectPrototype[key])))
      else Ok(None)
  }

  /** `loadSnapshots`: the table of a file, empty when the file has none yet. */
  function Load(tables: Tables, where: SnapshotFile): map<string, Value>
  {
    if where in tables then tables[where] else map[]
  }

  /** The store after the table of `where` was loaded, given `value` under `key` and saved. */
  function Saved(tables: Tables, where: SnapshotFile, key: string, value: Value): Tables
  {
    tables[where := Load(tables, where)[key := value]]
  }

  /** A save changes the one key of the one file and nothing else. */
  lemma SavedChangesOneKey(tables: Tables, where: SnapshotFile, key: string, value: Value)
    ensures var after := Saved(tables, where, key, value);
      after.Keys == tables.Keys + {where} &&
      after[where].Keys == Load(tables, where).Keys + {key} &&
      after[where][key] == value &&
      (forall other | other in Load(tables, where) && other != key ::
         after[where][other] == Load(tables, where)[other]) &&
      (forall file | file in tables && file != where :: after[file] == tables[file])
  {
  }

  /** What is saved under a key is what is found under it next. */
  lemma FindAfterSave(tables: Tables, file: string, specName: Option<string>,
                      exactSpecName: Option<string>, index: nat, ext: Option<string>, value: Value)
    requires file != ""
    ensures FindStoredValue(Saved(tables, SnapshotFile(file, ext), KeyFor(specName, exactSpecName, index), value),
                            file, specName, exactSpecName, index, ext, false) == Ok(Some(value))
  {
  }

  /** The argument checks of `storeValue`, in the order it makes them. */
  function StoreCheck(file: string, specName: Option<string>, exactSpecName: Option<string>,
                      index: nat, value: Option<Value>, comment: Option<string>): Option<Error>
  {
    if value.None? then Some(AssertionFailed("cannot store undefined value"))
    else if file == "" then Some(AssertionFailed("missing filename"))
    else if !Given(specName) && !Given(exactSpecName) then Some(AssertionFailed("missing spec or exact spec name"))
    else if !Given(exactSpecName) && index == 0 then Some(AssertionFailed("missing snapshot index"))
    else if comment == Some("") then Some(AssertionFailed("invalid comment to store"))
    else None
  }

  // ---------------------------------------------------------------------------
  // throwCannotSaveOnCI (src/index.js:162-184)
  // ---------------------------------------------------------------------------

  /** `quote`: the text between double quotes. */
  function Quoted(s: string): string
  {
    "\"" + s + "\""
  }

  const CiHead: string := "Cannot store new snapshot value\nin "
  const CiName: string := "\nfor snapshot called "
  const CiKey: string := "\ntest key "
  const CiTail: string := "\nwhen running on CI (opts.ci = 1)\nsee https://github.com/bahmutov/snap-shot-core/issues/5"

  /** The name the CI message gives the snapshot: `exactSpecName || specName`. */
  function CalledName(specName: Option<string>, exactSpecName: Option<string>): string
  {
    if Given(exactSpecName) then exactSpecName.value else Render(specName)
  }

  /** The message of the error `throwCannotSaveOnCI` throws. */
  function CannotSaveOnCIMessage(file: string, specName: Option<string>,
                                 exactSpecName: Option<string>, index: nat): string
  {
    CiHead + Quoted(file) +
    (CiName + Quoted(CalledName(specName, exactSpecName)) +
     (CiKey + Quoted(KeyFor(specName, exactSpecName, index)) + CiTail))
  }

  /** The CI message names the file, the snapshot and its key, each between quotes. */
  lemma CannotSaveOnCINames(file: string, specName: Option<string>, exactSpecName: Option<string>, index: nat)
    ensures var message := CannotSaveOnCIMessage(file, specName, exactSpecName, index);
      Infix(Quoted(file), message) &&
      Infix(Quoted(CalledName(specName, exactSpecName)), message) &&
      Infix(Quoted(KeyFor(specName, exactSpecName, index)), message)
  {
    var f := Quoted(file);
    var n := Quoted(CalledName(specName, exactSpecName));
    var k := Quoted(KeyFor(specName, exactSpecName, index));
    var keyPart := CiKey + k + CiTail;
    var namePart := CiName + n + keyPart;
    InfixOf(CiHead, f, namePart);
    Assoc(CiHead + f, CiName + n, keyPart);
    Assoc(CiHead + f, CiName, n);
    InfixOf(CiHead + f + CiName, n, keyPart);
    Assoc(CiHead + f, namePart, []);
    Assoc(CiHead + f + CiName + n, CiKey + k, CiTail);
    Assoc(CiHead + f + CiName + n, CiKey, k);
    assert CiHead + f + namePart == CiHead + f + CiName + n + keyPart;
    InfixOf(CiHead + f + CiName + n + CiKey, k, CiTail);
  }

  // ---------------------------------------------------------------------------
  // core and setOrCheckValue (src/index.js:186-311)
  // ---------------------------------------------------------------------------

  /**
    The `opts` of a call. `ci` is `None` when `opts` has no `ci` key, which leaves it to
    the host; a present key is its truthiness (`{ci: undefined}` is `Some(false)`).
  */
  datatype Opts = Opts(ci: Option<bool>, update: bool, dryRun: bool)

  /** The single argument the raiser is called with. */
  datatype RaiseArgs = RaiseArgs(value: Value, expected: Value, specName: string,
                                 compare: (Value, Value) -> Result<Comparison, string>)

  /**
    The options of a `core` call. `None` is an option left undefined. `store` returns
    `Ok(None)` for `undefined` and `Err` with the message of what it throws; `compare`
    returns `Err` when it throws; a raiser returns the message it throws, or `None` when
    it returns normally.
  */
  datatype Call = Call(
    what: Option<Value>,
    file: Option<string>,
    filename: Option<string>,
    specName: Option<string>,
    exactSpecName: Option<string>,
    store: Option<Value -> Result<Option<Value>, string>>,
    compare: Option<(Value, Value) -> Result<Comparison, string>>,
    raiser: Option<RaiseArgs -> Option<string>>,
    ext: Option<string>,
    comment: Option<string>,
    opts: Opts)

  /** `file || __filename` */
  function FileParameter(call: Call): Option<string>
  {
    if Given(call.file) then call.file else call.filename
  }

  /** `options.ext || utils.DEFAULT_EXTENSION`; utils.js exports no such name, so it is undefined. */
  function Extension(call: Call): Option<string>
  {
    if Given(call.ext) then call.ext else None
  }

  /** `opts.ci`, set from the host's CI detection when the call leaves it out. */
  function UsesCI(call: Call, hostCI: bool): bool
  {
    call.opts.ci.GetOr(hostCI)
  }

  /**
    The raiser used when the call gives none: it throws the comparator's message on a
    mismatch, and lets what the comparator throws through.
  */
  function DefaultRaiser(args: RaiseArgs): Option<string>
  {
    match args.compare(args.expected, args.value)
    case Err(thrown) => Some(thrown)
    case Ok(Same) => None
    case Ok(Differ(message)) => Some(message)
  }

  function StoreOf(call: Call): Value -> Result<Option<Value>, string>
  {
    call.store.GetOr(v => Ok(Some(v)))
  }

  function CompareOf(call: Call): (Value, Value) -> Result<Comparison, string>
  {
    call.compare.GetOr((e, v) => Ok(Compare(e, v)))
  }

  function RaiserOf(call: Call): RaiseArgs -> Option<string>
  {
    call.raiser.GetOr(DefaultRaiser)
  }

  /** `specName || exactSpecName`, the name the raiser is given. */
  function UsedSpecName(call: Call): string
  {
    if Given(call.specName) then call.specName.value else Render(call.exactSpecName)
  }

  const UndefinedValueMessage: string :=
    "Cannot store undefined value\nSee https://github.com/bahmutov/snap-shot-core/issues/111"

  /** The argument checks `core` makes before anything else, in its order. */
  function Rejection(call: Call): Option<Error>
  {
    if call.what.None? then Some(AssertionFailed(UndefinedValueMessage))
    else if !Given(FileParameter(call)) then Some(AssertionFailed("missing file"))
    else if call.specName == Some("") then Some(AssertionFailed("invalid specName"))
    else if call.exactSpecName == Some("") then Some(AssertionFailed("invalid exactSpecName"))
    else if !Given(call.specName) && !Given(call.exactSpecName) then
      Some(AssertionFailed("missing either specName or exactSpecName"))
    else if call.comment == Some("") then Some(AssertionFailed("wrong comment type"))
    else if Given(Extension(call)) && Extension(call).value[0] != '.' then
      Some(AssertionFailed("extension should start with ."))
    else None
  }

  /** The result of a call, the counters and the store after it. */
  datatype Outcome = Outcome(result: Result<Value, Error>, counters: map<string, Count>, tables: Tables)

  /** The index `setOrCheckValue` computes: 0 with an exact name, else the next count of the spec. */
  function IndexOf(call: Call, counters: map<string, Count>): Count
    requires Rejection(call).None?
  {
    if Given(call.exactSpecName) then Number(0) else NextCount(counters, call.specName.value)
  }

  /** `setOrCheckValue` once the index is known. */
  function SetOrCheck(call: Call, hostCI: bool, index: nat, counters: map<string, Count>, tables: Tables): Outcome
    requires Rejection(call).None?
  {
    var file := FileParameter(call).value;
    var value := Strip(call.what.value);
    match FindStoredValue(tables, file, call.specName, call.exactSpecName, index, Extension(call), call.opts.update)
    case Err(e) => Outcome(Err(e), counters, tables)
    case Ok(None) =>
      if UsesCI(call, hostCI) then
        Outcome(Err(CannotSaveOnCI(CannotSaveOnCIMessage(file, call.specName, call.exactSpecName, index))),
                counters, tables)
      else
        (match StoreOf(call)(value)
         case Err(thrown) => Outcome(Err(Thrown(thrown)), counters, tables)
         case Ok(stored) =>
           (match StoreCheck(file, call.specName, call.exactSpecName, index, stored, call.comment)
            case Some(e) => Outcome(Err(e), counters, tables)
            case None =>
              var where := SnapshotFile(file, Extension(call));
              var key := KeyFor(call.specName, call.exactSpecName, index);
              Outcome(Ok(stored.value), counters,
                      if call.opts.dryRun then tables else Saved(tables, where, key, stored.value))))
    case Ok(Some(expected)) =>
      var args := RaiseArgs(value, expected, UsedSpecName(call), CompareOf(call));
      match RaiserOf(call)(args)
      case Some(message) => Outcome(Err(Raised(message)), counters, tables)
      case None => Outcome(Ok(expected), counters, tables)
  }

  /** One `core` call on a plain value, from the counters and store before it. */
  function Evaluate(call: Call, hostCI: bool, counters: map<string, Count>, tables: Tables): Outcome
  {
    match Rejection(call)
    case Some(e) => Outcome(Err(e), counters, tables)
    case None =>
      if Given(call.exactSpecName) then SetOrCheck(call, hostCI, 0, counters, tables)
      else
        var index := NextCount(counters, call.specName.value);
        var counted := counters[call.specName.value := index];
        match index
        case Concatenated => Outcome(Err(AssertionFailed("invalid snapshot index")), counted, tables)
        case Number(n) => SetOrCheck(call, hostCI, n, counted, tables)
  }

  // ---------------------------------------------------------------------------
  // What one call does to the result, the counters and the store
  // ---------------------------------------------------------------------------

  /** The key a call that passed its checks and got a numeric index reads and writes. */
  function KeyOf(call: Call, counters: map<string, Count>): string
    requires Rejection(call).None? && IndexOf(call, counters).Number?
  {
    KeyFor(call.specName, call.exactSpecName, IndexOf(call, counters).n)
  }

  /** What the lookup of a call that passed its checks and got a numeric index finds. */
  function Found(call: Call, counters: map<string, Count>, tables: Tables): Result<Option<Value>, Error>
    requires Rejection(call).None? && IndexOf(call, counters).Number?
  {
    FindStoredValue(tables, FileParameter(call).value, call.specName, call.exactSpecName,
                    IndexOf(call, counters).n, Extension(call), call.opts.update)
  }

  /** Each of the four refusals of `core` happens before any counter or file changes. */
  lemma RejectedCallChangesNothing(call: Call, hostCI: bool, counters: map<string, Count>, tables: Tables)
    requires call.what.None? || !Given(FileParameter(call)) ||
             (!Given(call.specName) && !Given(call.exactSpecName)) ||
             (Given(Extension(call)) && Extension(call).value[0] != '.')
    ensures var out := Evaluate(call, hostCI, counters, tables);
      out.result.Err? && out.result.error.AssertionFailed? &&
      out.counters == counters && out.tables == tables
  {
  }

  /** `setOrCheckValue` never touches the counters once it has its index. */
  lemma SetOrCheckKeepsCounters(call: Call, hostCI: bool, index: nat, counters: map<string, Count>, tables: Tables)
    requires Rejection(call).None?
    ensures SetOrCheck(call, hostCI, index, counters, tables).counters == counters
  {
  }

  /**
    With an exact name the counters are untouched and the name is the key; otherwise the
    spec's counter takes the next count, and when that is a number it is positive and
    forms the key.
  */
  lemma EvaluateCounters(call: Call, hostCI: bool, counters: map<string, Count>, tables: Tables)
    requires Rejection(call).None?
    ensures var out := Evaluate(call, hostCI, counters, tables);
      (Given(call.exactSpecName) ==>
         out.counters == counters && KeyOf(call, counters) == call.exactSpecName.value) &&
      (!Given(call.exactSpecName) ==>
         out.counters == counters[call.specName.value := IndexOf(call, counters)] &&
         (IndexOf(call, counters).Number? ==>
            IndexOf(call, counters).n >= 1 &&
            KeyOf(call, counters) == FormKey(call.specName.value, IndexOf(call, counters).n)))
  {
    if Given(call.exactSpecName) {
      SetOrCheckKeepsCounters(call, hostCI, 0, counters, tables);
    } else {
      var index := NextCount(counters, call.specName.value);
      if index.Number? {
        SetOrCheckKeepsCounters(call, hostCI, index.n, counters[call.specName.value := index], tables);
      }
    }
  }

  /** Evaluate, unfolded once the checks have passed and the index is a number. */
  lemma EvaluateUnfold(call: Call, hostCI: bool, counters: map<string, Count>, tables: Tables)
    requires Rejection(call).None? && IndexOf(call, counters).Number?
    ensures Evaluate(call, hostCI, counters, tables) ==
      SetOrCheck(call, hostCI, IndexOf(call, counters).n,
                 if Given(call.exactSpecName) then counters
                 else counters[call.specName.value := IndexOf(call, counters)], tables)
  {
  }

  /**
    A test whose name is inherited from `Object.prototype` fails each numbered call: its
    counter holds a string, `is.positive` refuses it, and no file is read or written.
    The counters after the call meet the requirement again, so every later call fails too.
  */
  lemma InheritedNameFails(call: Call, hostCI: bool, counters: map<string, Count>, tables: Tables)
    requires Rejection(call).None? && !Given(call.exactSpecName)
    requires (call.specName.value !in counters && call.specName.value in ObjectPrototype) ||
             (call.specName.value in counters && counters[call.specName.value] == Concatenated)
    ensures var out := Evaluate(call, hostCI, counters, tables);
      out.result == Err(AssertionFailed("invalid snapshot index")) && out.tables == tables &&
      out.counters == counters[call.specName.value := Concatenated]
  {
  }

  /**
    With no stored value on CI the call fails with an error naming the file, the snapshot
    and the key, and the store is unchanged.
  */
  lemma EvaluateOnCI(call: Call, hostCI: bool, counters: map<string, Count>, tables: Tables)
    requires Rejection(call).None? && IndexOf(call, counters).Number?
    requires UsesCI(call, hostCI) && Found(call, counters, tables) == Ok(None)
    ensures var out := Evaluate(call, hostCI, counters, tables);
      out.tables == tables && out.result.Err? && out.result.error.CannotSaveOnCI? &&
      Infix(Quoted(FileParameter(call).value), out.result.error.message) &&
      Infix(Quoted(CalledName(call.specName, call.exactSpecName)), out.result.error.message) &&
      Infix(Quoted(KeyOf(call, counters)), out.result.error.message)
  {
    EvaluateUnfold(call, hostCI, counters, tables);
    CannotSaveOnCINames(FileParameter(call).value, call.specName, call.exactSpecName, IndexOf(call, counters).n);
  }

  /**
    With no stored value off CI, what `store` makes of the stripped value is returned and
    written under the key (only the key: see `SavedChangesOneKey`), or not at all on a dry run.
  */
  lemma EvaluateWrites(call: Call, hostCI: bool, counters: map<string, Count>, tables: Tables, stored: Value)
    requires Rejection(call).None? && IndexOf(call, counters).Number?
    requires !UsesCI(call, hostCI) && Found(call, counters, tables) == Ok(None)
    requires StoreOf(call)(Strip(call.what.value)) == Ok(Some(stored))
    ensures var out := Evaluate(call, hostCI, counters, tables);
      out.result == Ok(stored) &&
      out.tables == if call.opts.dryRun then tables
                    else Saved(tables, SnapshotFile(FileParameter(call).value, Extension(call)), KeyOf(call, counters), stored)
  {
    EvaluateUnfold(call, hostCI, counters, tables);
  }

  /** A `store` that returns `undefined` makes the call fail, and nothing is written. */
  lemma EvaluateStoresUndefined(call: Call, hostCI: bool, counters: map<string, Count>, tables: Tables)
    requires Rejection(call).None? && IndexOf(call, counters).Number?
    requires !UsesCI(call, hostCI) && Found(call, counters, tables) == Ok(None)
    requires StoreOf(call)(Strip(call.what.value)) == Ok(None)
    ensures var out := Evaluate(call, hostCI, counters, tables);
      out.result == Err(AssertionFailed("cannot store undefined value")) && out.tables == tables
  {
    EvaluateUnfold(call, hostCI, counters, tables);
  }

  /** What a `store` throws goes through the call, after the counter was bumped and before anything is written. */
  lemma EvaluateStoreThrows(call: Call, hostCI: bool, counters: map<string, Count>, tables: Tables, thrown: string)
    requires Rejection(call).None? && IndexOf(call, counters).Number?
    requires !UsesCI(call, hostCI) && Found(call, counters, tables) == Ok(None)
    requires StoreOf(call)(Strip(call.what.value)) == Err(thrown)
    ensures var out := Evaluate(call, hostCI, counters, tables);
      out.result == Err(Thrown(thrown)) && out.tables == tables
  {
    EvaluateUnfold(call, hostCI, counters, tables);
  }

  /**
    With a stored value, the raiser gets the stripped value, the stored one and the used
    name; the call returns the stored value unless the raiser throws, and writes nothing.
  */
  lemma EvaluateFound(call: Call, hostCI: bool, counters: map<string, Count>, tables: Tables, expected: Value)
    requires Rejection(call).None? && IndexOf(call, counters).Number?
    requires Found(call, counters, tables) == Ok(Some(expected))
    ensures var out := Evaluate(call, hostCI, counters, tables);
      var raised := RaiserOf(call)(RaiseArgs(Strip(call.what.value), expected, UsedSpecName(call), CompareOf(call)));
      out.tables == tables &&
      (raised.None? ==> out.result == Ok(expected)) &&
      (raised.Some? ==> out.result == Err(Raised(raised.value)))
  {
    EvaluateUnfold(call, hostCI, counters, tables);
  }

  /**
    With the default raiser and comparator, a stored value is returned exactly when it has
    the JSON text of the current value; otherwise the comparator's message is thrown.
  */
  lemma EvaluateFoundByDefault(call: Call, hostCI: bool, counters: map<string, Count>, tables: Tables, expected: Value)
    requires Rejection(call).None? && IndexOf(call, counters).Number?
    requires Found(call, counters, tables) == Ok(Some(expected))
    requires call.raiser.None? && call.compare.None?
    ensures var out := Evaluate(call, hostCI, counters, tables);
      var verdict := Compare(expected, Strip(call.what.value));
      (out.result == Ok(expected) <==> verdict.Same?) &&
      (verdict.Differ? ==> out.result == Err(Raised(verdict.message))) &&
      (!expected.Fn? && !call.what.value.Fn? ==>
         (out.result.Ok? <==> Visible(expected) == Visible(call.what.value)))
  {
    EvaluateFound(call, hostCI, counters, tables, expected);
    var w := call.what.value;
    CompareSameIff(expected, Strip(w));
    if !w.Fn? {
      VisibleIsPlain(w);
      VisiblePlain(Visible(w));
    }
  }

  /**
    An exact name inherited from `Object.prototype` that the file's table does not hold
    is found all the same, as the built-in function; the default raiser then throws
    unless the current value is a function too, and nothing is written.
  */
  lemma InheritedKeyFound(call: Call, hostCI: bool, counters: map<string, Count>, tables: Tables)
    requires Rejection(call).None? && Given(call.exactSpecName) && !call.opts.update
    requires call.exactSpecName.value in ObjectPrototype
    requires SnapshotFile(FileParameter(call).value, Extension(call)) in tables
    requires call.exactSpecName.value !in tables[SnapshotFile(FileParameter(call).value, Extension(call))]
    requires call.raiser.None? && call.compare.None?
    ensures Found(call, counters, tables) == Ok(Some(Fn(ObjectPrototype[call.exactSpecName.value])))
    ensures var out := Evaluate(call, hostCI, counters, tables);
      out.tables == tables && out.counters == counters &&
      (out.result.Ok? <==> call.what.value.Fn?) &&
      (!call.what.value.Fn? ==> out.result.Err? && out.result.error.Raised?)
  {
    var expected := Fn(ObjectPrototype[call.exactSpecName.value]);
    assert Found(call, counters, tables) == Ok(Some(expected));
    EvaluateFoundByDefault(call, hostCI, counters, tables, expected);
    EvaluateCounters(call, hostCI, counters, tables);
    CompareSameIff(expected, Strip(call.what.value));
  }

  /**
    A call with an exact name and no stored value stores the stripped value; the same call
    again finds it, passes the default comparison and changes nothing.
  */
  lemma ExactCallTwice(call: Call, hostCI: bool, counters: map<string, Count>, tables: Tables)
    requires Rejection(call).None? && Given(call.exactSpecName)
    requires !UsesCI(call, hostCI) && !call.opts.update && !call.opts.dryRun
    requires call.store.None? && call.raiser.None? && call.compare.None?
    requires Found(call, counters, tables) == Ok(None)
    ensures var first := Evaluate(call, hostCI, counters, tables);
      var second := Evaluate(call, hostCI, first.counters, first.tables);
      first.result == Ok(Strip(call.what.value)) && second.result == first.result &&
      first.counters == counters && second.counters == counters && second.tables == first.tables
  {
    var value := Strip(call.what.value);
    EvaluateWrites(call, hostCI, counters, tables, value);
    EvaluateCounters(call, hostCI, counters, tables);
    var first := Evaluate(call, hostCI, counters, tables);
    FindAfterSave(tables, FileParameter(call).value, call.specName, call.exactSpecName, 0, Extension(call), value);
    assert Found(call, first.counters, first.tables) == Ok(Some(value));
    EvaluateFoundByDefault(call, hostCI, first.counters, first.tables, value);
    CompareReflexive(value);
    EvaluateCounters(call, hostCI, first.counters, first.tables);
    EvaluateFound(call, hostCI, first.counters, first.tables, value);
  }

  /**
    Two calls of a test without an exact name, from counters that do not know it, use the
    keys `<specName> 1` and then `<specName> 2`, unless the name is inherited.
  */
  lemma NumberedCallTwice(call: Call, hostCI: bool, counters: map<string, Count>, tables: Tables)
    requires Rejection(call).None? && !Given(call.exactSpecName)
    requires call.specName.value !in counters && call.specName.value !in ObjectPrototype
    ensures var first := Evaluate(call, hostCI, counters, tables);
      var second := Evaluate(call, hostCI, first.counters, first.tables);
      IndexOf(call, counters) == Number(1) && IndexOf(call, first.counters) == Number(2) &&
      KeyOf(call, counters) == FormKey(call.specName.value, 1) &&
      KeyOf(call, first.counters) == FormKey(call.specName.value, 2) &&
      KeyOf(call, counters) != KeyOf(call, first.counters) &&
      second.counters == counters[call.specName.value := Number(2)]
  {
    var name := call.specName.value;
    EvaluateCounters(call, hostCI, counters, tables);
    var first := Evaluate(call, hostCI, counters, tables);
    assert first.counters == counters[name := Number(1)];
    EvaluateCounters(call, hostCI, first.counters, first.tables);
    assert first.counters[name := Number(2)] == counters[name := Number(2)];
    FormKeyInjective(name, 1, 2);
  }

  /** The engine's state: the per-test counters and the backing store. */
  class Engine {
    var snapshotsPerTest: Counters
    var tables: Tables

    constructor(tables: Tables)
      ensures fresh(snapshotsPerTest) && snapshotsPerTest.entries == map[]
      ensures this.tables == tables
    {
      snapshotsPerTest := new Counters();
      this.tables := tables;
    }

    /**
      `restore()`: with no options every counter starts again; with options, both
      `file` and `specName` must be given and only `specName`'s counter is removed.
    */
    method Restore(options: Option<(Option<string>, Option<string>)>) returns (r: Result<(), Error>)
      modifies this, snapshotsPerTest
      ensures tables == old(tables)
      ensures options.None? ==> r.Ok? && fresh(snapshotsPerTest) && snapshotsPerTest.entries == map[]
      ensures options.Some? && !Given(options.value.0) ==>
        r == Err(AssertionFailed("missing file")) && unchanged(this, old(snapshotsPerTest))
      ensures options.Some? && Given(options.value.0) && !Given(options.value.1) ==>
        r == Err(AssertionFailed("missing specName")) && unchanged(this, old(snapshotsPerTest))
      ensures options.Some? && Given(options.value.0) && Given(options.value.1) ==>
        r.Ok? && snapshotsPerTest == old(snapshotsPerTest) &&
        snapshotsPerTest.entries == old(snapshotsPerTest.entries) - {options.value.1.value}
    {
      if options.None? {
        snapshotsPerTest := new Counters();
        return Ok(());
      }
      var (file, specName) := options.value;
      if !Given(file) {
        return Err(AssertionFailed("missing file"));
      }
      if !Given(specName) {
        return Err(AssertionFailed("missing specName"));
      }
      snapshotsPerTest.entries := snapshotsPerTest.entries - {specName.value};
      return Ok(());
    }

    /** `storeValue`: loads the file's table, sets the key and saves it unless this is a dry run. */
    method StoreValue(file: string, specName: Option<string>, exactSpecName: Option<string>, index: nat,
                      value: Option<Value>, ext: Option<string>, comment: Option<string>, dryRun: bool)
      returns (r: Result<(), Error>)
      modifies this
      ensures snapshotsPerTest == old(snapshotsPerTest)
      ensures StoreCheck(file, specName, exactSpecName, index, value, comment).Some? ==>
        r == Err(StoreCheck(file, specName, exactSpecName, index, value, comment).value) &&
        tables == old(tables)
      ensures StoreCheck(file, specName, exactSpecName, index, value, comment).None? ==>
        r.Ok? && value.Some? &&
        tables == if dryRun then old(tables)
                  else Saved(old(tables), SnapshotFile(file, ext), KeyFor(specName, exactSpecName, index), value.value)
    {
      var failure := StoreCheck(file, specName, exactSpecName, index, value, comment);
      if failure.Some? {
        return Err(failure.value);
      }
      var where := SnapshotFile(file, ext);
      var snapshots := Load(tables, where);
      var key := KeyFor(specName, exactSpecName, index);
      snapshots := snapshots[key := value.value];
      if !dryRun {
        tables := tables[where := snapshots];
      }
      return Ok(());
    }

    /** `core` on a value that is not a promise. */
    method Core(call: Call, hostCI: bool) returns (r: Result<Value, Error>)
      modifies this, snapshotsPerTest
      ensures snapshotsPerTest == old(snapshotsPerTest)
      ensures Evaluate(call, hostCI, old(snapshotsPerTest.entries), old(tables)) ==
        Outcome(r, snapshotsPerTest.entries, tables)
    {
      var rejection := Rejection(call);
      if rejection.Some? {
        return Err(rejection.value);
      }
      var file := FileParameter(call).value;
      var ext := Extension(call);
      var index: nat := 0;
      if !Given(call.exactSpecName) {
        var counted := snapshotsPerTest.SnapshotIndex(Some(file), call.specName);
        if counted.Err? {
          // `core` has already checked both arguments of `snapshotIndex`.
          assert false;
        }
        if counted.value.Concatenated? {
          return Err(AssertionFailed("invalid snapshot index"));
        }
        index := counted.value.n;
      }
      var value := Strip(call.what.value);
      var expected := FindStoredValue(tables, file, call.specName, call.exactSpecName, index, ext, call.opts.update);
      if expected.Err? {
        // `core` has already checked the file.
        assert false;
      }
      if expected.value.None? {
        if UsesCI(call, hostCI) {
          return Err(CannotSaveOnCI(CannotSaveOnCIMessage(file, call.specName, call.exactSpecName, index)));
        }
        var result := StoreOf(call)(value);
        if result.Err? {
          return Err(Thrown(result.error));
        }
        var stored := result.value;
        var saved := StoreValue(file, call.specName, call.exactSpecName, index, stored, ext, call.comment, call.opts.dryRun);
        if saved.Err? {
          return Err(saved.error);
        }
        return Ok(stored.value);
      }
      var raised := RaiserOf(call)(RaiseArgs(value, expected.value.value, UsedSpecName(call), CompareOf(call)));
      if raised.Some? {
        return Err(Raised(raised.value));
      }
      return Ok(expected.value.value);
    }
  }
}
