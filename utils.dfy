/**
  The helpers of `src/utils.js` that the snapshot engine relies on: the per-test
  counter, value normalisation, the default comparator, and the text-snapshot format
  with its inverse on load.
*/
module Utils {
  import opened Wrappers
  import opened Json

  /** An exception thrown by the engine or its helpers, by the check that throws it. */
  datatype Error =
    | AssertionFailed(message: string)    // a `la(...)` argument check failed
    | EmptyTextSnapshot(message: string)  // `exportText` refused an empty text
    | CannotSaveOnCI(message: string)     // `throwCannotSaveOnCI`
    | Raised(message: string)             // thrown by the raiser on a mismatch
    | Thrown(message: string)             // thrown by a caller's `store` function

  /** A JavaScript string value is truthy (and `is.unemptyString`) when it is not empty. */
  predicate Given(s: Option<string>)
  {
    s.Some? && s.value != ""
  }

  /** How a template literal renders a string that may be `undefined`. */
  function Render(s: Option<string>): string
  {
    s.GetOr("undefined")
  }

  /** `part` occurs somewhere in `text`. */
  predicate Infix(part: string, text: string)
    decreases |text|
  {
    part <= text || (text != [] && Infix(part, text[1..]))
  }

  lemma {:induction false} InfixOf(before: string, part: string, after: string)
    ensures Infix(part, before + part + after)
    decreases |before|
  {
    var text := before + part + after;
    if before == [] {
      assert text == part + after;
      assert part <= text;
    } else {
      InfixOf(before[1..], part, after);
      assert text[1..] == before[1..] + part + after;
    }
  }

  // ---------------------------------------------------------------------------
  // snapshotIndex (src/utils.js:11-22)
  // ---------------------------------------------------------------------------

  /**
    The names every ordinary object inherits from `Object.prototype`, each bound to a
    built-in function (numbered here only to tell them apart). `name in object` is true
    for them on an object that does not hold the name as its own key.
  */
  const ObjectPrototype: map<string, nat> := map[
    "constructor" := 0, "hasOwnProperty" := 1, "isPrototypeOf" := 2,
    "propertyIsEnumerable" := 3, "toLocaleString" := 4, "toString" := 5, "valueOf" := 6,
    "__defineGetter__" := 7, "__defineSetter__" := 8, "__lookupGetter__" := 9,
    "__lookupSetter__" := 10]

  /**
    What a counter holds: a count, or the string that `+= 1` makes when the name was
    found on `Object.prototype` (a function plus 1 concatenates), and every later
    `+= 1` keeps a string.
  */
  datatype Count = Number(n: nat) | Concatenated

  /** The count `snapshotIndex` gives `specName` next; whenever it is a number it is positive. */
  function NextCount(counters: map<string, Count>, specName: string): (c: Count)
    ensures c.Number? ==> c.n >= 1
  {
    if specName in counters then
      (match counters[specName]
       case Number(n) => Number(n + 1)
       case Concatenated => Concatenated)
    else if specName in ObjectPrototype then Concatenated
    else Number(1)
  }

  /** The argument checks of `snapshotIndex`, in the order it makes them. */
  function IndexCheck(file: Option<string>, specName: Option<string>): Option<Error>
  {
    if !Given(specName) then Some(AssertionFailed("expected specName"))
    else if !Given(file) then Some(AssertionFailed("missing filename"))
    else None
  }

  /** The object of how many snapshots each test has taken, updated in place. */
  class Counters {
    var entries: map<string, Count>

    constructor()
      ensures entries == map[]
    {
      entries := map[];
    }

    /** `snapshotIndex`: bumps the counter of `specName` and returns it. */
    method SnapshotIndex(file: Option<string>, specName: Option<string>) returns (r: Result<Count, Error>)
      modifies this
      ensures IndexCheck(file, specName).Some? ==>
        r == Err(IndexCheck(file, specName).value) && entries == old(entries)
      ensures IndexCheck(file, specName).None? ==>
        r == Ok(NextCount(old(entries), specName.value)) &&
        entries == old(entries)[specName.value := r.value]
    {
      var failure := IndexCheck(file, specName);
      if failure.Some? {
        return Err(failure.value);
      }
      var name := specName.value;
      if !(name in entries || name in ObjectPrototype) {
        entries := entries[name := Number(1)];
      } else if name in entries && entries[name].Number? {
        entries := entries[name := Number(entries[name].n + 1)];
      } else {
        // `+= 1` on an inherited function, or on the string an earlier call made of it
        entries := entries[name := Concatenated];
      }
      return Ok(entries[name]);
    }
  }

  /** The indices `n` successive `snapshotIndex` calls for `specName` return, and the counters after them. */
  function Repeated(counters: map<string, Count>, specName: string, n: nat): (seq<Count>, map<string, Count>)
  {
    if n == 0 then ([], counters)
    else
      var (indices, before) := Repeated(counters, specName, n - 1);
      var i := NextCount(before, specName);
      (indices + [i], before[specName := i])
  }

  /**
    From counters without `specName`, for a name that is not inherited, `n` calls return
    1, 2, ..., n, leave the count at `n` and change no other test's count.
  */
  lemma {:induction false} RepeatedFromAbsent(counters: map<string, Count>, specName: string, n: nat)
    requires specName !in counters && specName !in ObjectPrototype
    ensures var (indices, after) := Repeated(counters, specName, n);
      |indices| == n && (forall i | 0 <= i < n :: indices[i] == Number(i + 1)) &&
      (n > 0 ==> after == counters[specName := Number(n)]) && (n == 0 ==> after == counters)
    decreases n
  {
    if n > 0 {
      RepeatedFromAbsent(counters, specName, n - 1);
      var (indices, before) := Repeated(counters, specName, n - 1);
      assert NextCount(before, specName) == Number(n);
    }
  }

  /**
    A name inherited from `Object.prototype` (or one whose counter already became a
    string) never gets a numeric index: every call returns the concatenated string.
  */
  lemma {:induction false} RepeatedInherited(counters: map<string, Count>, specName: string, n: nat)
    requires (specName !in counters && specName in ObjectPrototype) ||
             (specName in counters && counters[specName] == Concatenated)
    ensures var (indices, after) := Repeated(counters, specName, n);
      |indices| == n && (forall i | 0 <= i < n :: indices[i] == Concatenated) &&
      (n > 0 ==> after == counters[specName := Concatenated]) && (n == 0 ==> after == counters)
    decreases n
  {
    if n > 0 {
      RepeatedInherited(counters, specName, n - 1);
      var (indices, before) := Repeated(counters, specName, n - 1);
      assert NextCount(before, specName) == Concatenated;
    }
  }

  /**
    After its entry is removed, a test counts as if it had never been counted: its next
    index is 1 again unless the name is inherited; other tests are unaffected.
  */
  lemma RestartAfterRemoval(counters: map<string, Count>, specName: string, other: string)
    requires other != specName
    ensures NextCount(counters - {specName}, specName) == NextCount(map[], specName)
    ensures specName !in ObjectPrototype ==> NextCount(counters - {specName}, specName) == Number(1)
    ensures NextCount(counters - {specName}, other) == NextCount(counters, other)
  {
  }

  // ---------------------------------------------------------------------------
  // strip (src/utils.js:26-31)
  // ---------------------------------------------------------------------------

  /** `strip`: a function is kept as it is; anything else goes through `JSON.parse(JSON.stringify(o))`. */
  function Strip(o: Value): (r: Value)
    ensures o.Fn? ==> r == o
    ensures !o.Fn? ==> r == Visible(o)
    ensures Plain(o) ==> r == o
  {
    if o.Fn? then o
    else
      ParseStringify(o);
      if Plain(o) then VisiblePlain(o); Parse(Ser(o)).value else Parse(Ser(o)).value
  }

  /** Stripping twice is stripping once. */
  lemma StripIdempotent(o: Value)
    ensures Strip(Strip(o)) == Strip(o)
  {
    if !o.Fn? {
      VisibleIsPlain(o);
    }
  }

  /** What JSON keeps of a value has no function left in it. */
  lemma {:induction false} VisibleIsPlain(v: Value)
    ensures Plain(Visible(v))
    decreases v, 1
  {
    match v
    case Arr(items) => VisibleItemsArePlain(items);
    case Obj(ms) => VisibleMembersArePlain(ms);
    case _ =>
  }

  lemma {:induction false} VisibleItemsArePlain(items: seq<Value>)
    ensures forall i | 0 <= i < |VisibleItems(items)| :: Plain(VisibleItems(items)[i])
    decreases items, 0
  {
    if items != [] {
      var vs := VisibleItems(items);
      VisibleItemsArePlain(items[1..]);
      assert vs == [Visible(items[0])] + VisibleItems(items[1..]);
      VisibleIsPlain(items[0]);
      forall i | 0 <= i < |vs|
        ensures Plain(vs[i])
      {
        if i > 0 {
          assert vs[i] == VisibleItems(items[1..])[i - 1];
        }
      }
    }
  }

  lemma {:induction false} VisibleMembersArePlain(ms: seq<Member>)
    ensures forall i | 0 <= i < |VisibleMembers(ms)| :: Plain(VisibleMembers(ms)[i].val)
    decreases ms, 0
  {
    if ms != [] {
      VisibleMembersArePlain(ms[1..]);
      if !ms[0].val.Fn? {
        VisibleIsPlain(ms[0].val);
        var vs := VisibleMembers(ms);
        assert vs == [Member(ms[0].key, Visible(ms[0].val))] + VisibleMembers(ms[1..]);
        forall i | 0 <= i < |vs|
          ensures Plain(vs[i].val)
        {
          if i > 0 {
            assert vs[i] == VisibleMembers(ms[1..])[i - 1];
          }
        }
      }
    }
  }

  // ---------------------------------------------------------------------------
  // compare (src/utils.js:33-40)
  // ---------------------------------------------------------------------------

  /** folktale's `Result.Ok()` and `Result.Error(message)` as a comparator returns them. */
  datatype Comparison = Same | Differ(message: string)

  /** `compare`: equal exactly when the two `JSON.stringify` texts are equal. */
  function Compare(expected: Value, value: Value): (r: Comparison)
    ensures r.Same? <==> Stringify(expected) == Stringify(value)
    ensures r.Differ? ==>
      Infix(Render(Stringify(expected)), r.message) && Infix(Render(Stringify(value)), r.message)
  {
    var e := Stringify(expected);
    var v := Stringify(value);
    if e == v then Same
    else
      var message := Render(e) + " !== " + Render(v);
      InfixOf([], Render(e), " !== " + Render(v));
      InfixOf(Render(e) + " !== ", Render(v), []);
      assert Render(e) + " !== " + Render(v) == [] + Render(e) + (" !== " + Render(v));
      assert message == Render(e) + " !== " + Render(v) + [];
      Differ(message)
  }

  /**
    Two values compare equal exactly when both are functions, or neither is and JSON
    keeps the same of both.
  */
  lemma CompareSameIff(expected: Value, value: Value)
    ensures Compare(expected, value).Same? <==>
      (expected.Fn? && value.Fn?) ||
      (!expected.Fn? && !value.Fn? && Visible(expected) == Visible(value))
  {
    if !expected.Fn? && !value.Fn? {
      SerEqualIff(expected, value);
    }
  }

  /** On plain values the comparator is equality, member order included. */
  lemma ComparePlain(expected: Value, value: Value)
    requires Plain(expected) && Plain(value)
    ensures Compare(expected, value).Same? <==> expected == value
  {
    CompareSameIff(expected, value);
    VisiblePlain(expected);
    VisiblePlain(value);
  }

  /** `{a: 1, b: 2}` and `{b: 2, a: 1}` do not compare equal. */
  lemma CompareKeyOrder()
    ensures Compare(Obj([Member("a", Num(1)), Member("b", Num(2))]),
                    Obj([Member("b", Num(2)), Member("a", Num(1))])).Differ?
  {
    var x := Obj([Member("a", Num(1)), Member("b", Num(2))]);
    var y := Obj([Member("b", Num(2)), Member("a", Num(1))]);
    ComparePlain(x, y);
    assert x.members[0] != y.members[0];
  }

  /** A value always compares equal to itself. */
  lemma CompareReflexive(v: Value)
    ensures Compare(v, v) == Same
  {
  }

  // ---------------------------------------------------------------------------
  // exportText, isSurroundedByNewLines, removeExtraNewLines (src/utils.js:47-87)
  // ---------------------------------------------------------------------------

  /** The value with the new line added on each side when it is saved. */
  function WithNewLines(s: string): string
  {
    "\n" + s + "\n"
  }

  const EmptyTextHead: string :=
    "Cannot store empty / null / undefined string as a snapshot value.\n" +
    "Seems the value you are trying to store in a snapshot \""

  const EmptyTextTail: string :=
    "\"\n" +
    "is empty. Snapshots only work well if they have actual content\n" +
    "to store. Otherwise, why bother?"

  /** The message `exportText` throws for an empty text, naming the snapshot. */
  function EmptyTextMessage(name: string): string
  {
    EmptyTextHead + name + EmptyTextTail
  }

  /** The template literal holding the text: the text between new lines, between backticks. */
  function TextBody(s: string): string
  {
    "`" + WithNewLines(s) + "`"
  }

  /** The line `exportText` writes for a text `s`. */
  function ExportLine(name: string, s: string): string
  {
    "exports['" + name + ("'] = " + TextBody(s) + "\n")
  }

  lemma ExportLineHolds(name: string, s: string)
    ensures Infix(TextBody(s), ExportLine(name, s)) && Infix(name, ExportLine(name, s))
  {
    var body := TextBody(s);
    InfixOf("exports['", name, "'] = " + body + "\n");
    Assoc("exports['" + name, "'] = " + body, "\n");
    Assoc("exports['" + name, "'] = ", body);
    InfixOf("exports['" + name + "'] = ", body, "\n");
  }

  /** `exportText`: the line `exports['<name>'] = `<value with new lines>`` for a non-empty string. */
  function ExportText(name: string, value: Value): (r: Result<string, Error>)
    ensures name == "" ==> r.Err? && r.error.AssertionFailed?
    ensures name != "" && !(value.Str? && value.s != "") ==>
      r.Err? && r.error.EmptyTextSnapshot? && Infix(name, r.error.message)
    ensures r.Ok? <==> name != "" && value.Str? && value.s != ""
    ensures r.Ok? ==> Infix(TextBody(value.s), r.value) && Infix(name, r.value)
  {
    if name == "" then Err(AssertionFailed("expected snapshot name, got:"))
    else if !(value.Str? && value.s != "") then
      InfixOf(EmptyTextHead, name, EmptyTextTail);
      Err(EmptyTextSnapshot(EmptyTextMessage(name)))
    else
      ExportLineHolds(name, value.s);
      Ok(ExportLine(name, value.s))
  }

  /** `isSurroundedByNewLines`: a string of two or more characters opening and closing with a new line. */
  predicate IsSurroundedByNewLines(v: Value)
  {
    v.Str? && |v.s| > 1 && v.s[0] == '\n' && v.s[|v.s| - 1] == '\n'
  }

  /** What loading does to one stored value: a string between new lines loses them. */
  function Unwrapped(v: Value): (r: Value)
    ensures IsSurroundedByNewLines(v) ==> r.Str? && WithNewLines(r.s) == v.s
    ensures !IsSurroundedByNewLines(v) ==> r == v
  {
    if IsSurroundedByNewLines(v) then
      var s := v.s;
      assert s == [s[0]] + s[1..|s| - 1] + [s[|s| - 1]];
      Str(s[1..|s| - 1])
    else v
  }

  /** The whole table as `removeExtraNewLines` leaves it. */
  function UnwrapAll(snapshots: map<string, Value>): map<string, Value>
  {
    map key | key in snapshots :: Unwrapped(snapshots[key])
  }

  /**
    `removeExtraNewLines`: visits every key of the table and takes the surrounding new
    lines off each string value that has them.
  */
  method RemoveExtraNewLines(snapshots: map<string, Value>) returns (r: map<string, Value>)
    ensures r.Keys == snapshots.Keys
    ensures forall key | key in r :: r[key] == Unwrapped(snapshots[key])
  {
    r := snapshots;
    var pending := snapshots.Keys;
    while pending != {}
      invariant pending <= snapshots.Keys
      invariant r.Keys == snapshots.Keys
      invariant forall key | key in r ::
        r[key] == if key in pending then snapshots[key] else Unwrapped(snapshots[key])
      decreases pending
    {
      var key :| key in pending;
      var value := r[key];
      if IsSurroundedByNewLines(value) {
        r := r[key := Str(value.s[1..|value.s| - 1])];
      }
      pending := pending - {key};
    }
  }

  /** The method and the table function agree. */
  lemma UnwrapAllIsPointwise(snapshots: map<string, Value>, r: map<string, Value>)
    requires r.Keys == snapshots.Keys
    requires forall key | key in r :: r[key] == Unwrapped(snapshots[key])
    ensures r == UnwrapAll(snapshots)
  {
  }

  /**
    On the loaded table, unwrapping undoes the new lines that `exportText` put around a
    string, whatever the string.
  */
  lemma UnwrapWithNewLines(s: string)
    ensures Unwrapped(Str(WithNewLines(s))) == Str(s)
  {
    var t := WithNewLines(s);
    assert t[0] == '\n' && t[|t| - 1] == '\n';
    assert t[1..|t| - 1] == s;
  }

  /**
    The text round trip on the loaded table: a table whose string values are each wrapped
    in new lines unwraps back to the strings themselves.
  */
  lemma TextRoundTrip(texts: map<string, string>)
    ensures UnwrapAll(map key | key in texts :: Str(WithNewLines(texts[key]))) ==
      map key | key in texts :: Str(texts[key])
  {
    var saved := map key | key in texts :: Str(WithNewLines(texts[key]));
    forall key | key in texts
      ensures Unwrapped(saved[key]) == Str(texts[key])
    {
      UnwrapWithNewLines(texts[key]);
    }
  }

  /** A value that is not a string between new lines is loaded as it is. */
  lemma UnwrapKeepsOthers(snapshots: map<string, Value>, key: string)
    requires key in snapshots && !IsSurroundedByNewLines(snapshots[key])
    ensures UnwrapAll(snapshots)[key] == snapshots[key]
  {
  }
}
