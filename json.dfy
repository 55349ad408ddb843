/**
  JavaScript values as the snapshot engine handles them, and the two halves of the
  `JSON.parse(JSON.stringify(x))` round trip that `strip` and `compare` rely on.

  `Stringify` follows `JSON.stringify` without indentation: a function value on its own
  gives `undefined`, a function inside an array is written `null`, and an object member
  whose value is a function is left out. `ParseValue` reads back exactly the text that
  `Stringify` writes (no whitespace, no fractions or exponents).
*/
module Json {
  import opened Wrappers

  /**
    A JavaScript value. Numbers are integers; an object is the ordered list of its own
    enumerable members (the order `JSON.stringify` visits them in); `Fn(id)` is a
    function value, `id` standing for its identity.
  */
  datatype Value =
    | Null
    | Bool(b: bool)
    | Num(n: int)
    | Str(s: string)
    | Arr(items: seq<Value>)
    | Obj(members: seq<Member>)
    | Fn(id: nat)

  datatype Member = Member(key: string, val: Value)

  /** A value with no function anywhere inside it: everything of it survives JSON. */
  predicate Plain(v: Value)
  {
    match v
    case Fn(_) => false
    case Arr(items) => forall i | 0 <= i < |items| :: Plain(items[i])
    case Obj(ms) => forall i | 0 <= i < |ms| :: Plain(ms[i].val)
    case _ => true
  }

  // ---------------------------------------------------------------------------
  // Numbers as decimal text (also how a template literal renders an integer)
  // ---------------------------------------------------------------------------

  predicate IsDigit(c: char) { '0' <= c <= '9' }

  function DigitChar(d: nat): (c: char)
    requires d < 10
  {
    ('0' as int + d) as char
  }

  /** The decimal digits of `n`, without leading zeros. */
  function NatText(n: nat): (t: string)
    ensures |t| > 0
    ensures forall i | 0 <= i < |t| :: IsDigit(t[i])
  {
    if n < 10 then [DigitChar(n)] else NatText(n / 10) + [DigitChar(n % 10)]
  }

  function IntText(n: int): string
  {
    if n < 0 then "-" + NatText(-n) else NatText(n)
  }

  /** The number a run of decimal digits denotes. */
  function DigitsValue(ds: string): nat
    requires forall i | 0 <= i < |ds| :: IsDigit(ds[i])
  {
    if ds == [] then 0
    else
      assert IsDigit(ds[|ds| - 1]);
      DigitsValue(ds[..|ds| - 1]) * 10 + (ds[|ds| - 1] as int - '0' as int)
  }

  /** The length of the longest prefix of `s` made of decimal digits. */
  function DigitRun(s: string): (n: nat)
    ensures n <= |s|
    ensures forall i | 0 <= i < n :: IsDigit(s[i])
    ensures n < |s| ==> !IsDigit(s[n])
  {
    if s == [] || !IsDigit(s[0]) then 0 else 1 + DigitRun(s[1..])
  }

  // ---------------------------------------------------------------------------
  // String escaping
  // ---------------------------------------------------------------------------

  function HexDigit(d: nat): char
    requires d < 16
  {
    if d < 10 then ('0' as int + d) as char else ('a' as int + d - 10) as char
  }

  function HexValue(c: char): (r: Option<nat>)
    ensures r.Some? ==> r.value < 16
  {
    if '0' <= c <= '9' then Some(c as int - '0' as int)
    else if 'a' <= c <= 'f' then Some(c as int - 'a' as int + 10)
    else if 'A' <= c <= 'F' then Some(c as int - 'A' as int + 10)
    else None
  }

  /** How `JSON.stringify` writes one character inside a string literal. */
  function EscapeChar(c: char): string
  {
    if c == '"' then ['\\', '"']
    else if c == '\\' then ['\\', '\\']
    else if c as int == 8 then ['\\', 'b']
    else if c as int == 12 then ['\\', 'f']
    else if c == '\n' then ['\\', 'n']
    else if c == '\r' then ['\\', 'r']
    else if c == '\t' then ['\\', 't']
    else if c as int < 32 then ['\\', 'u', '0', '0', HexDigit(c as int / 16), HexDigit(c as int % 16)]
    else [c]
  }

  function Escape(s: string): string
  {
    if s == [] then [] else EscapeChar(s[0]) + Escape(s[1..])
  }

  function Quote(s: string): string
  {
    ['"'] + Escape(s) + ['"']
  }

  // ---------------------------------------------------------------------------
  // JSON.stringify
  // ---------------------------------------------------------------------------

  /**
    The text of `v` as an array element: a function there is written `null`.
    For any value that is not a function this is `JSON.stringify(v)`.
  */
  function Ser(v: Value): string
    decreases v
  {
    match v
    case Null => "null"
    case Bool(b) => if b then "true" else "false"
    case Num(n) => IntText(n)
    case Str(s) => Quote(s)
    case Arr(items) => "[" + SerItems(items) + "]"
    case Obj(ms) => "{" + SerMembers(ms) + "}"
    case Fn(_) => "null"
  }

  /** Comma-separated array elements. */
  function SerItems(items: seq<Value>): string
    decreases items
  {
    if items == [] then ""
    else Ser(items[0]) + (if |items| == 1 then "" else "," + SerItems(items[1..]))
  }

  /** Comma-separated object members, leaving out those whose value is a function. */
  function SerMembers(ms: seq<Member>): string
    decreases ms
  {
    if ms == [] then ""
    else if ms[0].val.Fn? then SerMembers(ms[1..])
    else
      var tail := SerMembers(ms[1..]);
      Quote(ms[0].key) + ":" + Ser(ms[0].val) + (if tail == "" then "" else "," + tail)
  }

  /** `JSON.stringify(v)`: `None` is the `undefined` it returns for a function. */
  function Stringify(v: Value): Option<string>
  {
    if v.Fn? then None else Some(Ser(v))
  }

  // ---------------------------------------------------------------------------
  // What JSON keeps of a value
  // ---------------------------------------------------------------------------

  /**
    What survives `JSON.parse(JSON.stringify(...))` of `v` in array position:
    functions in arrays become `null`, object members holding a function disappear.
  */
  function Visible(v: Value): Value
    decreases v
  {
    match v
    case Arr(items) => Arr(VisibleItems(items))
    case Obj(ms) => Obj(VisibleMembers(ms))
    case Fn(_) => Null
    case _ => v
  }

  function VisibleItems(items: seq<Value>): (r: seq<Value>)
    ensures |r| == |items|
    decreases items
  {
    if items == [] then [] else [Visible(items[0])] + VisibleItems(items[1..])
  }

  function VisibleMembers(ms: seq<Member>): seq<Member>
    decreases ms
  {
    if ms == [] then []
    else if ms[0].val.Fn? then VisibleMembers(ms[1..])
    else [Member(ms[0].key, Visible(ms[0].val))] + VisibleMembers(ms[1..])
  }

  // ---------------------------------------------------------------------------
  // JSON.parse, on the text JSON.stringify writes
  // ---------------------------------------------------------------------------

  /** Reads the fixed word `word` at the start of `s`. */
  function Literal(s: string, word: string, v: Value): (r: Option<(Value, string)>)
    requires word != ""
    ensures r.Some? ==> |r.value.1| < |s|
  {
    if |word| <= |s| && s[..|word|] == word then Some((v, s[|word|..])) else None
  }

  /** Reads a run of digits without a superfluous leading zero. */
  function ParseDigits(t: string): (r: Option<(nat, string)>)
    ensures r.Some? ==> |r.value.1| < |t|
  {
    var n := DigitRun(t);
    if n == 0 || (t[0] == '0' && n > 1) then None
    else Some((DigitsValue(t[..n]), t[n..]))
  }

  /** Reads an optionally signed integer. */
  function ParseNumber(s: string): (r: Option<(Value, string)>)
    ensures r.Some? ==> |r.value.1| < |s|
  {
    if |s| > 0 && s[0] == '-' then
      match ParseDigits(s[1..])
      case Some((mag, rest)) => Some((Num(-(mag as int)), rest))
      case None => None
    else
      match ParseDigits(s)
      case Some((mag, rest)) => Some((Num(mag), rest))
      case None => None
  }

  /** Reads the character that an escape sequence stands for; `t` follows the backslash. */
  function Unescape(t: string): (r: Option<(char, nat)>)
    ensures r.Some? ==> 1 <= r.value.1 <= |t|
  {
    if t == [] then None
    else if t[0] == '"' then Some(('"', 1))
    else if t[0] == '\\' then Some(('\\', 1))
    else if t[0] == '/' then Some(('/', 1))
    else if t[0] == 'b' then Some((8 as char, 1))
    else if t[0] == 'f' then Some((12 as char, 1))
    else if t[0] == 'n' then Some(('\n', 1))
    else if t[0] == 'r' then Some(('\r', 1))
    else if t[0] == 't' then Some(('\t', 1))
    else if t[0] == 'u' && |t| >= 5 then
      match (HexValue(t[1]), HexValue(t[2]), HexValue(t[3]), HexValue(t[4]))
      case (Some(a), Some(b), Some(c), Some(d)) =>
        var code := ((a * 16 + b) * 16 + c) * 16 + d;
        if code < 0xD800 || 0xE000 <= code then Some((code as char, 5)) else None
      case _ => None
    else None
  }

  function Prepend(c: char, r: Option<(string, string)>): Option<(string, string)>
  {
    match r
    case Some((str, rest)) => Some(([c] + str, rest))
    case None => None
  }

  /** Reads the body of a string literal up to and including its closing quote. */
  function ParseChars(s: string): (r: Option<(string, string)>)
    ensures r.Some? ==> |r.value.1| < |s|
    decreases |s|
  {
    if s == [] then None
    else if s[0] == '"' then Some(([], s[1..]))
    else if s[0] == '\\' then
      match Unescape(s[1..])
      case Some((c, n)) => Prepend(c, ParseChars(s[1 + n..]))
      case None => None
    else if s[0] as int < 32 then None
    else Prepend(s[0], ParseChars(s[1..]))
  }

  /** Reads one JSON value at the start of `s` and gives it with the text after it. */
  function ParseValue(s: string): (r: Option<(Value, string)>)
    ensures r.Some? ==> |r.value.1| < |s|
    decreases |s|, 1
  {
    if s == [] then None
    else if s[0] == 'n' then Literal(s, "null", Null)
    else if s[0] == 't' then Literal(s, "true", Bool(true))
    else if s[0] == 'f' then Literal(s, "false", Bool(false))
    else if s[0] == '-' || IsDigit(s[0]) then ParseNumber(s)
    else if s[0] == '"' then StrOf(ParseChars(s[1..]))
    else if s[0] == '[' then
      if |s| >= 2 && s[1] == ']' then Some((Arr([]), s[2..])) else ArrOf(ParseItems(s[1..]))
    else if s[0] == '{' then
      if |s| >= 2 && s[1] == '}' then Some((Obj([]), s[2..])) else ObjOf(ParseMembers(s[1..]))
    else None
  }

  function StrOf(r: Option<(string, string)>): Option<(Value, string)>
  {
    match r
    case Some((str, rest)) => Some((Str(str), rest))
    case None => None
  }

  function ArrOf(r: Option<(seq<Value>, string)>): Option<(Value, string)>
  {
    match r
    case Some((items, rest)) => Some((Arr(items), rest))
    case None => None
  }

  function ObjOf(r: Option<(seq<Member>, string)>): Option<(Value, string)>
  {
    match r
    case Some((ms, rest)) => Some((Obj(ms), rest))
    case None => None
  }

  function ConsItem(v: Value, r: Option<(seq<Value>, string)>): Option<(seq<Value>, string)>
  {
    match r
    case Some((vs, rest)) => Some(([v] + vs, rest))
    case None => None
  }

  /** Reads `v1,v2,...,vn]` (n >= 1). */
  function ParseItems(s: string): (r: Option<(seq<Value>, string)>)
    ensures r.Some? ==> |r.value.1| < |s|
    decreases |s|, 2
  {
    match ParseValue(s)
    case None => None
    case Some((v, rest)) =>
      if rest == [] then None
      else if rest[0] == ']' then Some(([v], rest[1..]))
      else if rest[0] == ',' then ConsItem(v, ParseItems(rest[1..]))
      else None
  }

  function ConsMember(m: Member, r: Option<(seq<Member>, string)>): Option<(seq<Member>, string)>
  {
    match r
    case Some((ms, rest)) => Some(([m] + ms, rest))
    case None => None
  }

  /** Reads `"k1":v1,...,"kn":vn}` (n >= 1). */
  function ParseMembers(s: string): (r: Option<(seq<Member>, string)>)
    ensures r.Some? ==> |r.value.1| < |s|
    decreases |s|, 2
  {
    if s == [] || s[0] != '"' then None
    else
      match ParseChars(s[1..])
      case None => None
      case Some((key, afterKey)) =>
        if afterKey == [] || afterKey[0] != ':' then None
        else
          match ParseValue(afterKey[1..])
          case None => None
          case Some((v, rest)) =>
            if rest == [] then None
            else if rest[0] == '}' then Some(([Member(key, v)], rest[1..]))
            else if rest[0] == ',' then ConsMember(Member(key, v), ParseMembers(rest[1..]))
            else None
  }

  /** `JSON.parse(text)`; `None` where it would throw. */
  function Parse(text: string): Option<Value>
  {
    match ParseValue(text)
    case Some((v, rest)) => if rest == [] then Some(v) else None
    case None => None
  }

  // ---------------------------------------------------------------------------
  // The round trip
  // ---------------------------------------------------------------------------

  /** Text after a token that cannot extend a number written just before it. */
  predicate EndsToken(rest: string)
  {
    rest == [] || !IsDigit(rest[0])
  }

  lemma {:induction false} DigitRunOfNatText(n: nat, rest: string)
    requires EndsToken(rest)
    ensures DigitRun(NatText(n) + rest) == |NatText(n)|
    decreases |NatText(n)|
  {
    var t := NatText(n);
    if |t| == 1 {
      assert (t + rest)[1..] == rest;
    } else {
      assert (t + rest)[1..] == t[1..] + rest;
      DigitRunAll(t[1..], rest);
    }
  }

  lemma {:induction false} DigitRunAll(t: string, rest: string)
    requires forall i | 0 <= i < |t| :: IsDigit(t[i])
    requires EndsToken(rest)
    ensures DigitRun(t + rest) == |t|
    decreases |t|
  {
    if t == [] {
      assert t + rest == rest;
    } else {
      assert (t + rest)[1..] == t[1..] + rest;
      DigitRunAll(t[1..], rest);
    }
  }

  lemma {:induction false} DigitsValueOfNatText(n: nat)
    ensures DigitsValue(NatText(n)) == n
  {
    if n >= 10 {
      var t := NatText(n);
      assert t[..|t| - 1] == NatText(n / 10);
      DigitsValueOfNatText(n / 10);
    }
  }

  lemma {:induction false} NatTextNoLeadingZero(n: nat)
    ensures NatText(n)[0] == '0' ==> n == 0
  {
    if n >= 10 {
      NatTextNoLeadingZero(n / 10);
    }
  }

  /** A natural number written by `NatText` reads back as the same number. */
  lemma {:induction false} ParseNatText(m: nat, rest: string)
    requires EndsToken(rest)
    ensures ParseDigits(NatText(m) + rest) == Some((m, rest))
  {
    var t := NatText(m);
    var s := t + rest;
    DigitRunOfNatText(m, rest);
    NatTextNoLeadingZero(m);
    assert s[0] == t[0];
    assert s[..|t|] == t;
    assert s[|t|..] == rest;
    DigitsValueOfNatText(m);
  }

  lemma ParseNumberNegative(s: string)
    requires s != [] && s[0] == '-'
    ensures ParseNumber(s) ==
      match ParseDigits(s[1..])
      case Some((mag, rest)) => Some((Num(-(mag as int)), rest))
      case None => None
  {
  }

  lemma ParseNumberUnsigned(s: string)
    requires s != [] && s[0] != '-'
    ensures ParseNumber(s) ==
      match ParseDigits(s)
      case Some((mag, rest)) => Some((Num(mag), rest))
      case None => None
  {
  }

  /** The text of a negative number: a minus sign, then the digits of its magnitude. */
  lemma NegativeText(m: nat, rest: string)
    ensures var s := "-" + NatText(m) + rest;
      s != [] && s[0] == '-' && s[1..] == NatText(m) + rest
  {
  }

  /** The text of a non-negative number opens with a digit. */
  lemma UnsignedText(m: nat, rest: string)
    ensures var s := NatText(m) + rest;
      s != [] && IsDigit(s[0]) && s[0] != '-'
  {
    assert (NatText(m) + rest)[0] == NatText(m)[0];
  }

  /** An integer written by `IntText` reads back as the same number. */
  lemma ParseIntText(n: int, rest: string)
    requires EndsToken(rest)
    ensures ParseNumber(IntText(n) + rest) == Some((Num(n), rest))
  {
    if n < 0 {
      NegativeText(-n, rest);
      ParseNatText(-n, rest);
      ParseNumberNegative("-" + NatText(-n) + rest);
    } else {
      UnsignedText(n, rest);
      ParseNatText(n, rest);
      ParseNumberUnsigned(NatText(n) + rest);
    }
  }

  lemma {:induction false} HexRoundTrip(d: nat)
    requires d < 16
    ensures HexValue(HexDigit(d)) == Some(d)
  {
  }

  lemma ParseCharsRaw(s: string)
    requires s != [] && s[0] != '"' && s[0] != '\\' && s[0] as int >= 32
    ensures ParseChars(s) == Prepend(s[0], ParseChars(s[1..]))
  {
  }

  lemma ParseCharsEscape(s: string, c: char, n: nat)
    requires s != [] && s[0] == '\\' && Unescape(s[1..]) == Some((c, n))
    ensures ParseChars(s) == Prepend(c, ParseChars(s[1 + n..]))
  {
  }

  /** The short escapes `\"`, `\\`, `\b`, `\f`, `\n`, `\r`, `\t` read back. */
  lemma UnescapeShort(c: char, t: string)
    requires |EscapeChar(c)| == 2
    ensures Unescape(EscapeChar(c)[1..] + t) == Some((c, 1))
  {
  }

  /** A `\u00XX` escape reads back. */
  lemma UnescapeUnicode(c: char, t: string)
    requires |EscapeChar(c)| > 2
    ensures Unescape(EscapeChar(c)[1..] + t) == Some((c, 5))
  {
    var x := c as int;
    assert x < 32;
    var u := EscapeChar(c)[1..] + t;
    HexRoundTrip(x / 16);
    HexRoundTrip(x % 16);
    assert u[..5] == ['u', '0', '0', HexDigit(x / 16), HexDigit(x % 16)];
    assert HexValue(u[1]) == Some(0) && HexValue(u[2]) == Some(0);
    assert HexValue(u[3]) == Some(x / 16) && HexValue(u[4]) == Some(x % 16);
  }

  /** One escaped character reads back as that character. */
  lemma {:induction false} ParseEscapeChar(c: char, t: string)
    ensures ParseChars(EscapeChar(c) + t) == Prepend(c, ParseChars(t))
  {
    var e := EscapeChar(c);
    var s := e + t;
    if |e| == 1 {
      assert s[0] == c && s[1..] == t;
      ParseCharsRaw(s);
    } else {
      assert s[1..] == e[1..] + t;
      if |e| == 2 {
        UnescapeShort(c, t);
      } else {
        UnescapeUnicode(c, t);
      }
      assert s[|e|..] == t;
      ParseCharsEscape(s, c, |e| - 1);
    }
  }

  /** A string written by `Escape` and closed by a quote reads back as itself. */
  lemma {:induction false} ParseEscaped(str: string, rest: string)
    ensures ParseChars(Escape(str) + ['"'] + rest) == Some((str, rest))
    decreases |str|
  {
    if str == [] {
      assert Escape(str) + ['"'] + rest == ['"'] + rest;
    } else {
      var t := Escape(str[1..]) + ['"'] + rest;
      assert Escape(str) + ['"'] + rest == EscapeChar(str[0]) + t;
      ParseEscapeChar(str[0], t);
      ParseEscaped(str[1..], rest);
      assert [str[0]] + str[1..] == str;
    }
  }

  /** The first character of a value's text opens that value: never a closing bracket. */
  lemma SerStart(v: Value)
    ensures |Ser(v)| > 0
    ensures Ser(v)[0] != ']' && Ser(v)[0] != '}'
  {
    match v
    case Num(n) =>
      if n < 0 { } else { assert IsDigit(NatText(n)[0]); }
    case _ =>
  }

  lemma {:induction false} SerMembersStart(ms: seq<Member>)
    ensures SerMembers(ms) != "" ==> SerMembers(ms)[0] == '"'
    decreases ms
  {
    if ms != [] && ms[0].val.Fn? {
      SerMembersStart(ms[1..]);
    }
  }

  lemma {:induction false} SerMembersEmpty(ms: seq<Member>)
    ensures SerMembers(ms) == "" <==> VisibleMembers(ms) == []
    decreases ms
  {
    if ms != [] {
      SerMembersEmpty(ms[1..]);
    }
  }

  lemma Assoc(a: string, b: string, c: string)
    ensures a + b + c == a + (b + c)
  {
  }

  // Steps of the parser, each stated on text already split where the step reads.

  lemma ParseValueLiteral(s: string, word: string, v: Value, rest: string)
    requires word == "null" || word == "true" || word == "false"
    requires v == (if word == "null" then Null else Bool(word == "true"))
    requires s == word + rest
    ensures ParseValue(s) == Some((v, rest))
  {
    assert s[0] == word[0];
    assert s[..|word|] == word && s[|word|..] == rest;
  }

  lemma ParseValueNumber(s: string)
    requires s != [] && (s[0] == '-' || IsDigit(s[0]))
    ensures ParseValue(s) == ParseNumber(s)
  {
  }

  lemma ParseValueString(s: string, str: string, rest: string)
    requires s != [] && s[0] == '"' && ParseChars(s[1..]) == Some((str, rest))
    ensures ParseValue(s) == Some((Str(str), rest))
  {
  }

  lemma ParseValueEmpty(s: string, open: char, close: char, v: Value)
    requires (open, close, v) == ('[', ']', Arr([])) || (open, close, v) == ('{', '}', Obj([]))
    requires |s| >= 2 && s[0] == open && s[1] == close
    ensures ParseValue(s) == Some((v, s[2..]))
  {
  }

  lemma ParseValueArray(s: string)
    requires |s| >= 2 && s[0] == '[' && s[1] != ']'
    ensures ParseValue(s) == ArrOf(ParseItems(s[1..]))
  {
  }

  lemma ParseValueObject(s: string)
    requires |s| >= 2 && s[0] == '{' && s[1] != '}'
    ensures ParseValue(s) == ObjOf(ParseMembers(s[1..]))
  {
  }

  lemma ParseItemsStep(s: string, v: Value, after: string)
    requires ParseValue(s) == Some((v, after))
    requires after != [] && (after[0] == ']' || after[0] == ',')
    ensures after[0] == ']' ==> ParseItems(s) == Some(([v], after[1..]))
    ensures after[0] == ',' ==> ParseItems(s) == ConsItem(v, ParseItems(after[1..]))
  {
  }

  lemma ParseMembersStep(s: string, key: string, afterKey: string, x: Value, after: string)
    requires s != [] && s[0] == '"' && ParseChars(s[1..]) == Some((key, afterKey))
    requires afterKey != [] && afterKey[0] == ':'
    requires ParseValue(afterKey[1..]) == Some((x, after))
    requires after != [] && (after[0] == '}' || after[0] == ',')
    ensures after[0] == '}' ==> ParseMembers(s) == Some(([Member(key, x)], after[1..]))
    ensures after[0] == ',' ==> ParseMembers(s) == ConsMember(Member(key, x), ParseMembers(after[1..]))
  {
  }

  // The round trip, value by value.

  lemma ParseSerString(str: string, rest: string)
    ensures ParseValue(Ser(Str(str)) + rest) == Some((Str(str), rest))
  {
    var s := Ser(Str(str)) + rest;
    assert s == ['"'] + (Escape(str) + ['"'] + rest);
    assert s[1..] == Escape(str) + ['"'] + rest;
    ParseEscaped(str, rest);
    ParseValueString(s, str, rest);
  }

  /** The text of a non-empty array: its opening bracket, then the first item's text. */
  lemma ArrayText(items: seq<Value>, rest: string)
    requires items != []
    ensures var s := Ser(Arr(items)) + rest;
      |s| >= 2 && s[0] == '[' && s[1] == Ser(items[0])[0] && s[1..] == SerItems(items) + "]" + rest
  {
    SerStart(items[0]);
  }

  /** The text of an object with a kept member: its opening brace, then a quote. */
  lemma ObjectText(ms: seq<Member>, rest: string)
    requires SerMembers(ms) != ""
    ensures var s := Ser(Obj(ms)) + rest;
      |s| >= 2 && s[0] == '{' && s[1] == '"' && s[1..] == SerMembers(ms) + "}" + rest
  {
    SerMembersStart(ms);
  }

  lemma ParseSerArray(items: seq<Value>, rest: string)
    requires items != []
    requires ParseItems(SerItems(items) + "]" + rest) == Some((VisibleItems(items), rest))
    ensures ParseValue(Ser(Arr(items)) + rest) == Some((Visible(Arr(items)), rest))
  {
    ArrayText(items, rest);
    SerStart(items[0]);
    ParseValueArray(Ser(Arr(items)) + rest);
  }

  lemma ParseSerObject(ms: seq<Member>, rest: string)
    requires SerMembers(ms) != ""
    requires ParseMembers(SerMembers(ms) + "}" + rest) == Some((VisibleMembers(ms), rest))
    ensures ParseValue(Ser(Obj(ms)) + rest) == Some((Visible(Obj(ms)), rest))
  {
    ObjectText(ms, rest);
    ParseValueObject(Ser(Obj(ms)) + rest);
  }

  /**
    The round trip behind `strip`: parsing the text of `v` gives back what JSON keeps of
    `v` and leaves the text after it untouched.
  */
  lemma {:induction false} ParseSer(v: Value, rest: string)
    requires EndsToken(rest)
    ensures ParseValue(Ser(v) + rest) == Some((Visible(v), rest))
    decreases v, 2
  {
    match v
    case Null =>
      ParseValueLiteral(Ser(v) + rest, "null", Null, rest);
    case Fn(_) =>
      ParseValueLiteral(Ser(v) + rest, "null", Null, rest);
    case Bool(b) =>
      ParseValueLiteral(Ser(v) + rest, if b then "true" else "false", v, rest);
    case Num(n) =>
      ParseIntText(n, rest);
      ParseValueNumber(Ser(v) + rest);
    case Str(str) =>
      ParseSerString(str, rest);
    case Arr(items) =>
      if items == [] {
        var s := Ser(v) + rest;
        assert SerItems(items) == "";
        assert s == "[]" + rest;
        assert s[2..] == rest;
        ParseValueEmpty(s, '[', ']', Arr([]));
      } else {
        ParseSerItems(items, rest);
        ParseSerArray(items, rest);
      }
    case Obj(ms) =>
      if SerMembers(ms) == "" {
        var s := Ser(v) + rest;
        SerMembersEmpty(ms);
        assert s == "{}" + rest;
        assert s[2..] == rest;
        ParseValueEmpty(s, '{', '}', Obj([]));
      } else {
        ParseSerMembers(ms, rest);
        ParseSerObject(ms, rest);
      }
  }

  /** The text of an item list: the first item's text, then a closing bracket or a comma. */
  lemma ItemsText(items: seq<Value>, rest: string)
    requires items != []
    ensures |items| == 1 ==> SerItems(items) + "]" + rest == Ser(items[0]) + ("]" + rest)
    ensures |items| > 1 ==>
      SerItems(items) + "]" + rest == Ser(items[0]) + ("," + (SerItems(items[1..]) + "]" + rest))
  {
    if |items| == 1 {
      SerItemsOne(items);
      Assoc(Ser(items[0]), "]", rest);
    } else {
      SerItemsMore(items);
      CommaText(Ser(items[0]), SerItems(items[1..]), "]", rest);
    }
  }

  lemma SerItemsOne(items: seq<Value>)
    requires |items| == 1
    ensures SerItems(items) == Ser(items[0])
  {
  }

  lemma SerItemsMore(items: seq<Value>)
    requires |items| > 1
    ensures SerItems(items) == Ser(items[0]) + ("," + SerItems(items[1..]))
  {
  }

  lemma CommaText(a: string, t: string, close: string, rest: string)
    ensures a + ("," + t) + close + rest == a + ("," + (t + close + rest))
  {
    Assoc(a, "," + t, close + rest);
    Assoc("," + t, close, rest);
    Assoc(",", t, close + rest);
    Assoc(t, close, rest);
  }

  lemma {:induction false} ParseSerItems(items: seq<Value>, rest: string)
    requires items != []
    ensures ParseItems(SerItems(items) + "]" + rest) == Some((VisibleItems(items), rest))
    decreases items, 1
  {
    ItemsText(items, rest);
    if |items| == 1 {
      var after := "]" + rest;
      ParseSer(items[0], after);
      ParseItemsStep(Ser(items[0]) + after, Visible(items[0]), after);
      assert after[1..] == rest;
      assert VisibleItems(items) == [Visible(items[0])];
    } else {
      var more := SerItems(items[1..]) + "]" + rest;
      var after := "," + more;
      ParseSer(items[0], after);
      ParseSerItems(items[1..], rest);
      ParseItemsStep(Ser(items[0]) + after, Visible(items[0]), after);
      assert after[1..] == more;
      assert VisibleItems(items) == [Visible(items[0])] + VisibleItems(items[1..]);
    }
  }

  /** The text of a kept first member: an opening quote, its key and the rest. */
  lemma KeptMemberText(ms: seq<Member>, rest: string, after: string)
    requires ms != [] && !ms[0].val.Fn?
    requires after == (if SerMembers(ms[1..]) == "" then "" else "," + SerMembers(ms[1..])) + "}" + rest
    ensures SerMembers(ms) + "}" + rest == ['"'] + (Escape(ms[0].key) + ['"'] + (":" + Ser(ms[0].val) + after))
  {
    var t := if SerMembers(ms[1..]) == "" then "" else "," + SerMembers(ms[1..]);
    SerMembersKept(ms);
    MemberTextAssoc(Escape(ms[0].key), Ser(ms[0].val), t, rest);
  }

  lemma SerMembersKept(ms: seq<Member>)
    requires ms != [] && !ms[0].val.Fn?
    ensures SerMembers(ms) == ['"'] + Escape(ms[0].key) + ['"'] + ":" + Ser(ms[0].val) +
      (if SerMembers(ms[1..]) == "" then "" else "," + SerMembers(ms[1..]))
  {
  }

  lemma MemberTextAssoc(q: string, v: string, t: string, rest: string)
    ensures ['"'] + q + ['"'] + ":" + v + t + "}" + rest == ['"'] + (q + ['"'] + (":" + v + (t + "}" + rest)))
  {
  }

  /** A member's text: an opening quote, the escaped key, a closing quote, a colon and the value. */
  lemma MemberKeyText(s: string, key: string, text: string, after: string)
    requires s == ['"'] + (Escape(key) + ['"'] + (":" + text + after))
    ensures var afterKey := ":" + text + after;
      s[0] == '"' && s[1..] == Escape(key) + ['"'] + afterKey &&
      afterKey[0] == ':' && afterKey[1..] == text + after
  {
  }

  /** The first member is kept and is the last one written. */
  lemma ParseLastKeptMember(ms: seq<Member>, rest: string)
    requires ms != [] && !ms[0].val.Fn? && SerMembers(ms[1..]) == ""
    ensures ParseMembers(SerMembers(ms) + "}" + rest) == Some((VisibleMembers(ms), rest))
    decreases ms, 0
  {
    var after := "}" + rest;
    var m := Member(ms[0].key, Visible(ms[0].val));
    assert "" + "}" + rest == after;
    ParseSer(ms[0].val, after);
    KeptMemberText(ms, rest, after);
    MemberKeyText(SerMembers(ms) + "}" + rest, ms[0].key, Ser(ms[0].val), after);
    ParseEscaped(ms[0].key, ":" + Ser(ms[0].val) + after);
    ParseMembersStep(SerMembers(ms) + "}" + rest, ms[0].key, ":" + Ser(ms[0].val) + after, Visible(ms[0].val), after);
    assert after[0] == '}' && after[1..] == rest;
    SerMembersEmpty(ms[1..]);
    assert VisibleMembers(ms) == [m] + [];
    assert [m] + [] == [m];
  }

  /** The first member is kept and more members follow it. */
  lemma ParseNextKeptMember(ms: seq<Member>, rest: string)
    requires ms != [] && !ms[0].val.Fn? && SerMembers(ms[1..]) != ""
    requires ParseMembers(SerMembers(ms[1..]) + "}" + rest) == Some((VisibleMembers(ms[1..]), rest))
    ensures ParseMembers(SerMembers(ms) + "}" + rest) == Some((VisibleMembers(ms), rest))
    decreases ms, 0
  {
    var more := SerMembers(ms[1..]) + "}" + rest;
    var after := "," + more;
    Assoc(",", SerMembers(ms[1..]) + "}", rest);
    Assoc(",", SerMembers(ms[1..]), "}");
    ParseSer(ms[0].val, after);
    KeptMemberText(ms, rest, after);
    MemberKeyText(SerMembers(ms) + "}" + rest, ms[0].key, Ser(ms[0].val), after);
    ParseEscaped(ms[0].key, ":" + Ser(ms[0].val) + after);
    ParseMembersStep(SerMembers(ms) + "}" + rest, ms[0].key, ":" + Ser(ms[0].val) + after, Visible(ms[0].val), after);
    assert after[0] == ',' && after[1..] == more;
    assert ParseMembers(more) == Some((VisibleMembers(ms[1..]), rest));
    assert VisibleMembers(ms) == [Member(ms[0].key, Visible(ms[0].val))] + VisibleMembers(ms[1..]);
  }

  lemma {:induction false} ParseSerMembers(ms: seq<Member>, rest: string)
    requires SerMembers(ms) != ""
    ensures ParseMembers(SerMembers(ms) + "}" + rest) == Some((VisibleMembers(ms), rest))
    decreases ms, 1
  {
    if ms[0].val.Fn? {
      ParseSerMembers(ms[1..], rest);
    } else if SerMembers(ms[1..]) == "" {
      ParseLastKeptMember(ms, rest);
    } else {
      ParseSerMembers(ms[1..], rest);
      ParseNextKeptMember(ms, rest);
    }
  }

  /** `JSON.parse(JSON.stringify(v))` for any value that is not itself a function. */
  lemma ParseStringify(v: Value)
    requires !v.Fn?
    ensures Parse(Ser(v)) == Some(Visible(v))
  {
    ParseSer(v, "");
    assert Ser(v) + "" == Ser(v);
  }

  /** JSON keeps all of a plain value. */
  lemma {:induction false} VisiblePlain(v: Value)
    requires Plain(v)
    ensures Visible(v) == v
    decreases v, 1
  {
    match v
    case Arr(items) => VisibleItemsPlain(items);
    case Obj(ms) => VisibleMembersPlain(ms);
    case _ =>
  }

  lemma {:induction false} VisibleItemsPlain(items: seq<Value>)
    requires forall i | 0 <= i < |items| :: Plain(items[i])
    ensures VisibleItems(items) == items
    decreases items, 0
  {
    if items != [] {
      VisiblePlain(items[0]);
      VisibleItemsPlain(items[1..]);
    }
  }

  lemma {:induction false} VisibleMembersPlain(ms: seq<Member>)
    requires forall i | 0 <= i < |ms| :: Plain(ms[i].val)
    ensures VisibleMembers(ms) == ms
    decreases ms, 0
  {
    if ms != [] {
      VisiblePlain(ms[0].val);
      VisibleMembersPlain(ms[1..]);
    }
  }

  /** Writing what JSON keeps of a value gives the same text as writing the value. */
  lemma {:induction false} SerVisible(v: Value)
    ensures Ser(Visible(v)) == Ser(v)
    decreases v, 1
  {
    match v
    case Arr(items) => SerVisibleItems(items);
    case Obj(ms) => SerVisibleMembers(ms);
    case _ =>
  }

  lemma {:induction false} SerVisibleItems(items: seq<Value>)
    ensures SerItems(VisibleItems(items)) == SerItems(items)
    decreases items, 0
  {
    if items != [] {
      SerVisible(items[0]);
      SerVisibleItems(items[1..]);
      assert VisibleItems(items)[0] == Visible(items[0]);
      assert VisibleItems(items)[1..] == VisibleItems(items[1..]);
    }
  }

  lemma {:induction false} SerVisibleMembers(ms: seq<Member>)
    ensures SerMembers(VisibleMembers(ms)) == SerMembers(ms)
    decreases ms, 0
  {
    if ms != [] {
      SerVisibleMembers(ms[1..]);
      if !ms[0].val.Fn? {
        SerVisible(ms[0].val);
        var vm := VisibleMembers(ms);
        assert vm[0] == Member(ms[0].key, Visible(ms[0].val));
        assert vm[1..] == VisibleMembers(ms[1..]);
        assert !Visible(ms[0].val).Fn?;
      }
    }
  }

  /**
    Two values that are not functions have the same JSON text exactly when JSON keeps
    the same of both (order of members included).
  */
  lemma SerEqualIff(a: Value, b: Value)
    requires !a.Fn? && !b.Fn?
    ensures Ser(a) == Ser(b) <==> Visible(a) == Visible(b)
  {
    ParseStringify(a);
    ParseStringify(b);
    SerVisible(a);
    SerVisible(b);
  }
}
