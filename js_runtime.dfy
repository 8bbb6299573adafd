/**
 * The JavaScript built-ins the editor relies on. `JSON.parse`, `JSON.stringify`,
 * `Number()` and `String(number)` are platform calls whose internals are not modelled:
 * they are the function-typed fields of a `Host`, and what the editor needs of them is
 * stated once, as the predicate `Faithful`, which lemmas take as a hypothesis. The
 * smaller built-ins (truthiness, array-index keys, `trim`, the indentation gap of
 * `JSON.stringify`) are defined here in full.
 */
module JsRuntime {
  import opened Wrappers
  import opened Types

  /** The third argument of `JSON.stringify`: absent, a number, or a string. */
  datatype Space = NoSpace | Count(n: int) | Text(s: string)

  /** The platform calls, as opaque functions, and the reals a JavaScript number holds
      exactly (the finite binary64 values). */
  datatype Host = Host(
    parse: string -> Result<JsonValue, string>,      // JSON.parse; Err carries e.message
    stringify: (JsonValue, Space) -> string,          // JSON.stringify(value, null, space)
    toNumber: string -> Option<real>,                 // Number(text); None when the result is NaN
    numberText: real -> string,                       // String(n)
    isDouble: real -> bool)                           // n is a finite binary64 value

  /** 2^53: every integer of at most this magnitude is a binary64 value. */
  const SafeIntegerBound: int := 0x20_0000_0000_0000

  /** What the model needs from the platform. Text that `stringify` laid out with a
      whitespace gap from a well-formed value whose numbers are doubles parses back to
      that value; the parser yields only such values and rejects the empty text;
      `Number` yields only doubles and reads back what `String` wrote for a double;
      small integers are doubles. */
  ghost predicate Faithful(h: Host) {
    && (forall v, sp :: WellFormed(v) && NumbersIn(v, h.isDouble) && WhitespaceGap(sp) ==> h.parse(h.stringify(v, sp)) == Ok(v))
    && (forall s :: h.parse(s).Ok? ==> WellFormed(h.parse(s).value) && NumbersIn(h.parse(s).value, h.isDouble))
    && h.parse("").Err?
    && (forall s :: h.toNumber(s).Some? ==> h.isDouble(h.toNumber(s).value))
    && (forall n :: h.isDouble(n) ==> h.toNumber(h.numberText(n)) == Some(n))
    && (forall n: real :: n == n.Floor as real && -SafeIntegerBound as real <= n <= SafeIntegerBound as real ==> h.isDouble(n))
  }

  predicate DistinctKeys(members: seq<Member>) {
    forall i, j :: 0 <= i < j < |members| ==> members[i].key != members[j].key
  }

  /** The order in which an object enumerates its own properties (section 10.1.11.1 of
      ECMA-262, OrdinaryOwnPropertyKeys): keys that are array indices come first, in
      ascending numeric order, and the other keys follow in creation order. */
  predicate IndexKeysFirst(members: seq<Member>) {
    forall i, j :: 0 <= i < j < |members| && ParseIndex(members[j].key).Some? ==>
      ParseIndex(members[i].key).Some? && ParseIndex(members[i].key).value < ParseIndex(members[j].key).value
  }

  /** What a value produced by the platform parser always satisfies: every object has
      distinct keys listed in enumeration order, and no array is longer than a
      JavaScript array can be. */
  predicate WellFormed(v: JsonValue) {
    match v
    case JArray(items) =>
      |items| <= MaxArrayLength && forall i :: 0 <= i < |items| ==> WellFormed(items[i])
    case JObject(members) =>
      && DistinctKeys(members) && IndexKeysFirst(members)
      && forall i :: 0 <= i < |members| ==> WellFormed(members[i].value)
    case _ => true
  }

  /** JSON whitespace: the characters `JSON.parse` skips between tokens. */
  predicate IsJsonWhitespace(c: char) {
    c == ' ' || c == '\t' || c == '\n' || c == '\r'
  }

  /** A `space` argument whose gap is JSON whitespace, so that the text it lays out
      still parses. A gap such as "x" makes the output unparseable. */
  predicate WhitespaceGap(sp: Space) {
    forall i :: 0 <= i < |Gap(sp)| ==> IsJsonWhitespace(Gap(sp)[i])
  }

  /** JavaScript truthiness of a parsed value: `null`, `false`, `0` and `""` are falsy;
      every array and object, even an empty one, is truthy. */
  predicate Truthy(v: JsonValue)
    ensures IsContainer(v) ==> Truthy(v)
  {
    match v
    case JNull => false
    case JBool(b) => b
    case JNumber(n) => n != 0.0
    case JString(s) => s != ""
    case _ => true
  }

  lemma FalsyValues(v: JsonValue)
    ensures !Truthy(v) <==> v == JNull || v == JBool(false) || v == JNumber(0.0) || v == JString("")
  {
  }

  // ---------------------------------------------------------------------------
  // Indentation gap of JSON.stringify (section 25.5.2 of ECMA-262, steps for `space`)

  function Repeat(c: char, n: nat): (r: string)
    ensures |r| == n && forall i :: 0 <= i < n ==> r[i] == c
  {
    if n == 0 then [] else Repeat(c, n - 1) + [c]
  }

  /** The string inserted once per nesting level: a number gives that many spaces
      (at most ten, none below one), a string gives its first ten characters, and no
      argument gives the empty gap, that is, output on a single line. */
  function Gap(space: Space): (g: string)
    ensures |g| <= 10
    ensures space.NoSpace? ==> g == ""
  {
    match space
    case NoSpace => ""
    case Count(n) => if n < 1 then "" else Repeat(' ', if n > 10 then 10 else n)
    case Text(s) => if |s| <= 10 then s else s[..10]
  }

  // ---------------------------------------------------------------------------
  // Array indices as property keys: `index.toString()` and the reverse lookup a
  // property access performs on an array.

  predicate IsDigit(c: char) {
    '0' <= c <= '9'
  }

  predicate AllDigits(s: string) {
    forall i :: 0 <= i < |s| ==> IsDigit(s[i])
  }

  function DigitChar(d: nat): (c: char)
    requires d < 10
    ensures IsDigit(c) && c as int - '0' as int == d
  {
    ('0' as int + d) as char
  }

  function DigitValue(c: char): nat
    requires IsDigit(c)
  {
    c as int - '0' as int
  }

  /** `n.toString()` for a non-negative integer: its decimal digits, without leading zeros. */
  function NatToString(n: nat): (s: string)
    ensures |s| >= 1 && AllDigits(s)
    ensures s[0] == '0' ==> n == 0 && s == "0"
    decreases n
  {
    if n < 10 then [DigitChar(n)] else NatToString(n / 10) + [DigitChar(n % 10)]
  }

  /** The number a string of decimal digits denotes. */
  function DecimalValue(s: string): nat
    requires AllDigits(s)
  {
    if s == [] then 0 else DecimalValue(s[..|s| - 1]) * 10 + DigitValue(s[|s| - 1])
  }

  /** The array index a property key denotes: a canonical decimal numeral (no sign, no
      leading zero) below 2^32 - 1. Any other key, such as "01" or "length", is not an index. */
  function ParseIndex(s: string): (r: Option<nat>)
    ensures r.Some? ==> r.value < MaxArrayLength && NatToString(r.value) == s
  {
    if s == [] || !AllDigits(s) || (|s| > 1 && s[0] == '0') then None
    else if DecimalValue(s) < MaxArrayLength then
      NatToStringOfDecimal(s);
      Some(DecimalValue(s))
    else None
  }

  lemma {:induction false} DecimalValueOfNatToString(n: nat)
    ensures DecimalValue(NatToString(n)) == n
    decreases n
  {
    if n >= 10 {
      DecimalValueOfNatToString(n / 10);
      var s := NatToString(n);
      assert s[..|s| - 1] == NatToString(n / 10);
    }
  }

  /** The key an array child is given is read back as that child's index. */
  lemma IndexRoundTrip(n: nat)
    requires n < MaxArrayLength
    ensures ParseIndex(NatToString(n)) == Some(n)
  {
    DecimalValueOfNatToString(n);
  }

  lemma {:induction false} LongNumeralValue(s: string)
    requires AllDigits(s) && |s| >= 2 && s[0] != '0'
    ensures DecimalValue(s) >= 10
    decreases |s|
  {
    var t := s[..|s| - 1];
    if |t| >= 2 {
      LongNumeralValue(t);
    } else {
      assert t == [s[0]];
      assert DecimalValue(t) == DigitValue(s[0]);
    }
  }

  lemma {:induction false} NatToStringOfDecimal(s: string)
    requires |s| >= 1 && AllDigits(s) && (|s| > 1 ==> s[0] != '0')
    ensures NatToString(DecimalValue(s)) == s
    decreases |s|
  {
    var t := s[..|s| - 1];
    var d := DigitValue(s[|s| - 1]);
    if |s| == 1 {
      assert t == [];
    } else {
      assert t[0] == s[0];
      NatToStringOfDecimal(t);
      LongNumeralValue(s);
      var n := DecimalValue(s);
      assert n == DecimalValue(t) * 10 + d;
      assert n / 10 == DecimalValue(t) && n % 10 == d;
      assert s == t + [s[|s| - 1]];
    }
  }

  // ---------------------------------------------------------------------------
  // String.prototype.trim

  /** WhiteSpace and LineTerminator code points (section 12.2 and 12.3 of ECMA-262). */
  predicate IsJsWhitespace(c: char) {
    || c == '\t' || c == '\n' || c == '\U{000B}' || c == '\U{000C}' || c == '\r'
    || c == ' ' || c == '\U{00A0}' || c == '\U{1680}' || ('\U{2000}' <= c <= '\U{200A}')
    || c == '\U{2028}' || c == '\U{2029}' || c == '\U{202F}' || c == '\U{205F}'
    || c == '\U{3000}' || c == '\U{FEFF}'
  }

  function TrimStart(s: string): (r: string)
    ensures |r| <= |s| && r == s[|s| - |r|..]
    ensures r == [] || !IsJsWhitespace(r[0])
    ensures forall i :: 0 <= i < |s| - |r| ==> IsJsWhitespace(s[i])
  {
    if s != [] && IsJsWhitespace(s[0]) then TrimStart(s[1..]) else s
  }

  function TrimEnd(s: string): (r: string)
    ensures |r| <= |s| && r == s[..|r|]
    ensures r == [] || !IsJsWhitespace(r[|r| - 1])
    ensures forall i :: |r| <= i < |s| ==> IsJsWhitespace(s[i])
  {
    if s != [] && IsJsWhitespace(s[|s| - 1]) then TrimEnd(s[..|s| - 1]) else s
  }

  /** `s.trim()`: the longest middle part of `s` that starts and ends with a
      non-whitespace character. */
  function Trim(s: string): (r: string)
    ensures |r| <= |s|
    ensures r == [] || (!IsJsWhitespace(r[0]) && !IsJsWhitespace(r[|r| - 1]))
  {
    TrimEnd(TrimStart(s))
  }

  /** `!s.trim()`, the blank-prompt test, holds exactly when every character is whitespace. */
  lemma BlankIffAllWhitespace(s: string)
    ensures Trim(s) == "" <==> forall i :: 0 <= i < |s| ==> IsJsWhitespace(s[i])
  {
    var t := TrimStart(s);
    if Trim(s) == "" {
      forall i | 0 <= i < |s| ensures IsJsWhitespace(s[i]) {
        if i >= |s| - |t| {
          assert s[i] == t[i - (|s| - |t|)];
        }
      }
    } else {
      var r := Trim(s);
      assert !IsJsWhitespace(r[0]);
      assert r[0] == t[0] == s[|s| - |t|];
    }
  }
}
