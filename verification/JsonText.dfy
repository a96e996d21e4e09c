/** JSON texts: the canonical writer and the parser (canonical.py; sections 2 and 7 of RFC 8259).

    Texts are sequences of Unicode scalar values, what UTF-8 decodes to. */
module JsonText {
  import opened Json
  import opened Outcomes

  // ---------- white space ----------

  predicate IsSpace(c: char) {
    c == ' ' || c == '\t' || c == '\r' || c == '\n'
  }

  predicate AllSpace(s: string) {
    forall i :: 0 <= i < |s| ==> IsSpace(s[i])
  }

  function SkipSpace(s: string): (r: string)
    ensures |r| <= |s|
    ensures r != [] ==> !IsSpace(r[0])
  {
    if s != [] && IsSpace(s[0]) then SkipSpace(s[1..]) else s
  }

  lemma {:induction false} SkipsSpace(w: string, s: string)
    requires AllSpace(w) && (s == [] || !IsSpace(s[0]))
    ensures SkipSpace(w + s) == s
  {
    if w == [] {
      assert w + s == s;
    } else {
      assert (w + s)[1..] == w[1..] + s;
      SkipsSpace(w[1..], s);
    }
  }

  // ---------- integers ----------

  predicate IsDigit(c: char) {
    '0' <= c <= '9'
  }

  function Digit(n: nat): (c: char)
    requires n < 10
    ensures IsDigit(c) && DigitValue(c) == n
  {
    ('0' as int + n) as char
  }

  function DigitValue(c: char): (n: nat)
    requires IsDigit(c)
    ensures n < 10
  {
    c as int - '0' as int
  }

  function Decimal(n: nat): (s: string)
    ensures s != [] && forall i :: 0 <= i < |s| ==> IsDigit(s[i])
  {
    if n < 10 then [Digit(n)] else Decimal(n / 10) + [Digit(n % 10)]
  }

  function NatOf(s: string): nat
    requires forall i :: 0 <= i < |s| ==> IsDigit(s[i])
  {
    if s == [] then 0 else 10 * NatOf(s[..|s| - 1]) + DigitValue(s[|s| - 1])
  }

  lemma {:induction false} DecimalRoundTrip(n: nat)
    ensures NatOf(Decimal(n)) == n
    ensures n > 0 ==> Decimal(n)[0] != '0'
  {
    if n >= 10 {
      DecimalRoundTrip(n / 10);
      var s := Decimal(n);
      assert s[..|s| - 1] == Decimal(n / 10);
    }
  }

  lemma {:induction false} LeadingZeros(zeros: string, digits: string)
    requires (forall i :: 0 <= i < |zeros| ==> zeros[i] == '0') && forall i :: 0 <= i < |digits| ==> IsDigit(digits[i])
    ensures NatOf(zeros + digits) == NatOf(digits)
  {
    if digits != [] {
      var n := |digits| - 1;
      assert (zeros + digits)[..|zeros + digits| - 1] == zeros + digits[..n];
      LeadingZeros(zeros, digits[..n]);
    } else if zeros != [] {
      var n := |zeros| - 1;
      assert (zeros + digits)[..|zeros + digits| - 1] == zeros[..n] + [];
      LeadingZeros(zeros[..n], []);
    }
  }

  function DigitCount(s: string): (n: nat)
    ensures n <= |s| && forall i :: 0 <= i < n ==> IsDigit(s[i])
    ensures n < |s| ==> !IsDigit(s[n])
  {
    if s == [] || !IsDigit(s[0]) then 0
    else
      assert forall i :: 1 <= i < |s| ==> s[i] == s[1..][i - 1];
      1 + DigitCount(s[1..])
  }

  function IntText(n: int): string {
    if n < 0 then "-" + Decimal(-n) else Decimal(n)
  }

  /** Where a number ends: no digit, fraction or exponent follows. */
  predicate Ends(rest: string) {
    rest == [] || !(IsDigit(rest[0]) || rest[0] == '.' || rest[0] == 'e' || rest[0] == 'E')
  }

  predicate HasFraction(s: string) {
    |s| >= 2 && s[0] == '.' && IsDigit(s[1])
  }

  predicate HasExponent(s: string) {
    && |s| >= 2 && (s[0] == 'e' || s[0] == 'E')
    && (IsDigit(s[1]) || (|s| >= 3 && (s[1] == '-' || s[1] == '+') && IsDigit(s[2])))
  }

  datatype Parsed<+T> = Parsed(value: T, rest: string)

  function Signed(n: int, negative: bool): int {
    if negative then -n else n
  }

  function ParseUnsigned(s: string, negative: bool): (r: Result<Parsed<Value>>)
    ensures r.Success? ==> |r.value.rest| < |s|
  {
    if s == [] || !IsDigit(s[0]) then Failure(JsonInvalid)
    else
      var n := if s[0] == '0' then 1 else DigitCount(s);
      var rest := s[n..];
      if HasFraction(rest) || HasExponent(rest) then Failure(JsonFloatForbidden)
      else Success(Parsed(Int(Signed(NatOf(s[..n]), negative)), rest))
  }

  function ParseNumber(s: string): (r: Result<Parsed<Value>>)
    ensures r.Success? ==> |r.value.rest| < |s|
  {
    if s != [] && s[0] == '-' then ParseUnsigned(s[1..], true) else ParseUnsigned(s, false)
  }

  // ---------- strings ----------

  function HexDigit(n: nat): (c: char)
    requires n < 16
    ensures IsHex(c) && HexValue(c) == n
  {
    if n < 10 then ('0' as int + n) as char else ('a' as int + n - 10) as char
  }

  predicate IsHex(c: char) {
    '0' <= c <= '9' || 'a' <= c <= 'f' || 'A' <= c <= 'F'
  }

  function HexValue(c: char): (n: nat)
    requires IsHex(c)
    ensures n < 16
  {
    if '0' <= c <= '9' then c as int - '0' as int
    else if 'a' <= c <= 'f' then c as int - 'a' as int + 10
    else c as int - 'A' as int + 10
  }

  predicate IsHex4(s: string) {
    |s| >= 4 && IsHex(s[0]) && IsHex(s[1]) && IsHex(s[2]) && IsHex(s[3])
  }

  function Hex4(s: string): (n: nat)
    requires IsHex4(s)
    ensures n < 0x1_0000
  {
    ((HexValue(s[0]) * 16 + HexValue(s[1])) * 16 + HexValue(s[2])) * 16 + HexValue(s[3])
  }

  /** How the writer spells a character inside a string. */
  function Escape(c: char): (s: string)
    ensures s != []
  {
    if c == '"' then "\\\""
    else if c == '\\' then "\\\\"
    else if c == '\n' then "\\n"
    else if c == '\r' then "\\r"
    else if c == '\t' then "\\t"
    else if c == 8 as char then "\\b"
    else if c == 12 as char then "\\f"
    else if c < ' ' then "\\u00" + [HexDigit(c as int / 16), HexDigit(c as int % 16)]
    else [c]
  }

  function EscapeAll(s: string): string {
    if s == [] then [] else Escape(s[0]) + EscapeAll(s[1..])
  }

  function Quote(s: string): string {
    "\"" + EscapeAll(s) + "\""
  }

  /** The character of a two-character escape. */
  function SimpleEscape(c: char): Result<char> {
    if c == '"' || c == '\\' || c == '/' then Success(c)
    else if c == 'b' then Success(8 as char)
    else if c == 'f' then Success(12 as char)
    else if c == 'n' then Success('\n')
    else if c == 'r' then Success('\r')
    else if c == 't' then Success('\t')
    else Failure(JsonInvalid)
  }

  /** What follows `\u`: four hexadecimal digits, or two groups for a surrogate pair.  A surrogate
      on its own has no UTF-8 form, so the value that holds it is never accepted. */
  function ParseUnicode(s: string): (r: Result<Parsed<char>>)
    ensures r.Success? ==> |r.value.rest| < |s|
  {
    if !IsHex4(s) then Failure(JsonInvalid)
    else
      var u := Hex4(s);
      if 0xD800 <= u < 0xDC00 then
        if |s| >= 6 && s[4] == '\\' && s[5] == 'u' && IsHex4(s[6..]) && 0xDC00 <= Hex4(s[6..]) < 0xE000 then
          Success(Parsed((0x1_0000 + (u - 0xD800) * 0x400 + (Hex4(s[6..]) - 0xDC00)) as char, s[10..]))
        else Failure(CanonicalInvalid)
      else if 0xDC00 <= u < 0xE000 then Failure(CanonicalInvalid)
      else Success(Parsed(u as char, s[4..]))
  }

  function ParseChar(s: string): (r: Result<Parsed<char>>)
    ensures r.Success? ==> |r.value.rest| < |s|
  {
    if s == [] || s[0] < ' ' then Failure(JsonInvalid)
    else if s[0] != '\\' then Success(Parsed(s[0], s[1..]))
    else if |s| < 2 then Failure(JsonInvalid)
    else if s[1] == 'u' then ParseUnicode(s[2..])
    else
      var c :- SimpleEscape(s[1]);
      Success(Parsed(c, s[2..]))
  }

  /** A string, after its opening quote. */
  function ParseString(s: string): (r: Result<Parsed<string>>)
    ensures r.Success? ==> |r.value.rest| < |s|
    decreases |s|
  {
    if s != [] && s[0] == '"' then Success(Parsed([], s[1..]))
    else
      var c :- ParseChar(s);
      var tail :- ParseString(c.rest);
      Success(Parsed([c.value] + tail.value, tail.rest))
  }

  // ---------- values ----------

  /** The compact text of a value: no white space, members as they stand. */
  function Text(v: Value): string
    decreases v
  {
    match v
    case Null => "null"
    case Bool(truth) => if truth then "true" else "false"
    case Int(n) => IntText(n)
    case Str(s) => Quote(s)
    case Arr(items) => "[" + ItemsText(items) + "]"
    case Obj(members) => "{" + MembersText(members) + "}"
  }

  function ItemsText(items: seq<Value>): string
    decreases items
  {
    if items == [] then ""
    else Text(items[0]) + if |items| == 1 then "" else "," + ItemsText(items[1..])
  }

  function MembersText(members: seq<Member>): string
    decreases members
  {
    if members == [] then ""
    else
      Quote(members[0].key) + ":" + Text(members[0].value)
        + if |members| == 1 then "" else "," + MembersText(members[1..])
  }

  predicate Starts(s: string, prefix: string) {
    |prefix| <= |s| && s[..|prefix|] == prefix
  }

  /** One JSON value at the start of s: `raw_decode` with the hooks of `parse_json_bytes`. */
  function ParseValue(s: string): (r: Result<Parsed<Value>>)
    ensures r.Success? ==> |r.value.rest| < |s|
    decreases |s|, 1
  {
    if s == [] then Failure(JsonInvalid)
    else if s[0] == '"' then
      var text :- ParseString(s[1..]);
      Success(Parsed(Str(text.value), text.rest))
    else if s[0] == '[' then
      var inside := SkipSpace(s[1..]);
      if inside != [] && inside[0] == ']' then Success(Parsed(Arr([]), inside[1..]))
      else
        var items :- ParseItems(inside);
        Success(Parsed(Arr(items.value), items.rest))
    else if s[0] == '{' then
      var inside := SkipSpace(s[1..]);
      if inside != [] && inside[0] == '}' then Success(Parsed(Obj([]), inside[1..]))
      else
        var members :- ParseMembers(inside);
        if DistinctKeys(members.value) then Success(Parsed(Obj(members.value), members.rest))
        else Failure(JsonDuplicateKey)
    else if Starts(s, "null") then Success(Parsed(Null, s[4..]))
    else if Starts(s, "true") then Success(Parsed(Bool(true), s[4..]))
    else if Starts(s, "false") then Success(Parsed(Bool(false), s[5..]))
    else if Starts(s, "NaN") || Starts(s, "Infinity") || Starts(s, "-Infinity") then Failure(JsonConstantForbidden)
    else ParseNumber(s)
  }

  /** The items of an array, up to and with its closing bracket. */
  function ParseItems(s: string): (r: Result<Parsed<seq<Value>>>)
    ensures r.Success? ==> |r.value.rest| < |s|
    decreases |s|, 2
  {
    var item :- ParseValue(s);
    var after := SkipSpace(item.rest);
    if after == [] then Failure(JsonInvalid)
    else if after[0] == ']' then Success(Parsed([item.value], after[1..]))
    else if after[0] != ',' then Failure(JsonInvalid)
    else
      var more :- ParseItems(SkipSpace(after[1..]));
      Success(Parsed([item.value] + more.value, more.rest))
  }

  /** The members of an object, up to and with its closing brace. */
  function ParseMembers(s: string): (r: Result<Parsed<seq<Member>>>)
    ensures r.Success? ==> |r.value.rest| < |s|
    decreases |s|, 2
  {
    if s == [] || s[0] != '"' then Failure(JsonInvalid)
    else
      var key :- ParseString(s[1..]);
      var colon := SkipSpace(key.rest);
      if colon == [] || colon[0] != ':' then Failure(JsonInvalid)
      else
        var item :- ParseValue(SkipSpace(colon[1..]));
        var member := Member(key.value, item.value);
        var after := SkipSpace(item.rest);
        if after == [] then Failure(JsonInvalid)
        else if after[0] == '}' then Success(Parsed([member], after[1..]))
        else if after[0] != ',' then Failure(JsonInvalid)
        else
          var more :- ParseMembers(SkipSpace(after[1..]));
          Success(Parsed([member] + more.value, more.rest))
  }
}
