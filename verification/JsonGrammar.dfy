/** The grammar of JSON texts without fractions and exponents (sections 2 to 7 of RFC 8259), and the
    proof that the parser accepts exactly the texts it derives.

    The grammar has a notation of its own for white space, words, digits and escapes.  Each of its
    definitions promises to agree with what the parser does.

    A spelling is a derivation: a value together with every choice the grammar leaves open, such as
    the white space in each gap, the escape of each character and the sign of zero. */
module JsonGrammar {
  import opened Json
  import opened JsonText
  import opened Outcomes

  /** One character of a string, as it is written. */
  datatype Glyph = Plain(c: char) | Short(letter: char) | Unicode(hex: string) | Pair(high: string, low: string)

  /** The gap of a list or dictionary follows its opening bracket; `after` precedes the comma or the
      closing bracket, and `next` follows the comma. */
  datatype Spelling =
    | Word(v: Value)
    | Number(negative: bool, digits: string)
    | Quoted(glyphs: seq<Glyph>)
    | List(gap: string, items: seq<Item>)
    | Dict(gap: string, entries: seq<Entry>)

  datatype Item = Item(item: Spelling, after: string, next: string)

  datatype Entry = Entry(key: seq<Glyph>, beforeColon: string, afterColon: string, item: Spelling, after: string, next: string)

  // ---------- notation ----------

  /** Space, tab, line feed and carriage return. */
  predicate IsGap(s: string): (b: bool)
    ensures b <==> AllSpace(s)
  {
    forall i :: 0 <= i < |s| ==> s[i] as int in {0x20, 0x09, 0x0A, 0x0D}
  }

  function WordText(v: Value): (s: string)
    requires v.Null? || v.Bool?
    ensures s == Text(v)
  {
    if v == Null then "null" else if v == Bool(true) then "true" else "false"
  }

  const DIGITS := "0123456789"

  predicate IsNumeral(s: string): (b: bool)
    ensures b <==> s != [] && (forall i :: 0 <= i < |s| ==> IsDigit(s[i])) && (s[0] == '0' ==> |s| == 1)
  {
    DigitList();
    hide DIGITS;
    s != [] && (forall i :: 0 <= i < |s| ==> s[i] in DIGITS) && (s[0] == '0' ==> |s| == 1)
  }

  lemma DigitList()
    ensures forall c :: c in DIGITS <==> IsDigit(c)
    ensures |DIGITS| == 10 && forall k :: 0 <= k < 10 ==> DIGITS[k] as int == 0x30 + k
  {
  }

  /** The digits in place value. */
  function NumeralValue(s: string): (n: nat)
    requires forall i :: 0 <= i < |s| ==> IsDigit(s[i])
    ensures n == NatOf(s)
  {
    if s == [] then 0
    else
      assert IsDigit(s[|s| - 1]);
      NumeralValue(s[..|s| - 1]) * 10 + (s[|s| - 1] as int - 0x30)
  }

  /** A digit to the base sixteen, in either case. */
  function HexPlace(c: char): (d: int)
    ensures (0 <= d < 16 <==> IsHex(c)) && (IsHex(c) ==> d == HexValue(c))
  {
    var code := c as int;
    if 0x30 <= code <= 0x39 then code - 0x30
    else if 0x61 <= code <= 0x66 then code - 0x57
    else if 0x41 <= code <= 0x46 then code - 0x37
    else -1
  }

  predicate IsHexText(s: string): (b: bool)
    ensures b <==> |s| == 4 && IsHex4(s)
  {
    |s| == 4 && forall i :: 0 <= i < 4 ==> 0 <= HexPlace(s[i]) < 16
  }

  function HexNumber(s: string): (n: nat)
    requires IsHexText(s)
    ensures n == Hex4(s)
  {
    0x1000 * HexPlace(s[0]) + 0x100 * HexPlace(s[1]) + 0x10 * HexPlace(s[2]) + HexPlace(s[3])
  }

  /** The letters of the short escapes with their code points. */
  const SHORT_ESCAPES: map<char, int> := map['"' := 0x22, '\\' := 0x5C, '/' := 0x2F, 'b' := 0x08, 'f' := 0x0C,
    'n' := 0x0A, 'r' := 0x0D, 't' := 0x09]

  lemma ShortEscapesAgree(c: char)
    ensures c in SHORT_ESCAPES <==> SimpleEscape(c).Success?
    ensures c in SHORT_ESCAPES ==> 0 <= SHORT_ESCAPES[c] < 0x80 && SimpleEscape(c).value as int == SHORT_ESCAPES[c]
  {
  }

  // ---------- strings ----------

  predicate IsLegalGlyph(g: Glyph) {
    match g
    case Plain(c) => c as int >= 0x20 && c != '"' && c != '\\'
    case Short(letter) => letter in SHORT_ESCAPES
    case Unicode(hex) => IsHexText(hex) && !(0xD800 <= HexNumber(hex) < 0xE000)
    case Pair(high, low) =>
      && IsHexText(high) && IsHexText(low)
      && 0xD800 <= HexNumber(high) < 0xDC00 && 0xDC00 <= HexNumber(low) < 0xE000
  }

  function GlyphChar(g: Glyph): char {
    if !IsLegalGlyph(g) then ' '
    else
      match g
      case Plain(c) => c
      case Short(letter) => ShortEscapesAgree(letter); SHORT_ESCAPES[letter] as char
      case Unicode(hex) => HexNumber(hex) as char
      case Pair(high, low) => (0x1_0000 + 0x400 * (HexNumber(high) - 0xD800) + (HexNumber(low) - 0xDC00)) as char
  }

  function GlyphText(g: Glyph): (s: string)
    ensures s != []
  {
    match g
    case Plain(c) => [c]
    case Short(letter) => ['\\', letter]
    case Unicode(hex) => ['\\', 'u'] + hex
    case Pair(high, low) => ['\\', 'u'] + high + ['\\', 'u'] + low
  }

  predicate AreLegalGlyphs(glyphs: seq<Glyph>) {
    forall i :: 0 <= i < |glyphs| ==> IsLegalGlyph(glyphs[i])
  }

  function Content(glyphs: seq<Glyph>): (s: string)
    ensures |s| == |glyphs|
  {
    seq(|glyphs|, i requires 0 <= i < |glyphs| => GlyphChar(glyphs[i]))
  }

  /** Glyphs, the closing quote and what follows. */
  function RenderGlyphs(glyphs: seq<Glyph>, rest: string): string {
    if glyphs == [] then "\"" + rest else GlyphText(glyphs[0]) + RenderGlyphs(glyphs[1..], rest)
  }

  lemma HexAtFront(hex: string, rest: string)
    requires |hex| == 4 && IsHex4(hex)
    ensures IsHex4(hex + rest) && Hex4(hex + rest) == Hex4(hex) && (hex + rest)[4..] == rest
  {
    assert (hex + rest)[..4] == hex;
  }

  lemma GlyphReads(g: Glyph, rest: string)
    requires IsLegalGlyph(g)
    ensures ParseChar(GlyphText(g) + rest) == Success(Parsed(GlyphChar(g), rest))
    ensures (GlyphText(g) + rest)[0] != '"'
  {
    hide Hex4, IsHex4;
    var s := GlyphText(g) + rest;
    match g
    case Plain(c) => assert s[1..] == rest;
    case Short(letter) =>
      ShortEscapesAgree(letter);
      assert s[2..] == rest;
    case Unicode(hex) =>
      HexAtFront(hex, rest);
      assert s[2..] == hex + rest;
    case Pair(high, low) => PairReads(high, low, rest);
  }

  lemma PairReads(high: string, low: string, rest: string)
    requires IsLegalGlyph(Pair(high, low))
    ensures ParseChar(GlyphText(Pair(high, low)) + rest) == Success(Parsed(GlyphChar(Pair(high, low)), rest))
    ensures (GlyphText(Pair(high, low)) + rest)[0] == '\\'
  {
    hide Hex4, IsHex4;
    var s, second := GlyphText(Pair(high, low)) + rest, ['\\', 'u'] + (low + rest);
    HexAtFront(high, second);
    HexAtFront(low, rest);
    var t := high + second;
    assert s[2..] == t;
    assert t[4] == '\\' && t[5] == 'u' && t[6..] == low + rest && t[10..] == rest;
  }

  lemma HexFound(s: string)
    requires IsHex4(s)
    ensures |s[..4]| == 4 && IsHex4(s[..4]) && Hex4(s[..4]) == Hex4(s) && s == s[..4] + s[4..]
  {
  }

  lemma GlyphFound(s: string) returns (g: Glyph)
    requires ParseChar(s).Success? && s[0] != '"'
    ensures IsLegalGlyph(g) && s == GlyphText(g) + ParseChar(s).value.rest && GlyphChar(g) == ParseChar(s).value.value
  {
    hide Hex4, IsHex4;
    if s[0] != '\\' {
      g := Plain(s[0]);
    } else if s[1] != 'u' {
      g := Short(s[1]);
      ShortEscapesAgree(s[1]);
    } else {
      var t := s[2..];
      HexFound(t);
      if 0xD800 <= Hex4(t) < 0xDC00 {
        HexFound(t[6..]);
        g := Pair(t[..4], t[6..][..4]);
        assert t[6..][4..] == t[10..];
        assert t[4..] == ['\\', 'u'] + t[6..];
      } else {
        g := Unicode(t[..4]);
      }
    }
  }

  lemma {:induction false} GlyphsRead(glyphs: seq<Glyph>, rest: string)
    requires AreLegalGlyphs(glyphs)
    ensures ParseString(RenderGlyphs(glyphs, rest)) == Success(Parsed(Content(glyphs), rest))
    decreases |glyphs|
  {
    hide IsLegalGlyph, GlyphText, GlyphChar, ParseChar;
    if glyphs != [] {
      GlyphReads(glyphs[0], RenderGlyphs(glyphs[1..], rest));
      GlyphsRead(glyphs[1..], rest);
      assert Content(glyphs) == [GlyphChar(glyphs[0])] + Content(glyphs[1..]);
    } else {
      assert RenderGlyphs(glyphs, rest) == "\"" + rest;
      assert Content(glyphs) == [];
    }
  }

  lemma {:induction false} GlyphsFound(s: string) returns (glyphs: seq<Glyph>)
    requires ParseString(s).Success?
    ensures AreLegalGlyphs(glyphs) && s == RenderGlyphs(glyphs, ParseString(s).value.rest)
    ensures Content(glyphs) == ParseString(s).value.value
    decreases |s|
  {
    hide IsLegalGlyph, GlyphText, GlyphChar, ParseChar;
    if s != [] && s[0] == '"' {
      glyphs := [];
    } else {
      assert s != [] by { CharNeedsText(s); }
      var g := GlyphFound(s);
      var more := GlyphsFound(ParseChar(s).value.rest);
      glyphs := [g] + more;
      assert glyphs[1..] == more;
      assert Content(glyphs) == [GlyphChar(g)] + Content(more);
    }
  }

  lemma CharNeedsText(s: string)
    ensures ParseChar(s).Success? ==> s != []
  {
  }

  // ---------- what escapes mean ----------

  /** The digit k to the base sixteen, in either case. */
  predicate SpellsHex(c: char, k: nat) {
    k < 16 && (c == "0123456789abcdef"[k] || c == "0123456789ABCDEF"[k])
  }

  /** The number in place value, each digit in either case. */
  predicate SpellsHex4(s: string, n: nat) {
    && |s| == 4 && n < 0x1_0000
    && SpellsHex(s[0], n / 4096) && SpellsHex(s[1], n / 256 % 16) && SpellsHex(s[2], n / 16 % 16) && SpellsHex(s[3], n % 16)
  }

  lemma HexIsPlace(c: char, k: nat)
    requires k < 16 && SpellsHex(c, k)
    ensures IsHex(c) && HexValue(c) == k && HexPlace(c) == k
  {
    assert "0123456789abcdef"[k] as int == if k < 10 then 0x30 + k else 0x57 + k;
    assert "0123456789ABCDEF"[k] as int == if k < 10 then 0x30 + k else 0x37 + k;
  }

  lemma PlacesAddUp(n: nat)
    requires n < 0x1_0000
    ensures n == 0x1000 * (n / 4096) + 0x100 * (n / 256 % 16) + 0x10 * (n / 16 % 16) + n % 16
  {
    assert n / 16 / 16 == n / 256 && n / 256 / 16 == n / 4096;
  }

  /** Four hexadecimal digits are read as the number they spell. */
  lemma HexReads(s: string, n: nat)
    requires SpellsHex4(s, n)
    ensures IsHexText(s) && HexNumber(s) == n
  {
    HexIsPlace(s[0], n / 4096);
    HexIsPlace(s[1], n / 256 % 16);
    HexIsPlace(s[2], n / 16 % 16);
    HexIsPlace(s[3], n % 16);
    PlacesAddUp(n);
  }

  /** A code point outside the surrogates is read from its four digits. */
  lemma UnicodeReads(s: string, n: nat, rest: string)
    requires SpellsHex4(s, n) && !(0xD800 <= n < 0xE000)
    ensures ParseChar(['\\', 'u'] + s + rest) == Success(Parsed(n as char, rest))
  {
    HexReads(s, n);
    hide HexNumber, IsHexText, SpellsHex4;
    GlyphReads(Unicode(s), rest);
  }

  /** A code point beyond them is read from its surrogate pair. */
  lemma PairOfReads(high: string, low: string, n: nat, rest: string)
    requires 0x1_0000 <= n < 0x11_0000
    requires SpellsHex4(high, 0xD800 + (n - 0x1_0000) / 0x400) && SpellsHex4(low, 0xDC00 + (n - 0x1_0000) % 0x400)
    ensures ParseChar(['\\', 'u'] + high + ['\\', 'u'] + low + rest) == Success(Parsed(n as char, rest))
  {
    var k := n - 0x1_0000;
    HexReads(high, 0xD800 + k / 0x400);
    HexReads(low, 0xDC00 + k % 0x400);
    hide HexNumber, IsHexText, SpellsHex4, ParseChar, ParseUnicode;
    PairValue(high, low, k);
    GlyphReads(Pair(high, low), rest);
  }

  lemma PairValue(high: string, low: string, k: nat)
    requires IsHexText(high) && IsHexText(low) && k < 0x10_0000
    requires HexNumber(high) == 0xD800 + k / 0x400 && HexNumber(low) == 0xDC00 + k % 0x400
    ensures IsLegalGlyph(Pair(high, low)) && GlyphChar(Pair(high, low)) == (0x1_0000 + k) as char
  {
    hide HexNumber, IsHexText;
    assert 0x400 * (k / 0x400) + k % 0x400 == k;
  }

  /** The short escapes. */
  lemma ShortReads(rest: string)
    ensures ParseChar(['\\', '"'] + rest) == Success(Parsed(0x22 as char, rest))
    ensures ParseChar(['\\', '\\'] + rest) == Success(Parsed(0x5C as char, rest))
    ensures ParseChar(['\\', '/'] + rest) == Success(Parsed(0x2F as char, rest))
    ensures ParseChar(['\\', 'b'] + rest) == Success(Parsed(0x08 as char, rest))
    ensures ParseChar(['\\', 'f'] + rest) == Success(Parsed(0x0C as char, rest))
    ensures ParseChar(['\\', 'n'] + rest) == Success(Parsed(0x0A as char, rest))
    ensures ParseChar(['\\', 'r'] + rest) == Success(Parsed(0x0D as char, rest))
    ensures ParseChar(['\\', 't'] + rest) == Success(Parsed(0x09 as char, rest))
  {
    forall letter | letter in SHORT_ESCAPES
      ensures 0 <= SHORT_ESCAPES[letter] < 0x80
      ensures ParseChar(['\\', letter] + rest) == Success(Parsed(SHORT_ESCAPES[letter] as char, rest))
    {
      ShortEscapesAgree(letter);
      GlyphReads(Short(letter), rest);
    }
  }

  // ---------- values ----------

  /** White space wherever the grammar has a gap, no leading zeros, legal escapes, distinct keys. */
  predicate IsLegal(t: Spelling) {
    match t
    case Word(v) => v.Null? || v.Bool?
    case Number(_, digits) => IsNumeral(digits)
    case Quoted(glyphs) => AreLegalGlyphs(glyphs)
    case List(gap, items) =>
      IsGap(gap) && forall i :: 0 <= i < |items| ==> IsLegal(items[i].item) && IsSpaced(items[i].after, items[i].next)
    case Dict(gap, entries) =>
      && IsGap(gap)
      && (forall i :: 0 <= i < |entries| ==> IsLegal(entries[i].item) && IsLegalEntry(entries[i]))
      && DistinctKeys(Members(entries))
  }

  predicate IsSpaced(after: string, next: string) {
    IsGap(after) && IsGap(next)
  }

  predicate IsLegalEntry(e: Entry) {
    AreLegalGlyphs(e.key) && IsSpaced(e.beforeColon, e.afterColon) && IsSpaced(e.after, e.next)
  }

  predicate AreLegalItems(items: seq<Item>) {
    forall i :: 0 <= i < |items| ==> IsLegal(items[i].item) && IsSpaced(items[i].after, items[i].next)
  }

  predicate AreLegalEntries(entries: seq<Entry>) {
    forall i :: 0 <= i < |entries| ==> IsLegal(entries[i].item) && IsLegalEntry(entries[i])
  }

  /** The value that is spelled. */
  function ValueOf(t: Spelling): Value
    decreases t
  {
    match t
    case Word(v) => v
    case Number(negative, digits) =>
      if !IsNumeral(digits) then Null
      else
        var n: int := NumeralValue(digits);
        Int(if negative then -n else n)
    case Quoted(glyphs) => Str(Content(glyphs))
    case List(_, items) => Arr(Values(items))
    case Dict(_, entries) => Obj(Members(entries))
  }

  function Values(items: seq<Item>): (r: seq<Value>)
    ensures |r| == |items| && forall i :: 0 <= i < |items| ==> r[i] == ValueOf(items[i].item)
    decreases items
  {
    if items == [] then [] else [ValueOf(items[0].item)] + Values(items[1..])
  }

  function Members(entries: seq<Entry>): (r: seq<Member>)
    ensures |r| == |entries|
    ensures forall i :: 0 <= i < |entries| ==> r[i] == Member(Content(entries[i].key), ValueOf(entries[i].item))
    decreases entries
  {
    if entries == [] then []
    else [Member(Content(entries[0].key), ValueOf(entries[0].item))] + Members(entries[1..])
  }

  // ---------- texts ----------

  /** The text of a spelling, and what follows it. */
  function Render(t: Spelling, rest: string): string
    decreases t
  {
    match t
    case Word(v) => (if v.Null? || v.Bool? then WordText(v) else []) + rest
    case Number(negative, digits) => (if negative then "-" else "") + (digits + rest)
    case Quoted(glyphs) => "\"" + RenderGlyphs(glyphs, rest)
    case List(gap, items) => "[" + (gap + RenderItems(items, rest))
    case Dict(gap, entries) => "{" + (gap + RenderEntries(entries, rest))
  }

  function RenderItems(items: seq<Item>, rest: string): string
    decreases items
  {
    if items == [] then "]" + rest
    else
      var tail := if |items| == 1 then "]" + rest else "," + (items[0].next + RenderItems(items[1..], rest));
      Render(items[0].item, items[0].after + tail)
  }

  function RenderEntries(entries: seq<Entry>, rest: string): string
    decreases entries
  {
    if entries == [] then "}" + rest
    else
      var e := entries[0];
      var tail := if |entries| == 1 then "}" + rest else "," + (e.next + RenderEntries(entries[1..], rest));
      "\"" + RenderGlyphs(e.key, e.beforeColon + (":" + (e.afterColon + Render(e.item, e.after + tail))))
  }

  lemma {:induction false} LegalIsWellFormed(t: Spelling)
    requires IsLegal(t)
    ensures WellFormed(ValueOf(t))
    decreases t
  {
    match t
    case Word(v) =>
    case Number(_, _) =>
    case Quoted(_) =>
    case List(_, items) =>
      forall i | 0 <= i < |items| ensures WellFormed(Values(items)[i]) {
        LegalIsWellFormed(items[i].item);
      }
    case Dict(_, entries) =>
      forall i | 0 <= i < |entries| ensures WellFormed(Members(entries)[i].value) {
        LegalIsWellFormed(entries[i].item);
      }
  }

  // ---------- the parser reads every spelling ----------

  lemma {:induction false} CountsDigits(s: string, rest: string)
    requires (forall i :: 0 <= i < |s| ==> IsDigit(s[i])) && (rest == [] || !IsDigit(rest[0]))
    ensures DigitCount(s + rest) == |s|
  {
    if s == [] {
      assert s + rest == rest;
    } else {
      assert (s + rest)[1..] == s[1..] + rest;
      CountsDigits(s[1..], rest);
    }
  }

  lemma UnsignedReads(digits: string, negative: bool, rest: string)
    requires IsNumeral(digits) && Ends(rest)
    ensures ParseUnsigned(digits + rest, negative) == Success(Parsed(Int(Signed(NatOf(digits), negative)), rest))
  {
    CountsDigits(digits, rest);
    var all := digits + rest;
    assert all[0] == digits[0];
    assert all[..|digits|] == digits && all[|digits|..] == rest;
  }

  lemma StartsLike(s: string, prefix: string)
    requires |prefix| >= 2
    ensures Starts(s, prefix) ==> |s| >= 2 && s[0] == prefix[0] && s[1] == prefix[1]
  {
    if Starts(s, prefix) {
      assert s[..|prefix|][0] == s[0] && s[..|prefix|][1] == s[1];
    }
  }

  lemma NumberIsNoWord(s: string)
    requires s != [] && (IsDigit(s[0]) || (s[0] == '-' && |s| >= 2 && IsDigit(s[1])))
    ensures !Starts(s, "null") && !Starts(s, "true") && !Starts(s, "false")
    ensures !Starts(s, "NaN") && !Starts(s, "Infinity") && !Starts(s, "-Infinity")
  {
    hide Starts;
    var words := ["null", "true", "false", "NaN", "Infinity", "-Infinity"];
    forall i | 0 <= i < |words| ensures |words[i]| >= 2
      ensures Starts(s, words[i]) ==> |s| >= 2 && s[0] == words[i][0] && s[1] == words[i][1]
    {
      StartsLike(s, words[i]);
    }
    assert !Starts(s, words[0]) && !Starts(s, words[1]) && !Starts(s, words[2]);
    assert !Starts(s, words[3]) && !Starts(s, words[4]) && !Starts(s, words[5]);
  }

  lemma NumberReads(negative: bool, digits: string, rest: string)
    requires IsNumeral(digits) && Ends(rest)
    ensures ParseValue(Render(Number(negative, digits), rest))
         == Success(Parsed(Int(Signed(NatOf(digits), negative)), rest))
  {
    hide ParseUnsigned, Starts, NatOf, ParseItems, ParseMembers, ParseString, SkipSpace;
    var s := Render(Number(negative, digits), rest);
    UnsignedReads(digits, negative, rest);
    if negative {
      assert s[0] == '-' && s[1..] == digits + rest && s[1] == digits[0];
    } else {
      assert s == digits + rest && s[0] == digits[0];
    }
    NumberIsNoWord(s);
  }

  lemma WordReads(v: Value, rest: string)
    requires v.Null? || v.Bool?
    ensures ParseValue(Text(v) + rest) == Success(Parsed(v, rest))
  {
    hide ParseNumber, ParseItems, ParseMembers, ParseString, SkipSpace;
    var s, n := Text(v) + rest, |Text(v)|;
    assert s[..n] == Text(v) && s[n..] == rest;
  }

  /** A value never begins with white space or a closing bracket. */
  lemma RenderOpens(t: Spelling, rest: string)
    requires IsLegal(t)
    ensures var s := Render(t, rest);
      s != [] && !IsSpace(s[0]) && s[0] != ']' && s[0] != '}'
  {
    hide RenderGlyphs, RenderItems, RenderEntries;
    if t.Number? {
      assert IsDigit(t.digits[0]);
    }
  }

  lemma SpaceBeforeMark(w: string, mark: char, rest: string)
    requires AllSpace(w) && mark in {',', ':', ']', '}'}
    ensures SkipSpace(w + ([mark] + rest)) == [mark] + rest
    ensures Ends(w + ([mark] + rest))
    ensures ([mark] + rest)[0] == mark && ([mark] + rest)[1..] == rest
  {
    SkipsSpace(w, [mark] + rest);
    assert w != [] ==> (w + ([mark] + rest))[0] == w[0];
  }

  lemma SpaceBeforeItems(gap: string, items: seq<Item>, rest: string)
    requires AllSpace(gap) && AreLegalItems(items)
    ensures SkipSpace(gap + RenderItems(items, rest)) == RenderItems(items, rest)
    ensures var s := RenderItems(items, rest);
      s != [] && if items == [] then s[0] == ']' && s[1..] == rest else s[0] != ']'
  {
    if items != [] {
      var tail := if |items| == 1 then "]" + rest else "," + (items[0].next + RenderItems(items[1..], rest));
      RenderOpens(items[0].item, items[0].after + tail);
    }
    hide Render, SkipSpace, IsLegal;
    SkipsSpace(gap, RenderItems(items, rest));
  }

  lemma SpaceBeforeEntries(gap: string, entries: seq<Entry>, rest: string)
    requires AllSpace(gap)
    ensures SkipSpace(gap + RenderEntries(entries, rest)) == RenderEntries(entries, rest)
    ensures var s := RenderEntries(entries, rest);
      s != [] && if entries == [] then s[0] == '}' && s[1..] == rest else s[0] == '"'
  {
    hide Render, SkipSpace, RenderGlyphs;
    SkipsSpace(gap, RenderEntries(entries, rest));
  }

  /** Every legal spelling is read as the value it spells, up to what follows it. */
  lemma {:induction false} SpellingReads(t: Spelling, rest: string)
    requires IsLegal(t) && Ends(rest)
    ensures ParseValue(Render(t, rest)) == Success(Parsed(ValueOf(t), rest))
    decreases t
  {
    hide ParseNumber, ParseItems, ParseMembers, ParseString, SkipSpace, Starts, RenderGlyphs, RenderItems, RenderEntries,
      AreLegalGlyphs, Content, Values, Members;
    match t
    case Word(v) => WordReads(v, rest);
    case Number(negative, digits) => NumberReads(negative, digits, rest);
    case Quoted(glyphs) => QuoteReads(glyphs, rest);
    case List(gap, items) =>
      if items != [] {
        ItemsRead(items, rest);
      }
      ListReads(gap, items, rest);
    case Dict(gap, entries) =>
      if entries != [] {
        EntriesRead(entries, rest);
      }
      DictReads(gap, entries, rest);
  }

  lemma QuoteReads(glyphs: seq<Glyph>, rest: string)
    requires AreLegalGlyphs(glyphs)
    ensures ParseValue(Render(Quoted(glyphs), rest)) == Success(Parsed(ValueOf(Quoted(glyphs)), rest))
  {
    hide ParseNumber, ParseItems, ParseMembers, SkipSpace, Starts, RenderGlyphs, AreLegalGlyphs, Content, ParseString;
    GlyphsRead(glyphs, rest);
  }

  lemma ListReads(gap: string, items: seq<Item>, rest: string)
    requires IsLegal(List(gap, items))
    requires items != [] ==> ParseItems(RenderItems(items, rest)) == Success(Parsed(Values(items), rest))
    ensures ParseValue(Render(List(gap, items), rest)) == Success(Parsed(ValueOf(List(gap, items)), rest))
  {
    hide ParseNumber, ParseItems, ParseMembers, ParseString, SkipSpace, Starts, RenderItems;
    SpaceBeforeItems(gap, items, rest);
  }

  lemma DictReads(gap: string, entries: seq<Entry>, rest: string)
    requires IsLegal(Dict(gap, entries))
    requires entries != [] ==> ParseMembers(RenderEntries(entries, rest)) == Success(Parsed(Members(entries), rest))
    ensures ParseValue(Render(Dict(gap, entries), rest)) == Success(Parsed(ValueOf(Dict(gap, entries)), rest))
  {
    hide ParseNumber, ParseItems, ParseMembers, ParseString, SkipSpace, Starts, RenderEntries;
    SpaceBeforeEntries(gap, entries, rest);
  }

  lemma {:induction false} ItemsRead(items: seq<Item>, rest: string)
    requires items != [] && AreLegalItems(items)
    ensures ParseItems(RenderItems(items, rest)) == Success(Parsed(Values(items), rest))
    decreases items
  {
    hide ParseValue, ParseItems, Render, SkipSpace, Ends, IsLegal, ValueOf;
    var first := items[0];
    if |items| == 1 {
      SpaceBeforeMark(first.after, ']', rest);
      SpellingReads(first.item, first.after + ("]" + rest));
      ItemFollows(RenderItems(items, rest), ValueOf(first.item), first.after + ("]" + rest), "]" + rest);
      assert Values(items) == [ValueOf(first.item)];
    } else {
      var more := RenderItems(items[1..], rest);
      SpaceBeforeMark(first.after, ',', first.next + more);
      SpellingReads(first.item, first.after + ("," + (first.next + more)));
      ItemFollows(RenderItems(items, rest), ValueOf(first.item), first.after + ("," + (first.next + more)),
        "," + (first.next + more));
      SpaceBeforeItems(first.next, items[1..], rest);
      ItemsRead(items[1..], rest);
    }
  }

  /** One round of `ParseItems`. */
  lemma ItemFollows(s: string, item: Value, spaced: string, after: string)
    requires ParseValue(s) == Success(Parsed(item, spaced)) && SkipSpace(spaced) == after && after != []
    ensures after[0] == ']' ==> ParseItems(s) == Success(Parsed([item], after[1..]))
    ensures after[0] == ',' ==>
      var more := ParseItems(SkipSpace(after[1..]));
      ParseItems(s) == if more.Success? then Success(Parsed([item] + more.value.value, more.value.rest)) else Failure(more.error)
  {
    hide ParseValue, SkipSpace;
  }

  lemma {:induction false} EntriesRead(entries: seq<Entry>, rest: string)
    requires entries != [] && AreLegalEntries(entries)
    ensures ParseMembers(RenderEntries(entries, rest)) == Success(Parsed(Members(entries), rest))
    decreases entries
  {
    hide ParseValue, ParseMembers, Render, SkipSpace, Ends, IsLegal, ValueOf, Content, RenderGlyphs;
    var e := entries[0];
    var m := Member(Content(e.key), ValueOf(e.item));
    if |entries| == 1 {
      SpaceBeforeMark(e.after, '}', rest);
      SpellingReads(e.item, e.after + ("}" + rest));
      EntryFollows(e, e.after + ("}" + rest), "}" + rest);
      assert Members(entries) == [m];
    } else {
      var more := RenderEntries(entries[1..], rest);
      SpaceBeforeMark(e.after, ',', e.next + more);
      SpellingReads(e.item, e.after + ("," + (e.next + more)));
      EntryFollows(e, e.after + ("," + (e.next + more)), "," + (e.next + more));
      SpaceBeforeEntries(e.next, entries[1..], rest);
      EntriesRead(entries[1..], rest);
    }
  }

  /** One round of `ParseMembers`. */
  lemma EntryFollows(e: Entry, spaced: string, after: string)
    requires IsLegal(e.item) && IsLegalEntry(e) && after != []
    requires ParseValue(Render(e.item, spaced)) == Success(Parsed(ValueOf(e.item), spaced)) && SkipSpace(spaced) == after
    ensures var s := "\"" + RenderGlyphs(e.key, e.beforeColon + (":" + (e.afterColon + Render(e.item, spaced))));
      var m := Member(Content(e.key), ValueOf(e.item));
      && (after[0] == '}' ==> ParseMembers(s) == Success(Parsed([m], after[1..])))
      && (after[0] == ',' ==>
        var more := ParseMembers(SkipSpace(after[1..]));
        ParseMembers(s) == if more.Success? then Success(Parsed([m] + more.value.value, more.value.rest)) else Failure(more.error))
  {
    var item := Render(e.item, spaced);
    RenderOpens(e.item, spaced);
    hide ParseValue, SkipSpace, ParseString, Render, RenderGlyphs, Content, ValueOf, IsLegal;
    SpaceBeforeMark(e.beforeColon, ':', e.afterColon + item);
    GlyphsRead(e.key, e.beforeColon + (":" + (e.afterColon + item)));
    SkipsSpace(e.afterColon, item);
  }

  // ---------- the parser reads nothing else ----------

  lemma {:induction false} GapFound(s: string) returns (gap: string)
    ensures AllSpace(gap) && s == gap + SkipSpace(s)
  {
    if s != [] && IsSpace(s[0]) {
      var more := GapFound(s[1..]);
      gap := [s[0]] + more;
    } else {
      gap := [];
    }
  }

  lemma UnsignedFound(s: string, negative: bool) returns (digits: string)
    requires ParseUnsigned(s, negative).Success?
    ensures IsNumeral(digits) && s == digits + ParseUnsigned(s, negative).value.rest
    ensures ParseUnsigned(s, negative).value.value == Int(Signed(NatOf(digits), negative))
  {
    hide NatOf, HasFraction, HasExponent;
    var n := if s[0] == '0' then 1 else DigitCount(s);
    digits := s[..n];
    assert n >= 1 && digits[0] == s[0];
    assert s == s[..n] + s[n..];
  }

  lemma NumberFound(s: string) returns (t: Spelling)
    requires ParseNumber(s).Success?
    ensures IsLegal(t) && s == Render(t, ParseNumber(s).value.rest) && ValueOf(t) == ParseNumber(s).value.value
  {
    hide ParseUnsigned, NatOf, IsNumeral, NumeralValue;
    var negative := s != [] && s[0] == '-';
    var digits := UnsignedFound(if negative then s[1..] else s, negative);
    t := Number(negative, digits);
    assert negative ==> s == "-" + s[1..];
    assert !negative ==> s == "" + s;
  }

  // ---------- what is no integer ----------

  /** A fraction or an exponent starts here: a mark, and a digit after it. */
  ghost predicate StartsFloat(tail: string) {
    exists sign, d, more :: IsFloatStart(tail, sign, d, more)
  }

  ghost predicate IsFloatStart(tail: string, sign: string, d: char, more: string) {
    && IsDigit(d)
    && (tail == "." + [d] + more
      || ((sign == "" || sign == "+" || sign == "-") && (tail == "e" + sign + [d] + more || tail == "E" + sign + [d] + more)))
  }

  lemma FloatStarts(tail: string)
    ensures HasFraction(tail) || HasExponent(tail) <==> StartsFloat(tail)
  {
    if HasFraction(tail) {
      assert tail == "." + [tail[1]] + tail[2..];
      assert IsFloatStart(tail, "", tail[1], tail[2..]);
    } else if HasExponent(tail) {
      if IsDigit(tail[1]) {
        assert tail == [tail[0]] + "" + [tail[1]] + tail[2..];
        assert IsFloatStart(tail, "", tail[1], tail[2..]);
      } else {
        assert tail == [tail[0]] + [tail[1]] + [tail[2]] + tail[3..];
        assert IsFloatStart(tail, [tail[1]], tail[2], tail[3..]);
      }
    }
  }

  ghost predicate IsFloat(s: string, digits: string, tail: string) {
    s == digits + tail && IsNumeral(digits) && StartsFloat(tail)
  }

  /** Numbers with a fraction or an exponent, and only those, are refused as such. */
  lemma FloatsMean(s: string, negative: bool)
    ensures ParseUnsigned(s, negative) == Failure(JsonFloatForbidden) <==> exists digits, tail :: IsFloat(s, digits, tail)
  {
    if s != [] && IsDigit(s[0]) {
      var n := if s[0] == '0' then 1 else DigitCount(s);
      assert s == s[..n] + s[n..];
      FloatStarts(s[n..]);
      assert IsNumeral(s[..n]);
      if StartsFloat(s[n..]) {
        assert IsFloat(s, s[..n], s[n..]);
      }
    }
    if digits, tail :| IsFloat(s, digits, tail) {
      FloatStarts(tail);
      CountsDigits(digits, tail);
      assert s[0] == digits[0] && s[..|digits|] == digits && s[|digits|..] == tail;
    }
  }

  lemma WordFound(s: string, v: Value)
    requires (v.Null? || v.Bool?) && Starts(s, Text(v))
    ensures s == Render(Word(v), s[|Text(v)|..])
  {
  }

  /** Whatever the parser accepts is spelled by the grammar, with the value it returns. */
  lemma {:induction false} SpellingFound(s: string) returns (t: Spelling)
    requires ParseValue(s).Success?
    ensures IsLegal(t) && s == Render(t, ParseValue(s).value.rest) && ValueOf(t) == ParseValue(s).value.value
    decreases |s|, 1
  {
    hide ParseNumber, ParseItems, ParseMembers, ParseString, SkipSpace, Starts, RenderGlyphs, RenderItems, RenderEntries,
      Content, Values, Members;
    assert s != [];
    if s[0] == '"' {
      var glyphs := GlyphsFound(s[1..]);
      t := Quoted(glyphs);
    } else if s[0] == '[' {
      t := ListFound(s);
    } else if s[0] == '{' {
      t := DictFound(s);
    } else if Starts(s, "null") {
      WordFound(s, Null);
      t := Word(Null);
    } else if Starts(s, "true") {
      WordFound(s, Bool(true));
      t := Word(Bool(true));
    } else if Starts(s, "false") {
      WordFound(s, Bool(false));
      t := Word(Bool(false));
    } else {
      t := NumberFound(s);
    }
  }

  lemma {:induction false} ListFound(s: string) returns (t: Spelling)
    requires s != [] && s[0] == '[' && ParseValue(s).Success?
    ensures IsLegal(t) && s == Render(t, ParseValue(s).value.rest) && ValueOf(t) == ParseValue(s).value.value
    decreases |s|, 0
  {
    hide ParseItems, SkipSpace;
    var inside := SkipSpace(s[1..]);
    var gap := GapFound(s[1..]);
    var rest := ParseValue(s).value.rest;
    if inside != [] && inside[0] == ']' {
      t := List(gap, []);
      assert inside == "]" + rest;
    } else {
      var items := ItemsFound(inside);
      t := List(gap, items);
    }
    assert s == "[" + s[1..];
  }

  lemma {:induction false} ItemsFound(s: string) returns (items: seq<Item>)
    requires ParseItems(s).Success?
    ensures items != [] && AreLegalItems(items)
    ensures s == RenderItems(items, ParseItems(s).value.rest) && Values(items) == ParseItems(s).value.value
    decreases |s|, 2
  {
    hide ParseValue, SkipSpace, IsLegal, Render, ValueOf;
    var item := ParseValue(s).value;
    var first := SpellingFound(s);
    var after := SkipSpace(item.rest);
    var gap := GapFound(item.rest);
    var rest := ParseItems(s).value.rest;
    if after[0] == ']' {
      items := [Item(first, gap, [])];
      assert after == "]" + rest;
      assert Values(items) == [item.value];
    } else {
      var next := GapFound(after[1..]);
      var more := ItemsFound(SkipSpace(after[1..]));
      items := [Item(first, gap, next)] + more;
      assert items[1..] == more;
      assert after == "," + (next + SkipSpace(after[1..]));
      assert Values(items) == [item.value] + Values(more);
    }
  }

  lemma {:induction false} DictFound(s: string) returns (t: Spelling)
    requires s != [] && s[0] == '{' && ParseValue(s).Success?
    ensures IsLegal(t) && s == Render(t, ParseValue(s).value.rest) && ValueOf(t) == ParseValue(s).value.value
    decreases |s|, 0
  {
    hide ParseMembers, SkipSpace;
    var inside := SkipSpace(s[1..]);
    var gap := GapFound(s[1..]);
    var rest := ParseValue(s).value.rest;
    if inside != [] && inside[0] == '}' {
      t := Dict(gap, []);
      assert inside == "}" + rest;
    } else {
      var entries := EntriesFound(inside);
      t := Dict(gap, entries);
    }
    assert s == "{" + s[1..];
  }

  lemma {:induction false} EntriesFound(s: string) returns (entries: seq<Entry>)
    requires ParseMembers(s).Success?
    ensures entries != [] && AreLegalEntries(entries)
    ensures s == RenderEntries(entries, ParseMembers(s).value.rest) && Members(entries) == ParseMembers(s).value.value
    decreases |s|, 2
  {
    hide ParseValue, SkipSpace, IsLegal, Render, ValueOf, ParseString, RenderGlyphs, Content;
    var key := ParseString(s[1..]).value;
    var glyphs := GlyphsFound(s[1..]);
    var colon := SkipSpace(key.rest);
    var beforeColon := GapFound(key.rest);
    var inner := SkipSpace(colon[1..]);
    var afterColon := GapFound(colon[1..]);
    var item := ParseValue(inner).value;
    var spelled := SpellingFound(inner);
    var after := SkipSpace(item.rest);
    var gap := GapFound(item.rest);
    var rest := ParseMembers(s).value.rest;
    assert s == "\"" + s[1..] && colon == ":" + (afterColon + inner);
    if after[0] == '}' {
      entries := [Entry(glyphs, beforeColon, afterColon, spelled, gap, [])];
      assert after == "}" + rest;
      assert Members(entries) == [Member(key.value, item.value)];
    } else {
      var next := GapFound(after[1..]);
      var more := EntriesFound(SkipSpace(after[1..]));
      entries := [Entry(glyphs, beforeColon, afterColon, spelled, gap, next)] + more;
      assert entries[1..] == more;
      assert after == "," + (next + SkipSpace(after[1..]));
      assert Members(entries) == [Member(key.value, item.value)] + Members(more);
    }
  }

  // ---------- the writer spells ----------

  /** The glyph that the writer chooses. */
  function GlyphOf(c: char): Glyph {
    if c == '"' || c == '\\' then Short(c)
    else if c == '\n' then Short('n')
    else if c == '\r' then Short('r')
    else if c == '\t' then Short('t')
    else if c == 8 as char then Short('b')
    else if c == 12 as char then Short('f')
    else if c < ' ' then Unicode("00" + [HexDigit(c as int / 16), HexDigit(c as int % 16)])
    else Plain(c)
  }

  function GlyphsOf(s: string): (glyphs: seq<Glyph>)
    ensures |glyphs| == |s|
  {
    if s == [] then [] else [GlyphOf(s[0])] + GlyphsOf(s[1..])
  }

  /** The spelling that the writer chooses: no white space, the shortest escapes. */
  function SpellingOf(v: Value): Spelling
    decreases v
  {
    match v
    case Null => Word(v)
    case Bool(_) => Word(v)
    case Int(n) => if n < 0 then Number(true, Decimal(-n)) else Number(false, Decimal(n))
    case Str(s) => Quoted(GlyphsOf(s))
    case Arr(items) => List("", ItemsOf(items))
    case Obj(members) => Dict("", EntriesOf(members))
  }

  function ItemsOf(items: seq<Value>): (r: seq<Item>)
    ensures |r| == |items| && forall i :: 0 <= i < |items| ==> r[i] == Item(SpellingOf(items[i]), "", "")
    decreases items
  {
    if items == [] then [] else [Item(SpellingOf(items[0]), "", "")] + ItemsOf(items[1..])
  }

  function EntriesOf(members: seq<Member>): (r: seq<Entry>)
    ensures |r| == |members|
    ensures forall i :: 0 <= i < |members| ==>
      r[i] == Entry(GlyphsOf(members[i].key), "", "", SpellingOf(members[i].value), "", "")
    decreases members
  {
    if members == [] then []
    else [Entry(GlyphsOf(members[0].key), "", "", SpellingOf(members[0].value), "", "")] + EntriesOf(members[1..])
  }

  lemma ControlGlyph(c: char)
    requires c < ' '
    ensures var hex := "00" + [HexDigit(c as int / 16), HexDigit(c as int % 16)];
      |hex| == 4 && IsHex4(hex) && Hex4(hex) == c as int
  {
    var n := c as int;
    var hex := "00" + [HexDigit(n / 16), HexDigit(n % 16)];
    hide HexDigit;
    assert hex[0] == '0' && hex[1] == '0' && hex[2] == HexDigit(n / 16) && hex[3] == HexDigit(n % 16);
    assert Hex4(hex) == n / 16 * 16 + n % 16 == n;
  }

  lemma GlyphSpells(c: char)
    ensures IsLegalGlyph(GlyphOf(c)) && GlyphChar(GlyphOf(c)) == c && GlyphText(GlyphOf(c)) == Escape(c)
  {
    hide HexDigit, Hex4, IsHex4;
    if c < ' ' {
      ControlGlyph(c);
      assert ['\\', 'u'] + ("00" + [HexDigit(c as int / 16), HexDigit(c as int % 16)])
        == "\\u00" + [HexDigit(c as int / 16), HexDigit(c as int % 16)];
    }
  }

  lemma {:induction false} GlyphsSpell(s: string, rest: string)
    ensures AreLegalGlyphs(GlyphsOf(s)) && Content(GlyphsOf(s)) == s
    ensures RenderGlyphs(GlyphsOf(s), rest) == EscapeAll(s) + ("\"" + rest)
  {
    hide GlyphOf, IsLegalGlyph, GlyphChar, GlyphText, Escape;
    if s != [] {
      hide AreLegalGlyphs, Content, RenderGlyphs, EscapeAll, GlyphsOf;
      GlyphSpells(s[0]);
      GlyphsSpell(s[1..], rest);
      GlyphsOfSplits(s);
      GlyphsJoin(GlyphOf(s[0]), GlyphsOf(s[1..]), rest);
      EscapesSplit(s);
      assert s == [s[0]] + s[1..];
    }
  }

  lemma GlyphsOfSplits(s: string)
    requires s != []
    ensures GlyphsOf(s) == [GlyphOf(s[0])] + GlyphsOf(s[1..])
  {
    hide GlyphOf;
  }

  lemma EscapesSplit(s: string)
    requires s != []
    ensures EscapeAll(s) == Escape(s[0]) + EscapeAll(s[1..])
  {
    hide Escape;
  }

  lemma GlyphsJoin(g: Glyph, glyphs: seq<Glyph>, rest: string)
    ensures AreLegalGlyphs([g] + glyphs) <==> IsLegalGlyph(g) && AreLegalGlyphs(glyphs)
    ensures Content([g] + glyphs) == [GlyphChar(g)] + Content(glyphs)
    ensures RenderGlyphs([g] + glyphs, rest) == GlyphText(g) + RenderGlyphs(glyphs, rest)
  {
    hide IsLegalGlyph, GlyphChar, GlyphText;
    var all := [g] + glyphs;
    assert all[1..] == glyphs && all[0] == g;
    assert forall i :: 0 <= i < |glyphs| ==> all[i + 1] == glyphs[i];
    if AreLegalGlyphs(all) {
      forall i | 0 <= i < |glyphs| ensures IsLegalGlyph(glyphs[i]) {
        assert IsLegalGlyph(all[i + 1]);
      }
    }
  }

  lemma NumberSpells(n: nat)
    ensures IsNumeral(Decimal(n)) && NumeralValue(Decimal(n)) == n
  {
    DecimalRoundTrip(n);
  }

  lemma NoGap()
    ensures IsGap("")
  {
  }

  lemma {:induction false} WriterSpells(v: Value)
    requires WellFormed(v)
    ensures IsLegal(SpellingOf(v)) && ValueOf(SpellingOf(v)) == v
    decreases v
  {
    NoGap();
    hide IsGap, NumeralValue, IsNumeral, Decimal, NatOf, AreLegalGlyphs, Content, GlyphsOf;
    match v
    case Null =>
    case Bool(_) =>
    case Int(n) => NumberSpells(if n < 0 then -n else n);
    case Str(s) => GlyphsSpell(s, "");
    case Arr(items) =>
      forall i | 0 <= i < |items| ensures IsLegal(SpellingOf(items[i])) && ValueOf(SpellingOf(items[i])) == items[i] {
        WriterSpells(items[i]);
      }
      assert Values(ItemsOf(items)) == items;
    case Obj(members) =>
      forall i | 0 <= i < |members|
        ensures IsLegal(SpellingOf(members[i].value)) && ValueOf(SpellingOf(members[i].value)) == members[i].value
        ensures AreLegalGlyphs(GlyphsOf(members[i].key)) && Content(GlyphsOf(members[i].key)) == members[i].key
      {
        WriterSpells(members[i].value);
        GlyphsSpell(members[i].key, "");
      }
      assert Members(EntriesOf(members)) == members;
  }

  lemma {:induction false} WriterRenders(v: Value, rest: string)
    ensures Render(SpellingOf(v), rest) == Text(v) + rest
    decreases v
  {
    hide RenderItems, RenderEntries, ItemsText, MembersText, RenderGlyphs, EscapeAll, Decimal;
    match v
    case Null =>
    case Bool(_) =>
    case Int(n) =>
    case Str(s) => GlyphsSpell(s, rest);
    case Arr(items) => WriterRendersItems(items, rest);
    case Obj(members) => WriterRendersMembers(members, rest);
  }

  lemma {:induction false} WriterRendersItems(items: seq<Value>, rest: string)
    ensures RenderItems(ItemsOf(items), rest) == ItemsText(items) + ("]" + rest)
    decreases items
  {
    if items != [] {
      var r := ItemsOf(items);
      assert r[1..] == ItemsOf(items[1..]);
      var tail := if |items| == 1 then "]" + rest else "," + ("" + RenderItems(r[1..], rest));
      WriterRenders(items[0], "" + tail);
      hide Render, Text;
      if |items| > 1 {
        WriterRendersItems(items[1..], rest);
        assert "" + RenderItems(r[1..], rest) == RenderItems(r[1..], rest);
      }
      assert "" + tail == tail;
    }
  }

  lemma {:induction false} WriterRendersMembers(members: seq<Member>, rest: string)
    ensures RenderEntries(EntriesOf(members), rest) == MembersText(members) + ("}" + rest)
    decreases members
  {
    if members != [] {
      var r, m := EntriesOf(members), members[0];
      assert r[1..] == EntriesOf(members[1..]);
      var more := if |members| == 1 then "" else "," + MembersText(members[1..]);
      var tail := if |members| == 1 then "}" + rest else "," + RenderEntries(r[1..], rest);
      if |members| > 1 {
        WriterRendersMembers(members[1..], rest);
      }
      hide MembersText;
      assert tail == more + ("}" + rest);
      WriterRenders(m.value, tail);
      hide Render, Text, EscapeAll, RenderGlyphs;
      EntryRenders(r, rest, tail);
      GlyphsSpell(m.key, ":" + (Text(m.value) + tail));
      Regroup(EscapeAll(m.key), Text(m.value), more, "}" + rest);
      MembersTextIs(members, more);
    } else {
      assert MembersText(members) + ("}" + rest) == "}" + rest;
    }
  }

  lemma EntryRenders(entries: seq<Entry>, rest: string, tail: string)
    requires entries != []
    requires entries[0].beforeColon == entries[0].afterColon == entries[0].after == entries[0].next == ""
    requires tail == if |entries| == 1 then "}" + rest else "," + RenderEntries(entries[1..], rest)
    ensures RenderEntries(entries, rest)
         == "\"" + RenderGlyphs(entries[0].key, ":" + Render(entries[0].item, tail))
  {
    hide Render, RenderGlyphs;
    var e := entries[0];
    assert |entries| > 1 ==> "" + RenderEntries(entries[1..], rest) == RenderEntries(entries[1..], rest);
    assert "" + tail == tail;
    var item := Render(e.item, tail);
    assert "" + item == item;
    assert "" + (":" + item) == ":" + item;
  }

  lemma MembersTextIs(members: seq<Member>, more: string)
    requires members != [] && more == if |members| == 1 then "" else "," + MembersText(members[1..])
    ensures MembersText(members) == "\"" + EscapeAll(members[0].key) + "\"" + ":" + Text(members[0].value) + more
  {
    hide Text, EscapeAll;
  }

  lemma Regroup(key: string, text: string, more: string, rest: string)
    ensures "\"" + key + "\"" + ":" + text + more + rest == "\"" + (key + ("\"" + (":" + (text + (more + rest)))))
  {
  }

  // ---------- the escapes that the writer chooses ----------

  /** Every character is written as it is if that is legal, by a short escape if there is one, and else
      by its four digits in lower case; the solidus, which needs no escape, gets none. */
  lemma WriterChooses(c: char)
    ensures IsLegalGlyph(Plain(c)) ==> Escape(c) == [c]
    ensures forall letter :: letter in SHORT_ESCAPES && SHORT_ESCAPES[letter] == c as int && !IsLegalGlyph(Plain(c)) ==>
      Escape(c) == ['\\', letter]
    ensures !IsLegalGlyph(Plain(c)) && (forall letter :: letter in SHORT_ESCAPES ==> SHORT_ESCAPES[letter] != c as int) ==>
      && |Escape(c)| == 6 && Escape(c)[..2] == ['\\', 'u'] && SpellsHex4(Escape(c)[2..], c as int)
      && forall i :: 2 <= i < 6 ==> Escape(c)[i] in "0123456789abcdef"
  {
    if !IsLegalGlyph(Plain(c)) && (forall letter :: letter in SHORT_ESCAPES ==> SHORT_ESCAPES[letter] != c as int) {
      assert '"' in SHORT_ESCAPES && '\\' in SHORT_ESCAPES && 'b' in SHORT_ESCAPES && 'f' in SHORT_ESCAPES;
      assert 'n' in SHORT_ESCAPES && 'r' in SHORT_ESCAPES && 't' in SHORT_ESCAPES;
      assert c < ' ' && Escape(c) == "\\u00" + [HexDigit(c as int / 16), HexDigit(c as int % 16)];
      LongEscape(c, Escape(c));
    }
  }

  lemma LongEscape(c: char, s: string)
    requires c < ' ' && s == "\\u00" + [HexDigit(c as int / 16), HexDigit(c as int % 16)]
    ensures |s| == 6 && s[..2] == ['\\', 'u'] && SpellsHex4(s[2..], c as int)
    ensures forall i :: 2 <= i < 6 ==> s[i] in "0123456789abcdef"
  {
    LowerHex(c as int / 16);
    LowerHex(c as int % 16);
    LowerHex(0);
  }

  lemma LowerHex(k: nat)
    requires k < 16
    ensures HexDigit(k) == "0123456789abcdef"[k]
  {
    assert "0123456789abcdef"[k] as int == if k < 10 then 0x30 + k else 0x57 + k;
  }
}
