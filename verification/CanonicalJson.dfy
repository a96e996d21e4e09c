/** `canonical_json`, `parse_json_bytes` and the preimage of `domain_hash` (canonical.py), and the
    laws between them. */
module CanonicalJson {
  import opened Json
  import opened JsonText
  import opened JsonGrammar
  import opened Outcomes

  /** The canonical text of an accepted value: sorted keys, no white space. */
  function CanonicalText(v: Value): string {
    Text(Sorted(v))
  }

  /** `canonical_json` */
  function Canonical(v: Value): Result<string> {
    var valid :- Validate(v, 0);
    Success(CanonicalText(v))
  }

  /** `parse_json_bytes`, once the bytes are decoded. */
  function Parse(text: string): Result<Value> {
    var start := SkipSpace(text);
    if start == [] then Failure(JsonInvalid)
    else
      var parsed :- ParseValue(start);
      if !AllSpace(parsed.rest) then Failure(JsonTrailingData)
      else
        var canonical :- Canonical(parsed.value);
        Success(parsed.value)
  }

  /** The parser as the engine runs it: `start` steps over the white space. */
  method ParseJson(text: string) returns (result: Result<Value>)
    ensures result == Parse(text)
  {
    hide ParseValue;
    var start := 0;
    while start < |text| && IsSpace(text[start])
      invariant start <= |text|
      invariant SkipSpace(text[start..]) == SkipSpace(text)
    {
      start := start + 1;
    }
    if start == |text| {
      return Failure(JsonInvalid);
    }
    assert SkipSpace(text) == text[start..];
    var parsed := ParseValue(text[start..]);
    if parsed.Failure? {
      return Failure(parsed.error);
    }
    if exists i :: 0 <= i < |parsed.value.rest| && !IsSpace(parsed.value.rest[i]) {
      return Failure(JsonTrailingData);
    }
    var canonical := Canonical(parsed.value.value);
    if canonical.Failure? {
      return Failure(canonical.error);
    }
    result := Success(parsed.value.value);
  }

  // ---------- what is accepted ----------

  /** The text spells the value, with any white space around it. */
  ghost predicate Spells(text: string, v: Value) {
    exists before, t, after :: IsSpelling(text, v, before, t, after)
  }

  ghost predicate IsSpelling(text: string, v: Value, before: string, t: Spelling, after: string) {
    IsGap(before) && IsLegal(t) && IsGap(after) && ValueOf(t) == v && text == before + Render(t, after)
  }

  lemma SpellingParses(text: string, v: Value)
    requires Spells(text, v) && IsCanonizable(v, MAX_JSON_NESTING)
    ensures Parse(text) == Success(v)
  {
    hide ParseValue, Validate, IsCanonizable, Render, IsLegal, ValueOf;
    var before, t, after :| IsSpelling(text, v, before, t, after);
    RenderOpens(t, after);
    SkipsSpace(before, Render(t, after));
    SpellingReads(t, after);
    ValidateMeans(v, 0);
  }

  lemma ParsedIsSpelled(text: string)
    requires Parse(text).Success?
    ensures Spells(text, Parse(text).value) && IsCanonizable(Parse(text).value, MAX_JSON_NESTING)
  {
    hide ParseValue, Validate, IsCanonizable, Render, IsLegal, ValueOf;
    var start := SkipSpace(text);
    var before := GapFound(text);
    var t := SpellingFound(start);
    ValidateMeans(Parse(text).value, 0);
    assert IsSpelling(text, Parse(text).value, before, t, ParseValue(start).value.rest);
  }

  /** The parser accepts exactly the texts of the grammar whose value is in bounds, whatever their
      white space, escapes, signs of zero and order of keys, and returns the value they spell. */
  lemma ParseIsGrammar(text: string, v: Value)
    ensures Parse(text) == Success(v) <==> Spells(text, v) && IsCanonizable(v, 128)
  {
    hide Parse, Spells, IsCanonizable;
    if Parse(text) == Success(v) {
      ParsedIsSpelled(text);
    }
    if Spells(text, v) && IsCanonizable(v, MAX_JSON_NESTING) {
      SpellingParses(text, v);
    }
  }

  /** Only valid values are ever accepted. */
  lemma ParseIsValid(text: string)
    ensures Parse(text).Success? ==> Valid(Parse(text).value)
  {
    hide Parse, WellFormed, IsCanonizable, Render, IsLegal, ValueOf;
    if Parse(text).Success? {
      var v := Parse(text).value;
      ParsedIsSpelled(text);
      var before, t, after :| IsSpelling(text, v, before, t, after);
      LegalIsWellFormed(t);
    }
  }

  /** A value has a canonical text just when its integers are safe and its nesting is bounded. */
  lemma CanonicalAccepts(v: Value)
    ensures Canonical(v).Success? <==> IsCanonizable(v, 128)
  {
    ValidateMeans(v, 0);
  }

  // ---------- round trips ----------

  /** The canonical text is one of the spellings of the sorted value. */
  lemma CanonicalSpells(v: Value)
    requires WellFormed(v)
    ensures Spells(CanonicalText(v), Sorted(v))
  {
    hide WellFormed, Sorted, Text, Render, IsLegal, ValueOf;
    SortedKeeps(v, 0);
    WriterSpells(Sorted(v));
    WriterRenders(Sorted(v), "");
    assert IsSpelling(CanonicalText(v), Sorted(v), "", SpellingOf(Sorted(v)), "");
  }

  /** Parsing undoes canonical writing, up to the order of the keys. */
  lemma CanonicalRoundTrip(v: Value)
    requires Valid(v)
    ensures Parse(CanonicalText(v)) == Success(Sorted(v))
  {
    hide WellFormed, IsCanonizable, Sorted, Parse, CanonicalText, Spells;
    SortedKeeps(v, MAX_JSON_NESTING);
    CanonicalSpells(v);
    SpellingParses(CanonicalText(v), Sorted(v));
  }

  /** Canonical text is a normal form: parsing any accepted text and writing it canonically gives a
      text that goes through the same two steps unchanged. */
  lemma CanonicalIsIdempotent(text: string)
    requires Parse(text).Success?
    ensures var once := CanonicalText(Parse(text).value);
      && Parse(once).Success?
      && CanonicalText(Parse(once).value) == once
  {
    hide Parse, WellFormed, IsCanonizable, Sorted, Text;
    var v := Parse(text).value;
    ParseIsValid(text);
    CanonicalRoundTrip(v);
    SortedKeeps(v, MAX_JSON_NESTING);
  }

  // ---------- equality of values ----------

  /** What a value is, with dictionaries as maps. */
  datatype Meaning = Scalar(v: Value) | Listing(items: seq<Meaning>) | Mapping(entries: map<string, Meaning>)

  ghost function Means(v: Value): Meaning {
    match v
    case Arr(items) => Listing(ItemMeanings(items))
    case Obj(members) => Mapping(MemberMeanings(members))
    case _ => Scalar(v)
  }

  ghost function ItemMeanings(items: seq<Value>): (r: seq<Meaning>)
    ensures |r| == |items| && forall i :: 0 <= i < |items| ==> r[i] == Means(items[i])
    decreases items
  {
    if items == [] then [] else [Means(items[0])] + ItemMeanings(items[1..])
  }

  ghost function MemberMeanings(members: seq<Member>): map<string, Meaning>
    decreases members
  {
    if members == [] then map[]
    else MemberMeanings(members[1..])[members[0].key := Means(members[0].value)]
  }

  /** key i of the members maps to the meaning of its value. */
  ghost predicate Maps(members: seq<Member>, m: map<string, Meaning>) {
    && (forall i :: 0 <= i < |members| ==> members[i].key in m && m[members[i].key] == Means(members[i].value))
    && (forall k :: k in m ==> exists i :: 0 <= i < |members| && members[i].key == k)
  }

  lemma {:induction false} MeaningsMap(members: seq<Member>)
    requires DistinctKeys(members)
    ensures Maps(members, MemberMeanings(members))
    decreases members
  {
    hide Means;
    if members != [] {
      var rest, m := members[1..], MemberMeanings(members);
      MeaningsMap(rest);
      forall i | 0 <= i < |members| ensures members[i].key in m && m[members[i].key] == Means(members[i].value) {
        if i > 0 {
          assert members[i] == rest[i - 1];
        }
      }
      forall k | k in m ensures exists i :: 0 <= i < |members| && members[i].key == k {
        if k == members[0].key {
        } else {
          var i :| 0 <= i < |rest| && rest[i].key == k;
          assert members[i + 1].key == k;
        }
      }
    }
  }

  /** The members of one dictionary all occur, up to the order of keys, in another. */
  ghost predicate Within(a: seq<Member>, b: seq<Member>) {
    forall i :: 0 <= i < |a| ==> Occurs(a[i], b)
  }

  ghost predicate Occurs(m: Member, b: seq<Member>) {
    exists j :: 0 <= j < |b| && SameMember(m, b[j])
  }

  ghost predicate SameMember(a: Member, b: Member) {
    a.key == b.key && Sorted(a.value) == Sorted(b.value)
  }

  lemma WithinIsSubset(a: seq<Member>, b: seq<Member>)
    ensures Within(a, b) <==> forall x :: x in SortedValues(a) ==> x in SortedValues(b)
  {
    hide Sorted;
    var p, q := SortedValues(a), SortedValues(b);
    forall i | 0 <= i < |a| ensures Occurs(a[i], b) <==> p[i] in q {
      if p[i] in q {
        var j :| 0 <= j < |q| && q[j] == p[i];
        assert SameMember(a[i], b[j]);
      }
    }
    if Within(a, b) {
      forall x | x in p ensures x in q {
        var i :| 0 <= i < |p| && p[i] == x;
      }
    }
    if forall x :: x in p ==> x in q {
      forall i | 0 <= i < |a| ensures Occurs(a[i], b) {
        assert p[i] in p;
      }
    }
  }

  /** Sorting gives the same list just when each dictionary is within the other. */
  lemma SortedMeansWithin(a: seq<Member>, b: seq<Member>)
    requires DistinctKeys(a) && DistinctKeys(b)
    ensures SortMembers(SortedValues(a)) == SortMembers(SortedValues(b)) <==> Within(a, b) && Within(b, a)
  {
    hide Sorted, Within;
    WithinIsSubset(a, b);
    WithinIsSubset(b, a);
    var p, q := SortedValues(a), SortedValues(b);
    SortKeeps(p);
    SortKeeps(q);
    SortAscends(p);
    SortAscends(q);
    if Within(a, b) && Within(b, a) {
      AscendingUnique(SortMembers(p), SortMembers(q));
    }
    if SortMembers(p) == SortMembers(q) {
      forall x ensures x in p <==> x in q {
        assert x in SortMembers(p) <==> x in SortMembers(q);
      }
    }
  }

  /** For values of the two dictionaries, the sorted forms and the meanings agree. */
  ghost predicate Agree(a: seq<Member>, b: seq<Member>) {
    forall i, j :: 0 <= i < |a| && 0 <= j < |b| ==>
      (Sorted(a[i].value) == Sorted(b[j].value) <==> Means(a[i].value) == Means(b[j].value))
  }

  lemma SameMapWithin(a: seq<Member>, b: seq<Member>, m: map<string, Meaning>)
    requires Maps(a, m) && Maps(b, m) && Agree(a, b)
    ensures Within(a, b)
  {
    hide Sorted, Means;
    forall i | 0 <= i < |a| ensures Occurs(a[i], b) {
      assert a[i].key in m;
      var j :| 0 <= j < |b| && b[j].key == a[i].key;
      assert Means(a[i].value) == Means(b[j].value);
      assert SameMember(a[i], b[j]);
    }
  }

  lemma WithinMaps(a: seq<Member>, b: seq<Member>, m: map<string, Meaning>, n: map<string, Meaning>)
    requires Maps(a, m) && Maps(b, n) && Agree(a, b) && Within(a, b)
    ensures forall k :: k in m ==> k in n && m[k] == n[k]
  {
    hide Sorted, Means;
    forall k | k in m ensures k in n && m[k] == n[k] {
      var i :| 0 <= i < |a| && a[i].key == k;
      var j :| 0 <= j < |b| && SameMember(a[i], b[j]);
      assert m[k] == Means(a[i].value) && n[k] == Means(b[j].value);
    }
  }

  lemma WithinBoth(a: seq<Member>, b: seq<Member>)
    requires DistinctKeys(a) && DistinctKeys(b) && Agree(a, b) && Agree(b, a)
    ensures MemberMeanings(a) == MemberMeanings(b) <==> Within(a, b) && Within(b, a)
  {
    hide Agree, Maps, Within, MemberMeanings, DistinctKeys;
    var m, n := MemberMeanings(a), MemberMeanings(b);
    MeaningsMap(a);
    MeaningsMap(b);
    if m == n {
      SameMapWithin(a, b, m);
      SameMapWithin(b, a, m);
    }
    if Within(a, b) && Within(b, a) {
      WithinMaps(a, b, m, n);
      WithinMaps(b, a, n, m);
    }
  }

  /** The sorted form stands for the value: equal just when the values are equal as trees of lists
      and maps, whatever the order in which keys were inserted. */
  lemma {:induction false} SortedIsMeaning(v: Value, w: Value)
    requires WellFormed(v) && WellFormed(w)
    ensures Sorted(v) == Sorted(w) <==> Means(v) == Means(w)
    decreases v
  {
    if v.Arr? && w.Arr? {
      forall i | 0 <= i < |v.items| && i < |w.items|
        ensures Sorted(v.items[i]) == Sorted(w.items[i]) <==> Means(v.items[i]) == Means(w.items[i])
      {
        SortedIsMeaning(v.items[i], w.items[i]);
      }
      ItemsAlike(v.items, w.items);
    } else if v.Obj? && w.Obj? {
      forall i, j | 0 <= i < |v.members| && 0 <= j < |w.members|
        ensures Sorted(v.members[i].value) == Sorted(w.members[j].value)
          <==> Means(v.members[i].value) == Means(w.members[j].value)
      {
        SortedIsMeaning(v.members[i].value, w.members[j].value);
      }
      WithinBoth(v.members, w.members);
      SortedMeansWithin(v.members, w.members);
    }
  }

  lemma ItemsAlike(a: seq<Value>, b: seq<Value>)
    requires forall i :: 0 <= i < |a| && i < |b| ==> (Sorted(a[i]) == Sorted(b[i]) <==> Means(a[i]) == Means(b[i]))
    ensures SortedItems(a) == SortedItems(b) <==> ItemMeanings(a) == ItemMeanings(b)
  {
    hide Sorted, Means;
    if |a| == |b| {
      if SortedItems(a) == SortedItems(b) {
        forall i | 0 <= i < |a| ensures Means(a[i]) == Means(b[i]) {
          assert SortedItems(a)[i] == SortedItems(b)[i];
        }
      }
      if ItemMeanings(a) == ItemMeanings(b) {
        forall i | 0 <= i < |a| ensures Sorted(a[i]) == Sorted(b[i]) {
          assert ItemMeanings(a)[i] == ItemMeanings(b)[i];
        }
      }
    }
  }

  /** Two values have the same canonical text just when they are equal. */
  lemma CanonicalIsInjective(v: Value, w: Value)
    requires Valid(v) && Valid(w)
    ensures CanonicalText(v) == CanonicalText(w) <==> Means(v) == Means(w)
  {
    hide Sorted, Means, WellFormed, IsCanonizable, Parse, Text;
    SortedIsMeaning(v, w);
    if CanonicalText(v) == CanonicalText(w) {
      CanonicalRoundTrip(v);
      CanonicalRoundTrip(w);
    }
  }

  /** Two accepted texts have the same canonical form just when what they spell is equal: gaps,
      escapes, the sign of zero and the order of keys leave no trace. */
  lemma SpellingIsForgotten(text: string, v: Value, other: string, w: Value)
    requires Spells(text, v) && Spells(other, w)
    requires IsCanonizable(v, MAX_JSON_NESTING) && IsCanonizable(w, MAX_JSON_NESTING)
    ensures Parse(text) == Success(v) && Parse(other) == Success(w)
    ensures CanonicalText(v) == CanonicalText(w) <==> Means(v) == Means(w)
  {
    hide Parse, Spells, IsCanonizable, WellFormed, CanonicalText, Means;
    SpellingParses(text, v);
    SpellingParses(other, w);
    ParseIsValid(text);
    ParseIsValid(other);
    CanonicalIsInjective(v, w);
  }

  // ---------- hash preimages ----------

  const NUL := 0 as char

  function Preimage(domain: string, v: Value): string {
    domain + ([NUL] + CanonicalText(v))
  }

  function FirstNul(s: string): nat {
    if s == [] || s[0] == NUL then 0 else 1 + FirstNul(s[1..])
  }

  lemma {:induction false} NulAfterDomain(d: string, text: string)
    requires NUL !in d
    ensures FirstNul(d + ([NUL] + text)) == |d|
  {
    if d == [] {
      assert d + ([NUL] + text) == [NUL] + text;
    } else {
      assert (d + ([NUL] + text))[1..] == d[1..] + ([NUL] + text);
      NulAfterDomain(d[1..], text);
    }
  }

  /** A preimage determines the domain and the value: no domain contains NUL. */
  lemma PreimageIsInjective(d: string, v: Value, e: string, w: Value)
    requires NUL !in d && NUL !in e && Valid(v) && Valid(w)
    requires Preimage(d, v) == Preimage(e, w)
    ensures d == e && Means(v) == Means(w)
  {
    hide CanonicalText, Means, WellFormed, IsCanonizable, FirstNul;
    var p := Preimage(d, v);
    NulAfterDomain(d, CanonicalText(v));
    NulAfterDomain(e, CanonicalText(w));
    assert p[..|d|] == d && p[..|e|] == e;
    assert p[|d| + 1..] == CanonicalText(v) && p[|e| + 1..] == CanonicalText(w);
    CanonicalIsInjective(v, w);
  }
}
