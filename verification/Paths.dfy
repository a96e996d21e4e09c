/** File targets and prefixes: `_safe_file_target` and `_prefix_match` (policy.py), `_relative_prefix`
    (contracts.py). */
module Paths {
  import opened Outcomes

  const NUL := 0 as char

  /** `s.split("/")` */
  function Split(s: string): (parts: seq<string>)
    ensures |parts| >= 1
  {
    if s == [] then [[]]
    else
      var rest := Split(s[1..]);
      if s[0] == '/' then [[]] + rest else [[s[0]] + rest[0]] + rest[1..]
  }

  /** `s.rstrip("/")` */
  function Strip(s: string): (r: string)
    ensures |r| <= |s|
    ensures r == [] || r[|r| - 1] != '/'
  {
    if s != [] && s[|s| - 1] == '/' then Strip(s[..|s| - 1]) else s
  }

  predicate IsName(part: string) {
    part != "" && part != "." && part != ".."
  }

  predicate AreNames(parts: seq<string>) {
    forall i :: 0 <= i < |parts| ==> IsName(parts[i])
  }

  predicate StartsWith(s: string, prefix: string) {
    |prefix| <= |s| && s[..|prefix|] == prefix
  }

  // ---------- policy.py ----------

  predicate IsSafeTarget(target: string) {
    target != [] && target[0] != '/' && '\\' !in target && NUL !in target && AreNames(Split(target))
  }

  predicate PrefixMatch(target: string, prefix: string) {
    if prefix == "*" then true
    else if prefix != [] && prefix[|prefix| - 1] == '/' then StartsWith(target, prefix)
    else
      var clean := Strip(prefix);
      target == clean || StartsWith(target, clean + "/")
  }

  // ---------- contracts.py ----------

  predicate HasBadPart(parts: seq<string>) {
    exists i :: 0 <= i < |parts| && parts[i] != parts[|parts| - 1] && !IsName(parts[i])
  }

  /** `_relative_prefix` */
  function RelativePrefix(value: string): Result<string> {
    if value == "*" then Success(value)
    else if '\\' in value || NUL in value || StartsWith(value, "/") then Failure(ContractInvalid)
    else if HasBadPart(Split(value)) then Failure(ContractInvalid)
    else
      var cleaned := Strip(value);
      if cleaned == [] || !AreNames(Split(cleaned)) then Failure(ContractInvalid)
      else Success(cleaned + "/")
  }

  // ---------- components ----------

  function Extend(c: char, parts: seq<string>): seq<string>
    requires |parts| >= 1
  {
    if c == '/' then [[]] + parts else [[c] + parts[0]] + parts[1..]
  }

  lemma SplitCons(c: char, s: string)
    ensures Split([c] + s) == Extend(c, Split(s))
  {
    assert ([c] + s)[1..] == s;
  }

  lemma ExtendJoins(c: char, a: seq<string>, b: seq<string>)
    requires |a| >= 1
    ensures Extend(c, a + b) == Extend(c, a) + b
  {
    assert (a + b)[1..] == a[1..] + b;
  }

  lemma {:induction false} SplitJoins(a: string, b: string)
    ensures Split(a + ("/" + b)) == Split(a) + Split(b)
  {
    if a == [] {
      SplitCons('/', b);
      assert a + ("/" + b) == ['/'] + b;
    } else {
      SplitJoins(a[1..], b);
      SplitCons(a[0], a[1..] + ("/" + b));
      SplitCons(a[0], a[1..]);
      ExtendJoins(a[0], Split(a[1..]), Split(b));
      assert a == [a[0]] + a[1..];
      assert a + ("/" + b) == [a[0]] + (a[1..] + ("/" + b));
      hide Split, Extend;
    }
  }

  lemma {:induction false} PlainName(s: string)
    requires '/' !in s
    ensures Split(s) == [s]
  {
    if s != [] {
      PlainName(s[1..]);
      assert s[0] in s && s == [s[0]] + s[1..];
    }
  }

  /** Names, put together again with slashes. */
  function Join(parts: seq<string>): string
    requires |parts| >= 1
  {
    if |parts| == 1 then parts[0] else parts[0] + "/" + Join(parts[1..])
  }

  lemma {:induction false} JoinSplit(s: string)
    ensures Join(Split(s)) == s
  {
    if s != [] {
      var rest := Split(s[1..]);
      JoinSplit(s[1..]);
      assert s == [s[0]] + s[1..];
      if s[0] == '/' {
        assert Split(s)[1..] == rest;
      } else {
        assert Split(s)[1..] == rest[1..];
        if |rest| > 1 {
          assert [s[0]] + (rest[0] + "/" + Join(rest[1..])) == ([s[0]] + rest[0]) + "/" + Join(rest[1..]);
        }
      }
    }
  }

  lemma {:induction false} JoinApart(a: seq<string>, b: seq<string>)
    requires |a| >= 1 && |b| >= 1
    ensures Join(a + b) == Join(a) + "/" + Join(b)
  {
    if |a| == 1 {
      assert (a + b)[1..] == b;
    } else {
      assert (a + b)[1..] == a[1..] + b;
      JoinApart(a[1..], b);
      var x, y, z := a[0], Join(a[1..]), Join(b);
      assert x + "/" + (y + "/" + z) == (x + "/" + y) + "/" + z;
    }
  }

  /** A normalised prefix matches by whole names: exactly the targets below its directory. */
  lemma PrefixIsDirectory(target: string, directory: string)
    requires directory + "/" != "*"
    ensures PrefixMatch(target, directory + "/") <==>
      |Split(target)| > |Split(directory)| && Split(target)[..|Split(directory)|] == Split(directory)
  {
    var prefix := directory + "/";
    var d, t := Split(directory), Split(target);
    if PrefixMatch(target, prefix) {
      var rest := target[|prefix|..];
      assert target == directory + ("/" + rest);
      SplitJoins(directory, rest);
    }
    if |t| > |d| && t[..|d|] == d {
      SplitBelow(target, directory);
      assert target[..|prefix|] == prefix;
    }
  }

  lemma SplitBelow(target: string, directory: string)
    requires |Split(target)| > |Split(directory)| && Split(target)[..|Split(directory)|] == Split(directory)
    ensures target == directory + "/" + Join(Split(target)[|Split(directory)|..])
  {
    hide Split, Join;
    var d, t := Split(directory), Split(target);
    assert t == d + t[|d|..];
    JoinApart(d, t[|d|..]);
    JoinSplit(target);
    JoinSplit(directory);
  }

  /** Stripping takes off slashes, and nothing else. */
  lemma {:induction false} StripSlashes(s: string)
    ensures Strip(s) == s[..|Strip(s)|]
    ensures forall i :: |Strip(s)| <= i < |s| ==> s[i] == '/'
  {
    if s != [] && s[|s| - 1] == '/' {
      StripSlashes(s[..|s| - 1]);
    }
  }

  /** Without a slash at its end a text is stripped of nothing, with one of just that. */
  lemma StripOnce(c: string)
    requires c == [] || c[|c| - 1] != '/'
    ensures Strip(c) == c && Strip(c + "/") == c
  {
    assert (c + "/")[..|c|] == c;
  }

  lemma {:induction false} SlashesSplit(s: string)
    requires forall i :: 0 <= i < |s| ==> s[i] == '/'
    ensures forall i :: 0 <= i < |Split(s)| ==> Split(s)[i] == ""
  {
    if s != [] {
      SlashesSplit(s[1..]);
    }
  }

  lemma FirstLookIsRedundant(value: string)
    ensures AreNames(Split(Strip(value))) ==> !HasBadPart(Split(value))
  {
    hide Split, Strip;
    var cleaned, parts := Strip(value), Split(value);
    StripSlashes(value);
    if cleaned != value {
      var slashes := value[|cleaned| + 1..];
      assert value[|cleaned|] == '/';
      assert value == cleaned + ("/" + slashes);
      SplitJoins(cleaned, slashes);
      SlashesSplit(slashes);
      assert parts[|parts| - 1] == "";
      forall i | 0 <= i < |parts| && parts[i] != "" ensures i < |Split(cleaned)| && parts[i] == Split(cleaned)[i] {
      }
    }
  }

  /** The first look at the parts never decides: a prefix is accepted just when it is the wildcard,
      or relative, free of backslash and NUL, and made of names only once its last slashes are off. */
  lemma PrefixIsAccepted(value: string)
    ensures RelativePrefix(value).Success? <==>
      (value == "*" || ('\\' !in value && NUL !in value && !StartsWith(value, "/") && AreNames(Split(Strip(value)))))
    ensures RelativePrefix(value).Failure? ==> RelativePrefix(value).error == ContractInvalid
  {
    assert Split([]) == [[]] && !IsName([[]][0]);
    hide Split, Strip, HasBadPart;
    FirstLookIsRedundant(value);
  }

  /** Normalising a prefix twice changes nothing. */
  lemma PrefixIsStable(value: string)
    requires RelativePrefix(value).Success?
    ensures RelativePrefix(RelativePrefix(value).value) == RelativePrefix(value)
  {
    var again, cleaned := RelativePrefix(value).value, Strip(value);
    if value != "*" {
      PrefixIsAccepted(value);
      StripOnce(cleaned);
      StripSlashes(value);
      assert forall c :: c in cleaned ==> c in value by {
        forall i | 0 <= i < |cleaned| ensures cleaned[i] in value {
          assert cleaned[i] == value[i];
        }
      }
      assert again != "*" by {
        assert again[|again| - 1] == '/';
      }
      assert !StartsWith(again, "/") by {
        assert again[0] == cleaned[0] == value[0];
        assert value[..1] == [value[0]];
        assert again[..1] == [again[0]];
      }
      PrefixIsAccepted(again);
    }
  }

  /** A target that passes both file checks lies strictly below the directory of the prefix, by
      names alone. */
  lemma AllowedTargetIsBelow(target: string, value: string)
    requires IsSafeTarget(target) && RelativePrefix(value).Success? && value != "*"
    requires PrefixMatch(target, RelativePrefix(value).value)
    ensures var d, t := Split(Strip(value)), Split(target);
      |t| > |d| && t[..|d|] == d && AreNames(t) && AreNames(d)
  {
    PrefixIsAccepted(value);
    assert Strip(value) + "/" != "*" by {
      assert (Strip(value) + "/")[|Strip(value)|] == '/';
    }
    PrefixIsDirectory(target, Strip(value));
  }

  // ---------- components ----------

  /** The name stands in the path between slashes, or at either end. */
  ghost predicate HasComponent(path: string, name: string) {
    exists a, b :: StandsBetween(path, a, name, b)
  }

  ghost predicate StandsBetween(path: string, a: string, name: string, b: string) {
    path == a + (name + b) && (a == "" || a[|a| - 1] == '/') && (b == "" || b[0] == '/')
  }

  lemma SplitBefore(name: string, b: string)
    requires '/' !in name && (b == "" || b[0] == '/')
    ensures name in Split(name + b)
  {
    PlainName(name);
    hide Split;
    if b != "" {
      SplitJoins(name, b[1..]);
      SlashFirst(b);
      assert Split(name)[0] == name;
    } else {
      assert name + b == name;
    }
  }

  lemma SlashFirst(b: string)
    requires b != "" && b[0] == '/'
    ensures b == "/" + b[1..]
  {
  }

  lemma SlashLast(a: string, tail: string)
    requires a != "" && a[|a| - 1] == '/'
    ensures a + tail == a[..|a| - 1] + ("/" + tail)
  {
    assert a == a[..|a| - 1] + "/";
  }

  lemma SplitAround(a: string, name: string, b: string)
    requires '/' !in name && (a == "" || a[|a| - 1] == '/') && (b == "" || b[0] == '/')
    ensures name in Split(a + (name + b))
  {
    SplitBefore(name, b);
    hide Split;
    var tail := name + b;
    if a != "" {
      SlashLast(a, tail);
      SplitJoins(a[..|a| - 1], tail);
    } else {
      assert a + tail == tail;
    }
  }

  lemma JoinAround(parts: seq<string>, k: nat) returns (a: string, b: string)
    requires k < |parts|
    ensures StandsBetween(Join(parts), a, parts[k], b)
  {
    var name := parts[k];
    var tail := [name] + parts[k + 1..];
    if k + 1 < |parts| {
      b := "/" + Join(parts[k + 1..]);
      JoinApart([name], parts[k + 1..]);
    } else {
      b := "";
    }
    assert Join(tail) == name + b;
    if k > 0 {
      JoinApart(parts[..k], tail);
      a := Join(parts[..k]) + "/";
      assert parts == parts[..k] + tail;
    } else {
      a := "";
      assert parts == tail;
    }
  }

  /** Splitting at slashes finds the components. */
  lemma ComponentMeans(path: string, name: string)
    requires '/' !in name
    ensures name in Split(path) <==> HasComponent(path, name)
  {
    if name in Split(path) {
      var k :| 0 <= k < |Split(path)| && Split(path)[k] == name;
      JoinSplit(path);
      var a, b := JoinAround(Split(path), k);
    }
    if a, b :| StandsBetween(path, a, name, b) {
      SplitAround(a, name, b);
    }
  }

  /** A safe target is relative, has no backslash and no NUL, and none of its components is empty or a
      step to the same or the upper directory. */
  lemma SafeTargetMeans(target: string)
    ensures AreNames(Split(target)) <==>
      !HasComponent(target, "") && !HasComponent(target, ".") && !HasComponent(target, "..")
    ensures IsSafeTarget(target) <==>
      target != "" && target[0] != '/' && (forall c :: c in target ==> c != '\\' && c as int != 0)
      && !HasComponent(target, "") && !HasComponent(target, ".") && !HasComponent(target, "..")
  {
    ComponentMeans(target, "");
    ComponentMeans(target, ".");
    ComponentMeans(target, "..");
    hide HasComponent, Split;
    forall i | 0 <= i < |Split(target)| ensures Split(target)[i] in Split(target) {
    }
  }
}
