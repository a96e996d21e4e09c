/** The scheme and host of a network target: `_network_endpoint` (policy.py), and the grammar of the
    targets that it accepts. */
module Network {
  import opened Actions
  import opened JsonText
  import Paths
  import PolicyLaws

  function Lower(c: char): char {
    if 'A' <= c <= 'Z' then (c as int + 32) as char else c
  }

  function LowerAll(s: string): (r: string)
    ensures |r| == |s| && forall i :: 0 <= i < |s| ==> r[i] == Lower(s[i])
  {
    seq(|s|, i requires 0 <= i < |s| => Lower(s[i]))
  }

  predicate IsLetter(c: char) {
    'a' <= c <= 'z' || 'A' <= c <= 'Z'
  }

  predicate IsScheme(s: string) {
    && s != [] && IsLetter(s[0])
    && forall i :: 0 <= i < |s| ==> IsLetter(s[i]) || IsDigit(s[i]) || s[i] == '+' || s[i] == '.' || s[i] == '-'
  }

  /** How many characters come before the first one in the set. */
  function Span(s: string, stops: set<char>): (n: nat)
    ensures n <= |s| && (forall i :: 0 <= i < n ==> s[i] !in stops) && (n < |s| ==> s[n] in stops)
  {
    if s == [] || s[0] in stops then 0 else 1 + Span(s[1..], stops)
  }

  lemma SpanIs(s: string, stops: set<char>, n: nat)
    requires n <= |s| && (forall i :: 0 <= i < n ==> s[i] !in stops) && (n < |s| ==> s[n] in stops)
    ensures Span(s, stops) == n
  {
  }

  const AUTHORITY_STOPS: set<char> := {'/', '?', '#'}

  /** `URL_RE.fullmatch`: scheme and authority.  The pattern's dot matches no line feed. */
  function SplitTarget(target: string): (r: Option<(string, string)>)
    ensures r.Some? ==> r.value.1 != []
  {
    var colon := Span(target, {':'});
    if |target| < colon + 3 || target[colon..colon + 3] != "://" || !IsScheme(target[..colon]) then None
    else
      var rest := target[colon + 3..];
      var n := Span(rest, AUTHORITY_STOPS);
      if n == 0 || '\n' in rest[n..] then None else Some((target[..colon], rest[..n]))
  }

  predicate IsNumber(s: string) {
    s != [] && forall i :: 0 <= i < |s| ==> IsDigit(s[i])
  }

  predicate IsPort(s: string) {
    IsNumber(s) && 1 <= NatOf(s) <= 65535
  }

  /** The host of an authority in square brackets, whose port is any number. */
  /** `[A-Za-z][A-Za-z0-9+.-]*` */
  lemma SchemeMeans(s: string)
    ensures IsScheme(s) <==>
      (s != "" && IsLetterIn(s[0]) && forall c :: c in s ==> IsLetterIn(c) || c in PolicyLaws.DIGITS || c in "+.-")
  {
    forall c ensures IsLetter(c) <==> IsLetterIn(c) ensures IsDigit(c) <==> c in PolicyLaws.DIGITS {
      PolicyLaws.UpperIs(c);
      PolicyLaws.LowerIs(c);
      PolicyLaws.DigitIs(c);
    }
    hide IsLetter, IsDigit, IsLetterIn, PolicyLaws.DIGITS;
    forall i | 0 <= i < |s| ensures s[i] in s {
    }
  }

  ghost predicate IsLetterIn(c: char) {
    c in PolicyLaws.UPPER || c in PolicyLaws.LOWER
  }

  /** A port is a decimal number from 1 to 65535, perhaps with zeros in front. */
  lemma PortMeans(s: string)
    ensures IsPort(s) <==> exists zeros, n: nat :: 1 <= n <= 65535 && IsPadded(s, zeros, n)
    ensures IsNumber(s) <==> exists zeros, n: nat :: IsPadded(s, zeros, n)
  {
    if IsNumber(s) {
      var zeros := PaddingOf(s);
    }
    forall zeros, n: nat | IsPadded(s, zeros, n) ensures IsNumber(s) && NatOf(s) == n {
      LeadingZeros(zeros, Decimal(n));
      DecimalRoundTrip(n);
    }
  }

  ghost predicate IsPadded(s: string, zeros: string, n: nat) {
    s == zeros + Decimal(n) && forall i :: 0 <= i < |zeros| ==> zeros[i] == '0'
  }

  lemma {:induction false} PaddingOf(s: string) returns (zeros: string)
    requires IsNumber(s)
    ensures IsPadded(s, zeros, NatOf(s))
  {
    if |s| == 1 {
      zeros := "";
    } else {
      var n := |s| - 1;
      zeros := PaddingOf(s[..n]);
      if NatOf(s[..n]) == 0 {
        zeros := s[..n];
      }
    }
  }

  function BracketedHost(a: string): Option<string>
    requires a != [] && a[0] == '['
  {
    var closing := Span(a, {']'});
    if closing == |a| then None
    else
      var suffix := a[closing + 1..];
      if suffix != [] && (suffix[0] != ':' || !IsNumber(suffix[1..])) then None else Some(a[1..closing])
  }

  /** The host of any other authority. */
  function PlainHost(a: string): Option<string> {
    var colon := Span(a, {':'});
    if colon == |a| then Some(a)
    else if ':' in a[colon + 1..] || !IsPort(a[colon + 1..]) then None
    else Some(a[..colon])
  }

  function HostOf(a: string): Option<string>
    requires a != []
  {
    var host := if '@' in a then None else if a[0] == '[' then BracketedHost(a) else PlainHost(a);
    if host.None? || host.value == [] || Paths.NUL in host.value then None else host
  }

  /** `_network_endpoint` */
  function EndpointOf(target: string): Option<(string, string)> {
    match SplitTarget(target)
    case None => None
    case Some((scheme, authority)) =>
      match HostOf(authority)
      case None => None
      case Some(host) => Some((LowerAll(scheme), LowerAll(host)))
  }

  // ---------- the grammar ----------

  /** A host without a colon, and perhaps a port; or anything in square brackets, and perhaps a number. */
  ghost predicate IsAuthority(a: string, host: string) {
    && a != [] && '@' !in a && host != [] && Paths.NUL !in host
    && if a[0] == '[' then
         ']' !in host && (a == "[" + host + "]" || exists port :: IsNumber(port) && a == "[" + host + "]:" + port)
       else
         ':' !in host && (a == host || exists port :: IsPort(port) && a == host + ":" + port)
  }

  /** The target names the host under the scheme. */
  ghost predicate IsTarget(target: string, scheme: string, host: string) {
    exists a, tail :: HasParts(target, scheme, a, tail) && IsAuthority(a, host)
  }

  ghost predicate HasParts(target: string, scheme: string, a: string, tail: string) {
    && target == scheme + "://" + a + tail && IsScheme(scheme) && a != []
    && (forall i :: 0 <= i < |a| ==> a[i] !in AUTHORITY_STOPS)
    && (tail != [] ==> tail[0] in AUTHORITY_STOPS) && '\n' !in tail
  }

  lemma SplitMeans(target: string, scheme: string, a: string)
    ensures SplitTarget(target) == Some((scheme, a)) <==> exists tail :: HasParts(target, scheme, a, tail)
  {
    if SplitTarget(target) == Some((scheme, a)) {
      var rest := target[|scheme| + 3..];
      var tail := rest[|a|..];
      assert target == scheme + target[|scheme|..|scheme| + 3] + rest && rest == a + tail;
      assert HasParts(target, scheme, a, tail);
    }
    if tail :| HasParts(target, scheme, a, tail) {
      PartsSplit(target, scheme, a, tail);
    }
  }

  lemma PartsSplit(target: string, scheme: string, a: string, tail: string)
    requires HasParts(target, scheme, a, tail)
    ensures SplitTarget(target) == Some((scheme, a))
  {
    var n := |scheme|;
    assert forall i :: 0 <= i < n ==> target[i] == scheme[i];
    assert target[n] == "://"[0];
    SpanIs(target, {':'}, n);
    assert target[n..n + 3] == "://" && target[..n] == scheme;
    var rest := target[n + 3..];
    assert rest == a + tail;
    assert forall i :: 0 <= i < |a| ==> rest[i] == a[i];
    SpanIs(rest, AUTHORITY_STOPS, |a|);
    assert rest[..|a|] == a && rest[|a|..] == tail;
  }

  lemma BracketsMean(a: string, host: string)
    requires a != [] && a[0] == '['
    ensures BracketedHost(a) == Some(host) <==>
      ']' !in host && (a == "[" + host + "]" || exists port :: IsNumber(port) && a == "[" + host + "]:" + port)
  {
    if BracketedHost(a) == Some(host) {
      var closing := Span(a, {']'});
      var suffix := a[closing + 1..];
      assert a == "[" + host + "]" + suffix;
      if suffix != [] {
        assert a == "[" + host + "]:" + suffix[1..];
      }
    }
    if ']' !in host && a == "[" + host + "]" {
      BracketsClose(a, host, "");
    }
    if ']' !in host {
      if port :| IsNumber(port) && a == "[" + host + "]:" + port {
        assert a == "[" + host + "]" + (":" + port);
        BracketsClose(a, host, ":" + port);
        assert (":" + port)[1..] == port;
      }
    }
  }

  lemma BracketsClose(a: string, host: string, suffix: string)
    requires ']' !in host && a == "[" + host + "]" + suffix
    ensures Span(a, {']'}) == |host| + 1 && a[|host| + 2..] == suffix && a[1..|host| + 1] == host
  {
    var n := |host| + 1;
    assert forall i :: 1 <= i < n ==> a[i] == host[i - 1];
    SpanIs(a, {']'}, n);
  }

  lemma PlainMeans(a: string, host: string)
    ensures PlainHost(a) == Some(host) <==>
      ':' !in host && (a == host || exists port :: IsPort(port) && a == host + ":" + port)
  {
    hide NatOf;
    var colon := Span(a, {':'});
    if PlainHost(a) == Some(host) {
      if colon < |a| {
        assert a == host + ":" + a[colon + 1..];
      }
    }
    if ':' !in host && a == host {
      SpanIs(a, {':'}, |a|);
    }
    if ':' !in host {
      if port :| IsPort(port) && a == host + ":" + port {
        assert forall i :: 0 <= i < |host| ==> a[i] == host[i];
        SpanIs(a, {':'}, |host|);
        assert a[|host| + 1..] == port && a[..|host|] == host;
      }
    }
  }

  lemma HostMeans(a: string, host: string)
    requires a != []
    ensures HostOf(a) == Some(host) <==> IsAuthority(a, host)
  {
    hide IsNumber, IsPort, BracketedHost, PlainHost;
    if a[0] == '[' {
      BracketsMean(a, host);
    } else {
      PlainMeans(a, host);
    }
  }

  /** A target has an endpoint just when it is one of the grammar, and then it is the scheme and the host
      that the grammar finds, in lower case. */
  lemma EndpointMeans(target: string, s: string, h: string)
    ensures EndpointOf(target) == Some((s, h)) <==>
      exists scheme, host :: IsTarget(target, scheme, host) && s == LowerAll(scheme) && h == LowerAll(host)
  {
    hide SplitTarget, HostOf, IsAuthority, HasParts, LowerAll;
    if EndpointOf(target) == Some((s, h)) {
      var (scheme, a) := SplitTarget(target).value;
      var host := HostOf(a).value;
      SplitMeans(target, scheme, a);
      HostMeans(a, host);
      assert IsTarget(target, scheme, host);
    }
    if scheme, host :| IsTarget(target, scheme, host) && s == LowerAll(scheme) && h == LowerAll(host) {
      var a, tail :| HasParts(target, scheme, a, tail) && IsAuthority(a, host);
      SplitMeans(target, scheme, a);
      AuthorityIsFilled(a, host);
      HostMeans(a, host);
    }
  }

  lemma AuthorityIsFilled(a: string, host: string)
    requires IsAuthority(a, host)
    ensures a != []
  {
  }

  lemma LowerKeeps(c: char)
    ensures !('A' <= Lower(c) <= 'Z')
    ensures forall d: char :: !IsLetter(d) ==> (Lower(c) == d <==> c == d)
  {
  }

  lemma HostIsInside(a: string, host: string)
    requires IsAuthority(a, host)
    ensures forall c :: c in host ==> c in a
  {
    if a[0] == '[' {
      assert forall i :: 0 <= i < |host| ==> a[i + 1] == host[i];
    } else {
      assert forall i :: 0 <= i < |host| ==> a[i] == host[i];
    }
  }

  /** The host that is looked up in the policy is in lower case and holds nothing that ends or splits an
      authority: no slash, question mark, hash, at sign or NUL. */
  lemma HostIsExact(target: string)
    requires EndpointOf(target).Some?
    ensures var host := EndpointOf(target).value.1;
      && host != []
      && forall c :: c in host ==> !('A' <= c <= 'Z') && c != '/' && c != '?' && c != '#' && c != '@' && c != Paths.NUL
  {
    hide SplitTarget, HostOf, EndpointOf, IsAuthority;
    var (s, h) := EndpointOf(target).value;
    EndpointMeans(target, s, h);
    var scheme, host :| IsTarget(target, scheme, host) && s == LowerAll(scheme) && h == LowerAll(host);
    var a, tail :| HasParts(target, scheme, a, tail) && IsAuthority(a, host);
    HostIsInside(a, host);
    AuthorityIsPlain(a, host);
    forall c | c in h ensures !('A' <= c <= 'Z') && c != '/' && c != '?' && c != '#' && c != '@' && c != Paths.NUL {
      var i :| 0 <= i < |h| && h[i] == c;
      LowerKeeps(host[i]);
      assert host[i] in host && host[i] in a;
    }
  }

  lemma AuthorityIsPlain(a: string, host: string)
    requires IsAuthority(a, host)
    ensures host != [] && '@' !in a && Paths.NUL !in host
  {
  }
}
