/** Which host names a route serves through a listener, and whether it may attach at all. */
module Hostnames {
  import opened Wrappers
  import opened Text

  predicate IsWildcard(h: string) {
    HasPrefix(h, "*.")
  }

  /** The hosts a hostname stands for: "*.example.com" is every host ending in ".example.com". */
  ghost predicate Denotes(h: string, host: string) {
    if IsWildcard(h) then exists p: string :: host == p + h[1..] else host == h
  }

  /** A wildcard is a star, a dot and a domain, and stands for what ends in the dot and the
      domain; anything else stands for itself. */
  lemma WildcardForm(h: string)
    ensures IsWildcard(h) <==> exists d: string :: h == "*." + d
  {
    PrefixMeans(h, "*.");
  }

  lemma WildcardDenotes(d: string, host: string)
    ensures Denotes("*." + d, host) <==> exists p: string :: host == p + "." + d
  {
    WildcardForm("*." + d);
    assert "*." + d == "*." + d;
    assert ("*." + d)[1..] == "." + d;
    if p: string :| host == p + "." + d {
      assert host == p + ("." + d);
    }
    if p: string :| host == p + ("." + d) {
      assert host == p + "." + d;
    }
  }

  lemma NameDenotes(h: string, host: string)
    requires forall d: string :: h != "*." + d
    ensures Denotes(h, host) <==> host == h
  {
    WildcardForm(h);
  }

  ghost predicate DenotedByOne(hs: seq<string>, host: string) {
    exists h :: h in hs && Denotes(h, host)
  }

  ghost predicate AllowedByListener(listener: Option<string>, host: string) {
    listener == None || Denotes(listener.value, host)
  }

  ghost predicate AllowedByRoute(routes: seq<string>, host: string) {
    routes == [] || DenotedByOne(routes, host)
  }

  ghost predicate SharesHost(listener: Option<string>, routes: seq<string>) {
    exists host :: AllowedByListener(listener, host) && AllowedByRoute(routes, host)
  }

  // ---- one listener against one route hostname

  predicate HostnamesMatching(pattern: string, hostname: string) {
    if !IsWildcard(pattern) then pattern == hostname else HasSuffix(hostname, pattern[1..])
  }

  lemma MatchingDenotes(h: string, host: string)
    ensures HostnamesMatching(h, host) <==> Denotes(h, host)
  {
    if IsWildcard(h) {
      SuffixMeans(host, h[1..]);
    }
  }

  predicate Overlaps(l: string, r: string) {
    HostnamesMatching(r, l) || HostnamesMatching(l, r)
  }

  /** The narrower of the two. */
  function Narrower(l: string, r: string): string {
    if HostnamesMatching(r, l) then l else r
  }

  lemma SuffixesNest(s: string, a: string, b: string)
    requires HasSuffix(s, a) && HasSuffix(s, b) && |b| <= |a|
    ensures HasSuffix(a, b)
  {
    assert a[|a| - |b|..] == s[|s| - |a|..][|a| - |b|..];
  }

  lemma SuffixTransitive(s: string, a: string, b: string)
    requires HasSuffix(s, a) && HasSuffix(a, b)
    ensures HasSuffix(s, b)
  {
    assert s[|s| - |b|..] == s[|s| - |a|..][|a| - |b|..];
  }

  /** A wildcard's own text ends in another wildcard's domain only if its domain does. */
  lemma WildcardSuffix(l: string, r: string)
    requires IsWildcard(l) && IsWildcard(r)
    ensures HasSuffix(l, r[1..]) <==> HasSuffix(l[1..], r[1..])
  {
    var a, b := l[1..], r[1..];
    assert l == [l[0]] + a && b[0] == '.' && l[0] == '*';
    if HasSuffix(l, b) {
      assert l[|l| - |b|..][0] == '.';
      SuffixesNest(l, a, b);
    }
    if HasSuffix(a, b) {
      assert HasSuffix(l, a);
      SuffixTransitive(l, a, b);
    }
  }

  /** The hosts two hostnames share are those of the narrower one, if they overlap. */
  lemma SharedHosts(l: string, r: string, host: string)
    ensures Denotes(l, host) && Denotes(r, host) <==> Overlaps(l, r) && Denotes(Narrower(l, r), host)
  {
    MatchingDenotes(l, host);
    MatchingDenotes(r, host);
    if IsWildcard(l) && IsWildcard(r) {
      WildcardSuffix(l, r);
      WildcardSuffix(r, l);
      var a, b := l[1..], r[1..];
      if HasSuffix(host, a) && HasSuffix(host, b) {
        if |b| <= |a| { SuffixesNest(host, a, b); } else { SuffixesNest(host, b, a); }
      }
      if HasSuffix(a, b) && HasSuffix(host, a) { SuffixTransitive(host, a, b); }
      if HasSuffix(b, a) && HasSuffix(host, b) { SuffixTransitive(host, b, a); }
    }
  }

  lemma DenotesItself(h: string)
    ensures Denotes(h, h)
  {
    if IsWildcard(h) { assert h == h[..1] + h[1..]; }
  }

  // ---- the hostnames of a route that a listener serves

  ghost function MatchedHostnames(l: string, routes: seq<string>): set<string> {
    set r | r in routes && Overlaps(l, r) :: Narrower(l, r)
  }

  ghost predicate IsAnswer(listener: Option<string>, routes: seq<string>, result: seq<string>) {
    match listener
    case None => result == routes
    case Some(l) => if routes == [] then result == [l] else SortedListOf(result, MatchedHostnames(l, routes))
  }

  method GetHostnamesForRouteWithListener(listener: Option<string>, routes: seq<string>) returns (result: seq<string>)
    ensures IsAnswer(listener, routes, result)
    ensures listener != None ==> Sorted(result) && Distinct(result)
    ensures listener != None || routes != [] ==>
              forall host :: DenotedByOne(result, host) <==> AllowedByListener(listener, host) && AllowedByRoute(routes, host)
  {
    if listener == None {
      AnswerExact(listener, routes, routes);
      return routes;
    }
    var l := listener.value;
    if routes == [] {
      AnswerExact(listener, routes, [l]);
      return [l];
    }
    hide Overlaps, Narrower, MatchedHostnames, AllowedByListener, AllowedByRoute, DenotedByOne;
    var matched: set<string> := {};
    for i := 0 to |routes|
      invariant matched == MatchedHostnames(l, routes[..i])
    {
      OneMoreRoute(l, routes, i);
      if HostnamesMatching(routes[i], l) {
        matched := matched + {l};
      } else if HostnamesMatching(l, routes[i]) {
        matched := matched + {routes[i]};
      }
    }
    assert routes[..|routes|] == routes;
    result := ListOf(matched);
    SortStringsOfSet(result, matched);
    result := SortStrings(result);
    AnswerExact(listener, routes, result);
  }

  lemma OneMoreRoute(l: string, routes: seq<string>, i: nat)
    requires i < |routes|
    ensures MatchedHostnames(l, routes[..i + 1])
         == MatchedHostnames(l, routes[..i]) + if Overlaps(l, routes[i]) then {Narrower(l, routes[i])} else {}
  {
    assert routes[..i + 1] == routes[..i] + [routes[i]];
  }

  method ListOf(matched: set<string>) returns (result: seq<string>)
    ensures Distinct(result) && forall h :: h in result <==> h in matched
  {
    result := [];
    var todo := matched;
    while todo != {}
      invariant todo <= matched && Distinct(result)
      invariant forall h :: h in result <==> h in matched - todo
    {
      var h :| h in todo;
      assert forall i :: 0 <= i < |result| ==> result[i] in matched - todo;
      todo := todo - {h};
      result := result + [h];
    }
  }

  /** The answer stands for exactly the hosts that both sides allow, unless neither side
      restricts anything: then everything is allowed and the answer is empty. */
  lemma AnswerExact(listener: Option<string>, routes: seq<string>, result: seq<string>)
    requires IsAnswer(listener, routes, result)
    ensures (forall host :: DenotedByOne(result, host) <==> AllowedByListener(listener, host) && AllowedByRoute(routes, host))
       <==> (listener != None || routes != [])
  {
    if listener == None && routes == [] {
      assert !DenotedByOne(result, "") && AllowedByListener(listener, "") && AllowedByRoute(routes, "");
    } else if listener != None {
      forall host ensures DenotedByOne(result, host) <==> AllowedByListener(listener, host) && AllowedByRoute(routes, host) {
        AnswerExactAt(listener.value, routes, result, host);
      }
    }
  }

  lemma AnswerExactAt(l: string, routes: seq<string>, result: seq<string>, host: string)
    requires IsAnswer(Some(l), routes, result)
    ensures DenotedByOne(result, host) <==> Denotes(l, host) && AllowedByRoute(routes, host)
  {
    if routes == [] {
      assert l in result;
    } else {
      forall r | r in routes
        ensures Denotes(l, host) && Denotes(r, host) <==> Overlaps(l, r) && Denotes(Narrower(l, r), host)
        ensures Overlaps(l, r) ==> Narrower(l, r) in result
      {
        SharedHosts(l, r, host);
      }
      if DenotedByOne(result, host) {
        var h :| h in result && Denotes(h, host);
        var r :| r in routes && Overlaps(l, r) && h == Narrower(l, r);
      }
    }
  }

  // ---- whether a route may attach to a listener

  /** As written for attachment: exact, or one side a wildcard above the other. */
  predicate Match(route: string, listener: string) {
    || route == listener
    || (IsWildcard(listener) && route != listener[2..] && HasSuffix(route, "." + listener[2..]))
    || (IsWildcard(route) && listener != route[2..] && HasSuffix(listener, "." + route[2..]))
  }

  lemma MatchIsOverlap(route: string, listener: string)
    ensures Match(route, listener) <==> Overlaps(listener, route)
  {
    if IsWildcard(listener) { assert listener[1..] == "." + listener[2..]; }
    if IsWildcard(route) { assert route[1..] == "." + route[2..]; }
  }

  ghost predicate HostnameMatched(routes: seq<string>, listener: Option<string>) {
    || listener == None || listener == Some("") || routes == [] || "" in routes
    || exists r :: r in routes && Match(r, listener.value)
  }

  method MatchHostname(routes: seq<string>, listener: Option<string>) returns (ok: bool)
    ensures ok <==> HostnameMatched(routes, listener)
  {
    if listener == None || listener.value == "" {
      return true;
    }
    for i := 0 to |routes|
      invariant forall r :: r in routes[..i] ==> r != "" && !Match(r, listener.value)
    {
      assert routes[..i + 1] == routes[..i] + [routes[i]];
      if routes[i] == "" {
        return true;
      }
      if Match(routes[i], listener.value) {
        return true;
      }
    }
    assert routes[..|routes|] == routes;
    return |routes| == 0;
  }

  /** Where an empty hostname does not get in the way. API validation forbids empty
      hostnames, which leaves only the unrestricted listener with the unrestricted route. */
  ghost predicate EmptyIsHarmless(l: string, routes: seq<string>) {
    if l == "" then routes == [] || "" in routes
    else "" in routes ==> exists r :: r in routes && Match(r, l)
  }

  lemma AnswerEmpty(l: string, routes: seq<string>, result: seq<string>)
    requires IsAnswer(Some(l), routes, result)
    ensures result != [] <==> routes == [] || exists r :: r in routes && Match(r, l)
  {
    forall r ensures Match(r, l) <==> Overlaps(l, r) { MatchIsOverlap(r, l); }
    if routes != [] {
      if result != [] { assert result[0] in MatchedHostnames(l, routes); }
      if r :| r in routes && Match(r, l) { assert Narrower(l, r) in result; }
    }
  }

  lemma MatchesEmpty(r: string)
    ensures Match(r, "") <==> r == ""
    ensures Match("", r) <==> r == ""
  {}

  /** A route attaches exactly when it gets hostnames. */
  lemma AttachedIffServed(listener: Option<string>, routes: seq<string>, result: seq<string>)
    requires IsAnswer(listener, routes, result)
    ensures (result != [] <==> HostnameMatched(routes, listener))
       <==> (if listener == None then routes != [] else EmptyIsHarmless(listener.value, routes))
  {
    if listener != None {
      AnswerEmpty(listener.value, routes, result);
      forall r ensures Match(r, "") <==> r == "" { MatchesEmpty(r); }
    }
  }

  /** And exactly when some host is allowed by both. */
  lemma AttachedIffSharesHost(listener: Option<string>, routes: seq<string>)
    ensures (HostnameMatched(routes, listener) <==> SharesHost(listener, routes))
       <==> (listener == None || EmptyIsHarmless(listener.value, routes))
  {
    if listener == None {
      var host := if routes == [] then "" else routes[0];
      DenotesItself(host);
      assert AllowedByListener(listener, host) && AllowedByRoute(routes, host);
    } else {
      var result := SomeAnswer(listener.value, routes);
      AttachedIffServed(listener, routes, result);
      AnswerExact(listener, routes, result);
      if result != [] {
        DenotesItself(result[0]);
        assert DenotedByOne(result, result[0]);
      }
      if SharesHost(listener, routes) {
        var host :| AllowedByListener(listener, host) && AllowedByRoute(routes, host);
        assert DenotedByOne(result, host);
      }
    }
  }

  ghost function SomeAnswer(l: string, routes: seq<string>): (result: seq<string>)
    ensures IsAnswer(Some(l), routes, result)
  {
    if routes == [] then [l]
    else
      var matched := MatchedHostnames(l, routes);
      SortStringsOfSet(Listing(matched), matched);
      SortStrings(Listing(matched))
  }

  /** On the hostnames that API validation lets through, the two functions disagree on
      one input only: an unrestricted listener with an unrestricted route. */
  lemma ValidAttachedIffServed(listener: Option<string>, routes: seq<string>, result: seq<string>)
    requires IsAnswer(listener, routes, result)
    requires listener != Some("") && "" !in routes
    ensures (result != [] <==> HostnameMatched(routes, listener)) <==> !(listener == None && routes == [])
  {
    AttachedIffServed(listener, routes, result);
  }

  /** On an empty route hostname, which API validation forbids, the one function accepts
      what the other answers with no hostname. */
  lemma EmptyHostnameDisagrees(l: string, result: seq<string>)
    requires l != "" && IsAnswer(Some(l), [""], result)
    ensures HostnameMatched([""], Some(l)) && result == []
  {
    assert "" in [""];
    MatchesEmpty(l);
    AnswerEmpty(l, [""], result);
  }
}
