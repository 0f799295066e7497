/** The text comparisons of the cookie engine (`cookie.c`): domains, their top-level part, and paths. */
module CookieText {

  function UpChar(c: char): char {
    if 'a' <= c <= 'z' then (c as int - 32) as char else c
  }

  function Up(s: string): (r: string)
    ensures |r| == |s|
  {
    seq(|s|, i requires 0 <= i < |s| => UpChar(s[i]))
  }

  /** Equal but for the case of ASCII letters. */
  predicate CaseEqual(a: string, b: string) {
    Up(a) == Up(b)
  }

  /** `domain` is the host itself or a parent domain of it. */
  predicate Tailmatch(domain: string, host: string) {
    && |domain| <= |host|
    && CaseEqual(domain, host[|host| - |domain|..])
    && (|host| == |domain| || host[|host| - |domain| - 1] == '.')
  }

  /** The position of the last occurrence of a character, or -1. */
  function Last(s: string, c: char): (r: int)
    ensures -1 <= r < |s| && (r >= 0 ==> s[r] == c)
    ensures forall j :: r < j < |s| ==> s[j] != c
  {
    if s == [] then -1 else if s[|s| - 1] == c then |s| - 1 else Last(s[..|s| - 1], c)
  }

  /** The part of a domain after its last dot but one. */
  function TopDomain(domain: string): string {
    var last := Last(domain, '.');
    if last < 0 then domain
    else
      var first := Last(domain[..last], '.');
      if first < 0 then domain else domain[first + 1..]
  }

  lemma UpTail(s: string, k: nat)
    requires k <= |s|
    ensures Up(s[k..]) == Up(s)[k..]
  {
  }

  /** Dots are at the same places. */
  predicate SameDots(a: string, b: string) {
    |a| == |b| && forall j :: 0 <= j < |a| ==> (a[j] == '.' <==> b[j] == '.')
  }

  lemma CaseEqualDots(a: string, b: string)
    requires CaseEqual(a, b)
    ensures SameDots(a, b)
  {
    assert |Up(a)| == |Up(b)|;
    forall j | 0 <= j < |a|
      ensures a[j] == '.' <==> b[j] == '.'
    {
      assert Up(a)[j] == Up(b)[j];
    }
  }

  lemma LastSame(a: string, b: string)
    requires SameDots(a, b)
    ensures Last(a, '.') == Last(b, '.')
  {
    var i, j := Last(a, '.'), Last(b, '.');
    assert i >= 0 ==> b[i] == '.';
    assert j >= 0 ==> a[j] == '.';
  }

  lemma LastConcat(a: string, b: string)
    ensures Last(a + b, '.') == if '.' in b then |a| + Last(b, '.') else Last(a, '.')
  {
    var s, r := a + b, Last(a + b, '.');
    if '.' in b {
      assert s[|a| + Last(b, '.')] == '.';
      assert b[r - |a|] == '.';
    } else {
      forall j | |a| <= j < |s|
        ensures s[j] != '.'
      {
        assert s[j] == b[j - |a|];
      }
      assert Last(a, '.') >= 0 ==> s[Last(a, '.')] == '.';
    }
  }

  /** Where the top domain starts. */
  function TopStart(domain: string): nat {
    var last := Last(domain, '.');
    if last < 0 then 0 else Last(domain[..last], '.') + 1
  }

  lemma TopDomainFrom(domain: string)
    ensures TopStart(domain) <= |domain| && TopDomain(domain) == domain[TopStart(domain)..]
  {
    assert domain[0..] == domain;
  }

  lemma LastBelow(above: string, domain: string, tail: string)
    requires SameDots(domain, tail) && (above == [] || above[|above| - 1] == '.')
    ensures Last(above + tail, '.') == |above| + Last(domain, '.')
  {
    LastSame(domain, tail);
    LastConcat(above, tail);
    assert Last(above, '.') == |above| - 1;
  }

  lemma TopStartBelow(above: string, domain: string, tail: string)
    requires SameDots(domain, tail) && (above == [] || above[|above| - 1] == '.') && '.' in domain
    ensures TopStart(above + tail) == |above| + TopStart(domain)
  {
    var last := Last(domain, '.');
    LastBelow(above, domain, tail);
    LastBelow(above, domain[..last], tail[..last]);
    assert (above + tail)[..|above| + last] == above + tail[..last];
  }

  /** A host whose end is a domain with a dot, up to case, preceded by a dot, has the same top domain. */
  lemma TopBelow(above: string, domain: string, tail: string)
    requires CaseEqual(domain, tail) && (above == [] || above[|above| - 1] == '.') && '.' in domain
    ensures CaseEqual(TopDomain(domain), TopDomain(above + tail))
  {
    CaseEqualDots(domain, tail);
    TopStartBelow(above, domain, tail);
    TopDomainFrom(domain);
    TopDomainFrom(above + tail);
    var from := TopStart(domain);
    assert (above + tail)[|above| + from..] == tail[from..];
    UpTail(domain, from);
    UpTail(tail, from);
  }

  /** The top domain of a host below a domain without a dot is longer than that domain. */
  lemma TopBelowDotless(above: string, tail: string)
    requires above != [] && above[|above| - 1] == '.' && '.' !in tail
    ensures |TopDomain(above + tail)| > |tail|
  {
    LastConcat(above, tail);
  }

  /**
   * A host that tail-matches a domain has the same top domain, up to case, exactly if the domain contains a dot
   * or is the whole host.
   */
  lemma TopDomainsAgree(domain: string, host: string)
    requires Tailmatch(domain, host)
    ensures CaseEqual(TopDomain(domain), TopDomain(host)) <==> '.' in domain || |domain| == |host|
  {
    var k := |host| - |domain|;
    var above, tail := host[..k], host[k..];
    assert host == above + tail;
    if '.' in domain {
      TopBelow(above, domain, tail);
    } else {
      CaseEqualDots(domain, tail);
      assert '.' !in tail;
      if k > 0 {
        assert above[|above| - 1] == host[k - 1];
        TopBelowDotless(above, tail);
      } else {
        assert tail == host;
      }
    }
  }

  /** Case does not matter for the top domain. */
  lemma TopDomainCase(a: string, b: string)
    requires CaseEqual(a, b)
    ensures CaseEqual(TopDomain(a), TopDomain(b))
  {
    assert |Up(a)| == |Up(b)| && b[0..] == b;
    TopDomainsAgree(a, b);
  }

  // ---------------------------------------------------------------------------------------------------------
  // Paths
  // ---------------------------------------------------------------------------------------------------------

  /** The position of the first occurrence of a character, or the length. */
  function First(s: string, c: char): (r: nat)
    ensures r <= |s| && (r < |s| ==> s[r] == c)
    ensures forall j :: 0 <= j < r ==> s[j] != c
  {
    if s == [] || s[0] == c then 0 else 1 + First(s[1..], c)
  }

  /** The path of a request: without the query, and "/" if it does not start with a slash. */
  function UriPath(uri: string): (r: string)
    ensures r != [] && r[0] == '/'
  {
    var path := uri[..First(uri, '?')];
    if path == [] || path[0] != '/' then "/" else path
  }

  predicate PathMatch(cookiePath: string, uri: string) {
    if |cookiePath| == 1 then true
    else
      var path := UriPath(uri);
      && |cookiePath| <= |path|
      && cookiePath == path[..|cookiePath|]
      && (|cookiePath| == |path| || path[|cookiePath|] == '/')
  }

  /** The path attribute without enclosing quotes. */
  function Unquoted(path: string): string {
    var p := if path != [] && path[0] == '"' then path[1..] else path;
    if p != [] && p[|p| - 1] == '"' then p[..|p| - 1] else p
  }

  /** The path attribute as RFC 6265, section 5.2.4, reads it, with "/" as the default path. */
  function AttributePath(path: string): (r: string)
    ensures r != [] && r[0] == '/'
  {
    var p := Unquoted(path);
    if p == [] || p[0] != '/' then "/" else p
  }

  /** The path that is stored with a cookie: a slash at the end is removed unless the path was defaulted. */
  function Sanitize(path: string): string {
    var p := Unquoted(path);
    if p == [] || p[0] != '/' then "/"
    else if p[|p| - 1] == '/' then p[..|p| - 1]
    else p
  }

  /** Path matching as in section 5.1.4 of RFC 6265. */
  predicate RfcPathMatch(cookiePath: string, path: string)
    requires cookiePath != []
  {
    || cookiePath == path
    || (cookiePath < path && (cookiePath[|cookiePath| - 1] == '/' || path[|cookiePath|] == '/'))
  }

  /** Root, or not ending in a slash. */
  predicate NoTrailingSlash(path: string)
    requires path != []
  {
    path == "/" || path[|path| - 1] != '/'
  }

  /** Without a trailing slash the stored path decides as the standard does. */
  lemma PathMatchFollowsRfc(path: string, uri: string)
    requires NoTrailingSlash(AttributePath(path))
    ensures PathMatch(Sanitize(path), uri) <==> RfcPathMatch(AttributePath(path), UriPath(uri))
  {
    var p, u := AttributePath(path), UriPath(uri);
    assert |p| == 1 ==> p == "/";
    if p == "/" {
      assert u == p || p < u by { assert u[..1] == p; }
    }
  }

  /** With one, the path without it is accepted although the standard refuses it. */
  lemma TrailingSlashDiffers(path: string)
    requires !NoTrailingSlash(AttributePath(path)) && '?' !in AttributePath(path)
    ensures var p := AttributePath(path); var uri := p[..|p| - 1];
      PathMatch(Sanitize(path), uri) && !RfcPathMatch(p, UriPath(uri))
  {
    var p := AttributePath(path);
    var uri := p[..|p| - 1];
    assert First(uri, '?') == |uri| && uri[..|uri|] == uri;
  }

  /** A path with a question mark matches nothing, in the program and in the standard. */
  lemma QuestionMarkNeverMatches(path: string, uri: string)
    requires '?' in AttributePath(path)
    ensures !PathMatch(Sanitize(path), uri) && !RfcPathMatch(AttributePath(path), UriPath(uri))
  {
    var p, u := AttributePath(path), UriPath(uri);
    assert '?' !in u;
    var i :| 0 <= i < |p| && p[i] == '?';
    var sp := Sanitize(path);
    assert sp == p || sp == p[..|p| - 1];
    assert sp[i] == '?' && sp[0] == '/';
    assert |sp| <= |u| ==> u[..|sp|][i] != sp[i];
    assert |p| <= |u| ==> u[..|p|][i] != p[i];
  }

  /** The program and the standard agree on all requests exactly if there is no slash to remove, or nothing matches. */
  lemma PathMatchAgrees(path: string)
    ensures (forall uri :: PathMatch(Sanitize(path), uri) <==> RfcPathMatch(AttributePath(path), UriPath(uri)))
            <==> NoTrailingSlash(AttributePath(path)) || '?' in AttributePath(path)
  {
    if NoTrailingSlash(AttributePath(path)) {
      forall uri
        ensures PathMatch(Sanitize(path), uri) <==> RfcPathMatch(AttributePath(path), UriPath(uri))
      {
        PathMatchFollowsRfc(path, uri);
      }
    } else if '?' in AttributePath(path) {
      forall uri
        ensures PathMatch(Sanitize(path), uri) <==> RfcPathMatch(AttributePath(path), UriPath(uri))
      {
        QuestionMarkNeverMatches(path, uri);
      }
    } else {
      TrailingSlashDiffers(path);
    }
  }
}
