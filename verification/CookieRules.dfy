/** The rules for storing and matching cookies (`cookie.c`), on the cookies of one bucket. */
module CookieRules {
  import opened Basics
  import opened CookieText
  import opened Cookies

  // ---------------------------------------------------------------------------------------------------------
  // What adding a cookie to a bucket means
  // ---------------------------------------------------------------------------------------------------------

  /** The first path segment of a stored path: up to the second slash. */
  function FirstSegment(spath: string): string {
    if spath == [] then [] else spath[..1 + First(spath[1..], '/')]
  }

  predicate SameDomain(a: Cookie, b: Cookie) {
    UpOption(a.domain) == UpOption(b.domain)
  }

  /** A new path starts like the first segment of a stored one. */
  predicate Covers(segment: string, spath: string) {
    Up(segment) <= Up(spath)
  }

  /** A non-secure cookie from a non-secure origin may not overlay a secure one of the same name and domain. */
  predicate Overlays(held: Cookie, incoming: Cookie, secureOrigin: bool) {
    && CaseEqual(held.name, incoming.name) && SameDomain(held, incoming)
    && held.spath.Some? && incoming.spath.Some?
    && held.secure && !incoming.secure && !secureOrigin
    && Covers(FirstSegment(held.spath.value), incoming.spath.value)
  }

  /** Stored paths are empty or start with a slash; both the empty path and "/" stand for the root. */
  predicate StoredPath(spath: string) {
    spath == "" || spath[0] == '/'
  }

  predicate IsRoot(spath: string) {
    spath == "" || spath == "/"
  }

  /** The intended rule: "/login" protects itself and what lies below it, not "/loginhelper"; the root protects all. */
  predicate Protects(segment: string, spath: string) {
    IsRoot(segment) || (Up(segment) <= Up(spath) && (|segment| == |spath| || spath[|segment|] == '/'))
  }

  /**
   * Program and rule differ in two cases: the root stored as "/" does not keep an empty path out, and a segment keeps
   * out what only continues its last name.
   */
  lemma OverlayDiffers(stored: string, spath: string)
    requires StoredPath(stored) && StoredPath(spath)
    ensures var segment := FirstSegment(stored);
      && (!Covers(segment, spath) && Protects(segment, spath) <==> segment == "/" && spath == "")
      && (Covers(segment, spath) && !Protects(segment, spath) <==>
          && !IsRoot(segment) && |segment| < |spath| && CaseEqual(segment, spath[..|segment|])
          && spath[|segment|] != '/')
  {
    var segment := FirstSegment(stored);
    if spath != "" {
      assert Up(spath)[0] == '/';
    }
    if |segment| < |spath| {
      assert Up(spath[..|segment|]) == Up(spath)[..|segment|];
    }
  }

  /** The comparison of the program is the intended rule for all new paths exactly if the stored path is empty. */
  lemma OverlayRule(stored: string)
    requires StoredPath(stored)
    ensures var segment := FirstSegment(stored);
      (forall spath :: StoredPath(spath) ==> (Covers(segment, spath) <==> Protects(segment, spath))) <==> stored == ""
  {
    var segment := FirstSegment(stored);
    if segment == "/" {
      OverlayDiffers(stored, "");
    } else if segment != "" {
      var spath := segment + "x";
      assert StoredPath(spath) && spath[|segment|] == 'x';
      assert Up(segment) == Up(spath)[..|segment|];
      OverlayDiffers(stored, spath);
    }
  }

  /** A stored cookie keeps a new one out: by overlay protection, or a live one keeps out one read from a file. */
  predicate Refuses(held: Cookie, incoming: Cookie, secureOrigin: bool) {
    || Overlays(held, incoming, secureOrigin)
    || (KeyOf(held) == KeyOf(incoming) && held.livecookie && !incoming.livecookie)
  }

  predicate Rejected(list: seq<Cookie>, co: Cookie, secureOrigin: bool) {
    exists c :: c in list && Refuses(c, co, secureOrigin)
  }

  lemma LoginSegment()
    ensures FirstSegment("/login") == "/login" && Covers("/login", "/loginhelper")
    ensures !Protects("/login", "/loginhelper")
  {
    assert '/' !in "login";
    assert "/loginhelper"[..6] == "/login" && Up("/loginhelper")[..6] == Up("/loginhelper"[..6]);
  }

  /** The path that the comment in the program calls allowed is refused. */
  lemma LoginHelperIsRefused(list: seq<Cookie>, held: Cookie, incoming: Cookie)
    requires held in list && held.secure && held.spath == Some("/login")
    requires !incoming.secure && incoming.spath == Some("/loginhelper")
    requires CaseEqual(held.name, incoming.name) && SameDomain(held, incoming)
    ensures Rejected(list, incoming, false) && !Protects(FirstSegment("/login"), "/loginhelper")
  {
    LoginSegment();
    assert Refuses(held, incoming, false);
  }

  /** A secure cookie for the root, from a path without a slash, does not protect an empty path. */
  lemma RootIsNotProtected(held: Cookie, incoming: Cookie)
    requires held.spath == Some(Sanitize("x")) && incoming.spath == Some(Sanitize("/"))
    ensures IsRoot(held.spath.value) && Protects(FirstSegment(held.spath.value), incoming.spath.value)
    ensures !Overlays(held, incoming, false)
  {
  }

  /** The same name, domain and path, up to case, and the same kind of domain match. */
  predicate SameCookie(a: Cookie, b: Cookie) {
    && CaseEqual(a.name, b.name)
    && (if a.domain.None? || b.domain.None? then a.domain == b.domain
        else CaseEqual(a.domain.value, b.domain.value) && a.tailmatch == b.tailmatch)
    && (if a.spath.None? || b.spath.None? then a.spath == b.spath else CaseEqual(a.spath.value, b.spath.value))
  }

  lemma KeyMeaning(a: Cookie, b: Cookie)
    ensures KeyOf(a) == KeyOf(b) <==> SameCookie(a, b)
  {
  }

  /** A stored cookie keeps a new one out that is not from a secure origin and would lie over it. */
  predicate LiesOver(held: Cookie, incoming: Cookie) {
    && CaseEqual(held.name, incoming.name) && SameDomain(held, incoming) && held.spath.Some? && incoming.spath.Some?
    && var segment := FirstSegment(held.spath.value);
    |segment| <= |incoming.spath.value| && CaseEqual(segment, incoming.spath.value[..|segment|])
  }

  /** A cookie is refused exactly if it is not live and would replace a live one, or if neither it nor its origin is
    * secure and it would lie over a secure one.
    */
  lemma RefusedExactly(list: seq<Cookie>, co: Cookie, secureOrigin: bool)
    ensures Rejected(list, co, secureOrigin) <==>
      || (!co.livecookie && exists c :: c in list && c.livecookie && SameCookie(c, co))
      || (!secureOrigin && !co.secure && exists c :: c in list && c.secure && LiesOver(c, co))
  {
    forall c | c in list
      ensures Refuses(c, co, secureOrigin) <==>
        || (!co.livecookie && c.livecookie && SameCookie(c, co))
        || (!secureOrigin && !co.secure && c.secure && LiesOver(c, co))
    {
      KeyMeaning(c, co);
      if c.spath.Some? && co.spath.Some? {
        CoversMeaning(c, co);
      }
    }
  }

  lemma CoversMeaning(held: Cookie, incoming: Cookie)
    requires held.spath.Some? && incoming.spath.Some?
    ensures var segment, spath := FirstSegment(held.spath.value), incoming.spath.value;
      Covers(segment, spath) <==> |segment| <= |spath| && CaseEqual(segment, spath[..|segment|])
  {
    var segment, spath := FirstSegment(held.spath.value), incoming.spath.value;
    if |segment| <= |spath| {
      assert Up(spath[..|segment|]) == Up(spath)[..|segment|];
    }
  }

  /** A secure cookie with a path is never replaced from an insecure origin by one that is not secure. */
  lemma SecureIsProtected(list: seq<Cookie>, held: Cookie, co: Cookie)
    requires held in list && held.secure && held.spath.Some? && SameCookie(held, co) && !co.secure
    ensures Rejected(list, co, false)
  {
    var segment, spath := FirstSegment(held.spath.value), co.spath.value;
    assert Up(segment) == Up(held.spath.value)[..|segment|] == Up(spath[..|segment|]);
    CoversMeaning(held, co);
    assert Refuses(held, co, false);
  }

  /** The position of the cookie with a key, or the length of the list. */
  function Place(list: seq<Cookie>, key: Key): (r: nat)
    ensures r <= |list| && (r < |list| ==> KeyOf(list[r]) == key)
    ensures forall j :: 0 <= j < r ==> KeyOf(list[j]) != key
  {
    if list == [] || KeyOf(list[0]) == key then 0 else 1 + Place(list[1..], key)
  }

  /** The cookie as it is stored: when replacing, the creation time is kept from the old one. */
  function AsStored(list: seq<Cookie>, co: Cookie): Cookie {
    var k := Place(list, KeyOf(co));
    if k < |list| then co.(creationtime := list[k].creationtime) else co
  }

  function Stored(list: seq<Cookie>, co: Cookie): seq<Cookie> {
    var k := Place(list, KeyOf(co));
    if k < |list| then list[k := AsStored(list, co)] else list + [co]
  }

  ghost function OtherKey(key: Key): iset<Cookie> {
    iset c: Cookie | KeyOf(c) != key
  }

  /** Storing a cookie leaves all cookies with other keys as they are, in order, and leaves one with its own key. */
  lemma StoredMeaning(list: seq<Cookie>, co: Cookie)
    requires Distinct(list)
    ensures Filter(Stored(list, co), OtherKey(KeyOf(co))) == Filter(list, OtherKey(KeyOf(co)))
    ensures forall c :: c in Stored(list, co) && KeyOf(c) == KeyOf(co) <==> c == AsStored(list, co)
    ensures forall c :: c in list && !SameCookie(c, co) ==> c in Stored(list, co)
    ensures forall c :: c in Stored(list, co) && SameCookie(c, co) <==> c == AsStored(list, co)
  {
    var k, s := Place(list, KeyOf(co)), AsStored(list, co);
    if k < |list| {
      FilterUpdate(list, k, s, OtherKey(KeyOf(co)));
    } else {
      FilterSnoc(list, co, OtherKey(KeyOf(co)));
    }
    assert Stored(list, co)[k] == s;
    forall c | c in Stored(list, co) && KeyOf(c) == KeyOf(co)
      ensures c == s
    {
      StoredOnce(list, co, c);
    }
    forall c
      ensures KeyOf(c) == KeyOf(co) <==> SameCookie(c, co)
    {
      KeyMeaning(c, co);
    }
    FilterMembers(list, OtherKey(KeyOf(co)));
    FilterMembers(Stored(list, co), OtherKey(KeyOf(co)));
  }

  /** A cookie that replaces an old one takes over its creation time and nothing else. */
  lemma CreationTimeIsKept(list: seq<Cookie>, co: Cookie)
    requires Distinct(list)
    ensures forall c :: c in list && SameCookie(c, co) ==> AsStored(list, co) == co.(creationtime := c.creationtime)
    ensures (forall c :: c in list ==> !SameCookie(c, co)) ==> AsStored(list, co) == co
  {
    var k := Place(list, KeyOf(co));
    forall c
      ensures KeyOf(c) == KeyOf(co) <==> SameCookie(c, co)
    {
      KeyMeaning(c, co);
    }
    forall j | 0 <= j < |list| && SameCookie(list[j], co)
      ensures j == k
    {
      assert KeyOf(list[j]) == KeyOf(co);
      DistinctKeys(list, j, k);
    }
    assert k < |list| ==> list[k] in list;
  }

  lemma StoredOnce(list: seq<Cookie>, co: Cookie, c: Cookie)
    requires Distinct(list) && c in Stored(list, co) && KeyOf(c) == KeyOf(co)
    ensures c == AsStored(list, co)
  {
    var k := Place(list, KeyOf(co));
    assert forall j :: k < j < |list| ==> Apart(list[k], list[j]);
    var j :| 0 <= j < |Stored(list, co)| && Stored(list, co)[j] == c;
  }

  lemma {:induction false} FilterUpdate(s: seq<Cookie>, k: nat, c: Cookie, p: iset<Cookie>)
    requires k < |s| && s[k] !in p && c !in p
    ensures Filter(s[k := c], p) == Filter(s, p)
  {
    var n := |s| - 1;
    if k < n {
      FilterUpdate(s[..n], k, c, p);
      assert s[k := c][..n] == s[..n][k := c];
    } else {
      assert s[k := c][..n] == s[..n];
    }
  }

  lemma StoredDistinct(list: seq<Cookie>, co: Cookie)
    requires Distinct(list) && forall c :: c in list ==> c.creationtime < co.creationtime
    ensures Distinct(Stored(list, co))
  {
    var k, after := Place(list, KeyOf(co)), Stored(list, co);
    forall i, j | 0 <= i < j < |after|
      ensures Apart(after[i], after[j])
    {
      if j < |list| {
        assert Apart(list[i], list[j]);
      } else {
        assert list[i] in list;
      }
    }
  }

  lemma DistinctKeys(s: seq<Cookie>, j: nat, l: nat)
    requires Distinct(s)
    ensures j < |s| && l < |s| && KeyOf(s[j]) == KeyOf(s[l]) ==> j == l
  {
    if j < l < |s| {
      assert Apart(s[j], s[l]);
    } else if l < j < |s| {
      assert Apart(s[l], s[j]);
    }
  }

  // ---------------------------------------------------------------------------------------------------------
  // Matching
  // ---------------------------------------------------------------------------------------------------------

  predicate DomainMatch(env: Env, c: Cookie, host: string) {
    || c.domain.None?
    || (c.tailmatch && !env.isIp(host) && Tailmatch(c.domain.value, host))
    || ((!c.tailmatch || env.isIp(host)) && CaseEqual(host, c.domain.value))
  }

  predicate Matches(env: Env, c: Cookie, host: string, path: string, secure: bool) {
    && (c.secure ==> secure)
    && DomainMatch(env, c, host)
    && (c.spath.None? || PathMatch(c.spath.value, path))
  }

  // What a stored cookie must fulfil to be sent, without the order of the tests in the program; see section 5.4 of
  // RFC 6265.

  predicate BelowDomain(domain: string, host: string) {
    |domain| < |host| && host[|host| - |domain| - 1] == '.' && CaseEqual(domain, host[|host| - |domain|..])
  }

  /** The cookie has no domain, that of the host, or one that the host lies below; an address is below no domain. */
  predicate ForHost(env: Env, c: Cookie, host: string) {
    || c.domain.None? || CaseEqual(c.domain.value, host)
    || (c.tailmatch && !env.isIp(host) && BelowDomain(c.domain.value, host))
  }

  /** The cookie has no path, the root, which is a single character, or one that the requested path is or lies below. */
  predicate ForPath(c: Cookie, uri: string) {
    c.spath.Some? && |c.spath.value| != 1 ==>
      var path, spath := UriPath(uri), c.spath.value;
      spath <= path && (|spath| < |path| ==> path[|spath|] == '/')
  }

  predicate Fits(env: Env, c: Cookie, host: string, path: string, secure: bool) {
    (secure || !c.secure) && ForHost(env, c, host) && ForPath(c, path)
  }

  predicate Sendable(env: Env, c: Cookie, host: string, path: string, secure: bool, now: int) {
    Fits(env, c, host, path, secure) && (c.expires == 0 || c.expires >= now)
  }

  /** The tests of the program decide whether a cookie fits the request. */
  lemma MatchesMeaning(env: Env, c: Cookie, host: string, path: string, secure: bool)
    ensures Matches(env, c, host, path, secure) <==> Fits(env, c, host, path, secure)
  {
    if c.domain.Some? && |c.domain.value| == |host| {
      assert host[0..] == host;
    }
  }

  ghost function Matching(env: Env, host: string, path: string, secure: bool): iset<Cookie> {
    iset c: Cookie | Matches(env, c, host, path, secure)
  }

  /** The index can be trusted for a cookie: it has a domain, which for tail matching has a dot and is no address. */
  predicate Indexable(env: Env, c: Cookie) {
    c.domain.Some? && (c.tailmatch ==> '.' in c.domain.value && !env.isIp(c.domain.value))
  }

  /** A cookie that matches a host is in the bucket of the host. */
  lemma MatchIsIndexed(env: Env, c: Cookie, host: string)
    requires CaseBlind(env) && Indexable(env, c) && DomainMatch(env, c, host)
    ensures CookieHash(env, c.domain) == CookieHash(env, Some(host))
  {
    if CaseEqual(host, c.domain.value) {
      TopDomainCase(host, c.domain.value);
    } else {
      TopDomainsAgree(c.domain.value, host);
    }
  }

  /** For a tail-matching cookie below whose domain the host lies, a dot is necessary: some hash separates them. */
  lemma DotIsNeeded(env: Env, c: Cookie, host: string) returns (other: Env)
    requires c.domain.Some? && c.tailmatch && '.' !in c.domain.value && |c.domain.value| < |host|
    requires DomainMatch(env, c, host) && !env.isIp(host) && !env.isIp(c.domain.value)
    ensures other.isIp == env.isIp && DomainMatch(other, c, host)
    ensures CookieHash(other, c.domain) != CookieHash(other, Some(host))
  {
    TopDomainsAgree(c.domain.value, host);
    var top := Up(TopDomain(host));
    other := Env(env.isIp, s => if s == top then 1 else 0);
  }

  // ---------------------------------------------------------------------------------------------------------
  // Walking a bucket
  // ---------------------------------------------------------------------------------------------------------

  lemma FilterStep(was: seq<Cookie>, k: nat, p: iset<Cookie>)
    requires k < |was|
    ensures Filter(was[..k + 1], p) == if was[k] in p then Filter(was[..k], p) + [was[k]] else Filter(was[..k], p)
  {
    assert was[..k + 1][..k] == was[..k];
  }

  function Without<T>(s: seq<T>, j: nat): seq<T>
    requires j < |s|
  {
    s[..j] + s[j + 1..]
  }

  /** The first `k` cookies of a list have been looked at, and `j` of them kept. */
  ghost predicate Half(was: seq<Cookie>, k: nat, p: iset<Cookie>, list: seq<Cookie>, j: nat) {
    k <= |was| && j == |Filter(was[..k], p)| && list == Filter(was[..k], p) + was[k..]
  }

  /** A cookie is taken out of the list or kept in its place. */
  lemma HalfStep(was: seq<Cookie>, k: nat, p: iset<Cookie>, list: seq<Cookie>, j: nat)
    requires Half(was, k, p, list, j) && j < |list|
    ensures k < |was| && list[j] == was[k]
    ensures was[k] in p ==> Half(was, k + 1, p, list, j + 1)
    ensures was[k] !in p ==> Half(was, k + 1, p, Without(list, j), j)
  {
    FilterStep(was, k, p);
    assert list[j + 1..] == was[k + 1..];
  }

  lemma HalfEnd(was: seq<Cookie>, k: nat, p: iset<Cookie>, list: seq<Cookie>, j: nat)
    requires Half(was, k, p, list, j) && j == |list|
    ensures was[..k] == was && list == Filter(was, p)
  {
    assert was[..k] == was;
  }

  /** The least expiry time of persistent cookies that is not above `next`, or `next`. */
  ghost predicate IsLeast(list: seq<Cookie>, next: int, least: int) {
    && least <= next
    && (forall c :: c in list && c.expires != 0 ==> least <= c.expires)
    && (least == next || exists c :: c in list && c.expires == least)
  }

  function LeastExpiry(list: seq<Cookie>, next: int): int {
    if list == [] then next
    else
      var least, e := LeastExpiry(list[..|list| - 1], next), list[|list| - 1].expires;
      if e != 0 && e < least then e else least
  }

  lemma LeastSnoc(list: seq<Cookie>, c: Cookie, next: int)
    ensures LeastExpiry(list + [c], next) ==
      var least := LeastExpiry(list, next); if c.expires != 0 && c.expires < least then c.expires else least
  {
    assert (list + [c])[..|list|] == list;
  }

  lemma {:induction false} LeastMeans(list: seq<Cookie>, next: int)
    ensures IsLeast(list, next, LeastExpiry(list, next))
  {
    if list != [] {
      var front, c := list[..|list| - 1], list[|list| - 1];
      LeastMeans(front, next);
      assert c in list && forall d :: d in list ==> d in front || d == c;
      if LeastExpiry(front, next) != next {
        var d :| d in front && d.expires == LeastExpiry(front, next);
        assert d in list;
      }
    }
  }
}
