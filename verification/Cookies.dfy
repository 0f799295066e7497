/** Cookies, their keys and order, and lists of cookies (`cookie.c`). */
module Cookies {
  import opened Basics
  import opened CookieText

  /** `expires` is 0 for a session cookie. */
  datatype Cookie = Cookie(
    name: string, value: string, path: Option<string>, spath: Option<string>, domain: Option<string>,
    expires: int, tailmatch: bool, secure: bool, livecookie: bool, httponly: bool, creationtime: int)

  const SIZE: nat := 63
  const MAX_TIME := 0x7fff_ffff_ffff_ffff
  const MAX_SEND: nat := 150

  /** What the cookie engine takes from elsewhere: the test for numeric addresses and the hash of a string. */
  datatype Env = Env(isIp: string -> bool, hash: string -> nat)

  /** Numeric addresses are recognised whatever the case of their hexadecimal digits. */
  ghost predicate CaseBlind(env: Env) {
    forall a, b :: CaseEqual(a, b) ==> env.isIp(a) == env.isIp(b)
  }

  function CookieHash(env: Env, domain: Option<string>): (r: nat)
    ensures r < SIZE
  {
    if domain.None? || env.isIp(domain.value) then 0 else env.hash(Up(TopDomain(domain.value))) % SIZE
  }

  /** The key of a cookie: a new cookie replaces the one with the same key. */
  datatype Key = Key(name: string, domain: Option<string>, tailmatch: bool, spath: Option<string>)

  function UpOption(s: Option<string>): Option<string> {
    if s.None? then None else Some(Up(s.value))
  }

  function KeyOf(c: Cookie): Key {
    Key(Up(c.name), UpOption(c.domain), c.domain.Some? && c.tailmatch, UpOption(c.spath))
  }

  lemma SameKeySameHash(env: Env, a: Cookie, b: Cookie)
    requires CaseBlind(env) && KeyOf(a) == KeyOf(b)
    ensures CookieHash(env, a.domain) == CookieHash(env, b.domain)
  {
    if a.domain.Some? {
      TopDomainCase(a.domain.value, b.domain.value);
    }
  }

  predicate Expired(c: Cookie, now: int) {
    c.expires != 0 && c.expires < now
  }

  ghost function Unexpired(now: int): iset<Cookie> {
    iset c: Cookie | !Expired(c, now)
  }

  ghost function Persistent(): iset<Cookie> {
    iset c: Cookie | c.expires != 0
  }

  // ---------------------------------------------------------------------------------------------------------
  // Lists
  // ---------------------------------------------------------------------------------------------------------

  ghost function Filter(s: seq<Cookie>, p: iset<Cookie>): (r: seq<Cookie>)
    ensures |r| <= |s|
  {
    if s == [] then []
    else Filter(s[..|s| - 1], p) + if s[|s| - 1] in p then [s[|s| - 1]] else []
  }

  lemma {:induction false} FilterMembers(s: seq<Cookie>, p: iset<Cookie>)
    ensures forall c :: c in Filter(s, p) <==> c in s && c in p
  {
    if s != [] {
      FilterMembers(s[..|s| - 1], p);
    }
  }

  lemma FilterSnoc(s: seq<Cookie>, c: Cookie, p: iset<Cookie>)
    ensures Filter(s + [c], p) == Filter(s, p) + if c in p then [c] else []
  {
    assert (s + [c])[..|s|] == s;
  }

  lemma {:induction false} FilterConcat(s: seq<Cookie>, t: seq<Cookie>, p: iset<Cookie>)
    ensures Filter(s + t, p) == Filter(s, p) + Filter(t, p)
  {
    if t == [] {
      assert s + t == s;
    } else {
      var n := |t| - 1;
      FilterConcat(s, t[..n], p);
      assert (s + t)[..|s + t| - 1] == s + t[..n];
    }
  }

  lemma {:induction false} FilterAll(s: seq<Cookie>, p: iset<Cookie>)
    requires forall c :: c in s ==> c in p
    ensures Filter(s, p) == s
  {
    if s != [] {
      FilterAll(s[..|s| - 1], p);
      assert s == s[..|s| - 1] + [s[|s| - 1]];
    }
  }

  lemma FilterNone(s: seq<Cookie>, p: iset<Cookie>)
    requires forall c :: c in s ==> c !in p
    ensures Filter(s, p) == []
  {
    FilterMembers(s, p);
    if Filter(s, p) != [] {
      assert Filter(s, p)[0] in Filter(s, p);
    }
  }

  /** Different keys and different creation times. */
  predicate Apart(a: Cookie, b: Cookie) {
    KeyOf(a) != KeyOf(b) && a.creationtime != b.creationtime
  }

  predicate Distinct(s: seq<Cookie>) {
    forall j, k :: 0 <= j < k < |s| ==> Apart(s[j], s[k])
  }

  lemma {:induction false} FilterDistinct(s: seq<Cookie>, p: iset<Cookie>)
    requires Distinct(s)
    ensures Distinct(Filter(s, p))
  {
    if s != [] {
      var n := |s| - 1;
      FilterDistinct(s[..n], p);
      FilterMembers(s[..n], p);
      var f := Filter(s[..n], p);
      forall j | 0 <= j < |f|
        ensures Apart(f[j], s[n])
      {
        assert f[j] in f && f[j] in s[..n];
      }
    }
  }

  /** All cookies, bucket after bucket. */
  function Flatten(bs: seq<seq<Cookie>>): seq<Cookie> {
    if bs == [] then [] else Flatten(bs[..|bs| - 1]) + bs[|bs| - 1]
  }

  lemma {:induction false} FlattenUpdate(bs: seq<seq<Cookie>>, i: nat, s: seq<Cookie>)
    requires i < |bs|
    ensures |Flatten(bs[i := s])| == |Flatten(bs)| - |bs[i]| + |s|
  {
    var n := |bs| - 1;
    if i < n {
      FlattenUpdate(bs[..n], i, s);
      assert bs[i := s][..n] == bs[..n][i := s];
    } else {
      assert bs[i := s][..n] == bs[..n];
    }
  }

  lemma {:induction false} FlattenEmpty(bs: seq<seq<Cookie>>)
    requires forall i :: 0 <= i < |bs| ==> bs[i] == []
    ensures Flatten(bs) == []
  {
    if bs != [] {
      FlattenEmpty(bs[..|bs| - 1]);
    }
  }

  // ---------------------------------------------------------------------------------------------------------
  // Order of the cookies sent
  // ---------------------------------------------------------------------------------------------------------

  function LengthOf(s: Option<string>): nat {
    if s.None? then 0 else |s.value|
  }

  /** Longer paths, longer domains, longer names and newer cookies first: `a` sorts strictly before `b`. */
  predicate Before(a: Cookie, b: Cookie) {
    var p, q := LengthOf(a.path), LengthOf(b.path);
    var d, e := LengthOf(a.domain), LengthOf(b.domain);
    if p != q then p > q
    else if d != e then d > e
    else if |a.name| != |b.name| then |a.name| > |b.name|
    else a.creationtime > b.creationtime
  }

  /** The order that section 5.4 of RFC 6265 asks for: longer paths first, then older cookies. */
  predicate RfcBefore(a: Cookie, b: Cookie) {
    || LengthOf(a.path) > LengthOf(b.path)
    || (LengthOf(a.path) == LengthOf(b.path) && a.creationtime < b.creationtime)
  }

  /** The program agrees with the standard if the lengths of the paths differ. Among equal ones it agrees exactly if the
    * older cookie has the longer domain, or a domain of the same length and the longer name.
    */
  lemma OrderAgrees(a: Cookie, b: Cookie)
    requires a.creationtime < b.creationtime
    ensures (Before(a, b) <==> RfcBefore(a, b)) <==>
      || LengthOf(a.path) != LengthOf(b.path)
      || LengthOf(a.domain) > LengthOf(b.domain)
      || (LengthOf(a.domain) == LengthOf(b.domain) && |a.name| > |b.name|)
  {
  }

  predicate Sorted(s: seq<Cookie>) {
    forall j, k :: 0 <= j < k < |s| ==> Before(s[j], s[k])
  }

  /** The order is total on cookies with different creation times. */
  lemma BeforeIsTotal(a: Cookie, b: Cookie, c: Cookie)
    ensures !(Before(a, b) && Before(b, a))
    ensures Before(a, b) && Before(b, c) ==> Before(a, c)
    ensures a.creationtime != b.creationtime ==> Before(a, b) || Before(b, a)
  {
  }

  function Insert(c: Cookie, s: seq<Cookie>): (r: seq<Cookie>)
    ensures forall d :: d in r <==> d == c || d in s
  {
    if s == [] || Before(c, s[0]) then [c] + s else [s[0]] + Insert(c, s[1..])
  }

  /** The sorted form of a list. */
  function SortedForm(s: seq<Cookie>): (r: seq<Cookie>)
    ensures forall d :: d in r <==> d in s
  {
    if s == [] then [] else Insert(s[0], SortedForm(s[1..]))
  }

  lemma {:induction false} InsertSorts(c: Cookie, s: seq<Cookie>)
    requires Sorted(s) && forall d :: d in s ==> d.creationtime != c.creationtime
    ensures Sorted(Insert(c, s)) && multiset(Insert(c, s)) == multiset(s) + multiset{c}
  {
    if s == [] {
    } else if Before(c, s[0]) {
      assert [c] + s == Insert(c, s);
    } else {
      InsertSorts(c, s[1..]);
      var t := Insert(c, s[1..]);
      assert forall d :: d in t ==> Before(s[0], d);
      assert s == [s[0]] + s[1..];
    }
  }

  lemma {:induction false} SortedFormSorts(s: seq<Cookie>)
    requires Distinct(s)
    ensures Sorted(SortedForm(s)) && multiset(SortedForm(s)) == multiset(s)
  {
    if s != [] {
      SortedFormSorts(s[1..]);
      assert forall d :: d in s[1..] ==> Apart(s[0], d);
      InsertSorts(s[0], SortedForm(s[1..]));
      assert s == [s[0]] + s[1..];
    }
  }

  lemma SortedHeads(a: seq<Cookie>, b: seq<Cookie>)
    requires a != [] && Sorted(a) && Sorted(b) && multiset(a) == multiset(b)
    ensures b != [] && a[0] == b[0]
  {
    assert a[0] in multiset(b);
    assert b[0] in multiset(a);
  }

  /** A list has only one sorted arrangement, so the result does not depend on the sorting algorithm. */
  lemma {:induction false} SortedIsUnique(a: seq<Cookie>, b: seq<Cookie>)
    requires Sorted(a) && Sorted(b) && multiset(a) == multiset(b)
    ensures a == b
  {
    if a == [] {
      assert |multiset(b)| == 0;
    } else {
      SortedHeads(a, b);
      assert a == [a[0]] + a[1..] && b == [a[0]] + b[1..];
      assert multiset(a[1..]) == multiset(a) - multiset{a[0]};
      assert multiset(b[1..]) == multiset(b) - multiset{a[0]};
      SortedIsUnique(a[1..], b[1..]);
    }
  }
}
