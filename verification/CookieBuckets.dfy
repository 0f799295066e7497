/** The buckets of the cookie jar: linked lists of cookies, and how cookies are taken out of them and put in. */
module CookieBuckets {
  import opened Basics
  import opened CookieText
  import opened Cookies
  import opened CookieRules

  lemma SegmentOverlays(stored: string, spath: string)
    ensures var s := FirstSegment(stored);
      Up(s) <= Up(spath) <==> |s| <= |spath| && CaseEqual(s, spath[..|s|])
  {
    var s := FirstSegment(stored);
    if |s| <= |spath| {
      assert Up(spath[..|s|]) == Up(spath)[..|s|];
    }
  }

  /** The first test of `Curl_cookie_add` on a stored cookie. */
  method IsOverlaid(c: Cookie, co: Cookie, secureOrigin: bool) returns (overlaid: bool)
    ensures overlaid <==> Overlays(c, co, secureOrigin)
  {
    overlaid := false;
    if CaseEqual(c.name, co.name) {
      var matchingDomains := (c.domain.Some? && co.domain.Some? && CaseEqual(c.domain.value, co.domain.value))
        || (c.domain.None? && co.domain.None?);
      if matchingDomains && c.spath.Some? && co.spath.Some? && c.secure && !co.secure && !secureOrigin {
        var segment := FirstSegment(c.spath.value);
        SegmentOverlays(c.spath.value, co.spath.value);
        overlaid := |segment| <= |co.spath.value| && CaseEqual(segment, co.spath.value[..|segment|]);
      }
    }
  }

  /** The second test: the stored cookie is an old version of the new one. */
  method IsOld(c: Cookie, co: Cookie) returns (replaceOld: bool)
    ensures replaceOld <==> KeyOf(c) == KeyOf(co)
  {
    replaceOld := false;
    if CaseEqual(c.name, co.name) {
      if c.domain.Some? && co.domain.Some? {
        if CaseEqual(c.domain.value, co.domain.value) && c.tailmatch == co.tailmatch {
          replaceOld := true;
        }
      } else if c.domain.None? && co.domain.None? {
        replaceOld := true;
      }
      if replaceOld {
        if c.spath.Some? && co.spath.Some? && !CaseEqual(c.spath.value, co.spath.value) {
          replaceOld := false;
        } else if c.spath.None? != co.spath.None? {
          replaceOld := false;
        }
      }
    }
  }

  /** The first 150 cookies of a list. */
  function Capped(s: seq<Cookie>): seq<Cookie> {
    if |s| <= MAX_SEND then s else s[..MAX_SEND]
  }

  /** The same cookies in the order in which they are sent. */
  ghost predicate IsArrangement(a: seq<Cookie>, b: seq<Cookie>) {
    Sorted(a) && multiset(a) == multiset(b)
  }

  /** What is collected fits the request, and all that fits is collected unless there are more than 150. */
  lemma CollectedMeaning(env: Env, list: seq<Cookie>, host: string, path: string, secure: bool, r: seq<Cookie>)
    requires multiset(r) == multiset(Capped(Filter(list, Matching(env, host, path, secure))))
    ensures |r| <= 150 && forall c :: c in r ==> c in list && Fits(env, c, host, path, secure)
    ensures |r| < 150 ==> forall c :: c in list && Fits(env, c, host, path, secure) ==> c in r
  {
    var matches := Filter(list, Matching(env, host, path, secure));
    FilterMembers(list, Matching(env, host, path, secure));
    assert |r| == |multiset(r)| == |Capped(matches)|;
    forall c
      ensures c in matches <==> c in list && Fits(env, c, host, path, secure)
    {
      MatchesMeaning(env, c, host, path, secure);
    }
    forall c
      ensures c in r <==> c in Capped(matches)
    {
      assert c in r <==> c in multiset(r);
    }
  }

  /** In the order of sending: longer paths first, then longer domains, longer names, and newer cookies. */
  predicate InSendingOrder(list: seq<Cookie>) {
    forall j, k :: 0 <= j < k < |list| ==>
      var a, b := list[j], list[k];
      && LengthOf(a.path) >= LengthOf(b.path)
      && (LengthOf(a.path) == LengthOf(b.path) ==> LengthOf(a.domain) >= LengthOf(b.domain))
      && (LengthOf(a.path) == LengthOf(b.path) && LengthOf(a.domain) == LengthOf(b.domain) ==>
            |a.name| > |b.name| || (|a.name| == |b.name| && a.creationtime > b.creationtime))
  }

  lemma SortedMeaning(list: seq<Cookie>)
    requires Sorted(list)
    ensures InSendingOrder(list)
  {
    assert forall j, k :: 0 <= j < k < |list| ==> Before(list[j], list[k]);
  }

  /** What may be sent of some cookies is sent, in order, unless there are more than 150; nothing else is. */
  ghost predicate IsSent(env: Env, all: seq<Cookie>, host: string, path: string, secure: bool, now: int,
                         list: seq<Cookie>) {
    && |list| <= 150 && InSendingOrder(list)
    && (forall c :: c in list ==> c in all && Sendable(env, c, host, path, secure, now))
    && (|list| < 150 ==> forall c :: c in all && Sendable(env, c, host, path, secure, now) ==> c in list)
  }

  lemma SentMeaning(env: Env, all: seq<Cookie>, host: string, path: string, secure: bool, now: int, list: seq<Cookie>)
    requires var matches := Filter(Filter(all, Unexpired(now)), Matching(env, host, path, secure));
      IsArrangement(list, Capped(matches))
    ensures IsSent(env, all, host, path, secure, now, list)
  {
    var some := Filter(all, Unexpired(now));
    CollectedMeaning(env, some, host, path, secure, list);
    FilterMembers(all, Unexpired(now));
    SortedMeaning(list);
  }

  lemma CappedPrefix(list: seq<Cookie>, k: nat, p: iset<Cookie>)
    requires k <= |list| && (k == |list| || |Filter(list[..k], p)| == MAX_SEND) && |Filter(list[..k], p)| <= MAX_SEND
    ensures Capped(Filter(list, p)) == Filter(list[..k], p)
  {
    assert list == list[..k] + list[k..];
    FilterConcat(list[..k], list[k..], p);
    if k == |list| {
      assert list[..k] == list;
    }
  }

  function Reversed(s: seq<Cookie>): (r: seq<Cookie>)
    ensures |r| == |s|
  {
    if s == [] then [] else [s[|s| - 1]] + Reversed(s[..|s| - 1])
  }

  lemma {:induction false} ReversedAt(s: seq<Cookie>, k: nat)
    requires k < |s|
    ensures Reversed(s)[k] == s[|s| - 1 - k]
  {
    if k > 0 {
      ReversedAt(s[..|s| - 1], k - 1);
    }
  }

  lemma {:induction false} ReversedSame(s: seq<Cookie>)
    ensures multiset(Reversed(s)) == multiset(s)
  {
    if s != [] {
      ReversedSame(s[..|s| - 1]);
      assert s == s[..|s| - 1] + [s[|s| - 1]];
    }
  }

  lemma ReversedDistinct(s: seq<Cookie>)
    requires Distinct(s)
    ensures Distinct(Reversed(s))
  {
    forall j, k | 0 <= j < k < |s|
      ensures Apart(Reversed(s)[j], Reversed(s)[k])
    {
      ReversedAt(s, j);
      ReversedAt(s, k);
      assert Apart(s[|s| - 1 - k], s[|s| - 1 - j]);
    }
  }

  lemma CollectStep(list: seq<Cookie>, k: nat, p: iset<Cookie>)
    requires k < |list|
    ensures var r := Reversed(Filter(list[..k], p));
      Reversed(Filter(list[..k + 1], p)) == if list[k] in p then [list[k]] + r else r
  {
    FilterStep(list, k, p);
    var f := Filter(list[..k], p);
    assert (f + [list[k]])[..|f|] == f;
  }

  lemma CollectEnd(list: seq<Cookie>, k: nat, p: iset<Cookie>)
    requires Distinct(list) && k <= |list| && |Filter(list[..k], p)| <= MAX_SEND
    requires k == |list| || |Filter(list[..k], p)| == MAX_SEND
    ensures var r := Reversed(Filter(list[..k], p));
      Distinct(r) && multiset(r) == multiset(Capped(Filter(list, p)))
  {
    FilterDistinct(list[..k], p);
    ReversedDistinct(Filter(list[..k], p));
    ReversedSame(Filter(list[..k], p));
    CappedPrefix(list, k, p);
  }

  /** The three tests on a cookie of the bucket. */
  method IsMatch(env: Env, co: Cookie, host: string, isIp: bool, path: string, secure: bool) returns (hit: bool)
    requires isIp == env.isIp(host)
    ensures hit == Matches(env, co, host, path, secure)
  {
    hit := false;
    if co.secure ==> secure {
      if co.domain.None?
        || (co.tailmatch && !isIp && Tailmatch(co.domain.value, host))
        || ((!co.tailmatch || isIp) && CaseEqual(host, co.domain.value))
      {
        if co.spath.None? || PathMatch(co.spath.value, path) {
          hit := true;
        }
      }
    }
  }

  class Entry {
    var co: Cookie
    var next: Entry?

    constructor (co: Cookie)
      ensures this.co == co && next == null
    {
      this.co, next := co, null;
    }
  }

  ghost function At(spine: seq<Entry>, i: int): Entry? {
    if 0 <= i < |spine| then spine[i] else null
  }

  ghost predicate NoDuplicates(spine: seq<Entry>) {
    forall i, j :: 0 <= i < j < |spine| ==> spine[i] != spine[j]
  }

  /** The entries `spine` are different, are linked from `first` up to null, and hold the cookies `list`. */
  ghost predicate Chain(first: Entry?, spine: seq<Entry>, list: seq<Cookie>)
    reads spine
  {
    && |spine| == |list| && (spine == [] ==> first == null) && NoDuplicates(spine)
    && (forall i {:trigger spine[i]} :: 0 <= i < |spine| ==> spine[i].co == list[i] && (i == 0 ==> first == spine[i]))
    && (forall i {:trigger spine[i].next} :: 0 <= i < |spine| ==> spine[i].next == At(spine, i + 1))
  }

  lemma ChainEnd(first: Entry?, spine: seq<Entry>, list: seq<Cookie>, k: nat, c: Entry?)
    requires Chain(first, spine, list) && k <= |list| && c == At(spine, k)
    ensures c == null <==> k == |list|
    ensures c != null ==> k < |list| && c == spine[k] && c.co == list[k] && c.next == At(spine, k + 1)
    ensures first == At(spine, 0)
  {
    assert k < |spine| ==> c == spine[k] && c.next == spine[k].next;
    assert spine != [] ==> first == spine[0];
  }

  /** A list without its first entry. */
  lemma ChainRest(first: Entry, spine: seq<Entry>, list: seq<Cookie>)
    requires Chain(first, spine, list)
    ensures spine != [] && first == spine[0] && Chain(first.next, Without(spine, 0), Without(list, 0))
  {
    assert first == spine[0];
    var rest := Without(spine, 0);
    assert forall i {:trigger rest[i]} :: 0 <= i < |rest| ==> rest[i] == spine[i + 1];
    forall i {:trigger rest[i].next} | 0 <= i < |rest|
      ensures rest[i].next == At(rest, i + 1)
    {
      assert rest[i].next == spine[i + 1].next;
    }
  }

  lemma WithoutAt<T>(s: seq<T>, j: nat, i: nat)
    requires j < |s| && i < |s| - 1
    ensures Without(s, j)[i] == if i < j then s[i] else s[i + 1]
  {
  }

  /** Makes an entry lead past its successor. */
  method Bypass(pv: Entry, nx: Entry?, ghost first: Entry?, ghost spine: seq<Entry>, ghost list: seq<Cookie>,
                ghost j: nat)
    requires Chain(first, spine, list) && 0 < j < |spine| && pv == spine[j - 1] && nx == spine[j].next
    modifies pv
    ensures Chain(first, Without(spine, j), Without(list, j))
  {
    pv.next := nx;
    ghost var s, l := Without(spine, j), Without(list, j);
    forall i | 0 <= i < |s|
      ensures s[i].co == l[i] && (i == 0 ==> first == s[i]) && s[i].next == At(s, i + 1)
    {
      WithoutAt(spine, j, i);
      WithoutAt(list, j, i);
    }
  }

  /** The state of `RemoveExpired` after `k` cookies. */
  ghost predicate Expiring(was: seq<Cookie>, k: nat, now: int, next: int, list: seq<Cookie>, j: nat, removed: nat,
                           least: int) {
    && Half(was, k, Unexpired(now), list, j) && removed == |was| - |list|
    && least == LeastExpiry(Filter(was[..k], Unexpired(now)), next)
  }

  lemma ExpiringStart(was: seq<Cookie>, now: int, next: int)
    ensures Expiring(was, 0, now, next, was, 0, 0, next)
  {
  }

  lemma ExpiringStep(was: seq<Cookie>, k: nat, now: int, next: int, list: seq<Cookie>, j: nat, removed: nat,
                     least: int)
    requires Expiring(was, k, now, next, list, j, removed, least) && j < |list|
    ensures k < |was|
    ensures var e := list[j].expires;
      if Expired(list[j], now) then Expiring(was, k + 1, now, next, Without(list, j), j, removed + 1, least)
      else Expiring(was, k + 1, now, next, list, j + 1, removed, if e != 0 && e < least then e else least)
  {
    HalfStep(was, k, Unexpired(now), list, j);
    FilterStep(was, k, Unexpired(now));
    LeastSnoc(Filter(was[..k], Unexpired(now)), list[j], next);
  }

  lemma ExpiringEnd(was: seq<Cookie>, k: nat, now: int, next: int, list: seq<Cookie>, j: nat, removed: nat, least: int)
    requires Expiring(was, k, now, next, list, j, removed, least) && j == |list|
    ensures list == Filter(was, Unexpired(now)) && IsLeast(list, next, least) && removed == |was| - |list|
  {
    HalfEnd(was, k, Unexpired(now), list, j);
    LeastMeans(list, next);
  }

  /** The state of `ClearSessions` after `k` cookies. */
  ghost predicate Clearing(was: seq<Cookie>, k: nat, list: seq<Cookie>, j: nat, removed: nat) {
    Half(was, k, Persistent(), list, j) && removed == |was| - |list|
  }

  lemma ClearingStart(was: seq<Cookie>)
    ensures Clearing(was, 0, was, 0, 0)
  {
  }

  lemma ClearingStep(was: seq<Cookie>, k: nat, list: seq<Cookie>, j: nat, removed: nat)
    requires Clearing(was, k, list, j, removed) && j < |list|
    ensures k < |was|
    ensures if list[j].expires == 0 then Clearing(was, k + 1, Without(list, j), j, removed + 1)
            else Clearing(was, k + 1, list, j + 1, removed)
  {
    HalfStep(was, k, Persistent(), list, j);
  }

  lemma ClearingEnd(was: seq<Cookie>, k: nat, list: seq<Cookie>, j: nat, removed: nat)
    requires Clearing(was, k, list, j, removed) && j == |list|
    ensures list == Filter(was, Persistent()) && removed == |was| - |list|
  {
    HalfEnd(was, k, Persistent(), list, j);
  }

  class Bucket {
    var first: Entry?
    /** The entries in order, and the cookies they hold. */
    ghost var nodes: set<Entry>
    ghost var spine: seq<Entry>
    ghost var list: seq<Cookie>

    constructor ()
      ensures Valid() && list == [] && nodes == {}
    {
      first, nodes, spine, list := null, {}, [], [];
    }

    ghost predicate Valid()
      reads this, nodes
    {
      (forall i :: 0 <= i < |spine| ==> spine[i] in nodes) && Chain(first, spine, list)
    }

    /** A walk has come to the entry at position `j`, and `pv` is the entry before it. */
    ghost predicate Walk(pv: Entry?, co: Entry?, j: nat)
      reads this
    {
      j <= |list| && |spine| == |list| && co == At(spine, j) && pv == At(spine, j - 1)
    }

    lemma Start()
      requires Valid()
      ensures Walk(null, first, 0)
    {
      ChainEnd(first, spine, list, 0, At(spine, 0));
    }

    lemma Visit(pv: Entry?, co: Entry?, j: nat)
      requires Valid() && Walk(pv, co, j)
      ensures co == null <==> j == |list|
      ensures co != null ==> co.co == list[j] && Walk(co, co.next, j + 1)
      ensures pv != null ==> pv in nodes
    {
      assert 0 < j ==> spine[j - 1] in nodes;
      ChainEnd(first, spine, list, j, co);
    }

    /** Takes an entry out of the list: the entry before it, or the bucket, leads past it. */
    method Unlink(pv: Entry?, co: Entry, ghost j: nat)
      requires Valid() && Walk(pv, co, j)
      modifies this`first, this`spine, this`list, pv
      ensures Valid() && j < |old(list)| && list == Without(old(list), j) && Walk(pv, old(co.next), j)
    {
      ChainEnd(first, spine, list, j, co);
      if pv == null {
        ChainRest(first, spine, list);
        first := co.next;
      } else {
        Bypass(pv, co.next, first, spine, list, j);
      }
      spine, list := Without(spine, j), Without(list, j);
    }

    /** One turn of `remove_expired`: the cookie is dropped if it has expired, and else becomes the one kept last. */
    method ExpireTurn(pv: Entry?, co: Entry, now: int, removed: nat, least: int,
                      ghost was: seq<Cookie>, ghost next: int, ghost k: nat, ghost j: nat)
      returns (pv': Entry?, nx: Entry?, removed': nat, least': int, ghost j': nat)
      requires Valid() && Walk(pv, co, j) && Expiring(was, k, now, next, list, j, removed, least)
      modifies this`first, this`spine, this`list, nodes
      ensures Valid() && Walk(pv', nx, j') && Expiring(was, k + 1, now, next, list, j', removed', least')
      ensures k < |was|
    {
      Visit(pv, co, j);
      ExpiringStep(was, k, now, next, list, j, removed, least);
      nx := co.next;
      if co.co.expires != 0 && co.co.expires < now {
        Unlink(pv, co, j);
        pv', j', removed', least' := pv, j, removed + 1, least;
      } else {
        least' := least;
        if co.co.expires != 0 && co.co.expires < least {
          least' := co.co.expires;
        }
        pv', j', removed' := co, j + 1, removed;
      }
    }

    /** The walk of `remove_expired` along one bucket: `pv` is the last cookie that was kept. */
    method DropExpired(now: int, next: int) returns (removed: nat, least: int, ghost k: nat)
      requires Valid()
      modifies this`first, this`spine, this`list, nodes
      ensures Valid() && Expiring(old(list), k, now, next, list, |list|, removed, least)
    {
      var pv: Entry?, co := null, first;
      removed, least, k := 0, next, 0;
      ghost var was := list;
      ghost var j: nat := 0;
      Start();
      ExpiringStart(was, now, next);
      while co != null
        invariant Valid() && Walk(pv, co, j) && Expiring(was, k, now, next, list, j, removed, least)
        decreases |was| - k
      {
        pv, co, removed, least, j := ExpireTurn(pv, co, now, removed, least, was, next, k, j);
        k := k + 1;
      }
      Visit(pv, co, j);
    }

    /** `remove_expired` for one bucket. */
    method RemoveExpired(now: int, next: int) returns (removed: nat, least: int)
      requires Valid()
      modifies this`first, this`spine, this`list, nodes
      ensures Valid() && list == Filter(old(list), Unexpired(now)) && IsLeast(list, next, least)
      ensures removed == |old(list)| - |list|
    {
      ghost var k;
      removed, least, k := DropExpired(now, next);
      ExpiringEnd(old(list), k, now, next, list, |list|, removed, least);
    }

    /** A walk over the list that starts at `head`; before the first cookie that is kept, `prev` goes along with it. */
    ghost predicate Sweeping(head: Entry?, prev: Entry?, curr: Entry?, j: nat)
      reads this, nodes
    {
      && (forall i :: 0 <= i < |spine| ==> spine[i] in nodes) && Chain(head, spine, list)
      && j <= |list| && curr == At(spine, j) && prev == At(spine, if j == 0 then 0 else j - 1)
    }

    lemma Sweep(head: Entry?, prev: Entry?, curr: Entry?, j: nat)
      requires Sweeping(head, prev, curr, j)
      ensures curr == null <==> j == |list|
      ensures curr != null ==> j < |list| && curr.co == list[j] && Sweeping(head, curr, curr.next, j + 1)
    {
      ChainEnd(head, spine, list, j, curr);
    }

    /** Takes the current entry out of the list. */
    method Drop(head: Entry?, prev: Entry?, curr: Entry, ghost j: nat) returns (head': Entry?, prev': Entry?)
      requires Sweeping(head, prev, curr, j)
      modifies this`spine, this`list, nodes
      ensures j < |old(list)| && list == Without(old(list), j) && Sweeping(head', prev', old(curr.next), j)
    {
      ChainEnd(head, spine, list, j, curr);
      head', prev' := head, prev;
      if head == curr {
        head' := curr.next;
      }
      if prev == curr {
        prev' := curr.next;
        ChainRest(curr, spine, list);
      } else {
        Bypass(prev, curr.next, head, spine, list, j);
      }
      spine, list := Without(spine, j), Without(list, j);
    }

    /** The walk has come to the cookie at `k` of the old list. */
    ghost predicate Dropping(head: Entry?, prev: Entry?, curr: Entry?, j: nat, was: seq<Cookie>, k: nat, removed: nat)
      reads this, nodes
    {
      Sweeping(head, prev, curr, j) && Clearing(was, k, list, j, removed)
    }

    lemma DroppingEnd(head: Entry?, prev: Entry?, j: nat, was: seq<Cookie>, k: nat, removed: nat)
      requires Dropping(head, prev, null, j, was, k, removed)
      ensures (forall i :: 0 <= i < |spine| ==> spine[i] in nodes) && Chain(head, spine, list)
      ensures list == Filter(was, Persistent()) && removed == |was| - |list|
    {
      Sweep(head, prev, null, j);
      ClearingEnd(was, k, list, j, removed);
    }

    /** One turn of the walk: a session cookie is dropped, another cookie becomes the last one that is kept. */
    method Turn(head: Entry?, prev: Entry?, curr: Entry, ghost was: seq<Cookie>, ghost k: nat, ghost j: nat,
                removed: nat)
      returns (head': Entry?, prev': Entry?, next: Entry?, ghost j': nat, removed': nat)
      requires Dropping(head, prev, curr, j, was, k, removed)
      modifies this`spine, this`list, nodes
      ensures Dropping(head', prev', next, j', was, k + 1, removed') && k < |was|
    {
      Sweep(head, prev, curr, j);
      ClearingStep(was, k, list, j, removed);
      next := curr.next;
      if curr.co.expires == 0 {
        head', prev' := Drop(head, prev, curr, j);
        j', removed' := j, removed + 1;
      } else {
        head', prev', j', removed' := head, curr, j + 1, removed;
      }
    }

    /** The walk of `Curl_cookie_clearsess` along one bucket. */
    method DropSessions() returns (head: Entry?, removed: nat)
      requires Valid()
      modifies this`spine, this`list, nodes
      ensures (forall i :: 0 <= i < |spine| ==> spine[i] in nodes) && Chain(head, spine, list)
      ensures list == Filter(old(list), Persistent()) && removed == |old(list)| - |list|
    {
      head, removed := first, 0;
      var curr, prev: Entry? := first, first;
      ghost var was := list;
      ghost var j: nat, k: nat := 0, 0;
      Start();
      ClearingStart(was);
      while curr != null
        invariant Dropping(head, prev, curr, j, was, k, removed)
        decreases |was| - k
      {
        head, prev, curr, j, removed := Turn(head, prev, curr, was, k, j, removed);
        k := k + 1;
      }
      DroppingEnd(head, prev, j, was, k, removed);
    }

    /** `Curl_cookie_clearsess` for one bucket. */
    method ClearSessions() returns (removed: nat)
      requires Valid()
      modifies this`first, this`spine, this`list, nodes
      ensures Valid() && list == Filter(old(list), Persistent()) && removed == |old(list)| - |list|
    {
      var head;
      head, removed := DropSessions();
      first := head;
    }

    /** The state of `FindPlace` after `i` cookies: none of them keeps the new one out, and `at` is an old version. */
    ghost predicate Found(co: Cookie, secureOrigin: bool, i: nat, at: Entry?, k: nat)
      reads this
    {
      && i <= |list| && (forall l :: 0 <= l < i ==> !Refuses(list[l], co, secureOrigin))
      && (at == null ==> forall l :: 0 <= l < i ==> KeyOf(list[l]) != KeyOf(co))
      && (at != null ==> k < i && at == At(spine, k) && KeyOf(list[k]) == KeyOf(co))
    }

    lemma FoundEnd(co: Cookie, secureOrigin: bool, at: Entry?, k: nat)
      requires Distinct(list) && Found(co, secureOrigin, |list|, at, k)
      ensures !Rejected(list, co, secureOrigin)
      ensures Place(list, KeyOf(co)) == if at == null then |list| else k
    {
      var r := Place(list, KeyOf(co));
      DistinctKeys(list, r, k);
    }

    /** Where a new cookie goes: to the entry of its old version, or behind the last entry. */
    ghost predicate IsPlace(co: Cookie, at: Entry?, lastc: Entry?)
      reads this
    {
      at == At(spine, Place(list, KeyOf(co))) && lastc == At(spine, |spine| - 1)
    }

    lemma HeadIsFirst()
      requires Valid()
      ensures first == null <==> list == []
    {
      ChainEnd(first, spine, list, 0, At(spine, 0));
    }

    /** Looks at one stored cookie: it may keep the new one out, or be its old version. */
    method Compare(co: Cookie, secureOrigin: bool, lastc: Entry?, clist: Entry, ghost i: nat, at: Entry?, ghost k: nat)
      returns (ok: bool, at': Entry?, ghost k': nat)
      requires Valid() && Distinct(list) && Walk(lastc, clist, i) && Found(co, secureOrigin, i, at, k)
      ensures if ok then Found(co, secureOrigin, i + 1, at', k') else Rejected(list, co, secureOrigin)
    {
      Visit(lastc, clist, i);
      ok, at', k' := true, at, k;
      var c := clist.co;
      assert c in list;
      var overlaid := IsOverlaid(c, co, secureOrigin);
      if overlaid {
        assert Refuses(c, co, secureOrigin);
        return false, at, k;
      }
      if at == null {
        var replaceOld := IsOld(c, co);
        if replaceOld && !co.livecookie && c.livecookie {
          assert Refuses(c, co, secureOrigin);
          return false, at, k;
        }
        if replaceOld {
          at', k' := clist, i;
        }
      } else {
        assert Apart(list[k], list[i]);
      }
    }

    /** The walk of `Curl_cookie_add` along the bucket: `lastc` is the last entry, `at` an old version if any. */
    method FindPlace(co: Cookie, secureOrigin: bool) returns (ok: bool, at: Entry?, lastc: Entry?)
      requires Valid() && Distinct(list)
      ensures ok <==> !Rejected(list, co, secureOrigin)
      ensures ok ==> IsPlace(co, at, lastc)
    {
      at, lastc := null, null;
      var clist := first;
      ghost var i: nat, k: nat := 0, 0;
      Start();
      while clist != null
        invariant Walk(lastc, clist, i) && Found(co, secureOrigin, i, at, k)
        decreases |list| - i
      {
        Visit(lastc, clist, i);
        ok, at, k := Compare(co, secureOrigin, lastc, clist, i, at, k);
        if !ok {
          return;
        }
        lastc, clist, i := clist, clist.next, i + 1;
      }
      Visit(lastc, clist, i);
      FoundEnd(co, secureOrigin, at, k);
      ok := true;
    }

    /** Replaces an old version of the cookie in its place, keeping its creation time, or appends the cookie. */
    method Put(co: Cookie, at: Entry?, lastc: Entry?) returns (stored: Cookie)
      requires Valid() && IsPlace(co, at, lastc)
      modifies this, nodes
      ensures Valid() && list == Stored(old(list), co) && stored == AsStored(old(list), co)
      ensures fresh(nodes - old(nodes))
    {
      if at != null {
        stored := Replace(co, at, Place(list, KeyOf(co)));
      } else {
        Append(co, lastc);
        stored := co;
      }
    }

    method Replace(co: Cookie, at: Entry, ghost k: nat) returns (stored: Cookie)
      requires Valid() && at == At(spine, k)
      modifies this`list, at
      ensures Valid() && k < |old(list)| && stored == co.(creationtime := old(list)[k].creationtime)
      ensures list == old(list)[k := stored]
    {
      ChainEnd(first, spine, list, k, at);
      stored := co.(creationtime := at.co.creationtime);
      at.co := stored;
      list := list[k := stored];
    }

    method Append(co: Cookie, lastc: Entry?)
      requires Valid() && lastc == At(spine, |spine| - 1)
      modifies this, lastc
      ensures Valid() && list == old(list) + [co] && fresh(nodes - old(nodes))
    {
      var entry := new Entry(co);
      ghost var more := spine + [entry];
      ChainEnd(first, spine, list, 0, At(spine, 0));
      if lastc != null {
        lastc.next := entry;
      } else {
        first := entry;
      }
      forall i | 0 <= i < |more|
        ensures more[i].next == At(more, i + 1)
      {
        if i < |spine| {
          assert more[i] == spine[i];
        }
      }
      nodes, spine, list := nodes + {entry}, more, list + [co];
    }

    /** Collects the matching cookies of the bucket, the last match first. */
    method Collect(env: Env, host: string, path: string, secure: bool) returns (r: seq<Cookie>)
      requires Valid() && Distinct(list)
      ensures Distinct(r) && multiset(r) == multiset(Capped(Filter(list, Matching(env, host, path, secure))))
      ensures forall c :: c in r ==> c in list && Fits(env, c, host, path, secure)
      ensures |r| < 150 ==> forall c :: c in list && Fits(env, c, host, path, secure) ==> c in r
    {
      ghost var p := Matching(env, host, path, secure);
      var isIp := env.isIp(host);
      r := [];
      var pv: Entry?, co := null, first;
      ghost var k: nat := 0;
      Start();
      while co != null && |r| < MAX_SEND
        invariant Walk(pv, co, k) && r == Reversed(Filter(list[..k], p)) && |r| <= MAX_SEND
        decreases |list| - k
      {
        Visit(pv, co, k);
        CollectStep(list, k, p);
        var hit := IsMatch(env, co.co, host, isIp, path, secure);
        if hit {
          r := [co.co] + r;
        }
        pv, co, k := co, co.next, k + 1;
      }
      Visit(pv, co, k);
      CollectEnd(list, k, p);
      CollectedMeaning(env, list, host, path, secure, r);
    }

    /** `Curl_cookie_freelist` for the bucket. */
    method Clear()
      modifies this
      ensures Valid() && list == [] && nodes == {}
    {
      first, nodes, spine, list := null, {}, [], [];
    }
  }
}
