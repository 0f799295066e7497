/** The cookie jar (`cookie.c`): 63 buckets of cookies, a counter, and the next time at which a cookie expires. */
module CookieJar {
  import opened Basics
  import opened CookieText
  import opened Cookies
  import opened CookieRules
  import opened CookieBuckets

  // ---------------------------------------------------------------------------------------------------------
  // The invariant of the jar
  // ---------------------------------------------------------------------------------------------------------

  ghost predicate Indexed(env: Env, bs: seq<seq<Cookie>>) {
    && |bs| == SIZE
    && forall i, c :: 0 <= i < SIZE && c in bs[i] ==> CookieHash(env, c.domain) == i
  }

  ghost predicate Separate(bs: seq<seq<Cookie>>) {
    && (forall i :: 0 <= i < |bs| ==> Distinct(bs[i]))
    && forall i, j :: 0 <= i < j < |bs| ==> OtherTimes(bs[i], bs[j])
  }

  /** No creation time occurs in both lists. */
  predicate OtherTimes(s: seq<Cookie>, t: seq<Cookie>) {
    forall c, d :: c in s && d in t ==> c.creationtime != d.creationtime
  }

  ghost predicate Timely(bs: seq<seq<Cookie>>, next: int, lastct: int) {
    && next <= MAX_TIME
    && forall i, c :: 0 <= i < |bs| && c in bs[i] ==>
      c.creationtime <= lastct && c.expires <= MAX_TIME && (c.expires != 0 ==> next <= c.expires)
  }

  ghost predicate Inv(env: Env, bs: seq<seq<Cookie>>, next: int, num: int, lastct: int) {
    CaseBlind(env) && Indexed(env, bs) && Separate(bs) && Timely(bs, next, lastct) && num == |Flatten(bs)|
  }

  /** No two stored cookies have the same key, wherever they are. */
  lemma KeysAreUnique(env: Env, bs: seq<seq<Cookie>>, i: nat, j: nat, k: nat, l: nat)
    requires CaseBlind(env) && Indexed(env, bs) && Separate(bs)
    requires i < SIZE && j < |bs[i]| && k < SIZE && l < |bs[k]|
    requires KeyOf(bs[i][j]) == KeyOf(bs[k][l])
    ensures i == k && j == l
  {
    SameKeySameHash(env, bs[i][j], bs[k][l]);
    assert bs[i][j] in bs[i] && bs[k][l] in bs[k];
    DistinctKeys(bs[i], j, l);
  }

  /** The buckets with only the cookies that a test accepts. */
  ghost function Kept(bs: seq<seq<Cookie>>, p: iset<Cookie>): seq<seq<Cookie>> {
    seq(|bs|, i requires 0 <= i < |bs| => Filter(bs[i], p))
  }

  lemma KeptInv(env: Env, bs: seq<seq<Cookie>>, p: iset<Cookie>, lastct: int)
    requires Indexed(env, bs) && Separate(bs)
    ensures Indexed(env, Kept(bs, p)) && Separate(Kept(bs, p))
    ensures forall i, c :: 0 <= i < |bs| && c in Kept(bs, p)[i] ==> c in bs[i] && c in p
  {
    forall i | 0 <= i < |bs|
      ensures Distinct(Kept(bs, p)[i]) && forall c :: c in Kept(bs, p)[i] <==> c in bs[i] && c in p
    {
      FilterDistinct(bs[i], p);
      FilterMembers(bs[i], p);
    }
  }

  /** What scanning all buckets for cookies finds. */
  lemma {:induction false} KeptFlat(bs: seq<seq<Cookie>>, p: iset<Cookie>)
    ensures Flatten(Kept(bs, p)) == Filter(Flatten(bs), p)
  {
    if bs != [] {
      var n := |bs| - 1;
      KeptFlat(bs[..n], p);
      assert Kept(bs, p)[..n] == Kept(bs[..n], p);
      FilterConcat(Flatten(bs[..n]), bs[n], p);
    }
  }

  lemma KeptMembers(bs: seq<seq<Cookie>>, p: iset<Cookie>)
    ensures forall c :: c in Flatten(Kept(bs, p)) <==> c in Flatten(bs) && c in p
  {
    KeptFlat(bs, p);
    FilterMembers(Flatten(bs), p);
  }

  // ---------------------------------------------------------------------------------------------------------
  // Matching
  // ---------------------------------------------------------------------------------------------------------

  ghost predicate AllIndexable(env: Env, bs: seq<seq<Cookie>>) {
    forall i, c :: 0 <= i < |bs| && c in bs[i] ==> Indexable(env, c)
  }

  /** Scanning the bucket of the host finds exactly the cookies that a scan of the whole jar finds, in order. */
  lemma IndexAgreesWithScan(env: Env, bs: seq<seq<Cookie>>, host: string, path: string, secure: bool)
    requires CaseBlind(env) && Indexed(env, bs)
    requires AllIndexable(env, bs)
    ensures Filter(bs[CookieHash(env, Some(host))], Matching(env, host, path, secure))
            == Filter(Flatten(bs), Matching(env, host, path, secure))
  {
    var p := Matching(env, host, path, secure);
    var h := CookieHash(env, Some(host));
    forall i | 0 <= i < SIZE && i != h
      ensures Filter(bs[i], p) == []
    {
      forall c | c in bs[i]
        ensures c !in p
      {
        if c in p {
          MatchIsIndexed(env, c, host);
        }
      }
      FilterNone(bs[i], p);
    }
    OnlyBucket(Kept(bs, p), h);
    KeptFlat(bs, p);
  }

  /** What the bucket of the host holds is what a scan of the whole jar finds among the unexpired cookies. */
  lemma SentFromWholeJar(env: Env, bs: seq<seq<Cookie>>, host: string, path: string, secure: bool, now: int)
    requires CaseBlind(env) && Indexed(env, bs) && Separate(bs) && AllIndexable(env, bs)
    ensures Filter(Kept(bs, Unexpired(now))[CookieHash(env, Some(host))], Matching(env, host, path, secure))
            == Filter(Filter(Flatten(bs), Unexpired(now)), Matching(env, host, path, secure))
  {
    KeptInv(env, bs, Unexpired(now), 0);
    forall i, c | 0 <= i < |Kept(bs, Unexpired(now))| && c in Kept(bs, Unexpired(now))[i]
      ensures Indexable(env, c)
    {
      FilterMembers(bs[i], Unexpired(now));
    }
    IndexAgreesWithScan(env, Kept(bs, Unexpired(now)), host, path, secure);
    KeptFlat(bs, Unexpired(now));
  }

  lemma {:induction false} OnlyBucket(bs: seq<seq<Cookie>>, h: nat)
    requires h < |bs| && forall i :: 0 <= i < |bs| && i != h ==> bs[i] == []
    ensures Flatten(bs) == bs[h]
  {
    var n := |bs| - 1;
    if h < n {
      OnlyBucket(bs[..n], h);
    } else {
      FlattenEmpty(bs[..n]);
    }
  }

  // ---------------------------------------------------------------------------------------------------------
  // The program
  // ---------------------------------------------------------------------------------------------------------

  /** Unless an old cookie keeps it out, the cookie is stored in the bucket of its domain. */
  ghost predicate IsStored(env: Env, bs: seq<seq<Cookie>>, co: Cookie, secureOrigin: bool, stored: Option<Cookie>,
                           after: seq<seq<Cookie>>) {
    && |bs| == SIZE
    && var h := CookieHash(env, co.domain);
    && (stored.None? <==> Rejected(bs[h], co, secureOrigin))
    && (stored.None? ==> after == bs)
    && (stored.Some? ==> stored.value == AsStored(bs[h], co) && after == bs[h := Stored(bs[h], co)])
  }

  method NewBuckets() returns (bs: seq<Bucket>)
    ensures |bs| == SIZE && fresh(bs)
    ensures forall i :: 0 <= i < SIZE ==> bs[i].Valid() && bs[i].list == [] && bs[i].nodes == {}
    ensures forall i, j :: 0 <= i < j < SIZE ==> bs[i] != bs[j]
  {
    bs := [];
    for k := 0 to SIZE
      invariant |bs| == k && fresh(bs)
      invariant forall i :: 0 <= i < k ==> bs[i].Valid() && bs[i].list == [] && bs[i].nodes == {}
      invariant forall i, j :: 0 <= i < j < k ==> bs[i] != bs[j]
    {
      var b := new Bucket();
      bs := bs + [b];
    }
  }

  class Jar {
    const env: Env
    const cookies: seq<Bucket>
    var nextExpiration: int
    var numcookies: int
    var lastct: int
    var running: bool
    var newsession: bool
    /** The cookies in the buckets, and the entries that hold them. */
    ghost var lists: seq<seq<Cookie>>
    ghost var nodes: set<Entry>

    /** The buckets hold the lists, and have no entries in common. */
    ghost predicate Linked()
      reads this`lists, this`nodes, cookies, nodes
    {
      && |cookies| == SIZE == |lists|
      && (forall i :: 0 <= i < SIZE ==> cookies[i].nodes <= nodes && cookies[i].Valid() && cookies[i].list == lists[i])
      && (forall i, j :: 0 <= i < j < SIZE ==> cookies[i] != cookies[j] && cookies[i].nodes !! cookies[j].nodes)
    }

    /** Like `Linked`, but one bucket has changed. */
    ghost predicate LinkedBut(h: nat)
      reads this`lists, this`nodes, cookies, nodes
    {
      && |cookies| == SIZE == |lists| && h < SIZE
      && (forall i :: 0 <= i < SIZE ==>
            cookies[i].nodes <= nodes && cookies[i].Valid() && (i != h ==> cookies[i].list == lists[i]))
      && (forall i, j :: 0 <= i < j < SIZE ==> cookies[i] != cookies[j] && cookies[i].nodes !! cookies[j].nodes)
    }

    ghost method Relist(h: nat)
      requires LinkedBut(h)
      modifies this`lists
      ensures Linked() && lists == old(lists)[h := cookies[h].list]
    {
      lists := lists[h := cookies[h].list];
    }

    ghost predicate Valid()
      reads this, cookies, nodes
    {
      Linked() && Inv(env, lists, nextExpiration, numcookies, lastct)
    }

    constructor (env: Env, newsession: bool)
      requires CaseBlind(env)
      ensures Valid() && fresh(cookies) && fresh(nodes) && this.env == env && this.newsession == newsession && !running
      ensures Flatten(lists) == []
    {
      var bs := NewBuckets();
      this.env, this.newsession, running := env, newsession, false;
      cookies, lists, nodes := bs, seq(SIZE, i => []), {};
      nextExpiration, numcookies, lastct := MAX_TIME, 0, 0;
      new;
      EmptyInv(env);
    }

    /** What has expired is removed from a bucket, which leaves the other buckets as they are. */
    method ExpireEntries(i: nat, now: int) returns (removed: nat, least: int)
      requires Linked() && i < SIZE
      modifies cookies[i], nodes
      ensures LinkedBut(i) && cookies[i].list == Filter(old(lists)[i], Unexpired(now))
      ensures removed == |lists[i]| - |cookies[i].list| && IsLeast(cookies[i].list, nextExpiration, least)
    {
      removed, least := cookies[i].RemoveExpired(now, nextExpiration);
    }

    /** One bucket of `remove_expired`. */
    method ExpireBucket(i: nat, now: int)
      requires Linked() && i < SIZE
      modifies this`nextExpiration, this`numcookies, this`lists, cookies, nodes
      ensures Linked() && lists == old(lists)[i := Filter(old(lists)[i], Unexpired(now))]
      ensures IsLeast(lists[i], old(nextExpiration), nextExpiration)
      ensures numcookies == old(numcookies) - (|old(lists)[i]| - |lists[i]|)
    {
      var removed, least := ExpireEntries(i, now);
      numcookies, nextExpiration := numcookies - removed, least;
      Relist(i);
    }

    /** One bucket of `Curl_cookie_clearsess`. */
    method ClearBucket(i: nat)
      requires Linked() && i < SIZE
      modifies this`numcookies, this`lists, cookies, nodes
      ensures Linked() && lists == old(lists)[i := Filter(old(lists)[i], Persistent())]
      ensures numcookies == old(numcookies) - (|old(lists)[i]| - |lists[i]|)
    {
      var removed := cookies[i].ClearSessions();
      assert LinkedBut(i);
      numcookies := numcookies - removed;
      Relist(i);
    }

    /** The walk along the bucket of a new cookie. */
    method FindInBucket(h: nat, co: Cookie, secureOrigin: bool) returns (ok: bool, at: Entry?, lastc: Entry?)
      requires Linked() && h < SIZE && Distinct(lists[h])
      ensures ok <==> !Rejected(lists[h], co, secureOrigin)
      ensures ok ==> cookies[h].IsPlace(co, at, lastc) && (at == null <==> Place(lists[h], KeyOf(co)) == |lists[h]|)
    {
      ok, at, lastc := cookies[h].FindPlace(co, secureOrigin);
    }

    /** Puts a cookie into its bucket, which leaves the other buckets as they are. */
    method PutEntry(h: nat, co: Cookie, at: Entry?, lastc: Entry?) returns (stored: Cookie)
      requires Linked() && h < SIZE
      requires cookies[h].IsPlace(co, at, lastc)
      modifies cookies[h], nodes
      ensures cookies[h].Valid() && cookies[h].list == Stored(old(lists)[h], co)
      ensures fresh(cookies[h].nodes - old(cookies[h].nodes)) && stored == AsStored(old(lists)[h], co)
      ensures forall i :: 0 <= i < SIZE && i != h ==>
        cookies[i].Valid() && cookies[i].list == lists[i] && cookies[i].nodes == old(cookies[i].nodes)
    {
      stored := cookies[h].Put(co, at, lastc);
    }

    /** Puts a cookie that is not kept out into its bucket. */
    method PutInBucket(h: nat, co: Cookie, at: Entry?, lastc: Entry?) returns (stored: Cookie)
      requires Linked() && h < SIZE
      requires cookies[h].IsPlace(co, at, lastc)
      modifies this`numcookies, this`lists, this`nodes, cookies, nodes
      ensures Linked() && lists == old(lists)[h := Stored(old(lists)[h], co)] && fresh(nodes - old(nodes))
      ensures stored == AsStored(old(lists)[h], co)
      ensures numcookies == old(numcookies) + if at == null then 1 else 0
    {
      stored := PutEntry(h, co, at, lastc);
      if at == null {
        numcookies := numcookies + 1;
      }
      lists, nodes := lists[h := cookies[h].list], nodes + cookies[h].nodes;
    }

    /** Removes exactly the expired cookies; the early exit misses none. */
    method RemoveExpired(now: int)
      requires Valid()
      modifies this`nextExpiration, this`numcookies, this`lists, cookies, nodes
      ensures Valid() && lists == Kept(old(lists), Unexpired(now))
      ensures forall c ::
        c in Flatten(lists) <==> c in Flatten(old(lists)) && (c.expires == 0 || c.expires >= now)
      ensures (now < old(nextExpiration) && old(nextExpiration) != MAX_TIME)
              || IsNextExpiration(lists, nextExpiration)
    {
      ghost var was := lists;
      KeptMembers(was, Unexpired(now));
      if now < nextExpiration && nextExpiration != MAX_TIME {
        NothingExpired(was, nextExpiration, lastct, now);
        return;
      }
      Sweep(now);
      SweptAll(env, was, lists, Unexpired(now), lastct, nextExpiration);
    }

    /** The full pass over the buckets. */
    method Sweep(now: int)
      requires Linked() && numcookies == |Flatten(lists)|
      modifies this`nextExpiration, this`numcookies, this`lists, cookies, nodes
      ensures Linked() && Swept(old(lists), lists, Unexpired(now), SIZE, nextExpiration)
      ensures numcookies == |Flatten(lists)|
    {
      ghost var was := lists;
      nextExpiration := MAX_TIME;
      for i := 0 to SIZE
        invariant Linked() && Swept(was, lists, Unexpired(now), i, nextExpiration)
        invariant numcookies == |Flatten(lists)|
      {
        ghost var before, next := lists, nextExpiration;
        ExpireBucket(i, now);
        SweepStep(was, before, Unexpired(now), i, next, lists[i], nextExpiration);
        FlattenUpdate(before, i, lists[i]);
      }
    }

    /** The part of `Curl_cookie_add` that stores a parsed cookie. */
    method Add(parsed: Cookie, now: int, noexpire: bool, secureOrigin: bool) returns (stored: Option<Cookie>)
      requires Valid() && parsed.expires <= MAX_TIME
      modifies this, cookies, nodes
      ensures Valid() && fresh(nodes - old(nodes))
      ensures var skip := !running && newsession && parsed.expires == 0;
        var bs := if skip || noexpire then old(lists) else Kept(old(lists), Unexpired(now));
        && lastct == old(lastct) + (if skip then 0 else 1)
        && (skip ==> stored == None && lists == bs)
        && (!skip ==>
              var co := parsed.(livecookie := old(running), creationtime := old(lastct) + 1);
              IsStored(env, bs, co, secureOrigin, stored, lists))
    {
      if !running && newsession && parsed.expires == 0 {
        return None;
      }
      var co := parsed.(livecookie := running, creationtime := lastct + 1);
      stored := StoreUnexpired(co, now, noexpire, secureOrigin);
    }

    /** What has expired is removed first, unless this is left to the caller. */
    method StoreUnexpired(co: Cookie, now: int, noexpire: bool, secureOrigin: bool) returns (stored: Option<Cookie>)
      requires Valid() && co.creationtime == lastct + 1 && co.expires <= MAX_TIME
      modifies this`nextExpiration, this`numcookies, this`lastct, this`lists, this`nodes, cookies, nodes
      ensures Valid() && lastct == old(lastct) + 1 && fresh(nodes - old(nodes))
      ensures var bs := if noexpire then old(lists) else Kept(old(lists), Unexpired(now));
        IsStored(env, bs, co, secureOrigin, stored, lists)
    {
      if noexpire {
        stored := Store(co, secureOrigin);
      } else {
        RemoveExpired(now);
        stored := Store(co, secureOrigin);
      }
    }

    /** Puts the cookie into its bucket and updates the expiry time. */
    method StoreAt(h: nat, co: Cookie, at: Entry?, lastc: Entry?) returns (stored: Cookie)
      requires Linked() && h < SIZE && cookies[h].IsPlace(co, at, lastc)
      modifies this`nextExpiration, this`numcookies, this`lists, this`nodes, cookies, nodes
      ensures Linked() && lists == old(lists)[h := Stored(old(lists)[h], co)] && fresh(nodes - old(nodes))
      ensures stored == AsStored(old(lists)[h], co)
      ensures nextExpiration == (if stored.expires != 0 && stored.expires < old(nextExpiration) then stored.expires
                                 else old(nextExpiration))
      ensures numcookies == old(numcookies) + if at == null then 1 else 0
    {
      stored := PutInBucket(h, co, at, lastc);
      if stored.expires != 0 && stored.expires < nextExpiration {
        nextExpiration := stored.expires;
      }
    }

    /** Looks for the place of a cookie in its bucket, and puts it there unless an old one keeps it out. */
    method PutCookie(h: nat, co: Cookie, secureOrigin: bool) returns (stored: Option<Cookie>)
      requires Linked() && h < SIZE && Distinct(lists[h])
      modifies this`nextExpiration, this`numcookies, this`lists, this`nodes, cookies, nodes
      ensures Linked() && fresh(nodes - old(nodes)) && (stored.None? <==> Rejected(old(lists)[h], co, secureOrigin))
      ensures stored.None? ==>
        lists == old(lists) && nextExpiration == old(nextExpiration) && numcookies == old(numcookies)
      ensures stored.Some? ==> Grown(old(lists), old(nextExpiration), old(numcookies), h, co)
      ensures stored.Some? ==> stored.value == AsStored(old(lists)[h], co)
    {
      var ok, at, lastc := FindInBucket(h, co, secureOrigin);
      if !ok {
        return None;
      }
      var s := StoreAt(h, co, at, lastc);
      stored := Some(s);
    }

    /** The jar has grown by the cookie. */
    ghost predicate Grown(bs: seq<seq<Cookie>>, next: int, num: int, h: nat, co: Cookie)
      requires h < |bs|
      reads this
    {
      var e := AsStored(bs[h], co).expires;
      && lists == bs[h := Stored(bs[h], co)]
      && nextExpiration == (if e != 0 && e < next then e else next)
      && numcookies == num + if Place(bs[h], KeyOf(co)) < |bs[h]| then 0 else 1
    }

    /** Stores a stamped cookie unless an old one keeps it out. */
    method Store(co: Cookie, secureOrigin: bool) returns (stored: Option<Cookie>)
      requires Valid() && co.creationtime == lastct + 1 && co.expires <= MAX_TIME
      modifies this`nextExpiration, this`numcookies, this`lastct, this`lists, this`nodes, cookies, nodes
      ensures Valid() && lastct == old(lastct) + 1 && fresh(nodes - old(nodes))
      ensures IsStored(env, old(lists), co, secureOrigin, stored, lists)
    {
      ghost var bs, next, num := lists, nextExpiration, numcookies;
      var h := CookieHash(env, co.domain);
      assert Distinct(lists[h]);
      lastct := lastct + 1;
      stored := PutCookie(h, co, secureOrigin);
      StoredInv(env, bs, next, num, lastct - 1, co);
    }

    method ClearNext(i: nat, ghost was: seq<seq<Cookie>>)
      requires Linked() && i < SIZE && Partly(was, lists, Persistent(), i) && numcookies == |Flatten(lists)|
      modifies this`numcookies, this`lists, cookies, nodes
      ensures Linked() && Partly(was, lists, Persistent(), i + 1) && numcookies == |Flatten(lists)|
    {
      ghost var before := lists;
      PartlyStep(was, before, Persistent(), i);
      ClearBucket(i);
      FlattenUpdate(before, i, lists[i]);
    }

    /** The pass over the buckets of `Curl_cookie_clearsess`. */
    method SweepSessions()
      requires Linked() && numcookies == |Flatten(lists)|
      modifies this`numcookies, this`lists, cookies, nodes
      ensures Linked() && Partly(old(lists), lists, Persistent(), SIZE) && numcookies == |Flatten(lists)|
    {
      ghost var was := lists;
      for i := 0 to SIZE
        invariant Linked() && Partly(was, lists, Persistent(), i) && numcookies == |Flatten(lists)|
      {
        ClearNext(i, was);
      }
    }

    /** Removes exactly the session cookies. */
    method ClearSess()
      requires Valid()
      modifies this`numcookies, this`lists, cookies, nodes
      ensures Valid() && lists == Kept(old(lists), Persistent())
      ensures forall c :: c in Flatten(lists) <==> c in Flatten(old(lists)) && c.expires != 0
    {
      ghost var was := lists;
      KeptMembers(was, Persistent());
      SweepSessions();
      ClearedAll(env, was, lists, nextExpiration, lastct);
    }

    method EmptyBucket(i: nat)
      requires Linked() && i < SIZE
      modifies this`lists, cookies[i]
      ensures Linked() && lists == old(lists)[i := []]
    {
      cookies[i].Clear();
      lists := lists[i := []];
    }

    method ClearAll()
      requires Valid()
      modifies this`numcookies, this`lists, cookies
      ensures Valid() && Flatten(lists) == []
    {
      for i := 0 to SIZE
        invariant Linked() && forall k :: 0 <= k < i ==> lists[k] == []
      {
        EmptyBucket(i);
      }
      numcookies := 0;
      FlattenEmpty(lists);
    }

    /** The first 150 matching cookies of a bucket, sorted. */
    method SortMatches(h: nat, host: string, path: string, secure: bool) returns (list: seq<Cookie>)
      requires Linked() && h < SIZE && Distinct(lists[h])
      ensures IsArrangement(list, Capped(Filter(lists[h], Matching(env, host, path, secure))))
    {
      list := cookies[h].Collect(env, host, path, secure);
      SortedFormSorts(list);
      list := SortedForm(list);
    }

    /** The list of a bucket that has entries; what has expired is removed from all buckets first. */
    method ListBucket(h: nat, host: string, path: string, secure: bool, now: int) returns (list: seq<Cookie>)
      requires Valid() && h < SIZE
      modifies this`nextExpiration, this`numcookies, this`lists, cookies, nodes
      ensures Valid() && lists == Kept(old(lists), Unexpired(now))
      ensures IsArrangement(list, Capped(Filter(lists[h], Matching(env, host, path, secure))))
    {
      RemoveExpired(now);
      list := SortMatches(h, host, path, secure);
    }

    /** The cookies to send: the first 150 unexpired cookies of the bucket that match, sorted. */
    method GetList(host: string, path: string, secure: bool, now: int) returns (list: seq<Cookie>)
      requires Valid()
      modifies this`nextExpiration, this`numcookies, this`lists, cookies, nodes
      ensures Valid()
      ensures var h := CookieHash(env, Some(host));
        var bs := Kept(old(lists), Unexpired(now));
        && |bs| == SIZE && lists == (if old(lists)[h] == [] then old(lists) else bs)
        && IsArrangement(list, Capped(Filter(bs[h], Matching(env, host, path, secure))))
        && IsSent(env, old(lists)[h], host, path, secure, now, list)
      ensures AllIndexable(env, old(lists)) ==>
        var whole := Filter(Flatten(old(lists)), Unexpired(now));
        && IsArrangement(list, Capped(Filter(whole, Matching(env, host, path, secure))))
        && IsSent(env, Flatten(old(lists)), host, path, secure, now, list)
    {
      var h := CookieHash(env, Some(host));
      ghost var was := lists;
      if AllIndexable(env, was) {
        SentFromWholeJar(env, was, host, path, secure, now);
      }
      cookies[h].HeadIsFirst();
      if cookies[h].first == null {
        list := [];
      } else {
        list := ListBucket(h, host, path, secure, now);
      }
      SentMeaning(env, was[h], host, path, secure, now, list);
      if AllIndexable(env, was) {
        SentMeaning(env, Flatten(was), host, path, secure, now, list);
      }
    }
  }

  lemma EmptyInv(env: Env)
    requires CaseBlind(env)
    ensures var bs := seq(SIZE, i => []); Inv(env, bs, MAX_TIME, 0, 0) && Flatten(bs) == []
  {
    FlattenEmpty(seq(SIZE, i => []));
  }

  /** A cookie expires at that time, or it is the end of time. */
  ghost predicate IsNextExpiration(bs: seq<seq<Cookie>>, next: int) {
    next == MAX_TIME || exists i, c :: 0 <= i < |bs| && c in bs[i] && c.expires == next
  }

  /** The first `i` buckets are filtered, and `next` is the least expiry time in them. */
  ghost predicate Swept(was: seq<seq<Cookie>>, bs: seq<seq<Cookie>>, p: iset<Cookie>, i: nat, next: int) {
    && i <= |bs| == |was|
    && (forall k :: 0 <= k < i ==> bs[k] == Filter(was[k], p))
    && (forall k :: i <= k < |bs| ==> bs[k] == was[k])
    && next <= MAX_TIME
    && (forall k, c :: 0 <= k < i && c in bs[k] && c.expires != 0 ==> next <= c.expires)
    && IsNextExpiration(bs[..i], next)
  }

  lemma SweepStep(was: seq<seq<Cookie>>, bs: seq<seq<Cookie>>, p: iset<Cookie>, i: nat, next: int,
                  list: seq<Cookie>, least: int)
    requires Swept(was, bs, p, i, next) && i < |bs|
    requires list == Filter(was[i], p)
    requires IsLeast(list, next, least)
    ensures Swept(was, bs[i := list], p, i + 1, least)
  {
    var after := bs[i := list][..i + 1];
    if least != next {
      assert after[i] == list;
    } else if next != MAX_TIME {
      var k, c :| 0 <= k < i && c in bs[..i][k] && c.expires == next;
      assert c in after[k];
    }
  }

  lemma SweptAll(env: Env, was: seq<seq<Cookie>>, bs: seq<seq<Cookie>>, p: iset<Cookie>, lastct: int, next: int)
    requires Indexed(env, was) && Separate(was) && Swept(was, bs, p, SIZE, next)
    requires forall i, c :: 0 <= i < SIZE && c in was[i] ==> c.creationtime <= lastct && c.expires <= MAX_TIME
    ensures bs == Kept(was, p) && Indexed(env, bs) && Separate(bs) && Timely(bs, next, lastct)
    ensures IsNextExpiration(bs, next)
  {
    KeptInv(env, was, p, lastct);
    assert bs == Kept(was, p) && bs[..SIZE] == bs;
    forall i, c | 0 <= i < |bs| && c in bs[i]
      ensures c in was[i]
    {
      FilterMembers(was[i], p);
    }
  }

  /** The first `i` buckets are filtered. */
  ghost predicate Partly(was: seq<seq<Cookie>>, bs: seq<seq<Cookie>>, p: iset<Cookie>, i: nat) {
    && i <= |bs| == |was|
    && (forall k :: 0 <= k < i ==> bs[k] == Filter(was[k], p))
    && (forall k :: i <= k < |bs| ==> bs[k] == was[k])
  }

  lemma PartlyStep(was: seq<seq<Cookie>>, bs: seq<seq<Cookie>>, p: iset<Cookie>, i: nat)
    requires Partly(was, bs, p, i) && i < |bs|
    ensures Partly(was, bs[i := Filter(bs[i], p)], p, i + 1)
  {
  }

  lemma ClearedAll(env: Env, was: seq<seq<Cookie>>, bs: seq<seq<Cookie>>, next: int, lastct: int)
    requires Indexed(env, was) && Separate(was) && Timely(was, next, lastct) && Partly(was, bs, Persistent(), SIZE)
    ensures bs == Kept(was, Persistent()) && Indexed(env, bs) && Separate(bs) && Timely(bs, next, lastct)
  {
    KeptInv(env, was, Persistent(), lastct);
    assert bs == Kept(was, Persistent());
    forall i, c | 0 <= i < |bs| && c in bs[i]
      ensures c in was[i]
    {
      FilterMembers(was[i], Persistent());
    }
  }

  /** Storing a cookie with a new creation time keeps the invariant. */
  lemma StoredInv(env: Env, bs: seq<seq<Cookie>>, next: int, num: int, lastct: int, co: Cookie)
    requires Inv(env, bs, next, num, lastct) && co.creationtime == lastct + 1 && co.expires <= MAX_TIME
    ensures var h := CookieHash(env, co.domain);
      var e := AsStored(bs[h], co).expires;
      Inv(env, bs[h := Stored(bs[h], co)], if e != 0 && e < next then e else next,
          num + (if Place(bs[h], KeyOf(co)) < |bs[h]| then 0 else 1), lastct + 1)
    ensures Inv(env, bs, next, num, lastct + 1)
  {
    var h := CookieHash(env, co.domain);
    FlattenUpdate(bs, h, Stored(bs[h], co));
    StoredSeparate(bs, h, co, lastct);
    StoredIndexed(env, bs, h, co);
    StoredTimely(bs, next, lastct, h, co);
  }

  lemma StoredIndexed(env: Env, bs: seq<seq<Cookie>>, h: nat, co: Cookie)
    requires Indexed(env, bs) && h == CookieHash(env, co.domain)
    ensures Indexed(env, bs[h := Stored(bs[h], co)])
  {
    StoredMembers(bs[h], co);
  }

  lemma StoredTimely(bs: seq<seq<Cookie>>, next: int, lastct: int, h: nat, co: Cookie)
    requires h < |bs| && Timely(bs, next, lastct) && co.creationtime == lastct + 1 && co.expires <= MAX_TIME
    ensures var s := AsStored(bs[h], co);
      Timely(bs[h := Stored(bs[h], co)], if s.expires != 0 && s.expires < next then s.expires else next, lastct + 1)
  {
    StoredMembers(bs[h], co);
  }

  lemma StoredSeparate(bs: seq<seq<Cookie>>, h: nat, co: Cookie, lastct: int)
    requires h < |bs| && Separate(bs) && co.creationtime == lastct + 1
    requires forall i, c :: 0 <= i < |bs| && c in bs[i] ==> c.creationtime <= lastct
    ensures Separate(bs[h := Stored(bs[h], co)])
  {
    var list := Stored(bs[h], co);
    StoredDistinct(bs[h], co);
    forall i | 0 <= i < |bs| && i != h
      ensures OtherTimes(bs[i], list) && OtherTimes(list, bs[i])
    {
      assert if i < h then OtherTimes(bs[i], bs[h]) else OtherTimes(bs[h], bs[i]);
      forall c, d | c in bs[i] && d in list
        ensures c.creationtime != d.creationtime
      {
        StoredMembers(bs[h], co);
        if d !in bs[h] && d != co {
          var e :| e in bs[h] && d == co.(creationtime := e.creationtime);
        }
      }
    }
  }

  lemma StoredMembers(list: seq<Cookie>, co: Cookie)
    ensures forall c :: c in Stored(list, co) ==> c in list || c == AsStored(list, co)
    ensures var s := AsStored(list, co);
      s == co || exists c :: c in list && s == co.(creationtime := c.creationtime)
  {
    var k := Place(list, KeyOf(co));
    if k < |list| {
      assert list[k] in list;
    }
  }

  lemma NothingExpired(bs: seq<seq<Cookie>>, next: int, lastct: int, now: int)
    requires Timely(bs, next, lastct) && now < next
    ensures Kept(bs, Unexpired(now)) == bs
  {
    forall i | 0 <= i < |bs|
      ensures Filter(bs[i], Unexpired(now)) == bs[i]
    {
      FilterAll(bs[i], Unexpired(now));
    }
  }
}
