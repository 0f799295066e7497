/** Happy eyeballs (`connect.c`): two walks over the addresses of a host race for the first connection. */
module Eyeballs {
  import opened Basics

  datatype Address = Address(family: int, id: int)

  datatype Code = Ok | CouldntConnect | TimedOut | Other(error: int)

  // ---------------------------------------------------------------------------------------------------------
  // Searching the list of addresses; a pointer into the list is the rest of the list from there on
  // ---------------------------------------------------------------------------------------------------------

  /** The addresses of a family, in list order. */
  function Matching(list: seq<Address>, family: int): seq<Address> {
    if list == [] then []
    else if list[0].family == family then [list[0]] + Matching(list[1..], family)
    else Matching(list[1..], family)
  }

  /** The list from its first address of a family on. */
  function From(list: seq<Address>, family: int): (r: seq<Address>)
    ensures r != [] ==> r[0].family == family
    ensures Matching(r, family) == Matching(list, family)
    ensures r == [] <==> Matching(list, family) == []
    ensures |r| <= |list|
  {
    if list == [] then [] else if list[0].family == family then list else From(list[1..], family)
  }

  method AddrFirstMatch(list: seq<Address>, family: int) returns (r: seq<Address>)
    ensures r == From(list, family)
  {
    r := list;
    while r != []
      invariant From(r, family) == From(list, family)
      decreases |r|
    {
      if r[0].family == family {
        return;
      }
      r := r[1..];
    }
  }

  method AddrNextMatch(list: seq<Address>, family: int) returns (r: seq<Address>)
    ensures r == if list == [] then [] else From(list[1..], family)
  {
    r := list;
    ghost var next := if list == [] then [] else From(list[1..], family);
    while |r| > 1
      invariant r == [] <==> list == []
      invariant r != [] ==> From(r[1..], family) == next
      decreases |r|
    {
      r := r[1..];
      if r[0].family == family {
        return;
      }
    }
    r := [];
  }

  // ---------------------------------------------------------------------------------------------------------
  // Time
  // ---------------------------------------------------------------------------------------------------------

  /** The clock: what its readings will be, in milliseconds, and how many have been taken. */
  class Clock {
    const time: nat -> int
    var ticks: nat

    constructor (time: nat -> int)
      ensures this.time == time && ticks == 0
    {
      this.time, ticks := time, 0;
    }

    /** It does not run backwards. */
    ghost predicate Forward() {
      forall i, j :: 0 <= i <= j ==> time(i) <= time(j)
    }

    method Now() returns (t: int)
      modifies this
      ensures t == time(old(ticks)) && ticks == old(ticks) + 1
    {
      t := time(ticks);
      ticks := ticks + 1;
    }
  }

  const DEFAULT_CONNECT_TIMEOUT := 300000
  const TIMEOUT_LARGE := 600

  /** The limits set for a transfer, 0 for none; the times its operation and this connection have started; the delay of
    * the second walk.
    */
  datatype Limits = Limits(maxTime: nat, connectTime: nat, startOp: int, startSingle: int, delay: nat) {
    function ConnectTime(): nat {
      if connectTime > 0 then connectTime else DEFAULT_CONNECT_TIMEOUT
    }

    /** `Curl_timeleft` while connecting. */
    function TimeLeft(now: int): int {
      var connectLeft := ConnectTime() - (now - startSingle);
      var maxLeft := maxTime - (now - startOp);
      var left := if maxTime == 0 || connectLeft < maxLeft then connectLeft else maxLeft;
      if left == 0 then -1 else left
    }

    /** One of the limits has been reached. */
    predicate IsOver(now: int) {
      now - startSingle >= ConnectTime() || (maxTime > 0 && now - startOp >= maxTime)
    }
  }

  /** The time left is negative from the moment on at which a limit is reached. */
  lemma OverMeansNoTimeLeft(limits: Limits, now: int)
    ensures limits.TimeLeft(now) < 0 <==> limits.IsOver(now)
  {
  }

  /** The time for one attempt: half of what is left if there is another address to try. */
  function UseTime(left: int): int {
    if left > TIMEOUT_LARGE then left / 2 else left
  }

  // ---------------------------------------------------------------------------------------------------------
  // Sub-filters
  // ---------------------------------------------------------------------------------------------------------

  function Ids(cf: Option<nat>): set<nat> {
    if cf.None? then {} else {cf.value}
  }

  /** The attempt that a filter makes: the readings of the clock at which it was started and at which its time was
    * computed, and whether there was another address to try.
    */
  datatype Trial = Trial(since: nat, asked: nat, more: bool)

  /** The attempts that filters make, the filters that have failed, and those that were given up as late, with the
    * reading of the clock at which they were.
    */
  datatype Book = Book(trials: map<nat, Trial>, failed: set<nat>, late: map<nat, nat>)

  /** The time that an attempt is given. */
  function Given(clock: Clock, limits: Limits, trial: Trial): int {
    var left := limits.TimeLeft(clock.time(trial.asked));
    if trial.more then UseTime(left) else left
  }

  predicate OutOfTime(clock: Clock, limits: Limits, trial: Trial, k: nat) {
    clock.time(k) - clock.time(trial.since) >= Given(clock, limits, trial)
  }

  /** The book has grown; only the given filter has failed or been late since. */
  ghost predicate Grows(book: Book, cf: Option<nat>, book': Book) {
    && (forall id :: id in book.trials ==> id in book'.trials && book'.trials[id] == book.trials[id])
    && (forall id :: id in book.late ==> id in book'.late && book'.late[id] == book.late[id])
    && book.failed <= book'.failed <= book.failed + Ids(cf) && book'.late.Keys <= book.late.Keys + Ids(cf)
  }

  /** A filter makes an attempt, and has no excuse to give it up. */
  ghost predicate Tries(book: Book, id: nat, trial: Trial) {
    id in book.trials && book.trials[id] == trial && !IsExcused(book, id)
  }

  lemma NewTrial(book: Book, id: nat, trial: Trial)
    requires id !in book.trials && !IsExcused(book, id)
    ensures var book' := book.(trials := book.trials[id := trial]); Grows(book, None, book') && Tries(book', id, trial)
  {
  }

  lemma GrowsTwice(a: Book, cf: Option<nat>, b: Book, c: Book)
    requires Grows(a, cf, b) && (Grows(b, None, c) || Grows(b, cf, c))
    ensures Grows(a, cf, c)
  {
  }

  /** The attempt of a filter may be given up: the filter has failed or is late. */
  ghost predicate IsExcused(book: Book, id: nat) {
    id in book.failed || id in book.late
  }

  /** A walk agrees with the book: an attempt under way has its time and no excuse, and one that was the last has one.
    */
  ghost predicate Fits(book: Book, clock: Clock, limits: Limits, cf: Option<nat>, started: int, timeout: int,
                       active: bool, failed: bool) {
    && (cf.Some? ==> cf.value in book.trials && (failed ==> IsExcused(book, cf.value)))
    && (cf.Some? && active ==>
          var trial := book.trials[cf.value];
          started == clock.time(trial.since) && timeout == Given(clock, limits, trial) && !IsExcused(book, cf.value))
  }

  /** What happens to another filter makes no difference to a walk. */
  lemma OtherFits(book: Book, own: Option<nat>, book': Book, clock: Clock, limits: Limits, cf: Option<nat>,
                  started: int, timeout: int, active: bool, failed: bool)
    requires Grows(book, own, book') && Fits(book, clock, limits, cf, started, timeout, active, failed)
    requires Ids(cf) !! Ids(own)
    ensures Fits(book', clock, limits, cf, started, timeout, active, failed)
  {
  }

  /** The filters that have been seen connected, and the filters asked whether they are, in order. */
  datatype Seen = Seen(up: set<nat>, polls: seq<nat>) {
    function Polled(cf: nat, connected: bool): Seen {
      Seen(if connected then up + {cf} else up, polls + [cf])
    }

    function With(more: seq<nat>): Seen {
      Seen(up, polls + more)
    }

    lemma WithTwice(a: seq<nat>, b: seq<nat>)
      ensures With(a).With(b) == With(a + b)
    {
      assert polls + a + b == polls + (a + b);
    }
  }

  /** The sub-filters that have been created and not yet discarded. `attempts` are the addresses for which a filter has
    * been asked for, and `seen` is what has been heard from the filters.
    */
  class Filters {
    var live: set<nat>
    var next: nat
    ghost var attempts: seq<Address>
    ghost var seen: Seen
    ghost var book: Book

    ghost predicate Valid()
      reads this
    {
      forall id :: id in live || id in book.failed || id in book.late || id in book.trials ==> id < next
    }

    /** What is in the book as late was out of time at the reading noted for it. */
    ghost predicate Fair(clock: Clock, limits: Limits)
      reads this, clock
    {
      forall id :: id in book.late ==>
        id in book.trials && book.late[id] < clock.ticks && OutOfTime(clock, limits, book.trials[id], book.late[id])
    }

    ghost predicate Excused(id: nat)
      reads this
    {
      IsExcused(book, id)
    }

    /** Every filter created from `base` on lives, or was discarded with an excuse. */
    ghost predicate Kept(base: nat)
      reads this
    {
      forall id :: base <= id < next ==> id in live || Excused(id)
    }

    constructor ()
      ensures Valid() && live == {} && attempts == [] && seen == Seen({}, []) && next == 0
      ensures book == Book(map[], {}, map[])
    {
      live, next, attempts, seen, book := {}, 0, [], Seen({}, []), Book(map[], {}, map[]);
    }

    /** Creates a filter for an address, or fails and leaves a null pointer. */
    method Create(addr: Address, ghost trial: Trial) returns (result: Code, cf: Option<nat>)
      requires Valid()
      modifies this
      ensures Valid() && (result == Ok <==> cf.Some?)
      ensures Grows(old(book), None, book) && next == old(next) + if cf.Some? then 1 else 0
      ensures cf.Some? ==> cf.value == old(next) && Tries(book, cf.value, trial)
      ensures live == old(live) + Ids(cf) && Ids(cf) !! old(live)
      ensures attempts == old(attempts) + [addr] && seen == old(seen)
    {
      result := *;
      attempts := attempts + [addr];
      if result == Ok {
        cf := Some(next);
        NewTrial(book, next, trial);
        book := book.(trials := book.trials[next := trial]);
        live, next := live + {next}, next + 1;
      } else {
        cf := None;
      }
    }

    /** Asks a filter whether it has connected. */
    method Poll(cf: nat) returns (result: Code, connected: bool)
      requires Valid() && cf in live
      modifies this`seen, this`book
      ensures Valid() && (connected ==> result == Ok) && seen == old(seen).Polled(cf, connected)
      ensures book == old(book).(failed := old(book).failed + if result == Ok then {} else {cf})
    {
      var ready: bool := *;
      result := *;
      connected := result == Ok && ready;
      seen := seen.Polled(cf, connected);
      if result != Ok {
        book := book.(failed := book.failed + {cf});
      }
    }

    /** A filter is discarded only while it lives, so at most once. */
    method Discard(cf: Option<nat>)
      requires Valid() && Ids(cf) <= live
      modifies this`live
      ensures Valid() && live == old(live) - Ids(cf)
    {
      live := live - Ids(cf);
    }
  }

  lemma {:induction false} MatchingConcat(a: seq<Address>, b: seq<Address>, family: int)
    ensures Matching(a + b, family) == Matching(a, family) + Matching(b, family)
  {
    if a == [] {
      assert a + b == b;
    } else {
      assert (a + b)[1..] == a[1..] + b;
      MatchingConcat(a[1..], b, family);
    }
  }

  /** All addresses are of the family. */
  predicate AllOf(list: seq<Address>, family: int) {
    forall a :: a in list ==> a.family == family
  }

  lemma {:induction false} MatchingAll(list: seq<Address>, family: int, other: int)
    requires AllOf(list, family)
    ensures Matching(list, other) == if other == family then list else []
  {
    if list != [] {
      MatchingAll(list[1..], family, other);
    }
  }

  /** The attempts of a walk have been made: those recorded for it and those of the filters have grown alike. */
  ghost predicate Made(attempts: seq<Address>, tried: seq<Address>, attempts': seq<Address>, tried': seq<Address>,
                       family: int) {
    attempts <= attempts' && tried' == tried + attempts'[|attempts|..] && AllOf(attempts'[|attempts|..], family)
  }

  lemma MadeTwice(a: seq<Address>, t: seq<Address>, a': seq<Address>, t': seq<Address>,
                  a'': seq<Address>, t'': seq<Address>, family: int)
    requires Made(a, t, a', t', family) && Made(a', t', a'', t'', family)
    ensures Made(a, t, a'', t'', family)
  {
    assert a''[|a|..] == a'[|a|..] + a''[|a'|..];
  }

  /** What other walks attempt does not count for a family. */
  lemma MadeCounts(a: seq<Address>, t: seq<Address>, a': seq<Address>, t': seq<Address>, family: int,
                   mark: nat, other: int)
    requires Made(a, t, a', t', family) && mark <= |a|
    ensures Matching(a'[mark..], other) == Matching(a[mark..], other) + if other == family then a'[|a|..] else []
  {
    assert a'[mark..] == a[mark..] + a'[|a|..];
    MatchingConcat(a[mark..], a'[|a|..], other);
    MatchingAll(a'[|a|..], family, other);
  }

  // ---------------------------------------------------------------------------------------------------------
  // One walk over the addresses of a family
  // ---------------------------------------------------------------------------------------------------------

  class Baller {
    const family: int
    const primary: Baller?
    const delay: nat
    var addr: seq<Address>
    var cf: Option<nat>
    var started: int
    var timeout: int
    var result: Code
    var hasStarted: bool
    var isDone: bool
    var connected: bool
    /** The addresses of the family for which a connection has been attempted, and the others. */
    ghost const all: seq<Address>
    ghost var tried: seq<Address>
    ghost var rest: seq<Address>

    /** The attempts are a prefix of the list; a walk that is done has made them all, unless it was given up. */
    ghost predicate Valid(mayGiveUp: bool)
      reads this
    {
      && all == tried + rest
      && (!hasStarted ==> !isDone && !connected && cf.None? && tried == [] && AtNext())
      && (hasStarted ==> tried != [])
      && (hasStarted && !isDone ==> !connected && cf.Some? && result == Ok && AtCurrent())
      && (isDone && !connected ==> result != Ok && (rest == [] || mayGiveUp))
      && (connected ==> cf.Some? && result == Ok && isDone)
    }

    /** The pointer is at the next address to try. */
    ghost predicate AtNext()
      reads this
    {
      addr != [] && addr[0].family == family && rest == Matching(addr, family)
    }

    /** The pointer is at the address tried last. */
    ghost predicate AtCurrent()
      reads this
    {
      addr != [] && rest == Matching(addr[1..], family)
    }

    /** The walk agrees with what the filters have done. */
    ghost predicate Clocked(filters: Filters, clock: Clock, limits: Limits)
      reads this, filters
    {
      Fits(filters.book, clock, limits, cf, started, timeout, hasStarted && !isDone, isDone && !connected)
    }

    /** A filter that an attempt may be made beside: the attempt of the filter is over. */
    ghost predicate Over(filters: Filters)
      reads this, filters
    {
      cf.Some? ==> filters.Excused(cf.value)
    }

    constructor (list: seq<Address>, family: int, primary: Baller?, delay: nat, timeLeft: int)
      requires list != [] && list[0].family == family
      ensures Valid(false) && !hasStarted && all == Matching(list, family) && addr == list && tried == []
      ensures this.family == family && this.primary == primary && this.delay == delay && cf == None
    {
      this.family, this.primary, this.delay, addr := family, primary, delay, list;
      cf, started, result, hasStarted, isDone, connected := None, 0, CouldntConnect, false, false, false;
      all, tried, rest := Matching(list, family), [], Matching(list, family);
      var next := AddrNextMatch(list, family);
      timeout := if next != [] then UseTime(timeLeft) else timeLeft;
    }

    method Close(filters: Filters)
      requires filters.Valid() && Ids(cf) <= filters.live
      modifies this`cf, filters`live
      ensures filters.Valid() && cf == None && filters.live == old(filters.live) - old(Ids(cf))
    {
      if cf.Some? {
        filters.Discard(cf);
        cf := None;
      }
    }

    /** Attempts a connection to the current address; the previous filter is discarded only afterwards. */
    method Initiate(filters: Filters, ghost trial: Trial, ghost base: nat)
      requires filters.Valid() && Ids(cf) <= filters.live && AtNext() && Over(filters) && filters.Kept(base)
      modifies this`cf, this`result, this`tried, this`rest, filters
      ensures filters.Valid() && (result == Ok <==> cf.Some?) && AtCurrent()
      ensures Swapped(old(filters.live), old(cf), filters.live, cf) && filters.seen == old(filters.seen)
      ensures tried + rest == old(tried + rest) && tried == old(tried) + [addr[0]]
      ensures Made(old(filters.attempts), old(tried), filters.attempts, tried, family)
      ensures filters.Kept(base) && Grows(old(filters.book), None, filters.book)
      ensures cf.Some? ==> Tries(filters.book, cf.value, trial)
    {
      var cfPrev := cf;
      var r := CreateNext(filters, trial, base);
      if r != Ok {
        Close(filters);
      }
      if cfPrev.Some? {
        filters.Discard(cfPrev);
      }
      result := r;
    }

    /** A new filter for the current address, beside the previous one. */
    method CreateNext(filters: Filters, ghost trial: Trial, ghost base: nat) returns (r: Code)
      requires filters.Valid() && AtNext() && filters.Kept(base)
      modifies this`cf, this`tried, this`rest, filters
      ensures filters.Valid() && (r == Ok <==> cf.Some?) && AtCurrent() && filters.seen == old(filters.seen)
      ensures filters.live == old(filters.live) + Ids(cf) && Ids(cf) !! old(filters.live)
      ensures tried + rest == old(tried + rest) && tried == old(tried) + [addr[0]]
      ensures Made(old(filters.attempts), old(tried), filters.attempts, tried, family)
      ensures filters.Kept(base) && Grows(old(filters.book), None, filters.book)
      ensures cf.Some? ==> Tries(filters.book, cf.value, trial)
    {
      r, cf := filters.Create(addr[0], trial);
      tried, rest := tried + [addr[0]], Matching(addr[1..], family);
    }

    method NextAddr()
      requires AtCurrent()
      modifies this`addr
      ensures addr == [] ==> rest == []
      ensures addr != [] ==> AtNext() && |addr| < |old(addr)|
    {
      addr := AddrNextMatch(addr, family);
    }

    /** One attempt, with the time it is given. */
    method Attempt(filters: Filters, clock: Clock, timeLeft: int, ghost limits: Limits, ghost asked: nat,
                   ghost base: nat)
      requires filters.Valid() && Ids(cf) <= filters.live && AtNext() && Over(filters) && filters.Kept(base)
      requires timeLeft == limits.TimeLeft(clock.time(asked)) && filters.Fair(clock, limits)
      modifies this`started, this`timeout, this`cf, this`result, this`tried, this`rest, filters, clock
      ensures filters.Valid() && (result == Ok <==> cf.Some?) && AtCurrent() && clock.ticks == old(clock.ticks) + 1
      ensures started == clock.time(old(clock.ticks)) && timeout == if rest != [] then UseTime(timeLeft) else timeLeft
      ensures Swapped(old(filters.live), old(cf), filters.live, cf) && filters.seen == old(filters.seen)
      ensures tried + rest == old(tried + rest) && tried != []
      ensures Made(old(filters.attempts), old(tried), filters.attempts, tried, family)
      ensures filters.Kept(base) && Grows(old(filters.book), None, filters.book) && filters.Fair(clock, limits)
      ensures Fits(filters.book, clock, limits, cf, started, timeout, true, false)
    {
      ghost var since := clock.ticks;
      started := clock.Now();
      var next := AddrNextMatch(addr, family);
      timeout := if next != [] then UseTime(timeLeft) else timeLeft;
      Initiate(filters, Trial(since, asked, next != []), base);
    }

    /** Walks on from the current address until an attempt can be made or the addresses are used up. */
    method Start(filters: Filters, clock: Clock, timeLeft: int, ghost limits: Limits, ghost asked: nat, ghost base: nat)
      requires filters.Valid() && Ids(cf) <= filters.live && all == tried + rest && !isDone
      requires Over(filters) && filters.Kept(base) && filters.Fair(clock, limits)
      requires timeLeft == limits.TimeLeft(clock.time(asked)) && (cf.Some? ==> cf.value in filters.book.trials)
      requires if addr == [] then result != Ok && rest == [] && tried != [] else AtNext()
      modifies this, filters, clock
      ensures Valid(false) && filters.Valid() && hasStarted && !connected && clock.ticks >= old(clock.ticks)
      ensures Swapped(old(filters.live), old(cf), filters.live, cf) && filters.seen == old(filters.seen)
      ensures Made(old(filters.attempts), old(tried), filters.attempts, tried, family)
      ensures filters.Kept(base) && Grows(old(filters.book), None, filters.book) && filters.Fair(clock, limits)
      ensures Clocked(filters, clock, limits)
    {
      connected, hasStarted := false, true;
      ghost var live, f, made, t, book := filters.live, cf, filters.attempts, tried, filters.book;
      var going := true;
      while going && addr != []
        invariant WalkKept(filters, clock, limits, base, live, f, made, t, book)
        invariant if going then Walking(filters) else Attempting(filters, clock, limits)
        invariant filters.seen == old(filters.seen) && clock.ticks >= old(clock.ticks)
        decreases going, |addr|
      {
        StartTurn(filters, clock, timeLeft, limits, asked, base, live, f, made, t, book);
        going := result != Ok;
      }
      if addr == [] {
        isDone := true;
      }
    }

    /** What every turn of a walk keeps. */
    ghost predicate WalkKept(filters: Filters, clock: Clock, limits: Limits, base: nat, live: set<nat>, f: Option<nat>,
                             made: seq<Address>, t: seq<Address>, book: Book)
      reads this, filters, clock
    {
      && filters.Valid() && Swapped(live, f, filters.live, cf) && all == tried + rest
      && Made(made, t, filters.attempts, tried, family) && hasStarted && !connected && !isDone
      && filters.Kept(base) && Grows(book, None, filters.book) && filters.Fair(clock, limits)
    }

    /** No attempt is under way, and the walk is at its next address or at its end. */
    ghost predicate Walking(filters: Filters)
      reads this, filters
    {
      && Over(filters) && (cf.Some? ==> cf.value in filters.book.trials)
      && if addr == [] then result != Ok && rest == [] && tried != [] else AtNext()
    }

    /** An attempt is under way. */
    ghost predicate Attempting(filters: Filters, clock: Clock, limits: Limits)
      reads this, filters
    {
      && result == Ok && cf.Some? && AtCurrent() && tried != []
      && Fits(filters.book, clock, limits, cf, started, timeout, true, false)
    }

    /** One turn of a walk: the current address is attempted, and if this fails the walk goes on to the next one. */
    method StartTurn(filters: Filters, clock: Clock, timeLeft: int, ghost limits: Limits, ghost asked: nat,
                     ghost base: nat, ghost live: set<nat>, ghost f: Option<nat>, ghost made: seq<Address>,
                     ghost t: seq<Address>, ghost book: Book)
      requires WalkKept(filters, clock, limits, base, live, f, made, t, book) && Walking(filters) && addr != []
      requires timeLeft == limits.TimeLeft(clock.time(asked)) && Ids(f) <= live
      modifies this, filters, clock
      ensures WalkKept(filters, clock, limits, base, live, f, made, t, book)
      ensures if result == Ok then Attempting(filters, clock, limits) && addr != []
              else Walking(filters) && |addr| < |old(addr)|
      ensures filters.seen == old(filters.seen) && clock.ticks >= old(clock.ticks)
    {
      ghost var live', f', made', t', book' := filters.live, cf, filters.attempts, tried, filters.book;
      Attempt(filters, clock, timeLeft, limits, asked, base);
      SwappedTwice(live, f, live', f', filters.live, cf);
      MadeTwice(made, t, made', t', filters.attempts, tried, family);
      GrowsTwice(book, None, book', filters.book);
      if result != Ok {
        NextAddr();
      }
    }

    /** After a failed attempt: tries the next address, but for other than the first socket gives up. */
    method StartNext(filters: Filters, clock: Clock, timeLeft: int, first: bool, ghost limits: Limits, ghost asked: nat,
                     ghost base: nat)
      requires filters.Valid() && Ids(cf) <= filters.live && all == tried + rest && tried != []
      requires Over(filters) && filters.Kept(base) && filters.Fair(clock, limits)
      requires timeLeft == limits.TimeLeft(clock.time(asked)) && (cf.Some? ==> cf.value in filters.book.trials)
      requires hasStarted && !isDone && result != Ok && AtCurrent()
      modifies this, filters, clock
      ensures Valid(!first) && filters.Valid() && hasStarted && !connected && clock.ticks >= old(clock.ticks)
      ensures !first ==> isDone && tried == old(tried)
      ensures Swapped(old(filters.live), old(cf), filters.live, cf) && filters.seen == old(filters.seen)
      ensures Made(old(filters.attempts), old(tried), filters.attempts, tried, family)
      ensures filters.Kept(base) && Grows(old(filters.book), None, filters.book) && filters.Fair(clock, limits)
      ensures Clocked(filters, clock, limits)
    {
      if first {
        NextAddr();
        Start(filters, clock, timeLeft, limits, asked, base);
      } else {
        connected, hasStarted, isDone, result := false, true, true, CouldntConnect;
      }
    }

    /** Looks whether the attempt has succeeded, failed, or taken too long. An attempt that has not failed and is within
      * its time goes on.
      */
    method Connect(filters: Filters, now: int, clock: Clock, ghost limits: Limits, ghost tick: nat, ghost base: nat)
      returns (up: bool)
      requires Valid(false) && hasStarted && !isDone && Ids(cf) <= filters.live && filters.Valid()
      requires Clocked(filters, clock, limits) && filters.Kept(base) && filters.Fair(clock, limits)
      requires tick < clock.ticks && now == clock.time(tick)
      modifies this`result, this`connected, this`isDone, filters`seen, filters`book
      ensures filters.Valid() && filters.Kept(base) && filters.Fair(clock, limits)
      ensures Grows(old(filters.book), cf, filters.book)
      ensures up == connected && (up ==> Valid(false) && isDone && result == Ok)
      ensures !up ==> !isDone && (result == Ok ==> Valid(false) && Clocked(filters, clock, limits))
      ensures result == Ok <==> up || (cf.value !in filters.book.failed && now - started < timeout)
      ensures result != Ok ==> Over(filters) && cf.value in filters.book.trials
      ensures filters.seen == old(filters.seen).Polled(cf.value, up)
    {
      result, up := filters.Poll(cf.value);
      if result == Ok {
        if up {
          connected, isDone := true, true;
        } else if now - started >= timeout {
          result := TimedOut;
          filters.book := filters.book.(late := filters.book.late[cf.value := tick]);
        }
      }
    }
  }

  /** One filter has taken the place of another, which has been discarded. */
  ghost predicate Swapped(live: set<nat>, cf: Option<nat>, live': set<nat>, cf': Option<nat>) {
    live' == live - Ids(cf) + Ids(cf') && (cf' == cf || Ids(cf') !! live)
  }

  lemma SwappedTwice(a: set<nat>, f: Option<nat>, b: set<nat>, g: Option<nat>, c: set<nat>, h: Option<nat>)
    requires Ids(f) <= a && Swapped(a, f, b, g) && Swapped(b, g, c, h)
    ensures Swapped(a, f, c, h)
  {
  }

  // ---------------------------------------------------------------------------------------------------------
  // The race of two walks
  // ---------------------------------------------------------------------------------------------------------

  const AF_UNSPEC := 0
  const AF_INET := 2
  const AF_INET6 := 10

  datatype IpVersion = Whatever | V4 | V6

  /** The families of the two walks. */
  function Families(list: seq<Address>, version: IpVersion): (int, int) {
    match version
    case Whatever =>
      var first := if list == [] then 0 else list[0].family;
      (first, if first == AF_INET6 then AF_INET else AF_INET6)
    case V4 => (AF_INET, AF_UNSPEC)
    case V6 => (AF_INET6, AF_UNSPEC)
  }

  lemma {:induction false} MatchingMembers(list: seq<Address>, family: int)
    ensures forall a :: a in Matching(list, family) <==> a in list && a.family == family
  {
    if list != [] {
      MatchingMembers(list[1..], family);
    }
  }

  lemma {:induction false} MatchingApart(list: seq<Address>, family0: int, family1: int)
    requires family0 != family1
    ensures |Matching(list, family0)| + |Matching(list, family1)| <= |list|
  {
    if list != [] {
      MatchingApart(list[1..], family0, family1);
    }
  }

  /** The two walks share no address, and if the first address is one of IPv4 or IPv6 they cover all of both. */
  lemma WalksCover(list: seq<Address>, version: IpVersion)
    ensures var (f0, f1) := Families(list, version);
      && |Matching(list, f0)| + |Matching(list, f1)| <= |list|
      && (version == Whatever && list != [] && list[0].family in {AF_INET, AF_INET6} ==>
            forall a :: a in list && a.family in {AF_INET, AF_INET6} ==> a in Matching(list, f0) + Matching(list, f1))
      && (version == V4 ==> forall a :: a in list && a.family == AF_INET ==> a in Matching(list, f0))
      && (version == V6 ==> forall a :: a in list && a.family == AF_INET6 ==> a in Matching(list, f0))
  {
    var (f0, f1) := Families(list, version);
    MatchingApart(list, f0, f1);
    MatchingMembers(list, f0);
    MatchingMembers(list, f1);
  }

  datatype State = Init | Waiting | Done

  datatype Outcome = Skipped | NotStarted | Ongoing | Failed | Won

  /** The live filters are those held in four places, each in one of them only. */
  ghost predicate Partition(live: set<nat>, a: set<nat>, b: set<nat>, c: set<nat>, d: set<nat>) {
    live == a + b + c + d && a !! b && a !! c && a !! d && b !! c && b !! d && c !! d
  }

  lemma Replaced(live: set<nat>, cf: Option<nat>, live': set<nat>, cf': Option<nat>,
                 b: set<nat>, c: set<nat>, d: set<nat>)
    requires Swapped(live, cf, live', cf')
    requires Partition(live, Ids(cf), b, c, d)
    ensures Partition(live', Ids(cf'), b, c, d)
  {
  }

  lemma Permuted(live: set<nat>, a: set<nat>, b: set<nat>, c: set<nat>, d: set<nat>)
    requires Partition(live, a, b, c, d)
    ensures Partition(live, b, a, c, d) && Partition(live, c, b, a, d) && Partition(live, b, c, a, d)
  {
  }

  class Connection {
    const filters: Filters
    const clock: Clock
    const limits: Limits
    const list: seq<Address>
    const version: IpVersion
    /** Whether this is the first socket of the transfer. */
    const first: bool
    var state: State
    var started: int
    var baller0: Baller?
    var baller1: Baller?
    var winner: Baller?
    /** The filter that has been installed below this one. */
    var next: Option<nat>
    /** When the walks were set up, as a reading of the clock and as a number of attempts. */
    ghost var startedAt: nat
    ghost var mark: nat
    /** The number of the first filter made since then. */
    ghost var base: nat

    constructor (list: seq<Address>, version: IpVersion, first: bool, limits: Limits, clock: Clock)
      requires clock.Forward()
      ensures Valid() && Phase() && fresh(filters) && state == Init && filters.live == {}
      ensures this.list == list && this.version == version && this.first == first
      ensures this.limits == limits && this.clock == clock
    {
      this.list, this.version, this.first, this.limits, this.clock := list, version, first, limits, clock;
      filters := new Filters();
      state, started, baller0, baller1, winner, next := Init, 0, null, null, null, None;
      startedAt, mark, base := 0, 0, 0;
    }

    ghost function Held(b: Baller?): set<nat>
      reads b
    {
      if b == null then {} else Ids(b.cf)
    }

    /** The live filters are those of the ballers and the installed one, each of them held once. */
    ghost predicate Accounted()
      reads this, baller0, baller1, winner, filters
    {
      filters.Valid() && Partition(filters.live, Held(baller0), Held(baller1), Held(winner), Ids(next))
    }

    ghost predicate Slot(b: Baller?)
      reads b
    {
      b != null ==> b.Valid(!first) && !b.connected && b.all == Matching(list, b.family)
    }

    /** The attempts made for the family of a walk since the walks were set up are those of the walk. */
    ghost predicate Counted(b: Baller?)
      reads this`mark, filters, b
    {
      b != null ==> mark <= |filters.attempts| && Matching(filters.attempts[mark..], b.family) == b.tried
    }

    /** The time at which the walks were set up has been read from the clock. */
    ghost predicate Timed()
      reads this, clock
    {
      && clock.Forward() && (baller0 != null ==> startedAt < clock.ticks && started == clock.time(startedAt))
    }

    /** The walks agree with the book, and every filter made since the walks were set up lives or was given up rightly.
      */
    ghost predicate Booked()
      reads this, baller0, baller1, filters, clock
    {
      && filters.Fair(clock, limits) && Clocked(baller0) && Clocked(baller1)
      && (baller0 != null || baller1 != null || winner != null ==> filters.Kept(base))
    }

    ghost predicate Clocked(b: Baller?)
      reads b, filters
    {
      b != null ==> b.Clocked(filters, clock, limits)
    }

    /** The second walk has started only after its delay or after the first one was done. */
    ghost predicate Delayed()
      reads this, baller0, baller1, clock
    {
      baller1 != null ==>
        && baller1.delay == limits.delay
        && (baller1.hasStarted && baller0 != null && !baller0.isDone ==> SawDelay())
    }

    /** The clock has shown a time at which the delay was over. */
    ghost predicate SawDelay()
      reads this`started, this`startedAt, clock
    {
      exists k :: startedAt <= k < clock.ticks && clock.time(k) - started >= limits.delay
    }

    /** The slots hold two walks over different families. */
    ghost predicate Paired()
      reads this, baller0, baller1
    {
      && (baller0 != null ==> baller0 != baller1 && baller0 != winner && baller0.delay == 0)
      && (baller0 != null && baller1 != null ==> baller0.family != baller1.family)
      && (baller1 != null ==> baller1 != winner && (winner == null ==> baller0 != null && baller1.primary == baller0))
    }

    ghost predicate Valid()
      reads this, baller0, baller1, winner, filters, clock
    {
      && Booked() && Delayed() && Accounted() && Slot(baller0) && Slot(baller1)
      && Counted(baller0) && Counted(baller1) && Timed() && Paired()
    }

    /** The filter of a walk whose attempt is under way. */
    ghost function UnderWay(b: Baller?): seq<nat>
      reads b
    {
      if Active(b) && b.cf.Some? then [b.cf.value] else []
    }

    ghost function AllUnderWay(): seq<nat>
      reads this, baller0, baller1
    {
      UnderWay(baller0) + UnderWay(baller1)
    }

    /** What will have been seen when a walk has been looked after that does not win. */
    ghost function Heard(b: Baller?): Seen
      reads filters, b
    {
      filters.seen.With(UnderWay(b))
    }

    ghost function HeardAll(): Seen
      reads this, filters, baller0, baller1
    {
      filters.seen.With(AllUnderWay())
    }

    /** Since then the filters given have been asked, and none has been seen connected. */
    ghost predicate Watched(was: Seen, under: seq<nat>)
      reads filters
    {
      filters.seen.up == was.up && was.polls + under <= filters.seen.polls
    }

    /** Looks after one walk: a failed attempt is followed by the next. */
    method Evaluate(b: Baller, now: int, ghost tick: nat) returns (outcome: Outcome)
      requires Slot(b) && filters.Valid() && Ids(b.cf) <= filters.live
      requires tick < clock.ticks && now == clock.time(tick)
      requires Clocked(b) && filters.Kept(base) && filters.Fair(clock, limits)
      modifies b, filters, clock
      ensures filters.Valid() && Swapped(old(filters.live), old(b.cf), filters.live, b.cf)
      ensures Made(old(filters.attempts), old(b.tried), filters.attempts, b.tried, b.family)
      ensures clock.ticks >= old(clock.ticks)
      ensures if outcome == Won then Ids(b.cf) <= filters.seen.up else filters.seen == old(Heard(b))
      ensures Clocked(b) && filters.Kept(base) && filters.Fair(clock, limits)
      ensures Grows(old(filters.book), old(b.cf), filters.book)
      ensures b.Valid(!first) && (outcome != Won ==> !b.connected)
      ensures b.hasStarted == old(b.hasStarted) && (old(b.isDone) ==> b.isDone)
      ensures match outcome
        case Skipped => old(b.isDone) && b.isDone
        case NotStarted => !b.hasStarted
        case Ongoing => b.hasStarted && !b.isDone
        case Failed => b.isDone
        case Won => b.connected
    {
      if b.isDone {
        return Skipped;
      }
      if !b.hasStarted {
        return NotStarted;
      }
      ghost var book, cf := filters.book, b.cf;
      var up := b.Connect(filters, now, clock, limits, tick, base);
      ghost var book' := filters.book;
      if b.result == Ok {
        outcome := if up then Won else Ongoing;
      } else {
        b.StartNext(filters, clock, limits.TimeLeft(now), first, limits, tick, base);
        GrowsTwice(book, cf, book', filters.book);
        outcome := if b.isDone then Failed else Ongoing;
      }
    }

    /** Looks after the walk in a slot, and leaves it there. */
    method Race(b: Baller, now: int, ghost tick: nat) returns (outcome: Outcome)
      requires Valid() && winner == null && (b == baller0 || b == baller1)
      requires tick < clock.ticks && now == clock.time(tick)
      modifies b, filters, clock
      ensures Racing(b) && Later(old(filters.attempts), old(clock.ticks)) && b.hasStarted == old(b.hasStarted)
      ensures outcome == Won <==> b.connected
      ensures if outcome == Won then IsUp(b) else filters.seen == old(Heard(b))
      ensures outcome == Ongoing <==> b.hasStarted && !b.isDone
      ensures outcome == NotStarted <==> !b.hasStarted
    {
      ghost var live, cf, made, tried, book := filters.live, b.cf, filters.attempts, b.tried, filters.book;
      ghost var o := if b == baller0 then baller1 else baller0;
      Permuted(live, Held(baller0), Held(baller1), {}, Ids(next));
      outcome := Evaluate(b, now, tick);
      BackInRace(b, o, live, cf, made, tried, book);
    }

    /** When a walk has moved on beside the other one, everything still fits. */
    lemma BackInRace(b: Baller, o: Baller?, live: set<nat>, cf: Option<nat>, made: seq<Address>, tried: seq<Address>,
                     book: Book)
      requires winner == null && ((b == baller0 && o == baller1) || (b == baller1 && o == baller0))
      requires Paired() && Timed() && Delayed() && Slot(o) && b.Valid(!first)
      requires filters.Valid() && filters.Fair(clock, limits) && filters.Kept(base) && Clocked(b)
      requires Partition(live, Ids(cf), Held(o), {}, Ids(next)) && Swapped(live, cf, filters.live, b.cf)
      requires mark <= |made| && Made(made, tried, filters.attempts, b.tried, b.family)
      requires Matching(made[mark..], b.family) == tried && Grows(book, cf, filters.book)
      requires o != null ==>
        && Matching(made[mark..], o.family) == o.tried
        && Fits(book, clock, limits, o.cf, o.started, o.timeout, o.hasStarted && !o.isDone, o.isDone && !o.connected)
      ensures Racing(b)
    {
      OtherClocked(o, book, cf);
      StillCounted(b, made, tried);
      Replaced(live, cf, filters.live, b.cf, Held(o), {}, Ids(next));
      Permuted(filters.live, Held(b), Held(o), {}, Ids(next));
    }

    /** Looks after the walk in a slot; if it has connected, it becomes the winner and leaves its slot. */
    method Visit(b: Baller, now: int, ghost tick: nat) returns (outcome: Outcome)
      requires Valid() && winner == null && (b == baller0 || b == baller1)
      requires tick < clock.ticks && now == clock.time(tick)
      modifies this`baller0, this`baller1, this`winner, b, filters, clock
      ensures Valid() && (outcome == Won <==> winner != null) && Later(old(filters.attempts), old(clock.ticks))
      ensures if outcome == Won then winner == b && IsUp(b) else filters.seen == old(Heard(b))
      ensures baller0 == (if outcome == Won && b == old(baller0) then null else old(baller0))
      ensures baller1 == (if outcome == Won && b == old(baller1) then null else old(baller1))
      ensures outcome == Ongoing <==> Active(b)
      ensures outcome == NotStarted <==> Fresh(b)
      ensures !old(Fresh(b)) ==> !Fresh(b)
    {
      outcome := Race(b, now, tick);
      if outcome == Won {
        Declare(b);
      }
    }

    /** What happened to one walk leaves the other one in agreement with the book. */
    lemma OtherClocked(b: Baller?, book: Book, own: Option<nat>)
      requires Grows(book, own, filters.book) && Held(b) !! Ids(own)
      requires b != null ==>
        Fits(book, clock, limits, b.cf, b.started, b.timeout, b.hasStarted && !b.isDone, b.isDone && !b.connected)
      ensures Clocked(b)
    {
      if b != null {
        OtherFits(book, own, filters.book, clock, limits, b.cf, b.started, b.timeout, b.hasStarted && !b.isDone,
                  b.isDone && !b.connected);
      }
    }

    /** A walk that has connected leaves its slot. */
    method Declare(b: Baller)
      requires Racing(b) && winner == null && IsUp(b)
      modifies this`baller0, this`baller1, this`winner
      ensures Valid() && winner == b
      ensures baller0 == (if b == old(baller0) then null else old(baller0))
      ensures baller1 == (if b == old(baller1) then null else old(baller1))
    {
      winner := b;
      if b == baller0 {
        baller0 := null;
      } else {
        baller1 := null;
      }
    }

    /** Like `Valid`, but the walk may have connected while it is still in its slot. */
    ghost predicate Racing(b: Baller)
      reads this, baller0, baller1, winner, filters, clock
    {
      && Booked() && Delayed() && (b == baller0 || b == baller1) && Accounted()
      && Counted(baller0) && Counted(baller1) && Timed() && Paired()
      && (if b == baller0 then Slot(baller1) else Slot(baller0)) && b.Valid(!first)
    }

    /** A walk has connected: its filter has been seen up. */
    ghost predicate IsUp(b: Baller)
      reads b, filters
    {
      b.Valid(!first) && b.connected && Ids(b.cf) <= filters.seen.up
    }

    /** Attempts and readings of the clock are never taken back. */
    ghost predicate Later(attempts: seq<Address>, ticks: nat)
      reads filters, clock
    {
      attempts <= filters.attempts && clock.ticks >= ticks
    }

    /** When one walk has made attempts, the attempts of both are still counted. */
    lemma StillCounted(b: Baller, made: seq<Address>, tried: seq<Address>)
      requires mark <= |made| && Made(made, tried, filters.attempts, b.tried, b.family)
      requires Matching(made[mark..], b.family) == tried
      ensures Counted(b)
      ensures forall other: Baller ::
        other.family != b.family && Matching(made[mark..], other.family) == other.tried ==> Counted(other)
    {
      MadeCounts(made, tried, filters.attempts, b.tried, b.family, mark, b.family);
      forall other: Baller | other.family != b.family && Matching(made[mark..], other.family) == other.tried
        ensures Counted(other)
      {
        MadeCounts(made, tried, filters.attempts, b.tried, b.family, mark, other.family);
      }
    }

    /** Looks after both walks until one has won. */
    method Round(now: int, ghost tick: nat) returns (ongoing: bool, notStarted: bool)
      requires Valid() && winner == null && baller0 != null
      requires tick < clock.ticks && now == clock.time(tick)
      modifies this`baller0, this`baller1, this`winner, baller0, baller1, filters, clock
      ensures Valid() && (winner != null ==> IsUp(winner)) && Later(old(filters.attempts), old(clock.ticks))
      ensures winner != null ==> winner == old(baller0) || winner == old(baller1)
      ensures (baller0 == null || baller0 == old(baller0)) && (baller1 == null || baller1 == old(baller1))
      ensures winner == null ==>
        && baller0 == old(baller0) && baller1 == old(baller1)
        && (ongoing <==> Active(baller0) || Active(baller1))
        && (notStarted <==> Fresh(baller0) || Fresh(baller1))
        && (!old(Fresh(baller0)) ==> !Fresh(baller0)) && (!old(Fresh(baller1)) ==> !Fresh(baller1))
        && filters.seen == old(HeardAll())
    {
      ongoing, notStarted := false, false;
      filters.seen.WithTwice(UnderWay(baller0), UnderWay(baller1));
      var outcome := Visit(baller0, now, tick);
      if outcome == Won {
        return;
      }
      ongoing, notStarted := outcome == Ongoing, outcome == NotStarted;
      assert UnderWay(baller1) == old(UnderWay(baller1));
      outcome := VisitSecond(now, tick);
      ongoing, notStarted := ongoing || outcome == Ongoing, notStarted || outcome == NotStarted;
    }

    /** Looks after the second walk if there is one. */
    method VisitSecond(now: int, ghost tick: nat) returns (outcome: Outcome)
      requires Valid() && winner == null && baller0 != null
      requires tick < clock.ticks && now == clock.time(tick)
      modifies this`baller0, this`baller1, this`winner, baller1, filters, clock
      ensures Valid() && Later(old(filters.attempts), old(clock.ticks)) && baller0 == old(baller0)
      ensures if winner == null then baller1 == old(baller1) && filters.seen == old(Heard(baller1))
              else winner == old(baller1) && baller1 == null && IsUp(winner)
      ensures outcome == Won <==> winner != null
      ensures winner == null ==>
        && (outcome == Ongoing <==> Active(baller1)) && (outcome == NotStarted <==> Fresh(baller1))
        && (!old(Fresh(baller1)) ==> !Fresh(baller1))
    {
      outcome := Skipped;
      if baller1 != null {
        outcome := Visit(baller1, now, tick);
      }
    }

    /** An attempt is under way. */
    ghost predicate Active(b: Baller?)
      reads b
    {
      b != null && b.hasStarted && !b.isDone
    }

    ghost predicate Fresh(b: Baller?)
      reads b
    {
      b != null && !b.hasStarted
    }

    /** Starts a waiting walk if its delay is over or the walk it is a backup for is done. */
    method StartWaiting(b: Baller, now: int, ghost tick: nat) returns (added: bool)
      requires tick >= startedAt
      requires Valid() && winner == null && (b == baller0 || b == baller1) && Fresh(b) && now >= started
      requires tick < clock.ticks && now == clock.time(tick)
      modifies b, filters, clock
      ensures Valid() && (added ==> Active(b)) && Later(old(filters.attempts), old(clock.ticks))
      ensures filters.seen == old(filters.seen)
      ensures b.hasStarted <==> now - started >= b.delay || (b.primary != null && old(b.primary.isDone))
      ensures added || (b.hasStarted && b.isDone) || (Fresh(b) && b == baller1 && !baller0.isDone)
    {
      if (b.primary != null && b.primary.isDone) || now - started >= b.delay {
        StartWalk(b, now, tick);
        return !b.isDone;
      }
      added := false;
    }

    method StartWalk(b: Baller, now: int, ghost tick: nat)
      requires Valid() && winner == null && (b == baller0 || b == baller1) && Fresh(b)
      requires startedAt <= tick < clock.ticks && now == clock.time(tick)
      requires b == baller1 ==> baller0.isDone || now - started >= limits.delay
      modifies b, filters, clock
      ensures Racing(b) && b.hasStarted && !b.connected && Later(old(filters.attempts), old(clock.ticks))
      ensures filters.seen == old(filters.seen)
    {
      ghost var live, cf, made, tried, book := filters.live, b.cf, filters.attempts, b.tried, filters.book;
      ghost var o := if b == baller0 then baller1 else baller0;
      Permuted(live, Held(baller0), Held(baller1), {}, Ids(next));
      b.Start(filters, clock, limits.TimeLeft(now), limits, tick, base);
      assert b == baller1 && !baller0.isDone ==> clock.time(tick) - started >= limits.delay;
      BackInRace(b, o, live, cf, made, tried, book);
    }

    /** The walks that have not started. */
    ghost function Unstarted(): nat
      reads this, baller0, baller1
    {
      (if Fresh(baller0) then 1 else 0) + if Fresh(baller1) then 1 else 0
    }

    /** Starts the waiting walks. */
    method StartAll(now: int, ghost tick: nat) returns (added: bool)
      requires tick >= startedAt
      requires Valid() && winner == null && baller0 != null && now >= started
      requires tick < clock.ticks && now == clock.time(tick)
      modifies baller0, baller1, filters, clock
      ensures Later(old(filters.attempts), old(clock.ticks)) && filters.seen == old(filters.seen)
      ensures Fresh(baller1) ==> now - started < limits.delay
      ensures Valid() && (!added ==> !Fresh(baller0) && (Fresh(baller1) ==> !baller0.isDone))
      ensures added ==> Unstarted() < old(Unstarted()) && (Active(baller0) || Active(baller1))
      ensures !added ==> Active(baller0) == old(Active(baller0)) && Active(baller1) == old(Active(baller1))
    {
      added := false;
      if !baller0.hasStarted {
        added := StartWaiting(baller0, now, tick);
      }
      if baller1 != null && !baller1.hasStarted {
        var more := StartWaiting(baller1, now, tick);
        added := added || more;
      }
    }

    /** All attempts allowed have been made and have failed. */
    ghost predicate Exhausted(b: Baller?)
      reads b
    {
      b != null ==> b.hasStarted && b.isDone && (first ==> b.tried == b.all)
    }

    /** A reading of the clock since then was at or past one of the limits. */
    ghost predicate SawLate(ticks: nat)
      reads clock
    {
      exists k :: ticks <= k < clock.ticks && limits.IsOver(clock.time(k))
    }

    /** Every filter made since the walks were set up has failed, or the clock has shown a time at which it was out of
      * time.
      */
    ghost predicate AllGivenUp()
      reads this, filters, clock
    {
      forall id :: base <= id < filters.next && id !in Ids(next) ==>
        id in filters.book.failed || (id in filters.book.trials && SawOutOfTime(filters.book.trials[id]))
    }

    ghost predicate SawOutOfTime(trial: Trial)
      reads clock
    {
      exists k :: 0 <= k < clock.ticks && OutOfTime(clock, limits, trial, k)
    }

    lemma ExhaustedIsGivenUp()
      requires Valid() && winner == null && baller0 != null && Exhausted(baller0) && Exhausted(baller1)
      ensures AllGivenUp()
    {
      forall id | base <= id < filters.next && id !in Ids(next)
        ensures id in filters.book.failed || (id in filters.book.trials && SawOutOfTime(filters.book.trials[id]))
      {
        assert filters.Excused(id);
        if id in filters.book.late {
          assert OutOfTime(clock, limits, filters.book.trials[id], filters.book.late[id]);
        }
      }
    }

    /** Nothing has connected: gives up if the time is over, or starts waiting walks, or looks for a failure. */
    method Proceed(now: int, ongoing: bool, notStarted: bool, ghost tick: nat) returns (result: Code, again: bool)
      requires startedAt <= tick < clock.ticks && now == clock.time(tick)
      requires Valid() && winner == null && baller0 != null && now >= started
      requires ongoing <==> Active(baller0) || Active(baller1)
      requires notStarted <==> Fresh(baller0) || Fresh(baller1)
      modifies baller0, baller1, filters, clock
      ensures Valid() && Later(old(filters.attempts), old(clock.ticks)) && Unstarted() <= old(Unstarted())
      ensures filters.seen == old(filters.seen) && (again ==> Unstarted() < old(Unstarted()))
      ensures !again && result == Ok ==>
        (Active(baller0) || Active(baller1)) && (Fresh(baller1) ==> now - started < limits.delay)
      ensures !again && result != Ok ==>
        || (Exhausted(baller0) && Exhausted(baller1) && AllGivenUp() && IsCode(result))
        || (result == TimedOut && limits.IsOver(now))
    {
      again := false;
      if (ongoing || notStarted) && limits.TimeLeft(now) < 0 {
        OverMeansNoTimeLeft(limits, now);
        return TimedOut, false;
      }
      if notStarted {
        again := StartAll(now, tick);
      }
      if again || ongoing {
        result := Ok;
      } else {
        result := FailureCode();
        ExhaustedIsGivenUp();
      }
    }

    /** An attempt is under way; if the second walk waits, its delay was not over at a reading of the clock. */
    ghost predicate GoesOn(ticks: nat)
      reads this, baller0, baller1, clock
    {
      (Active(baller0) || Active(baller1)) && (Fresh(baller1) ==> clock.time(ticks) - started < limits.delay)
    }

    /** The code of a failure is that of the last attempt of the first walk, or that of a timeout. */
    ghost predicate IsCode(result: Code)
      reads this, baller0
    {
      result == TimedOut || result == if baller0 == null then CouldntConnect else baller0.result
    }

    /** Going on means that an attempt is under way, and that it was too early for a second walk that waits; failure
      * means that all walks are exhausted, or that the clock has shown a time past one of the limits.
      */
    ghost predicate Justified(result: Code, ticks: nat)
      reads baller0, baller1, clock, this, filters
    {
      if result == Ok then GoesOn(ticks)
      else
        || (Exhausted(baller0) && Exhausted(baller1) && AllGivenUp() && IsCode(result))
        || (result == TimedOut && SawLate(ticks))
    }

    method IsConnected() returns (result: Code, connected: bool)
      requires Valid() && winner == null && baller0 != null
      modifies this`baller0, this`baller1, this`winner, baller0, baller1, filters, clock
      ensures Valid() && (winner != null <==> connected) && Later(old(filters.attempts), old(clock.ticks))
      ensures connected ==> result == Ok && IsUp(winner)
      ensures connected ==> winner == old(baller0) || winner == old(baller1)
      ensures (baller0 == null || baller0 == old(baller0)) && (baller1 == null || baller1 == old(baller1))
      ensures !connected ==> baller0 == old(baller0) && baller1 == old(baller1)
      ensures !connected ==> Justified(result, old(clock.ticks)) && Watched(old(filters.seen), old(AllUnderWay()))
    {
      var again := true;
      result := Ok;
      ghost var looked := false;
      while again
        invariant if again then Looking() else winner == null ==> Valid() && Justified(result, old(clock.ticks))
        invariant winner != null ==> !again && Valid() && result == Ok && IsUp(winner)
        invariant winner != null ==> winner == old(baller0) || winner == old(baller1)
        invariant (baller0 == null || baller0 == old(baller0)) && (baller1 == null || baller1 == old(baller1))
        invariant winner == null ==> baller0 == old(baller0) && baller1 == old(baller1)
        invariant Later(old(filters.attempts), old(clock.ticks)) && (looked || again)
        invariant winner == null ==>
          if looked then Watched(old(filters.seen), old(AllUnderWay()))
          else AllUnderWay() == old(AllUnderWay()) && filters.seen == old(filters.seen)
        decreases if again then Unstarted() + 1 else 0
      {
        result, again := LookOnce();
        looked := true;
      }
      connected := winner != null;
    }

    /** The walks are being looked after, and none has won. */
    ghost predicate Looking()
      reads this, baller0, baller1, winner, filters, clock
    {
      Valid() && winner == null && baller0 != null
    }

    /** One round of `IsConnected`. */
    method LookOnce() returns (result: Code, again: bool)
      requires Looking()
      modifies this`baller0, this`baller1, this`winner, baller0, baller1, filters, clock
      ensures Valid() && Later(old(filters.attempts), old(clock.ticks))
      ensures winner != null ==> !again && result == Ok && IsUp(winner)
      ensures winner != null ==> winner == old(baller0) || winner == old(baller1)
      ensures (baller0 == null || baller0 == old(baller0)) && (baller1 == null || baller1 == old(baller1))
      ensures winner == null ==> baller0 == old(baller0) && baller1 == old(baller1)
      ensures again ==> Unstarted() < old(Unstarted())
      ensures winner == null ==> filters.seen == old(HeardAll())
      ensures winner == null && !again ==> Justified(result, old(clock.ticks))
    {
      ghost var tick := clock.ticks;
      var now := clock.Now();
      assert startedAt <= tick && clock.time(startedAt) <= clock.time(tick);
      var ongoing, notStarted := Round(now, tick);
      if winner != null {
        return Ok, false;
      }
      result, again := Proceed(now, ongoing, notStarted, tick);
    }

    /** The code of the first walk that failed; a timeout of the operating system takes precedence. */
    method FailureCode() returns (result: Code)
      ensures result != Ok && (baller0 != null && baller0.hasStarted && baller0.result != Ok ==> IsCode(result))
    {
      var osTimeout: bool := *;
      result := CouldntConnect;
      if baller0 != null && baller0.hasStarted && baller0.result != Ok {
        result := baller0.result;
      } else if baller1 != null && baller1.hasStarted && baller1.result != Ok {
        result := baller1.result;
      }
      if osTimeout {
        result := TimedOut;
      }
    }

    /** Frees a walk and discards its filter. */
    method Free(b: Baller?)
      requires filters.Valid() && Held(b) <= filters.live
      modifies b, filters`live
      ensures filters.Valid() && filters.live == old(filters.live) - old(Held(b))
    {
      if b != null {
        b.Close(filters);
      }
    }

    /** Frees all walks; only the installed filter lives on. */
    method Clear()
      requires Accounted() && (baller0 != null ==> baller0 != baller1 && baller0 != winner)
      requires baller1 != null ==> baller1 != winner
      modifies this`baller0, this`baller1, this`winner, baller0, baller1, winner, filters`live
      ensures filters.Valid() && filters.live == Ids(next) && baller0 == null && baller1 == null && winner == null
    {
      ghost var a, b, w := Held(baller0), Held(baller1), Held(winner);
      Free(baller0);
      assert Held(baller1) == b && Held(winner) == w;
      Free(baller1);
      assert Held(winner) == w;
      Free(winner);
      baller0, baller1, winner := null, null, null;
    }

    /** There is a walk for each family that has addresses. */
    ghost predicate Covers(family: int)
      reads this, baller0, baller1
    {
      || Matching(list, family) == []
      || (baller0 != null && baller0.family == family)
      || (baller1 != null && baller1.family == family)
    }

    ghost predicate Phase()
      reads this, baller0, baller1, filters
    {
      && winner == null
      && (state != Waiting ==> baller0 == null && baller1 == null)
      && (state == Waiting ==>
        baller0 != null && Covers(Families(list, version).0) && Covers(Families(list, version).1))
      && (state == Done <==> next.Some?) && Ids(next) <= filters.seen.up
    }

    /** Sets up one walk for each family that has addresses, the second one with a delayed start. */
    method StartConnect() returns (result: Code)
      requires Valid() && Phase() && state == Init
      modifies this`baller0, this`baller1, this`started, this`startedAt, this`mark, this`base, clock
      ensures Valid() && winner == null && (result != Ok ==> baller0 == null && baller1 == null)
      ensures mark == |filters.attempts| && base == filters.next && clock.ticks >= old(clock.ticks)
      ensures result == Ok ==> baller0 != null && fresh(baller0) && (baller1 != null ==> fresh(baller1))
      ensures result == Ok ==> Covers(Families(list, version).0) && Covers(Families(list, version).1)
      ensures result != Ok ==>
        || (Matching(list, Families(list, version).0) == [] == Matching(list, Families(list, version).1)
            && result == CouldntConnect)
        || (result == TimedOut && SawLate(old(clock.ticks)))
    {
      mark, base := |filters.attempts|, filters.next;
      var now := clock.Now();
      var timeLeft := limits.TimeLeft(now);
      if timeLeft < 0 {
        OverMeansNoTimeLeft(limits, now);
        assert limits.IsOver(clock.time(old(clock.ticks)));
        return TimedOut;
      }
      result := SetUpWalks(timeLeft);
    }

    /** Finds the first addresses of the two families, and sets up the walks. */
    method SetUpWalks(timeLeft: int) returns (result: Code)
      requires Valid() && Phase() && state == Init && mark == |filters.attempts| && base == filters.next
      modifies this`baller0, this`baller1, this`started, this`startedAt, clock
      ensures Valid() && winner == null && (result != Ok ==> baller0 == null && baller1 == null)
      ensures clock.ticks == old(clock.ticks) + 1
      ensures result == Ok ==> baller0 != null && fresh(baller0) && (baller1 != null ==> fresh(baller1))
      ensures result == Ok ==> Covers(Families(list, version).0) && Covers(Families(list, version).1)
      ensures result != Ok ==>
        && result == CouldntConnect
        && Matching(list, Families(list, version).0) == [] == Matching(list, Families(list, version).1)
    {
      startedAt := clock.ticks;
      started := clock.Now();
      var (family0, family1) := Families(list, version);
      var addr0 := AddrFirstMatch(list, family0);
      var addr1 := AddrFirstMatch(list, family1);
      if addr0 == [] && addr1 != [] {
        addr0, family0, addr1 := addr1, family1, [];
      }
      if addr0 == [] {
        return CouldntConnect;
      }
      SetUp(addr0, family0, addr1, family1, timeLeft);
      return Ok;
    }

    /** The walks for the families whose first addresses are given. */
    method SetUp(addr0: seq<Address>, family0: int, addr1: seq<Address>, family1: int, timeLeft: int)
      requires addr0 != [] && addr0[0].family == family0 && Matching(addr0, family0) == Matching(list, family0)
      requires addr1 != [] ==>
        addr1[0].family == family1 && Matching(addr1, family1) == Matching(list, family1) && family0 != family1
      requires Valid() && Phase() && state == Init && mark == |filters.attempts| && base == filters.next
      requires startedAt < clock.ticks && started == clock.time(startedAt)
      modifies this`baller0, this`baller1
      ensures Valid() && baller0 != null && fresh(baller0) && baller0.family == family0
      ensures if addr1 == [] then baller1 == null else baller1 != null && fresh(baller1) && baller1.family == family1
    {
      baller0 := new Baller(addr0, family0, null, 0, timeLeft);
      if addr1 != [] {
        baller1 := new Baller(addr1, family1, baller0, limits.delay, timeLeft);
      }
    }

    /** All addresses of a family have been attempted since the walks were set up; at least one for other sockets. */
    ghost predicate Attempted(family: int)
      reads this, filters
    {
      && mark <= |filters.attempts|
      && var made, wanted := Matching(filters.attempts[mark..], family), Matching(list, family);
      if first then made == wanted || wanted == [] else made != [] || wanted == []
    }

    lemma ExhaustedIsAttempted(family: int)
      requires Valid() && mark <= |filters.attempts| && Covers(family) && Exhausted(baller0) && Exhausted(baller1)
      ensures Attempted(family)
    {
    }

    /** Every address of both families has been attempted and given up, or the clock has shown a time past a limit. */
    ghost predicate GivenUp(result: Code, ticks: nat)
      reads this, baller0, filters, clock
    {
      var (family0, family1) := Families(list, version);
      || (Attempted(family0) && Attempted(family1) && AllGivenUp() && IsCode(result))
      || (result == TimedOut && SawLate(ticks))
    }

    lemma JustifiedIsGivenUp(result: Code, ticks: nat)
      requires Valid() && Phase() && state == Waiting && result != Ok && Justified(result, ticks)
      ensures GivenUp(result, ticks)
    {
      if Exhausted(baller0) && Exhausted(baller1) {
        ExhaustedIsAttempted(Families(list, version).0);
        ExhaustedIsAttempted(Families(list, version).1);
      }
    }

    /**
     * Never gives up early: for the first socket, failure comes only after every address of both families has been
     * attempted in order, for other sockets after one of each family, unless the clock has shown a time past one of
     * the limits. On success one filter that has been seen up is installed and all others have been discarded; without
     * it every attempt under way has been asked, and none has been seen up.
     */
    method Connect() returns (result: Code, done: bool)
      requires Valid() && Phase()
      modifies this, baller0, baller1, filters, clock
      ensures Valid() && Phase() && Later(old(filters.attempts), old(clock.ticks))
      ensures mark == if old(state) == Init then |old(filters.attempts)| else old(mark)
      ensures base == if old(state) == Init then old(filters.next) else old(base)
      ensures done <==> state == Done
      ensures done ==> result == Ok && next.Some? && filters.live == {next.value} && next.value in filters.seen.up
      ensures result == Ok && !done ==> GoesOn(old(clock.ticks))
      ensures !done ==> Watched(old(filters.seen), old(AllUnderWay()))
      ensures result != Ok ==> GivenUp(result, old(clock.ticks))
    {
      if state == Done {
        return Ok, true;
      }
      done := false;
      if state == Init {
        result := StartConnect();
        if result != Ok {
          return;
        }
        state := Waiting;
      }
      result, done := Wait();
    }

    /** What has failed has been attempted; what has connected is installed. */
    method Wait() returns (result: Code, done: bool)
      requires Valid() && Phase() && state == Waiting
      modifies this`state, this`next, this`baller0, this`baller1, this`winner, baller0, baller1, filters, clock
      ensures Valid() && Phase() && Later(old(filters.attempts), old(clock.ticks)) && state != Init
      ensures done <==> state == Done
      ensures done ==> result == Ok && next.Some? && filters.live == {next.value} && next.value in filters.seen.up
      ensures result == Ok && !done ==> GoesOn(old(clock.ticks))
      ensures !done ==> Watched(old(filters.seen), old(AllUnderWay()))
      ensures result != Ok ==> GivenUp(result, old(clock.ticks))
    {
      result, done := IsConnected();
      if done {
        Install();
      } else if result != Ok {
        JustifiedIsGivenUp(result, old(clock.ticks));
      }
    }

    /** The filter of the winner is installed, and all others are discarded. */
    method Install()
      requires Valid() && winner != null && IsUp(winner) && next == None
      modifies this`state, this`next, this`baller0, this`baller1, this`winner, baller0, baller1, winner, filters`live
      ensures Valid() && Phase() && state == Done && filters.live == Ids(next)
    {
      state := Done;
      next := winner.cf;
      winner.cf := None;
      Clear();
    }

    /** Closing discards every filter, the installed one too, and everything can start again. */
    method Close()
      requires Valid() && Phase()
      modifies this`state, this`next, this`baller0, this`baller1, this`winner, baller0, baller1, filters`live
      ensures Valid() && Phase() && state == Init && filters.live == {}
    {
      Clear();
      state := Init;
      if next.Some? {
        filters.Discard(next);
        next := None;
      }
    }
  }
}
