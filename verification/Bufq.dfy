/** Queues of byte chunks (`bufq.c`): chunks linked in a head list and a spare list, an optional pool that several
  * queues may share, and a hard or soft limit on the number of chunks.
  */
module Bufq {
  import opened Basics

  /** What is in a chunk: `id` stands for its address, `data` is its buffer of fixed length. */
  datatype Chunk = Chunk(id: nat, data: seq<byte>, r: nat, w: nat) {
    /** Offsets are in order; a chunk without unread bytes has both offsets at 0. */
    predicate Ok(size: nat) {
      (r < w || r == w == 0) && w <= |data| == size
    }

    function View(): seq<byte>
      requires r <= w <= |data|
    {
      data[r..w]
    }

    predicate IsEmpty() {
      r >= w
    }

    predicate IsFull() {
      w >= |data|
    }

    function Reset(): Chunk {
      this.(r := 0, w := 0)
    }

    /** Copies as many bytes as fit behind the last written byte. */
    function Append(buf: seq<byte>): (c: Chunk)
      requires Ok(|data|)
      ensures c.Ok(|data|) && c.id == id && c.w == w + Min(|data| - w, |buf|)
      ensures c.View() == View() + buf[..c.w - w]
    {
      var n := Min(|data| - w, |buf|);
      var data' := data[..w] + buf[..n] + data[w + n..];
      assert data'[r..w + n] == data[r..w] + buf[..n];
      this.(data := data', w := w + n)
    }

    /** Drops unread bytes; a chunk that is read empty starts over at offset 0. */
    function Drop(n: nat): (c: Chunk)
      requires Ok(|data|) && n <= w - r
      ensures c.Ok(|data|) && c.id == id && c.View() == View()[n..]
      ensures n < w - r ==> c.w == w
      ensures n == w - r ==> c.IsEmpty()
    {
      if r + n == w then this.(r := 0, w := 0) else this.(r := r + n)
    }
  }

  datatype Code = CurlOk | CurlAgain | CurlError(code: nat)

  predicate AllOk(cs: seq<Chunk>, size: nat) {
    forall i :: 0 <= i < |cs| ==> cs[i].Ok(size)
  }

  /** Every chunk but the last is written to its end, so that only the last one has room or may be empty; every chunk
    * but the first is unread.
    */
  predicate Filled(cs: seq<Chunk>) {
    && (forall i :: 0 <= i < |cs| - 1 ==> cs[i].IsFull())
    && (forall i :: 0 < i < |cs| ==> cs[i].r == 0)
  }

  predicate FirstIsEmpty(cs: seq<Chunk>) {
    cs != [] && cs[0].IsEmpty()
  }

  /** The first chunk may also have been read empty before the others. */
  predicate LooseFirst(cs: seq<Chunk>) {
    cs != [] ==> Filled(cs[1..]) && (cs[0].IsEmpty() || Filled(cs))
  }

  function Last(cs: seq<Chunk>): Chunk
    requires cs != []
  {
    cs[|cs| - 1]
  }

  /** The unread bytes of a list of chunks. */
  function Content(cs: seq<Chunk>, size: nat): seq<byte>
    requires AllOk(cs, size)
  {
    if cs == [] then [] else cs[0].View() + Content(cs[1..], size)
  }

  lemma {:induction false} ContentConcat(a: seq<Chunk>, b: seq<Chunk>, size: nat)
    requires AllOk(a, size) && AllOk(b, size)
    ensures AllOk(a + b, size)
    ensures Content(a + b, size) == Content(a, size) + Content(b, size)
  {
    if a == [] {
      assert a + b == b;
    } else {
      assert (a + b)[1..] == a[1..] + b;
      ContentConcat(a[1..], b, size);
    }
  }

  lemma ContentLast(cs: seq<Chunk>, size: nat)
    requires AllOk(cs, size) && cs != []
    ensures Content(cs, size) == Content(cs[..|cs| - 1], size) + cs[|cs| - 1].View()
  {
    var init, last := cs[..|cs| - 1], cs[|cs| - 1];
    assert cs == init + [last];
    ContentConcat(init, [last], size);
    assert Content([last], size) == last.View() + [];
  }

  /** Replacing the last chunk changes the content only at its end. */
  lemma ContentUpdateLast(cs: seq<Chunk>, c: Chunk, size: nat, more: seq<byte>)
    requires AllOk(cs, size) && cs != [] && c.Ok(size)
    requires c.View() == cs[|cs| - 1].View() + more
    ensures AllOk(cs[|cs| - 1 := c], size)
    ensures Content(cs[|cs| - 1 := c], size) == Content(cs, size) + more
  {
    var cs' := cs[|cs| - 1 := c];
    ContentLast(cs, size);
    ContentLast(cs', size);
    assert cs'[..|cs| - 1] == cs[..|cs| - 1];
  }

  lemma CountUpdateFirst(cs: seq<Chunk>, c: Chunk, x: nat)
    requires cs != [] && c.id == cs[0].id
    ensures Count(cs[0 := c], x) == Count(cs, x)
  {
    assert cs[0 := c][1..] == cs[1..];
  }

  /** Dropping bytes of the first chunk drops them from the content. */
  lemma ContentDropFirst(cs: seq<Chunk>, n: nat, size: nat)
    requires AllOk(cs, size) && cs != [] && n <= cs[0].w - cs[0].r
    ensures AllOk(cs[0 := cs[0].Drop(n)], size) && n <= |Content(cs, size)|
    ensures Content(cs[0 := cs[0].Drop(n)], size) == Content(cs, size)[n..]
    ensures cs[0].View()[..n] == Content(cs, size)[..n]
  {
    var view, rest := cs[0].View(), Content(cs[1..], size);
    assert cs[0 := cs[0].Drop(n)][1..] == cs[1..];
    assert view[n..] + rest == (view + rest)[n..];
    assert view[..n] == (view + rest)[..n];
  }

  lemma {:induction false} ContentNonEmpty(cs: seq<Chunk>, size: nat)
    requires AllOk(cs, size) && Filled(cs) && size > 0
    ensures Content(cs, size) == [] <==> cs == [] || cs[0].IsEmpty()
  {
    if |cs| == 1 {
      assert Content(cs[1..], size) == [];
    }
  }

  /** The content from one chunk on. */
  lemma FromNode(cs: seq<Chunk>, k: nat, size: nat)
    requires AllOk(cs, size) && Filled(cs) && size > 0 && k < |cs|
    ensures Content(cs[k..], size) == cs[k].View() + Content(cs[k + 1..], size)
    ensures cs[k].IsEmpty() ==> Content(cs[k..], size) == []
  {
    assert cs[k..][1..] == cs[k + 1..];
    ContentNonEmpty(cs[k..], size);
  }

  /** How many chunks of a list have the given address. */
  function Count(cs: seq<Chunk>, x: nat): nat {
    if cs == [] then 0 else (if cs[0].id == x then 1 else 0) + Count(cs[1..], x)
  }

  lemma {:induction false} CountConcat(a: seq<Chunk>, b: seq<Chunk>, x: nat)
    ensures Count(a + b, x) == Count(a, x) + Count(b, x)
  {
    if a == [] {
      assert a + b == b;
    } else {
      assert (a + b)[1..] == a[1..] + b;
      CountConcat(a[1..], b, x);
    }
  }

  lemma CountUpdateLast(cs: seq<Chunk>, c: Chunk, x: nat)
    requires cs != [] && c.id == cs[|cs| - 1].id
    ensures Count(cs[|cs| - 1 := c], x) == Count(cs, x)
  {
    var init := cs[..|cs| - 1];
    assert cs == init + [cs[|cs| - 1]] && cs[|cs| - 1 := c] == init + [c];
    CountConcat(init, [cs[|cs| - 1]], x);
    CountConcat(init, [c], x);
  }

  /** Appending an empty chunk to a list without room. */
  lemma Extended(cs: seq<Chunk>, c: Chunk, size: nat, x: nat)
    requires AllOk(cs, size) && Filled(cs) && c.Ok(size) && c.r == 0 && c.w == 0
    requires cs != [] ==> cs[|cs| - 1].IsFull()
    ensures AllOk(cs + [c], size) && Filled(cs + [c])
    ensures Content(cs + [c], size) == Content(cs, size)
    ensures Count(cs + [c], x) == Count(cs, x) + Count([c], x)
    ensures TailRoom(cs + [c], size) == size
  {
    CountConcat(cs, [c], x);
    ContentConcat(cs, [c], size);
    assert Content([c], size) == [];
  }

  /** The list with as much of `buf` as fits in its last chunk. */
  function Grown(cs: seq<Chunk>, buf: seq<byte>): seq<Chunk>
    requires cs != [] && Last(cs).Ok(|Last(cs).data|)
  {
    cs[|cs| - 1 := Last(cs).Append(buf)]
  }

  /** Appending bytes to the last chunk. */
  lemma AppendedToLast(cs: seq<Chunk>, buf: seq<byte>, size: nat, x: nat)
    requires AllOk(cs, size) && Filled(cs) && cs != []
    ensures var cs', n := Grown(cs, buf), Min(size - Last(cs).w, |buf|);
      && AllOk(cs', size) && Filled(cs') && Count(cs', x) == Count(cs, x)
      && Content(cs', size) == Content(cs, size) + buf[..n] && TailRoom(cs', size) == TailRoom(cs, size) - n
  {
    var c := Last(cs).Append(buf);
    ContentUpdateLast(cs, c, size, buf[..c.w - Last(cs).w]);
    CountUpdateLast(cs, c, x);
  }

  /** Dropping bytes of the first chunk. */
  lemma DroppedFromFirst(cs: seq<Chunk>, n: nat, size: nat, x: nat)
    requires AllOk(cs, size) && Filled(cs) && cs != [] && n <= cs[0].w - cs[0].r
    ensures var cs' := cs[0 := cs[0].Drop(n)];
      && AllOk(cs', size) && LooseFirst(cs') && Count(cs', x) == Count(cs, x)
      && n <= |Content(cs, size)| && Content(cs', size) == Content(cs, size)[n..]
  {
    ContentDropFirst(cs, n, size);
    CountUpdateFirst(cs, cs[0].Drop(n), x);
  }

  lemma Behind(front: seq<byte>, view: seq<byte>, bytes: seq<byte>, off: nat)
    requires off < |view| && front + view <= bytes
    ensures |front| + off < |bytes| && view[off..] <= bytes[|front| + off..]
  {
    assert forall i :: 0 <= i < |view| - off ==> view[off..][i] == (front + view)[|front| + off + i];
  }

  /** How many unread bytes the chunks have that have any. */
  function Sizes(cs: seq<Chunk>): seq<nat> {
    if cs == [] then []
    else (if cs[0].w > cs[0].r then [cs[0].w - cs[0].r] else []) + Sizes(cs[1..])
  }

  /** The sizes after so many bytes have been dropped from the front. */
  function Dropped(sizes: seq<nat>, n: nat): seq<nat> {
    if n == 0 || sizes == [] then sizes
    else if n < sizes[0] then [sizes[0] - n] + sizes[1..]
    else Dropped(sizes[1..], n - sizes[0])
  }

  predicate AllPositive(sizes: seq<nat>) {
    forall i :: 0 <= i < |sizes| ==> sizes[i] > 0
  }

  function Sum(sizes: seq<nat>): nat {
    if sizes == [] then 0 else sizes[0] + Sum(sizes[1..])
  }

  lemma {:induction false} SizesSum(cs: seq<Chunk>, size: nat)
    requires AllOk(cs, size)
    ensures Sum(Sizes(cs)) == |Content(cs, size)| && AllPositive(Sizes(cs))
  {
    if cs != [] {
      SizesSum(cs[1..], size);
      var rest := Sizes(cs[1..]);
      assert ([cs[0].w - cs[0].r] + rest)[1..] == rest && [] + rest == rest;
    }
  }

  lemma {:induction false} DroppedTwice(sizes: seq<nat>, m: nat, n: nat)
    requires AllPositive(sizes)
    ensures Dropped(Dropped(sizes, m), n) == Dropped(sizes, m + n)
  {
    if m > 0 && sizes != [] {
      if m < sizes[0] {
        assert ([sizes[0] - m] + sizes[1..])[1..] == sizes[1..];
      } else {
        DroppedTwice(sizes[1..], m - sizes[0], n);
      }
    }
  }

  /** Some empty chunks have been removed from the front. */
  predicate Pruned(cs': seq<Chunk>, cs: seq<Chunk>) {
    && |cs'| <= |cs| && cs' == cs[|cs| - |cs'|..]
    && forall i :: 0 <= i < |cs| - |cs'| ==> cs[i].IsEmpty()
  }

  lemma NotPruned(cs: seq<Chunk>)
    ensures Pruned(cs, cs)
  {
  }

  lemma PrunedStep(cs'': seq<Chunk>, cs': seq<Chunk>, cs: seq<Chunk>)
    requires Pruned(cs', cs) && FirstIsEmpty(cs') && cs'' == cs'[1..]
    ensures Pruned(cs'', cs)
  {
    assert cs'[0] == cs[|cs| - |cs'|];
  }

  lemma {:induction false} SizesPruned(cs': seq<Chunk>, cs: seq<Chunk>)
    requires Pruned(cs', cs)
    ensures Sizes(cs') == Sizes(cs)
  {
    if |cs'| < |cs| {
      SizesPruned(cs', cs[1..]);
    }
  }

  /** Dropping bytes of the first chunk. */
  lemma SizesDrop(cs: seq<Chunk>, n: nat, size: nat)
    requires AllOk(cs, size) && cs != [] && n <= cs[0].w - cs[0].r
    ensures Sizes(cs[0 := cs[0].Drop(n)]) == Dropped(Sizes(cs), n)
  {
    var rest := Sizes(cs[1..]);
    assert cs[0 := cs[0].Drop(n)][1..] == cs[1..];
    assert ([cs[0].w - cs[0].r] + rest)[1..] == rest;
  }

  lemma Rejoin(taken: seq<byte>, rest: seq<byte>, n: nat)
    requires n <= |rest|
    ensures taken + rest[..n] + rest[n..] == taken + rest
  {
  }

  /** Bytes taken from the front of the rest, where only a first part of the rest was shown. */
  lemma Passed(taken: seq<byte>, rest: seq<byte>, shown: seq<byte>, n: nat)
    requires shown <= rest && n <= |shown|
    ensures taken + shown[..n] + rest[n..] == taken + rest
  {
  }

  lemma UpTo<T>(s: seq<T>, k: nat)
    requires k < |s|
    ensures s[..k] + [s[k]] == s[..k + 1]
  {
  }

  lemma NothingMore<T>(s: seq<T>)
    ensures s + [] == s
  {
  }

  lemma Whole<T>(s: seq<T>)
    ensures s[..|s|] == s && s[0..] == s
  {
  }

  lemma Rejoined(front: seq<byte>, buf: seq<byte>, pos: nat, k: nat)
    requires pos + k <= |buf|
    ensures front + buf[..pos] + buf[pos..][..k] == front + buf[..pos + k]
  {
    assert buf[..pos] + buf[pos..][..k] == buf[..pos + k];
  }

  /** The bytes that `n` chunks can hold. */
  function Capacity(n: nat, size: nat): nat {
    if n == 0 then 0 else size + Capacity(n - 1, size)
  }

  lemma {:induction false} CapacityIsProduct(n: nat, size: nat)
    ensures Capacity(n, size) == n * size
  {
    if n > 0 {
      CapacityIsProduct(n - 1, size);
      assert n * size == (n - 1) * size + size;
    }
  }

  /** The room that is left in the last chunk. */
  function TailRoom(cs: seq<Chunk>, size: nat): nat
    requires AllOk(cs, size)
  {
    if cs == [] then 0 else size - cs[|cs| - 1].w
  }

  // ---------------------------------------------------------------------------------------------------------
  // Linked chunks
  // ---------------------------------------------------------------------------------------------------------

  /** A chunk in memory; `pos` is its position in the list it is in. */
  class Node {
    const id: nat
    var next: Node?
    var data: seq<byte>
    var r: nat
    var w: nat
    ghost var pos: int

    constructor (id: nat, size: nat)
      ensures this.id == id && Blank(size)
    {
      this.id, next, data, r, w := id, null, seq(size, _ => 0), 0, 0;
    }

    function View(): Chunk
      reads this
    {
      Chunk(id, data, r, w)
    }

    /** An empty chunk without a successor. */
    ghost predicate Blank(size: nat)
      reads this
    {
      next == null && |data| == size && r == w == 0
    }

    /** `chunk_reset` */
    method Reset()
      modifies this`next, this`r, this`w
      ensures next == null && View() == old(View().Reset())
    {
      next := null;
      r, w := 0, 0;
    }

    /** `chunk_append` */
    method Append(buf: seq<byte>) returns (n: nat)
      requires View().Ok(|data|)
      modifies this`data, this`w
      ensures View() == old(View().Append(buf)) && n == w - old(w)
    {
      n := |data| - w;
      if n > 0 {
        n := Min(n, |buf|);
        data := data[..w] + buf[..n] + data[w + n..];
        w := w + n;
      } else {
        assert data[..w] + buf[..0] + data[w..] == data;
      }
    }

    /** `chunk_peek_at` */
    method PeekAt(offset: nat) returns (buf: seq<byte>)
      requires View().Ok(|data|) && offset < w - r
      ensures buf == View().View()[offset..] && buf != []
    {
      buf := data[r + offset..w];
    }

    /** `chunk_skip`, and what `chunk_read` does to the chunk */
    method Skip(amount: nat) returns (n: nat)
      requires View().Ok(|data|)
      modifies this`r, this`w
      ensures n == Min(old(w - r), amount) && View() == old(View().Drop(n))
    {
      n := Min(w - r, amount);
      r := r + n;
      if r == w {
        r, w := 0, 0;
      }
    }
  }

  /** The content of an optional chunk, as a list. */
  function Seen(c: Node?): seq<Chunk>
    reads c
  {
    if c == null then [] else [c.View()]
  }

  /** The nodes of a linked list in order, what they contain, and the position of the first one. */
  datatype List = List(nodes: set<Node>, spine: seq<Node>, chunks: seq<Chunk>, base: int) {
    /** The nodes are linked in order from the first one up to null, and contain what they should. */
    ghost predicate Linked(first: Node?)
      reads nodes
    {
      && |spine| == |chunks| && (spine == [] ==> first == null)
      && (forall i {:trigger spine[i]} :: 0 <= i < |spine| ==>
            spine[i] in nodes && spine[i].pos == base + i && spine[i].View() == chunks[i]
            && (i == 0 ==> first == spine[i]))
      && (forall i {:trigger spine[i].next} :: 0 <= i < |spine| ==> spine[i].next == At(i + 1))
    }

    ghost function At(i: nat): Node? {
      if i < |spine| then spine[i] else null
    }

    ghost predicate Ends(last: Node?) {
      (spine == [] ==> last == null) && forall i :: 0 <= i == |spine| - 1 ==> last == spine[i]
    }

    ghost function Rest(): List
      requires spine != [] && chunks != []
    {
      List(nodes - {spine[0]}, spine[1..], chunks[1..], base + 1)
    }

    ghost function Push(c: Node): List
      reads c
    {
      List(nodes + {c}, [c] + spine, [c.View()] + chunks, base - 1)
    }

    ghost function Append(c: Node): List
      reads c
    {
      List(nodes + {c}, spine + [c], chunks + [c.View()], base)
    }
  }

  const EMPTY := List({}, [], [], 0)

  /** Without its first node a list is a list, and the first node is not in it. */
  lemma Popped(first: Node, list: List)
    requires list.Linked(first)
    ensures list.spine != [] && first == list.spine[0] && first in list.nodes && first.View() == list.chunks[0]
    ensures list.Rest().Linked(first.next) && first !in list.Rest().nodes
  {
    var rest := list.Rest();
    assert list.spine[0].next == list.At(1);
    forall i {:trigger rest.spine[i].next} | 0 <= i < |rest.spine|
      ensures rest.spine[i].next == rest.At(i + 1)
    {
      assert rest.spine[i] == list.spine[i + 1];
    }
  }

  lemma FirstIsThere(first: Node?, list: List)
    requires list.Linked(first) && list.spine != []
    ensures first != null
  {
    assert list.spine[0] in list.nodes;
  }

  /** A node that leads to the first one makes a longer list. */
  lemma Pushed(c: Node, first: Node?, list: List)
    requires list.Linked(first) && c.next == first && c.pos == list.base - 1
    ensures list.Push(c).Linked(c)
  {
    var more := list.Push(c);
    forall i {:trigger more.spine[i].next} | 0 <= i < |more.spine|
      ensures more.spine[i].next == more.At(i + 1)
    {
      if i > 0 {
        assert more.spine[i] == list.spine[i - 1];
      }
    }
  }

  lemma Single(c: Node, list: List)
    requires list.Linked(null) && c.next == null && c.pos == list.base
    ensures list.Append(c).Linked(c) && list.Append(c).Ends(c)
  {
    if list.spine != [] {
      FirstIsThere(null, list);
    }
  }

  /** Links a node behind the last one of a list. */
  method LinkBehind(last: Node, c: Node, ghost first: Node?, ghost list: List) returns (ghost more: List)
    requires list.Linked(first) && list.spine != [] && list.Ends(last)
    requires c !in list.nodes && c.next == null && c.pos == list.base + |list.spine|
    modifies last`next
    ensures more == list.Append(c) && more.Linked(first) && more.Ends(c) && c.View() == old(c.View())
  {
    assert last == list.spine[|list.spine| - 1];
    last.next := c;
    more := list.Append(c);
    forall i {:trigger more.spine[i].next} | 0 <= i < |more.spine|
      ensures more.spine[i].next == more.At(i + 1)
    {
      if i < |list.spine| {
        assert more.spine[i] == list.spine[i];
      }
    }
  }

  /** `chunk_append` on a node of a list. */
  method AppendTo(c: Node, buf: seq<byte>, ghost first: Node?, ghost list: List, ghost k: nat)
    returns (n: nat, ghost more: List)
    requires list.Linked(first) && k < |list.spine| && c == list.spine[k] && c.View().Ok(|c.data|)
    modifies c
    ensures more == list.(chunks := list.chunks[k := list.chunks[k].Append(buf)]) && more.Linked(first)
    ensures n == list.chunks[k].Append(buf).w - list.chunks[k].w
  {
    assert c.pos == list.base + k && c.View() == list.chunks[k];
    n := c.Append(buf);
    more := list.(chunks := list.chunks[k := c.View()]);
  }

  /** `chunk_skip` on a node of a list. */
  method SkipIn(c: Node, amount: nat, ghost first: Node?, ghost list: List, ghost k: nat)
    returns (n: nat, ghost more: List)
    requires list.Linked(first) && k < |list.spine| && c == list.spine[k] && c.View().Ok(|c.data|)
    modifies c
    ensures n == Min(list.chunks[k].w - list.chunks[k].r, amount)
    ensures more == list.(chunks := list.chunks[k := list.chunks[k].Drop(n)]) && more.Linked(first)
  {
    assert c.pos == list.base + k && c.View() == list.chunks[k];
    n := c.Skip(amount);
    more := list.(chunks := list.chunks[k := c.View()]);
  }

  // ---------------------------------------------------------------------------------------------------------
  // Memory
  // ---------------------------------------------------------------------------------------------------------

  /** The allocator, seen from one arbitrary address `watch`: `live` counts the allocations of that address that
    * have not been freed. What is proved for an arbitrary address holds for every address.
    */
  class Memory {
    ghost const watch: nat
    ghost var live: nat
    var next: nat

    constructor (ghost watch: nat)
      ensures Valid() && live == 0 && this.watch == watch
    {
      this.watch := watch;
      live, next := 0, 0;
    }

    /** A live address has been handed out, and only once. */
    ghost predicate Valid()
      reads this
    {
      live <= 1 && (live == 1 ==> watch < next)
    }

    method Calloc(size: nat) returns (c: Node)
      requires Valid()
      modifies this
      ensures Valid() && live == old(live) + Count([c.View()], watch)
      ensures fresh(c) && c.Blank(size)
    {
      c := new Node(next, size);
      if next == watch {
        live := live + 1;
      }
      next := next + 1;
    }

    /** Freeing a chunk that is not live would be a double free. */
    method Free(c: Node)
      requires Valid() && Count([c.View()], watch) <= live
      modifies this
      ensures Valid() && live == old(live) - Count([c.View()], watch)
    {
      if c.id == watch {
        live := live - 1;
      }
    }

    /** `chunk_list_free` */
    method FreeList(anchor: Node?, ghost list: List)
      requires Valid() && list.Linked(anchor) && Count(list.chunks, watch) <= live
      modifies this
      ensures Valid() && live == old(live) - Count(list.chunks, watch)
    {
      var first := anchor;
      ghost var k, cs := 0, list.chunks;
      while first != null
        invariant k <= |cs| && list.Linked(anchor) && first == list.At(k)
        invariant Valid() && live - Count(cs[k..], watch) == old(live) - Count(cs, watch)
        decreases |cs| - k
      {
        var chunk := first;
        assert chunk == list.spine[k] && chunk.View() == cs[k];
        assert cs[k..][1..] == cs[k + 1..];
        first := chunk.next;
        Free(chunk);
        k := k + 1;
      }
    }
  }

  /** What a writer may do when it is offered bytes. */
  datatype WriteReply = Accept(limit: nat) | WriteBlock | WriteFail(code: nat)

  /** The reply takes something. */
  predicate Willing(reply: WriteReply) {
    reply.Accept? && reply.limit > 0
  }

  /** The next reply takes something. */
  predicate Accepts(script: seq<WriteReply>) {
    script != [] && Willing(script[0])
  }

  /** What a writer with these replies answers to an offer; without a reply it blocks. */
  function Answer(script: seq<WriteReply>, len: nat): (int, Code) {
    if script == [] then (-1, CurlAgain)
    else
      match script[0]
      case Accept(limit) => var n: int := Min(limit, len); (n, CurlOk)
      case WriteBlock => (-1, CurlAgain)
      case WriteFail(code) => (-1, CurlError(code))
  }

  /** How passing to a writer goes on until it stops: the bytes moved, the replies used, and the reply that stopped it
    * if it was not that nothing was left. A writer without further replies blocks.
    */
  datatype Passage = Passage(moved: nat, used: nat, stop: Option<WriteReply>) {
    function Result(): int {
      if stop.None? then moved
      else if stop.value.WriteFail? || moved == 0 then -1
      else moved
    }

    function Error(): Code {
      if stop.None? then CurlOk
      else
        match stop.value
        case WriteFail(code) => CurlError(code)
        case WriteBlock => CurlAgain
        case Accept(_) => if moved == 0 then CurlAgain else CurlOk
    }
  }

  /** Each chunk is offered as a whole, and what is left of it again, until a reply does not take anything. */
  function PassTo(sizes: seq<nat>, replies: seq<WriteReply>): (p: Passage)
    ensures p.used <= |replies|
    decreases |replies|
  {
    if sizes == [] then Passage(0, 0, None)
    else if replies == [] then Passage(0, 0, Some(WriteBlock))
    else if !Willing(replies[0]) then Passage(0, 1, Some(replies[0]))
    else
      var k := Min(replies[0].limit, sizes[0]);
      var p := PassTo(Dropped(sizes, k), replies[1..]);
      Passage(k + p.moved, 1 + p.used, p.stop)
  }

  /** Only the last reply used did not take anything, or the replies were used up; otherwise nothing is left. */
  ghost predicate StoppedBy(replies: seq<WriteReply>, used: nat, stop: Option<WriteReply>) {
    && used <= |replies|
    && (forall i :: 0 <= i < used - 1 ==> Willing(replies[i]))
    && (used > 0 && stop.None? ==> Willing(replies[used - 1]))
    && (stop.Some? ==>
          || (used == |replies| && stop == Some(WriteBlock) && (used > 0 ==> Willing(replies[used - 1])))
          || (used > 0 && stop == Some(replies[used - 1]) && !Willing(replies[used - 1])))
  }

  lemma {:induction false} DroppedSum(sizes: seq<nat>, n: nat)
    requires AllPositive(sizes) && n <= Sum(sizes)
    ensures Sum(Dropped(sizes, n)) == Sum(sizes) - n && AllPositive(Dropped(sizes, n))
    ensures Sum(sizes) == 0 <==> sizes == []
  {
    if sizes != [] {
      if 0 < n < sizes[0] {
        assert ([sizes[0] - n] + sizes[1..])[1..] == sizes[1..];
      } else if n > 0 {
        DroppedSum(sizes[1..], n - sizes[0]);
      }
    }
  }

  /** Passing goes on while the writer takes something: it stops when nothing is left, or at the first reply that does
    * not take anything.
    */
  lemma {:induction false} PassGoesOn(sizes: seq<nat>, replies: seq<WriteReply>)
    requires AllPositive(sizes)
    ensures var p := PassTo(sizes, replies);
      && StoppedBy(replies, p.used, p.stop) && p.moved <= Sum(sizes) && (p.stop.None? <==> p.moved == Sum(sizes))
      && p.used <= p.moved + 1 && (p.used > 0 && Willing(replies[p.used - 1]) ==> p.used <= p.moved)
    decreases |replies|
  {
    DroppedSum(sizes, 0);
    if sizes != [] && replies != [] && Willing(replies[0]) {
      var k := Min(replies[0].limit, sizes[0]);
      DroppedSum(sizes, k);
      PassGoesOn(Dropped(sizes, k), replies[1..]);
    }
  }

  /** The replies that are left after some have been used. */
  predicate Rest<T(==)>(replies: seq<T>, used: nat, rest: seq<T>) {
    used <= |replies| && rest == replies[used..]
  }

  predicate Continued(whole: Passage, n: int, used: nat, rest: Passage) {
    whole.moved == n + rest.moved && whole.used == used + rest.used && whole.stop == rest.stop
  }

  /** One offer of the first chunk. */
  lemma PassStep(sizes: seq<nat>, replies: seq<WriteReply>)
    requires sizes != [] && sizes[0] > 0
    ensures var k, p := Answer(replies, sizes[0]).0, PassTo(sizes, replies);
      if k > 0 then
        var q := PassTo(Dropped(sizes, k), replies[1..]);
        replies != [] && p == Passage(k + q.moved, 1 + q.used, q.stop)
      else
        && p.moved == 0 && p.stop.Some? && p.used == (if replies == [] then 0 else 1)
        && (k < 0 <==> !p.stop.value.Accept?) && (k < 0 ==> p.Error() == Answer(replies, sizes[0]).1)
  {
  }

  /** A writer that takes something on every offer, and has a reply for every byte, gets everything. */
  lemma WillingGetsAll(sizes: seq<nat>, replies: seq<WriteReply>)
    requires AllPositive(sizes) && |replies| >= Sum(sizes)
    requires forall i :: 0 <= i < |replies| ==> Willing(replies[i])
    ensures PassTo(sizes, replies).stop == None && PassTo(sizes, replies).moved == Sum(sizes)
  {
    PassGoesOn(sizes, replies);
  }

  /** The replies after one of them has been used, if there is one. */
  function AfterReply<T>(script: seq<T>): seq<T> {
    if script == [] then [] else script[1..]
  }

  /** The replies that are left are the last ones. */
  predicate Left<T(==)>(replies: seq<T>, left: seq<T>) {
    |left| <= |replies| && left == replies[|replies| - |left|..]
  }

  predicate NoFailure(replies: seq<WriteReply>, left: seq<WriteReply>) {
    Left(replies, left) && forall i :: 0 <= i < |replies| - |left| ==> !replies[i].WriteFail?
  }

  /** The last reply used, and no other, is a failure with that error. */
  predicate FailsWith(replies: seq<WriteReply>, left: seq<WriteReply>, err: Code) {
    && Left(replies, left) && |left| < |replies|
    && var k := |replies| - |left| - 1;
    && replies[k].WriteFail? && err == CurlError(replies[k].code) && forall i :: 0 <= i < k ==> !replies[i].WriteFail?
  }

  /** The last reply used has not taken anything, or there are no further replies. */
  predicate WriterStops(replies: seq<WriteReply>, left: seq<WriteReply>) {
    Left(replies, left) && (left == [] || (|left| < |replies| && !Willing(replies[|replies| - |left| - 1])))
  }

  lemma WriterStarts(script: seq<WriteReply>)
    ensures NoFailure(script, script)
  {
  }

  lemma WriterGoesOn(a: seq<WriteReply>, b: seq<WriteReply>, c: seq<WriteReply>, err: Code)
    requires NoFailure(a, b) && Left(b, c)
    ensures Left(a, c) && (NoFailure(b, c) ==> NoFailure(a, c)) && (FailsWith(b, c, err) ==> FailsWith(a, c, err))
    ensures WriterStops(b, c) ==> WriterStops(a, c)
  {
    var m := |a| - |b|;
    assert forall i :: 0 <= i < |b| ==> b[i] == a[m + i];
    assert forall i :: m <= i < |a| ==> a[i] == b[i - m];
  }

  lemma PassVerdict(sizes: seq<nat>, replies: seq<WriteReply>)
    requires AllPositive(sizes)
    ensures var p := PassTo(sizes, replies);
      var left := replies[p.used..];
      && (p.Error().CurlError? ==> FailsWith(replies, left, p.Error()) && p.Result() == -1)
      && (!p.Error().CurlError? ==> NoFailure(replies, left) && (p.moved < Sum(sizes) ==> WriterStops(replies, left)))
      && (p.Result() < 0 && !p.Error().CurlError? ==> p.moved == 0 && p.stop.Some? && p.Error() == CurlAgain)
      && p.moved <= Sum(sizes)
  {
    PassGoesOn(sizes, replies);
  }

  /** An arbitrary consumer: it may take part of what it is offered, block, or fail. */
  class Writer {
    var script: seq<WriteReply>
    var accepted: seq<byte>

    constructor (script: seq<WriteReply>)
      ensures accepted == [] && this.script == script
    {
      this.script, accepted := script, [];
    }

    method Write(buf: seq<byte>) returns (n: int, err: Code)
      modifies this
      ensures n <= |buf| && accepted == old(accepted) + if n >= 0 then buf[..n] else []
      ensures (n, err) == Answer(old(script), |buf|)
      ensures script == AfterReply(old(script))
    {
      assert accepted + [] == accepted;
      if script == [] {
        return -1, CurlAgain;
      }
      var reply := script[0];
      script := script[1..];
      match reply
      case Accept(limit) =>
        n, err := Min(limit, |buf|), CurlOk;
        accepted := accepted + buf[..n];
      case WriteBlock => n, err := -1, CurlAgain;
      case WriteFail(code) => n, err := -1, CurlError(code);
    }
  }

  /** What a reader may do when it is asked for bytes; delivering nothing is the end of the stream. */
  datatype ReadReply = Deliver(bytes: seq<byte>) | ReadBlock | ReadFail(code: nat)

  /** The reply delivers something. */
  predicate Delivers(reply: ReadReply) {
    reply.Deliver? && reply.bytes != []
  }

  /** The next reply delivers something. */
  predicate Offers(script: seq<ReadReply>) {
    script != [] && Delivers(script[0])
  }

  /** What a reader with these replies answers when it is asked for up to `max` bytes; without a reply it blocks. */
  function Reply(script: seq<ReadReply>, max: nat): (int, Code) {
    if script == [] then (-1, CurlAgain)
    else
      match script[0]
      case Deliver(bytes) => var n: int := Min(max, |bytes|); (n, CurlOk)
      case ReadBlock => (-1, CurlAgain)
      case ReadFail(code) => (-1, CurlError(code))
  }

  predicate NoReadFailure(replies: seq<ReadReply>, left: seq<ReadReply>) {
    Left(replies, left) && forall i :: 0 <= i < |replies| - |left| ==> !replies[i].ReadFail?
  }

  /** The last reply used, and no other, is a failure with that error. */
  predicate ReadFailsWith(replies: seq<ReadReply>, left: seq<ReadReply>, err: Code) {
    && Left(replies, left) && |left| < |replies|
    && var k := |replies| - |left| - 1;
    && replies[k].ReadFail? && err == CurlError(replies[k].code) && forall i :: 0 <= i < k ==> !replies[i].ReadFail?
  }

  /** The last reply used has not delivered anything, or there are no further replies. */
  predicate ReaderStops(replies: seq<ReadReply>, left: seq<ReadReply>) {
    Left(replies, left) && (left == [] || (|left| < |replies| && !Delivers(replies[|replies| - |left| - 1])))
  }

  lemma ReplyVerdict(script: seq<ReadReply>, max: nat, k: int, e: Code)
    requires (k, e) == Reply(script, max) && max > 0
    ensures var rest := AfterReply(script);
      && (if k >= 0 then e == CurlOk && k <= max && |rest| < |script| else k == -1 && e != CurlOk)
      && (if e.CurlError? then ReadFailsWith(script, rest, e) else NoReadFailure(script, rest))
      && (!e.CurlError? && k <= 0 ==> ReaderStops(script, rest)) && (Offers(script) ==> k > 0)
  {
  }

  lemma NothingRead(script: seq<ReadReply>)
    ensures NoReadFailure(script, script)
  {
  }

  lemma ReaderGoesOn(a: seq<ReadReply>, b: seq<ReadReply>, c: seq<ReadReply>, err: Code)
    requires NoReadFailure(a, b) && Left(b, c)
    ensures Left(a, c) && (NoReadFailure(b, c) ==> NoReadFailure(a, c))
    ensures (ReadFailsWith(b, c, err) ==> ReadFailsWith(a, c, err)) && (ReaderStops(b, c) ==> ReaderStops(a, c))
  {
    var m := |a| - |b|;
    assert forall i :: 0 <= i < |b| ==> b[i] == a[m + i];
    assert forall i :: m <= i < |a| ==> a[i] == b[i - m];
  }

  /** An arbitrary producer with a finite stock of replies. */
  class Reader {
    var script: seq<ReadReply>
    var delivered: seq<byte>

    constructor (script: seq<ReadReply>)
      ensures delivered == [] && this.script == script
    {
      this.script, delivered := script, [];
    }

    method Read(max: nat) returns (buf: seq<byte>, n: int, err: Code)
      modifies this
      ensures (n, err) == Reply(old(script), max) && delivered == old(delivered) + buf
      ensures buf == if n >= 0 then old(script)[0].bytes[..n] else []
      ensures script == AfterReply(old(script))
    {
      assert delivered + [] == delivered;
      buf := [];
      if script == [] {
        return buf, -1, CurlAgain;
      }
      var reply := script[0];
      script := script[1..];
      match reply
      case Deliver(bytes) =>
        buf := bytes[..Min(max, |bytes|)];
        n, err := |buf|, CurlOk;
        delivered := delivered + buf;
      case ReadBlock => n, err := -1, CurlAgain;
      case ReadFail(code) => n, err := -1, CurlError(code);
    }
  }

  class Pool {
    const mem: Memory
    var spare: Node?
    const chunkSize: nat
    const spareMax: nat
    var spareCount: nat
    /** What is linked from `spare`. */
    ghost var list: List

    constructor (mem: Memory, chunkSize: nat, spareMax: nat)
      requires chunkSize > 0 && spareMax > 0
      ensures Valid() && list == EMPTY
      ensures this.mem == mem && this.chunkSize == chunkSize && this.spareMax == spareMax
    {
      this.mem, this.chunkSize, this.spareMax := mem, chunkSize, spareMax;
      spare, spareCount, list := null, 0, EMPTY;
    }

    ghost predicate Valid()
      reads this, list.nodes
    {
      && chunkSize > 0 && AllOk(list.chunks, chunkSize) && spareCount == |list.chunks| <= spareMax
      && list.Linked(spare)
    }

    /** How often the watched address is in the list. */
    ghost function Held(): nat
      reads this
    {
      Count(list.chunks, mem.watch)
    }

    /** A spare chunk if there is one, otherwise a new one. */
    method Take() returns (c: Node)
      requires Valid() && mem.Valid()
      modifies this, mem, list.nodes
      ensures Valid() && mem.Valid() && c.Blank(chunkSize)
      ensures if old(spare) == null then fresh(c) && list == old(list)
              else c == old(spare) && list == old(list).Rest() && c in old(list).nodes
      ensures mem.live - Held() - Count([c.View()], mem.watch) == old(mem.live - Held())
    {
      if spare != null {
        Popped(spare, list);
        c := spare;
        spare, list := c.next, list.Rest();
        spareCount := spareCount - 1;
        c.Reset();
      } else {
        c := mem.Calloc(chunkSize);
      }
    }

    /** Keeps the chunk as a spare, or frees it if there are enough of them already. */
    method Put(c: Node)
      requires Valid() && mem.Valid() && c !in list.nodes
      requires c.View().Ok(chunkSize) && Count([c.View()], mem.watch) <= mem.live
      modifies this, mem, c
      ensures Valid() && mem.Valid()
      ensures list == if old(spareCount) >= spareMax then old(list) else old(list).Push(c)
      ensures old(spareCount) < spareMax ==> c.View() == old(c.View()).Reset()
      ensures mem.live - old(mem.live) == Held() - old(Held()) - old(Count([c.View()], mem.watch))
    {
      if spareCount >= spareMax {
        mem.Free(c);
      } else {
        c.Reset();
        Push(c);
      }
    }

    method Push(c: Node)
      requires Valid() && spareCount < spareMax && c !in list.nodes && c.View().Ok(chunkSize)
      modifies this, c
      ensures Valid() && list == old(list).Push(c) && c.View() == old(c.View())
    {
      c.next, c.pos := spare, list.base - 1;
      Pushed(c, spare, list);
      spare, list := c, list.Push(c);
      spareCount := spareCount + 1;
    }

    /** `Curl_bufcp_free` */
    method Free()
      requires Valid() && mem.Valid() && Held() <= mem.live
      modifies this, mem
      ensures Valid() && mem.Valid() && list == EMPTY
      ensures mem.live == old(mem.live) - old(Held())
    {
      mem.FreeList(spare, list);
      spare, spareCount, list := null, 0, EMPTY;
    }
  }

  class Queue {
    const mem: Memory
    var head: Node?
    var tail: Node?
    var spare: Node?
    const pool: Pool?
    var chunkCount: nat
    const maxChunks: nat
    const chunkSize: nat
    const soft: bool
    const noSpares: bool
    /** What is linked from `head` and from `spare`. */
    ghost var heads: List
    ghost var spares: List

    constructor (mem: Memory, pool: Pool?, chunkSize: nat, maxChunks: nat, soft: bool, noSpares: bool)
      requires chunkSize > 0 && maxChunks > 0 && mem.Valid()
      requires pool != null ==>
        pool.Valid() && pool.mem == mem && pool.chunkSize == chunkSize && pool.Held() <= mem.live
      ensures Valid() && Bytes() == [] && heads == EMPTY && spares == EMPTY
      ensures this.mem == mem && this.pool == pool && this.chunkSize == chunkSize && this.maxChunks == maxChunks
      ensures this.soft == soft && this.noSpares == noSpares
    {
      this.mem, this.pool, this.chunkSize, this.maxChunks := mem, pool, chunkSize, maxChunks;
      this.soft, this.noSpares := soft, noSpares;
      head, tail, spare, chunkCount := null, null, null, 0;
      heads, spares := EMPTY, EMPTY;
    }

    /** The chunks of the queue and of its pool. */
    ghost function Foot(): set<Node>
      reads this, pool
    {
      heads.nodes + spares.nodes + if pool == null then {} else pool.list.nodes
    }

    /** How often the watched address is in the lists of the queue and of its pool. */
    ghost function Held(): nat
      reads this, pool
    {
      Count(heads.chunks, mem.watch) + Count(spares.chunks, mem.watch) + if pool == null then 0 else pool.Held()
    }

    /** The pointers of the queue lead through its lists. */
    ghost predicate Linked()
      reads this, heads.nodes, spares.nodes
    {
      heads.Linked(head) && heads.Ends(tail) && spares.Linked(spare) && heads.nodes !! spares.nodes
    }

    /** All but the links and the order of the unread bytes; `loose` chunks are on their way. */
    ghost predicate Shape(loose: seq<Chunk>)
      reads this, mem, pool, if pool == null then {} else pool.list.nodes
    {
      && chunkSize > 0 && maxChunks > 0 && mem.Valid()
      && AllOk(heads.chunks, chunkSize) && AllOk(spares.chunks, chunkSize)
      && chunkCount == |heads.chunks| + |spares.chunks| + |loose|
      && (!soft ==> chunkCount <= maxChunks)
      && (pool != null ==> pool.Valid() && pool.mem == mem && pool.chunkSize == chunkSize)
      && (pool != null ==> pool.list.nodes !! heads.nodes + spares.nodes)
      && Held() + Count(loose, mem.watch) <= mem.live
    }

    ghost predicate Valid()
      reads this, mem, pool, Foot()
    {
      Linked() && Shape([]) && Filled(heads.chunks)
    }

    /** The bytes that can be read, in order. */
    ghost function Bytes(): seq<byte>
      requires AllOk(heads.chunks, chunkSize)
      reads this
    {
      Content(heads.chunks, chunkSize)
    }

    /** The number of bytes that a queue with a hard limit still accepts. */
    ghost function Space(): nat
      requires AllOk(heads.chunks, chunkSize)
      reads this
    {
      TailRoom(heads.chunks, chunkSize) + Capacity(|spares.chunks|, chunkSize)
      + Capacity(if chunkCount < maxChunks then maxChunks - chunkCount else 0, chunkSize)
    }

    /** The live chunks that the queue and its pool do not hold have not changed. */
    ghost predicate Kept(others: int)
      reads this, pool, mem
    {
      mem.live - Held() == others
    }

    /** What every operation keeps; chunks come from the queue, its pool, or the allocator. */
    twostate predicate Sound()
      reads this, mem, pool, Foot()
    {
      Valid() && Kept(old(mem.live - Held())) && Renewed()
    }

    twostate predicate Renewed()
      reads this, pool
    {
      forall n :: n in Foot() ==> n in old(Foot()) || fresh(n)
    }

    /** The head pointer is null exactly for an empty list, and else leads to the first chunk; so do the others. */
    lemma Ends()
      requires Linked()
      ensures (head == null <==> heads.chunks == []) && (tail == null <==> head == null)
      ensures head != null ==> head == heads.spine[0] && head in heads.nodes && head.View() == heads.chunks[0]
      ensures tail != null ==> tail == heads.spine[|heads.spine| - 1] && tail in heads.nodes
                               && tail.View() == heads.chunks[|heads.chunks| - 1]
      ensures (spare == null <==> spares.chunks == []) && (spare != null ==> spare in spares.nodes)
    {
      assert heads.spine != [] ==> heads.spine[0] in heads.nodes && heads.spine[|heads.spine| - 1] in heads.nodes;
      assert spares.spine != [] ==> spares.spine[0] in spares.nodes;
    }

    lemma HeadIsFirst()
      requires heads.Linked(head)
      ensures head == null <==> heads.chunks == []
      ensures head != null ==> head.View() == heads.chunks[0]
    {
      assert heads.spine != [] ==> heads.spine[0] in heads.nodes;
    }

    method PopSpare() returns (c: Node)
      requires Linked() && spare != null
      modifies this`spare, this`spares, spare
      ensures Linked() && c == old(spare) && spares == old(spares).Rest()
      ensures c.next == null && c.View() == old(spares).chunks[0].Reset()
    {
      Popped(spare, spares);
      c := spare;
      spare, spares := c.next, spares.Rest();
      c.Reset();
    }

    /** A chunk on its way: it belongs to the queue but is in none of its lists. */
    ghost predicate Loose(c: Node)
      reads this, mem, pool, Foot(), c
    {
      Linked() && Shape([c.View()]) && Filled(heads.chunks) && c.Blank(chunkSize) && c !in Foot()
    }

    method RecycleSpare() returns (c: Node)
      requires Valid() && spare != null
      modifies this`spare, this`spares, spare
      ensures Loose(c) && c in old(spares.nodes) && spares == old(spares).Rest()
      ensures Held() + Count([c.View()], mem.watch) == old(Held()) && Space() == old(Space()) - chunkSize
    {
      c := PopSpare();
    }

    method PoolChunk() returns (c: Node)
      requires Valid() && pool != null && (chunkCount < maxChunks || soft)
      modifies this`chunkCount, pool, mem, pool.list.nodes
      ensures Loose(c) && (fresh(c) || c in old(pool.list.nodes)) && pool.list.nodes <= old(pool.list.nodes)
      ensures chunkCount == old(chunkCount) + 1 && (!soft ==> Space() == old(Space()) - chunkSize)
      ensures mem.live - Held() - Count([c.View()], mem.watch) == old(mem.live - Held())
    {
      c := pool.Take();
      chunkCount := chunkCount + 1;
      assert pool.Valid() && c !in Foot();
      assert Linked();
    }

    method NewChunk() returns (c: Node)
      requires Valid() && pool == null && (chunkCount < maxChunks || soft)
      modifies this`chunkCount, mem
      ensures Loose(c) && fresh(c)
      ensures chunkCount == old(chunkCount) + 1 && (!soft ==> Space() == old(Space()) - chunkSize)
      ensures mem.live - Held() - Count([c.View()], mem.watch) == old(mem.live - Held())
    {
      c := mem.Calloc(chunkSize);
      chunkCount := chunkCount + 1;
    }

    /** A chunk to write to: a spare one, one from the pool, or a new one; none if a hard limit is reached. */
    method GetSpare() returns (c: Node?)
      requires Valid()
      modifies this`spare, this`spares, this`chunkCount, pool, mem, Foot()
      ensures c != null <==> old(spare) != null || old(chunkCount) < maxChunks || soft
      ensures if c == null then Valid() else Loose(c) && (fresh(c) || c in old(Foot()))
      ensures mem.live - Held() - Count(Seen(c), mem.watch) == old(mem.live - Held())
      ensures Foot() <= old(Foot())
      ensures if c != null then !soft ==> Space() == old(Space()) - chunkSize
              else Space() == old(Space()) == TailRoom(heads.chunks, chunkSize)
    {
      Ends();
      if spare != null {
        c := RecycleSpare();
      } else if chunkCount >= maxChunks && !soft {
        c := null;
      } else if pool != null {
        c := PoolChunk();
      } else {
        c := NewChunk();
      }
    }

    /** Links a chunk behind the last one, or makes it the only one. */
    method LinkTail(c: Node)
      requires Linked() && c.next == null && c !in heads.nodes + spares.nodes
      modifies this`head, this`tail, this`heads, tail, c
      ensures Linked() && tail == c && c.View() == old(c.View()) && heads == old(heads).Append(c)
    {
      Ends();
      ghost var list;
      c.pos := heads.base + |heads.spine|;
      assert heads.Linked(head);
      if tail != null {
        list := LinkBehind(tail, c, head, heads);
        tail := c;
      } else {
        list := heads.Append(c);
        Single(c, heads);
        head, tail := c, c;
      }
      heads := list;
      assert spares.Linked(spare);
    }

    /** Makes an empty chunk the new tail, and the new head if there is none. */
    method AppendChunk(c: Node)
      requires Loose(c) && (tail != null ==> Last(heads.chunks).IsFull())
      modifies this`head, this`tail, this`heads, tail, c
      ensures Valid() && tail == c && Bytes() == old(Bytes()) && Foot() == old(Foot()) + {c}
      ensures heads.chunks != [] && !Last(heads.chunks).IsFull() && TailRoom(heads.chunks, chunkSize) == chunkSize
      ensures Kept(old(mem.live - Held() - Count([c.View()], mem.watch))) && Space() == old(Space()) + chunkSize
    {
      Ends();
      Extended(heads.chunks, c.View(), chunkSize, mem.watch);
      LinkTail(c);
      assert pool != null ==> pool.Valid();
    }

    /** Appends a chunk to the head list if there is one to be had. */
    method Extend() returns (c: Node?)
      requires Valid() && (heads.chunks != [] ==> Last(heads.chunks).IsFull())
      modifies this, pool, mem, Foot()
      ensures Sound() && Bytes() == old(Bytes())
      ensures c != null <==> soft || old(Space()) > 0
      ensures c != null ==> c == tail && heads.chunks != [] && !Last(heads.chunks).IsFull()
      ensures c != null ==> TailRoom(heads.chunks, chunkSize) == chunkSize
      ensures !soft ==> Space() == old(Space())
    {
      Ends();
      c := GetSpare();
      if c != null {
        AppendChunk(c);
      }
    }

    /** The room to write to: that of the last chunk, or of a new one if it has none. */
    function Room(room: nat): nat {
      if room > 0 then room else chunkSize
    }

    /** The last chunk if it has room, otherwise a spare chunk appended to the head list. */
    method GetNonFullTail() returns (c: Node?)
      requires Valid()
      modifies this, pool, mem, Foot()
      ensures Sound() && Bytes() == old(Bytes())
      ensures c != null <==> soft || old(Space()) > 0
      ensures c != null ==> c == tail && heads.chunks != [] && !Last(heads.chunks).IsFull()
      ensures c != null ==> TailRoom(heads.chunks, chunkSize) == Room(old(TailRoom(heads.chunks, chunkSize)))
      ensures !soft ==> Space() == old(Space())
    {
      Ends();
      if tail != null && !tail.View().IsFull() {
        c := tail;
      } else {
        c := Extend();
      }
    }

    /** Copies bytes to the last chunk. */
    method AppendNode(buf: seq<byte>) returns (n: nat)
      requires Linked() && heads.chunks != [] && AllOk(heads.chunks, chunkSize)
      modifies this`heads, tail
      ensures Linked() && heads.nodes == old(heads.nodes)
      ensures heads.chunks == Grown(old(heads.chunks), buf)
      ensures n == Min(chunkSize - Last(old(heads.chunks)).w, |buf|)
    {
      Ends();
      ghost var more;
      n, more := AppendTo(tail, buf, head, heads, |heads.spine| - 1);
      assert spares.Linked(spare);
      heads := more;
    }

    method AppendTail(buf: seq<byte>) returns (n: nat)
      requires Valid() && heads.chunks != []
      modifies this`heads, heads.nodes
      ensures Valid() && n == Min(chunkSize - Last(old(heads.chunks)).w, |buf|) && Bytes() == old(Bytes()) + buf[..n]
      ensures heads.nodes == old(heads.nodes) && Held() == old(Held()) && Space() == old(Space()) - n
    {
      Ends();
      ghost var cs := heads.chunks;
      AppendedToLast(cs, buf, chunkSize, mem.watch);
      n := AppendNode(buf);
      assert heads.chunks == Grown(cs, buf);
      assert pool != null ==> pool.Valid();
    }

    /** Copies as many bytes as fit to a chunk with room, if there is one. */
    method AppendSome(buf: seq<byte>) returns (n: nat)
      requires Valid() && buf != []
      modifies this, pool, mem, Foot()
      ensures Sound() && n <= |buf| && Bytes() == old(Bytes()) + buf[..n]
      ensures n > 0 <==> soft || old(Space()) > 0
      ensures !soft ==> Space() == old(Space()) - n
    {
      var c := GetNonFullTail();
      n := 0;
      if c != null {
        n := AppendTail(buf);
      }
    }

    /** Copies `buf` to the end of the queue as far as there is room. */
    method Write(buf: seq<byte>) returns (n: int, err: Code)
      requires Valid()
      modifies this, pool, mem, Foot()
      ensures Sound()
      ensures if n >= 0 then err == CurlOk && n <= |buf| && Bytes() == old(Bytes()) + buf[..n]
              else n == -1 && err == CurlAgain && Bytes() == old(Bytes())
      ensures n == -1 <==> !soft && |buf| > 0 && old(Space()) == 0
      ensures n >= 0 ==> n == if soft then |buf| else Min(|buf|, old(Space()))
      ensures !soft ==> Space() == old(Space()) - if n >= 0 then n else 0
    {
      ghost var bytes, space := Bytes(), Space();
      assert bytes + buf[..0] == bytes;
      var pos: nat := 0;
      while pos < |buf|
        invariant pos <= |buf| && Sound()
        invariant Bytes() == bytes + buf[..pos]
        invariant !soft ==> Space() == space - pos
      {
        var k := AppendSome(buf[pos..]);
        if k == 0 {
          break;
        }
        Rejoined(bytes, buf, pos, k);
        pos := pos + k;
      }
      if pos == 0 && |buf| > 0 {
        return -1, CurlAgain;
      }
      return pos, CurlOk;
    }

    /** Like `Valid`, except that the first chunk may have been read empty before the others. */
    ghost predicate Prunable()
      reads this, mem, pool, Foot()
    {
      Linked() && Shape([]) && LooseFirst(heads.chunks)
    }

    /** Takes the first chunk out of the head list; the tail pointer is left to the caller. */
    method UnlinkHead() returns (c: Node)
      requires heads.Linked(head) && head != null
      modifies this`head, this`heads
      ensures heads.Linked(head) && c == old(head) && c !in heads.nodes && c in old(heads.nodes)
      ensures old(heads.chunks) != [] && old(heads.spine) != [] && heads == old(heads).Rest()
      ensures c.View() == old(heads).chunks[0]
    {
      Popped(head, heads);
      c := head;
      head, heads := c.next, heads.Rest();
    }

    method PopHead() returns (c: Node)
      requires Linked() && head != null
      modifies this`head, this`tail, this`heads
      ensures Linked() && c == old(head) && heads == old(heads).Rest()
      ensures c.View() == old(heads).chunks[0]
    {
      Ends();
      c := UnlinkHead();
      if tail == c {
        tail := head;
      }
    }

    method PushSpare(c: Node)
      requires spares.Linked(spare) && c !in spares.nodes
      modifies this`spare, this`spares, c`next, c`pos
      ensures spares.Linked(spare) && spares == old(spares).Push(c) && c.View() == old(c.View())
    {
      c.next, c.pos := spare, spares.base - 1;
      Pushed(c, spare, spares);
      spare, spares := c, spares.Push(c);
    }

    /** Unlinks an empty first chunk. */
    method TakeEmpty() returns (c: Node)
      requires Prunable() && FirstIsEmpty(heads.chunks)
      modifies this`head, this`tail, this`heads
      ensures Emptied(c) && heads == old(heads).Rest() && c in old(heads.nodes) && c.View() == old(heads).chunks[0]
      ensures Bytes() == old(Bytes()) && old(Held()) == Held() + Count([c.View()], mem.watch)
    {
      Ends();
      c := PopHead();
    }

    /** A chunk that has been read empty and is in no list of the queue. */
    ghost predicate Emptied(c: Node)
      reads this, mem, pool, Foot(), c
    {
      && Linked() && Shape([c.View()]) && Filled(heads.chunks)
      && c.View().Ok(chunkSize) && c.View().IsEmpty() && c !in Foot()
    }

    method ToPool(c: Node)
      requires Emptied(c) && pool != null
      modifies this`chunkCount, pool, mem, c
      ensures Valid() && pool.list.nodes <= old(pool.list.nodes) + {c} && chunkCount == old(chunkCount) - 1
      ensures mem.live - old(mem.live) == Held() - old(Held()) - old(Count([c.View()], mem.watch))
    {
      pool.Put(c);
      chunkCount := chunkCount - 1;
    }

    method ToAllocator(c: Node)
      requires Emptied(c)
      modifies this`chunkCount, mem
      ensures Valid() && chunkCount == old(chunkCount) - 1
      ensures mem.live - old(mem.live) == Held() - old(Held()) - old(Count([c.View()], mem.watch))
    {
      mem.Free(c);
      chunkCount := chunkCount - 1;
    }

    method ToSpares(c: Node)
      requires Emptied(c)
      modifies this`spare, this`spares, c`next, c`pos
      ensures Valid() && spares.nodes == old(spares.nodes) + {c} && spares.chunks == [c.View()] + old(spares.chunks)
      ensures c.View() == old(c.View()) && Held() == old(Held()) + Count([c.View()], mem.watch)
    {
      PushSpare(c);
    }

    /** Moves an emptied chunk to the pool or the spare list, or frees it. */
    method Discard(c: Node)
      requires Emptied(c)
      modifies this`spare, this`spares, this`chunkCount, pool, mem, c
      ensures Valid() && Kept(old(mem.live - Held() - Count([c.View()], mem.watch)))
      ensures Foot() <= old(Foot()) + {c}
      ensures if pool == null && !noSpares && old(chunkCount) <= maxChunks then
                spares.chunks == [old(c.View())] + old(spares.chunks) && chunkCount == old(chunkCount)
              else
                spares == old(spares) && chunkCount == old(chunkCount) - 1
    {
      if pool != null {
        ToPool(c);
      } else if chunkCount > maxChunks || noSpares {
        ToAllocator(c);
      } else {
        ToSpares(c);
      }
    }

    /** Takes an empty first chunk out of the queue. */
    method PruneFirst()
      requires Prunable() && FirstIsEmpty(heads.chunks)
      modifies this, pool, mem, Foot()
      ensures Sound() && Recycled() && Bytes() == old(Bytes())
      ensures heads.chunks == old(heads.chunks)[1..]
      ensures if pool == null && !noSpares && old(chunkCount) <= maxChunks then
                spares.chunks == [old(heads.chunks)[0]] + old(spares.chunks) && chunkCount == old(chunkCount)
              else
                spares == old(spares) && chunkCount == old(chunkCount) - 1
    {
      var c := TakeEmpty();
      Discard(c);
    }

    /** Where pruning leaves chunks that are not needed any more. */
    twostate predicate Recycled()
      reads this
    {
      && (noSpares || pool != null ==> spares == old(spares))
      && (pool == null && !noSpares && old(chunkCount) <= maxChunks ==> chunkCount == old(chunkCount))
    }

    predicate HeadIsEmpty()
      reads this, head
    {
      head != null && head.View().IsEmpty()
    }

    lemma HeadTest()
      requires heads.Linked(head)
      ensures HeadIsEmpty() <==> FirstIsEmpty(heads.chunks)
    {
      HeadIsFirst();
    }

    /** Pruning has come so far. */
    ghost predicate Pruning(was: seq<Chunk>)
      reads this, mem, pool, Foot(), head
    {
      Prunable() && (HeadIsEmpty() <==> FirstIsEmpty(heads.chunks)) && Pruned(heads.chunks, was)
    }

    method PruneTurn(ghost was: seq<Chunk>)
      requires Pruning(was) && HeadIsEmpty()
      modifies this, pool, mem, Foot()
      ensures Sound() && Recycled() && Bytes() == old(Bytes())
      ensures Pruning(was) && |heads.chunks| < |old(heads.chunks)|
    {
      ghost var mid := heads.chunks;
      PruneFirst();
      PrunedStep(heads.chunks, mid, was);
      HeadTest();
    }

    /** Removes empty chunks from the start of the head list. */
    method PruneHead()
      requires Prunable()
      modifies this, pool, mem, Foot()
      ensures Sound() && Recycled() && Bytes() == old(Bytes())
      ensures !FirstIsEmpty(heads.chunks)
      ensures Pruned(heads.chunks, old(heads.chunks)) && Sizes(heads.chunks) == old(Sizes(heads.chunks))
    {
      HeadTest();
      NotPruned(heads.chunks);
      while HeadIsEmpty()
        invariant Pruning(old(heads.chunks)) && Kept(old(mem.live - Held())) && Renewed() && Recycled()
        invariant Bytes() == old(Bytes())
        decreases |heads.chunks|
      {
        PruneTurn(old(heads.chunks));
      }
      SizesPruned(heads.chunks, old(heads.chunks));
    }

    method SkipNode(amount: nat) returns (n: nat)
      requires Linked() && heads.chunks != [] && AllOk(heads.chunks, chunkSize)
      modifies this`heads, head
      ensures Linked() && heads.nodes == old(heads.nodes)
      ensures n == Min(old(heads.chunks)[0].w - old(heads.chunks)[0].r, amount)
      ensures heads.chunks == old(heads.chunks)[0 := old(heads.chunks)[0].Drop(n)]
    {
      Ends();
      ghost var more;
      n, more := SkipIn(head, amount, head, heads, 0);
      heads := more;
    }

    /** Drops unread bytes of the first chunk. */
    method DropFirst(amount: nat) returns (n: nat)
      requires Valid() && heads.chunks != []
      modifies this`heads, heads.nodes
      ensures Prunable() && heads.nodes == old(heads.nodes) && Held() == old(Held())
      ensures n == Min(old(heads.chunks)[0].w - old(heads.chunks)[0].r, amount)
      ensures n <= |old(Bytes())| && Bytes() == old(Bytes())[n..]
      ensures heads.chunks == old(heads.chunks)[0 := old(heads.chunks)[0].Drop(n)]
      ensures Sizes(heads.chunks) == Dropped(old(Sizes(heads.chunks)), n)
    {
      ghost var cs := heads.chunks;
      ghost var k := Min(cs[0].w - cs[0].r, amount);
      SizesDrop(cs, k, chunkSize);
      DroppedFromFirst(cs, k, chunkSize, mem.watch);
      Ends();
      n := SkipNode(amount);
      assert heads.chunks == cs[0 := cs[0].Drop(k)];
      assert pool != null ==> pool.Valid();
    }

    /** Drops unread bytes of the first chunk, and the chunk itself if it has no others. */
    method Consume(amount: nat) returns (n: nat)
      requires Valid() && head != null
      modifies this, pool, mem, Foot()
      ensures Sound() && Recycled() && n <= amount && n <= old(head.w) - old(head.r)
      ensures n <= |old(Bytes())| && Bytes() == old(Bytes())[n..]
      ensures |heads.chunks| <= |old(heads.chunks)| && (n < amount ==> |heads.chunks| < |old(heads.chunks)|)
      ensures Sizes(heads.chunks) == Dropped(old(Sizes(heads.chunks)), n)
    {
      HeadIsFirst();
      n := DropFirst(amount);
      PruneHead();
    }

    /** `chunk_read` for the first chunk, which is removed when it is empty. */
    method ReadSome(amount: nat) returns (out: seq<byte>)
      requires Valid() && head != null
      modifies this, pool, mem, Foot()
      ensures Sound() && Recycled() && |out| <= amount && old(Bytes()) == out + Bytes()
      ensures |heads.chunks| <= |old(heads.chunks)| && (|out| < amount ==> |heads.chunks| < |old(heads.chunks)|)
    {
      HeadIsFirst();
      ghost var bytes := Bytes();
      out := head.View().View();
      assert out <= bytes;
      var n := Consume(amount);
      out := out[..n];
      assert out == bytes[..n];
    }

    /** Removes up to `len` bytes from the front of the queue and returns them. */
    method Read(len: nat) returns (out: seq<byte>, err: Code)
      requires Valid()
      modifies this, pool, mem, Foot()
      ensures Sound() && Recycled()
      ensures out == old(Bytes())[..Min(len, |old(Bytes())|)]
      ensures Bytes() == old(Bytes())[|out|..]
      ensures err == if out == [] then CurlAgain else CurlOk
    {
      out := [];
      while |out| < len && head != null
        invariant |out| <= len && Sound() && Recycled()
        invariant out + Bytes() == old(Bytes())
        decreases |heads.chunks|, len - |out|
      {
        var piece := ReadSome(len - |out|);
        Assoc(out, piece, Bytes());
        out := out + piece;
      }
      err := if out == [] then CurlAgain else CurlOk;
      if head == null {
        NoBytesLeft();
      }
    }

    lemma NoBytesLeft()
      requires heads.Linked(head) && head == null
      ensures heads.chunks == [] && Bytes() == []
    {
      HeadIsFirst();
    }

    /** Drops up to `amount` bytes from the front of the queue. */
    method Skip(amount: nat)
      requires Valid()
      modifies this, pool, mem, Foot()
      ensures Sound() && Recycled()
      ensures Bytes() == old(Bytes())[Min(amount, |old(Bytes())|)..]
      ensures Sizes(heads.chunks) == Dropped(old(Sizes(heads.chunks)), amount)
    {
      ghost var bytes, sizes := Bytes(), Sizes(heads.chunks);
      SizesSum(heads.chunks, chunkSize);
      var left := amount;
      while left > 0 && head != null
        invariant 0 <= left <= amount && Sound() && Recycled() && Skipped(bytes, sizes, amount - left)
        decreases |heads.chunks|, left
      {
        var n := SkipTurn(left, bytes, sizes, amount - left);
        left := left - n;
      }
      SkippedEnd(bytes, sizes, amount, left);
    }

    /** So many bytes have been dropped from the front. */
    ghost predicate Skipped(bytes: seq<byte>, sizes: seq<nat>, gone: nat)
      requires AllOk(heads.chunks, chunkSize)
      reads this
    {
      gone <= |bytes| && Bytes() == bytes[gone..] && Sizes(heads.chunks) == Dropped(sizes, gone)
    }

    lemma SkippedOn(bytes: seq<byte>, sizes: seq<nat>, gone: nat, b: seq<byte>, s: seq<nat>, n: nat)
      requires AllOk(heads.chunks, chunkSize) && AllPositive(sizes)
      requires gone <= |bytes| && b == bytes[gone..] && s == Dropped(sizes, gone)
      requires n <= |b| && Bytes() == b[n..] && Sizes(heads.chunks) == Dropped(s, n)
      ensures Skipped(bytes, sizes, gone + n)
    {
      DroppedTwice(sizes, gone, n);
    }

    method SkipTurn(left: nat, ghost bytes: seq<byte>, ghost sizes: seq<nat>, ghost gone: nat) returns (n: nat)
      requires Valid() && head != null && left > 0 && AllPositive(sizes) && Skipped(bytes, sizes, gone)
      modifies this, pool, mem, Foot()
      ensures Sound() && Recycled() && n <= left && Skipped(bytes, sizes, gone + n)
      ensures |heads.chunks| <= |old(heads.chunks)| && (n < left ==> |heads.chunks| < |old(heads.chunks)|)
    {
      ghost var b, s := Bytes(), Sizes(heads.chunks);
      n := Consume(left);
      SkippedOn(bytes, sizes, gone, b, s, n);
    }

    lemma SkippedEnd(bytes: seq<byte>, sizes: seq<nat>, amount: nat, left: nat)
      requires AllOk(heads.chunks, chunkSize) && AllPositive(sizes) && left <= amount
      requires Skipped(bytes, sizes, amount - left) && heads.Linked(head) && (left > 0 ==> head == null)
      ensures Bytes() == bytes[Min(amount, |bytes|)..] && Sizes(heads.chunks) == Dropped(sizes, amount)
    {
      if left > 0 {
        NoBytesLeft();
        DroppedTwice(sizes, amount - left, left);
      }
    }

    /** Content and room of the queue. */
    ghost function Gauge(): (seq<byte>, nat, bool)
      requires AllOk(heads.chunks, chunkSize)
      reads this, tail
    {
      (Bytes(), Space(), IsFull())
    }

    /** Shows the unread bytes of the first non-empty chunk. */
    method Peek() returns (ok: bool, buf: seq<byte>)
      requires Valid()
      modifies this, pool, mem, Foot()
      ensures Sound() && Bytes() == old(Bytes())
      ensures ok <==> Bytes() != []
      ensures ok ==> buf != [] && buf <= Bytes() && heads.chunks != [] && buf == heads.chunks[0].View()
      ensures !ok ==> buf == []
      ensures Sizes(heads.chunks) == old(Sizes(heads.chunks))
      ensures ok ==> Gauge() == old(Gauge())
    {
      Ends();
      if head != null && head.View().IsEmpty() {
        PruneHead();
      }
      Ends();
      ContentNonEmpty(heads.chunks, chunkSize);
      if head != null && !head.View().IsEmpty() {
        return true, head.View().View();
      }
      return false, [];
    }

    /** A traversal of the head list has come to the given chunk, with the bytes `front` before it. */
    ghost predicate Ahead(c: Node?, k: nat, front: seq<byte>)
      requires AllOk(heads.chunks, chunkSize)
      reads this
    {
      && k <= |heads.chunks| && |heads.spine| == |heads.chunks| && c == heads.At(k)
      && front + Content(heads.chunks[k..], chunkSize) == Bytes()
    }

    lemma AtStart()
      requires Linked() && AllOk(heads.chunks, chunkSize)
      ensures Ahead(head, 0, [])
    {
      Ends();
    }

    lemma AtEnd(k: nat, front: seq<byte>)
      requires AllOk(heads.chunks, chunkSize) && Ahead(null, k, front)
      ensures front == Bytes()
    {
    }

    lemma AtNode(c: Node, k: nat, front: seq<byte>)
      requires heads.Linked(head) && AllOk(heads.chunks, chunkSize) && Filled(heads.chunks) && chunkSize > 0
      requires Ahead(c, k, front)
      ensures k < |heads.chunks| && c.View().Ok(|c.data|)
      ensures Ahead(c.next, k + 1, front + c.View().View())
      ensures c.View().IsEmpty() ==> front == Bytes()
      ensures front + c.View().View() <= Bytes()
    {
      assert c == heads.spine[k] && c.next == heads.spine[k].next;
      FromNode(heads.chunks, k, chunkSize);
      Assoc(front, c.View().View(), Content(heads.chunks[k + 1..], chunkSize));
    }

    /** Shows a stretch of unread bytes that starts at the given offset. */
    method PeekAt(offset: nat) returns (ok: bool, buf: seq<byte>)
      requires Valid()
      ensures ok <==> offset < |Bytes()|
      ensures ok ==> buf != [] && buf <= Bytes()[offset..]
      ensures !ok ==> buf == []
    {
      var c, off: nat := head, offset;
      ghost var k: nat, front: seq<byte> := 0, [];
      AtStart();
      while c != null
        invariant Ahead(c, k, front) && |front| + off == offset
        decreases |heads.chunks| - k
      {
        AtNode(c, k, front);
        ghost var view := c.View().View();
        var clen := c.w - c.r;
        assert |view| == clen;
        if clen == 0 {
          return false, [];
        }
        if off < clen {
          Behind(front, view, Bytes(), off);
          buf := c.PeekAt(off);
          return true, buf;
        }
        front := front + view;
        off, c, k := off - clen, c.next, k + 1;
      }
      AtEnd(k, front);
      return false, [];
    }

    method Len() returns (len: nat)
      requires Valid()
      ensures len == |Bytes()|
    {
      var c := head;
      len := 0;
      ghost var k: nat, front: seq<byte> := 0, [];
      AtStart();
      while c != null
        invariant Ahead(c, k, front) && |front| == len
        decreases |heads.chunks| - k
      {
        AtNode(c, k, front);
        front := front + c.View().View();
        len, c, k := len + (c.w - c.r), c.next, k + 1;
      }
      AtEnd(k, front);
    }

    method SpaceLeft() returns (space: nat)
      requires Valid()
      ensures space == Space()
    {
      space := 0;
      Ends();
      if tail != null {
        space := |tail.data| - tail.w;
      }
      var c := spare;
      ghost var k: nat, room := 0, space;
      ghost var n := |spares.chunks|;
      while c != null
        invariant k <= n && c == spares.At(k)
        invariant space + Capacity(n - k, chunkSize) == room + Capacity(n, chunkSize)
        decreases n - k
      {
        assert c == spares.spine[k] && c.View() == spares.chunks[k];
        space, c, k := space + |c.data|, c.next, k + 1;
      }
      if chunkCount < maxChunks {
        CapacityIsProduct(maxChunks - chunkCount, chunkSize);
        space := space + (maxChunks - chunkCount) * chunkSize;
      }
    }

    predicate IsEmpty()
      reads this, head
    {
      head == null || head.View().IsEmpty()
    }

    predicate IsFull()
      reads this, tail
    {
      if tail == null || spare != null then false
      else if chunkCount < maxChunks then false
      else if chunkCount > maxChunks then true
      else tail.View().IsFull()
    }

    lemma EmptyMeansNoBytes()
      requires Valid()
      ensures IsEmpty() <==> Bytes() == []
    {
      Ends();
      ContentNonEmpty(heads.chunks, chunkSize);
    }

    /** A queue with a hard limit is full exactly when a write would be refused. */
    lemma FullMeansNoSpace()
      requires Valid()
      ensures !soft ==> (IsFull() <==> Space() == 0)
      ensures soft ==> (IsFull() <==> (head != null && chunkCount > maxChunks && spare == null) || Space() == 0)
    {
      Ends();
    }

    /** The first chunk of the head list becomes the first spare one. */
    method MoveFirst()
      requires heads.Linked(head) && spares.Linked(spare) && heads.nodes !! spares.nodes && head != null
      modifies this`head, this`heads, this`spare, this`spares, heads.nodes
      ensures heads.Linked(head) && spares.Linked(spare) && heads.nodes !! spares.nodes
      ensures old(heads.chunks) != [] && heads.chunks == old(heads.chunks)[1..]
      ensures spares.chunks == [old(heads.chunks)[0]] + old(spares.chunks)
      ensures heads.nodes <= old(heads.nodes) && spares.nodes <= old(heads.nodes + spares.nodes)
    {
      var c := UnlinkHead();
      PushSpare(c);
    }

    /** Like `Valid`, without the end of the head list. */
    ghost predicate Resetting()
      reads this, mem, pool, Foot()
    {
      heads.Linked(head) && spares.Linked(spare) && heads.nodes !! spares.nodes && Shape([]) && Filled(heads.chunks)
    }

    method MoveChunk()
      requires Resetting() && head != null
      modifies this`head, this`heads, this`spare, this`spares, heads.nodes
      ensures Resetting() && Held() == old(Held()) && heads.nodes + spares.nodes <= old(heads.nodes + spares.nodes)
      ensures |heads.chunks| < |old(heads.chunks)|
      ensures |spares.chunks| + |heads.chunks| == |old(spares.chunks)| + |old(heads.chunks)|
    {
      MoveFirst();
    }

    /** Moves all chunks to the spare list. */
    method Reset()
      requires Valid()
      modifies this, Foot()
      ensures Sound() && Bytes() == [] && heads.chunks == []
      ensures |spares.chunks| == |old(spares.chunks)| + |old(heads.chunks)| && Held() == old(Held())
    {
      while head != null
        invariant Resetting() && Held() == old(Held())
        invariant heads.nodes + spares.nodes <= old(heads.nodes + spares.nodes)
        invariant |spares.chunks| + |heads.chunks| == |old(spares.chunks)| + |old(heads.chunks)|
        decreases |heads.chunks|
      {
        MoveChunk();
      }
      if heads.spine != [] {
        FirstIsThere(head, heads);
      }
      tail := null;
    }

    method FreeHeads()
      requires heads.Linked(head) && mem.Valid() && Count(heads.chunks, mem.watch) <= mem.live
      modifies this`head, this`heads, mem
      ensures mem.Valid() && heads == EMPTY && head == null
      ensures mem.live == old(mem.live) - Count(old(heads.chunks), mem.watch)
    {
      mem.FreeList(head, heads);
      head, heads := null, EMPTY;
    }

    method FreeSpares()
      requires spares.Linked(spare) && mem.Valid() && Count(spares.chunks, mem.watch) <= mem.live
      modifies this`spare, this`spares, mem
      ensures mem.Valid() && spares == EMPTY && spare == null
      ensures mem.live == old(mem.live) - Count(old(spares.chunks), mem.watch)
    {
      mem.FreeList(spare, spares);
      spare, spares := null, EMPTY;
    }

    /** Frees all chunks of the queue; chunks of the pool stay there. */
    method Free()
      requires Valid()
      modifies this, mem
      ensures Sound() && heads == EMPTY && spares == EMPTY && chunkCount == 0
    {
      FreeHeads();
      FreeSpares();
      tail := null;
      chunkCount := 0;
      assert Linked() && (pool != null ==> pool.Valid());
    }

    /** What `Peek` has shown. */
    ghost predicate Shown(buf: seq<byte>)
      requires AllOk(heads.chunks, chunkSize)
      reads this
    {
      buf != [] && buf <= Bytes() && heads.chunks != [] && buf == heads.chunks[0].View()
    }

    /** Offers what `Peek` has shown to the writer and drops what the writer has taken. */
    method PassShown(buf: seq<byte>, writer: Writer) returns (n: int, err: Code)
      requires Valid() && Shown(buf)
      modifies this, pool, mem, Foot(), writer
      ensures Sound()
      ensures writer.accepted + Bytes() == old(writer.accepted + Bytes())
      ensures n <= |buf| && |writer.accepted| == |old(writer.accepted)| + if n > 0 then n else 0
      ensures (n, err) == Answer(old(writer.script), |buf|)
      ensures writer.script == AfterReply(old(writer.script))
      ensures Sizes(heads.chunks) == Dropped(old(Sizes(heads.chunks)), if n > 0 then n else 0)
      ensures n <= 0 ==> Gauge() == old(Gauge())
    {
      ghost var taken, rest := writer.accepted, Bytes();
      n, err := writer.Write(buf);
      if n > 0 {
        Skip(n);
        Passed(taken, rest, buf, n);
      }
    }

    /** Passing has come so far: what is still to come makes up the whole. */
    ghost predicate Passing(whole: Passage, n: int, used: nat, script: seq<WriteReply>)
      reads this
    {
      n >= 0 && Continued(whole, n, used, ToPass(script))
    }

    /** What passing to a writer with these replies would do. */
    ghost function ToPass(script: seq<WriteReply>): Passage
      reads this
    {
      PassTo(Sizes(heads.chunks), script)
    }

    /** The answer to the last offer has stopped passing. */
    ghost predicate Stopped(whole: Passage, n: int, used: nat, script: seq<WriteReply>, k: int, e: Code) {
      && whole.moved == n && whole.stop.Some? && whole.used == used + (if script == [] then 0 else 1)
      && (k == 0 <==> whole.stop.value.Accept?) && (k < 0 ==> whole.Error() == e)
    }

    /** One offer: passing goes on after it, or has stopped. */
    lemma PassingStep(whole: Passage, n: int, used: nat, sizes: seq<nat>, script: seq<WriteReply>, k: int, e: Code)
      requires n >= 0 && Continued(whole, n, used, PassTo(sizes, script))
      requires sizes != [] && sizes[0] > 0 && (k, e) == Answer(script, sizes[0])
      requires k > 0 ==> Sizes(heads.chunks) == Dropped(sizes, k)
      ensures k > 0 ==> script != [] && Passing(whole, n + k, used + 1, script[1..])
      ensures k <= 0 ==> Stopped(whole, n, used, script, k, e)
    {
      PassStep(sizes, script);
    }

    lemma ShownSize(buf: seq<byte>)
      requires AllOk(heads.chunks, chunkSize) && Shown(buf)
      ensures Sizes(heads.chunks) != [] && Sizes(heads.chunks)[0] == |buf| > 0
    {
    }

    lemma PassingEnd(whole: Passage, n: int, used: nat, script: seq<WriteReply>)
      requires AllOk(heads.chunks, chunkSize) && Bytes() == [] && Passing(whole, n, used, script)
      ensures whole == Passage(n, used, None)
    {
      SizesSum(heads.chunks, chunkSize);
      DroppedSum(Sizes(heads.chunks), 0);
    }

    /** What `Peek` has shown is offered; passing goes on or stops. */
    method PassOffer(buf: seq<byte>, writer: Writer, ghost whole: Passage, ghost n: nat, ghost used: nat)
      returns (k: int, e: Code)
      requires Valid() && Shown(buf) && Passing(whole, n, used, writer.script)
      modifies this, pool, mem, Foot(), writer
      ensures Sound() && writer.accepted + Bytes() == old(writer.accepted + Bytes())
      ensures |writer.accepted| == |old(writer.accepted)| + if k > 0 then k else 0
      ensures Rest(old(writer.script), if old(writer.script) != [] then 1 else 0, writer.script)
      ensures k > 0 ==> old(writer.script) != [] && Passing(whole, n + k, used + 1, writer.script)
      ensures k <= 0 ==> Stopped(whole, n, used, old(writer.script), k, e) && Gauge() == old(Gauge())
      ensures k >= 0 ==> e == CurlOk
    {
      ghost var sizes, script := Sizes(heads.chunks), writer.script;
      ShownSize(buf);
      k, e := PassShown(buf, writer);
      PassingStep(whole, n, used, sizes, script, k, e);
    }

    /** One turn of `Pass`: what comes first is offered, if there is anything. */
    method PassTurn(writer: Writer, ghost whole: Passage, ghost n: nat, ghost used: nat)
      returns (more: bool, k: int, e: Code)
      requires Valid() && Passing(whole, n, used, writer.script)
      modifies this, pool, mem, Foot(), writer
      ensures Sound() && writer.accepted + Bytes() == old(writer.accepted + Bytes())
      ensures |writer.accepted| == |old(writer.accepted)| + if more && k > 0 then k else 0
      ensures Rest(old(writer.script), if more && old(writer.script) != [] then 1 else 0, writer.script)
      ensures !more ==> whole == Passage(n, used, None)
      ensures more && k > 0 ==> old(writer.script) != [] && Passing(whole, n + k, used + 1, writer.script)
      ensures more && k <= 0 ==> Stopped(whole, n, used, old(writer.script), k, e) && Gauge() == old(Gauge())
      ensures !more || k >= 0 ==> e == CurlOk
    {
      var buf;
      more, buf := Peek();
      k, e := 0, CurlOk;
      if more {
        k, e := PassOffer(buf, writer, whole, n, used);
      } else {
        PassingEnd(whole, n, used, writer.script);
      }
    }

    /** After some offers: passing goes on, or the last answer was `k` and `e`, where a positive `k` means that nothing
      * is left.
      */
    ghost predicate PassState(writer: Writer, all: seq<byte>, count: nat, replies: seq<WriteReply>, whole: Passage,
                              n: nat, used: nat, k: int, e: Code, more: bool)
      requires AllOk(heads.chunks, chunkSize)
      reads this, writer
    {
      && writer.accepted + Bytes() == all && |writer.accepted| == count + n
      && Rest(replies, used, writer.script) && (k >= 0 ==> e == CurlOk)
      && if more then k > 0 && Passing(whole, n, used, writer.script)
         else whole.moved == n && whole.used == used && PassEnded(whole, k, e)
    }

    ghost predicate PassEnded(whole: Passage, k: int, e: Code) {
      if k > 0 then whole.stop.None?
      else whole.stop.Some? && (k == 0 <==> whole.stop.value.Accept?) && (k < 0 ==> whole.Error() == e)
    }

    method PassRound(writer: Writer, ghost all: seq<byte>, ghost count: nat, ghost replies: seq<WriteReply>,
                     ghost whole: Passage, n: nat, ghost used: nat, ghost k: int)
      returns (n': nat, ghost used': nat, k': int, e: Code, more: bool)
      requires Valid() && PassState(writer, all, count, replies, whole, n, used, k, CurlOk, true)
      modifies this, pool, mem, Foot(), writer
      ensures Sound() && PassState(writer, all, count, replies, whole, n', used', k', e, more)
      ensures n' >= n && (more ==> n' > n && |writer.script| < |old(writer.script)|)
      ensures n' == n && k' <= 0 ==> Gauge() == old(Gauge())
    {
      ghost var script := writer.script;
      more, k', e := PassTurn(writer, whole, n, used);
      n', used' := n, used;
      if more {
        used' := used + if script == [] then 0 else 1;
        if k' > 0 {
          n' := n + k';
        } else {
          more := false;
        }
      } else {
        k' := 1;
      }
    }

    /** Offers the content to the writer, chunk by chunk, as long as the writer takes something and there is content. */
    method PassAll(writer: Writer, ghost whole: Passage) returns (n: nat, k: int, e: Code)
      requires Valid() && whole == PassTo(Sizes(heads.chunks), writer.script)
      modifies this, pool, mem, Foot(), writer
      ensures Sound() && writer.accepted + Bytes() == old(writer.accepted + Bytes())
      ensures Rest(old(writer.script), whole.used, writer.script) && (k >= 0 ==> e == CurlOk)
      ensures n == whole.moved && |writer.accepted| == |old(writer.accepted)| + n && PassEnded(whole, k, e)
      ensures n == 0 && k <= 0 ==> Gauge() == old(Gauge())
    {
      n, k, e := 0, 1, CurlOk;
      ghost var all, count, replies := writer.accepted + Bytes(), |writer.accepted|, writer.script;
      ghost var used: nat := 0;
      var more := true;
      while more
        invariant Sound() && PassState(writer, all, count, replies, whole, n, used, k, e, more)
        invariant n == 0 && (more || k <= 0) ==> Gauge() == old(Gauge())
        decreases more, |writer.script|
      {
        n, used, k, e, more := PassRound(writer, all, count, replies, whole, n, used, k);
      }
    }

    /** Passes content on until the writer blocks or fails or does not take anything, or nothing is left. */
    method Pass(writer: Writer) returns (n: int, err: Code)
      requires Valid()
      modifies this, pool, mem, Foot(), writer
      ensures Sound() && writer.accepted + Bytes() == old(writer.accepted + Bytes())
      ensures var p := PassTo(old(Sizes(heads.chunks)), old(writer.script));
        && n == p.Result() && err == p.Error() && |writer.accepted| == |old(writer.accepted)| + p.moved
        && Rest(old(writer.script), p.used, writer.script) && (p.moved == 0 && p.stop.Some? ==> Gauge() == old(Gauge()))
    {
      var k;
      n, k, err := PassAll(writer, PassTo(Sizes(heads.chunks), writer.script));
      if k < 0 {
        if n == 0 || err != CurlAgain {
          n := -1;
        }
      } else if k == 0 && n == 0 {
        n, err := -1, CurlAgain;
      }
    }

    /** Tries to make room in a full queue. */
    method PassIfFull(writer: Writer) returns (err: Code)
      requires Valid()
      modifies this, pool, mem, Foot(), writer
      ensures Sound() && writer.accepted + Bytes() == old(writer.accepted + Bytes())
      ensures !old(IsFull()) || err == CurlAgain ==> Gauge() == old(Gauge())
      ensures !old(IsFull()) ==> err == CurlOk && writer.script == old(writer.script)
      ensures if err.CurlError? then FailsWith(old(writer.script), writer.script, err)
              else NoFailure(old(writer.script), writer.script)
      ensures err == CurlAgain || (old(IsFull()) && err == CurlOk && Bytes() != []) ==>
                WriterStops(old(writer.script), writer.script)
    {
      err := CurlOk;
      if IsFull() {
        SizesSum(heads.chunks, chunkSize);
        PassVerdict(Sizes(heads.chunks), writer.script);
        var n, e := Pass(writer);
        err := if n < 0 then e else CurlOk;
      }
    }

    /** An empty queue has space. */
    lemma EmptyHasSpace()
      requires Valid() && !soft && Bytes() == []
      ensures Space() > 0
    {
      WithinLimit(this);
      assert maxChunks * chunkSize >= chunkSize;
    }

    /** Nothing more can be put into the queue. */
    ghost predicate Stuffed()
      requires AllOk(heads.chunks, chunkSize)
      reads this, tail
    {
      if soft then IsFull() else Space() == 0
    }

    /** The queue takes something in without passing anything on. */
    ghost predicate Roomy()
      requires AllOk(heads.chunks, chunkSize)
      reads this, tail
    {
      !IsFull() && (soft || Space() > 0)
    }

    lemma FullIsStuffed()
      requires Valid()
      ensures IsFull() ==> Stuffed()
      ensures !IsFull() && !soft ==> Space() > 0
    {
      FullMeansNoSpace();
    }

    /** Makes room if the queue is full, and takes in the next stretch of the input; nothing is taken in only if the
      * writer fails, or if it stops and the queue is full.
      */
    method TakeNext(buf: seq<byte>, writer: Writer) returns (n: nat, err: Code)
      requires Valid() && buf != []
      modifies this, pool, mem, Foot(), writer
      ensures Sound() && n <= |buf| && (n > 0 ==> err == CurlOk)
      ensures writer.accepted + Bytes() == old(writer.accepted + Bytes()) + buf[..n]
      ensures old(Roomy()) ==> n > 0
      ensures if err.CurlError? then FailsWith(old(writer.script), writer.script, err)
              else NoFailure(old(writer.script), writer.script)
      ensures n == 0 && !err.CurlError? ==> Stuffed() && WriterStops(old(writer.script), writer.script)
    {
      n := 0;
      FullIsStuffed();
      err := PassIfFull(writer);
      if err == CurlOk {
        n := TakeIn(buf, writer.accepted);
      }
    }

    /** Takes in what fits; nothing fits only if a hard limit leaves no space, and then there is content. */
    method TakeIn(buf: seq<byte>, ghost front: seq<byte>) returns (n: nat)
      requires Valid() && buf != []
      modifies this, pool, mem, Foot()
      ensures Sound() && n <= |buf| && front + Bytes() == front + old(Bytes()) + buf[..n]
      ensures n == 0 <==> !soft && old(Space()) == 0
      ensures n == 0 ==> Stuffed() && Bytes() != [] && Bytes() == old(Bytes())
    {
      ghost var bytes := Bytes();
      var k, e := Write(buf);
      n := if k >= 0 then k else 0;
      Assoc(front, bytes, buf[..n]);
      if n == 0 && Bytes() == [] {
        EmptyHasSpace();
      }
    }

    /** What the writer has accepted and what is left are what there was and a first part of the input. */
    ghost predicate Taken(all: seq<byte>, buf: seq<byte>, taken: nat, writer: Writer)
      requires AllOk(heads.chunks, chunkSize)
      reads this, writer
    {
      taken <= |buf| && writer.accepted + Bytes() == all + buf[..taken]
    }

    /** One turn of `WritePass`. */
    method TakeTurn(buf: seq<byte>, taken: nat, writer: Writer, ghost all: seq<byte>, ghost replies: seq<WriteReply>)
      returns (k: nat, failed: Code)
      requires Valid() && Taken(all, buf, taken, writer) && taken < |buf| && NoFailure(replies, writer.script)
      modifies this, pool, mem, Foot(), writer
      ensures Sound() && Taken(all, buf, taken + k, writer) && (k > 0 ==> failed == CurlOk)
      ensures old(Roomy()) ==> k > 0
      ensures if failed.CurlError? then FailsWith(replies, writer.script, failed) else NoFailure(replies, writer.script)
      ensures k == 0 && !failed.CurlError? ==> Stuffed() && WriterStops(replies, writer.script)
    {
      ghost var script := writer.script;
      k, failed := TakeNext(buf[taken..], writer);
      Rejoined(all, buf, taken, k);
      WriterGoesOn(replies, script, writer.script, failed);
    }

    /** Passes buffered bytes on when the queue is full, then buffers what it can, until nothing more fits. `taken`
      * counts the bytes of `buf` that were taken in, also when the call fails. It stops short only if the writer fails,
      * which is then the result, or if it stops and the queue is full.
      */
    method WritePass(buf: seq<byte>, writer: Writer) returns (n: int, err: Code, taken: nat)
      requires Valid()
      modifies this, pool, mem, Foot(), writer
      ensures Sound() && Taken(old(writer.accepted + Bytes()), buf, taken, writer)
      ensures if n >= 0 then err == CurlOk && n == taken else n == -1 && err != CurlOk
      ensures n < 0 && err == CurlAgain ==> taken == 0 && buf != []
      ensures buf != [] && old(Roomy()) ==> taken > 0
      ensures if err.CurlError? then FailsWith(old(writer.script), writer.script, err)
              else NoFailure(old(writer.script), writer.script)
      ensures taken < |buf| && !err.CurlError? ==> Stuffed() && WriterStops(old(writer.script), writer.script)
    {
      taken, err := TakeAll(buf, writer);
      if err.CurlError? {
        n := -1;
      } else if taken == 0 && buf != [] {
        n, err := -1, CurlAgain;
      } else {
        n, err := taken, CurlOk;
      }
    }

    /** The loop of `WritePass`. */
    method TakeAll(buf: seq<byte>, writer: Writer) returns (taken: nat, failed: Code)
      requires Valid()
      modifies this, pool, mem, Foot(), writer
      ensures Sound() && Taken(old(writer.accepted + Bytes()), buf, taken, writer)
      ensures buf != [] && old(Roomy()) ==> taken > 0
      ensures if failed.CurlError? then FailsWith(old(writer.script), writer.script, failed)
              else NoFailure(old(writer.script), writer.script)
      ensures taken < |buf| && !failed.CurlError? ==> Stuffed() && WriterStops(old(writer.script), writer.script)
    {
      ghost var all, replies := writer.accepted + Bytes(), writer.script;
      NothingMore(all);
      WriterStarts(replies);
      taken, failed := 0, CurlOk;
      var more := true;
      while more && taken < |buf|
        invariant Sound() && Taken(all, buf, taken, writer)
        invariant taken == 0 && more ==> Roomy() == old(Roomy())
        invariant taken == 0 && !more ==> !old(Roomy())
        invariant if failed.CurlError? then FailsWith(replies, writer.script, failed)
                  else NoFailure(replies, writer.script)
        invariant more ==> failed == CurlOk
        invariant !more && !failed.CurlError? ==> Stuffed() && WriterStops(replies, writer.script)
        decreases more, |buf| - taken
      {
        var k;
        k, failed := TakeTurn(buf, taken, writer, all, replies);
        taken, more := taken + k, k > 0;
      }
    }

    /** How much a reader is asked for. */
    function Asked(room: nat, maxLen: nat): nat {
      if maxLen > 0 then Min(room, maxLen) else room
    }

    /** `chunk_slurpn`: reads once into the last chunk. */
    method SlurpTail(maxLen: nat, reader: Reader) returns (n: int, err: Code)
      requires Valid() && heads.chunks != [] && !Last(heads.chunks).IsFull()
      modifies this`heads, heads.nodes, reader
      ensures Valid() && heads.nodes == old(heads.nodes) && Held() == old(Held())
      ensures Delivered(reader, old(reader.delivered), old(Bytes()))
      ensures (n, err) == Reply(old(reader.script), Asked(old(TailRoom(heads.chunks, chunkSize)), maxLen))
      ensures |reader.delivered| == |old(reader.delivered)| + if n >= 0 then n else 0
      ensures reader.script == AfterReply(old(reader.script))
    {
      TailIsLast();
      ghost var before, bytes := reader.delivered, Bytes();
      var room := |tail.data| - tail.w;
      var buf;
      buf, n, err := reader.Read(Asked(room, maxLen));
      if n >= 0 {
        AppendAll(buf);
      } else {
        NothingMore(bytes);
      }
      DeliveredBy(reader, before, bytes, buf);
    }

    /** Appends bytes for which the last chunk has room. */
    method AppendAll(buf: seq<byte>)
      requires Valid() && heads.chunks != [] && |buf| <= TailRoom(heads.chunks, chunkSize)
      modifies this`heads, heads.nodes
      ensures Valid() && Bytes() == old(Bytes()) + buf && heads.nodes == old(heads.nodes) && Held() == old(Held())
    {
      var k := AppendTail(buf);
      Whole(buf);
    }

    lemma TailIsLast()
      requires Valid() && heads.chunks != []
      ensures tail != null && |tail.data| - tail.w == TailRoom(heads.chunks, chunkSize)
    {
      Ends();
    }

    lemma DeliveredBy(reader: Reader, before: seq<byte>, bytes: seq<byte>, buf: seq<byte>)
      requires AllOk(heads.chunks, chunkSize) && reader.delivered == before + buf && Bytes() == bytes + buf
      ensures Delivered(reader, before, bytes)
    {
      assert (before + buf)[|before|..] == buf;
    }

    /** Reads once into a chunk with room, if there is one. */
    method Sipn(maxLen: nat, reader: Reader) returns (n: int, err: Code)
      requires Valid()
      modifies this, pool, mem, Foot(), reader
      ensures Sound()
      ensures Delivered(reader, old(reader.delivered), old(Bytes()))
      ensures |reader.delivered| == |old(reader.delivered)| + if n >= 0 then n else 0
      ensures if !soft && old(Space()) == 0 then
                (n, err) == (-1, CurlAgain) && reader.script == old(reader.script) && Space() == 0
              else
                && (n, err) == Reply(old(reader.script), Asked(Room(old(TailRoom(heads.chunks, chunkSize))), maxLen))
                && reader.script == AfterReply(old(reader.script))
    {
      var c := GetNonFullTail();
      if c == null {
        return -1, CurlAgain;
      }
      n, err := SlurpTail(maxLen, reader);
    }

    /** The reader's deliveries since `before` are what has been added to the `bytes`. */
    ghost predicate Delivered(reader: Reader, before: seq<byte>, bytes: seq<byte>)
      requires AllOk(heads.chunks, chunkSize)
      reads this, reader
    {
      before <= reader.delivered && Bytes() == bytes + reader.delivered[|before|..]
    }

    lemma DeliveredAlso(reader: Reader, before: seq<byte>, bytes: seq<byte>, mid: seq<byte>, midBytes: seq<byte>)
      requires AllOk(heads.chunks, chunkSize) && before <= mid && midBytes == bytes + mid[|before|..]
      requires Delivered(reader, mid, midBytes)
      ensures Delivered(reader, before, bytes)
    {
      var all := reader.delivered;
      assert bytes + mid[|before|..] + all[|mid|..] == bytes + all[|before|..];
    }

    /** Why reading has stopped without a failure: it has delivered as much as was asked for, it stops, or it has
      * delivered less than there was room for, or a hard limit leaves no space.
      */
    ghost predicate SlurpEnds(maxLen: nat, count: nat, replies: seq<ReadReply>, left: seq<ReadReply>)
      requires AllOk(heads.chunks, chunkSize)
      reads this
    {
      || (maxLen > 0 && count == maxLen) || ReaderStops(replies, left)
      || (heads.chunks != [] && !Last(heads.chunks).IsFull()) || (!soft && Space() == 0)
    }

    /** One read of `Slurpn`, after `count` bytes. */
    method SlurpOnce(left: nat, reader: Reader, ghost before: seq<byte>, ghost bytes: seq<byte>,
                     ghost replies: seq<ReadReply>)
      returns (k: int, e: Code)
      requires Valid() && Delivered(reader, before, bytes) && NoReadFailure(replies, reader.script)
      modifies this, pool, mem, Foot(), reader
      ensures Sound() && Delivered(reader, before, bytes) && (left > 0 ==> k <= left)
      ensures |reader.delivered| == |old(reader.delivered)| + if k > 0 then k else 0
      ensures if k >= 0 then e == CurlOk else k == -1 && e != CurlOk
      ensures if e.CurlError? then ReadFailsWith(replies, reader.script, e) else NoReadFailure(replies, reader.script)
      ensures !e.CurlError? && k <= 0 ==> ReaderStops(replies, reader.script) || (!soft && Space() == 0)
      ensures k > 0 ==> |reader.script| < |old(reader.script)|
      ensures (soft || old(Space()) > 0) && Offers(old(reader.script)) ==> k > 0
    {
      ghost var mid, midBytes, script := reader.delivered, Bytes(), reader.script;
      ghost var asked, full := Asked(Room(TailRoom(heads.chunks, chunkSize)), left), !soft && Space() == 0;
      k, e := Sipn(left, reader);
      DeliveredAlso(reader, before, bytes, mid, midBytes);
      if full {
        NothingRead(script);
      } else {
        ReplyVerdict(script, asked, k, e);
      }
      ReaderGoesOn(replies, script, reader.script, e);
    }

    /** Reads until the reader blocks, ends or delivers less than was asked for, or the queue is full. */
    method Slurpn(maxLen: nat, reader: Reader) returns (n: int, err: Code)
      requires Valid()
      modifies this, pool, mem, Foot(), reader
      ensures Sound()
      ensures Delivered(reader, old(reader.delivered), old(Bytes()))
      ensures n >= 0 ==> |reader.delivered| == |old(reader.delivered)| + n && (maxLen > 0 ==> n <= maxLen)
      ensures n >= 0 <==> err == CurlOk
      ensures n < 0 ==> n == -1
      ensures n < 0 && err == CurlAgain ==> reader.delivered == old(reader.delivered)
      ensures if err.CurlError? then ReadFailsWith(old(reader.script), reader.script, err)
              else NoReadFailure(old(reader.script), reader.script)
      ensures !err.CurlError? ==>
        SlurpEnds(maxLen, |reader.delivered| - |old(reader.delivered)|, old(reader.script), reader.script)
      ensures (soft || old(Space()) > 0) && Offers(old(reader.script)) ==>
        |reader.delivered| > |old(reader.delivered)|
    {
      ghost var before, bytes, replies := reader.delivered, Bytes(), reader.script;
      NothingRead(replies);
      var left := maxLen;
      var more := true;
      n, err := 0, CurlOk;
      while more
        invariant Sound() && Delivered(reader, before, bytes)
        invariant if more then Slurping(n, left, maxLen, before, replies, reader) && err == CurlOk
                  else Slurped(n, err, maxLen, |reader.delivered| - |before|, replies, reader.script)
        invariant if n == 0 && more then Space() == old(Space()) && reader.script == replies
                  else (soft || old(Space()) > 0) && Offers(replies) ==> |reader.delivered| > |before|
        decreases more, |reader.script|
      {
        n, err, left, more := SlurpRound(n, left, maxLen, reader, before, bytes, replies);
      }
    }

    /** Reading goes on: `n` bytes have been read, and `left` may still be unless there is no limit. */
    ghost predicate Slurping(n: int, left: nat, maxLen: nat, before: seq<byte>, replies: seq<ReadReply>, reader: Reader)
      reads reader
    {
      && n == |reader.delivered| - |before| && NoReadFailure(replies, reader.script)
      && if maxLen > 0 then n < maxLen && left == maxLen - n else left == 0
    }

    /** Reading has stopped after `count` bytes. */
    ghost predicate Slurped(n: int, err: Code, maxLen: nat, count: int, replies: seq<ReadReply>, script: seq<ReadReply>)
      requires AllOk(heads.chunks, chunkSize)
      reads this
    {
      && (if n >= 0 then n == count && (maxLen > 0 ==> n <= maxLen) && err == CurlOk else n == -1 && err != CurlOk)
      && (n < 0 && err == CurlAgain ==> count == 0)
      && if err.CurlError? then ReadFailsWith(replies, script, err)
         else count >= 0 && NoReadFailure(replies, script) && SlurpEnds(maxLen, count, replies, script)
    }

    /** One round of `Slurpn`. */
    method SlurpRound(n: nat, left: nat, maxLen: nat, reader: Reader, ghost before: seq<byte>, ghost bytes: seq<byte>,
                      ghost replies: seq<ReadReply>)
      returns (n': int, err: Code, left': nat, more: bool)
      requires Valid() && Delivered(reader, before, bytes) && Slurping(n, left, maxLen, before, replies, reader)
      modifies this, pool, mem, Foot(), reader
      ensures Sound() && Delivered(reader, before, bytes) && |reader.delivered| >= |old(reader.delivered)|
      ensures if more then
                && Slurping(n', left', maxLen, before, replies, reader) && err == CurlOk && n' > n
                && |reader.script| < |old(reader.script)|
              else Slurped(n', err, maxLen, |reader.delivered| - |before|, replies, reader.script)
      ensures (soft || old(Space()) > 0) && Offers(old(reader.script)) ==> |reader.delivered| > |old(reader.delivered)|
    {
      n', left', more := n, left, false;
      var k;
      k, err := SlurpOnce(left, reader, before, bytes, replies);
      if k < 0 {
        if n == 0 || err != CurlAgain {
          n' := -1;
        } else {
          err := CurlOk;
        }
      } else if k > 0 {
        n' := n + k;
        if left > 0 {
          left' := left - k;
        }
        Ends();
        more := (left == 0 || left' > 0) && (tail == null || tail.View().IsFull());
      }
    }
  }

  /** The bytes of the first chunk that have been read. */
  function ReadOfFirst(cs: seq<Chunk>): nat {
    if cs == [] then 0 else cs[0].r
  }

  /** A list holds the unread bytes, the room at its end, and what has been read of its first chunk. */
  lemma {:induction false} ContentExact(cs: seq<Chunk>, size: nat)
    requires AllOk(cs, size) && Filled(cs)
    ensures |Content(cs, size)| + TailRoom(cs, size) + ReadOfFirst(cs) == Capacity(|cs|, size)
  {
    if |cs| > 1 {
      assert cs[1..][|cs| - 2] == cs[|cs| - 1];
      ContentExact(cs[1..], size);
    } else if |cs| == 1 {
      assert Content(cs[1..], size) == [];
      assert Capacity(1, size) == size + Capacity(0, size);
    }
  }

  lemma {:induction false} CapacityAdds(m: nat, n: nat, size: nat)
    ensures Capacity(m + n, size) == Capacity(m, size) + Capacity(n, size)
  {
    if m > 0 {
      CapacityAdds(m - 1, n, size);
    }
  }

  /** Under a hard limit the unread bytes, the space, and what has been read of the first chunk are together exactly
    * what `maxChunks` chunks hold; so less than a chunk is lost to bytes that have been read.
    */
  lemma WithinLimit(q: Queue)
    requires q.Valid() && !q.soft
    ensures |q.Bytes()| + q.Space() + ReadOfFirst(q.heads.chunks) == q.maxChunks * q.chunkSize
    ensures ReadOfFirst(q.heads.chunks) < q.chunkSize
  {
    ContentExact(q.heads.chunks, q.chunkSize);
    CapacityAdds(|q.heads.chunks|, |q.spares.chunks|, q.chunkSize);
    CapacityAdds(q.chunkCount, q.maxChunks - q.chunkCount, q.chunkSize);
    CapacityIsProduct(q.maxChunks, q.chunkSize);
  }

  // ---------------------------------------------------------------------------------------------------------
  // Several queues on one pool
  // ---------------------------------------------------------------------------------------------------------

  /** Only the chunks of the queue itself, without those of its pool. */
  ghost function Own(q: Queue): nat
    reads q
  {
    Count(q.heads.chunks, q.mem.watch) + Count(q.spares.chunks, q.mem.watch)
  }

  /** Two queues on one pool have no chunk in common; `others` live chunks belong to neither of them nor to the pool. */
  ghost predicate Share(a: Queue, b: Queue, others: nat)
    reads a, b, a.mem, b.mem, a.pool, b.pool, a.Foot(), b.Foot()
  {
    && a != b && a.Valid() && b.Valid() && a.mem == b.mem && a.pool == b.pool
    && (a.heads.nodes + a.spares.nodes) !! (b.heads.nodes + b.spares.nodes)
    && a.mem.live == a.Held() + Own(b) + others
  }

  /** The chunks of the two queues and their pool were theirs before, or are new. */
  twostate predicate Renewed(a: Queue, b: Queue)
    reads a, b, a.pool, b.pool
  {
    && (forall n :: n in a.Foot() ==> n in old(a.Foot()) || n in old(b.Foot()) || fresh(n))
    && (forall n :: n in b.Foot() ==> n in old(a.Foot()) || n in old(b.Foot()) || fresh(n))
  }

  /** What a queue allows. */
  datatype Limits = Limits(soft: bool, maxChunks: nat, chunkSize: nat) {
    /** The least and the most that a queue with a hard limit may take in, if it holds the given number of bytes. */
    function Least(held: nat): nat {
      var all := maxChunks * chunkSize;
      if held + chunkSize <= all then all - held - chunkSize + 1 else 0
    }

    function Most(held: nat): nat {
      var all := maxChunks * chunkSize;
      if held <= all then all - held else 0
    }
  }

  ghost function LimitsOf(q: Queue): Limits {
    Limits(q.soft, q.maxChunks, q.chunkSize)
  }

  datatype Operation =
    | DoWrite(buf: seq<byte>)
    | DoRead(len: nat)
    | DoSkip(amount: nat)
    | DoPeek
    | DoReset
    | DoFree
    | DoPass(replies: seq<WriteReply>)
    | DoWritePass(buf: seq<byte>, replies: seq<WriteReply>)
    | DoSipn(maxLen: nat, deliveries: seq<ReadReply>)
    | DoSlurp(maxLen: nat, deliveries: seq<ReadReply>)

  /** What an operation returns, and what its reader delivered or its writer accepted. For a write `taken` counts the
    * bytes that the queue has taken in.
    */
  datatype Outcome = Outcome(n: int, err: Code, bytes: seq<byte>, taken: nat, left: nat)

  function Front(s: seq<byte>, n: nat): seq<byte> {
    s[..Min(n, |s|)]
  }

  /** What the operation has put into the queue. */
  function Came(op: Operation, o: Outcome): seq<byte> {
    match op
    case DoWrite(buf) => Front(buf, o.taken)
    case DoWritePass(buf, _) => Front(buf, o.taken)
    case DoSipn(_, _) => o.bytes
    case DoSlurp(_, _) => o.bytes
    case _ => []
  }

  /** What the operation has taken out of a queue with the given content. */
  function Went(op: Operation, o: Outcome, bytes: seq<byte>): seq<byte> {
    match op
    case DoRead(len) => Front(bytes, len)
    case DoSkip(amount) => Front(bytes, amount)
    case DoReset => bytes
    case DoFree => bytes
    case DoPass(_) => o.bytes
    case DoWritePass(_, _) => o.bytes
    case _ => []
  }

  /** The content afterwards: what comes in is put behind the content, and what goes out is taken from its front. */
  function After(op: Operation, o: Outcome, bytes: seq<byte>): seq<byte> {
    var all := bytes + Came(op, o);
    all[Min(|Went(op, o, bytes)|, |all|)..]
  }

  /** Passing has gone on while the writer took something: all replies used but the last one did, and if the last one
    * did as well then nothing is left, or there were no further replies. A failure is never lost.
    */
  ghost predicate PassedRightly(replies: seq<WriteReply>, used: nat, o: Outcome, emptied: bool)
    requires used <= |replies|
  {
    && (forall i :: 0 <= i < used - 1 ==> Willing(replies[i]))
    && if used > 0 && !Willing(replies[used - 1]) then
         && !emptied && used - 1 <= |o.bytes|
         && match replies[used - 1]
            case WriteFail(code) => o.n == -1 && o.err == CurlError(code)
            case _ => o.n == (if |o.bytes| == 0 then -1 else |o.bytes|) && (o.n < 0 ==> o.err == CurlAgain)
       else
         && used <= |o.bytes|
         && if emptied then o.n == |o.bytes| && o.err == CurlOk
            else used == |replies| && o.err == CurlAgain && o.n == if |o.bytes| == 0 then -1 else |o.bytes|
  }

  /** So a writer that takes something on every offer, and has a reply for every byte, gets everything. */
  lemma WillingWriterGetsAll(l: Limits, replies: seq<WriteReply>, o: Outcome, bytes: seq<byte>)
    requires Answers(l, DoPass(replies), o, bytes)
    requires |replies| >= |bytes| && forall i :: 0 <= i < |replies| ==> Willing(replies[i])
    ensures o.bytes == bytes && o.n == |bytes| && After(DoPass(replies), o, bytes) == []
  {
    assert bytes + [] == bytes;
    assert |o.bytes| == |bytes| ==> o.bytes == bytes;
  }

  /** A failure of the reader, and nothing else, is returned as one. */
  ghost predicate ReadRightly(replies: seq<ReadReply>, o: Outcome) {
    && o.left <= |replies|
    && var left := replies[|replies| - o.left..];
    if o.err.CurlError? then ReadFailsWith(replies, left, o.err) else NoReadFailure(replies, left)
  }

  /** The outcome is a right answer to the operation on a queue with the given content. */
  ghost predicate Answers(l: Limits, op: Operation, o: Outcome, bytes: seq<byte>) {
    Went(op, o, bytes) <= bytes + Came(op, o) &&
    match op
    case DoWrite(buf) =>
      && o.taken <= |buf| && o.n == (if o.taken == 0 && buf != [] then -1 else o.taken)
      && o.err == (if o.n < 0 then CurlAgain else CurlOk)
      && (if l.soft then o.taken == |buf|
          else Min(|buf|, l.Least(|bytes|)) <= o.taken <= Min(|buf|, l.Most(|bytes|)))
    case DoRead(len) => o.bytes == Front(bytes, len) && o.err == (if o.bytes == [] then CurlAgain else CurlOk)
    case DoPeek => o.bytes <= bytes && (o.bytes == [] <==> bytes == [])
    case DoPass(replies) => o.left <= |replies| && PassedRightly(replies, |replies| - o.left, o, o.bytes == bytes)
    case DoWritePass(buf, replies) =>
      && o.taken <= |buf| && (if o.n >= 0 then o.n == o.taken && o.err == CurlOk else o.n == -1 && o.err != CurlOk)
      && (buf != [] && !l.soft && l.Least(|bytes|) > 0 ==> o.taken > 0) && o.left <= |replies|
      && var left := replies[|replies| - o.left..];
      && (if o.err.CurlError? then FailsWith(replies, left, o.err) else NoFailure(replies, left))
      && (o.taken < |buf| && !o.err.CurlError? ==>
            WriterStops(replies, left) && (l.soft || l.Least(|After(op, o, bytes)|) == 0))
    case DoSipn(maxLen, deliveries) =>
      && (if o.n >= 0 then o.n == |o.bytes| && o.err == CurlOk else o.n == -1 && o.err != CurlOk && o.bytes == [])
      && (maxLen > 0 && o.n >= 0 ==> o.n <= maxLen)
      && ((l.soft || l.Least(|bytes|) > 0) && Offers(deliveries) ==> o.bytes != []) && ReadRightly(deliveries, o)
    case DoSlurp(maxLen, deliveries) =>
      && (if o.n >= 0 then o.n == |o.bytes| && o.err == CurlOk else o.n == -1 && o.err != CurlOk)
      && (maxLen > 0 && o.n >= 0 ==> o.n <= maxLen)
      && ((l.soft || l.Least(|bytes|) > 0) && Offers(deliveries) ==> o.bytes != []) && ReadRightly(deliveries, o)
    case _ => true
  }

  /** The space of a queue lies between the bounds. */
  lemma SpaceBounds(q: Queue)
    requires q.Valid() && !q.soft
    ensures LimitsOf(q).Least(|q.Bytes()|) <= q.Space() <= LimitsOf(q).Most(|q.Bytes()|)
  {
    WithinLimit(q);
  }

  /** Where the limits promise space there is some. */
  lemma LeastIsThere(q: Queue)
    requires q.Valid()
    ensures q.soft || LimitsOf(q).Least(|q.Bytes()|) > 0 ==> q.soft || q.Space() > 0
    ensures !q.soft && LimitsOf(q).Least(|q.Bytes()|) > 0 ==> !q.IsFull()
  {
    if !q.soft {
      SpaceBounds(q);
      q.FullMeansNoSpace();
    }
  }

  lemma StuffedMeansLeast(q: Queue)
    requires q.Valid()
    ensures q.Stuffed() ==> q.soft || LimitsOf(q).Least(|q.Bytes()|) == 0
  {
    if !q.soft {
      SpaceBounds(q);
    }
  }

  method PerformWrite(q: Queue, buf: seq<byte>) returns (o: Outcome)
    requires q.Valid()
    modifies q, q.pool, q.mem, q.Foot()
    ensures q.Sound() && Answers(LimitsOf(q), DoWrite(buf), o, old(q.Bytes()))
    ensures q.Bytes() == After(DoWrite(buf), o, old(q.Bytes()))
    ensures o.taken == if q.soft then |buf| else Min(|buf|, old(q.Space()))
  {
    if !q.soft {
      SpaceBounds(q);
    }
    var n, err := q.Write(buf);
    o := Outcome(n, err, [], if n < 0 then 0 else n, 0);
  }

  method PerformRead(q: Queue, len: nat) returns (o: Outcome)
    requires q.Valid()
    modifies q, q.pool, q.mem, q.Foot()
    ensures q.Sound() && Answers(LimitsOf(q), DoRead(len), o, old(q.Bytes()))
    ensures q.Bytes() == After(DoRead(len), o, old(q.Bytes()))
  {
    var bytes, err := q.Read(len);
    o := Outcome(|bytes|, err, bytes, 0, 0);
  }

  method PerformPeek(q: Queue) returns (o: Outcome)
    requires q.Valid()
    modifies q, q.pool, q.mem, q.Foot()
    ensures q.Sound() && Answers(LimitsOf(q), DoPeek, o, old(q.Bytes()))
    ensures q.Bytes() == After(DoPeek, o, old(q.Bytes()))
  {
    var ok, bytes := q.Peek();
    o := Outcome(|bytes|, CurlOk, bytes, 0, 0);
  }

  /** Operations that only take something out. */
  method PerformOut(q: Queue, op: Operation) returns (o: Outcome)
    requires q.Valid() && (op.DoRead? || op.DoSkip? || op.DoPeek? || op.DoReset? || op.DoFree?)
    modifies q, q.pool, q.mem, q.Foot()
    ensures q.Sound() && Answers(LimitsOf(q), op, o, old(q.Bytes())) && q.Bytes() == After(op, o, old(q.Bytes()))
  {
    o := Outcome(0, CurlOk, [], 0, 0);
    match op
    case DoRead(len) => o := PerformRead(q, len);
    case DoSkip(amount) => q.Skip(amount);
    case DoPeek => o := PerformPeek(q);
    case DoReset => q.Reset();
    case DoFree => q.Free();
  }

  /** If what has gone out and what is left are together all there was, then what is left is the rest of it. */
  lemma Cut(all: seq<byte>, went: seq<byte>, rest: seq<byte>)
    requires went + rest == all
    ensures went <= all && rest == all[Min(|went|, |all|)..]
  {
    assert all[|went|..] == rest;
  }

  lemma PassAnswers(l: Limits, replies: seq<WriteReply>, o: Outcome, bytes: seq<byte>, rest: seq<byte>, sizes: seq<nat>)
    requires o.bytes + rest == [] + bytes && AllPositive(sizes) && Sum(sizes) == |bytes|
    requires var p := PassTo(sizes, replies);
      o.n == p.Result() && o.err == p.Error() && |o.bytes| == p.moved && o.left == |replies| - p.used
    ensures Answers(l, DoPass(replies), o, bytes) && rest == After(DoPass(replies), o, bytes)
  {
    PassRight(sizes, replies, o);
    assert [] + bytes == bytes + [];
    Cut(bytes + [], o.bytes, rest);
    WholePrefix(bytes, o.bytes, rest);
  }

  lemma PassRight(sizes: seq<nat>, replies: seq<WriteReply>, o: Outcome)
    requires AllPositive(sizes)
    requires var p := PassTo(sizes, replies); o.n == p.Result() && o.err == p.Error() && |o.bytes| == p.moved
    ensures PassedRightly(replies, PassTo(sizes, replies).used, o, |o.bytes| == Sum(sizes))
  {
    PassGoesOn(sizes, replies);
  }

  lemma WholePrefix(all: seq<byte>, front: seq<byte>, rest: seq<byte>)
    requires front + rest == [] + all
    ensures front == all <==> |front| == |all|
  {
    assert |front| == |all| ==> front + [] == front && rest == [];
  }

  lemma WritePassAnswers(l: Limits, buf: seq<byte>, replies: seq<WriteReply>, left: seq<WriteReply>, o: Outcome,
                         bytes: seq<byte>, rest: seq<byte>)
    requires o.taken <= |buf| && o.bytes + rest == [] + bytes + buf[..o.taken]
    requires if o.n >= 0 then o.n == o.taken && o.err == CurlOk else o.n == -1 && o.err != CurlOk
    requires buf != [] && !l.soft && l.Least(|bytes|) > 0 ==> o.taken > 0
    requires o.left == |left| && Left(replies, left)
    requires
      && (if o.err.CurlError? then FailsWith(replies, left, o.err) else NoFailure(replies, left))
      && (o.taken < |buf| && !o.err.CurlError? ==> WriterStops(replies, left) && (l.soft || l.Least(|rest|) == 0))
    ensures var op := DoWritePass(buf, replies); Answers(l, op, o, bytes) && rest == After(op, o, bytes)
  {
    assert [] + bytes == bytes;
    Cut(bytes + buf[..o.taken], o.bytes, rest);
  }

  method PerformPass(q: Queue, replies: seq<WriteReply>) returns (o: Outcome)
    requires q.Valid()
    modifies q, q.pool, q.mem, q.Foot()
    ensures q.Sound() && Answers(LimitsOf(q), DoPass(replies), o, old(q.Bytes()))
    ensures q.Bytes() == After(DoPass(replies), o, old(q.Bytes()))
  {
    ghost var bytes, sizes := q.Bytes(), Sizes(q.heads.chunks);
    SizesSum(q.heads.chunks, q.chunkSize);
    var writer := new Writer(replies);
    var n, err := q.Pass(writer);
    o := Outcome(n, err, writer.accepted, 0, |writer.script|);
    PassAnswers(LimitsOf(q), replies, o, bytes, q.Bytes(), sizes);
  }

  /** What `WritePass` does with a writer of its own. */
  method CallWritePass(q: Queue, buf: seq<byte>, replies: seq<WriteReply>)
    returns (o: Outcome, ghost left: seq<WriteReply>)
    requires q.Valid()
    modifies q, q.pool, q.mem, q.Foot()
    ensures q.Sound() && o.taken <= |buf| && o.bytes + q.Bytes() == [] + old(q.Bytes()) + buf[..o.taken]
    ensures if o.n >= 0 then o.n == o.taken && o.err == CurlOk else o.n == -1 && o.err != CurlOk
    ensures buf != [] && !q.soft && LimitsOf(q).Least(|old(q.Bytes())|) > 0 ==> o.taken > 0
    ensures o.left == |left| && Left(replies, left)
    ensures if o.err.CurlError? then FailsWith(replies, left, o.err) else NoFailure(replies, left)
    ensures o.taken < |buf| && !o.err.CurlError? ==>
      WriterStops(replies, left) && (q.soft || LimitsOf(q).Least(|q.Bytes()|) == 0)
  {
    LeastIsThere(q);
    var writer := new Writer(replies);
    var n, err, taken := q.WritePass(buf, writer);
    o, left := Outcome(n, err, writer.accepted, taken, |writer.script|), writer.script;
    StuffedMeansLeast(q);
  }

  method PerformWritePass(q: Queue, buf: seq<byte>, replies: seq<WriteReply>) returns (o: Outcome)
    requires q.Valid()
    modifies q, q.pool, q.mem, q.Foot()
    ensures q.Sound() && Answers(LimitsOf(q), DoWritePass(buf, replies), o, old(q.Bytes()))
    ensures q.Bytes() == After(DoWritePass(buf, replies), o, old(q.Bytes()))
  {
    ghost var bytes, left := q.Bytes(), [];
    o, left := CallWritePass(q, buf, replies);
    WritePassAnswers(LimitsOf(q), buf, replies, left, o, bytes, q.Bytes());
  }

  lemma SipnAnswers(l: Limits, maxLen: nat, deliveries: seq<ReadReply>, left: seq<ReadReply>, o: Outcome,
                    bytes: seq<byte>, rest: seq<byte>)
    requires rest == bytes + o.bytes && ReadBy(l, maxLen, deliveries, left, o, bytes)
    requires o.n < 0 ==> o.bytes == []
    ensures var op := DoSipn(maxLen, deliveries); Answers(l, op, o, bytes) && rest == After(op, o, bytes)
  {
  }

  lemma SlurpAnswers(l: Limits, maxLen: nat, deliveries: seq<ReadReply>, left: seq<ReadReply>, o: Outcome,
                     bytes: seq<byte>, rest: seq<byte>)
    requires rest == bytes + o.bytes && ReadBy(l, maxLen, deliveries, left, o, bytes)
    ensures var op := DoSlurp(maxLen, deliveries); Answers(l, op, o, bytes) && rest == After(op, o, bytes)
  {
  }

  /** What a read has to do with the replies of its reader, of which some are left. */
  ghost predicate ReadBy(l: Limits, maxLen: nat, deliveries: seq<ReadReply>, left: seq<ReadReply>, o: Outcome,
                         bytes: seq<byte>) {
    && o.left == |left| && Left(deliveries, left)
    && (if o.n >= 0 then o.n == |o.bytes| && o.err == CurlOk else o.n == -1 && o.err != CurlOk)
    && (maxLen > 0 && o.n >= 0 ==> o.n <= maxLen)
    && ((l.soft || l.Least(|bytes|) > 0) && Offers(deliveries) ==> o.bytes != [])
    && if o.err.CurlError? then ReadFailsWith(deliveries, left, o.err) else NoReadFailure(deliveries, left)
  }

  method CallSipn(q: Queue, maxLen: nat, deliveries: seq<ReadReply>) returns (o: Outcome, ghost left: seq<ReadReply>)
    requires q.Valid()
    modifies q, q.pool, q.mem, q.Foot()
    ensures q.Sound() && q.Bytes() == old(q.Bytes()) + o.bytes && (o.n < 0 ==> o.bytes == [])
    ensures ReadBy(LimitsOf(q), maxLen, deliveries, left, o, old(q.Bytes()))
  {
    LeastIsThere(q);
    ghost var asked := q.Asked(q.Room(TailRoom(q.heads.chunks, q.chunkSize)), maxLen);
    var reader := new Reader(deliveries);
    NothingRead(deliveries);
    ghost var full := !q.soft && q.Space() == 0;
    var n, err := q.Sipn(maxLen, reader);
    if !full {
      ReplyVerdict(deliveries, asked, n, err);
    }
    Whole(reader.delivered);
    o, left := Outcome(n, err, reader.delivered, 0, |reader.script|), reader.script;
  }

  method PerformSipn(q: Queue, maxLen: nat, deliveries: seq<ReadReply>) returns (o: Outcome)
    requires q.Valid()
    modifies q, q.pool, q.mem, q.Foot()
    ensures q.Sound() && Answers(LimitsOf(q), DoSipn(maxLen, deliveries), o, old(q.Bytes()))
    ensures q.Bytes() == After(DoSipn(maxLen, deliveries), o, old(q.Bytes()))
  {
    ghost var bytes, left := q.Bytes(), [];
    o, left := CallSipn(q, maxLen, deliveries);
    SipnAnswers(LimitsOf(q), maxLen, deliveries, left, o, bytes, q.Bytes());
  }

  method CallSlurp(q: Queue, maxLen: nat, deliveries: seq<ReadReply>) returns (o: Outcome, ghost left: seq<ReadReply>)
    requires q.Valid()
    modifies q, q.pool, q.mem, q.Foot()
    ensures q.Sound() && q.Bytes() == old(q.Bytes()) + o.bytes
    ensures ReadBy(LimitsOf(q), maxLen, deliveries, left, o, old(q.Bytes()))
  {
    LeastIsThere(q);
    var reader := new Reader(deliveries);
    var n, err := q.Slurpn(maxLen, reader);
    Whole(reader.delivered);
    o, left := Outcome(n, err, reader.delivered, 0, |reader.script|), reader.script;
  }

  method PerformSlurp(q: Queue, maxLen: nat, deliveries: seq<ReadReply>) returns (o: Outcome)
    requires q.Valid()
    modifies q, q.pool, q.mem, q.Foot()
    ensures q.Sound() && Answers(LimitsOf(q), DoSlurp(maxLen, deliveries), o, old(q.Bytes()))
    ensures q.Bytes() == After(DoSlurp(maxLen, deliveries), o, old(q.Bytes()))
  {
    ghost var bytes, left := q.Bytes(), [];
    o, left := CallSlurp(q, maxLen, deliveries);
    SlurpAnswers(LimitsOf(q), maxLen, deliveries, left, o, bytes, q.Bytes());
  }

  /** Every operation answers rightly, and leaves the content that its outcome implies. */
  method Perform(q: Queue, op: Operation) returns (o: Outcome)
    requires q.Valid()
    modifies q, q.pool, q.mem, q.Foot()
    ensures q.Sound() && Answers(LimitsOf(q), op, o, old(q.Bytes())) && q.Bytes() == After(op, o, old(q.Bytes()))
    ensures op.DoWrite? ==> o.taken == if q.soft then |op.buf| else Min(|op.buf|, old(q.Space()))
  {
    match op
    case DoWrite(buf) => o := PerformWrite(q, buf);
    case DoPass(replies) => o := PerformPass(q, replies);
    case DoWritePass(buf, replies) => o := PerformWritePass(q, buf, replies);
    case DoSipn(maxLen, deliveries) => o := PerformSipn(q, maxLen, deliveries);
    case DoSlurp(maxLen, deliveries) => o := PerformSlurp(q, maxLen, deliveries);
    case _ => o := PerformOut(q, op);
  }

  /** What one queue does leaves the other queue as it is, and chunks of others alone. */
  method PerformBeside(used: Queue, other: Queue, op: Operation, ghost others: nat) returns (o: Outcome)
    requires Share(used, other, others)
    modifies used, used.pool, used.mem, used.Foot()
    ensures Share(used, other, others) && other.Bytes() == old(other.Bytes())
    ensures Answers(LimitsOf(used), op, o, old(used.Bytes())) && used.Bytes() == After(op, o, old(used.Bytes()))
    ensures op.DoWrite? ==> o.taken == if used.soft then |op.buf| else Min(|op.buf|, old(used.Space()))
    ensures Renewed(used, other)
  {
    o := Perform(used, op);
    assert other.Linked();
    assert used.heads.nodes + used.spares.nodes !! other.heads.nodes + other.spares.nodes;
  }

  // ---------------------------------------------------------------------------------------------------------
  // Runs
  // ---------------------------------------------------------------------------------------------------------

  datatype Event = Event(op: Operation, o: Outcome)

  /** The content after a sequence of operations. */
  function ContentAfter(start: seq<byte>, log: seq<Event>): seq<byte> {
    if log == [] then start
    else
      var last := log[|log| - 1];
      After(last.op, last.o, ContentAfter(start, log[..|log| - 1]))
  }

  /** All that has come in, in order. */
  function AllCame(log: seq<Event>): seq<byte> {
    if log == [] then [] else AllCame(log[..|log| - 1]) + Came(log[|log| - 1].op, log[|log| - 1].o)
  }

  /** All that has gone out, in order. */
  function AllWent(start: seq<byte>, log: seq<Event>): seq<byte> {
    if log == [] then []
    else
      var init, last := log[..|log| - 1], log[|log| - 1];
      AllWent(start, init) + Went(last.op, last.o, ContentAfter(start, init))
  }

  /** Every operation was answered rightly. */
  ghost predicate AllAnswered(l: Limits, start: seq<byte>, log: seq<Event>) {
    forall k :: 0 <= k < |log| ==> Answers(l, log[k].op, log[k].o, ContentAfter(start, log[..k]))
  }

  lemma AnsweredBefore(l: Limits, start: seq<byte>, log: seq<Event>)
    requires AllAnswered(l, start, log) && log != []
    ensures AllAnswered(l, start, log[..|log| - 1])
  {
    var init := log[..|log| - 1];
    forall k | 0 <= k < |init|
      ensures Answers(l, init[k].op, init[k].o, ContentAfter(start, init[..k]))
    {
      assert init[..k] == log[..k];
    }
  }

  /** What goes out with one operation, followed by what is left, is the content followed by what comes in. */
  lemma FlowsOnce(l: Limits, op: Operation, o: Outcome, bytes: seq<byte>)
    requires Answers(l, op, o, bytes)
    ensures Went(op, o, bytes) + After(op, o, bytes) == bytes + Came(op, o)
  {
  }

  /** First in, first out: what has gone out, followed by what is left, is the start followed by what has come in. */
  lemma {:induction false} FirstInFirstOut(l: Limits, start: seq<byte>, log: seq<Event>)
    requires AllAnswered(l, start, log)
    ensures AllWent(start, log) + ContentAfter(start, log) == start + AllCame(log)
  {
    if log != [] {
      var init, last := log[..|log| - 1], log[|log| - 1];
      var bytes := ContentAfter(start, init);
      AnsweredBefore(l, start, log);
      FirstInFirstOut(l, start, init);
      FlowsOnce(l, last.op, last.o, bytes);
      Flow(start, AllCame(init), AllWent(start, init), bytes, Came(last.op, last.o), Went(last.op, last.o, bytes),
           After(last.op, last.o, bytes));
    }
  }

  lemma Flow(start: seq<byte>, came: seq<byte>, went: seq<byte>, bytes: seq<byte>,
             came': seq<byte>, went': seq<byte>, bytes': seq<byte>)
    requires went + bytes == start + came && went' + bytes' == bytes + came'
    ensures (went + went') + bytes' == start + (came + came')
  {
    assert (went + went') + bytes' == went + (went' + bytes');
    assert went + (bytes + came') == (went + bytes) + came';
  }

  lemma Answered(l: Limits, start: seq<byte>, log: seq<Event>, e: Event)
    requires AllAnswered(l, start, log) && Answers(l, e.op, e.o, ContentAfter(start, log))
    ensures AllAnswered(l, start, log + [e])
    ensures ContentAfter(start, log + [e]) == After(e.op, e.o, ContentAfter(start, log))
  {
    var more := log + [e];
    assert more[..|log|] == log;
    forall k | 0 <= k < |more|
      ensures Answers(l, more[k].op, more[k].o, ContentAfter(start, more[..k]))
    {
      if k < |log| {
        assert more[..k] == log[..k];
      }
    }
  }

  /** The operations of one of the two queues with their outcomes. */
  function Part(ops: seq<(bool, Operation)>, outcomes: seq<Outcome>, first: bool): seq<Event>
    requires |ops| == |outcomes|
  {
    if ops == [] then []
    else
      var n := |ops| - 1;
      Part(ops[..n], outcomes[..n], first) + if ops[n].0 == first then [Event(ops[n].1, outcomes[n])] else []
  }

  /** The outcomes are right for one of the two queues, which has the content that they imply. */
  ghost predicate Follows(q: Queue, start: seq<byte>, ops: seq<(bool, Operation)>, outcomes: seq<Outcome>, first: bool)
    requires |ops| == |outcomes| && AllOk(q.heads.chunks, q.chunkSize)
    reads q
  {
    var log := Part(ops, outcomes, first);
    AllAnswered(LimitsOf(q), start, log) && q.Bytes() == ContentAfter(start, log)
  }

  lemma PartSnoc(ops: seq<(bool, Operation)>, outcomes: seq<Outcome>, op: (bool, Operation), o: Outcome, first: bool)
    requires |ops| == |outcomes|
    ensures Part(ops + [op], outcomes + [o], first) ==
            Part(ops, outcomes, first) + if op.0 == first then [Event(op.1, o)] else []
  {
    assert (ops + [op])[..|ops|] == ops && (outcomes + [o])[..|outcomes|] == outcomes;
  }

  /** The queue that was used follows, and so does the other one. */
  lemma FollowsOn(l: Limits, start: seq<byte>, ops: seq<(bool, Operation)>, outcomes: seq<Outcome>,
                  op: (bool, Operation), o: Outcome, first: bool, bytes: seq<byte>, bytes': seq<byte>)
    requires |ops| == |outcomes|
    requires var log := Part(ops, outcomes, first);
      AllAnswered(l, start, log) && bytes == ContentAfter(start, log)
    requires if op.0 == first then Answers(l, op.1, o, bytes) && bytes' == After(op.1, o, bytes) else bytes' == bytes
    ensures var log := Part(ops + [op], outcomes + [o], first);
      AllAnswered(l, start, log) && bytes' == ContentAfter(start, log)
  {
    var log := Part(ops, outcomes, first);
    PartSnoc(ops, outcomes, op, o, first);
    if op.0 == first {
      Answered(l, start, log, Event(op.1, o));
    } else {
      assert log + [] == log;
    }
  }

  /** One of two queues is used. */
  method Turn(a: Queue, b: Queue, first: bool, op: Operation, ghost others: nat) returns (o: Outcome)
    requires Share(a, b, others)
    modifies a, b, a.pool, a.mem, a.Foot(), b.Foot()
    ensures Share(a, b, others) && Renewed(a, b)
    ensures if first then
              Answers(LimitsOf(a), op, o, old(a.Bytes())) && a.Bytes() == After(op, o, old(a.Bytes()))
            else a.Bytes() == old(a.Bytes())
    ensures if first then b.Bytes() == old(b.Bytes())
            else Answers(LimitsOf(b), op, o, old(b.Bytes())) && b.Bytes() == After(op, o, old(b.Bytes()))
  {
    if first {
      o := PerformBeside(a, b, op, others);
    } else {
      o := PerformBeside(b, a, op, others);
    }
  }

  /** The next operation of a run. */
  method NextTurn(a: Queue, b: Queue, ghost startA: seq<byte>, ghost startB: seq<byte>,
                  ghost ops: seq<(bool, Operation)>, ghost outcomes: seq<Outcome>, op: (bool, Operation),
                  ghost others: nat)
    returns (o: Outcome)
    requires Share(a, b, others) && |ops| == |outcomes|
    requires Follows(a, startA, ops, outcomes, true) && Follows(b, startB, ops, outcomes, false)
    modifies a, b, a.pool, a.mem, a.Foot(), b.Foot()
    ensures Share(a, b, others) && Renewed(a, b)
    ensures Follows(a, startA, ops + [op], outcomes + [o], true)
    ensures Follows(b, startB, ops + [op], outcomes + [o], false)
  {
    o := Turn(a, b, op.0, op.1, others);
    FollowsOn(LimitsOf(a), startA, ops, outcomes, op, o, true, old(a.Bytes()), a.Bytes());
    FollowsOn(LimitsOf(b), startB, ops, outcomes, op, o, false, old(b.Bytes()), b.Bytes());
  }

  /**
   * Every run of operations on two queues with one pool: each operation is answered rightly for the content of its own
   * queue, which is what its own operations imply, as if each queue were alone. So each queue gives out what was put
   * into it, in order.
   */
  method RunShared(a: Queue, b: Queue, ops: seq<(bool, Operation)>, ghost others: nat) returns (outcomes: seq<Outcome>)
    requires Share(a, b, others)
    modifies a, b, a.pool, a.mem, a.Foot(), b.Foot()
    ensures Share(a, b, others) && |outcomes| == |ops|
    ensures Follows(a, old(a.Bytes()), ops, outcomes, true) && Follows(b, old(b.Bytes()), ops, outcomes, false)
    ensures var log := Part(ops, outcomes, true);
      AllWent(old(a.Bytes()), log) + a.Bytes() == old(a.Bytes()) + AllCame(log)
    ensures var log := Part(ops, outcomes, false);
      AllWent(old(b.Bytes()), log) + b.Bytes() == old(b.Bytes()) + AllCame(log)
  {
    outcomes := [];
    for k := 0 to |ops|
      invariant Share(a, b, others) && Renewed(a, b) && |outcomes| == k
      invariant Follows(a, old(a.Bytes()), ops[..k], outcomes, true)
      invariant Follows(b, old(b.Bytes()), ops[..k], outcomes, false)
    {
      var o := NextTurn(a, b, old(a.Bytes()), old(b.Bytes()), ops[..k], outcomes, ops[k], others);
      UpTo(ops, k);
      outcomes := outcomes + [o];
    }
    Whole(ops);
    FirstInFirstOut(LimitsOf(a), old(a.Bytes()), Part(ops, outcomes, true));
    FirstInFirstOut(LimitsOf(b), old(b.Bytes()), Part(ops, outcomes, false));
  }

  /** The address occurs in the list. */
  predicate Has(cs: seq<Chunk>, x: nat) {
    exists i :: 0 <= i < |cs| && cs[i].id == x
  }

  lemma {:induction false} HasCount(cs: seq<Chunk>, i: nat, x: nat)
    requires i < |cs| && cs[i].id == x
    ensures Count(cs, x) > 0
  {
    if i > 0 {
      HasCount(cs[1..], i - 1, x);
    }
  }

  lemma {:induction false} CountHas(cs: seq<Chunk>, x: nat)
    ensures Count(cs, x) > 0 <==> Has(cs, x)
  {
    if Has(cs, x) {
      var i :| 0 <= i < |cs| && cs[i].id == x;
      HasCount(cs, i, x);
    } else if cs != [] {
      assert forall i :: 0 <= i < |cs[1..]| ==> cs[1..][i] == cs[i + 1];
      CountHas(cs[1..], x);
    }
  }

  /** The address occurs at one place of the list at most. */
  predicate Once(cs: seq<Chunk>, x: nat) {
    forall i, j :: 0 <= i < j < |cs| && cs[i].id == x ==> cs[j].id != x
  }

  lemma CountOnce(cs: seq<Chunk>, x: nat)
    requires Count(cs, x) <= 1
    ensures Once(cs, x)
  {
    forall i, j | 0 <= i < j < |cs| && cs[i].id == x
      ensures cs[j].id != x
    {
      if cs[j].id == x {
        CountTwice(cs, i, j, x);
      }
    }
  }

  /**
   * No chunk is in two places of one list or in two lists, and without other owners every live chunk is in one: the
   * address is live exactly if it is in one of the lists.
   */
  lemma OnePlace(q: Queue)
    requires q.Valid()
    ensures Once(q.heads.chunks, q.mem.watch) && Once(q.spares.chunks, q.mem.watch)
    ensures q.pool != null ==> Once(q.pool.list.chunks, q.mem.watch)
    ensures var x := q.mem.watch;
      && !(Has(q.heads.chunks, x) && Has(q.spares.chunks, x))
      && (q.pool != null ==> !(Has(q.pool.list.chunks, x) && (Has(q.heads.chunks, x) || Has(q.spares.chunks, x))))
    ensures q.Kept(0) ==>
      var x := q.mem.watch;
      q.mem.live == 1 <==>
        Has(q.heads.chunks, x) || Has(q.spares.chunks, x) || (q.pool != null && Has(q.pool.list.chunks, x))
  {
    CountOnce(q.heads.chunks, q.mem.watch);
    CountOnce(q.spares.chunks, q.mem.watch);
    CountHas(q.heads.chunks, q.mem.watch);
    CountHas(q.spares.chunks, q.mem.watch);
    if q.pool != null {
      CountOnce(q.pool.list.chunks, q.mem.watch);
      CountHas(q.pool.list.chunks, q.mem.watch);
    }
  }

  lemma CountTwice(cs: seq<Chunk>, i: nat, j: nat, x: nat)
    requires i < j < |cs| && cs[i].id == x && cs[j].id == x
    ensures Count(cs, x) >= 2
  {
    assert cs == cs[..j] + cs[j..];
    CountConcat(cs[..j], cs[j..], x);
    HasCount(cs[..j], i, x);
    HasCount(cs[j..], 0, x);
  }
}
