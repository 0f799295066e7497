/** The gzip header accumulator for old zlib versions (`content_encoding.c`), per section 2.3 of RFC 1952. */
module Gzip {
  import opened Basics

  const MAGIC_0 := 0x1f
  const MAGIC_1 := 0x8b
  const DEFLATED := 8
  const RESERVED := 32

  datatype Verdict = Good(headerlen: nat) | Bad | Underflow

  /** The flag bits of the header, from bit 0 up. */
  datatype Flags = Flags(ascii: bool, crc: bool, extra: bool, name: bool, comment: bool)

  function FlagsOf(b: byte): Flags {
    Flags(b % 2 == 1, b / 2 % 2 == 1, b / 4 % 2 == 1, b / 8 % 2 == 1, b / 16 % 2 == 1)
  }

  function ToByte(f: Flags): byte {
    (if f.ascii then 1 else 0) + (if f.crc then 2 else 0) + (if f.extra then 4 else 0)
    + (if f.name then 8 else 0) + if f.comment then 16 else 0
  }

  lemma FlagsOfByte(f: Flags)
    ensures ToByte(f) < RESERVED && FlagsOf(ToByte(f)) == f
  {
  }

  lemma ByteOfFlags(b: byte)
    requires b < RESERVED
    ensures ToByte(FlagsOf(b)) == b
  {
  }

  // ---------------------------------------------------------------------------------------------------------
  // Specification: each part of the header is skipped, or the bytes end before it does
  // ---------------------------------------------------------------------------------------------------------

  datatype Skip = To(at: nat) | Short

  function SkipBytes(s: seq<byte>, at: nat, n: nat): Skip {
    if at + n <= |s| then To(at + n) else Short
  }

  function SkipExtra(s: seq<byte>, at: nat): Skip {
    if at + 2 <= |s| then SkipBytes(s, at, 2 + (s[at + 1] as int) * 256 + s[at]) else Short
  }

  /** Past the first NUL. */
  function SkipString(s: seq<byte>, at: nat): Skip
    decreases |s| - at
  {
    if at >= |s| then Short else if s[at] == 0 then To(at + 1) else SkipString(s, at + 1)
  }

  function AfterExtra(s: seq<byte>, flags: Flags): Skip {
    if flags.extra then SkipExtra(s, 10) else SkipBytes(s, 0, 10)
  }

  function AfterName(s: seq<byte>, flags: Flags): Skip {
    var k := AfterExtra(s, flags);
    if k.To? && flags.name then SkipString(s, k.at) else k
  }

  function AfterComment(s: seq<byte>, flags: Flags): Skip {
    var k := AfterName(s, flags);
    if k.To? && flags.comment then SkipString(s, k.at) else k
  }

  function AfterCrc(s: seq<byte>, flags: Flags): Skip {
    var k := AfterComment(s, flags);
    if k.To? && flags.crc then SkipBytes(s, k.at, 2) else k
  }

  /** What the first bytes of a stream say about its header. */
  function Header(s: seq<byte>): Verdict {
    if |s| < 10 then Underflow
    else if s[0] != MAGIC_0 || s[1] != MAGIC_1 || s[2] != DEFLATED || s[3] >= RESERVED then Bad
    else
      match AfterCrc(s, FlagsOf(s[3]))
      case To(at) => Good(at)
      case Short => Underflow
  }

  // ---------------------------------------------------------------------------------------------------------
  // More bytes do not change what is known
  // ---------------------------------------------------------------------------------------------------------

  /** What skipping in a prefix and in the whole have to do with each other: the prefix knows of all ends inside it. */
  predicate Extends(short: Skip, long: Skip, n: nat) {
    if short.To? then short.at <= n && long == short else long.To? ==> long.at > n
  }

  lemma {:induction false} SkipStringExtends(s: seq<byte>, e: seq<byte>, at: nat)
    ensures Extends(SkipString(s, at), SkipString(s + e, at), |s|)
    ensures SkipString(s + e, at).To? ==> SkipString(s + e, at).at > at
    decreases |s| + |e| - at
  {
    if at < |s| + |e| && (s + e)[at] != 0 {
      SkipStringExtends(s, e, at + 1);
    }
  }

  lemma AfterExtraExtends(s: seq<byte>, e: seq<byte>, flags: Flags)
    ensures Extends(AfterExtra(s, flags), AfterExtra(s + e, flags), |s|)
  {
  }

  lemma AfterNameExtends(s: seq<byte>, e: seq<byte>, flags: Flags)
    ensures Extends(AfterName(s, flags), AfterName(s + e, flags), |s|)
  {
    AfterExtraExtends(s, e, flags);
    var k := AfterExtra(s + e, flags);
    if k.To? {
      SkipStringExtends(s, e, k.at);
    }
  }

  lemma AfterCommentExtends(s: seq<byte>, e: seq<byte>, flags: Flags)
    ensures Extends(AfterComment(s, flags), AfterComment(s + e, flags), |s|)
  {
    AfterNameExtends(s, e, flags);
    var k := AfterName(s + e, flags);
    if k.To? {
      SkipStringExtends(s, e, k.at);
    }
  }

  lemma AfterCrcExtends(s: seq<byte>, e: seq<byte>, flags: Flags)
    ensures Extends(AfterCrc(s, flags), AfterCrc(s + e, flags), |s|)
  {
    AfterCommentExtends(s, e, flags);
  }

  lemma AfterCrcMin(s: seq<byte>, flags: Flags)
    ensures AfterCrc(s, flags).To? ==> 10 <= AfterCrc(s, flags).at <= |s|
  {
    assert s + [] == s;
    AfterCrcExtends(s, [], flags);
    AfterCommentExtends(s, [], flags);
    AfterNameExtends(s, [], flags);
    AfterExtraExtends(s, [], flags);
    var k, l := AfterExtra(s, flags), AfterName(s, flags);
    if k.To? {
      SkipStringExtends(s, [], k.at);
    }
    if l.To? {
      SkipStringExtends(s, [], l.at);
    }
  }

  /**
   * A verdict on a prefix stands when more bytes come. If the prefix was too short, the header ends beyond it, so
   * that the first byte of the compressed data is in the latest block.
   */
  lemma HeaderExtends(s: seq<byte>, e: seq<byte>)
    ensures Header(s) != Underflow ==> Header(s + e) == Header(s)
    ensures Header(s + e).Good? ==> 10 <= Header(s + e).headerlen <= |s + e|
    ensures Header(s) == Underflow && Header(s + e).Good? ==> Header(s + e).headerlen > |s|
  {
    if |s + e| >= 10 {
      AfterCrcMin(s + e, FlagsOf((s + e)[3]));
      AfterCrcExtends(s, e, FlagsOf((s + e)[3]));
    }
  }

  // ---------------------------------------------------------------------------------------------------------
  // The headers that are accepted are those of RFC 1952
  // ---------------------------------------------------------------------------------------------------------

  /** Bytes after their length, the low byte first. */
  function Prefixed(s: seq<byte>): seq<byte>
    requires |s| < 65536
  {
    [|s| % 256, |s| / 256] + s
  }

  function ExtraPart(extra: Option<seq<byte>>): seq<byte>
    requires extra.Some? ==> |extra.value| < 65536
  {
    if extra.None? then [] else Prefixed(extra.value)
  }

  function Text(s: Option<seq<byte>>): seq<byte> {
    if s.None? then [] else s.value + [0]
  }

  function Raw(s: Option<seq<byte>>): seq<byte> {
    if s.None? then [] else s.value
  }

  /** A member header as the standard numbers its bytes; `fixed` holds the modification time, the extra flags and the
    * operating system.
    */
  datatype MemberHeader = MemberHeader(
    ascii: bool, fixed: seq<byte>, extra: Option<seq<byte>>, name: Option<seq<byte>>, comment: Option<seq<byte>>,
    crc: Option<seq<byte>>)
  {
    predicate WellFormed() {
      && |fixed| == 6
      && (extra.Some? ==> |extra.value| < 65536)
      && (name.Some? ==> 0 !in name.value)
      && (comment.Some? ==> 0 !in comment.value)
      && (crc.Some? ==> |crc.value| == 2)
    }

    function Bits(): Flags {
      Flags(ascii, crc.Some?, extra.Some?, name.Some?, comment.Some?)
    }

    function Fixed(): seq<byte> {
      [0x1f, 0x8b, 8, ToByte(Bits())] + fixed
    }

    function ToBytes(): seq<byte>
      requires WellFormed()
    {
      Fixed() + ExtraPart(extra) + Text(name) + Text(comment) + Raw(crc)
    }
  }

  /** A string at a position, up to its NUL. */
  lemma {:induction false} SkipsText(s: seq<byte>, at: nat, text: seq<byte>)
    requires 0 !in text && at + |text| + 1 <= |s| && s[at..at + |text| + 1] == text + [0]
    ensures SkipString(s, at) == To(at + |text| + 1)
    decreases text
  {
    assert s[at] == (text + [0])[0];
    if text != [] {
      assert s[at + 1..at + |text| + 1] == text[1..] + [0];
      SkipsText(s, at + 1, text[1..]);
    }
  }

  lemma SkipsExtra(s: seq<byte>, extra: seq<byte>)
    requires |extra| < 65536 && 12 + |extra| <= |s| && s[10..12 + |extra|] == Prefixed(extra)
    ensures SkipExtra(s, 10) == To(12 + |extra|)
  {
    assert s[10] == Prefixed(extra)[0] && s[11] == Prefixed(extra)[1];
  }

  /** Where the parts of a concatenation are. */
  lemma Layout(a: seq<byte>, b: seq<byte>, c: seq<byte>, d: seq<byte>, e: seq<byte>, rest: seq<byte>)
    ensures var s := a + b + c + d + e + rest;
      var i := |a| + |b|; var j := i + |c|; var k := j + |d|;
      s[..|a|] == a && s[|a|..i] == b && s[i..j] == c && s[j..k] == d && k + |e| <= |s|
  {
  }

  lemma HeaderWithFlags(s: seq<byte>, flags: Flags, at: nat)
    requires |s| >= 10 && s[..4] == [0x1f, 0x8b, 8, ToByte(flags)] && AfterCrc(s, flags) == To(at)
    ensures Header(s) == Good(at)
  {
    FlagsOfByte(flags);
    assert s[0] == s[..4][0] && s[1] == s[..4][1] && s[2] == s[..4][2] && s[3] == s[..4][3];
  }

  /** Every well-formed member header is accepted, whatever follows it. */
  lemma AcceptsMember(f: MemberHeader, rest: seq<byte>)
    requires f.WellFormed()
    ensures Header(f.ToBytes() + rest) == Good(|f.ToBytes()|)
  {
    var s := f.ToBytes() + rest;
    Layout(f.Fixed(), ExtraPart(f.extra), Text(f.name), Text(f.comment), Raw(f.crc), rest);
    assert s[..10] == f.Fixed() && s[..4] == f.Fixed()[..4];
    SkipsParts(f, s);
    HeaderWithFlags(s, f.Bits(), |f.ToBytes()|);
  }

  lemma SkipsParts(f: MemberHeader, s: seq<byte>)
    requires f.WellFormed()
    requires var i := 10 + |ExtraPart(f.extra)|; var j := i + |Text(f.name)|; var k := j + |Text(f.comment)|;
      && k + |Raw(f.crc)| <= |s| && s[10..i] == ExtraPart(f.extra)
      && s[i..j] == Text(f.name) && s[j..k] == Text(f.comment)
    ensures AfterCrc(s, f.Bits())
            == To(10 + |ExtraPart(f.extra)| + |Text(f.name)| + |Text(f.comment)| + |Raw(f.crc)|)
  {
    var i := 10 + |ExtraPart(f.extra)|;
    var j := i + |Text(f.name)|;
    if f.extra.Some? {
      SkipsExtra(s, f.extra.value);
    }
    SkipsOption(s, i, f.name);
    SkipsOption(s, j, f.comment);
  }

  lemma SkipsOption(s: seq<byte>, at: nat, text: Option<seq<byte>>)
    requires at + |Text(text)| <= |s| && s[at..at + |Text(text)|] == Text(text)
    requires text.Some? ==> 0 !in text.value
    ensures text.Some? ==> SkipString(s, at) == To(at + |Text(text)|)
  {
    if text.Some? {
      SkipsText(s, at, text.value);
    }
  }

  lemma {:induction false} SkippedText(s: seq<byte>, at: nat)
    requires SkipString(s, at).To?
    ensures var k := SkipString(s, at).at; at < k <= |s| && 0 !in s[at..k - 1] && s[at..k] == s[at..k - 1] + [0]
    decreases |s| - at
  {
    if s[at] != 0 {
      SkippedText(s, at + 1);
      var k := SkipString(s, at).at;
      assert s[at..k - 1] == [s[at]] + s[at + 1..k - 1];
    }
  }

  lemma SkippedExtra(s: seq<byte>, at: nat)
    requires SkipExtra(s, at).To?
    ensures var k := SkipExtra(s, at).at; at + 2 <= k <= |s| && k - at - 2 < 65536 && s[at..k] == Prefixed(s[at + 2..k])
  {
  }

  /** The parts of a header after its fixed part. */
  lemma ParsesParts(s: seq<byte>, flags: Flags) returns (f: MemberHeader)
    requires |s| >= 10 && AfterCrc(s, flags).To?
    ensures 10 <= AfterCrc(s, flags).at <= |s|
    ensures f.WellFormed() && f.Bits() == flags && f.fixed == s[4..10]
    ensures s[10..AfterCrc(s, flags).at] == ExtraPart(f.extra) + Text(f.name) + Text(f.comment) + Raw(f.crc)
  {
    AfterCrcMin(s, flags);
    var k1, k2, k3, k4 := AfterExtra(s, flags).at, AfterName(s, flags).at, AfterComment(s, flags).at,
      AfterCrc(s, flags).at;
    var extra := ParsesExtra(s, flags.extra, k1);
    var name := ParsesText(s, flags.name, k1, k2);
    var comment := ParsesText(s, flags.comment, k2, k3);
    f := MemberHeader(flags.ascii, s[4..10], extra, name, comment, if flags.crc then Some(s[k3..k4]) else None);
    Slices(s, 10, k1, k2, k3, k4);
  }

  lemma ParsesExtra(s: seq<byte>, present: bool, k: nat) returns (extra: Option<seq<byte>>)
    requires if present then SkipExtra(s, 10) == To(k) else 10 == k <= |s|
    ensures 10 <= k <= |s| && extra.Some? == present && (present ==> |extra.value| < 65536)
    ensures s[10..k] == ExtraPart(extra)
  {
    extra := None;
    if present {
      SkippedExtra(s, 10);
      extra := Some(s[12..k]);
    }
  }

  lemma ParsesText(s: seq<byte>, present: bool, at: nat, k: nat) returns (text: Option<seq<byte>>)
    requires if present then SkipString(s, at) == To(k) else at == k <= |s|
    ensures at <= k <= |s| && text.Some? == present && (present ==> 0 !in text.value)
    ensures s[at..k] == Text(text)
  {
    text := None;
    if present {
      SkippedText(s, at);
      text := Some(s[at..k - 1]);
    }
  }

  lemma Joined(a: seq<byte>, b: seq<byte>, c: seq<byte>, d: seq<byte>, e: seq<byte>)
    ensures a + b + c + d + e == a + (b + c + d + e)
  {
  }

  /** Whatever is accepted is a well-formed member header. */
  lemma ParsesMember(s: seq<byte>) returns (f: MemberHeader)
    requires Header(s).Good?
    ensures Header(s).headerlen <= |s|
    ensures f.WellFormed() && f.ToBytes() == s[..Header(s).headerlen]
  {
    f := ParsesParts(s, FlagsOf(s[3]));
    ByteOfFlags(s[3]);
    assert f.Fixed() == s[..10];
    var x, n, c, r := ExtraPart(f.extra), Text(f.name), Text(f.comment), Raw(f.crc);
    Joined(f.Fixed(), x, n, c, r);
    assert s[..10] + s[10..Header(s).headerlen] == s[..Header(s).headerlen];
  }

  lemma Slices(s: seq<byte>, a: nat, b: nat, c: nat, d: nat, e: nat)
    requires a <= b <= c <= d <= e <= |s|
    ensures s[a..b] + s[b..c] + s[c..d] + s[d..e] == s[a..e]
  {
    assert s[a..b] + s[b..c] == s[a..c];
    assert s[a..c] + s[c..d] == s[a..d];
  }

  lemma MemberIsAccepted(f: MemberHeader, s: seq<byte>)
    requires f.WellFormed() && f.ToBytes() <= s
    ensures Header(s) == Good(|f.ToBytes()|)
  {
    var bytes := f.ToBytes();
    assert s == bytes + s[|bytes|..];
    AcceptsMember(f, s[|bytes|..]);
  }

  /** The accepted headers are exactly the well-formed member headers of RFC 1952. */
  lemma HeaderIsMember(s: seq<byte>, h: nat)
    ensures Header(s) == Good(h) <==>
      exists f: MemberHeader :: f.WellFormed() && |f.ToBytes()| == h && f.ToBytes() <= s
  {
    forall f: MemberHeader | f.WellFormed() && f.ToBytes() <= s
      ensures Header(s) == Good(|f.ToBytes()|)
    {
      MemberIsAccepted(f, s);
    }
    if Header(s) == Good(h) {
      var f := ParsesMember(s);
      assert f.ToBytes() <= s;
    }
  }

  /** A string ends at the latest with a NUL that follows. */
  lemma {:induction false} SkipsToZero(s: seq<byte>, at: nat, n: nat)
    requires at <= n < |s| && s[n] == 0
    ensures SkipString(s, at).To? && SkipString(s, at).at <= n + 1
    decreases n - at
  {
    if s[at] != 0 {
      SkipsToZero(s, at + 1, n);
    }
  }

  /** An incomplete header is completed by enough zeros. */
  lemma ZerosComplete(s: seq<byte>, flags: Flags)
    requires |s| >= 10
    ensures AfterCrc(s + seq(70000, _ => 0), flags).To?
  {
    var u := s + seq(70000, _ => 0);
    var k := AfterExtra(u, flags).at;
    if flags.name {
      SkipsToZero(u, k, if k < |s| then |s| else k);
    }
    var l := AfterName(u, flags).at;
    if flags.comment {
      SkipsToZero(u, l, if l < |s| then |s| else l);
    }
  }

  /** Ten bytes or more are refused exactly if no bytes after them can make them an accepted header. */
  lemma RefusedExactly(s: seq<byte>)
    requires |s| >= 10
    ensures Header(s) == Bad <==> forall e :: !Header(s + e).Good?
  {
    forall e
      ensures Header(s) == Bad ==> !Header(s + e).Good?
    {
      HeaderExtends(s, e);
    }
    var e: seq<byte> := seq(70000, _ => 0);
    ZerosComplete(s, FlagsOf(s[3]));
    assert Header(s) != Bad ==> Header(s + e).Good?;
  }

  // ---------------------------------------------------------------------------------------------------------
  // The program
  // ---------------------------------------------------------------------------------------------------------

  /** The pointer-walking loop over a NUL-terminated string. */
  method SkipWhile(data: seq<byte>, start: nat) returns (ok: bool, at: nat)
    requires start <= |data|
    ensures SkipString(data, start) == if ok then To(at) else Short
    ensures ok ==> at <= |data|
  {
    at := start;
    while at < |data| && data[at] != 0
      invariant start <= at <= |data| && SkipString(data, at) == SkipString(data, start)
    {
      at := at + 1;
    }
    if at == |data| || data[at] != 0 {
      return false, at;
    }
    return true, at + 1;
  }

  method CheckHeader(data: seq<byte>) returns (verdict: Verdict)
    ensures verdict == Header(data)
  {
    if |data| < 10 {
      return Underflow;
    }
    if data[0] != MAGIC_0 || data[1] != MAGIC_1 {
      return Bad;
    }
    if data[2] != DEFLATED || data[3] >= RESERVED {
      return Bad;
    }
    var flags := FlagsOf(data[3]);
    var at: nat := 10;
    if flags.extra {
      if |data| - at < 2 {
        return Underflow;
      }
      var extraLen: nat := (data[at + 1] as int) * 256 + data[at];
      if |data| - at < extraLen + 2 {
        return Underflow;
      }
      at := at + extraLen + 2;
    }
    var ok := true;
    if flags.name {
      ok, at := SkipWhile(data, at);
      if !ok {
        return Underflow;
      }
    }
    if flags.comment {
      ok, at := SkipWhile(data, at);
      if !ok {
        return Underflow;
      }
    }
    if flags.crc {
      if |data| - at < 2 {
        return Underflow;
      }
      at := at + 2;
    }
    verdict := Good(at);
  }

  /** What the inflater says about the bytes it has been given so far. */
  datatype Progress = More | End(at: nat) | Corrupt

  /** The inflater as an oracle whose word on the bytes so far stands when more bytes come. */
  ghost predicate Streaming(inflate: seq<byte> -> Progress) {
    && inflate([]) == More
    && (forall s :: inflate(s).End? ==> inflate(s).at <= |s|)
    && (forall s, e :: inflate(s) != More ==> inflate(s + e) == inflate(s))
    && (forall s, e :: inflate(s) == More && inflate(s + e).End? ==> inflate(s + e).at > |s|)
  }

  datatype Code = Ok | WriteError | BadContentEncoding

  datatype Phase = Uninit | Init | GzipHeader | GzipInflating | ExternalTrailer

  const TRAILER: nat := 8

  /** The state that one single write of all bytes leads to. */
  datatype Outcome = Outcome(code: Code, phase: Phase, inflated: seq<byte>, trailerlen: nat)

  function AfterEnd(inflated: seq<byte>, rest: seq<byte>): Outcome {
    if |rest| < TRAILER then Outcome(Ok, ExternalTrailer, inflated, TRAILER - |rest|)
    else Outcome(if |rest| == TRAILER then Ok else WriteError, Uninit, inflated, 0)
  }

  function AfterHeader(inflate: seq<byte> -> Progress, d: seq<byte>): Outcome {
    match inflate(d)
    case More => Outcome(Ok, GzipInflating, d, TRAILER)
    case Corrupt => Outcome(BadContentEncoding, Uninit, d, TRAILER)
    case End(at) => if at <= |d| then AfterEnd(d[..at], d[at..]) else Outcome(BadContentEncoding, Uninit, d, TRAILER)
  }

  function Single(inflate: seq<byte> -> Progress, s: seq<byte>): Outcome {
    match Header(s)
    case Underflow => Outcome(Ok, GzipHeader, [], TRAILER)
    case Bad => Outcome(BadContentEncoding, Uninit, [], TRAILER)
    case Good(h) => if h <= |s| then AfterHeader(inflate, s[h..]) else Outcome(Ok, GzipHeader, [], TRAILER)
  }

  lemma SingleExtends(inflate: seq<byte> -> Progress, s: seq<byte>, e: seq<byte>)
    requires Header(s).Good?
    ensures Header(s).headerlen <= |s| && Header(s + e) == Header(s)
    ensures Single(inflate, s) == AfterHeader(inflate, s[Header(s).headerlen..])
    ensures Single(inflate, s + e) == AfterHeader(inflate, s[Header(s).headerlen..] + e)
  {
    assert s + [] == s;
    HeaderExtends(s, []);
    HeaderExtends(s, e);
    var h := Header(s).headerlen;
    assert (s + e)[h..] == s[h..] + e;
  }

  /** An error stands when more bytes come, so an early one is the error of the whole stream. */
  lemma ErrorsStand(inflate: seq<byte> -> Progress, s: seq<byte>, e: seq<byte>)
    requires Streaming(inflate) && Single(inflate, s).code != Ok
    ensures Single(inflate, s + e).code == Single(inflate, s).code
  {
    HeaderExtends(s, e);
    if Header(s).Good? {
      SingleExtends(inflate, s, e);
      var d := s[Header(s).headerlen..];
      assert inflate(d + e) == inflate(d);
    }
  }

  /** The concatenation of blocks. */
  function Flat(blocks: seq<seq<byte>>): seq<byte> {
    if blocks == [] then [] else blocks[0] + Flat(blocks[1..])
  }

  /** The code of writing blocks one after the other up to the first error, after some bytes have been written. */
  function WriteCode(inflate: seq<byte> -> Progress, before: seq<byte>, blocks: seq<seq<byte>>): Code
    decreases blocks
  {
    var code := Single(inflate, before).code;
    if code != Ok || blocks == [] then code else WriteCode(inflate, before + blocks[0], blocks[1..])
  }

  /** However a stream is cut into blocks, the outcome is that of one single write. */
  lemma {:induction false} SplitDoesNotMatter(
      inflate: seq<byte> -> Progress, before: seq<byte>, blocks: seq<seq<byte>>)
    requires Streaming(inflate)
    ensures WriteCode(inflate, before, blocks) == Single(inflate, before + Flat(blocks)).code
    decreases blocks
  {
    if Single(inflate, before).code != Ok {
      ErrorsStand(inflate, before, Flat(blocks));
    } else if blocks == [] {
      assert before + Flat(blocks) == before;
    } else {
      SplitDoesNotMatter(inflate, before + blocks[0], blocks[1..]);
      assert before + Flat(blocks) == before + blocks[0] + Flat(blocks[1..]);
    }
  }

  /** A member of a gzip file: its header, compressed data that the inflater ends with, and more bytes. */
  ghost predicate IsMember(inflate: seq<byte> -> Progress, s: seq<byte>, f: MemberHeader, d: seq<byte>, t: seq<byte>) {
    f.WellFormed() && inflate(d) == End(|d|) && s == f.ToBytes() + d + t
  }

  /** The bytes of a member after its header. */
  lemma MemberData(inflate: seq<byte> -> Progress, s: seq<byte>, f: MemberHeader, d: seq<byte>, t: seq<byte>)
    requires IsMember(inflate, s, f, d, t)
    ensures var h := |f.ToBytes()|; Header(s) == Good(h) && h <= |s| && s[h..] == d + t
  {
    assert s == f.ToBytes() + (d + t);
    AcceptsMember(f, d + t);
  }

  /** The end is seen as soon as the last byte of the data is there. */
  lemma EndIsSeen(inflate: seq<byte> -> Progress, d: seq<byte>, t: seq<byte>)
    requires Streaming(inflate) && inflate(d + t) == End(|d|)
    ensures inflate(d) == End(|d|)
  {
    assert inflate(d) != More ==> inflate(d + t) == inflate(d);
  }

  /** After the data come eight bytes, which are not looked at; while some are missing they are waited for. */
  lemma MemberOutcome(inflate: seq<byte> -> Progress, s: seq<byte>, f: MemberHeader, d: seq<byte>, t: seq<byte>)
    requires Streaming(inflate) && IsMember(inflate, s, f, d, t)
    ensures |t| < 8 ==> Single(inflate, s) == Outcome(Ok, ExternalTrailer, d, 8 - |t|)
    ensures |t| == 8 ==> Single(inflate, s) == Outcome(Ok, Uninit, d, 0)
    ensures |t| > 8 ==> Single(inflate, s).code == WriteError
  {
    MemberData(inflate, s, f, d, t);
    EndExtends(inflate, d, t);
    assert d[..|d|] == d && d[|d|..] + t == t;
  }

  lemma DataAndTrailer(inflate: seq<byte> -> Progress, all: seq<byte>) returns (d: seq<byte>, t: seq<byte>)
    requires Streaming(inflate) && AfterHeader(inflate, all).code == Ok && AfterHeader(inflate, all).phase == Uninit
    ensures all == d + t && inflate(d) == End(|d|) && |t| == 8
  {
    var at := inflate(all).at;
    d, t := all[..at], all[at..];
    assert all == d + t;
    EndIsSeen(inflate, d, t);
  }

  /** The bytes of a closed stream without an error, taken apart. */
  lemma ClosedIsMember(inflate: seq<byte> -> Progress, s: seq<byte>)
      returns (f: MemberHeader, d: seq<byte>, t: seq<byte>)
    requires Streaming(inflate) && Single(inflate, s).code == Ok && Single(inflate, s).phase == Uninit
    ensures IsMember(inflate, s, f, d, t) && |t| == 8
  {
    f := ParsesMember(s);
    var h := Header(s).headerlen;
    d, t := DataAndTrailer(inflate, s[h..]);
    CutAt(s, h, d, t);
  }

  lemma CutAt(s: seq<byte>, h: nat, d: seq<byte>, t: seq<byte>)
    requires h <= |s| && s[h..] == d + t
    ensures s == s[..h] + d + t
  {
    assert s == s[..h] + (d + t);
  }

  /** A stream is closed without an error exactly if it is one member with its trailer of eight bytes. */
  lemma ClosedExactly(inflate: seq<byte> -> Progress, s: seq<byte>)
    requires Streaming(inflate)
    ensures Single(inflate, s).code == Ok && Single(inflate, s).phase == Uninit <==>
      exists f: MemberHeader, d: seq<byte>, t: seq<byte> :: IsMember(inflate, s, f, d, t) && |t| == 8
  {
    forall f: MemberHeader, d: seq<byte>, t: seq<byte> | IsMember(inflate, s, f, d, t)
      ensures |t| == 8 ==> Single(inflate, s) == Outcome(Ok, Uninit, d, 0)
    {
      MemberOutcome(inflate, s, f, d, t);
    }
    if Single(inflate, s).code == Ok && Single(inflate, s).phase == Uninit {
      var f, d, t := ClosedIsMember(inflate, s);
    }
  }

  /** The gzip writer in front of an inflater. */
  class Writer {
    const inflate: seq<byte> -> Progress
    var phase: Phase
    /** The bytes kept while the header is incomplete. */
    var buffer: seq<byte>
    /** The bytes that the inflater has consumed. */
    var inflated: seq<byte>
    var trailerlen: nat
    /** All bytes written, and whether a write has failed. */
    ghost var total: seq<byte>
    ghost var failed: bool

    ghost predicate Valid()
      reads this
    {
      && Streaming(inflate)
      && (phase == GzipHeader ==> buffer == total && Header(total) == Underflow && inflated == [])
      && (failed ==> phase == Uninit)
      && (phase == Init ==> total == [] && inflated == [] && trailerlen == TRAILER)
      && (!failed && phase != Init ==> Single(inflate, total) == Outcome(Ok, phase, inflated, trailerlen))
    }

    constructor (inflate: seq<byte> -> Progress)
      requires Streaming(inflate)
      ensures Valid() && total == [] && !failed && this.inflate == inflate
    {
      this.inflate := inflate;
      phase, buffer, inflated, trailerlen, total, failed := Init, [], [], TRAILER, [], false;
    }

    /** Consumes the trailer; bytes after it are an error. */
    method ProcessTrailer(input: seq<byte>) returns (r: Code)
      requires trailerlen <= TRAILER
      modifies this`phase, this`trailerlen
      ensures r == if |input| > old(trailerlen) then WriteError else Ok
      ensures trailerlen == if |input| > old(trailerlen) then 0 else old(trailerlen) - |input|
      ensures phase == if trailerlen == 0 then Uninit else ExternalTrailer
    {
      var len := if |input| < trailerlen then |input| else trailerlen;
      trailerlen := trailerlen - len;
      var rest := input[len..];
      r := if rest != [] then WriteError else Ok;
      phase := if r != Ok || trailerlen == 0 then Uninit else ExternalTrailer;
    }

    /** Hands input to the inflater; refused once the stream is closed. */
    method InflateStream(input: seq<byte>) returns (r: Code)
      requires Streaming(inflate) && (phase == Uninit || (phase == GzipInflating && trailerlen == TRAILER))
      requires phase == GzipInflating ==> inflate(inflated) == More
      modifies this`phase, this`trailerlen, this`inflated
      ensures old(phase) == Uninit ==> r == WriteError && phase == Uninit && inflated == old(inflated)
      ensures old(phase) == GzipInflating ==>
        var o := AfterHeader(inflate, old(inflated) + input);
        r == o.code && (r == Ok ==> o == Outcome(Ok, phase, inflated, trailerlen)) && (r != Ok ==> phase == Uninit)
    {
      if phase != GzipInflating {
        return WriteError;
      }
      var given := inflated + input;
      match inflate(given) {
        case More =>
          inflated := given;
          r := Ok;
        case Corrupt =>
          phase := Uninit;
          r := BadContentEncoding;
        case End(at) =>
          inflated := given[..at];
          r := ProcessTrailer(given[at..]);
      }
    }

    /** Looks for the end of the header; on success returns the compressed data after it, which is all in `buf`. */
    method SkipHeader(buf: seq<byte>, ghost was: seq<byte>) returns (verdict: Verdict, input: seq<byte>)
      requires phase == Init || phase == GzipHeader
      requires was == (if phase == Init then [] else buffer) && Header(was) == Underflow
      modifies this`phase, this`buffer
      ensures verdict == Header(was + buf)
      ensures verdict == Underflow ==> phase == GzipHeader && buffer == was + buf
      ensures verdict == Bad ==> phase == Uninit
      ensures verdict.Good? ==>
        phase == GzipInflating && verdict.headerlen <= |was + buf| && input == (was + buf)[verdict.headerlen..]
    {
      var all := if phase == Init then buf else buffer + buf;
      assert all == was + buf;
      HeaderExtends(was, buf);
      verdict := CheckHeader(all);
      input := [];
      match verdict {
        case Underflow => buffer, phase := all, GzipHeader;
        case Bad => phase := Uninit;
        case Good(hlen) =>
          input := buf[hlen + |buf| - |all|..];
          assert input == all[hlen..];
          phase := GzipInflating;
      }
    }

    /** A write while the header is incomplete. */
    method WriteHeader(buf: seq<byte>, ghost was: seq<byte>) returns (r: Code)
      requires Streaming(inflate) && (phase == Init || phase == GzipHeader)
      requires was == (if phase == Init then [] else buffer) && Header(was) == Underflow
      requires total == was + buf && inflated == [] && trailerlen == TRAILER && !failed
      modifies this`phase, this`buffer, this`inflated, this`trailerlen, this`failed
      ensures Valid() && r == Single(inflate, total).code && failed == (r != Ok)
    {
      var verdict, input := SkipHeader(buf, was);
      if verdict == Underflow {
        return Ok;
      }
      if verdict == Bad {
        failed := true;
        return BadContentEncoding;
      }
      SingleExtends(inflate, total, []);
      assert [] + input == input;
      r := WriteInput(input);
    }

    /** A write gives the verdict that one single write of all bytes so far would give. */
    method Write(buf: seq<byte>) returns (r: Code)
      requires Valid()
      modifies this
      ensures Valid() && total == old(total) + buf
      ensures !old(failed) ==> r == Single(inflate, total).code && failed == (r != Ok)
      ensures old(failed) ==> failed && r == if buf == [] then Ok else WriteError
    {
      ghost var was := total;
      total := total + buf;
      if phase == Init || phase == GzipHeader {
        r := WriteHeader(buf, was);
      } else if phase == ExternalTrailer {
        TrailerExtends(inflate, was, buf);
        r := ProcessTrailer(buf);
        failed := r != Ok;
      } else {
        if phase == GzipInflating {
          InflatingExtends(inflate, was, buf);
        } else if !failed {
          TrailerExtends(inflate, was, buf);
        }
        r := WriteInput(buf);
      }
    }

    /** Inflates what there is to inflate. */
    method WriteInput(input: seq<byte>) returns (r: Code)
      requires Streaming(inflate) && (phase == Uninit || (phase == GzipInflating && trailerlen == TRAILER))
      requires phase == GzipInflating ==>
        !failed && inflate(inflated) == More && Single(inflate, total) == AfterHeader(inflate, inflated + input)
      requires phase == Uninit && !failed ==>
        var o := Single(inflate, total);
        if input == [] then o == Outcome(Ok, Uninit, inflated, trailerlen) else o.code == WriteError
      modifies this`phase, this`trailerlen, this`inflated, this`failed
      ensures Valid()
      ensures !old(failed) ==> r == Single(inflate, total).code && failed == (r != Ok)
      ensures old(failed) ==> failed && r == if input == [] then Ok else WriteError
    {
      if input == [] {
        assert inflated + input == inflated;
        return Ok;
      }
      r := InflateStream(input);
      failed := failed || r != Ok;
    }
  }

  /** More bytes while the stream is being inflated. */
  lemma InflatingExtends(inflate: seq<byte> -> Progress, s: seq<byte>, e: seq<byte>)
    requires Streaming(inflate) && Single(inflate, s).code == Ok && Single(inflate, s).phase == GzipInflating
    ensures var d := Single(inflate, s).inflated;
      inflate(d) == More && Single(inflate, s + e) == AfterHeader(inflate, d + e)
  {
    SingleExtends(inflate, s, e);
  }

  lemma EndExtends(inflate: seq<byte> -> Progress, d: seq<byte>, e: seq<byte>)
    requires Streaming(inflate) && inflate(d).End?
    ensures var at := inflate(d).at;
      at <= |d| && AfterHeader(inflate, d) == AfterEnd(d[..at], d[at..])
      && AfterHeader(inflate, d + e) == AfterEnd(d[..at], d[at..] + e)
  {
    var at := inflate(d).at;
    assert (d + e)[..at] == d[..at] && (d + e)[at..] == d[at..] + e;
  }

  /** More bytes when the trailer is incomplete or, with nothing missing, after the end. */
  lemma TrailerExtends(inflate: seq<byte> -> Progress, s: seq<byte>, e: seq<byte>)
    requires Streaming(inflate) && Single(inflate, s).code == Ok
    requires Single(inflate, s).phase == ExternalTrailer || Single(inflate, s).phase == Uninit
    ensures var o, q := Single(inflate, s), Single(inflate, s + e);
      && q.inflated == o.inflated && q.code == (if |e| > o.trailerlen then WriteError else Ok)
      && q.trailerlen == (if |e| > o.trailerlen then 0 else o.trailerlen - |e|)
      && q.phase == if q.trailerlen == 0 then Uninit else ExternalTrailer
  {
    SingleExtends(inflate, s, e);
    EndExtends(inflate, s[Header(s).headerlen..], e);
  }
}
