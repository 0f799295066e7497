/** Base64 encoding and decoding (`base64.c`), per section 4 of RFC 4648. */
module Base64 {
  import opened Basics

  const UPPER := "ABCDEFGHIJKLMNOPQRSTUVWXYZ"
  const LOWER := "abcdefghijklmnopqrstuvwxyz"
  const DIGITS := "0123456789"
  const BASE64 := UPPER + LOWER + DIGITS + "+/"

  /** The values of the characters from '+' to 'z'; 255 marks a character outside the alphabet. */
  const PLUS_TO_SLASH := [62, 255, 255, 255, 63]
  const DIGIT_VALUES := [52, 53, 54, 55, 56, 57, 58, 59, 60, 61]
  const COLON_TO_AT := [255, 255, 255, 255, 255, 255, 255]
  const UPPER_VALUES := [0, 1, 2, 3, 4, 5, 6, 7, 8, 9, 10, 11, 12, 13, 14, 15, 16, 17, 18, 19, 20, 21, 22, 23, 24, 25]
  const BRACKETS := [255, 255, 255, 255, 255, 255]
  const LOWER_VALUES :=
    [26, 27, 28, 29, 30, 31, 32, 33, 34, 35, 36, 37, 38, 39, 40, 41, 42, 43, 44, 45, 46, 47, 48, 49, 50, 51]
  const FIRST_HALF := PLUS_TO_SLASH + DIGIT_VALUES + COLON_TO_AT
  const SECOND_HALF := UPPER_VALUES + BRACKETS + LOWER_VALUES
  const DECODE_TABLE := FIRST_HALF + SECOND_HALF

  function Lookup(c: char): int {
    if 43 <= c as int < 43 + |DECODE_TABLE| then DECODE_TABLE[c as int - 43] else 255
  }

  /** The value of a character of the alphabet of RFC 4648, or 255. */
  function Value(c: char): int {
    if 'A' <= c <= 'Z' then c as int - 65
    else if 'a' <= c <= 'z' then c as int - 71
    else if '0' <= c <= '9' then c as int + 4
    else if c == '+' then 62
    else if c == '/' then 63
    else 255
  }

  lemma LookupTable(c: char)
    ensures Lookup(c) == Value(c)
  {
    var k := c as int - 43;
    assert |FIRST_HALF| == 22 && |SECOND_HALF| == 58;
    if 0 <= k < 22 {
      LookupFirst(k);
    } else if 22 <= k < 80 {
      LookupSecond(k - 22);
    }
  }

  lemma LookupFirst(k: int)
    requires 0 <= k < 22
    ensures |FIRST_HALF| == 22
    ensures FIRST_HALF[k] == if k == 0 then 62 else if k < 4 then 255 else if k == 4 then 63
                             else if k < 15 then k + 47 else 255
  {
    if k < 5 {
      assert FIRST_HALF[k] == PLUS_TO_SLASH[k];
    } else if k < 15 {
      assert FIRST_HALF[k] == DIGIT_VALUES[k - 5];
    } else {
      assert FIRST_HALF[k] == COLON_TO_AT[k - 15];
    }
  }

  lemma LookupSecond(k: int)
    requires 0 <= k < 58
    ensures |SECOND_HALF| == 58
    ensures SECOND_HALF[k] == if k < 26 then k else if k < 32 then 255 else k - 6
  {
    if k < 26 {
      assert SECOND_HALF[k] == UPPER_VALUES[k];
    } else if k < 32 {
      assert SECOND_HALF[k] == BRACKETS[k - 26];
    } else {
      assert SECOND_HALF[k] == LOWER_VALUES[k - 32];
    }
  }

  lemma EncodeTable(v: int)
    requires 0 <= v < 64
    ensures |BASE64| == 64
    ensures BASE64[v] as int ==
      if v < 26 then v + 65 else if v < 52 then v + 71 else if v < 62 then v - 4 else if v == 62 then 43 else 47
  {
    assert |UPPER| == 26 && |LOWER| == 26 && |DIGITS| == 10;
    if v < 26 {
      UpperLetters(v);
    } else if v < 52 {
      LowerLetters(v - 26);
    } else if v < 62 {
      assert BASE64[v] == DIGITS[v - 52];
    } else {
      assert BASE64[v] == "+/"[v - 62];
    }
  }

  lemma UpperLetters(k: int)
    requires 0 <= k < 26
    ensures |UPPER| == 26 && UPPER[k] as int == k + 65
  {
  }

  lemma LowerLetters(k: int)
    requires 0 <= k < 26
    ensures |LOWER| == 26 && LOWER[k] as int == k + 97
  {
  }

  /** The two tables are inverse to each other. */
  lemma TablesAgree(v: int, c: char)
    ensures |BASE64| == 64
    ensures 0 <= v < 64 ==> Lookup(BASE64[v]) == v == Value(BASE64[v])
    ensures Lookup(c) == Value(c) && (Value(c) != 255 ==> 0 <= Value(c) < 64 && BASE64[Value(c)] == c)
  {
    LookupTable(c);
    EncodeTable(0);
    if 0 <= v < 64 {
      EncodeTable(v);
      LookupTable(BASE64[v]);
    }
    if Value(c) != 255 {
      EncodeTable(Value(c));
    }
  }

  // ---------------------------------------------------------------------------------------------------------
  // Specification: groups of three bytes as 24-bit numbers with four digits of six bits
  // ---------------------------------------------------------------------------------------------------------

  function Group(b0: byte, b1: byte, b2: byte): int {
    (b0 * 256 + b1) * 256 + b2
  }

  /** The `k`-th digit to the base 64 of a 24-bit number, the most significant digit first. */
  function Digit(group: int, k: int): int
    requires 0 <= k < 4
  {
    match k
    case 0 => group / 262144 % 64
    case 1 => group / 4096 % 64
    case 2 => group / 64 % 64
    case _ => group % 64
  }

  /** The first `n` digits of a group as characters. */
  function Symbols(table: string, group: int, n: nat): string
    requires |table| == 64 && n <= 4
  {
    seq(n, k requires 0 <= k < n => table[Digit(group, k)])
  }

  /** The encoding of a byte string, with or without padding. */
  function Encoded(table: string, padded: bool, x: seq<byte>): string
    requires |table| == 64
  {
    if x == [] then []
    else if |x| == 1 then Symbols(table, Group(x[0], 0, 0), 2) + if padded then "==" else ""
    else if |x| == 2 then Symbols(table, Group(x[0], x[1], 0), 3) + if padded then "=" else ""
    else Symbols(table, Group(x[0], x[1], x[2]), 4) + Encoded(table, padded, x[3..])
  }

  /** The number of '=' characters at the end, at most two. */
  function Padding(s: string): nat {
    if |s| < 4 then 0
    else if s[|s| - 1] != '=' then 0
    else if s[|s| - 2] != '=' then 1 else 2
  }

  /** The first `n` characters are in the alphabet. */
  predicate Symbolic(s: string, n: int)
    requires n <= |s|
  {
    forall i :: 0 <= i < n ==> Value(s[i]) != 255
  }

  /** Nonempty, a multiple of four characters long, and all characters before the padding in the alphabet. */
  predicate Decodable(s: string) {
    |s| > 0 && |s| % 4 == 0 && Symbolic(s, |s| - Padding(s))
  }

  /** The number that four characters stand for, where padding counts as zero. */
  function Number(s: string): int
    requires |s| == 4
  {
    ((SixBits(s[0]) * 64 + SixBits(s[1])) * 64 + SixBits(s[2])) * 64 + SixBits(s[3])
  }

  function SixBits(c: char): int {
    if Value(c) == 255 then 0 else Value(c)
  }

  /** The first `n` bytes of a 24-bit number. */
  function Octets(group: int, n: nat): seq<byte>
    requires n <= 3
  {
    [group / 65536 % 256, group / 256 % 256, group % 256][..n]
  }

  /** The bytes of all groups of four characters; the padding of the last one stands for missing bytes. */
  function Decoded(s: string): seq<byte> {
    if |s| < 4 then []
    else if |s| == 4 then Octets(Number(s), 3 - Padding(s))
    else Octets(Number(s[..4]), 3) + Decoded(s[4..])
  }

  lemma DecodableTail(s: string)
    requires Decodable(s) && |s| > 4
    ensures Decodable(s[4..]) && Padding(s[4..]) == Padding(s)
    ensures Symbolic(s, 4)
  {
    assert |s[4..]| == |s| - 4;
  }

  // ---------------------------------------------------------------------------------------------------------
  // The program
  // ---------------------------------------------------------------------------------------------------------

  /** The shifts and masks of the encoder are the digits of the group. */
  lemma GroupDigits(b0: byte, b1: byte, b2: byte)
    ensures Digit(Group(b0, b1, b2), 0) == b0 / 4
    ensures Digit(Group(b0, b1, b2), 1) == b0 % 4 * 16 + b1 / 16
    ensures Digit(Group(b0, b1, b2), 2) == b1 % 16 * 4 + b2 / 64
    ensures Digit(Group(b0, b1, b2), 3) == b2 % 64
  {
    HighDigits(b0, b1, b2);
    LowDigits(b0, b1, b2);
    Remainder(0, b0 / 4);
    Remainder(b0 / 4, b0 % 4 * 16 + b1 / 16);
    Remainder(b0 * 16 + b1 / 16, b1 % 16 * 4 + b2 / 64);
  }

  lemma Remainder(q: int, r: int)
    requires 0 <= r < 64
    ensures (q * 64 + r) % 64 == r
  {
  }

  lemma HighDigits(b0: byte, b1: byte, b2: byte)
    ensures Group(b0, b1, b2) / 262144 == b0 / 4
    ensures Group(b0, b1, b2) / 4096 == b0 * 16 + b1 / 16
  {
    assert Group(b0, b1, b2) == b0 / 4 * 262144 + (b0 % 4 * 65536 + b1 * 256 + b2);
    assert Group(b0, b1, b2) == (b0 * 16 + b1 / 16) * 4096 + (b1 % 16 * 256 + b2);
  }

  lemma LowDigits(b0: byte, b1: byte, b2: byte)
    ensures Group(b0, b1, b2) / 64 == b0 * 1024 + b1 * 4 + b2 / 64
    ensures Group(b0, b1, b2) % 64 == b2 % 64
  {
    assert Group(b0, b1, b2) == (b0 * 1024 + b1 * 4 + b2 / 64) * 64 + b2 % 64;
  }

  method PutGroup(table: string, output: array<char>, pos: nat, i0: byte, i1: byte, i2: byte)
    requires |table| == 64 && pos + 4 <= output.Length
    modifies output
    ensures output[..pos + 4] == old(output[..pos]) + Symbols(table, Group(i0, i1, i2), 4)
  {
    GroupDigits(i0, i1, i2);
    output[pos] := table[i0 / 4];
    output[pos + 1] := table[i0 % 4 * 16 + i1 / 16];
    output[pos + 2] := table[i1 % 16 * 4 + i2 / 64];
    output[pos + 3] := table[i2 % 64];
  }

  /** The last one or two bytes. */
  method PutRest(table: string, padded: bool, output: array<char>, pos: nat, rest: seq<byte>) returns (end: nat)
    requires |table| == 64 && 1 <= |rest| <= 2 && pos + 4 <= output.Length
    modifies output
    ensures end <= output.Length && output[..end] == old(output[..pos]) + Encoded(table, padded, rest)
  {
    var i0 := rest[0];
    output[pos] := table[i0 / 4];
    if |rest| == 1 {
      GroupDigits(i0, 0, 0);
      output[pos + 1] := table[i0 % 4 * 16];
      end := pos + 2;
      if padded {
        output[end], output[end + 1] := '=', '=';
        end := end + 2;
      }
    } else {
      var i1 := rest[1];
      GroupDigits(i0, i1, 0);
      output[pos + 1] := table[i0 % 4 * 16 + i1 / 16];
      output[pos + 2] := table[i1 % 16 * 4];
      end := pos + 3;
      if padded {
        output[end] := '=';
        end := end + 1;
      }
    }
  }

  /** What has been put so far, together with the encoding of the rest, for which there is room. */
  ghost predicate IsEncodedUpTo(table: string, padded: bool, x: seq<byte>, at: nat, output: array<char>, pos: nat)
    requires |table| == 64
    reads output
  {
    && at <= |x| && pos + Room(|x| - at) == output.Length
    && output[..pos] + Encoded(table, padded, x[at..]) == Encoded(table, padded, x)
  }

  /** The next three bytes. */
  method EncodeGroup(table: string, padded: bool, ghost x: seq<byte>, at: nat, output: array<char>, pos: nat,
                     input: seq<byte>)
    requires |table| == 64 && at + 3 <= |x| <= |input| && x == input[..|x|]
    requires IsEncodedUpTo(table, padded, x, at, output, pos)
    modifies output
    ensures IsEncodedUpTo(table, padded, x, at + 3, output, pos + 4)
  {
    ghost var before := output[..pos];
    RoomStep(|x| - at);
    PutGroup(table, output, pos, input[at], input[at + 1], input[at + 2]);
    EncodedStep(table, padded, x, at, before);
  }

  /** A size of 0 stands for a NUL-terminated input. */
  method Encode(table: string, padded: bool, input: seq<byte>, insize: nat) returns (r: string)
    requires |table| == 64
    requires if insize == 0 then 0 in input else insize <= |input|
    ensures r == Encoded(table, padded, if insize == 0 then CString(input) else input[..insize])
  {
    var left := insize;
    if left == 0 {
      left := StrLen(input);
    }
    ghost var x := input[..left];
    var output := new char[Room(left)];
    var pos: nat, at: nat := 0, 0;
    while left >= 3
      invariant at + left == |x| && |x| <= |input| && x == input[..|x|]
      invariant IsEncodedUpTo(table, padded, x, at, output, pos)
    {
      EncodeGroup(table, padded, x, at, output, pos, input);
      pos, at, left := pos + 4, at + 3, left - 3;
    }
    if left > 0 {
      RoomStep(left);
      assert input[at..at + left] == x[at..];
      pos := PutRest(table, padded, output, pos, input[at..at + left]);
    }
    r := output[..pos];
  }

  /** The symbols for a number of bytes, four for each group of three. */
  function Room(n: nat): nat {
    (n + 2) / 3 * 4
  }

  lemma RoomStep(n: nat)
    ensures n > 0 ==> Room(n) >= 4
    ensures n >= 3 ==> Room(n) == Room(n - 3) + 4
  {
  }

  lemma EncodedStep(table: string, padded: bool, x: seq<byte>, at: nat, before: string)
    requires |table| == 64 && at + 3 <= |x|
    requires before + Encoded(table, padded, x[at..]) == Encoded(table, padded, x)
    ensures before + Symbols(table, Group(x[at], x[at + 1], x[at + 2]), 4) + Encoded(table, padded, x[at + 3..])
            == Encoded(table, padded, x)
  {
    assert x[at..][3..] == x[at + 3..];
  }

  /** The bytes before the first NUL. */
  function CString(input: seq<byte>): seq<byte>
    requires 0 in input
  {
    if input[0] == 0 then [] else [input[0]] + CString(input[1..])
  }

  method StrLen(input: seq<byte>) returns (n: nat)
    requires 0 in input
    ensures n <= |input| && input[..n] == CString(input)
  {
    n := 0;
    while input[n] != 0
      invariant n < |input| && 0 in input[n..] && input[..n] + CString(input[n..]) == CString(input)
      decreases |input| - n
    {
      assert input[n..][1..] == input[n + 1..];
      assert input[..n] + [input[n]] == input[..n + 1];
      n := n + 1;
    }
  }

  datatype Result = Success(bytes: seq<byte>) | BadContentEncoding

  /** Reads four symbols of the alphabet. */
  method ReadQuantum(quantum: string) returns (ok: bool, x: int)
    requires |quantum| == 4
    ensures ok <==> Symbolic(quantum, 4)
    ensures ok ==> x == Number(quantum)
  {
    x := 0;
    for j := 0 to 4
      invariant forall i :: 0 <= i < j ==> Value(quantum[i]) != 255
      invariant x == Prefix(quantum, j)
    {
      LookupTable(quantum[j]);
      var val := Lookup(quantum[j]);
      if val == 255 {
        return false, 0;
      }
      x := x * 64 + val;
    }
    PrefixIsNumber(quantum);
    ok := true;
  }

  /** The number that the first `n` of four characters stand for. */
  function Prefix(s: string, n: nat): int
    requires n <= |s| == 4
  {
    if n == 0 then 0 else Prefix(s, n - 1) * 64 + SixBits(s[n - 1])
  }

  lemma PrefixIsNumber(s: string)
    requires |s| == 4
    ensures Prefix(s, 4) == Number(s)
  {
    assert Prefix(s, 1) == SixBits(s[0]);
    assert Prefix(s, 2) == SixBits(s[0]) * 64 + SixBits(s[1]);
    assert Prefix(s, 3) == Prefix(s, 2) * 64 + SixBits(s[2]);
  }

  function CountPads(s: string, n: nat): nat
    requires n <= |s|
  {
    if n == 0 then 0 else CountPads(s, n - 1) + if s[n - 1] == '=' then 1 else 0
  }

  lemma PadCounts(s: string)
    requires |s| == 4
    ensures CountPads(s, 4) == CountPads(s, 2) + (if s[2] == '=' then 1 else 0) + (if s[3] == '=' then 1 else 0)
    ensures CountPads(s, 3) == CountPads(s, 2) + (if s[2] == '=' then 1 else 0)
    ensures CountPads(s, 2) == (if s[0] == '=' then 1 else 0) + (if s[1] == '=' then 1 else 0)
    ensures CountPads(s, 1) == (if s[0] == '=' then 1 else 0)
  {
    assert CountPads(s, 3) == CountPads(s, 2) + (if s[2] == '=' then 1 else 0);
    assert CountPads(s, 1) == CountPads(s, 0) + (if s[0] == '=' then 1 else 0);
  }

  lemma TooManyPads(s: string, padding: nat, n: nat)
    requires |s| == 4 && n <= 4 && 1 <= padding <= 2 && CountPads(s, n) > padding
    ensures exists i :: 0 <= i < 4 - padding && s[i] == '='
  {
    PadCounts(s);
  }

  lemma RightPads(s: string, padding: nat)
    requires |s| == 4 && 1 <= padding <= 2 && CountPads(s, 4) <= padding
    requires forall i :: 4 - padding <= i < 4 ==> s[i] == '='
    ensures forall i :: 0 <= i < 4 - padding ==> s[i] != '='
  {
    PadCounts(s);
  }

  /** Reads the last four characters, of which the last `padding` ones are '='. */
  method ReadPadded(quantum: string, padding: nat) returns (ok: bool, x: int)
    requires |quantum| == 4 && 1 <= padding <= 2
    requires forall i :: 4 - padding <= i < 4 ==> quantum[i] == '='
    ensures ok <==> Symbolic(quantum, 4 - padding)
    ensures ok ==> x == Number(quantum)
  {
    x := 0;
    var padc := 0;
    for j := 0 to 4
      invariant x == Prefix(quantum, j) && padc == CountPads(quantum, j) <= padding
      invariant forall i :: 0 <= i < j ==> quantum[i] == '=' || Value(quantum[i]) != 255
    {
      if quantum[j] == '=' {
        x := x * 64;
        padc := padc + 1;
        if padc > padding {
          TooManyPads(quantum, padding, j + 1);
          return false, 0;
        }
      } else {
        LookupTable(quantum[j]);
        var val := Lookup(quantum[j]);
        if val == 255 {
          return false, 0;
        }
        x := x * 64 + val;
      }
    }
    PrefixIsNumber(quantum);
    RightPads(quantum, padding);
    ok := true;
  }

  /** Writes the bytes of one group. */
  method PutOctets(out: array<byte>, pos: nat, x: int, n: nat)
    requires n <= 3 && pos + n <= out.Length && x >= 0
    modifies out
    ensures out[..pos + n] == old(out[..pos]) + Octets(x, n)
  {
    if n == 3 {
      out[pos + 2] := x % 256;
    }
    if n >= 2 {
      out[pos + 1] := x / 256 % 256;
    }
    if n >= 1 {
      out[pos] := x / 65536 % 256;
    }
  }

  /** Counts the '=' characters at the end; more than two are an error. */
  method CountPadding(src: string) returns (ok: bool, padding: nat)
    requires |src| >= 4
    ensures ok ==> padding == Padding(src)
    ensures !ok ==> !Symbolic(src, |src| - Padding(src))
  {
    padding := 0;
    while src[|src| - 1 - padding] == '='
      invariant padding <= 2 && forall i :: |src| - padding <= i < |src| ==> src[i] == '='
      decreases 3 - padding
    {
      padding := padding + 1;
      if padding > 2 {
        return false, padding;
      }
    }
    ok := true;
  }

  /** Decodes the first `full` groups of four characters. */
  method DecodeFull(src: string, full: nat, out: array<byte>) returns (ok: bool, at: nat, pos: nat)
    requires |src| > 0 && 4 * full + Padding(src) <= |src| && 3 * full <= out.Length
    modifies out
    ensures !ok ==> !Decodable(src)
    ensures ok ==> at == 4 * full && pos == 3 * full
    ensures ok ==> Symbolic(src, at) && out[..pos] + Decoded(src[at..]) == Decoded(src)
  {
    at, pos := 0, 0;
    for i := 0 to full
      invariant at == 4 * i && pos == 3 * i
      invariant Symbolic(src, at) && out[..pos] + Decoded(src[at..]) == Decoded(src)
    {
      var good, x := ReadQuantum(src[at..at + 4]);
      if !good {
        BadQuantum(src, at);
        return false, at, pos;
      }
      MoreSymbols(src, at, 4);
      NumberNat(src[at..at + 4]);
      DecodedStep(src, at, out[..pos]);
      PutOctets(out, pos, x, 3);
      at, pos := at + 4, pos + 3;
    }
    ok := true;
  }

  lemma BadQuantum(s: string, at: nat)
    requires 4 <= at + 4 + Padding(s) <= |s| && !Symbolic(s[at..at + 4], 4)
    ensures !Decodable(s)
  {
    var i :| 0 <= i < 4 && Value(s[at..at + 4][i]) == 255;
    assert Value(s[at + i]) == 255;
  }

  /** Decoding consumes one group at a time from the front. */
  lemma DecodedFront(s: string)
    requires |s| >= 4 && (|s| == 4 ==> Padding(s) == 0)
    ensures Decoded(s) == Octets(Number(s[..4]), 3) + Decoded(s[4..])
  {
    if |s| == 4 {
      assert s[..4] == s;
    }
  }

  lemma DecodedAt(s: string, at: nat)
    requires 4 <= at + 4 + Padding(s) <= |s|
    ensures Decoded(s[at..]) == Octets(Number(s[at..at + 4]), 3) + Decoded(s[at + 4..])
  {
    var rest := s[at..];
    assert rest[..4] == s[at..at + 4] && rest[4..] == s[at + 4..];
    assert |rest| == 4 ==> rest[3] == s[|s| - 1];
    DecodedFront(rest);
  }

  lemma DecodedStep(s: string, at: nat, before: seq<byte>)
    requires 4 <= at + 4 + Padding(s) <= |s| && before + Decoded(s[at..]) == Decoded(s)
    ensures before + Octets(Number(s[at..at + 4]), 3) + Decoded(s[at + 4..]) == Decoded(s)
  {
    DecodedAt(s, at);
    Assoc(before, Octets(Number(s[at..at + 4]), 3), Decoded(s[at + 4..]));
  }

  /** Decodes a last group that ends in padding. */
  method DecodeLast(src: string, padding: nat, out: array<byte>, pos: nat) returns (ok: bool)
    requires |src| >= 4 && |src| % 4 == 0 && padding == Padding(src) > 0 && Symbolic(src, |src| - 4)
    requires pos + 3 - padding == out.Length && out[..pos] + Decoded(src[|src| - 4..]) == Decoded(src)
    modifies out
    ensures ok <==> Decodable(src)
    ensures ok ==> out[..] == Decoded(src)
  {
    var quantum := src[|src| - 4..];
    var x;
    ok, x := ReadPadded(quantum, padding);
    MoreSymbols(src, |src| - 4, 4 - padding);
    assert src[|src| - 4..|src| - 4 + 4] == quantum;
    if ok {
      NumberNat(quantum);
      PutOctets(out, pos, x, 3 - padding);
      assert out[..out.Length] == out[..];
    }
  }

  method Decode(src: string) returns (r: Result)
    ensures r == if Decodable(src) then Success(Decoded(src)) else BadContentEncoding
  {
    var srclen := |src|;
    if srclen == 0 || srclen % 4 != 0 {
      return BadContentEncoding;
    }
    var ok, padding := CountPadding(src);
    if !ok {
      return BadContentEncoding;
    }
    var numQuantums := srclen / 4;
    var fullQuantums := numQuantums - if padding > 0 then 1 else 0;
    var out := new byte[numQuantums * 3 - padding];
    var at, pos;
    ok, at, pos := DecodeFull(src, fullQuantums, out);
    if !ok {
      return BadContentEncoding;
    }
    if padding > 0 {
      ok := DecodeLast(src, padding, out, pos);
    } else {
      assert out[..pos] == out[..];
    }
    r := if ok then Success(out[..]) else BadContentEncoding;
  }

  lemma MoreSymbols(s: string, at: nat, n: nat)
    requires at + 4 <= |s| && n <= 4 && Symbolic(s, at)
    ensures Symbolic(s, at + n) <==> Symbolic(s[at..at + 4], n)
  {
    forall k | at <= k < at + n
      ensures s[at..at + 4][k - at] == s[k]
    {
    }
    if Symbolic(s, at + n) {
      var q := s[at..at + 4];
      forall i | 0 <= i < n
        ensures Value(q[i]) != 255
      {
        assert q[i] == s[at + i];
      }
    }
  }

  lemma NumberNat(s: string)
    requires |s| == 4
    ensures 0 <= Number(s) < 0x100_0000
  {
    assert forall i :: 0 <= i < 4 ==> 0 <= SixBits(s[i]) < 64;
  }

  // ---------------------------------------------------------------------------------------------------------
  // Round trips
  // ---------------------------------------------------------------------------------------------------------

  /** A table that the decoder inverts. */
  predicate Alphabet(table: string) {
    |table| == 64 && forall v :: 0 <= v < 64 ==> Value(table[v]) == v
  }

  lemma StandardAlphabet()
    ensures Alphabet(BASE64)
  {
    TablesAgree(0, 'A');
    forall v | 0 <= v < 64
      ensures Value(BASE64[v]) == v
    {
      TablesAgree(v, 'A');
    }
  }

  lemma SymbolOfValue(table: string, c: char)
    requires Alphabet(table) && Value(c) != 255
    ensures 0 <= Value(c) < 64 && table[Value(c)] == c
  {
    assert Value(table[Value(c)]) == Value(c);
  }

  lemma OctetsOfGroup(b0: byte, b1: byte, b2: byte)
    ensures 0 <= Group(b0, b1, b2) < 0x100_0000
    ensures Octets(Group(b0, b1, b2), 3) == [b0, b1, b2]
  {
    var g := Group(b0, b1, b2);
    assert g / 65536 == b0 && g / 256 == b0 * 256 + b1 && g % 256 == b2;
  }

  /** Four digits of a 24-bit number give the number back. */
  lemma DigitsOfNumber(g: int)
    requires 0 <= g < 0x100_0000
    ensures ((Digit(g, 0) * 64 + Digit(g, 1)) * 64 + Digit(g, 2)) * 64 + Digit(g, 3) == g
  {
    assert g / 4096 == g / 64 / 64;
    assert g / 262144 == g / 4096 / 64;
  }

  function Pads(n: nat): string
    requires n <= 2
  {
    if n == 0 then "" else if n == 1 then "=" else "=="
  }

  /** A group of `n` symbols, padded to four characters, stands for the number whose other digits are zero. */
  lemma PaddedGroup(table: string, g: int, n: nat)
    requires Alphabet(table) && 0 <= g < 0x100_0000 && 2 <= n <= 4
    requires forall k :: n <= k < 4 ==> Digit(g, k) == 0
    ensures var q := Symbols(table, g, n) + Pads(4 - n);
      |q| == 4 && Number(q) == g && Symbolic(q, n) && Padding(q) == 4 - n
  {
    DigitsOfNumber(g);
    var q := Symbols(table, g, n) + Pads(4 - n);
    assert forall k :: 0 <= k < n ==> q[k] == table[Digit(g, k)];
    assert forall k :: 0 <= k < 4 ==> SixBits(q[k]) == Digit(g, k);
  }

  /** The number of one to three bytes, the missing ones being zero. */
  function GroupNumber(x: seq<byte>): int
    requires 1 <= |x| <= 3
  {
    Group(x[0], if |x| > 1 then x[1] else 0, if |x| > 2 then x[2] else 0)
  }

  lemma GroupFacts(x: seq<byte>)
    requires 1 <= |x| <= 3
    ensures 0 <= GroupNumber(x) < 0x100_0000 && Octets(GroupNumber(x), |x|) == x
    ensures forall k :: |x| < k < 4 ==> Digit(GroupNumber(x), k) == 0
  {
    var b1, b2 := if |x| > 1 then x[1] else 0, if |x| > 2 then x[2] else 0;
    GroupDigits(x[0], b1, b2);
    OctetsOfGroup(x[0], b1, b2);
    assert x == [x[0], b1, b2][..|x|];
  }

  lemma EncodedGroup(table: string, x: seq<byte>)
    requires |table| == 64 && 1 <= |x| <= 3
    ensures Encoded(table, true, x) == Symbols(table, GroupNumber(x), |x| + 1) + Pads(3 - |x|)
  {
    if |x| == 3 {
      assert Encoded(table, true, x[3..]) == [];
    }
  }

  /** One encoded group is decoded to the bytes it was made of. */
  lemma GroupRoundTrip(table: string, x: seq<byte>)
    requires Alphabet(table) && 1 <= |x| <= 3
    ensures var e := Encoded(table, true, x);
      |e| == 4 && Padding(e) == 3 - |x| && Symbolic(e, |x| + 1) && Octets(Number(e), |x|) == x
  {
    GroupFacts(x);
    PaddedGroup(table, GroupNumber(x), |x| + 1);
    EncodedGroup(table, x);
  }

  /** Decoding undoes encoding, for every nonempty byte string. */
  lemma {:induction false} DecodeEncode(table: string, x: seq<byte>)
    requires Alphabet(table) && x != []
    ensures Decodable(Encoded(table, true, x)) && Decoded(Encoded(table, true, x)) == x
  {
    if |x| <= 3 {
      GroupRoundTrip(table, x);
    } else {
      DecodeEncode(table, x[3..]);
      GroupRoundTrip(table, x[..3]);
      EncodedFront(table, x);
      Prepend(Encoded(table, true, x[..3]), Encoded(table, true, x[3..]));
      assert x == x[..3] + x[3..];
    }
  }

  lemma EncodedFront(table: string, x: seq<byte>)
    requires |table| == 64 && |x| >= 3
    ensures Encoded(table, true, x) == Encoded(table, true, x[..3]) + Encoded(table, true, x[3..])
  {
    EncodedGroup(table, x[..3]);
  }

  /** Four symbols before a decodable string. */
  lemma Prepend(quad: string, rest: string)
    requires |quad| == 4 && Symbolic(quad, 4) && Decodable(rest)
    ensures Decodable(quad + rest) && Padding(quad + rest) == Padding(rest)
    ensures Decoded(quad + rest) == Octets(Number(quad), 3) + Decoded(rest)
  {
    var s := quad + rest;
    assert s[..4] == quad && s[4..] == rest;
    assert forall i :: 4 <= i < |s| ==> s[i] == rest[i - 4];
  }

  /** The bits of the last symbol that no byte uses are zero. */
  predicate UnusedBitsZero(s: string)
    requires Decodable(s)
  {
    match Padding(s)
    case 0 => true
    case 1 => Value(s[|s| - 2]) % 4 == 0
    case _ => Value(s[|s| - 3]) % 16 == 0
  }

  /** The bytes of a number in terms of its digits. */
  lemma OctetsOfNumber(v0: int, v1: int, v2: int, v3: int)
    requires 0 <= v0 < 64 && 0 <= v1 < 64 && 0 <= v2 < 64 && 0 <= v3 < 64
    ensures var g := ((v0 * 64 + v1) * 64 + v2) * 64 + v3;
      Octets(g, 3) == [v0 * 4 + v1 / 16, v1 % 16 * 16 + v2 / 4, v2 % 4 * 64 + v3]
  {
    var h1, h2 := v1 / 16, v2 / 4;
    assert v1 == h1 * 16 + v1 % 16 && v2 == h2 * 4 + v2 % 4;
    OctetsOfGroup(v0 * 4 + h1, v1 % 16 * 16 + h2, v2 % 4 * 64 + v3);
  }

  /** The digits of the number of the first `n` bytes: the digit that is cut keeps its high bits. */
  lemma CutDigits(v0: int, v1: int, v2: int, v3: int, n: nat)
    requires 0 <= v0 < 64 && 0 <= v1 < 64 && 0 <= v2 < 64 && 0 <= v3 < 64 && 1 <= n <= 3
    ensures var g := GroupNumber(Octets(((v0 * 64 + v1) * 64 + v2) * 64 + v3, n));
      && Digit(g, 0) == v0 && Digit(g, 1) == (if n > 1 then v1 else v1 / 16 * 16)
      && (n > 1 ==> Digit(g, 2) == if n > 2 then v2 else v2 / 4 * 4) && (n > 2 ==> Digit(g, 3) == v3)
  {
    OctetsOfNumber(v0, v1, v2, v3);
    var b0, b1, b2 := v0 * 4 + v1 / 16, v1 % 16 * 16 + v2 / 4, v2 % 4 * 64 + v3;
    assert Octets(((v0 * 64 + v1) * 64 + v2) * 64 + v3, n) == [b0, b1, b2][..n];
    GroupDigits(b0, if n > 1 then b1 else 0, if n > 2 then b2 else 0);
  }

  /** The bytes of a padded group have its digits exactly if its unused bits are zero. */
  lemma CanonicalDigits(q: string)
    requires |q| == 4 && Decodable(q)
    ensures var n := 3 - Padding(q); var g := GroupNumber(Octets(Number(q), n));
      (forall k :: 0 <= k < n + 1 ==> Digit(g, k) == Value(q[k])) <==> UnusedBitsZero(q)
  {
    var n := 3 - Padding(q);
    var g := GroupNumber(Octets(Number(q), n));
    CutDigits(SixBits(q[0]), SixBits(q[1]), SixBits(q[2]), SixBits(q[3]), n);
    assert forall k :: 0 <= k < n ==> Digit(g, k) == Value(q[k]);
    assert Digit(g, n) == Value(q[n]) <==> UnusedBitsZero(q);
  }

  /** A padded group is a given string exactly if its digits are the values of the characters. */
  lemma SameSymbols(table: string, g: int, n: nat, q: string)
    requires Alphabet(table) && n <= |q| == 4 && 2 <= n && Symbolic(q, n) && Padding(q) == 4 - n
    ensures Symbols(table, g, n) + Pads(4 - n) == q <==> forall k :: 0 <= k < n ==> Digit(g, k) == Value(q[k])
  {
    var e := Symbols(table, g, n) + Pads(4 - n);
    forall k | 0 <= k < n
      ensures e[k] == q[k] <==> Digit(g, k) == Value(q[k])
    {
      SymbolOfValue(table, q[k]);
      assert e[k] == table[Digit(g, k)];
    }
    assert forall k :: n <= k < 4 ==> e[k] == '=' == q[k];
  }

  /** One decoded group is encoded to the same characters exactly if its unused bits are zero. */
  lemma GroupCanonical(table: string, q: string)
    requires Alphabet(table) && |q| == 4 && Decodable(q)
    ensures Encoded(table, true, Decoded(q)) == q <==> UnusedBitsZero(q)
  {
    EncodedGroup(table, Decoded(q));
    SameSymbols(table, GroupNumber(Decoded(q)), 4 - Padding(q), q);
    CanonicalDigits(q);
  }

  /** The first group and the others are decoded and encoded apart. */
  lemma EncodeDecodeFront(table: string, s: string)
    requires |table| == 64 && Decodable(s) && |s| > 4
    ensures Decodable(s[..4]) && Padding(s[..4]) == 0 && Decodable(s[4..])
    ensures UnusedBitsZero(s) <==> UnusedBitsZero(s[4..])
    ensures Encoded(table, true, Decoded(s))
            == Encoded(table, true, Decoded(s[..4])) + Encoded(table, true, Decoded(s[4..]))
  {
    var q, rest := s[..4], s[4..];
    DecodableTail(s);
    assert forall i :: 0 <= i < 4 ==> q[i] == s[i];
    assert Symbolic(q, 4) && Padding(q) == 0;
    EncodedFront(table, Decoded(s));
    assert Decoded(s)[..3] == Decoded(q) && Decoded(s)[3..] == Decoded(rest);
  }

  /** Encoding undoes decoding exactly on the strings whose unused bits are zero. */
  lemma {:induction false} EncodeDecode(table: string, s: string)
    requires Alphabet(table) && Decodable(s)
    ensures Encoded(table, true, Decoded(s)) == s <==> UnusedBitsZero(s)
  {
    if |s| == 4 {
      GroupCanonical(table, s);
    } else {
      var q, rest := s[..4], s[4..];
      EncodeDecodeFront(table, s);
      EncodeDecode(table, rest);
      GroupCanonical(table, q);
      assert s == q + rest;
      Cancel(q, Encoded(table, true, Decoded(rest)), rest);
    }
  }

  lemma Cancel(a: string, b: string, c: string)
    ensures a + b == a + c <==> b == c
  {
    assert (a + b)[|a|..] == b && (a + c)[|a|..] == c;
  }
}
