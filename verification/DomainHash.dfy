/** The hash of a cookie domain as the program computes it, on 64-bit words (`cookie.c`). */
module DomainHash {
  import opened Basics
  import opened CookieText
  import opened Cookies
  import opened CookieRules

  /** The number as a word, bit by bit. */
  function Bits(n: nat): bv64 {
    if n == 0 then 0 else (Bits(n / 2) << 1) | (if n % 2 == 1 then 1 else 0)
  }

  function Code(c: char): bv64 {
    Bits(c as int % 0x100)
  }

  /** A word is multiplied by 33, losing what overflows, and a character is mixed in. */
  function Mixed(h: bv64, code: bv64): bv64 {
    (h + (h << 5)) ^ code
  }

  function Word(s: string): bv64 {
    if s == "" then 5381 else Mixed(Word(s[..|s| - 1]), Code(s[|s| - 1]))
  }

  function HashOf(s: string): nat {
    (Word(s) % 63) as nat
  }

  lemma WordSnoc(s: string, c: char, more: string, h: bv64, code: bv64, next: bv64)
    requires Word(s) == h && more == s + [c] && Code(c) == code && Mixed(h, code) == next
    ensures Word(more) == next
  {
    assert more[..|s|] == s;
  }

  lemma LowCodes()
    ensures Code('.') == 46 && Code('A') == 65 && Code('C') == 67 && Code('H') == 72
  {
    assert Bits(1) == 1 && Bits(2) == 2 && Bits(4) == 4 && Bits(5) == 5;
    assert Bits(8) == 8 && Bits(9) == 9 && Bits(11) == 11;
    assert Bits(16) == 16 && Bits(18) == 18 && Bits(23) == 23;
    assert Bits(32) == 32 && Bits(33) == 33 && Bits(36) == 36;
  }

  lemma HighCodes()
    ensures Code('L') == 76 && Code('O') == 79 && Code('S') == 83 && Code('T') == 84
  {
    assert Bits(1) == 1 && Bits(2) == 2 && Bits(4) == 4 && Bits(5) == 5;
    assert Bits(9) == 9 && Bits(10) == 10;
    assert Bits(19) == 19 && Bits(20) == 20 && Bits(21) == 21;
    assert Bits(38) == 38 && Bits(39) == 39 && Bits(41) == 41 && Bits(42) == 42;
  }

  lemma WordOfLocalhost()
    ensures Word("LOCALHOST") == 0x3779acd8d783bc8 && HashOf("LOCALHOST") == 53
  {
    LowCodes();
    HighCodes();
    WordSnoc("", 'L', "L", 0x1505, 76, 0x2b5e9);
    WordSnoc("L", 'O', "LO", 0x2b5e9, 79, 0x597346);
    WordSnoc("LO", 'C', "LOC", 0x597346, 67, 0xb87dc45);
    WordSnoc("LOC", 'A', "LOCA", 0xb87dc45, 65, 0x17c8364a4);
    WordSnoc("LOCA", 'L', "LOCAL", 0x17c8364a4, 76, 0x310ceff968);
    WordSnoc("LOCAL", 'H', "LOCALH", 0x310ceff968, 72, 0x652aaef2620);
    WordSnoc("LOCALH", 'O', "LOCALHO", 0x652aaef2620, 79, 0xd0a808d3ea6f);
    WordSnoc("LOCALHO", 'S', "LOCALHOS", 0xd0a808d3ea6f, 83, 0x1ae5a92351381c);
    WordSnoc("LOCALHOS", 'T', "LOCALHOST", 0x1ae5a92351381c, 84, 0x3779acd8d783bc8);
  }

  lemma WordBelowLocalhost()
    ensures Word("A.LOCALHOST") == 0xbf9ff85af666d9e7 && HashOf("A.LOCALHOST") == 38
  {
    LowCodes();
    HighCodes();
    WordSnoc("", 'A', "A", 0x1505, 65, 0x2b5e4);
    WordSnoc("A", '.', "A.", 0x2b5e4, 46, 0x59724a);
    WordSnoc("A.", 'L', "A.L", 0x59724a, 76, 0xb87bbc6);
    WordSnoc("A.L", 'O', "A.LO", 0xb87bbc6, 79, 0x17c7f34c9);
    WordSnoc("A.LO", 'C', "A.LOC", 0x17c7f34c9, 67, 0x310c65cdaa);
    WordSnoc("A.LOC", 'A', "A.LOCA", 0x310c65cdaa, 65, 0x652991f82ab);
    WordSnoc("A.LOCA", 'L', "A.LOCAL", 0x652991f82ab, 76, 0xd0a5bd0fd847);
    WordSnoc("A.LOCAL", 'H', "A.LOCALH", 0xd0a5bd0fd847, 72, 0x1ae55d5f0ae16f);
    WordSnoc("A.LOCALH", 'O', "A.LOCALHO", 0x1ae55d5f0ae16f, 79, 0x377910940670f00);
    WordSnoc("A.LOCALHO", 'S', "A.LOCALHOS", 0x377910940670f00, 83, 0x7269b2314d48ef53);
    WordSnoc("A.LOCALHOS", 'T', "A.LOCALHOST", 0x7269b2314d48ef53, 84, 0xbf9ff85af666d9e7);
  }

  lemma Uppercase()
    ensures Up("localhost") == "LOCALHOST" && Up("a.localhost") == "A.LOCALHOST"
  {
  }

  lemma WholeDomain(domain: string)
    requires '.' !in domain
    ensures TopDomain(domain) == domain && TopDomain("a." + domain) == "a." + domain
  {
    var host := "a." + domain;
    assert host[1] == '.' && forall j :: 1 < j < |host| ==> host[j] == domain[j - 2];
    assert Last(host, '.') == 1;
    assert Last(host[..1], '.') < 0;
  }

  lemma BelowMatches(domain: string)
    ensures Tailmatch(domain, "a." + domain)
  {
    var host := "a." + domain;
    assert host[|host| - |domain|..] == domain;
  }

  /** With this hash a cookie for "localhost" and everything below it is lost for a host below it. */
  lemma LocalhostIsLost(env: Env, c: Cookie)
    requires env.hash("LOCALHOST") == HashOf("LOCALHOST") && env.hash("A.LOCALHOST") == HashOf("A.LOCALHOST")
    requires c.domain == Some("localhost") && c.tailmatch && !env.isIp("localhost") && !env.isIp("a.localhost")
    ensures DomainMatch(env, c, "a.localhost")
    ensures CookieHash(env, c.domain) == 53 && CookieHash(env, Some("a.localhost")) == 38
  {
    Uppercase();
    WholeDomain("localhost");
    WordOfLocalhost();
    WordBelowLocalhost();
    BelowMatches(c.domain.value);
    assert "a." + "localhost" == "a.localhost";
  }
}
