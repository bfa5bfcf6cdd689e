/** Which byte strings are text: the library's bit-level scan against the grammar of
    section 4 of RFC 3629. */
module Utf8 {
  import opened Bytes

  /** UTF8-tail. */
  predicate Tail(c: byte)
  {
    0x80 <= c <= 0xBF
  }

  predicate Tails(s: Text, n: nat)
  {
    n < |s| && forall i :: 1 <= i <= n ==> Tail(s[i])
  }

  /** Length of the UTF8-char `s` starts with, read off the grammar's alternatives; 0 if none. */
  function CharLength(s: Text): (n: nat)
    ensures n <= |s|
  {
    if s == [] then 0
    else if s[0] <= 0x7F then 1
    else if 0xC2 <= s[0] <= 0xDF && Tails(s, 1) then 2
    else if s[0] == 0xE0 && Tails(s, 2) && 0xA0 <= s[1] then 3
    else if 0xE1 <= s[0] <= 0xEC && Tails(s, 2) then 3
    else if s[0] == 0xED && Tails(s, 2) && s[1] <= 0x9F then 3
    else if 0xEE <= s[0] <= 0xEF && Tails(s, 2) then 3
    else if s[0] == 0xF0 && Tails(s, 3) && 0x90 <= s[1] then 4
    else if 0xF1 <= s[0] <= 0xF3 && Tails(s, 3) then 4
    else if s[0] == 0xF4 && Tails(s, 3) && s[1] <= 0x8F then 4
    else 0
  }

  /** UTF8-octets: a run of UTF8-chars. */
  predicate IsUtf8(s: Text)
  {
    s == [] || (CharLength(s) > 0 && IsUtf8(s[CharLength(s)..]))
  }

  /** How many continuation bytes a lead byte announces, or -1: the tests `c < 0x80`,
      `(c & 0xE0) == 0xC0`, `(c & 0xF0) == 0xE0` and `(c & 0xF8) == 0xF0`. */
  function Announced(c: byte): int
  {
    if c < 0x80 then 0
    else if 0xC0 <= c < 0xE0 then 1
    else if 0xE0 <= c < 0xF0 then 2
    else if 0xF0 <= c < 0xF8 then 3
    else -1
  }

  /** The bits a lead byte contributes: `c & 0x1F`, `c & 0x0F` or `c & 0x07`. */
  function LeadBits(c: byte): nat
  {
    if c < 0x80 then c
    else if c < 0xE0 then c % 0x20
    else if c < 0xF0 then c % 0x10
    else c % 0x08
  }

  /** The code point of the first `n` bytes after a lead, six bits from each. */
  function CodePoint(s: Text, n: nat): nat
    requires n < |s|
  {
    if n == 0 then LeadBits(s[0]) else CodePoint(s, n - 1) * 64 + s[n] % 64
  }

  /** The checks after the continuation bytes are read: overlong, out of range, surrogate. */
  predicate Accepted(n: int, cp: nat)
  {
    && !(n == 1 && cp < 0x80) && !(n == 2 && cp < 0x800) && !(n == 3 && cp < 0x10000)
    && cp <= 0x10FFFF && !(0xD800 <= cp <= 0xDFFF)
  }

  predicate Scanned(s: Text)
  {
    && s != [] && Announced(s[0]) >= 0 && Tails(s, Announced(s[0]))
    && Accepted(Announced(s[0]), CodePoint(s, Announced(s[0])))
  }

  lemma OnePoint(s: Text)
    requires 1 < |s| && 0xC0 <= s[0] < 0xE0 && Tail(s[1])
    ensures CodePoint(s, 1) == (s[0] as int - 0xC0) * 64 + (s[1] as int - 0x80)
  {
    assert CodePoint(s, 0) == s[0] - 0xC0;
  }

  lemma TwoPoint(s: Text)
    requires 2 < |s| && 0xE0 <= s[0] < 0xF0 && Tail(s[1]) && Tail(s[2])
    ensures CodePoint(s, 2) == (s[0] as int - 0xE0) * 4096 + (s[1] as int - 0x80) * 64 + (s[2] as int - 0x80)
  {
    assert CodePoint(s, 0) == s[0] - 0xE0;
    assert CodePoint(s, 1) == (s[0] as int - 0xE0) * 64 + (s[1] as int - 0x80);
  }

  lemma ThreePoint(s: Text)
    requires 3 < |s| && 0xF0 <= s[0] < 0xF8 && Tail(s[1]) && Tail(s[2]) && Tail(s[3])
    ensures CodePoint(s, 3) ==
      (s[0] as int - 0xF0) * 262144 + (s[1] as int - 0x80) * 4096 + (s[2] as int - 0x80) * 64 + (s[3] as int - 0x80)
  {
    assert CodePoint(s, 0) == s[0] - 0xF0;
    assert CodePoint(s, 1) == (s[0] as int - 0xF0) * 64 + (s[1] as int - 0x80);
    assert CodePoint(s, 2) == (s[0] as int - 0xF0) * 4096 + (s[1] as int - 0x80) * 64 + (s[2] as int - 0x80);
  }

  /** One character passes the scan exactly when it is one of the grammar's, with the length
      the lead byte announced. */
  lemma ScanIsGrammar(s: Text)
    requires s != []
    ensures Scanned(s) <==> CharLength(s) > 0
    ensures CharLength(s) > 0 ==> CharLength(s) == Announced(s[0]) + 1
  {
    hide CodePoint;
    var n := Announced(s[0]);
    if n == 0 {
      assert CodePoint(s, 0) == LeadBits(s[0]) by { LeadPoint(s); }
    } else if n >= 1 && Tails(s, n) {
      assert Tail(s[1]);
      if n == 1 {
        OnePoint(s);
      } else if n == 2 {
        assert Tail(s[2]);
        TwoPoint(s);
      } else {
        assert Tail(s[2]) && Tail(s[3]);
        ThreePoint(s);
      }
    }
  }

  lemma LeadPoint(s: Text)
    requires s != []
    ensures CodePoint(s, 0) == LeadBits(s[0])
  {
  }

  /** `valid_utf8`. */
  method ValidUtf8(s: Text) returns (ok: bool)
    ensures ok <==> IsUtf8(s)
  {
    hide CharLength, Accepted, LeadBits, Announced;
    var i := 0;
    while i < |s|
      invariant i <= |s|
      invariant IsUtf8(s) <==> IsUtf8(s[i..])
    {
      var rest := s[i..];
      ScanIsGrammar(rest);
      var n := Announced(s[i]);
      if n < 0 { return false; }
      if n > 0 && i + n >= |s| { return false; }
      var cp: nat := LeadBits(s[i]);
      var k := 1;
      while k <= n
        invariant 1 <= k <= n + 1
        invariant forall j :: 1 <= j < k ==> Tail(rest[j])
        invariant cp == CodePoint(rest, k - 1)
      {
        if !(s[i + k] / 64 == 2) {
          assert !Tail(rest[k]);
          return false;
        }
        cp := cp * 64 + s[i + k] % 64;
        k := k + 1;
      }
      if !Accepted(n, cp) { return false; }
      assert s[i..][n + 1..] == s[i + n + 1..];
      i := i + n + 1;
    }
    return true;
  }
}
