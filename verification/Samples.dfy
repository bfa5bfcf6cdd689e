/** Two devices, and a few short values in their canonical bytes. */
module Samples {
  import opened Bytes
  import opened Codec
  import CodecLaws
  import Exports
  import opened Numbers
  import opened Options
  import opened Tags
  import Utf8

  /** Replica ids of sixteen letters. */
  const FIRST: Text := [97, 97, 97, 97, 97, 97, 97, 97, 97, 97, 97, 97, 97, 97, 97, 97]
  const SECOND: Text := [98, 98, 98, 98, 98, 98, 98, 98, 98, 98, 98, 98, 98, 98, 98, 98]

  lemma TwoDevices()
    ensures ValidId(FIRST) && ValidId(SECOND) && FIRST != SECOND
  {
    assert FIRST[0] == 97 && SECOND[0] == 98;
  }

  lemma MintsApart(m: nat, n: nat)
    ensures Mint(FIRST, m) == Mint(FIRST, n) ==> m == n
    ensures Mint(SECOND, m) == Mint(SECOND, n) ==> m == n
    ensures Mint(FIRST, m) != Mint(SECOND, n)
    ensures Mint(FIRST, m) != [] && Mint(SECOND, n) != []
  {
    TwoDevices();
    MintParts(FIRST, m);
    MintParts(SECOND, n);
    if Mint(FIRST, m) == Mint(FIRST, n) { MintInjective(FIRST, m, FIRST, n); }
    if Mint(SECOND, m) == Mint(SECOND, n) { MintInjective(SECOND, m, SECOND, n); }
    if Mint(FIRST, m) == Mint(SECOND, n) { MintInjective(FIRST, m, SECOND, n); }
  }

  lemma LaterOfTwo(m: nat, n: nat)
    requires m < n < 10
    ensures StampLess(StampOf(Mint(FIRST, m)), StampOf(Mint(SECOND, n)))
  {
    TwoDevices();
    StampMint(FIRST, m);
    StampMint(SECOND, n);
  }

  lemma {:induction false} AsciiIsUtf8(s: Text)
    requires forall i :: 0 <= i < |s| ==> s[i] <= 0x7F
    ensures Utf8.IsUtf8(s)
  {
    if s != [] { AsciiIsUtf8(s[1..]); }
  }

  lemma SmallUvarint(n: nat)
    requires n < 128
    ensures Uvarint(n) == [n]
  {
  }

  lemma LetterBytes(c: byte)
    ensures Enc(Str([c])) == [STR, 1, c]
  {
    SmallUvarint(1);
  }

  /** A short text is decoded from its encoding. */
  lemma LetterBack(c: byte)
    requires 0 < c <= 0x7F
    ensures Decode(Enc(Str([c]))) == Some(Str([c])) && IsCanonical(Enc(Str([c])))
    ensures Exports.NameIn(Some(Enc(Str([c])))) == [c]
  {
    hide Enc, Decode;
    var v := Str([c]);
    AsciiIsUtf8([c]);
    LetterBytes(c);
    CodecLaws.DecodeEncode(v);
    assert IsValue(v) && Encodable(v) && Depth(v) <= NESTING_LIMIT && |Enc(v)| < TWO_64;
    CodecLaws.CanonicalIffWritten(Enc(v));
  }
}
