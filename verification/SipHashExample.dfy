/** The example of appendix A of the SipHash paper, round by round. */
module SipHashExample {

  import opened Arithmetic
  import opened Words
  import opened SipHash

  /** Key octets 0 to 15. */
  const KEY: seq<Octet> := [0, 1, 2, 3, 4, 5, 6, 7, 8, 9, 10, 11, 12, 13, 14, 15]
  /** Message octets 0 to 14. */
  const MESSAGE: seq<Octet> := [0, 1, 2, 3, 4, 5, 6, 7, 8, 9, 10, 11, 12, 13, 14]

  /** The lanes at the start, and after each step of compression and finalization. */
  const L0: Lanes<bv64> := Lanes(0x7469686173716475, 0x6b617f6d656e6665, 0x6b7f62616d677361, 0x7b6b696e727e6c7b)
  const L1: Lanes<bv64> := Lanes(0x7469686173716475, 0x6b617f6d656e6665, 0x6b7f62616d677361, 0x7c6d6c6a717c6d7b)
  const L2: Lanes<bv64> := Lanes(0x64668a929363847f, 0x4ed232083d9aa8dc, 0xf2f74892d8141a2e, 0x9290f9810552f4a8)
  const L3: Lanes<bv64> := Lanes(0x4d07749cdd0858e0, 0xd52f6f62a4f59a4, 0x634cb3577b01fd3d, 0xa5224d6f55c7d9c8)
  const L4: Lanes<bv64> := Lanes(0x4a017198de0a59e0, 0xd52f6f62a4f59a4, 0x634cb3577b01fd3d, 0xa5224d6f55c7d9c8)
  const L5: Lanes<bv64> := Lanes(0x4a017198de0a59e0, 0xd52f6f62a4f59a4, 0x634cb3577b01fd3d, 0xaa2c40635ecdd0c0)
  const L6: Lanes<bv64> := Lanes(0x557560fb6063d060, 0x4c8e675bd961133e, 0xbd3d002b1703a181, 0xfb9441179a4a7315)
  const L7: Lanes<bv64> := Lanes(0x338bbea7645fb759, 0x414fc3fb98efe374, 0xccf13ea527b9f4bd, 0x5293f5da84008f82)
  const L8: Lanes<bv64> := Lanes(0x3c85b3ab6f55be51, 0x414fc3fb98efe374, 0xccf13ea527b9f4bd, 0x5293f5da84008f82)
  const L9: Lanes<bv64> := Lanes(0x3c85b3ab6f55be51, 0x414fc3fb98efe374, 0xccf13ea527b9f442, 0x5293f5da84008f82)
  const L10: Lanes<bv64> := Lanes(0xf2a55244a20e48fe, 0xac5ad16ccc3ca6e4, 0x9fe5adb0a52f393a, 0xfd41d55e88f30308)
  const L11: Lanes<bv64> := Lanes(0xb6c3fbdecc2ae4b4, 0x1638c86adc6b3cf0, 0x28b8b6ab62553d46, 0xc9465e86ec43eb95)
  const L12: Lanes<bv64> := Lanes(0x58101b167209a5e6, 0xf8792ae75b66e7dd, 0x1da14c3ec7f0b4f7, 0x7624ba8a41bc4ad9)
  const L13: Lanes<bv64> := Lanes(0xf6bcd53893fecff1, 0x54b9964c7ea0d937, 0x1b38329c099bb55a, 0x1814bb89ad7be679)

  lemma Round1()
    ensures SipRound(Machine(), L1) == L2
  {
  }

  lemma Round2()
    ensures SipRound(Machine(), L2) == L3
  {
  }

  lemma Round3()
    ensures SipRound(Machine(), L5) == L6
  {
  }

  lemma Round4()
    ensures SipRound(Machine(), L6) == L7
  {
  }

  lemma Round5()
    ensures SipRound(Machine(), L9) == L10
  {
  }

  lemma Round6()
    ensures SipRound(Machine(), L10) == L11
  {
  }

  lemma Round7()
    ensures SipRound(Machine(), L11) == L12
  {
  }

  lemma Round8()
    ensures SipRound(Machine(), L12) == L13
  {
  }

  lemma GatherMore(m: seq<Octet>, i: nat, n: nat, w: bv64, v: bv64)
    requires n > 0 && Gather(Machine(), m, i, n) == w
    requires v == Or(w, ShiftedOctet(OctetAt(m, i + n), n))
    ensures Gather(Machine(), m, i, n + 1) == v
  {
  }

  /** A word as eight octets, least significant first. */
  lemma WordOfOctets(m: seq<Octet>, i: nat, a: bv64, b: bv64, c: bv64, d: bv64, e: bv64, f: bv64, g: bv64, h: bv64)
    requires a == ShiftedOctet(OctetAt(m, i), 0) && b == ShiftedOctet(OctetAt(m, i + 1), 1)
    requires c == ShiftedOctet(OctetAt(m, i + 2), 2) && d == ShiftedOctet(OctetAt(m, i + 3), 3)
    requires e == ShiftedOctet(OctetAt(m, i + 4), 4) && f == ShiftedOctet(OctetAt(m, i + 5), 5)
    requires g == ShiftedOctet(OctetAt(m, i + 6), 6) && h == ShiftedOctet(OctetAt(m, i + 7), 7)
    ensures Word(Machine(), m, i) == Or(Or(Or(Or(Or(Or(Or(a, b), c), d), e), f), g), h)
  {
    assert Gather(Machine(), m, i, 1) == a;
    var w2 := Or(a, b);
    GatherMore(m, i, 1, a, w2);
    var w3 := Or(w2, c);
    GatherMore(m, i, 2, w2, w3);
    var w4 := Or(w3, d);
    GatherMore(m, i, 3, w3, w4);
    var w5 := Or(w4, e);
    GatherMore(m, i, 4, w4, w5);
    var w6 := Or(w5, f);
    GatherMore(m, i, 5, w5, w6);
    var w7 := Or(w6, g);
    GatherMore(m, i, 6, w6, w7);
    GatherMore(m, i, 7, w7, Or(w7, h));
  }

  lemma Octets0To7()
    ensures ShiftedOctet(0, 0) == 0 && ShiftedOctet(1, 1) == 0x100 && ShiftedOctet(2, 2) == 0x2_0000
    ensures ShiftedOctet(3, 3) == 0x300_0000 && ShiftedOctet(4, 4) == 0x4_0000_0000 && ShiftedOctet(5, 5) == 0x500_0000_0000
    ensures ShiftedOctet(6, 6) == 0x6_0000_0000_0000 && ShiftedOctet(7, 7) == 0x700_0000_0000_0000
  {
  }

  lemma Octets8To15()
    ensures ShiftedOctet(8, 0) == 0x8 && ShiftedOctet(9, 1) == 0x900 && ShiftedOctet(10, 2) == 0xa_0000
    ensures ShiftedOctet(11, 3) == 0xb00_0000 && ShiftedOctet(12, 4) == 0xc_0000_0000 && ShiftedOctet(13, 5) == 0xd00_0000_0000
    ensures ShiftedOctet(14, 6) == 0xe_0000_0000_0000 && ShiftedOctet(15, 7) == 0xf00_0000_0000_0000
    ensures ShiftedOctet(0, 7) == 0
  {
  }

  lemma FirstWord(m: seq<Octet>)
    requires forall k :: 0 <= k < 8 ==> OctetAt(m, k) == k
    ensures Word(Machine(), m, 0) == 0x0706050403020100
  {
    Octets0To7();
    WordOfOctets(m, 0, 0, 0x100, 0x2_0000, 0x300_0000, 0x4_0000_0000, 0x500_0000_0000, 0x6_0000_0000_0000, 0x700_0000_0000_0000);
  }

  lemma SecondWord(m: seq<Octet>, h: bv64)
    requires forall k :: 8 <= k < 15 ==> OctetAt(m, k) == k
    requires h == ShiftedOctet(OctetAt(m, 15), 7)
    ensures Word(Machine(), m, 8) == Or(0x0e0d0c0b0a0908, h)
  {
    Octets8To15();
    WordOfOctets(m, 8, 0x8, 0x900, 0xa_0000, 0xb00_0000, 0xc_0000_0000, 0xd00_0000_0000, 0xe_0000_0000_0000, h);
  }

  lemma OctetsOfKey()
    ensures forall k :: 0 <= k < 16 ==> OctetAt(KEY, k) == k
  {
  }

  lemma OctetsOfMessage()
    ensures forall k :: 0 <= k < 15 ==> OctetAt(MESSAGE, k) == k
    ensures OctetAt(MESSAGE, 15) == 0 && |MESSAGE| == 15
  {
  }

  lemma KeyWords(key: seq<Octet>)
    requires forall k :: 0 <= k < 16 ==> OctetAt(key, k) == k
    ensures Word(Machine(), key, 0) == 0x0706050403020100 && Word(Machine(), key, 8) == 0x0f0e0d0c0b0a0908
  {
    FirstWord(key);
    Octets8To15();
    SecondWord(key, 0xf00_0000_0000_0000);
  }

  lemma MessageWords(m: seq<Octet>)
    requires |m| == 15 && forall k :: 0 <= k < 15 ==> OctetAt(m, k) == k
    ensures Word(Machine(), m, 0) == 0x0706050403020100 && LastWord(Machine(), m) == 0x0f0e0d0c0b0a0908
  {
    FirstWord(m);
    Octets8To15();
    SecondWord(m, 0);
    LengthWord();
    assert WholeWords(m) == 8;
  }

  lemma WordByNumber(x: bv64, n: nat)
    requires x as nat == n
    ensures FromNat(n) == x
  {
    NumberReadsBack(x);
  }

  lemma LengthWord()
    ensures FromNat(15 * TOP_BYTE) == 0x0f00_0000_0000_0000
  {
    WordByNumber(0x0f00_0000_0000_0000, 15 * TOP_BYTE);
  }

  lemma Constants()
    ensures FromNat(0x736f6d6570736575) == 0x736f6d6570736575 && FromNat(0x646f72616e646f6d) == 0x646f72616e646f6d
    ensures FromNat(0x6c7967656e657261) == 0x6c7967656e657261 && FromNat(0x7465646279746573) == 0x7465646279746573
    ensures FromNat(0xff) == 0xff
  {
    WordByNumber(0x736f6d6570736575, 0x736f6d6570736575);
    WordByNumber(0x646f72616e646f6d, 0x646f72616e646f6d);
    WordByNumber(0x6c7967656e657261, 0x6c7967656e657261);
    WordByNumber(0x7465646279746573, 0x7465646279746573);
    WordByNumber(0xff, 0xff);
  }

  lemma StartLanes(key: seq<Octet>)
    requires Word(Machine(), key, 0) == 0x0706050403020100 && Word(Machine(), key, 8) == 0x0f0e0d0c0b0a0908
    ensures Initial(Machine(), key) == L0
  {
    Constants();
  }

  /** A block: its word goes into lane 3, two rounds, its word goes into lane 0. */
  lemma Block(s: Lanes<bv64>, w: bv64, x: Lanes<bv64>, y: Lanes<bv64>, z: Lanes<bv64>)
    requires x == s.(v3 := Xor(s.v3, w)) && y == SipRound(Machine(), x) && z == SipRound(Machine(), y)
    ensures Compress(Machine(), s, w) == z.(v0 := Xor(z.v0, w))
  {
    assert Rounds(Machine(), x, 1) == SipRound(Machine(), Rounds(Machine(), x, 0));
    assert Rounds(Machine(), x, 2) == SipRound(Machine(), Rounds(Machine(), x, 1));
  }

  lemma FirstBlock()
    ensures Compress(Machine(), L0, 0x0706050403020100) == L4
  {
    Round1();
    Round2();
    Block(L0, 0x0706050403020100, L1, L2, L3);
  }

  lemma LastBlock()
    ensures Compress(Machine(), L4, 0x0f0e0d0c0b0a0908) == L8
  {
    Round3();
    Round4();
    Block(L4, 0x0f0e0d0c0b0a0908, L5, L6, L7);
  }

  lemma FourRounds(a: Lanes<bv64>, b: Lanes<bv64>, c: Lanes<bv64>, d: Lanes<bv64>, e: Lanes<bv64>)
    requires b == SipRound(Machine(), a) && c == SipRound(Machine(), b)
    requires d == SipRound(Machine(), c) && e == SipRound(Machine(), d)
    ensures Rounds(Machine(), a, 4) == e
  {
    OneRoundMore(a, 0, a);
    OneRoundMore(a, 1, b);
    OneRoundMore(a, 2, c);
    OneRoundMore(a, 3, d);
  }

  lemma OneRoundMore(a: Lanes<bv64>, n: nat, r: Lanes<bv64>)
    requires Rounds(Machine(), a, n) == r
    ensures Rounds(Machine(), a, n + 1) == SipRound(Machine(), r)
  {
  }

  /** The finalization: 0xff goes into lane 2, four rounds, the lanes are combined. */
  lemma Finalization(s: Lanes<bv64>, a: Lanes<bv64>, e: Lanes<bv64>, ff: bv64)
    requires ff == FromNat(0xff) && a == s.(v2 := Xor(s.v2, ff)) && Rounds(Machine(), a, 4) == e
    ensures Finish(Machine(), s) == Xor(Xor(Xor(e.v0, e.v1), e.v2), e.v3)
  {
  }

  lemma Finished()
    ensures Finish(Machine(), L8) == 0xa129ca6149be45e5
  {
    Round5();
    Round6();
    Round7();
    Round8();
    Constants();
    FourRounds(L9, L10, L11, L12, L13);
    Finalization(L8, L9, L13, 0xff);
  }

  lemma Blocks(key: seq<Octet>, m: seq<Octet>, start: Lanes<bv64>, s: Lanes<bv64>, t: Lanes<bv64>)
    requires |m| == 15 && Initial(Machine(), key) == start
    requires s == Compress(Machine(), start, Word(Machine(), m, 0)) && t == Compress(Machine(), s, LastWord(Machine(), m))
    ensures SipHash24(Machine(), key, m) == Finish(Machine(), t)
  {
    assert WholeWords(m) == 8;
    assert Absorb(Machine(), start, m, 0) == start;
    assert Absorb(Machine(), start, m, 8) == s;
  }

  /** The value the paper gives for this key and message. */
  lemma PaperValue()
    ensures SipHash24(Machine(), KEY, MESSAGE) == 0xa129ca6149be45e5
  {
    OctetsOfKey();
    OctetsOfMessage();
    KeyWords(KEY);
    StartLanes(KEY);
    MessageWords(MESSAGE);
    FirstBlock();
    LastBlock();
    Finished();
    Blocks(KEY, MESSAGE, L0, L4, L8);
  }
}
