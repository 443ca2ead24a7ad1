/**
 Three implementations of SipHash-2-4 and the function of section 2 of the SipHash paper, which all
 of them compute. They are stated over the operations of a 64-bit word. They combine the octets of a
 word, the key with the constants and the final lanes in different orders, so that their agreement
 needs bitwise or and exclusive or to be commutative and associative; it holds for whatever addition
 and rotation do. `Words` says what all of them do on machine words.
 */
module SipHash {

  import opened Arithmetic
  import opened Words

  const TOP_BYTE: nat := 0x100_0000_0000_0000
  // ---------- the function of the paper ----------

  datatype Lanes<W> = Lanes(v0: W, v1: W, v2: W, v3: W)

  /** One SipRound: fourteen add, rotate and exclusive-or steps. */
  function SipRound<W>(ops: Ops<W>, s: Lanes<W>): Lanes<W> {
    var a0, a2 := ops.add(s.v0, s.v1), ops.add(s.v2, s.v3);
    var b1, b3 := ops.xor(ops.rotl(s.v1, 13), a0), ops.xor(ops.rotl(s.v3, 16), a2);
    var d2, d0 := ops.add(a2, b1), ops.add(ops.rotl(a0, 32), b3);
    Lanes(d0, ops.xor(ops.rotl(b1, 17), d2), ops.rotl(d2, 32), ops.xor(ops.rotl(b3, 21), d0))
  }

  function Rounds<W>(ops: Ops<W>, s: Lanes<W>, n: nat): Lanes<W> {
    if n == 0 then s else SipRound(ops, Rounds(ops, s, n - 1))
  }

  function OctetAt(m: seq<Octet>, i: nat): Octet {
    if i < |m| then m[i] else 0
  }

  /** The first `n` octets from `i`, least significant first; octets past the end count as zero. */
  function Gather<W>(ops: Ops<W>, m: seq<Octet>, i: nat, n: nat): W {
    if n == 0 then ops.word(0)
    else if n == 1 then ops.octet(OctetAt(m, i), 0)
    else ops.or(Gather(ops, m, i, n - 1), ops.octet(OctetAt(m, i + n - 1), n - 1))
  }

  function Word<W>(ops: Ops<W>, m: seq<Octet>, i: nat): W {
    Gather(ops, m, i, 8)
  }

  function Initial<W>(ops: Ops<W>, key: seq<Octet>): Lanes<W> {
    var k0, k1 := Word(ops, key, 0), Word(ops, key, 8);
    Lanes(ops.xor(k0, ops.word(0x736f6d6570736575)), ops.xor(k1, ops.word(0x646f72616e646f6d)),
          ops.xor(k0, ops.word(0x6c7967656e657261)), ops.xor(k1, ops.word(0x7465646279746573)))
  }

  function Compress<W>(ops: Ops<W>, s: Lanes<W>, w: W): Lanes<W> {
    var r := Rounds(ops, s.(v3 := ops.xor(s.v3, w)), 2);
    r.(v0 := ops.xor(r.v0, w))
  }

  /** Compression of the whole words below `n`. */
  function Absorb<W>(ops: Ops<W>, s: Lanes<W>, m: seq<Octet>, n: nat): Lanes<W> {
    if n < 8 then s else Compress(ops, Absorb(ops, s, m, n - 8), Word(ops, m, n - 8))
  }

  function WholeWords(m: seq<Octet>): (n: nat)
    ensures n % 8 == 0 && n <= |m| < n + 8
  {
    |m| - |m| % 8
  }

  /** The last word: the remaining octets, zeros, and the length modulo 256 in the top byte. */
  function LastWord<W>(ops: Ops<W>, m: seq<Octet>): W {
    ops.or(Word(ops, m, WholeWords(m)), ops.word((|m| % 256) * TOP_BYTE))
  }

  function Finish<W>(ops: Ops<W>, s: Lanes<W>): W {
    var r := Rounds(ops, s.(v2 := ops.xor(s.v2, ops.word(0xff))), 4);
    ops.xor(ops.xor(ops.xor(r.v0, r.v1), r.v2), r.v3)
  }

  /** The whole words of the message compressed, then `last`, then the finalization. */
  function HashWith<W>(ops: Ops<W>, key: seq<Octet>, m: seq<Octet>, last: W): W {
    Finish(ops, Compress(ops, Absorb(ops, Initial(ops, key), m, WholeWords(m)), last))
  }

  /** SipHash-2-4 of section 2 of the paper. */
  function SipHash24<W>(ops: Ops<W>, key: seq<Octet>, m: seq<Octet>): W {
    HashWith(ops, key, m, LastWord(ops, m))
  }

  // ---------- the three rounds ----------

  /** The reference `SIPROUND`, one lane after the other. */
  method RoundReference<W>(ops: Ops<W>, s: Lanes<W>) returns (r: Lanes<W>)
    ensures r == SipRound(ops, s)
  {
    var v0, v1, v2, v3 := s.v0, s.v1, s.v2, s.v3;
    v0 := ops.add(v0, v1);
    v1 := ops.rotl(v1, 13);
    v1 := ops.xor(v1, v0);
    v0 := ops.rotl(v0, 32);
    v2 := ops.add(v2, v3);
    v3 := ops.rotl(v3, 16);
    v3 := ops.xor(v3, v2);
    v0 := ops.add(v0, v3);
    v3 := ops.rotl(v3, 21);
    v3 := ops.xor(v3, v0);
    v2 := ops.add(v2, v1);
    v1 := ops.rotl(v1, 17);
    v1 := ops.xor(v1, v2);
    v2 := ops.rotl(v2, 32);
    r := Lanes(v0, v1, v2, v3);
  }

  /** `sipcompress`, with the two halves interleaved. */
  method RoundInterleaved<W>(ops: Ops<W>, s: Lanes<W>) returns (r: Lanes<W>)
    ensures r == SipRound(ops, s)
  {
    var v0, v1, v2, v3 := s.v0, s.v1, s.v2, s.v3;
    v0 := ops.add(v0, v1);
    v2 := ops.add(v2, v3);
    v1 := ops.rotl(v1, 13);
    v3 := ops.rotl(v3, 16);
    v1 := ops.xor(v1, v0);
    v3 := ops.xor(v3, v2);
    v0 := ops.rotl(v0, 32);
    v2 := ops.add(v2, v1);
    v0 := ops.add(v0, v3);
    v1 := ops.rotl(v1, 17);
    v3 := ops.rotl(v3, 21);
    v1 := ops.xor(v1, v2);
    v3 := ops.xor(v3, v0);
    v2 := ops.rotl(v2, 32);
    r := Lanes(v0, v1, v2, v3);
  }

  method TwoInterleaved<W>(ops: Ops<W>, s: Lanes<W>) returns (r: Lanes<W>)
    ensures r == Rounds(ops, s, 2)
  {
    r := RoundInterleaved(ops, s);
    assert r == Rounds(ops, s, 1);
    r := RoundInterleaved(ops, r);
  }

  /** `HALF_ROUND` on lanes named by the caller. */
  method HalfRound<W>(ops: Ops<W>, a: W, b: W, c: W, d: W, s: nat, t: nat) returns (a': W, b': W, c': W, d': W)
    ensures a' == ops.rotl(ops.add(a, b), 32) && b' == ops.xor(ops.rotl(b, s), ops.add(a, b))
    ensures c' == ops.add(c, d) && d' == ops.xor(ops.rotl(d, t), ops.add(c, d))
  {
    a' := ops.add(a, b);
    c' := ops.add(c, d);
    b' := ops.xor(ops.rotl(b, s), a');
    d' := ops.xor(ops.rotl(d, t), c');
    a' := ops.rotl(a', 32);
  }

  /** `DOUBLE_ROUND`: two rounds from four half rounds, with lanes 0 and 2 swapped in between. */
  method DoubleRound<W>(ops: Ops<W>, s: Lanes<W>) returns (r: Lanes<W>)
    ensures r == Rounds(ops, s, 2)
  {
    var v0, v1, v2, v3 := s.v0, s.v1, s.v2, s.v3;
    v0, v1, v2, v3 := HalfRound(ops, v0, v1, v2, v3, 13, 16);
    v2, v1, v0, v3 := HalfRound(ops, v2, v1, v0, v3, 17, 21);
    assert Rounds(ops, s, 1) == SipRound(ops, s) == Lanes(v0, v1, v2, v3);
    v0, v1, v2, v3 := HalfRound(ops, v0, v1, v2, v3, 13, 16);
    v2, v1, v0, v3 := HalfRound(ops, v2, v1, v0, v3, 17, 21);
    r := Lanes(v0, v1, v2, v3);
  }

  // ---------- lengths and tails ----------

  /** Shifting the whole length by 56 keeps only its low byte, as masking it first does. */
  lemma LengthForms(n: nat)
    ensures (n * TOP_BYTE) % WORD_RANGE == (n % 256) * TOP_BYTE
  {
  }

  /** Octets `n - 1` down to 0 of the tail or-ed into `b`, as the fall-through switches do. */
  function TailOr<W>(ops: Ops<W>, b: W, m: seq<Octet>, i: nat, n: nat): W {
    if n == 0 then b else TailOr(ops, ops.or(b, ops.octet(OctetAt(m, i + n - 1), n - 1)), m, i, n - 1)
  }

  lemma {:induction false} TailOrIsGather<W(!new)>(ops: Ops<W>, b: W, m: seq<Octet>, i: nat, n: nat)
    requires WordLaws(ops)
    ensures TailOr(ops, b, m, i, n) == ops.or(Gather(ops, m, i, n), b)
  {
    if n > 0 {
      var x, g := ops.octet(OctetAt(m, i + n - 1), n - 1), Gather(ops, m, i, n - 1);
      TailOrIsGather(ops, ops.or(b, x), m, i, n - 1);
      assert ops.or(g, ops.or(b, x)) == ops.or(g, ops.or(x, b)) == ops.or(ops.or(g, x), b);
    } else {
      assert ops.or(b, ops.word(0)) == ops.or(ops.word(0), b);
    }
  }

  /** Octets past the end add nothing. */
  lemma {:induction false} GatherStops<W(!new)>(ops: Ops<W>, m: seq<Octet>, i: nat, k: nat, n: nat)
    requires WordLaws(ops) && k <= n && i + k >= |m|
    ensures Gather(ops, m, i, n) == Gather(ops, m, i, k)
  {
    if k < n {
      GatherStops(ops, m, i, k, n - 1);
    }
  }

  /** The last word as the reference builds it: the shifted length, then a fall-through switch. */
  function SwitchedLast<W>(ops: Ops<W>, m: seq<Octet>): W {
    TailOr(ops, ops.word((|m| * TOP_BYTE) % WORD_RANGE), m, WholeWords(m), |m| % 8)
  }

  /** The same with the length masked before it is shifted. */
  function MaskedLast<W>(ops: Ops<W>, m: seq<Octet>): W {
    TailOr(ops, ops.word((|m| % 256) * TOP_BYTE), m, WholeWords(m), |m| % 8)
  }

  /** The shifted length or-ed with a copied word. */
  function CopiedLast<W>(ops: Ops<W>, m: seq<Octet>): W {
    ops.or(ops.word((|m| * TOP_BYTE) % WORD_RANGE), Word(ops, m, WholeWords(m)))
  }

  /** The three tails are the last word of the paper. */
  lemma TailsAgree<W(!new)>(ops: Ops<W>, m: seq<Octet>)
    requires WordLaws(ops)
    ensures SwitchedLast(ops, m) == MaskedLast(ops, m) == CopiedLast(ops, m) == LastWord(ops, m)
  {
    LengthForms(|m|);
    TailOrIsGather(ops, ops.word((|m| % 256) * TOP_BYTE), m, WholeWords(m), |m| % 8);
    GatherStops(ops, m, WholeWords(m), |m| % 8, 8);
  }

  /** `U8TO64_LE`: eight octets or-ed together. */
  method LoadWord<W(!new)>(ops: Ops<W>, m: seq<Octet>, i: nat) returns (w: W)
    requires i + 8 <= |m|
    ensures w == Word(ops, m, i)
  {
    w := ops.octet(m[i], 0);
    assert w == Gather(ops, m, i, 1);
    w := ops.or(w, ops.octet(m[i + 1], 1));
    assert w == Gather(ops, m, i, 2);
    w := ops.or(w, ops.octet(m[i + 2], 2));
    assert w == Gather(ops, m, i, 3);
    w := ops.or(w, ops.octet(m[i + 3], 3));
    assert w == Gather(ops, m, i, 4);
    w := ops.or(w, ops.octet(m[i + 4], 4));
    assert w == Gather(ops, m, i, 5);
    w := ops.or(w, ops.octet(m[i + 5], 5));
    assert w == Gather(ops, m, i, 6);
    w := ops.or(w, ops.octet(m[i + 6], 6));
    assert w == Gather(ops, m, i, 7);
    w := ops.or(w, ops.octet(m[i + 7], 7));
  }

  /** The fall-through switch over the last octets. */
  method TailSwitch<W(!new)>(ops: Ops<W>, b0: W, m: seq<Octet>, i: nat, left: nat) returns (b: W)
    requires left <= 7 && i + left == |m|
    ensures b == TailOr(ops, b0, m, i, left)
  {
    b := b0;
    if left >= 7 { b := ops.or(b, ops.octet(m[i + 6], 6)); }
    assert left >= 6 ==> TailOr(ops, b, m, i, 6) == TailOr(ops, b0, m, i, left);
    if left >= 6 { b := ops.or(b, ops.octet(m[i + 5], 5)); }
    assert left >= 5 ==> TailOr(ops, b, m, i, 5) == TailOr(ops, b0, m, i, left);
    if left >= 5 { b := ops.or(b, ops.octet(m[i + 4], 4)); }
    assert left >= 4 ==> TailOr(ops, b, m, i, 4) == TailOr(ops, b0, m, i, left);
    if left >= 4 { b := ops.or(b, ops.octet(m[i + 3], 3)); }
    assert left >= 3 ==> TailOr(ops, b, m, i, 3) == TailOr(ops, b0, m, i, left);
    if left >= 3 { b := ops.or(b, ops.octet(m[i + 2], 2)); }
    assert left >= 2 ==> TailOr(ops, b, m, i, 2) == TailOr(ops, b0, m, i, left);
    if left >= 2 { b := ops.or(b, ops.octet(m[i + 1], 1)); }
    assert left >= 1 ==> TailOr(ops, b, m, i, 1) == TailOr(ops, b0, m, i, left);
    if left >= 1 { b := ops.or(b, ops.octet(m[i], 0)); }
    assert TailOr(ops, b, m, i, 0) == TailOr(ops, b0, m, i, left);
  }

  /** The copying tail: octets are stored into a zeroed word, four of them at once when there are that many. */
  method TailCopy<W(!new)>(ops: Ops<W>, m: seq<Octet>, i: nat, left: nat) returns (t: W)
    requires left <= 7 && i + left == |m|
    ensures t == Word(ops, m, i)
  {
    var pt: seq<Octet> := [0, 0, 0, 0, 0, 0, 0, 0];
    if left >= 7 { pt := pt[6 := m[i + 6]]; }
    if left >= 6 { pt := pt[5 := m[i + 5]]; }
    if left >= 5 { pt := pt[4 := m[i + 4]]; }
    if left >= 4 {
      pt := m[i..i + 4] + pt[4..];
    } else {
      if left >= 3 { pt := pt[2 := m[i + 2]]; }
      if left >= 2 { pt := pt[1 := m[i + 1]]; }
      if left >= 1 { pt := pt[0 := m[i]]; }
    }
    assert |pt| == 8;
    assert pt[0] == OctetAt(m, i) && pt[1] == OctetAt(m, i + 1) && pt[2] == OctetAt(m, i + 2) && pt[3] == OctetAt(m, i + 3);
    assert pt[4] == OctetAt(m, i + 4) && pt[5] == OctetAt(m, i + 5) && pt[6] == OctetAt(m, i + 6) && pt[7] == OctetAt(m, i + 7);
    t := LoadWord(ops, pt, 0);
    SameOctets(ops, pt, m, i, 8);
  }

  lemma {:induction false} SameOctets<W>(ops: Ops<W>, pt: seq<Octet>, m: seq<Octet>, i: nat, n: nat)
    requires n <= |pt| && forall j :: 0 <= j < n ==> pt[j] == OctetAt(m, i + j)
    ensures Gather(ops, pt, 0, n) == Gather(ops, m, i, n)
  {
    if n > 0 {
      SameOctets(ops, pt, m, i, n - 1);
    }
  }

  // ---------- the three implementations ----------

  /** The key load and the four constants. */
  method Start<W(!new)>(ops: Ops<W>, key: seq<Octet>) returns (s: Lanes<W>)
    requires |key| == 16
    ensures s == Initial(ops, key)
  {
    var k0 := LoadWord(ops, key, 0);
    var k1 := LoadWord(ops, key, 8);
    s := Lanes(ops.xor(k0, ops.word(0x736f6d6570736575)), ops.xor(k1, ops.word(0x646f72616e646f6d)),
               ops.xor(k0, ops.word(0x6c7967656e657261)), ops.xor(k1, ops.word(0x7465646279746573)));
  }

  /** The same in the reference, which starts from the constants. */
  method StartReference<W(!new)>(ops: Ops<W>, key: seq<Octet>) returns (s: Lanes<W>)
    requires |key| == 16 && Commutes(ops.xor)
    ensures s == Initial(ops, key)
  {
    s := Lanes(ops.word(0x736f6d6570736575), ops.word(0x646f72616e646f6d),
               ops.word(0x6c7967656e657261), ops.word(0x7465646279746573));
    var k0 := LoadWord(ops, key, 0);
    var k1 := LoadWord(ops, key, 8);
    s := s.(v3 := ops.xor(s.v3, k1));
    s := s.(v2 := ops.xor(s.v2, k0));
    s := s.(v1 := ops.xor(s.v1, k1));
    s := s.(v0 := ops.xor(s.v0, k0));
  }

  /** The reference form: `hashing/stock`. */
  method SipHashReference<W(!new)>(ops: Ops<W>, key: seq<Octet>, m: seq<Octet>) returns (h: W)
    requires |key| == 16 && Commutes(ops.xor)
    ensures h == HashWith(ops, key, m, SwitchedLast(ops, m))
  {
    var s := StartReference(ops, key);
    var left := |m| % 8;
    var b := ops.word((|m| * TOP_BYTE) % WORD_RANGE);
    var i;
    s, i := AbsorbReference(ops, s, m, left);
    b := TailSwitch(ops, b, m, i, left);
    s := CompressReference(ops, s, b);
    h := FinishReference(ops, s);
  }

  method AbsorbReference<W(!new)>(ops: Ops<W>, s0: Lanes<W>, m: seq<Octet>, left: nat) returns (s: Lanes<W>, i: nat)
    requires left == |m| % 8
    ensures i == WholeWords(m) && s == Absorb(ops, s0, m, i)
  {
    s := s0;
    var end := |m| - left;
    i := 0;
    while i != end
      invariant 0 <= i <= end && i % 8 == 0
      invariant s == Absorb(ops, s0, m, i)
      decreases end - i
    {
      var w := LoadWord(ops, m, i);
      s := CompressReference(ops, s, w);
      i := i + 8;
    }
  }

  method FinishReference<W>(ops: Ops<W>, s: Lanes<W>) returns (h: W)
    ensures h == Finish(ops, s)
  {
    var s0 := s.(v2 := ops.xor(s.v2, ops.word(0xff)));
    var r := s0;
    for n := 0 to 4
      invariant r == Rounds(ops, s0, n)
    {
      r := RoundReference(ops, r);
    }
    h := ops.xor(ops.xor(ops.xor(r.v0, r.v1), r.v2), r.v3);
  }

  method CompressReference<W>(ops: Ops<W>, s: Lanes<W>, w: W) returns (r: Lanes<W>)
    ensures r == Compress(ops, s, w)
  {
    r := s.(v3 := ops.xor(s.v3, w));
    ghost var r0 := r;
    for n := 0 to 2
      invariant r == Rounds(ops, r0, n)
    {
      r := RoundReference(ops, r);
    }
    r := r.(v0 := ops.xor(r.v0, w));
  }

  /** The interleaved form: `hashing/floodyberry`. */
  method SipHashInterleaved<W(!new)>(ops: Ops<W>, key: seq<Octet>, m: seq<Octet>) returns (h: W)
    requires |key| == 16
    ensures h == HashWith(ops, key, m, MaskedLast(ops, m))
  {
    var s := Start(ops, key);
    var last7 := ops.word((|m| % 256) * TOP_BYTE);
    var blocks := |m| - |m| % 8;
    s := AbsorbInterleaved(ops, s, m, blocks);
    last7 := TailSwitch(ops, last7, m, blocks, |m| - blocks);
    s := CompressInterleaved(ops, s, last7);
    h := FinishInterleaved(ops, s);
  }

  method AbsorbInterleaved<W(!new)>(ops: Ops<W>, s0: Lanes<W>, m: seq<Octet>, blocks: nat) returns (s: Lanes<W>)
    requires blocks == WholeWords(m)
    ensures s == Absorb(ops, s0, m, blocks)
  {
    s := s0;
    var i := 0;
    while i < blocks
      invariant 0 <= i <= blocks && i % 8 == 0
      invariant s == Absorb(ops, s0, m, i)
    {
      var w := LoadWord(ops, m, i);
      s := CompressInterleaved(ops, s, w);
      i := i + 8;
    }
  }

  method FinishInterleaved<W>(ops: Ops<W>, s: Lanes<W>) returns (h: W)
    ensures h == Finish(ops, s)
  {
    var s0 := s.(v2 := ops.xor(s.v2, ops.word(0xff)));
    var r := TwoInterleaved(ops, s0);
    r := TwoInterleaved(ops, r);
    RoundsAdd(ops, s0, 2, 2);
    h := ops.xor(ops.xor(ops.xor(r.v0, r.v1), r.v2), r.v3);
  }

  method CompressInterleaved<W>(ops: Ops<W>, s: Lanes<W>, w: W) returns (r: Lanes<W>)
    ensures r == Compress(ops, s, w)
  {
    r := s.(v3 := ops.xor(s.v3, w));
    r := TwoInterleaved(ops, r);
    r := r.(v0 := ops.xor(r.v0, w));
  }

  /** The half-round form: `hashing/siphash-bench`. */
  method SipHashHalfRounds<W(!new)>(ops: Ops<W>, key: seq<Octet>, m: seq<Octet>) returns (h: W)
    requires |key| == 16 && Associates(ops.xor)
    ensures h == HashWith(ops, key, m, CopiedLast(ops, m))
  {
    var s := Start(ops, key);
    var b := ops.word((|m| * TOP_BYTE) % WORD_RANGE);
    var at, size;
    s, at, size := AbsorbHalfRounds(ops, s, m);
    var t := TailCopy(ops, m, at, size);
    b := ops.or(b, t);
    s := CompressHalfRounds(ops, s, b);
    h := FinishHalfRounds(ops, s);
  }

  method AbsorbHalfRounds<W(!new)>(ops: Ops<W>, s0: Lanes<W>, m: seq<Octet>) returns (s: Lanes<W>, i: nat, size: nat)
    ensures i == WholeWords(m) && size <= 7 && i + size == |m| && s == Absorb(ops, s0, m, i)
  {
    s := s0;
    i, size := 0, |m|;
    while size >= 8
      invariant i + size == |m| && i % 8 == 0
      invariant s == Absorb(ops, s0, m, i)
    {
      var w := LoadWord(ops, m, i);
      i := i + 8;
      size := size - 8;
      s := CompressHalfRounds(ops, s, w);
    }
  }

  method FinishHalfRounds<W(!new)>(ops: Ops<W>, s: Lanes<W>) returns (h: W)
    requires Associates(ops.xor)
    ensures h == Finish(ops, s)
  {
    var s0 := s.(v2 := ops.xor(s.v2, ops.word(0xff)));
    var r := DoubleRound(ops, s0);
    r := DoubleRound(ops, r);
    RoundsAdd(ops, s0, 2, 2);
    h := ops.xor(ops.xor(r.v0, r.v1), ops.xor(r.v2, r.v3));
  }

  lemma {:induction false} RoundsAdd<W>(ops: Ops<W>, s: Lanes<W>, a: nat, b: nat)
    ensures Rounds(ops, Rounds(ops, s, a), b) == Rounds(ops, s, a + b)
  {
    if b > 0 {
      RoundsAdd(ops, s, a, b - 1);
    }
  }

  method CompressHalfRounds<W>(ops: Ops<W>, s: Lanes<W>, w: W) returns (r: Lanes<W>)
    ensures r == Compress(ops, s, w)
  {
    r := s.(v3 := ops.xor(s.v3, w));
    r := DoubleRound(ops, r);
    r := r.(v0 := ops.xor(r.v0, w));
  }

  /** The three implementations return the same value, that of the paper. */
  method AllThree<W(!new)>(ops: Ops<W>, key: seq<Octet>, m: seq<Octet>) returns (a: W, b: W, c: W)
    requires |key| == 16 && WordLaws(ops)
    ensures a == b == c == SipHash24(ops, key, m)
  {
    TailsAgree(ops, m);
    a := SipHashReference(ops, key, m);
    b := SipHashInterleaved(ops, key, m);
    c := SipHashHalfRounds(ops, key, m);
  }

  /** And so on 64-bit words. */
  method AllThreeOnWords(key: seq<Octet>, m: seq<Octet>) returns (a: bv64, b: bv64, c: bv64)
    requires |key| == 16
    ensures a == b == c == SipHash24(Machine(), key, m)
  {
    MachineLaws();
    a, b, c := AllThree(Machine(), key, m);
  }
}
