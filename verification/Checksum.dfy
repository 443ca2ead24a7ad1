/**
 The Internet checksum of the tunnel writer, with its 32-bit accumulator, against the
 one's-complement sum of section 1 of RFC 1071.
 */
module Checksum {

  import opened Arithmetic

  const WORD: nat := 0x1_0000
  const SUM_RANGE: nat := 0x1_0000_0000
  /** The longest buffer whose words cannot overflow the accumulator. */
  const MAX_LENGTH: nat := 131072

  /** The big-endian word at offset `i`; a last odd octet is padded with zero. */
  function WordAt(data: seq<Octet>, i: nat): (w: nat)
    requires i < |data|
    ensures w < WORD
  {
    var high: int, low: int := data[i], if i + 1 < |data| then data[i + 1] else 0;
    high * 256 + low
  }

  /** Plain sum of `add` and the first words, up to even offset `n`. */
  function WordSum(data: seq<Octet>, add: nat, n: nat): nat
    requires n <= |data| + 1
  {
    if n < 2 then add else WordSum(data, add, n - 2) + WordAt(data, n - 2)
  }

  /** The number of octets rounded up to whole words. */
  function Padded(data: seq<Octet>): (n: nat)
    ensures n % 2 == 0 && |data| <= n <= |data| + 1
  {
    |data| + |data| % 2
  }

  function Fold(s: nat): nat {
    s % WORD + s / WORD
  }

  // ---------- the one's-complement sum ----------

  /** One's-complement addition of two words: the carry goes back in at the bottom. */
  function OnesAdd(a: nat, b: nat): (r: nat)
    requires a < WORD && b < WORD
    ensures r < WORD
  {
    if a + b < WORD then a + b else a + b - WORD + 1
  }

  function OnesSum(data: seq<Octet>, add: nat, n: nat): (r: nat)
    requires add < WORD && n <= |data| + 1
    ensures r < WORD
  {
    if n < 2 then add else OnesAdd(OnesSum(data, add, n - 2), WordAt(data, n - 2))
  }

  /** Both sums agree modulo 65535, and one is zero exactly when the other is. */
  lemma {:induction false} OnesSumResidue(data: seq<Octet>, add: nat, n: nat)
    requires add < WORD && n <= |data| + 1
    ensures (WordSum(data, add, n) - OnesSum(data, add, n)) % (WORD - 1) == 0
    ensures OnesSum(data, add, n) == 0 <==> WordSum(data, add, n) == 0
  {
    if n >= 2 {
      OnesSumResidue(data, add, n - 2);
    }
  }

  /** Two folds bring any 32-bit sum to a word, without changing its residue or losing a non-zero. */
  lemma TwoFoldsSuffice(s: nat)
    requires s < SUM_RANGE
    ensures Fold(Fold(s)) < WORD
    ensures (s - Fold(Fold(s))) % (WORD - 1) == 0
    ensures Fold(Fold(s)) == 0 <==> s == 0
  {
    var t := Fold(s);
    assert s == (s / WORD) * WORD + s % WORD;
    assert s - t == (s / WORD) * (WORD - 1);
    assert t == (t / WORD) * WORD + t % WORD;
    assert t - Fold(t) == (t / WORD) * (WORD - 1);
  }

  /** The accumulator cannot overflow. */
  lemma {:induction false} NoOverflow(data: seq<Octet>, add: nat, n: nat)
    requires add < WORD && n <= |data| + 1
    ensures WordSum(data, add, n) <= (WORD - 1) * (n / 2 + 1)
  {
    if n >= 2 {
      NoOverflow(data, add, n - 2);
    }
  }

  lemma SumFits(data: seq<Octet>, add: nat)
    requires add < WORD && |data| <= MAX_LENGTH
    ensures WordSum(data, add, Padded(data)) < SUM_RANGE
  {
    NoOverflow(data, add, Padded(data));
  }

  /** A word with a given residue modulo 65535 is determined once it is known to be zero or not. */
  lemma ResidueDetermines(s: nat, a: nat, b: nat)
    requires a < WORD && b < WORD
    requires (s - a) % (WORD - 1) == 0 && (s - b) % (WORD - 1) == 0
    requires a == 0 <==> b == 0
    ensures a == b
  {
    assert (a - b) % (WORD - 1) == 0;
  }

  /** The folded sum is the one's-complement sum of RFC 1071. */
  lemma FoldIsOnesSum(data: seq<Octet>, add: nat)
    requires add < WORD && |data| <= MAX_LENGTH
    ensures Fold(Fold(WordSum(data, add, Padded(data)))) == OnesSum(data, add, Padded(data))
  {
    var s := WordSum(data, add, Padded(data));
    SumFits(data, add);
    TwoFoldsSuffice(s);
    OnesSumResidue(data, add, Padded(data));
    ResidueDetermines(s, Fold(Fold(s)), OnesSum(data, add, Padded(data)));
  }

  // ---------- the code ----------

  /** `pkt_checksum`: an accumulator of 32 bits, two folds, the complement of the low 16 bits. */
  method PktChecksum(data: seq<Octet>, add: nat) returns (checksum: nat)
    requires add < WORD
    ensures checksum < WORD
    ensures |data| <= MAX_LENGTH ==> checksum == WORD - 1 - OnesSum(data, add, Padded(data))
    ensures checksum == WORD - 1 - Fold(Fold(WordSum(data, add, Padded(data)) % SUM_RANGE)) % WORD
  {
    var sum := Accumulate(data, add);
    FoldStays(sum);
    sum := (sum % WORD + sum / WORD) % SUM_RANGE;
    FoldStays(sum);
    sum := (sum % WORD + sum / WORD) % SUM_RANGE;
    checksum := WORD - 1 - sum % WORD;
    if |data| <= MAX_LENGTH {
      Truncated(data, add);
    }
  }

  /** Folding a 32-bit sum does not leave 32 bits. */
  lemma FoldStays(s: nat)
    requires s < SUM_RANGE
    ensures Fold(s) < SUM_RANGE && (s % WORD + s / WORD) % SUM_RANGE == Fold(s)
  {
  }

  lemma Truncated(data: seq<Octet>, add: nat)
    requires add < WORD && |data| <= MAX_LENGTH
    ensures Fold(Fold(WordSum(data, add, Padded(data)) % SUM_RANGE)) % WORD == OnesSum(data, add, Padded(data))
  {
    SumFits(data, add);
    assert WordSum(data, add, Padded(data)) % SUM_RANGE == WordSum(data, add, Padded(data));
    FoldIsOnesSum(data, add);
  }

  /** The loop and the odd last octet. */
  method Accumulate(data: seq<Octet>, add: nat) returns (sum: nat)
    requires add < WORD
    ensures sum == WordSum(data, add, Padded(data)) % SUM_RANGE
  {
    sum := add;
    var i: nat, len: nat := 0, |data|;
    while len > 1
      invariant i + len == |data| && i % 2 == 0
      invariant sum == WordSum(data, add, i) % SUM_RANGE
      decreases len
    {
      var high: int, low: int := data[i], data[i + 1];
      AddModulo(WordSum(data, add, i), high * 256 + low);
      sum := (sum + (high * 256 + low)) % SUM_RANGE;
      i := i + 2;
      len := len - 2;
    }
    if len == 1 {
      var high: int := data[i];
      AddModulo(WordSum(data, add, i), high * 256);
      sum := (sum + high * 256) % SUM_RANGE;
      i := i + 2;
    }
    assert i == Padded(data);
  }

  lemma AddModulo(a: nat, b: nat)
    ensures (a % SUM_RANGE + b) % SUM_RANGE == (a + b) % SUM_RANGE
  {
  }

  // ---------- storing the checksum ----------

  /** The header with `w` stored big-endian at `at`. */
  function Stored(data: seq<Octet>, at: nat, w: nat): seq<Octet>
    requires at + 1 < |data| && w < WORD
  {
    data[at := w / 256][at + 1 := w % 256]
  }

  lemma {:induction false} StoredSum(data: seq<Octet>, add: nat, at: nat, w: nat, n: nat)
    requires at + 1 < |data| && at % 2 == 0 && w < WORD && n <= |data| + 1 && n % 2 == 0
    requires data[at] == 0 && data[at + 1] == 0
    ensures WordSum(Stored(data, at, w), add, n) == WordSum(data, add, n) + if at < n then w else 0
  {
    if n >= 2 {
      StoredSum(data, add, at, w, n - 2);
      assert n - 2 != at ==> WordAt(Stored(data, at, w), n - 2) == WordAt(data, n - 2);
    }
  }

  /** The checksum of a buffer, as the method computes it. */
  function InternetChecksum(data: seq<Octet>, add: nat): (c: nat)
    requires add < WORD
    ensures c < WORD
  {
    WORD - 1 - OnesSum(data, add, Padded(data))
  }

  /** Storing the checksum into its zeroed word makes the recomputed checksum zero. */
  lemma StoredChecksumVerifies(data: seq<Octet>, add: nat, at: nat)
    requires add < WORD && |data| <= MAX_LENGTH
    requires at + 1 < |data| && at % 2 == 0 && data[at] == 0 && data[at + 1] == 0
    ensures InternetChecksum(Stored(data, at, InternetChecksum(data, add)), add) == 0
  {
    var c, n := InternetChecksum(data, add), Padded(data);
    var stored := Stored(data, at, c);
    StoredSum(data, add, at, c, n);
    OnesSumResidue(data, add, n);
    OnesSumResidue(stored, add, n);
    Cancels(WordSum(data, add, n), OnesSum(data, add, n), WordSum(stored, add, n), OnesSum(stored, add, n));
  }

  /** Adding the complement of a sum's residue gives the all-ones word. */
  lemma Cancels(s: nat, a: nat, s': nat, b: nat)
    requires a < WORD && b < WORD && s' == s + (WORD - 1 - a)
    requires (s - a) % (WORD - 1) == 0 && (s' - b) % (WORD - 1) == 0
    requires (a == 0 <==> s == 0) && (b == 0 <==> s' == 0)
    ensures b == WORD - 1
  {
    assert s' - (WORD - 1) == s - a;
    assert (s' - (WORD - 1)) % (WORD - 1) == 0;
    assert s' > 0;
  }

  // ---------- the checksum as a number ----------

  /** The first `n` octets as one big-endian number; octets past the end count as zero. */
  function BigEndian(data: seq<Octet>, n: nat): nat {
    if n == 0 then 0 else 256 * BigEndian(data, n - 1) + if n - 1 < |data| then data[n - 1] else 0
  }

  lemma NextWord(data: seq<Octet>, n: nat)
    requires n < |data|
    ensures BigEndian(data, n + 2) == WORD * BigEndian(data, n) + WordAt(data, n)
  {
    assert BigEndian(data, n + 2) == 256 * BigEndian(data, n + 1) + if n + 1 < |data| then data[n + 1] else 0;
    assert BigEndian(data, n + 1) == 256 * BigEndian(data, n) + data[n];
  }

  /** As 65536 leaves 1 modulo 65535, adding the words of a number leaves its residue. */
  lemma {:induction false} SumIsNumber(data: seq<Octet>, add: nat, n: nat)
    requires n <= |data| + 1 && n % 2 == 0
    ensures (WordSum(data, add, n) - (add + BigEndian(data, n))) % (WORD - 1) == 0
  {
    if n >= 2 {
      SumIsNumber(data, add, n - 2);
      NextWord(data, n - 2);
      WordLeavesOne(WordSum(data, add, n - 2), add, BigEndian(data, n - 2), WordAt(data, n - 2));
    }
  }

  lemma WordLeavesOne(s: int, add: int, b: int, w: int)
    requires (s - (add + b)) % (WORD - 1) == 0
    ensures (s + w - (add + (WORD * b + w))) % (WORD - 1) == 0
  {
  }

  /**
   The checksum of a buffer is determined by the number that its octets, with a zero octet behind an
   odd last one, are in big-endian order: together they are zero modulo 65535, and it is 65535
   exactly when everything added is zero.
   */
  lemma ChecksumOfNumber(data: seq<Octet>, add: nat)
    requires add < WORD
    ensures (InternetChecksum(data, add) + add + BigEndian(data, Padded(data))) % (WORD - 1) == 0
    ensures InternetChecksum(data, add) == WORD - 1 <==> add + BigEndian(data, Padded(data)) == 0
  {
    var n := Padded(data);
    SumIsNumber(data, add, n);
    OnesSumResidue(data, add, n);
    ZeroSum(data, add, n);
    Complement(WordSum(data, add, n), OnesSum(data, add, n), add + BigEndian(data, n));
  }

  lemma Complement(s: int, a: int, b: int)
    requires (s - b) % (WORD - 1) == 0 && (s - a) % (WORD - 1) == 0
    ensures (WORD - 1 - a + b) % (WORD - 1) == 0
  {
    assert WORD - 1 - a + b == (s - a) - (s - b) + (WORD - 1);
  }

  lemma {:induction false} ZeroSum(data: seq<Octet>, add: nat, n: nat)
    requires n <= |data| + 1 && n % 2 == 0
    ensures WordSum(data, add, n) == 0 <==> add + BigEndian(data, n) == 0
  {
    if n >= 2 {
      ZeroSum(data, add, n - 2);
      NextWord(data, n - 2);
    }
  }
}
