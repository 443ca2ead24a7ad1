/** The base64 functions as they are written: loops over a buffer and, for the decoder, an accumulator. */
module Base64Code {

  import opened Arithmetic
  import opened Base64Alphabet
  import opened Base64
  import opened Base64Texts

  /** One round of the encoding loop. */
  method PutGroup(src: seq<Octet>, i: nat, target: array<char>, j: nat)
    requires i < |src| && j + 4 <= target.Length
    modifies target
    ensures target[..j + 4] == old(target[..j]) + Group(src, i)
    ensures InBase(64, 0, Values(target[j..j + 4])) ==
              ThreeOctets(0, OctetOrZero(src, i), OctetOrZero(src, i + 1), OctetOrZero(src, i + 2))
    ensures (target[j + 2] == '=' <==> i + 1 >= |src|) && (target[j + 3] == '=' <==> i + 2 >= |src|)
    ensures forall k :: j + 4 <= k < target.Length ==> target[k] == old(target[k])
  {
    var bit24 := Octet24(src, i);
    target[j] := Symbol(bit24 / 262144 % 64);
    target[j + 1] := Symbol(bit24 / 4096 % 64);
    target[j + 2] := if i + 1 < |src| then Symbol(bit24 / 64 % 64) else '=';
    target[j + 3] := if i + 2 < |src| then Symbol(bit24 % 64) else '=';
    assert target[j..j + 4] == Group(src, i);
    assert target[..j + 4] == target[..j] + target[j..j + 4];
    GroupRead(src, i, target[j..j + 4]);
  }

  /** The four characters of a group as a number, and its pads. */
  lemma GroupRead(src: seq<Octet>, i: nat, g: seq<char>)
    requires i < |src| && g == Group(src, i)
    ensures InBase(64, 0, Values(g)) == ThreeOctets(0, OctetOrZero(src, i), OctetOrZero(src, i + 1), OctetOrZero(src, i + 2))
    ensures (g[2] == '=' <==> i + 1 >= |src|) && (g[3] == '=' <==> i + 2 >= |src|)
  {
    var m := ThreeOctets(0, OctetOrZero(src, i), OctetOrZero(src, i + 1), OctetOrZero(src, i + 2));
    GroupNumber(0, src, i, [], OctetOrZero(src, i), OctetOrZero(src, i + 1), OctetOrZero(src, i + 2));
    assert g + [] == g;
    NoDigitsLeft(m);
    GroupPads(src, i, 2);
    GroupPads(src, i, 3);
  }

  /** The encoding loop. */
  method PutGroups(src: seq<Octet>, target: array<char>) returns (j: nat)
    requires |Encode(src)| < target.Length
    modifies target
    ensures j == |Encode(src)| && target[..j] == Encode(src) && target[j..] == old(target[j..])
  {
    var i: nat := 0;
    j := 0;
    while i < |src|
      invariant j + |EncodeFrom(src, i)| == |Encode(src)|
      invariant target[..j] + EncodeFrom(src, i) == Encode(src)
      invariant forall k :: |Encode(src)| <= k < target.Length ==> target[k] == old(target[k])
      decreases |src| - i
    {
      Regroup(target[..j], Group(src, i), EncodeFrom(src, i + 3));
      PutGroup(src, i, target, j);
      i, j := i + 3, j + 4;
    }
  }

  lemma Regroup(done: seq<char>, group: seq<char>, rest: seq<char>)
    ensures done + (group + rest) == done + group + rest
  {
  }

  lemma WrittenNumber(src: seq<Octet>, t: seq<char>)
    requires t == Encode(src)
    ensures InBase(64, 0, Values(t)) == InBase(256, 0, src + Zeros(Missing(|src|)))
  {
    EncodingNumber(src);
  }

  /** `b64_ntop`: the encoding and a terminator, or the size needed, or -1 when it does not fit. */
  method Ntop(src: seq<Octet>, target: array?<char>, targetSize: nat) returns (length: int)
    requires target != null ==> targetSize <= target.Length
    modifies target
    ensures target == null ==> length == |Encode(src)| + 1
    ensures target != null && targetSize < |Encode(src)| + 1 ==> length == -1 && target[..] == old(target[..])
    ensures target != null && targetSize >= |Encode(src)| + 1 ==>
              length == |Encode(src)| && target[..] == Encode(src) + ['\0'] + old(target[|Encode(src)| + 1..])
    ensures target != null && length >= 0 ==>
              InBase(64, 0, Values(target[..length])) == InBase(256, 0, src + Zeros(Missing(|src|)))
  {
    var needed := (|src| + 2) / 3 * 4 + 1;
    if target == null {
      return needed;
    }
    if targetSize < needed {
      return -1;
    }
    ghost var was := target[..];
    var j := PutGroups(src, target);
    assert target[j + 1..] == target[j..][1..] == was[j..][1..] == was[j + 1..];
    target[j] := '\0';
    WrittenNumber(src, target[..j]);
    assert target[..] == target[..j] + [target[j]] + target[j + 1..];
    return j;
  }

  /** One round of the decoding loop; not `ok` is the -1 return. */
  method TakeCharacter(c: char, val: nat, j: nat, k: nat, dst: array?<Octet>, dstSize: nat, ghost out: seq<Octet>)
    returns (ok: bool, val': nat, j': nat, k': nat)
    requires Aligned(Decoder(val, j, out)) && k == |out|
    requires dst != null ==> k <= dstSize <= dst.Length && dst[..k] == out
    modifies dst
    ensures var r := Step(Decoder(val, j, out), c, if dst == null then Unlimited else Limit(dstSize));
            && r == (if ok then Decoder(val', j', r.out) else Rejected(r.out)) && k' == |r.out|
            && (dst != null ==> k' <= dstSize && dst[..] == r.out + old(dst[k'..]))
  {
    ok, val', j', k' := true, val, j, k;
    if IsSpace(c) {
      return;
    }
    if Sextet(c) == -1 {
      ok := false;
      return;
    }
    val' := val + Sextet(c);
    if c != '=' {
      if dst != null && k >= dstSize {
        ok := false;
        return;
      }
      if j % 4 == 1 {
        if dst != null { dst[k] := val' / 16 % 256; }
        k' := k + 1;
      } else if j % 4 == 2 {
        if dst != null { dst[k] := val' / 4 % 256; }
        k' := k + 1;
      } else if j % 4 == 3 {
        if dst != null { dst[k] := val' % 256; }
        k' := k + 1;
      }
    }
    val' := val' * 64 % ACC_RANGE;
    j' := j + 1;
  }

  lemma SameTail<T>(held: seq<T>, out: seq<T>, was: seq<T>, k: nat)
    requires |out| <= k <= |was| && held == out + was[|out|..]
    ensures held[k..] == was[k..]
  {
  }

  /** The same, by what it makes of the rest of the run. */
  method TakeAt(src: seq<char>, i: nat, val: nat, j: nat, k: nat, dst: array?<Octet>, dstSize: nat, ghost out: seq<Octet>)
    returns (ok: bool, val': nat, j': nat, k': nat, ghost d: Decoder)
    requires i < |src| && src[i] != '\0' && Aligned(Decoder(val, j, out)) && k == |out|
    requires dst != null ==> k <= dstSize <= dst.Length && dst[..k] == out
    modifies dst
    ensures Aligned(d) && k' == |d.out| && d == if ok then Decoder(val', j', d.out) else Rejected(d.out)
    ensures var room := if dst == null then Unlimited else Limit(dstSize);
            Run(Decoder(val, j, out), src, i, room) == if ok then Run(d, src, i + 1, room) else d
    ensures k <= k' && (dst != null ==> k' <= dstSize && dst[..] == d.out + old(dst[k'..]))
  {
    ghost var room := if dst == null then Unlimited else Limit(dstSize);
    d := Step(Decoder(val, j, out), src[i], room);
    ok, val', j', k' := TakeCharacter(src[i], val, j, k, dst, dstSize, out);
    RejectedStays(d.out, src, i + 1, room);
  }

  /** The decoding loop; not `ok` is the -1 return from inside it. */
  method TakeCharacters(src: seq<char>, dst: array?<Octet>, dstSize: nat)
    returns (ok: bool, j: nat, k: nat, ghost d: Decoder)
    requires dst != null ==> dstSize <= dst.Length
    modifies dst
    ensures d == Run(START, src, 0, if dst == null then Unlimited else Limit(dstSize))
    ensures if ok then d.Decoder? && j == d.j && k == |d.out| else d.Rejected?
    ensures dst != null ==> |d.out| <= dstSize && dst[..] == d.out + old(dst[|d.out|..])
  {
    ghost var room := if dst == null then Unlimited else Limit(dstSize);
    ghost var was := if dst == null then [] else dst[..];
    d := START;
    var i: nat := 0;
    var val3: nat := 0;
    ok, j, k := true, 0, 0;
    while i < |src| && src[i] != '\0'
      invariant i <= |src| && Aligned(d) && d == Decoder(val3, j, d.out) && k == |d.out| && ok
      invariant Run(START, src, 0, room) == Run(d, src, i, room)
      invariant dst != null ==> k <= dstSize && dst[..] == d.out + was[k..]
    {
      ghost var out, held := d.out, if dst == null then [] else dst[..];
      ok, val3, j, k, d := TakeAt(src, i, val3, j, k, dst, dstSize, out);
      if dst != null {
        SameTail(held, out, was, k);
      }
      if !ok {
        return;
      }
      i := i + 1;
    }
  }

  /** `b64_pton`: the number of octets, or -1; what is written to the destination in either case. */
  method Pton(src: seq<char>, dst: array?<Octet>, dstSize: nat) returns (count: int)
    requires dst != null ==> dstSize <= dst.Length
    modifies dst
    ensures var r := Run(START, src, 0, if dst == null then Unlimited else Limit(dstSize));
            && count == Outcome(r)
            && (dst != null ==> |r.out| <= dstSize && dst[..] == r.out + old(dst[|r.out|..]))
    ensures var n := Stop(src, 0, if dst == null then Unlimited else Limit(dstSize));
            var octets := OctetsOf(Signs(src, n));
            && count == (if Ended(src, n) && |Signs(src, n)| % 4 == 0 then |octets| else -1)
            && (dst != null ==> |octets| <= dstSize && dst[..] == octets + old(dst[|octets|..]))
  {
    OutcomeOf(src, if dst == null then Unlimited else Limit(dstSize));
    var ok, j, k, _ := TakeCharacters(src, dst, dstSize);
    if !ok || j % 4 != 0 {
      return -1;
    }
    return k;
  }
}
