/**
 The base64 pair used to compare key fingerprints: `b64_ntop` encodes, `b64_pton` decodes with a
 32-bit accumulator that is shifted six bits for every character and never cleared.
 */
module Base64 {
  import opened Arithmetic
  import opened Base64Alphabet

  const ACC_RANGE: nat := 0x1_0000_0000

  // ---------- encoding ----------

  function Octet24(x: seq<Octet>, i: nat): (b: nat)
    requires i < |x|
    ensures b < 0x100_0000
  {
    var b0: int := x[i];
    var b1: int := if i + 1 < |x| then x[i + 1] else 0;
    var b2: int := if i + 2 < |x| then x[i + 2] else 0;
    b0 * 65536 + b1 * 256 + b2
  }

  /** The four characters for the group of up to three octets at `i`. */
  function Group(x: seq<Octet>, i: nat): (g: seq<char>)
    requires i < |x|
    ensures |g| == 4
  {
    var b := Octet24(x, i);
    [Symbol(b / 262144 % 64), Symbol(b / 4096 % 64),
     if i + 1 < |x| then Symbol(b / 64 % 64) else '=',
     if i + 2 < |x| then Symbol(b % 64) else '=']
  }

  function EncodeFrom(x: seq<Octet>, i: nat): (t: seq<char>)
    ensures |t| == (if i < |x| then (|x| - i + 2) / 3 * 4 else 0)
    decreases |x| - i
  {
    if i >= |x| then [] else Group(x, i) + EncodeFrom(x, i + 3)
  }

  /** The encoding; its length is four characters for every started group of three octets. */
  function Encode(x: seq<Octet>): (t: seq<char>)
    ensures |t| == (|x| + 2) / 3 * 4
  {
    EncodeFrom(x, 0)
  }

  // ---------- decoding ----------

  /** `val3`, `j`, and the octets written so far; or the octets written before the -1 return. */
  datatype Decoder = Decoder(acc: nat, j: nat, out: seq<Octet>) | Rejected(out: seq<Octet>)

  /** The destination's size, or none when there is no destination. */
  datatype Room = Unlimited | Limit(size: nat)

  predicate Full(room: Room, k: nat) {
    room.Limit? && k >= room.size
  }

  /** Between characters the low six bits of the accumulator are zero, so or-ing a sextet adds it. */
  predicate Aligned(d: Decoder) {
    d.Decoder? ==> d.acc % 64 == 0 && d.acc < ACC_RANGE
  }

  function Produced(val: nat, j: nat): seq<Octet> {
    if j % 4 == 1 then [val / 16 % 256]
    else if j % 4 == 2 then [val / 4 % 256]
    else if j % 4 == 3 then [val % 256]
    else []
  }

  /** One character. */
  function Step(d: Decoder, c: char, room: Room): (r: Decoder)
    requires Aligned(d)
    ensures Aligned(r)
  {
    if d.Rejected? || IsSpace(c) then d
    else if Sextet(c) < 0 then Rejected(d.out)
    else
      var val := d.acc + Sextet(c);
      if c != '=' && Full(room, |d.out|) then Rejected(d.out)
      else
        ShiftAligned(val);
        Decoder(val * 64 % ACC_RANGE, d.j + 1, if c != '=' then d.out + Produced(val, d.j) else d.out)
  }

  lemma ShiftAligned(val: nat)
    ensures (val * 64 % ACC_RANGE) % 64 == 0
    ensures val * 64 % ACC_RANGE == 64 * (val % 0x400_0000)
  {
    var q, r := SplitBy(val, 0x400_0000);
    DivModUnique(val * 64, ACC_RANGE, q, 64 * r);
    DivModUnique(64 * r, 64, r, 0);
  }

  /** The characters of `src` from `i` up to its end or a NUL. */
  function Run(d: Decoder, src: seq<char>, i: nat, room: Room): (r: Decoder)
    requires Aligned(d) && i <= |src|
    ensures Aligned(r)
    decreases |src| - i
  {
    if i == |src| || src[i] == '\0' then d else Run(Step(d, src[i], room), src, i + 1, room)
  }

  const START: Decoder := Decoder(0, 0, [])

  /** The returned count, or -1. */
  function Outcome(d: Decoder): int {
    if d.Rejected? || d.j % 4 != 0 then -1 else |d.out|
  }

  lemma {:induction false} RejectedStays(out: seq<Octet>, src: seq<char>, i: nat, room: Room)
    requires i <= |src|
    ensures Run(Rejected(out), src, i, room) == Rejected(out)
    decreases |src| - i
  {
    if i < |src| && src[i] != '\0' {
      RejectedStays(out, src, i + 1, room);
    }
  }

  predicate Legal(c: char) {
    IsSpace(c) || Sextet(c) >= 0
  }

  /** Without a destination the characters decide alone: all of them spaces, symbols or pads. */
  lemma {:induction false} AcceptsIffLegal(d: Decoder, src: seq<char>, i: nat)
    requires Aligned(d) && d.Decoder? && i <= |src| && '\0' !in src
    ensures Run(d, src, i, Unlimited).Decoder? <==> forall k :: i <= k < |src| ==> Legal(src[k])
    decreases |src| - i
  {
    if i < |src| {
      if Legal(src[i]) {
        AcceptsIffLegal(Step(d, src[i], Unlimited), src, i + 1);
      } else {
        RejectedStays(d.out, src, i + 1, Unlimited);
      }
    }
  }

  // ---------- the round trip ----------

  /** The accumulator's last sextet, above the six zero bits. */
  predicate EndsIn(acc: nat, s: nat) {
    acc % 4096 == 64 * s
  }

  /** Adding a sextet and truncating to 32 bits leaves that sextet last. */
  lemma ShiftEndsIn(acc: nat, s: nat)
    requires acc % 64 == 0 && s < 64
    ensures EndsIn((acc + s) * 64 % ACC_RANGE, s)
  {
    var u, zero := SplitBy(acc, 64);
    var q, w := SplitBy(u, 0x10_0000);
    DivModUnique((acc + s) * 64, ACC_RANGE, q, 4096 * w + 64 * s);
    DivModUnique(4096 * w + 64 * s, 4096, w, 64 * s);
  }

  /** The three octets that can be cut out of an accumulator ending in sextets `p` and `q`. */
  lemma Slice(u: nat, p: nat, q: nat)
    requires p < 64 && q < 64
    ensures var v := 64 * (64 * u + p) + q;
            v / 16 % 256 == p * 4 + q / 16 && v / 4 % 256 == p % 16 * 16 + q / 4 && v % 256 == p % 4 * 64 + q
  {
    var v := 64 * (64 * u + p) + q;
    var q16, r16 := SplitBy(q, 16);
    DivModUnique(v, 16, 256 * u + 4 * p + q16, r16);
    DivModUnique(256 * u + 4 * p + q16, 256, u, 4 * p + q16);
    var q4, r4 := SplitBy(q, 4);
    var p16, s16 := SplitBy(p, 16);
    DivModUnique(v, 4, 1024 * u + 16 * p + q4, r4);
    DivModUnique(1024 * u + 16 * p + q4, 256, 4 * u + p16, 16 * s16 + q4);
    var p4, s4 := SplitBy(p, 4);
    DivModUnique(v, 256, 16 * u + p4, 64 * s4 + q);
  }

  /** The octets a sextet completes do not depend on older bits of the accumulator. */
  lemma OctetsCut(acc: nat, p: nat, q: nat)
    requires EndsIn(acc, p) && p < 64 && q < 64
    ensures var v := acc + q;
            v / 16 % 256 == p * 4 + q / 16 && v / 4 % 256 == p % 16 * 16 + q / 4 && v % 256 == p % 4 * 64 + q
  {
    var u, low := SplitBy(acc, 4096);
    Slice(u, p, q);
  }

  /** The sextets of 24 bits, by octet. */
  lemma SextetsOfOctets(x0: nat, x1: nat, x2: nat)
    requires x0 < 256 && x1 < 256 && x2 < 256
    ensures var v := x0 * 65536 + x1 * 256 + x2;
            && v / 262144 % 64 == x0 / 4
            && v / 4096 % 64 == x0 % 4 * 16 + x1 / 16
            && v / 64 % 64 == x1 % 16 * 4 + x2 / 64
            && v % 64 == x2 % 64
  {
    var v := x0 * 65536 + x1 * 256 + x2;
    var q0, r0 := SplitBy(x0, 4);
    var q1, r1 := SplitBy(x1, 16);
    var q2, r2 := SplitBy(x2, 64);
    DivModUnique(v, 262144, q0, r0 * 65536 + x1 * 256 + x2);
    DivModUnique(v, 4096, x0 * 16 + q1, r1 * 256 + x2);
    DivModUnique(x0 * 16 + q1, 64, q0, r0 * 16 + q1);
    DivModUnique(v, 64, x0 * 1024 + x1 * 4 + q2, r2);
    DivModUnique(x0 * 1024 + x1 * 4 + q2, 64, x0 * 16 + q1, r1 * 4 + q2);
  }

  /** Putting neighbouring sextets back together gives the octets. */
  lemma OctetsRestored(x0: nat, x1: nat, x2: nat)
    requires x0 < 256 && x1 < 256 && x2 < 256
    ensures var a, b, c, d := x0 / 4, x0 % 4 * 16 + x1 / 16, x1 % 16 * 4 + x2 / 64, x2 % 64;
            a * 4 + b / 16 == x0 && b % 16 * 16 + c / 4 == x1 && c % 4 * 64 + d == x2
  {
    var q0, r0 := SplitBy(x0, 4);
    var q1, r1 := SplitBy(x1, 16);
    var q2, r2 := SplitBy(x2, 64);
    DivModUnique(r0 * 16 + q1, 16, r0, q1);
    DivModUnique(r1 * 4 + q2, 4, r1, q2);
  }

  /** A symbol: the sextet goes into the accumulator, and an octet may come out. */
  lemma StepSymbol(d: Decoder, s: nat, room: Room)
    requires Aligned(d) && d.Decoder? && s < 64 && !Full(room, |d.out|)
    ensures var r := Step(d, Symbol(s), room);
            && r == Decoder((d.acc + s) * 64 % ACC_RANGE, d.j + 1, d.out + Produced(d.acc + s, d.j))
            && EndsIn(r.acc, s)
  {
    SymbolDecodes(s);
    ShiftEndsIn(d.acc, s);
  }

  lemma StepPad(d: Decoder, room: Room)
    requires Aligned(d) && d.Decoder?
    ensures Step(d, '=', room) == Decoder(d.acc * 64 % ACC_RANGE, d.j + 1, d.out)
  {
  }

  function StepGroup(d: Decoder, g: seq<char>, room: Room): (r: Decoder)
    requires Aligned(d) && |g| == 4
    ensures Aligned(r)
  {
    Step(Step(Step(Step(d, g[0], room), g[1], room), g[2], room), g[3], room)
  }

  function Taken(x: seq<Octet>, i: nat): seq<Octet>
    requires i < |x|
  {
    if i + 3 <= |x| then x[i..i + 3] else x[i..]
  }

  /** Between groups: nothing rejected, a multiple of four characters taken. */
  predicate AtGroup(d: Decoder) {
    Aligned(d) && d.Decoder? && d.j % 4 == 0
  }

  /** In mid-group: `n` characters of it taken, the last of them sextet `s`. */
  predicate InGroup(d: Decoder, n: nat, s: nat) {
    Aligned(d) && d.Decoder? && d.j % 4 == n && EndsIn(d.acc, s)
  }

  lemma NextInGroup(j: nat, n: nat)
    requires j % 4 == n
    ensures (j + 1) % 4 == if n == 3 then 0 else n + 1
  {
  }

  lemma FirstSymbol(d: Decoder, a: nat, room: Room)
    requires AtGroup(d) && a < 64 && !Full(room, |d.out|)
    ensures var r := Step(d, Symbol(a), room); InGroup(r, 1, a) && r.out == d.out
  {
    StepSymbol(d, a, room);
    NextInGroup(d.j, 0);
  }

  lemma SecondSymbol(d: Decoder, a: nat, b: nat, room: Room)
    requires InGroup(d, 1, a) && a < 64 && b < 64 && !Full(room, |d.out|)
    ensures var r := Step(d, Symbol(b), room); InGroup(r, 2, b) && r.out == d.out + [a * 4 + b / 16]
  {
    StepSymbol(d, b, room);
    NextInGroup(d.j, 1);
    OctetsCut(d.acc, a, b);
  }

  lemma ThirdSymbol(d: Decoder, b: nat, c: nat, room: Room)
    requires InGroup(d, 2, b) && b < 64 && c < 64 && !Full(room, |d.out|)
    ensures var r := Step(d, Symbol(c), room); InGroup(r, 3, c) && r.out == d.out + [b % 16 * 16 + c / 4]
  {
    StepSymbol(d, c, room);
    NextInGroup(d.j, 2);
    OctetsCut(d.acc, b, c);
  }

  lemma FourthSymbol(d: Decoder, c: nat, e: nat, room: Room)
    requires InGroup(d, 3, c) && c < 64 && e < 64 && !Full(room, |d.out|)
    ensures var r := Step(d, Symbol(e), room); AtGroup(r) && r.out == d.out + [c % 4 * 64 + e]
  {
    StepSymbol(d, e, room);
    NextInGroup(d.j, 3);
    OctetsCut(d.acc, c, e);
  }

  /** The characters of a group, and what their sextets restore. */
  lemma GroupSymbols(x: seq<Octet>, i: nat) returns (a: nat, b: nat, c: nat, e: nat)
    requires i < |x|
    ensures a < 64 && b < 64 && c < 64 && e < 64
    ensures Group(x, i) == [Symbol(a), Symbol(b), if i + 1 < |x| then Symbol(c) else '=', if i + 2 < |x| then Symbol(e) else '=']
    ensures a * 4 + b / 16 == x[i]
    ensures i + 1 < |x| ==> b % 16 * 16 + c / 4 == x[i + 1]
    ensures i + 2 < |x| ==> c % 4 * 64 + e == x[i + 2]
  {
    var x0: int, x1: int, x2: int :=
      x[i], if i + 1 < |x| then x[i + 1] else 0, if i + 2 < |x| then x[i + 2] else 0;
    SextetsOfOctets(x0, x1, x2);
    OctetsRestored(x0, x1, x2);
    a, b, c, e := x0 / 4, x0 % 4 * 16 + x1 / 16, x1 % 16 * 4 + x2 / 64, x2 % 64;
    assert Octet24(x, i) == x0 * 65536 + x1 * 256 + x2;
  }

  lemma TwoPads(d: Decoder, s: nat, room: Room)
    requires InGroup(d, 2, s)
    ensures var r := Step(Step(d, '=', room), '=', room); AtGroup(r) && r.out == d.out
  {
    StepPad(d, room);
    StepPad(Step(d, '=', room), room);
  }

  lemma OnePad(d: Decoder, s: nat, room: Room)
    requires InGroup(d, 3, s)
    ensures var r := Step(d, '=', room); AtGroup(r) && r.out == d.out
  {
    StepPad(d, room);
  }

  /** The first two symbols of a group complete its first octet. */
  lemma TwoSymbols(d: Decoder, a: nat, b: nat, room: Room)
    requires AtGroup(d) && a < 64 && b < 64 && !Full(room, |d.out|)
    ensures var r := Step(Step(d, Symbol(a), room), Symbol(b), room);
            InGroup(r, 2, b) && r.out == d.out + [a * 4 + b / 16]
  {
    FirstSymbol(d, a, room);
    SecondSymbol(Step(d, Symbol(a), room), a, b, room);
  }

  /** Decoding one encoded group yields its octets, also when the destination has no room to spare. */
  lemma GroupDecodes(d: Decoder, x: seq<Octet>, i: nat, room: Room)
    requires AtGroup(d) && i < |x|
    requires room.Limit? ==> |d.out| + |Taken(x, i)| <= room.size
    ensures var r := StepGroup(d, Group(x, i), room); AtGroup(r) && r.out == d.out + Taken(x, i)
  {
    var a, b, c, e := GroupSymbols(x, i);
    SymbolsDecode(d, Group(x, i), x, i, a, b, c, e, room);
  }

  lemma SymbolsDecode(d: Decoder, g: seq<char>, x: seq<Octet>, i: nat, a: nat, b: nat, c: nat, e: nat, room: Room)
    requires AtGroup(d) && i < |x| && a < 64 && b < 64 && c < 64 && e < 64
    requires g == [Symbol(a), Symbol(b), if i + 1 < |x| then Symbol(c) else '=', if i + 2 < |x| then Symbol(e) else '=']
    requires a * 4 + b / 16 == x[i]
    requires i + 1 < |x| ==> b % 16 * 16 + c / 4 == x[i + 1]
    requires i + 2 < |x| ==> c % 4 * 64 + e == x[i + 2]
    requires room.Limit? ==> |d.out| + |Taken(x, i)| <= room.size
    ensures var r := StepGroup(d, g, room); AtGroup(r) && r.out == d.out + Taken(x, i)
  {
    var d2 := Step(Step(d, Symbol(a), room), Symbol(b), room);
    TwoSymbols(d, a, b, room);
    FinishGroup(d2, x, i, b, c, e, room);
    FirstOfTaken(d.out, x, i);
    StepGroupFrom(d, g, a, b, room);
  }

  lemma StepGroupFrom(d: Decoder, g: seq<char>, a: nat, b: nat, room: Room)
    requires Aligned(d) && |g| == 4 && a < 64 && b < 64 && g[0] == Symbol(a) && g[1] == Symbol(b)
    ensures StepGroup(d, g, room) == Step(Step(Step(Step(d, Symbol(a), room), Symbol(b), room), g[2], room), g[3], room)
  {
  }

  lemma FirstOfTaken(out: seq<Octet>, x: seq<Octet>, i: nat)
    requires i < |x|
    ensures out + [x[i]] + Taken(x, i)[1..] == out + Taken(x, i)
  {
  }

  /** The last two characters of a group complete what is left of it. */
  lemma FinishGroup(d2: Decoder, x: seq<Octet>, i: nat, b: nat, c: nat, e: nat, room: Room)
    requires InGroup(d2, 2, b) && i < |x| && b < 64 && c < 64 && e < 64
    requires i + 1 < |x| ==> b % 16 * 16 + c / 4 == x[i + 1]
    requires i + 2 < |x| ==> c % 4 * 64 + e == x[i + 2]
    requires room.Limit? ==> |d2.out| + |Taken(x, i)| - 1 <= room.size
    ensures var third, fourth := if i + 1 < |x| then Symbol(c) else '=', if i + 2 < |x| then Symbol(e) else '=';
            var r := Step(Step(d2, third, room), fourth, room);
            AtGroup(r) && r.out == d2.out + Taken(x, i)[1..]
  {
    RestOfTaken(x, i);
    if i + 1 == |x| {
      TwoPads(d2, b, room);
    } else {
      ThirdSymbol(d2, b, c, room);
      var d3 := Step(d2, Symbol(c), room);
      if i + 2 == |x| {
        OnePad(d3, c, room);
      } else {
        FourthSymbol(d3, c, e, room);
        assert d2.out + [x[i + 1]] + [x[i + 2]] == d2.out + [x[i + 1], x[i + 2]];
      }
    }
  }

  lemma RestOfTaken(x: seq<Octet>, i: nat)
    requires i < |x|
    ensures Taken(x, i)[1..] ==
              if i + 1 == |x| then [] else if i + 2 == |x| then [x[i + 1]] else [x[i + 1], x[i + 2]]
  {
  }

  lemma GroupIsPlain(x: seq<Octet>, i: nat)
    requires i < |x|
    ensures forall k :: 0 <= k < 4 ==> Group(x, i)[k] != '\0'
  {
  }

  lemma RunGroup(d: Decoder, g: seq<char>, rest: seq<char>, room: Room)
    requires Aligned(d) && |g| == 4 && forall k :: 0 <= k < 4 ==> g[k] != '\0'
    ensures Run(d, g + rest, 0, room) == Run(StepGroup(d, g, room), rest, 0, room)
  {
    var t := g + rest;
    var d1 := Step(d, g[0], room);
    var d2 := Step(d1, g[1], room);
    var d3 := Step(d2, g[2], room);
    var d4 := Step(d3, g[3], room);
    assert Run(d, t, 0, room) == Run(d1, t, 1, room);
    assert Run(d1, t, 1, room) == Run(d2, t, 2, room);
    assert Run(d2, t, 2, room) == Run(d3, t, 3, room);
    assert Run(d3, t, 3, room) == Run(d4, t, 4, room);
    RunShift(d4, t, rest, 4, room);
  }

  lemma {:induction false} RunShift(d: Decoder, t: seq<char>, rest: seq<char>, i: nat, room: Room)
    requires Aligned(d) && i <= |t| && t[i..] == rest
    ensures Run(d, t, i, room) == Run(d, rest, 0, room)
  {
    RunFrom(d, t, i, rest, 0, room);
  }

  lemma {:induction false} RunFrom(d: Decoder, t: seq<char>, i: nat, u: seq<char>, j: nat, room: Room)
    requires Aligned(d) && i <= |t| && j <= |u| && t[i..] == u[j..]
    ensures Run(d, t, i, room) == Run(d, u, j, room)
    decreases |t| - i
  {
    if i < |t| {
      assert t[i] == t[i..][0] == u[j..][0] == u[j];
      assert t[i + 1..] == t[i..][1..] == u[j..][1..] == u[j + 1..];
      if t[i] != '\0' {
        RunFrom(Step(d, t[i], room), t, i + 1, u, j + 1, room);
      }
    }
  }

  /** `EncodingDecodesFrom` across the first group, given the rest. */
  lemma OneGroupMore(d: Decoder, x: seq<Octet>, i: nat, next: nat, room: Room) returns (r: Decoder, rest: seq<char>)
    requires AtGroup(d) && i < |x| && next == (if i + 3 <= |x| then i + 3 else |x|)
    requires room.Limit? ==> |d.out| + (|x| - i) <= room.size
    ensures rest == EncodeFrom(x, next)
    ensures AtGroup(r) && r.out == d.out + x[i..next]
    ensures Run(d, EncodeFrom(x, i), 0, room) == Run(r, rest, 0, room)
  {
    rest := EncodeFrom(x, i + 3);
    GroupIsPlain(x, i);
    RunGroup(d, Group(x, i), rest, room);
    GroupDecodes(d, x, i, room);
    r := StepGroup(d, Group(x, i), room);
  }

  lemma {:induction false} EncodingDecodesFrom(d: Decoder, x: seq<Octet>, i: nat, room: Room)
    requires AtGroup(d) && i <= |x|
    requires room.Limit? ==> |d.out| + (|x| - i) <= room.size
    ensures var r := Run(d, EncodeFrom(x, i), 0, room); AtGroup(r) && r.out == d.out + x[i..]
    decreases |x| - i
  {
    if i < |x| {
      var next := if i + 3 <= |x| then i + 3 else |x|;
      var r, rest := OneGroupMore(d, x, i, next, room);
      EncodingDecodesFrom(r, x, next, room);
      assert d.out + x[i..next] + x[next..] == d.out + x[i..];
    }
  }

  /** A run does not look past the first NUL. */
  lemma {:induction false} RunStopsAtNul(d: Decoder, t: seq<char>, tail: seq<char>, i: nat, room: Room)
    requires Aligned(d) && i <= |t|
    ensures Run(d, t + ['\0'] + tail, i, room) == Run(d, t, i, room)
    decreases |t| - i
  {
    if i < |t| && t[i] != '\0' {
      RunStopsAtNul(Step(d, t[i], room), t, tail, i + 1, room);
    }
  }

  /**
   Decoding the stored encoding, whatever lies behind its terminator, gives back the octets and
   their number, even into a destination of exactly that size.
   */
  lemma RoundTrip(x: seq<Octet>, tail: seq<char>, room: Room)
    requires room.Limit? ==> room.size >= |x|
    ensures var r := Run(START, Encode(x) + ['\0'] + tail, 0, room); Outcome(r) == |x| && r.out == x
  {
    RunStopsAtNul(START, Encode(x), tail, 0, room);
    EncodingDecodesFrom(START, x, 0, room);
    assert [] + x[0..] == x;
  }
}
