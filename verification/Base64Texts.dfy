/**
 What base64 text means, apart from how the code reads and writes it: the encoding as a number in
 base 64, and the octets and the verdict for any text, into any room.
 */
module Base64Texts {

  import opened Arithmetic
  import opened Base64Alphabet
  import opened Base64

  // ---------- the encoding as a number ----------

  /** The place of a symbol in the alphabet; the pad and other characters count as zero. */
  function Value(c: char): (s: nat)
    ensures s < 64
  {
    if Sextet(c) < 0 then 0 else Sextet(c)
  }

  lemma ValueInTable(c: char)
    ensures |ALPHABET| == 64
    ensures c in ALPHABET ==> ALPHABET[Value(c)] == c
    ensures c !in ALPHABET ==> Value(c) == 0
  {
    SextetInTable(c);
  }

  lemma ValueOfSymbol(s: nat)
    requires s < 64
    ensures Value(Symbol(s)) == s
  {
    SymbolDecodes(s);
  }

  function Values(t: seq<char>): (v: seq<nat>)
    ensures |v| == |t| && forall k :: 0 <= k < |t| ==> v[k] == Value(t[k])
  {
    seq(|t|, k requires 0 <= k < |t| => Value(t[k]))
  }

  /** The number whose digits in base `b` are those of `n` and then `digits`. */
  function InBase(b: nat, n: nat, digits: seq<nat>): nat
    decreases |digits|
  {
    if |digits| == 0 then n else InBase(b, b * n + digits[0], digits[1..])
  }

  lemma OneDigit(b: nat, n: nat, d: nat, rest: seq<nat>, digits: seq<nat>)
    requires digits == [d] + rest
    ensures InBase(b, n, digits) == InBase(b, b * n + d, rest)
  {
    assert digits[1..] == rest;
  }

  function FourSextets(n: nat, a: nat, b: nat, c: nat, e: nat): nat {
    64 * (64 * (64 * (64 * n + a) + b) + c) + e
  }

  function ThreeOctets(n: nat, x0: nat, x1: nat, x2: nat): nat {
    256 * (256 * (256 * n + x0) + x1) + x2
  }

  lemma ThreeDigits(b: nat, n: nat, d0: nat, d1: nat, d2: nat, rest: seq<nat>, digits: seq<nat>)
    requires digits == [d0, d1, d2] + rest
    ensures InBase(b, n, digits) == InBase(b, b * (b * (b * n + d0) + d1) + d2, rest)
  {
    var n1, r1 := b * n + d0, [d1, d2] + rest;
    OneDigit(b, n, d0, r1, digits);
    var n2, r2 := b * n1 + d1, [d2] + rest;
    OneDigit(b, n1, d1, r2, r1);
    OneDigit(b, n2, d2, rest, r2);
  }

  lemma FourDigits(b: nat, n: nat, d0: nat, d1: nat, d2: nat, d3: nat, rest: seq<nat>, digits: seq<nat>)
    requires digits == [d0, d1, d2, d3] + rest
    ensures InBase(b, n, digits) == InBase(b, b * (b * (b * (b * n + d0) + d1) + d2) + d3, rest)
  {
    OneDigit(b, n, d0, [d1, d2, d3] + rest, digits);
    ThreeDigits(b, b * n + d0, d1, d2, d3, rest, [d1, d2, d3] + rest);
  }

  /** The octet at `i`, or zero past the end. */
  function OctetOrZero(x: seq<Octet>, i: nat): Octet {
    if i < |x| then x[i] else 0
  }

  /** Four sextets are three octets. */
  lemma Regrouped(n: nat, x0: nat, x1: nat, x2: nat)
    requires x0 < 256 && x1 < 256 && x2 < 256
    ensures FourSextets(n, x0 / 4, x0 % 4 * 16 + x1 / 16, x1 % 16 * 4 + x2 / 64, x2 % 64) == ThreeOctets(n, x0, x1, x2)
  {
  }

  lemma GroupDigits(x: seq<Octet>, i: nat, x0: nat, x1: nat, x2: nat)
    requires i < |x| && x0 == OctetOrZero(x, i) && x1 == OctetOrZero(x, i + 1) && x2 == OctetOrZero(x, i + 2)
    ensures Values(Group(x, i)) == [x0 / 4, x0 % 4 * 16 + x1 / 16, x1 % 16 * 4 + x2 / 64, x2 % 64]
  {
    var v := Octet24(x, i);
    assert v == x0 * 65536 + x1 * 256 + x2;
    SextetsOfOctets(x0, x1, x2);
    NoDigits(x1, x2);
    var a, b, c, e := v / 262144 % 64, v / 4096 % 64, v / 64 % 64, v % 64;
    SymbolValues(a, b, c, e, i + 1 < |x|, i + 2 < |x|, Group(x, i));
  }

  lemma NoDigits(x1: nat, x2: nat)
    ensures x2 == 0 ==> x2 % 64 == 0
    ensures x1 == 0 && x2 == 0 ==> x1 % 16 * 4 + x2 / 64 == 0
  {
  }

  lemma SymbolValues(a: nat, b: nat, c: nat, e: nat, third: bool, fourth: bool, g: seq<char>)
    requires a < 64 && b < 64 && c < 64 && e < 64 && (!third ==> c == 0) && (!fourth ==> e == 0)
    requires g == [Symbol(a), Symbol(b), if third then Symbol(c) else '=', if fourth then Symbol(e) else '=']
    ensures Values(g) == [a, b, c, e]
  {
    ValueOfSymbol(a);
    ValueOfSymbol(b);
    ValueOfSymbol(c);
    ValueOfSymbol(e);
  }

  /** The number of zero octets that fill the last group. */
  function Missing(k: nat): (z: nat)
    ensures z < 3 && (k + z) % 3 == 0
  {
    (3 - k % 3) % 3
  }

  function Zeros(k: nat): (z: seq<Octet>)
    ensures |z| == k && forall j :: 0 <= j < k ==> z[j] == 0
  {
    seq(k, _ => 0)
  }

  /** The octets from `i`, filled up. */
  function Filled(x: seq<Octet>, i: nat): seq<nat>
    requires i <= |x|
  {
    x[i..] + Zeros(Missing(|x| - i))
  }

  lemma FilledGroup(x: seq<Octet>, i: nat)
    requires i < |x|
    ensures Filled(x, i) == [OctetOrZero(x, i), OctetOrZero(x, i + 1), OctetOrZero(x, i + 2)]
                            + if i + 3 <= |x| then Filled(x, i + 3) else []
  {
    if i + 3 <= |x| {
      assert x[i..] == [x[i], x[i + 1], x[i + 2]] + x[i + 3..];
    }
  }

  lemma {:induction false} EncodedFrom(n: nat, x: seq<Octet>, i: nat)
    requires i <= |x|
    ensures InBase(64, n, Values(EncodeFrom(x, i))) == InBase(256, n, Filled(x, i))
    decreases |x| - i
  {
    if i < |x| {
      var m := ThreeOctets(n, OctetOrZero(x, i), OctetOrZero(x, i + 1), OctetOrZero(x, i + 2));
      GroupNumber(n, x, i, EncodeFrom(x, i + 3), OctetOrZero(x, i), OctetOrZero(x, i + 1), OctetOrZero(x, i + 2));
      FilledNumber(n, x, i, m);
      if i + 3 <= |x| {
        EncodedFrom(m, x, i + 3);
      }
    } else {
      NoDigitsLeft(n);
    }
  }

  lemma NoDigitsLeft(n: nat)
    ensures InBase(64, n, Values([])) == n == InBase(256, n, [])
  {
  }

  lemma FilledNumber(n: nat, x: seq<Octet>, i: nat, m: nat)
    requires i < |x|
    requires m == ThreeOctets(n, OctetOrZero(x, i), OctetOrZero(x, i + 1), OctetOrZero(x, i + 2))
    ensures i + 3 <= |x| ==> InBase(256, n, Filled(x, i)) == InBase(256, m, Filled(x, i + 3))
    ensures i + 3 > |x| ==> InBase(256, n, Filled(x, i)) == m == InBase(64, m, Values(EncodeFrom(x, i + 3)))
  {
    var x0, x1, x2 := OctetOrZero(x, i), OctetOrZero(x, i + 1), OctetOrZero(x, i + 2);
    FilledGroup(x, i);
    NoDigitsLeft(m);
    ThreeDigits(256, n, x0, x1, x2, if i + 3 <= |x| then Filled(x, i + 3) else [], Filled(x, i));
  }

  lemma GroupNumber(n: nat, x: seq<Octet>, i: nat, rest: seq<char>, x0: nat, x1: nat, x2: nat)
    requires i < |x| && x0 == OctetOrZero(x, i) && x1 == OctetOrZero(x, i + 1) && x2 == OctetOrZero(x, i + 2)
    ensures InBase(64, n, Values(Group(x, i) + rest)) == InBase(64, ThreeOctets(n, x0, x1, x2), Values(rest))
  {
    GroupDigits(x, i, x0, x1, x2);
    var a, b, c, e := x0 / 4, x0 % 4 * 16 + x1 / 16, x1 % 16 * 4 + x2 / 64, x2 % 64;
    ValuesJoin(Group(x, i), rest);
    FourDigits(64, n, a, b, c, e, Values(rest), Values(Group(x, i)) + Values(rest));
    Regrouped(n, x0, x1, x2);
  }

  lemma ValuesJoin(s: seq<char>, t: seq<char>)
    ensures Values(s + t) == Values(s) + Values(t)
  {
  }

  /** Character `k` of the encoding from octet `i` is a pad exactly among the last `Missing` characters. */
  lemma {:induction false} PadsFrom(x: seq<Octet>, i: nat, k: nat)
    requires i <= |x| && k < |EncodeFrom(x, i)|
    ensures var t := EncodeFrom(x, i);
            && (t[k] == '=' <==> k >= |t| - Missing(|x| - i))
            && (t[k] != '=' ==> Sextet(t[k]) >= 0)
    decreases |x| - i
  {
    var t, rest := EncodeFrom(x, i), EncodeFrom(x, i + 3);
    Prefixed(Group(x, i), rest, k);
    MissingAgain(|x| - i);
    if k >= 4 {
      PadsFrom(x, i + 3, k - 4);
    } else {
      GroupPads(x, i, k);
    }
  }

  lemma Prefixed(g: seq<char>, rest: seq<char>, k: nat)
    requires |g| == 4 && k < |g + rest|
    ensures (g + rest)[k] == if k < 4 then g[k] else rest[k - 4]
  {
  }

  lemma MissingAgain(k: nat)
    ensures k >= 3 ==> Missing(k) == Missing(k - 3)
    ensures k == 1 ==> Missing(k) == 2
    ensures k == 2 ==> Missing(k) == 1
  {
  }

  lemma GroupPads(x: seq<Octet>, i: nat, k: nat)
    requires i < |x| && k < 4
    ensures Group(x, i)[k] == '=' <==> i + k > |x|
    ensures Group(x, i)[k] != '=' ==> Sextet(Group(x, i)[k]) >= 0
  {
    var a, b, c, e := GroupSymbols(x, i);
    SymbolDecodes(a);
    SymbolDecodes(b);
    SymbolDecodes(c);
    SymbolDecodes(e);
  }

  /**
   The encoding in base 64 is the number of the octets in base 256, filled up with zero octets to a
   multiple of three; as many pads as octets were filled up stand at its end, and symbols before them.
   */
  lemma EncodingNumber(x: seq<Octet>)
    ensures InBase(64, 0, Values(Encode(x))) == InBase(256, 0, x + Zeros(Missing(|x|)))
    ensures forall k :: 0 <= k < |Encode(x)| ==> (Encode(x)[k] == '=' <==> k >= |Encode(x)| - Missing(|x|))
    ensures forall k :: 0 <= k < |Encode(x)| && Encode(x)[k] != '=' ==> Encode(x)[k] in ALPHABET
  {
    EncodedFrom(0, x, 0);
    assert x[0..] == x;
    forall k | 0 <= k < |Encode(x)|
      ensures Encode(x)[k] == '=' <==> k >= |Encode(x)| - Missing(|x|)
      ensures Encode(x)[k] != '=' ==> Encode(x)[k] in ALPHABET
    {
      PadsFrom(x, 0, k);
      SextetInTable(Encode(x)[k]);
    }
  }

  // ---------- reading any text ----------

  predicate Ended(src: seq<char>, k: nat)
    requires k <= |src|
  {
    k == |src| || src[k] == '\0'
  }

  /** The characters among the first `n` that are not white space. */
  function Signs(src: seq<char>, n: nat): (t: seq<char>)
    requires n <= |src|
    ensures |t| <= n
  {
    if n == 0 then [] else Signs(src, n - 1) + if IsSpace(src[n - 1]) then [] else [src[n - 1]]
  }

  /** The octet that ends in a sextet `q` at place 1, 2 or 3 of its group, the sextet before it being `p`. */
  function Cut(p: nat, q: nat, place: nat): seq<Octet>
    requires p < 64 && q < 64
  {
    if place == 1 then [p * 4 + q / 16]
    else if place == 2 then [p % 16 * 16 + q / 4]
    else if place == 3 then [p % 4 * 64 + q]
    else []
  }

  /** The octets of a text without white space: none for a pad, none for the first character of four. */
  function OctetsOf(t: seq<char>): seq<Octet>
    decreases |t|
  {
    if |t| == 0 then [] else OctetsOf(t[..|t| - 1]) + LastOctet(t)
  }

  function LastOctet(t: seq<char>): seq<Octet>
    requires |t| > 0
  {
    var n := |t| - 1;
    if t[n] == '=' || n == 0 then [] else Cut(Value(t[n - 1]), Value(t[n]), n % 4)
  }

  lemma OneSignMore(t: seq<char>, c: char)
    ensures OctetsOf(t + [c]) == OctetsOf(t) + LastOctet(t + [c])
  {
    assert (t + [c])[..|t|] == t;
  }

  /** A character that is read: white space, a pad, or a symbol while there is room. */
  predicate Readable(src: seq<char>, k: nat, room: Room)
    requires k < |src|
  {
    IsSpace(src[k]) || src[k] == '=' || (Sextet(src[k]) >= 0 && !Full(room, |OctetsOf(Signs(src, k))|))
  }

  /** Where reading stops: the end, a NUL, or a character that is not read. */
  function Stop(src: seq<char>, i: nat, room: Room): (k: nat)
    requires i <= |src|
    ensures i <= k <= |src|
    decreases |src| - i
  {
    if Ended(src, i) || !Readable(src, i, room) then i else Stop(src, i + 1, room)
  }

  /** It is the first such place. */
  lemma {:induction false} StopIsFirst(src: seq<char>, i: nat, room: Room)
    requires i <= |src|
    ensures var k := Stop(src, i, room);
            && (forall j :: i <= j < k ==> src[j] != '\0' && Readable(src, j, room))
            && (Ended(src, k) || !Readable(src, k, room))
    decreases |src| - i
  {
    if !Ended(src, i) && Readable(src, i, room) {
      StopIsFirst(src, i + 1, room);
    }
  }

  /** The decoder after the signs `t`. */
  predicate Follows(d: Decoder, t: seq<char>) {
    && Aligned(d) && d.Decoder? && d.j == |t| && d.out == OctetsOf(t)
    && (|t| > 0 ==> EndsIn(d.acc, Value(t[|t| - 1])))
  }

  lemma ProducedIsCut(acc: nat, p: nat, q: nat, j: nat)
    requires p < 64 && q < 64 && (j > 0 ==> EndsIn(acc, p))
    ensures Produced(acc + q, j) == if j == 0 then [] else Cut(p, q, j % 4)
  {
    if j > 0 {
      OctetsCut(acc, p, q);
    }
  }

  /** One sign is read. */
  lemma StepSign(d: Decoder, t: seq<char>, c: char, room: Room)
    requires Follows(d, t) && !IsSpace(c) && Sextet(c) >= 0 && (c == '=' || !Full(room, |d.out|))
    ensures Follows(Step(d, c, room), t + [c])
  {
    var p, q := if |t| > 0 then Value(t[|t| - 1]) else 0, Value(c);
    assert q == Sextet(c);
    ShiftEndsIn(d.acc, q);
    ProducedIsCut(d.acc, p, q, d.j);
    OneSignMore(t, c);
  }

  /** The decoder when reading stops at `k`: taken exactly at the end of the text. */
  predicate ReadTo(r: Decoder, src: seq<char>, k: nat)
    requires k <= |src|
  {
    r.out == OctetsOf(Signs(src, k)) && if Ended(src, k) then Follows(r, Signs(src, k)) else r.Rejected?
  }

  /** One character, and how `Stop` and `Run` go on after it. */
  lemma ReadOne(d: Decoder, src: seq<char>, i: nat, room: Room) returns (e: Decoder)
    requires i < |src| && !Ended(src, i) && Follows(d, Signs(src, i))
    ensures Aligned(e) && Run(d, src, i, room) == Run(e, src, i + 1, room)
    ensures if e.Decoder? then Follows(e, Signs(src, i + 1)) && Stop(src, i, room) == Stop(src, i + 1, room)
            else ReadTo(Run(d, src, i, room), src, Stop(src, i, room))
  {
    e := Step(d, src[i], room);
    SignRead(d, Signs(src, i), src[i], room);
    NextSigns(src, i);
    if e.Rejected? {
      RejectedStays(d.out, src, i + 1, room);
      assert Stop(src, i, room) == i;
    }
  }

  lemma NextSigns(src: seq<char>, i: nat)
    requires i < |src|
    ensures Signs(src, i + 1) == if IsSpace(src[i]) then Signs(src, i) else Signs(src, i) + [src[i]]
  {
  }

  lemma SignRead(d: Decoder, t: seq<char>, c: char, room: Room)
    requires Follows(d, t)
    ensures if IsSpace(c) then Step(d, c, room) == d
            else if c == '=' || (Sextet(c) >= 0 && !Full(room, |OctetsOf(t)|)) then Follows(Step(d, c, room), t + [c])
            else Step(d, c, room) == Rejected(d.out)
  {
    if !IsSpace(c) && Sextet(c) >= 0 && (c == '=' || !Full(room, |d.out|)) {
      StepSign(d, t, c, room);
    }
  }

  /**
   Reading any text into any room: the octets are those of the signs before the stop, and the text
   is taken exactly when that is its end.
   */
  lemma {:induction false} RunReads(d: Decoder, src: seq<char>, i: nat, room: Room)
    requires i <= |src| && Follows(d, Signs(src, i))
    ensures ReadTo(Run(d, src, i, room), src, Stop(src, i, room))
    decreases |src| - i
  {
    if Ended(src, i) {
      NothingLeft(d, src, i, room);
    } else {
      var e := ReadOne(d, src, i, room);
      if e.Decoder? {
        RunReads(e, src, i + 1, room);
      }
    }
  }

  lemma NothingLeft(d: Decoder, src: seq<char>, i: nat, room: Room)
    requires i <= |src| && Ended(src, i) && Follows(d, Signs(src, i))
    ensures ReadTo(Run(d, src, i, room), src, Stop(src, i, room))
  {
  }

  /** What the code returns for a text and what it has decoded, without running it. */
  lemma OutcomeOf(src: seq<char>, room: Room)
    ensures var k, r := Stop(src, 0, room), Run(START, src, 0, room);
            && r.out == OctetsOf(Signs(src, k))
            && Outcome(r) == if Ended(src, k) && |Signs(src, k)| % 4 == 0 then |OctetsOf(Signs(src, k))| else -1
  {
    RunReads(START, src, 0, room);
  }

  /** The text: everything before the first NUL. */
  function TextEnd(src: seq<char>, i: nat): (k: nat)
    requires i <= |src|
    ensures i <= k <= |src| && Ended(src, k) && forall j :: i <= j < k ==> src[j] != '\0'
    decreases |src| - i
  {
    if Ended(src, i) then i else TextEnd(src, i + 1)
  }

  /**
   Without a destination a text has a count exactly when all its characters are white space, symbols
   or pads and a multiple of four of them are not white space.
   */
  lemma CountedIff(src: seq<char>)
    ensures var n := TextEnd(src, 0);
            Outcome(Run(START, src, 0, Unlimited)) >= 0 <==>
              (forall k :: 0 <= k < n ==> src[k] in SPACES || src[k] in ALPHABET || src[k] == '=') && |Signs(src, n)| % 4 == 0
  {
    OutcomeOf(src, Unlimited);
    StopIsFirst(src, 0, Unlimited);
    var n, k := TextEnd(src, 0), Stop(src, 0, Unlimited);
    if k < n {
      assert !Readable(src, k, Unlimited);
    } else if n == k {
      assert forall j :: 0 <= j < n ==> Readable(src, j, Unlimited);
    }
    forall j | 0 <= j < n
      ensures src[j] in SPACES || src[j] in ALPHABET || src[j] == '=' <==> Legal(src[j])
    {
      SpaceInSet(src[j]);
      SextetInTable(src[j]);
    }
  }
}
