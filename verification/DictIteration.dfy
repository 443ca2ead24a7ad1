/**
 Non-robust iteration: a cookie walks the occupied slots while lookups go on around it, and
 relocation is frozen until the iteration ends.
 */
module DictIteration {
  import opened DictTable
  import opened DictResize
  import opened DictMap

  /** First occupied position at or after `i`; `Next(i - 1)` of the source. */
  function NextUsed(t: Table, i: nat): (r: nat)
    requires i <= |t|
    ensures i <= r <= |t|
    ensures forall j :: i <= j < r ==> t[j].Empty?
    ensures r < |t| ==> t[r].Used?
    decreases |t| - i
  {
    if i < |t| && t[i].Empty? then NextUsed(t, i + 1) else i
  }

  /** All occupied positions from `i` on, in increasing order. */
  function UsedFrom(t: Table, i: nat): seq<nat>
    requires i <= |t|
    decreases |t| - i
  {
    if i == |t| then [] else if t[i].Used? then [i] + UsedFrom(t, i + 1) else UsedFrom(t, i + 1)
  }

  lemma {:induction false} UsedFromIsExact(t: Table, i: nat)
    requires i <= |t|
    ensures forall p :: p in UsedFrom(t, i) <==> i <= p < |t| && t[p].Used?
    ensures forall a, b :: 0 <= a < b < |UsedFrom(t, i)| ==> UsedFrom(t, i)[a] < UsedFrom(t, i)[b]
    decreases |t| - i
  {
    if i < |t| {
      UsedFromIsExact(t, i + 1);
      var rest := UsedFrom(t, i + 1);
      forall a | 0 <= a < |rest| ensures rest[a] > i {
        assert rest[a] in rest;
      }
    }
  }

  lemma {:induction false} UsedFromSkips(t: Table, i: nat)
    requires i <= |t|
    ensures UsedFrom(t, i) == UsedFrom(t, NextUsed(t, i))
    decreases |t| - i
  {
    if i < |t| && t[i].Empty? {
      UsedFromSkips(t, i + 1);
    }
  }

  // ---------- one iteration ----------

  /** `IterCookie::next`, or no cookie once the end was reported and the cookie deleted. */
  datatype Cookie = At(next: int) | Finished

  datatype Event = Advance | LookFor(key: Key)

  predicate CookieFor(d: Dict, c: Cookie) {
    c.At? ==> c.next == -1 || (0 <= c.next <= |d.table| && (c.next < |d.table| ==> d.table[c.next].Used?))
  }

  function InitForIteration(d: Dict): (Dict, Cookie) {
    (d.(numIterators := d.numIterators + 1), At(-1))
  }

  function EndIteration(d: Dict): Dict {
    d.(numIterators := if d.numIterators > 0 then d.numIterators - 1 else 0)
  }

  /** `NextEntry`: the position whose value is returned, or the end. */
  function NextEntry(d: Dict, c: Cookie): (r: (Dict, Cookie, seq<nat>))
    requires WellFormed(d) && c.At? && CookieFor(d, c)
    ensures WellFormed(r.0) && CookieFor(r.0, r.1)
  {
    if d.table == [] then (EndIteration(d), Finished, [])
    else
      var next := if c.next < 0 then NextUsed(d.table, 0) else c.next;
      if next >= |d.table| then (EndIteration(d), Finished, [])
      else (d, At(NextUsed(d.table, next + 1)), [next])
  }

  /** Run a list of events until the cookie is gone; what is left is not issued to a dead cookie. */
  function Iterate(d: Dict, c: Cookie, events: seq<Event>): (r: (Dict, Cookie, seq<nat>))
    requires WellFormed(d) && CookieFor(d, c)
    requires c.At? ==> d.numIterators > 0
    ensures WellFormed(r.0) && CookieFor(r.0, r.1)
    decreases |events|
  {
    if c.Finished? || |events| == 0 then (d, c, [])
    else
      match events[0]
      case LookFor(key) =>
        Iterate(Lookup(d, key).0, c, events[1..])
      case Advance =>
        var (e, next, out) := NextEntry(d, c);
        var (f, last, rest) := Iterate(e, next, events[1..]);
        (f, last, out + rest)
  }

  function Advances(events: seq<Event>): nat {
    if |events| == 0 then 0 else (if events[0].Advance? then 1 else 0) + Advances(events[1..])
  }

  /** The occupied positions the cookie has still to visit. */
  function Remaining(d: Dict, c: Cookie): seq<nat>
    requires CookieFor(d, c) && c.At?
  {
    UsedFrom(d.table, if c.next < 0 then 0 else c.next)
  }

  lemma FrozenLookup(d: Dict, key: Key)
    requires WellFormed(d) && d.numIterators > 0
    ensures Lookup(d, key).0 == d
  {
  }

  lemma AdvanceTakesFirst(d: Dict, c: Cookie)
    requires WellFormed(d) && c.At? && CookieFor(d, c) && d.numIterators > 0
    ensures var (e, next, out) := NextEntry(d, c); var left := Remaining(d, c);
            if left == [] then e == EndIteration(d) && next == Finished && out == []
            else e == d && next.At? && out == left[..1] && Remaining(d, next) == left[1..]
  {
    if d.table != [] {
      var t := d.table;
      var next := if c.next < 0 then NextUsed(t, 0) else c.next;
      UsedFromSkips(t, 0);
      assert Remaining(d, c) == UsedFrom(t, next);
      if next < |t| {
        UsedFromSkips(t, next + 1);
      }
    }
  }

  /** `n` calls on a cookie with `left` to go: all of `left` and the end, or its first `n`. */
  predicate Yields(d: Dict, left: seq<nat>, n: nat, r: (Dict, Cookie, seq<nat>)) {
    if n > |left| then r == (EndIteration(d), Finished, left) else r.0 == d && r.1.At? && r.2 == left[..n]
  }

  lemma YieldsAfterFirst(d: Dict, left: seq<nat>, n: nat, r: (Dict, Cookie, seq<nat>))
    requires left != [] && Yields(d, left[1..], n, r)
    ensures Yields(d, left, n + 1, (r.0, r.1, left[..1] + r.2))
  {
    if n <= |left[1..]| {
      assert left[..1] + left[1..][..n] == left[..n + 1];
    } else {
      assert left[..1] + left[1..] == left;
    }
  }

  lemma {:induction false} IterateYieldsRemaining(d: Dict, c: Cookie, events: seq<Event>)
    requires WellFormed(d) && c.At? && CookieFor(d, c) && d.numIterators > 0
    ensures Yields(d, Remaining(d, c), Advances(events), Iterate(d, c, events))
    decreases |events|
  {
    if |events| > 0 {
      match events[0]
      case LookFor(key) =>
        FrozenLookup(d, key);
        IterateYieldsRemaining(d, c, events[1..]);
      case Advance =>
        var left := Remaining(d, c);
        AdvanceTakesFirst(d, c);
        if left != [] {
          var next := NextEntry(d, c).1;
          IterateYieldsRemaining(d, next, events[1..]);
          var r := Iterate(d, next, events[1..]);
          YieldsAfterFirst(d, left, Advances(events[1..]), r);
          assert Iterate(d, c, events) == (r.0, r.1, left[..1] + r.2);
        } else {
          assert Iterate(EndIteration(d), Finished, events[1..]) == (EndIteration(d), Finished, []);
          assert NextEntry(d, c) == (EndIteration(d), Finished, []);
          assert [] + [] == left;
          assert Iterate(d, c, events) == (EndIteration(d), Finished, left);
        }
    }
  }

  /**
   Any interleaving of `NextEntry` and lookups yields the occupied positions once each in increasing
   order; one call more ends the iteration and leaves the dictionary exactly as before it, even in
   the middle of a resize.
   */
  lemma IterationVisitsAllOnce(d: Dict, events: seq<Event>)
    requires WellFormed(d)
    ensures var (d1, c) := InitForIteration(d);
            var (e, last, out) := Iterate(d1, c, events);
            var all, n := UsedFrom(d.table, 0), Advances(events);
            && (forall p: nat :: p in all <==> p < |d.table| && d.table[p].Used?)
            && (forall a, b :: 0 <= a < b < |all| ==> all[a] < all[b])
            && (n <= |all| ==> out == all[..n] && e == d1)
            && (n > |all| ==> out == all && last == Finished && e == d)
  {
    var (d1, c) := InitForIteration(d);
    UsedFromIsExact(d.table, 0);
    IterateYieldsRemaining(d1, c, events);
  }
}
