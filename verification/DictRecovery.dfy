/**
 The bulk pass on a table where a lookup left one entry of an earlier size above `remapEnd`: exactly
 when one of its moves brings that stray entry back, so that no key is lost after all.
 */
module DictRecovery {
  import opened DictTable
  import opened DictChains
  import opened DictResize

  // ---------- following one entry through a chain ----------

  /** Every slot above `limit` but the one at `j` is empty or holds a current entry. */
  predicate CurrentBut(t: Table, log2: nat, limit: int, j: nat) {
    forall k :: 0 <= k < |t| && limit < k && k != j ==> IsCurrent(t[k], k, log2)
  }

  /** Where the entry at `j` is after the removal chain that starts at `i`. */
  function RemovedTo(t: Table, i: nat, j: nat): (k: nat)
    requires Clustered(t) && i < |t| && t[i].Used?
    ensures k <= j && (j < i ==> k == j) && (j > i ==> k >= i)
    ensures j > i ==> (k == i <==> !NothingToPull(t, i) && TailOfRun(t, i + 1) == j)
    decreases |t| - i
  {
    if j < i || NothingToPull(t, i) then j
    else
      var next := TailOfRun(t, i + 1);
      PulledKeepsClusters(t, i);
      if next == j then i else RemovedTo(t[i := Pulled(t, i)], next, j)
  }

  /** Where the entry at `j` is after the insertion chain that starts at `i`. */
  function InsertedTo(t: Table, s: Slot, i: nat, j: nat): (k: nat)
    requires Clustered(t) && Fits(t, s, i) && j < |t|
    ensures j <= k && (j < i ==> k == j) && (j == i && t[i].Used? ==> k > i)
    decreases |t| - i
  {
    if j < i || i == |t| || t[i].Empty? then j
    else
      DisplacedFits(t, s, i);
      var next := EndOfRun(t, Bucket(t, i), i);
      if i == j then next else InsertedTo(t[i := s], Displaced(t, i), next, j)
  }

  /**
   A removal chain keeps all current but the entry followed. The slot it starts from is about to be
   overwritten, so nothing is asked of that one.
   */
  lemma {:induction false} RemovalFollows(t: Table, i: nat, log2: nat, limit: int, j: nat)
    requires Clustered(t) && i < |t| && t[i].Used? && j < |t| && j != i && !IsCurrent(t[j], j, log2)
    requires forall k :: 0 <= k < |t| && limit < k && k != j && k != i ==> IsCurrent(t[k], k, log2)
    requires limit < i
    ensures var r, to := RemoveChain(t, i).0, RemovedTo(t, i, j);
            CurrentBut(r, log2, limit, to) && to < |r| && !IsCurrent(r[to], to, log2)
    decreases |t| - i
  {
    if !NothingToPull(t, i) {
      var s, next := Pulled(t, i), TailOfRun(t, i + 1);
      PulledKeepsClusters(t, i);
      var u := t[i := s];
      assert RemoveChain(t, i) == RemoveChain(u, next);
      if next == j {
        RemovalFollows(u, next, log2, limit, i);
      } else {
        assert IsCurrent(t[next], next, log2);
        RemovalFollows(u, next, log2, limit, j);
      }
    }
  }

  /** A chain that displaces nothing writes one slot. */
  lemma WritesOne(t: Table, s: Slot, i: nat, log2: nat, limit: int, j: nat)
    requires Clustered(t) && Fits(t, s, i) && limit < i && (i < |t| ==> t[i].Empty?)
    requires CurrentBut(t, log2, limit, j) && (IsCurrent(s, i, log2) || i == j)
    ensures CurrentBut(InsertChain(t, s, i).0, log2, limit, j)
  {
    var r := InsertChain(t, s, i).0;
    InsertChainFrame(t, s, i);
    forall k | 0 <= k < |r| && limit < k && k != j ensures IsCurrent(r[k], k, log2) {
      assert k != i ==> r[k] == t[k];
    }
  }

  /** An insertion chain of a current entry above the one followed leaves that where it is. */
  lemma {:induction false} InsertionPasses(t: Table, s: Slot, i: nat, log2: nat, limit: int, j: nat)
    requires Clustered(t) && Fits(t, s, i) && limit < i && j < i
    requires IsCurrent(s, i, log2) && CurrentBut(t, log2, limit, j)
    ensures CurrentBut(InsertChain(t, s, i).0, log2, limit, j)
    decreases |t| - i
  {
    if i < |t| && t[i].Used? {
      DisplacedFits(t, s, i);
      assert IsCurrent(t[i], i, log2);
      InsertionPasses(t[i := s], Displaced(t, i), EndOfRun(t, Bucket(t, i), i), log2, limit, j);
    } else {
      WritesOne(t, s, i, log2, limit, j);
    }
  }

  /** An insertion chain that starts with a stray entry among current ones leaves it where it is put. */
  lemma StrayIsPut(t: Table, s: Slot, i: nat, log2: nat, limit: int)
    requires Clustered(t) && Fits(t, s, i) && limit < i && CurrentFrom(t, log2, limit + 1)
    ensures var r := InsertChain(t, s, i).0; CurrentBut(r, log2, limit, i) && r[i] == s
  {
    InsertChainFrame(t, s, i);
    if i < |t| && t[i].Used? {
      DisplacedFits(t, s, i);
      assert IsCurrent(t[i], i, log2);
      InsertionPasses(t[i := s], Displaced(t, i), EndOfRun(t, Bucket(t, i), i), log2, limit, i);
    } else {
      WritesOne(t, s, i, log2, limit, i);
    }
  }

  /** An insertion chain of a current entry keeps all current but the entry followed. */
  lemma {:induction false} InsertionFollows(t: Table, s: Slot, i: nat, log2: nat, limit: int, j: nat)
    requires Clustered(t) && Fits(t, s, i) && limit < i && j < |t| && !IsCurrent(t[j], j, log2)
    requires IsCurrent(s, i, log2) && CurrentBut(t, log2, limit, j)
    ensures var r, to := InsertChain(t, s, i).0, InsertedTo(t, s, i, j);
            CurrentBut(r, log2, limit, to) && to < |r| && !IsCurrent(r[to], to, log2)
    decreases |t| - i
  {
    InsertChainFrame(t, s, i);
    if j < i {
      InsertionPasses(t, s, i, log2, limit, j);
    } else if i == |t| || t[i].Empty? {
      WritesOne(t, s, i, log2, limit, j);
    } else {
      DisplacedFits(t, s, i);
      var u, d, next := t[i := s], Displaced(t, i), EndOfRun(t, Bucket(t, i), i);
      if i == j {
        StrayIsPut(u, d, next, log2, limit);
      } else {
        assert IsCurrent(t[i], i, log2);
        InsertionFollows(u, d, next, log2, limit, j);
      }
    }
  }

  /** The chain of an unsafe lookup leaves one stray entry, the one it carried across the limit. */
  lemma {:induction false} CarriedStrays(t: Table, s: Slot, i: nat, log2: nat, limit: int)
    requires Clustered(t) && Fits(t, s, i) && CurrentFrom(t, log2, limit + 1)
    requires var c := Carried(t, s, i, limit); !IsCurrent(c.0, c.1, log2)
    ensures var r, c := InsertChain(t, s, i).0, Carried(t, s, i, limit);
            limit < c.1 < |r| && r[c.1] == c.0 && CurrentBut(r, log2, limit, c.1)
    decreases |t| - i
  {
    if i > limit {
      InsertChainFrame(t, s, i);
      StrayIsPut(t, s, i, log2, limit);
    } else if i < |t| && t[i].Used? {
      DisplacedFits(t, s, i);
      CarriedStrays(t[i := s], Displaced(t, i), EndOfRun(t, Bucket(t, i), i), log2, limit);
    }
  }

  // ---------- the pass on a table with a stray entry ----------

  /** All is as the resize invariant wants it but for the entry at `j`, which is above `remapEnd`. */
  ghost predicate Strayed(d: Dict, j: nat) {
    && Shape(d) && AllPlaced(d.table, d.log2, d.remaps)
    && d.remapEnd < j < |d.table| && !IsCurrent(d.table[j], j, d.log2)
    && CurrentBut(d.table, d.log2, d.remapEnd, j)
  }

  /**
   A move of the pass that brings the stray entry at `j` back. The stray is the tail of the run behind
   `remapEnd`, so that taking out the entry there pulls it down to `remapEnd`; and that entry is put
   behind it, so that the stray is not carried out again. Or putting it grows the table.
   */
  predicate PullsBack(d: Dict, j: nat)
    requires Shape(d) && d.remapEnd >= 0 && NeedsMove(d)
  {
    var (t, p, (e, s, i)) := (d.table, d.remapEnd, Lifted(d, d.remapEnd));
    || InsertChain(e.table, s, i).1 == |t|
    || (!NothingToPull(t, p) && TailOfRun(t, p + 1) == j && i > p)
  }

  lemma PullsBackIf(d: Dict, j: nat)
    requires Shape(d) && d.remapEnd >= 0 && NeedsMove(d) && Lifted(d, d.remapEnd).2 > d.remapEnd
    requires !NothingToPull(d.table, d.remapEnd) && TailOfRun(d.table, d.remapEnd + 1) == j
    ensures PullsBack(d, j)
  {
  }

  /** Where a move of the pass leaves the entry at `j`. */
  function StrayMovesTo(d: Dict, j: nat): nat
    requires Shape(d) && d.remapEnd >= 0 && NeedsMove(d) && d.remapEnd < j < |d.table|
  {
    var (e, s, i) := Lifted(d, d.remapEnd);
    InsertedTo(e.table, s, i, RemovedTo(d.table, d.remapEnd, j))
  }

  /** One of the next `left` moves of the pass brings the stray entry at `j` back. */
  predicate Recovers(d: Dict, j: nat, left: nat)
    requires Shape(d)
    decreases left, d.remapEnd + 1
  {
    && d.remapEnd >= 0 && left > 0 && d.remapEnd < j < |d.table|
    && if NeedsMove(d) then PullsBack(d, j) || Recovers(BulkStep(d), StrayMovesTo(d, j), left - 1)
       else Recovers(BulkStep(d), j, left)
  }

  /** The pass puts the entry it takes out at `remapEnd` back there or further up. */
  lemma PutsAtOrAbove(d: Dict)
    requires Shape(d) && AllPlaced(d.table, d.log2, d.remaps) && d.remapEnd >= 0 && NeedsMove(d)
    ensures Lifted(d, d.remapEnd).2 >= d.remapEnd
  {
    var p := d.remapEnd;
    var (e, s, i) := Lifted(d, p);
    EarlierBucketBelow(HomeOf(d.table, p), d.log2, d.remaps);
    if i < p {
      RemoveChainFrame(d.table, p);
      NoHole(d.table, i, p);
      assert false;
    }
  }

  /** One move follows the stray entry, unless it grows the table. */
  lemma MoveFollows(d: Dict, j: nat)
    requires Strayed(d, j) && d.remapEnd >= 0 && NeedsMove(d)
    requires var (e, s, i) := Lifted(d, d.remapEnd); InsertChain(e.table, s, i).1 < |d.table|
    ensures var f, k := BulkStep(d), StrayMovesTo(d, j);
            && f.remapEnd == d.remapEnd && f.log2 == d.log2
            && k < |f.table| && !IsCurrent(f.table[k], k, f.log2) && CurrentBut(f.table, f.log2, f.remapEnd - 1, k)
  {
    var p := d.remapEnd;
    var (e, s, i) := Lifted(d, p);
    PutsAtOrAbove(d);
    RemovalFollows(d.table, p, d.log2, p - 1, j);
    InsertionFollows(e.table, s, i, d.log2, p - 1, RemovedTo(d.table, p, j));
  }

  /** The stray entry ends at `remapEnd` exactly when the move pulls it there and puts behind it. */
  lemma PulledBackIff(d: Dict, j: nat)
    requires Strayed(d, j) && d.remapEnd >= 0 && NeedsMove(d)
    requires var (e, s, i) := Lifted(d, d.remapEnd); InsertChain(e.table, s, i).1 < |d.table|
    ensures StrayMovesTo(d, j) <= d.remapEnd <==> PullsBack(d, j)
  {
    var p := d.remapEnd;
    var (e, s, i) := Lifted(d, p);
    PutsAtOrAbove(d);
    RemovalFollows(d.table, p, d.log2, p - 1, j);
  }

  /** A chain that grows the table puts all of it below `remapEnd` again. */
  lemma GrowthKeepsInv(d: Dict, s: Slot, i: nat)
    requires Shape(d) && AllPlaced(d.table, d.log2, d.remaps)
    requires Fits(d.table, s, i) && IsCurrent(s, i, d.log2) && InsertChain(d.table, s, i).1 == |d.table|
    ensures ResizeInv(Relocate(d, s, i).0)
  {
    RelocatePlaced(d, s, i);
  }

  lemma MovePlaced(d: Dict, p: nat)
    requires Shape(d) && AllPlaced(d.table, d.log2, d.remaps) && p < |d.table| && d.table[p].Used?
    ensures var e := RemapAt(d, p).0; AllPlaced(e.table, e.log2, e.remaps)
  {
    if !IsCurrent(d.table[p], p, d.log2) {
      var (e, s, i) := Lifted(d, p);
      RemoveAtPlaced(d, p);
      RelocatePlaced(e, s, i);
    }
  }

  /** A move of the pass restores the resize invariant exactly when it brings the stray entry back. */
  lemma MoveRestoresIff(d: Dict, j: nat)
    requires Strayed(d, j) && d.remapEnd >= 0 && NeedsMove(d)
    ensures if PullsBack(d, j) then ResizeInv(BulkStep(d)) else Strayed(BulkStep(d), StrayMovesTo(d, j))
  {
    var (e, s, i) := Lifted(d, d.remapEnd);
    MovePlaced(d, d.remapEnd);
    if InsertChain(e.table, s, i).1 == |e.table| {
      RemoveAtPlaced(d, d.remapEnd);
      GrowthKeepsInv(e, s, i);
    } else {
      MoveFollows(d, j);
      PulledBackIff(d, j);
    }
  }

  lemma StepDownStaysStrayed(d: Dict, j: nat)
    requires Strayed(d, j) && d.remapEnd >= 0 && !NeedsMove(d)
    ensures Strayed(BulkStep(d), j)
  {
  }

  /** What a pass of `left` moves leaves: the invariant, or an entry out of reach. */
  ghost predicate Settled(d: Dict, recovers: bool, left: nat)
    requires Shape(d)
  {
    var e := BulkRemap(d, left).0;
    if recovers then ResizeInv(e) else !CurrentFrom(e.table, e.log2, e.remapEnd + 1)
  }

  lemma SettledByMove(d: Dict, recovers: bool, left: nat)
    requires Shape(d) && d.remapEnd >= 0 && NeedsMove(d) && left > 0 && Settled(BulkStep(d), recovers, left - 1)
    ensures Settled(d, recovers, left)
  {
  }

  lemma SettledByStep(d: Dict, recovers: bool, left: nat)
    requires Shape(d) && d.remapEnd >= 0 && !NeedsMove(d) && left > 0 && Settled(BulkStep(d), recovers, left)
    ensures Settled(d, recovers, left)
  {
  }

  lemma SettledAtOnce(d: Dict, j: nat, left: nat)
    requires Strayed(d, j) && (d.remapEnd < 0 || left == 0)
    ensures Settled(d, false, left)
  {
  }

  lemma PassOverStep(d: Dict, j: nat, left: nat)
    requires Strayed(d, j) && d.remapEnd >= 0 && !NeedsMove(d) && left > 0
    requires Settled(BulkStep(d), Recovers(BulkStep(d), j, left), left)
    ensures Settled(d, Recovers(d, j, left), left)
  {
    SettledByStep(d, Recovers(BulkStep(d), j, left), left);
  }

  lemma PassOverMove(d: Dict, j: nat, left: nat)
    requires Strayed(d, j) && d.remapEnd >= 0 && NeedsMove(d) && left > 0 && !PullsBack(d, j)
    requires Settled(BulkStep(d), Recovers(BulkStep(d), StrayMovesTo(d, j), left - 1), left - 1)
    ensures Settled(d, Recovers(d, j, left), left)
  {
    SettledByMove(d, Recovers(BulkStep(d), StrayMovesTo(d, j), left - 1), left);
  }

  lemma PassAfterPull(d: Dict, j: nat, left: nat)
    requires Strayed(d, j) && d.remapEnd >= 0 && NeedsMove(d) && left > 0 && PullsBack(d, j)
    ensures Settled(d, Recovers(d, j, left), left)
  {
    MoveRestoresIff(d, j);
    BulkRemapKeepsInv(BulkStep(d), left - 1);
    SettledByMove(d, true, left);
  }

  /** The pass brings the stray entry back exactly when one of its moves does. */
  lemma {:induction false} PassRestoresIff(d: Dict, j: nat, left: nat)
    requires Strayed(d, j)
    ensures Settled(d, Recovers(d, j, left), left)
    decreases left, d.remapEnd + 1
  {
    if d.remapEnd < 0 || left == 0 {
      SettledAtOnce(d, j, left);
    } else if !NeedsMove(d) {
      StepDownStaysStrayed(d, j);
      PassRestoresIff(BulkStep(d), j, left);
      PassOverStep(d, j, left);
    } else if PullsBack(d, j) {
      PassAfterPull(d, j, left);
    } else {
      MoveRestoresIff(d, j);
      PassRestoresIff(BulkStep(d), StrayMovesTo(d, j), left - 1);
      PassOverMove(d, j, left);
    }
  }

  /** A pass that moves nothing brings nothing back. */
  lemma {:induction false} IdlePassRecoversNothing(d: Dict, j: nat, left: nat)
    requires Shape(d) && forall p :: 0 <= p <= d.remapEnd ==> IsCurrent(d.table[p], p, d.log2)
    ensures !Recovers(d, j, left)
    decreases d.remapEnd + 1
  {
    if d.remapEnd >= 0 {
      assert IsCurrent(d.table[d.remapEnd], d.remapEnd, d.log2);
      IdlePassRecoversNothing(d.(remapEnd := d.remapEnd - 1), j, left);
    }
  }
}
