/** The MAST / N-gram statistics store: per side (the agent itself, every
    other player), a table of grams with a visit-weighted mean score, a
    per-move aggregate used by the playout policy, and the greedy playout
    pick. A side's table holds the grams of all the per-move buckets of the
    engine; the bucket of a move is the set of grams ending with it. */
module Mast {
  import opened Wrappers
  import opened NGrams
  import opened ArgMax

  /** Grams longer than one move count towards a move's aggregate only once
      they have this many visits. */
  const MinVisits: nat := 7
  /** The score of a move that has no aggregate yet. */
  const NewMoveExploration: real := 100.0

  datatype Entry<M> = Entry(gram: seq<M>, score: real, visits: nat)

  datatype Side<M> = Side(
    entries: seq<Entry<M>>,
    lastSeen: map<seq<M>, nat>,
    moveScores: map<M, real>,
    moveVisits: map<M, nat>)

  datatype Store<M> = Store(
    player: int,
    nGramSize: nat,
    ai: Side<M>,
    opp: Side<M>,
    totalSimulations: nat,
    additions: nat)

  function EmptyStore<M(==,!new)>(player: int, nGramSize: nat): (r: Store<M>)
    ensures Consistent(r.ai) && Consistent(r.opp) && Bounded(r.ai) && Bounded(r.opp)
  {
    var empty := Side([], map[], map[], map[]);
    Store(player, nGramSize, empty, empty, 0, 0)
  }

  /** The side whose tables record the moves of player `p`. */
  function SideOf<M(==,!new)>(st: Store<M>, p: int): Side<M> {
    if p == st.player then st.ai else st.opp
  }

  function WithSide<M(==,!new)>(st: Store<M>, p: int, side: Side<M>): (r: Store<M>)
    ensures SideOf(r, p) == side
    ensures r.player == st.player && r.nGramSize == st.nGramSize
    ensures r.totalSimulations == st.totalSimulations && r.additions == st.additions
    ensures p == st.player ==> r.opp == st.opp
    ensures p != st.player ==> r.ai == st.ai
  {
    if p == st.player then st.(ai := side) else st.(opp := side)
  }

  // ---------------------------------------------------------------------
  // The weighted running mean

  /** `n` results of value `x` added up: `x * n`, written as a sum so that
      the accounting below stays linear. */
  function Scaled(x: real, n: nat): real {
    if n == 0 then 0.0 else Scaled(x, n - 1) + x
  }

  lemma {:induction false} ScaledIsProduct(x: real, n: nat)
    ensures Scaled(x, n) == x * n as real
  {
    if n > 0 {
      ScaledIsProduct(x, n - 1);
    }
  }

  /** The score after merging `c` new results of utility `u` into a gram
      with mean `score` over `visits` results: the mean over all
      `visits + c` results. */
  function Merge(score: real, visits: nat, u: real, c: nat): (r: real)
    requires visits + c > 0
    ensures Scaled(r, visits + c) == Scaled(score, visits) + Scaled(u, c)
  {
    var r := (score * visits as real + u * c as real) / (visits + c) as real;
    ScaledIsProduct(r, visits + c);
    ScaledIsProduct(score, visits);
    ScaledIsProduct(u, c);
    r
  }

  /** Results in [-1, 1] add up to at most their number in size. */
  lemma {:induction false} ScaledBounds(x: real, n: nat)
    requires -1.0 <= x <= 1.0
    ensures -(n as real) <= Scaled(x, n) <= n as real
  {
    if n > 0 {
      ScaledBounds(x, n - 1);
    }
  }

  /** A value above 1 added up `n > 0` times exceeds `n`; below -1, it falls
      under `-n`. */
  lemma {:induction false} ScaledOutside(x: real, n: nat)
    requires n > 0
    ensures x > 1.0 ==> Scaled(x, n) > n as real
    ensures x < -1.0 ==> Scaled(x, n) < -(n as real)
  {
    if n > 1 {
      ScaledOutside(x, n - 1);
    }
  }

  /** Adding up is additive in the value. */
  lemma {:induction false} ScaledDifference(a: real, b: real, n: nat)
    ensures Scaled(a, n) - Scaled(b, n) == Scaled(a - b, n)
  {
    if n > 0 {
      ScaledDifference(a, b, n - 1);
    }
  }

  /** A non-zero value added up `n > 0` times is non-zero. */
  lemma {:induction false} ScaledNonZero(x: real, n: nat)
    requires n > 0 && x != 0.0
    ensures Scaled(x, n) != 0.0
    ensures x > 0.0 ==> Scaled(x, n) > 0.0
    ensures x < 0.0 ==> Scaled(x, n) < 0.0
  {
    if n > 1 {
      ScaledNonZero(x, n - 1);
    }
  }

  /** Two values that add up to the same total over `n > 0` results are
      equal. */
  lemma ScaledCancel(a: real, b: real, n: nat)
    requires n > 0 && Scaled(a, n) == Scaled(b, n)
    ensures a == b
  {
    ScaledDifference(a, b, n);
    if a != b {
      ScaledNonZero(a - b, n);
    }
  }

  /** A mean of values in [-1, 1] stays in [-1, 1]. */
  lemma MergeBounded(score: real, visits: nat, u: real, c: nat)
    requires visits + c > 0
    requires -1.0 <= score <= 1.0 && -1.0 <= u <= 1.0
    ensures -1.0 <= Merge(score, visits, u, c) <= 1.0
  {
    var r := Merge(score, visits, u, c);
    ScaledBounds(score, visits);
    ScaledBounds(u, c);
    ScaledOutside(r, visits + c);
  }

  /** The order in which two batches are merged does not matter: both orders
      give the mean over all results. */
  lemma MergeCommutes(score: real, visits: nat, u1: real, c1: nat, u2: real, c2: nat)
    requires visits + c1 > 0 && visits + c2 > 0
    ensures Merge(Merge(score, visits, u1, c1), visits + c1, u2, c2)
         == Merge(Merge(score, visits, u2, c2), visits + c2, u1, c1)
  {
    var a := Merge(Merge(score, visits, u1, c1), visits + c1, u2, c2);
    var b := Merge(Merge(score, visits, u2, c2), visits + c2, u1, c1);
    ScaledCancel(a, b, visits + c1 + c2);
  }

  // ---------------------------------------------------------------------
  // Tables

  /** Sum of `f` over a sequence, taken from the front. */
  function SumBy<E>(es: seq<E>, f: E -> real): real {
    if |es| == 0 then 0.0 else SumBy(es[..|es| - 1], f) + f(es[|es| - 1])
  }

  lemma {:induction false} SumByUpdate<E>(es: seq<E>, i: nat, x: E, f: E -> real)
    requires i < |es|
    ensures SumBy(es[i := x], f) == SumBy(es, f) - f(es[i]) + f(x)
    decreases |es|
  {
    var last := |es| - 1;
    if i < last {
      assert es[i := x][..last] == es[..last][i := x];
      SumByUpdate(es[..last], i, x, f);
    } else {
      assert es[i := x][..last] == es[..last];
    }
  }

  lemma SumByAppend<E>(es: seq<E>, x: E, f: E -> real)
    ensures SumBy(es + [x], f) == SumBy(es, f) + f(x)
  {
    assert (es + [x])[..|es|] == es;
  }

  /** Every gram is non-empty and appears once. */
  predicate TableOk<M(==,!new)>(entries: seq<Entry<M>>) {
    && (forall i :: 0 <= i < |entries| ==> |entries[i].gram| > 0)
    && (forall i, j :: 0 <= i < j < |entries| ==> entries[i].gram != entries[j].gram)
  }

  function FindEntry<M(==,!new)>(entries: seq<Entry<M>>, k: seq<M>): (r: Option<nat>)
    ensures r.None? <==> forall i :: 0 <= i < |entries| ==> entries[i].gram != k
    ensures r.Some? ==> r.value < |entries| && entries[r.value].gram == k
    ensures r.Some? ==> forall i :: 0 <= i < r.value ==> entries[i].gram != k
    decreases |entries|
  {
    if |entries| == 0 then None
    else if entries[0].gram == k then Some(0)
    else match FindEntry(entries[1..], k)
      case None => None
      case Some(i) => Some(i + 1)
  }

  /** The visits recorded for gram `k` (0 when absent, as `getOrDefault`). */
  function VisitsOf<M(==,!new)>(entries: seq<Entry<M>>, k: seq<M>): nat {
    match FindEntry(entries, k)
    case None => 0
    case Some(i) => entries[i].visits
  }

  /** A gram counts towards the aggregate of move `m`: it ends with `m`, it
      has been visited, and it is a 1-gram or has at least `MinVisits`
      visits. */
  predicate CountsFor<M(==,!new)>(e: Entry<M>, m: M) {
    && |e.gram| > 0 && e.gram[|e.gram| - 1] == m
    && e.visits > 0 && (|e.gram| == 1 || e.visits >= MinVisits)
  }

  function ValidScore<M(==,!new)>(m: M): Entry<M> -> real {
    (e: Entry<M>) => if CountsFor(e, m) then e.score else 0.0
  }

  /** The aggregate of move `m`: the sum of the scores of the grams that
      count for it. */
  function SumValid<M(==,!new)>(entries: seq<Entry<M>>, m: M): real {
    SumBy(entries, ValidScore(m))
  }

  predicate HasValid<M(==,!new)>(entries: seq<Entry<M>>, m: M) {
    exists i :: 0 <= i < |entries| && CountsFor(entries[i], m)
  }

  function Visits<M(==,!new)>(): Entry<M> -> real {
    (e: Entry<M>) => e.visits as real
  }

  function Mass<M(==,!new)>(): Entry<M> -> real {
    (e: Entry<M>) => Scaled(e.score, e.visits)
  }

  /** The sum of the visits of a side's grams. */
  function TotalVisits<M(==,!new)>(side: Side<M>): real {
    SumBy(side.entries, Visits())
  }

  /** The sum over a side's grams of score times visits: the total utility
      merged into the side. */
  function TotalMass<M(==,!new)>(side: Side<M>): real {
    SumBy(side.entries, Mass())
  }

  /** The move aggregate agrees with the table: a move has an aggregate
      exactly when some gram counts for it, and that aggregate is
      `SumValid`. */
  ghost predicate Consistent<M(!new)>(side: Side<M>) {
    forall m :: (m in side.moveScores <==> HasValid(side.entries, m))
      && (m in side.moveScores ==> side.moveScores[m] == SumValid(side.entries, m))
  }

  /** Every mean score lies in [-1, 1]. */
  predicate Bounded<M(==,!new)>(side: Side<M>) {
    forall i :: 0 <= i < |side.entries| ==> -1.0 <= side.entries[i].score <= 1.0
  }

  // ---------------------------------------------------------------------
  // Updates

  /** `updateMoveStats`: when some gram counts for `m`, its aggregate becomes
      the sum of their scores and its usage counter goes up by one;
      otherwise nothing changes. */
  function UpdateMoveStats<M(==,!new)>(side: Side<M>, m: M): (r: Side<M>)
    ensures r.entries == side.entries && r.lastSeen == side.lastSeen
    ensures HasValid(side.entries, m) ==>
      && r.moveScores == side.moveScores[m := SumValid(side.entries, m)]
      && r.moveVisits == side.moveVisits[m := (if m in side.moveVisits then side.moveVisits[m] else 0) + 1]
    ensures !HasValid(side.entries, m) ==> r == side
  {
    var total := Aggregate(side.entries, m, |side.entries|);
    if total.1 > 0 then
      var used := if m in side.moveVisits then side.moveVisits[m] else 0;
      side.(moveScores := side.moveScores[m := total.0], moveVisits := side.moveVisits[m := used + 1])
    else side
  }

  /** The loop of `updateMoveStats` over the first `n` grams: the running
      total of the counting scores and the number of counting grams. */
  function Aggregate<M(==,!new)>(entries: seq<Entry<M>>, m: M, n: nat): (r: (real, nat))
    requires n <= |entries|
    ensures r.0 == SumValid(entries[..n], m)
    ensures r.1 > 0 <==> HasValid(entries[..n], m)
  {
    if n == 0 then (0.0, 0)
    else
      var before := Aggregate(entries, m, n - 1);
      var e := entries[n - 1];
      assert entries[..n][..n - 1] == entries[..n - 1];
      assert HasValid(entries[..n], m) <==> HasValid(entries[..n - 1], m) || CountsFor(e, m) by {
        assert forall i :: 0 <= i < n - 1 ==> entries[..n][i] == entries[..n - 1][i];
        assert entries[..n][n - 1] == e;
      }
      if CountsFor(e, m) then (before.0 + e.score, before.1 + 1) else before
  }

  /** Replace (or append) the entry for gram `k`. */
  function PutEntry<M(==,!new)>(entries: seq<Entry<M>>, e: Entry<M>): (r: seq<Entry<M>>)
    requires TableOk(entries) && |e.gram| > 0
    ensures TableOk(r)
    ensures FindEntry(entries, e.gram).Some? ==>
      r == entries[FindEntry(entries, e.gram).value := e]
    ensures FindEntry(entries, e.gram).None? ==> r == entries + [e]
  {
    match FindEntry(entries, e.gram)
    case Some(i) => entries[i := e]
    case None => entries + [e]
  }

  /** The entry of gram `k` after merging `c` results of utility `u`
      (absent grams start from score 0 and no visits, as `getOrDefault`). */
  function Merged<M(==,!new)>(entries: seq<Entry<M>>, k: seq<M>, c: nat, u: real): (e: Entry<M>)
    requires c > 0
    ensures e.gram == k && e.visits == VisitsOf(entries, k) + c
    ensures Scaled(e.score, e.visits) == MassOf(entries, k) + Scaled(u, c)
  {
    match FindEntry(entries, k)
    case None => Entry(k, Merge(0.0, 0, u, c), c)
    case Some(i) => Entry(k, Merge(entries[i].score, entries[i].visits, u, c), entries[i].visits + c)
  }

  /** Score times visits of gram `k` (0 when absent). */
  function MassOf<M(==,!new)>(entries: seq<Entry<M>>, k: seq<M>): real {
    match FindEntry(entries, k)
    case None => 0.0
    case Some(i) => Scaled(entries[i].score, entries[i].visits)
  }

  /** The per-gram step on one side: stamp the gram with the simulation
      number, merge the results into its entry and refresh the aggregate of
      its last move. */
  function MergeIntoSide<M(==,!new)>(side: Side<M>, k: seq<M>, c: nat, u: real, stamp: nat): (r: Side<M>)
    requires |k| > 0 && c > 0 && TableOk(side.entries)
    ensures TableOk(r.entries)
    ensures r.lastSeen == side.lastSeen[k := stamp]
    ensures VisitsOf(r.entries, k) == VisitsOf(side.entries, k) + c
    ensures forall k' :: k' != k ==> VisitsOf(r.entries, k') == VisitsOf(side.entries, k')
  {
    var entry := Merged(side.entries, k, c, u);
    var entries := PutEntry(side.entries, entry);
    PutFound(side.entries, entry);
    PutOthers(side.entries, entry);
    UpdateMoveStats(side.(entries := entries, lastSeen := side.lastSeen[k := stamp]), k[|k| - 1])
  }

  /** The merge step adds `c` visits to the side. */
  lemma MergeIntoSideVisits<M(!new)>(side: Side<M>, k: seq<M>, c: nat, u: real, stamp: nat)
    requires |k| > 0 && c > 0 && TableOk(side.entries)
    ensures TotalVisits(MergeIntoSide(side, k, c, u, stamp)) == TotalVisits(side) + c as real
  {
    var entry := Merged(side.entries, k, c, u);
    MergeIntoSideEntries(side, k, c, u, stamp);
    PutSum(side.entries, entry, Visits());
    assert Visits()(entry) == VisitsOf(side.entries, k) as real + c as real;
  }

  /** The merge step adds `u * c` utility mass to the side. */
  lemma MergeIntoSideMass<M(!new)>(side: Side<M>, k: seq<M>, c: nat, u: real, stamp: nat)
    requires |k| > 0 && c > 0 && TableOk(side.entries)
    ensures TotalMass(MergeIntoSide(side, k, c, u, stamp)) == TotalMass(side) + Scaled(u, c)
  {
    var entry := Merged(side.entries, k, c, u);
    MergeIntoSideEntries(side, k, c, u, stamp);
    PutMass(side.entries, entry, Scaled(u, c));
  }

  /** The table after the merge step is the merged entry put in place. */
  lemma MergeIntoSideEntries<M(!new)>(side: Side<M>, k: seq<M>, c: nat, u: real, stamp: nat)
    requires |k| > 0 && c > 0 && TableOk(side.entries)
    ensures MergeIntoSide(side, k, c, u, stamp).entries == PutEntry(side.entries, Merged(side.entries, k, c, u))
  {
  }

  /** Putting an entry whose mass exceeds the old one by `gained` adds
      `gained` to the table's mass. */
  lemma PutMass<M(!new)>(entries: seq<Entry<M>>, e: Entry<M>, gained: real)
    requires TableOk(entries) && |e.gram| > 0
    requires Scaled(e.score, e.visits) == MassOf(entries, e.gram) + gained
    ensures SumBy(PutEntry(entries, e), Mass()) == SumBy(entries, Mass()) + gained
  {
    PutSum(entries, e, Mass());
  }

  /** The merge step keeps every move aggregate in agreement with the
      table. */
  lemma MergeIntoSideConsistent<M(!new)>(side: Side<M>, k: seq<M>, c: nat, u: real, stamp: nat)
    requires |k| > 0 && c > 0 && TableOk(side.entries) && Consistent(side)
    ensures Consistent(MergeIntoSide(side, k, c, u, stamp))
  {
    var entry := Merged(side.entries, k, c, u);
    assert Grows(side.entries, entry);
    PutConsistent(side.(lastSeen := side.lastSeen[k := stamp]), entry);
  }

  /** Putting an entry and refreshing the aggregate of its last move keeps
      the aggregates consistent: only that move's bucket changed. */
  lemma PutConsistent<M(!new)>(side: Side<M>, e: Entry<M>)
    requires |e.gram| > 0 && TableOk(side.entries) && Consistent(side)
    requires Grows(side.entries, e)
    ensures Consistent(UpdateMoveStats(side.(entries := PutEntry(side.entries, e)), e.gram[|e.gram| - 1]))
  {
    var entries := PutEntry(side.entries, e);
    var last := e.gram[|e.gram| - 1];
    var r := UpdateMoveStats(side.(entries := entries), last);
    forall m
      ensures (m in r.moveScores <==> HasValid(r.entries, m))
      ensures m in r.moveScores ==> r.moveScores[m] == SumValid(r.entries, m)
    {
      if m != last {
        PutOtherMove(side.entries, e, m);
      } else {
        PutKeepsValid(side.entries, e);
      }
    }
  }

  /** The new entry for a gram has visits and at least as many as the
      entry it replaces. */
  predicate Grows<M(==,!new)>(entries: seq<Entry<M>>, e: Entry<M>) {
    && e.visits > 0
    && (FindEntry(entries, e.gram).Some? ==> e.visits >= entries[FindEntry(entries, e.gram).value].visits)
  }

  /** A growing put never takes a counting gram away from the entry's last
      move. */
  lemma PutKeepsValid<M(!new)>(entries: seq<Entry<M>>, e: Entry<M>)
    requires |e.gram| > 0 && TableOk(entries) && Grows(entries, e)
    ensures HasValid(entries, e.gram[|e.gram| - 1]) ==> HasValid(PutEntry(entries, e), e.gram[|e.gram| - 1])
  {
    var m := e.gram[|e.gram| - 1];
    var r := PutEntry(entries, e);
    if HasValid(entries, m) {
      var j :| 0 <= j < |entries| && CountsFor(entries[j], m);
      match FindEntry(entries, e.gram)
      case None =>
        assert r[j] == entries[j];
      case Some(i) =>
        if i == j {
          assert r[i] == e && CountsFor(e, m);
        } else {
          assert r[j] == entries[j];
        }
    }
  }

  /** A put leaves the bucket of every other move as it was. */
  lemma PutOtherMove<M(!new)>(entries: seq<Entry<M>>, e: Entry<M>, m: M)
    requires |e.gram| > 0 && TableOk(entries) && e.gram[|e.gram| - 1] != m
    ensures SumValid(PutEntry(entries, e), m) == SumValid(entries, m)
    ensures HasValid(PutEntry(entries, e), m) <==> HasValid(entries, m)
  {
    PutOtherSum(entries, e, m);
    PutOtherHas(entries, e, m);
  }

  lemma PutOtherSum<M(!new)>(entries: seq<Entry<M>>, e: Entry<M>, m: M)
    requires |e.gram| > 0 && TableOk(entries) && e.gram[|e.gram| - 1] != m
    ensures SumValid(PutEntry(entries, e), m) == SumValid(entries, m)
  {
    var f := ValidScore(m);
    PutSum(entries, e, f);
    assert f(e) == 0.0;
    match FindEntry(entries, e.gram)
    case Some(i) =>
      assert entries[i].gram == e.gram;
      assert f(entries[i]) == 0.0;
    case None =>
  }

  lemma PutOtherHas<M(!new)>(entries: seq<Entry<M>>, e: Entry<M>, m: M)
    requires |e.gram| > 0 && TableOk(entries) && e.gram[|e.gram| - 1] != m
    ensures HasValid(PutEntry(entries, e), m) <==> HasValid(entries, m)
  {
    var r := PutEntry(entries, e);
    PutEntryShape(entries, e);
    if HasValid(r, m) {
      var j :| 0 <= j < |r| && CountsFor(r[j], m);
      assert r[j] != e;
      assert j < |entries| && r[j] == entries[j];
    }
    if HasValid(entries, m) {
      var j :| 0 <= j < |entries| && CountsFor(entries[j], m);
      OtherLastMove(entries[j].gram, e.gram, m);
      assert r[j] == entries[j];
    }
  }

  /** Writing an entry leaves every other position alone and only appends
      at the end. */
  lemma PutEntryShape<M(!new)>(entries: seq<Entry<M>>, e: Entry<M>)
    requires TableOk(entries) && |e.gram| > 0
    ensures |entries| <= |PutEntry(entries, e)|
    ensures forall j :: 0 <= j < |PutEntry(entries, e)| ==>
      PutEntry(entries, e)[j] == e || (j < |entries| && PutEntry(entries, e)[j] == entries[j])
    ensures forall j :: 0 <= j < |entries| ==>
      PutEntry(entries, e)[j] == entries[j] || entries[j].gram == e.gram
  {
  }

  /** Grams ending with different moves are different grams. */
  lemma OtherLastMove<M>(a: seq<M>, b: seq<M>, m: M)
    requires |a| > 0 && |b| > 0 && a[|a| - 1] == m && b[|b| - 1] != m
    ensures a != b
  {
  }

  /** The merge step keeps every mean in [-1, 1] when the utility is. */
  lemma MergeIntoSideBounded<M(!new)>(side: Side<M>, k: seq<M>, c: nat, u: real, stamp: nat)
    requires |k| > 0 && c > 0 && TableOk(side.entries) && Bounded(side) && -1.0 <= u <= 1.0
    ensures Bounded(MergeIntoSide(side, k, c, u, stamp))
  {
    var entry := Merged(side.entries, k, c, u);
    match FindEntry(side.entries, k)
    case None => MergeBounded(0.0, 0, u, c);
    case Some(i) => MergeBounded(side.entries[i].score, side.entries[i].visits, u, c);
    assert MergeIntoSide(side, k, c, u, stamp).entries == PutEntry(side.entries, entry);
  }

  /** After a put, the gram is found at the new entry. */
  lemma PutFound<M(!new)>(entries: seq<Entry<M>>, e: Entry<M>)
    requires TableOk(entries) && |e.gram| > 0
    ensures FindEntry(PutEntry(entries, e), e.gram).Some?
    ensures PutEntry(entries, e)[FindEntry(PutEntry(entries, e), e.gram).value] == e
  {
    var r := PutEntry(entries, e);
    FindUnique(r, e.gram);
    match FindEntry(entries, e.gram)
    case Some(i) => assert r[i] == e;
    case None => assert r[|entries|] == e;
  }

  /** A put leaves the lookup of every other gram as it was. */
  lemma PutOthers<M(!new)>(entries: seq<Entry<M>>, e: Entry<M>)
    requires TableOk(entries) && |e.gram| > 0
    ensures forall k :: k != e.gram ==> FindEntry(PutEntry(entries, e), k) == FindEntry(entries, k)
    ensures forall k :: k != e.gram ==> VisitsOf(PutEntry(entries, e), k) == VisitsOf(entries, k)
    ensures forall k :: k != e.gram ==> MassOf(PutEntry(entries, e), k) == MassOf(entries, k)
  {
    var r := PutEntry(entries, e);
    forall k | k != e.gram
      ensures FindEntry(r, k) == FindEntry(entries, k)
    {
      SameGramsElsewhere(entries, r, e.gram, k);
    }
  }

  /** A put changes a sum by the new entry minus the replaced one. */
  lemma PutSum<M(!new)>(entries: seq<Entry<M>>, e: Entry<M>, f: Entry<M> -> real)
    requires TableOk(entries) && |e.gram| > 0
    ensures SumBy(PutEntry(entries, e), f) == SumBy(entries, f) + f(e)
      - (match FindEntry(entries, e.gram) case Some(i) => f(entries[i]) case None => 0.0)
  {
    match FindEntry(entries, e.gram)
    case Some(i) => SumByUpdate(entries, i, e, f);
    case None => SumByAppend(entries, e, f);
  }

  /** Two tables whose grams agree at every shared index, and whose extra
      entries (if any) hold only gram `g`, give the same lookup for any
      other gram. */
  lemma SameGramsElsewhere<M(!new)>(a: seq<Entry<M>>, b: seq<Entry<M>>, g: seq<M>, k: seq<M>)
    requires k != g && |a| <= |b|
    requires forall i :: 0 <= i < |a| ==> (a[i].gram == k <==> b[i].gram == k)
    requires forall i :: |a| <= i < |b| ==> b[i].gram == g
    ensures FindEntry(b, k) == FindEntry(a, k)
  {
    FirstEntry(b, k, FindEntry(a, k));
  }

  /** The first position holding a gram is unique: any answer with the
      three properties of the lookup is the lookup. */
  lemma FirstEntry<M(!new)>(t: seq<Entry<M>>, k: seq<M>, a: Option<nat>)
    requires a.None? ==> forall i :: 0 <= i < |t| ==> t[i].gram != k
    requires a.Some? ==> a.value < |t| && t[a.value].gram == k
    requires a.Some? ==> forall i :: 0 <= i < a.value ==> t[i].gram != k
    ensures FindEntry(t, k) == a
  {
    var b := FindEntry(t, k);
    assert a.Some? <==> b.Some?;
    assert a.Some? && b.Some? ==> !(a.value < b.value) && !(b.value < a.value);
  }

  /** `updateNGramStats` for one tally entry: merge `c` results of the
      player's utility `u` into gram `k` on the side that records player
      `p`, and count an addition when the gram is new. The other side is
      untouched. */
  function MergeGram<M(==,!new)>(st: Store<M>, p: int, k: seq<M>, c: nat, u: real): (r: Store<M>)
    requires |k| > 0 && c > 0 && TableOk(SideOf(st, p).entries)
    ensures TableOk(SideOf(r, p).entries)
    ensures r == WithSide(st, p, SideOf(r, p)).(additions := r.additions)
    ensures r.additions == st.additions + (if FindEntry(SideOf(st, p).entries, k).None? then 1 else 0)
    ensures SideOf(r, p).lastSeen == SideOf(st, p).lastSeen[k := st.totalSimulations]
    ensures VisitsOf(SideOf(r, p).entries, k) == VisitsOf(SideOf(st, p).entries, k) + c
  {
    var side := SideOf(st, p);
    var isNew := FindEntry(side.entries, k).None?;
    WithSide(st, p, MergeIntoSide(side, k, c, u, st.totalSimulations)).(additions := st.additions + if isNew then 1 else 0)
  }

  /** In a table without repeated grams, any entry with gram `k` is the one
      `FindEntry` returns. */
  lemma FindUnique<M(!new)>(entries: seq<Entry<M>>, k: seq<M>)
    requires TableOk(entries)
    ensures forall i :: 0 <= i < |entries| && entries[i].gram == k ==> FindEntry(entries, k) == Some(i)
  {
  }

  // ---------------------------------------------------------------------
  // One playout's update

  /** Both tables are well formed. */
  predicate StoreOk<M(==,!new)>(st: Store<M>) {
    TableOk(st.ai.entries) && TableOk(st.opp.entries)
  }

  /** The invariants the store keeps across updates. */
  ghost predicate Invariant<M(!new)>(st: Store<M>) {
    StoreOk(st) && Consistent(st.ai) && Consistent(st.opp) && Bounded(st.ai) && Bounded(st.opp)
  }

  /** Every tally entry can be merged: a valid player index into `u`, a
      non-empty gram, a positive count. */
  predicate Mergeable<M(==,!new)>(t: seq<Occ<M>>, u: seq<real>) {
    forall i :: 0 <= i < |t| ==> 0 <= t[i].player < |u| && |t[i].gram| > 0 && t[i].count > 0
  }

  /** Utilities in [-1, 1], as the engine's utility vectors are. */
  predicate UnitUtilities(u: seq<real>) {
    forall p :: 0 <= p < |u| ==> -1.0 <= u[p] <= 1.0
  }

  /** The second phase of `updateNGramStats`: merge every tally entry, in
      tally order. */
  function MergeAll<M(==,!new)>(st: Store<M>, t: seq<Occ<M>>, u: seq<real>): (r: Store<M>)
    requires StoreOk(st) && Mergeable(t, u)
    ensures StoreOk(r)
    ensures r.player == st.player && r.nGramSize == st.nGramSize && r.totalSimulations == st.totalSimulations
    decreases |t|
  {
    if |t| == 0 then st
    else
      var o := t[0];
      var next := MergeGram(st, o.player, o.gram, o.count, u[o.player]);
      assert StoreOk(next);
      MergeAll(next, t[1..], u)
  }

  /** The sum of the counts of a tally. */
  function TallyVisits<M>(t: seq<Occ<M>>): real {
    if |t| == 0 then 0.0 else t[0].count as real + TallyVisits(t[1..])
  }

  /** The sum over a tally of count times the player's utility. */
  function TallyMass<M>(t: seq<Occ<M>>, u: seq<real>): real
    requires forall i :: 0 <= i < |t| ==> 0 <= t[i].player < |u|
  {
    if |t| == 0 then 0.0 else OccMass(t[0], u) + TallyMass(t[1..], u)
  }

  /** One tally entry's count times its player's utility. */
  function OccMass<M>(o: Occ<M>, u: seq<real>): real
    requires 0 <= o.player < |u|
  {
    Scaled(u[o.player], o.count)
  }

  /** Merging keeps the store invariant. */
  lemma {:induction false} MergeAllInvariant<M(!new)>(st: Store<M>, t: seq<Occ<M>>, u: seq<real>)
    requires Invariant(st) && Mergeable(t, u) && UnitUtilities(u)
    ensures Invariant(MergeAll(st, t, u))
    decreases |t|
  {
    if |t| > 0 {
      var o := t[0];
      var side := SideOf(st, o.player);
      MergeIntoSideConsistent(side, o.gram, o.count, u[o.player], st.totalSimulations);
      MergeIntoSideBounded(side, o.gram, o.count, u[o.player], st.totalSimulations);
      MergeAllInvariant(MergeGram(st, o.player, o.gram, o.count, u[o.player]), t[1..], u);
    }
  }

  /** One merge adds the count to the visits, and count times utility to
      the mass, of the two sides together. */
  lemma MergeGramTotals<M(!new)>(st: Store<M>, p: int, k: seq<M>, c: nat, u: real)
    requires |k| > 0 && c > 0 && StoreOk(st)
    ensures var r := MergeGram(st, p, k, c, u);
      && TotalVisits(r.ai) + TotalVisits(r.opp) == TotalVisits(st.ai) + TotalVisits(st.opp) + c as real
      && TotalMass(r.ai) + TotalMass(r.opp) == TotalMass(st.ai) + TotalMass(st.opp) + Scaled(u, c)
  {
    var side := SideOf(st, p);
    var merged := MergeIntoSide(side, k, c, u, st.totalSimulations);
    MergeGramSides(st, p, k, c, u);
    MergeIntoSideVisits(side, k, c, u, st.totalSimulations);
    MergeIntoSideMass(side, k, c, u, st.totalSimulations);
  }

  /** A merge replaces the side of `p` by the merged side and leaves the
      other side alone. */
  lemma MergeGramSides<M(!new)>(st: Store<M>, p: int, k: seq<M>, c: nat, u: real)
    requires |k| > 0 && c > 0 && StoreOk(st)
    ensures var r := MergeGram(st, p, k, c, u);
      var merged := MergeIntoSide(SideOf(st, p), k, c, u, st.totalSimulations);
      && (p == st.player ==> r.ai == merged && r.opp == st.opp)
      && (p != st.player ==> r.opp == merged && r.ai == st.ai)
  {
  }

  /** Merging a tally adds its counts to the visits of the two sides
      together. */
  lemma {:induction false} MergeAllVisits<M(!new)>(st: Store<M>, t: seq<Occ<M>>, u: seq<real>)
    requires StoreOk(st) && Mergeable(t, u)
    ensures TotalVisits(MergeAll(st, t, u).ai) + TotalVisits(MergeAll(st, t, u).opp)
         == TotalVisits(st.ai) + TotalVisits(st.opp) + TallyVisits(t)
    decreases |t|
  {
    if |t| > 0 {
      var o := t[0];
      var next := MergeGram(st, o.player, o.gram, o.count, u[o.player]);
      MergeAllStep(st, t, u);
      MergeGramTotals(st, o.player, o.gram, o.count, u[o.player]);
      MergeAllVisits(next, t[1..], u);
    }
  }

  /** Merging a tally adds its utility mass (count times the acting
      player's utility) to the mass of the two sides together. */
  lemma {:induction false} MergeAllMass<M(!new)>(st: Store<M>, t: seq<Occ<M>>, u: seq<real>)
    requires StoreOk(st) && Mergeable(t, u)
    ensures TotalMass(MergeAll(st, t, u).ai) + TotalMass(MergeAll(st, t, u).opp)
         == TotalMass(st.ai) + TotalMass(st.opp) + TallyMass(t, u)
    decreases |t|
  {
    if |t| > 0 {
      var o := t[0];
      var next := MergeGram(st, o.player, o.gram, o.count, u[o.player]);
      MergeAllStep(st, t, u);
      MergeOccMass(st, o, u);
      MergeAllMass(next, t[1..], u);
    }
  }

  /** The mass form of `MergeGramTotals` for one tally entry. */
  lemma MergeOccMass<M(!new)>(st: Store<M>, o: Occ<M>, u: seq<real>)
    requires |o.gram| > 0 && o.count > 0 && 0 <= o.player < |u| && StoreOk(st)
    ensures TotalMass(MergeGram(st, o.player, o.gram, o.count, u[o.player]).ai)
          + TotalMass(MergeGram(st, o.player, o.gram, o.count, u[o.player]).opp)
         == TotalMass(st.ai) + TotalMass(st.opp) + OccMass(o, u)
  {
    MergeGramTotals(st, o.player, o.gram, o.count, u[o.player]);
  }

  /** One step of `MergeAll`. */
  lemma MergeAllStep<M(!new)>(st: Store<M>, t: seq<Occ<M>>, u: seq<real>)
    requires StoreOk(st) && Mergeable(t, u) && |t| > 0
    ensures StoreOk(MergeGram(st, t[0].player, t[0].gram, t[0].count, u[t[0].player]))
    ensures MergeAll(st, t, u) == MergeAll(MergeGram(st, t[0].player, t[0].gram, t[0].count, u[t[0].player]), t[1..], u)
  {
  }

  /** On the agent's own side, every gram gains exactly the counts the tally
      holds for the agent and that gram. */
  lemma {:induction false} MergeAllOwnVisits<M(!new)>(st: Store<M>, t: seq<Occ<M>>, u: seq<real>, k: seq<M>)
    requires StoreOk(st) && Mergeable(t, u)
    ensures VisitsOf(MergeAll(st, t, u).ai.entries, k) == VisitsOf(st.ai.entries, k) + SumCounts(t, st.player, k)
    decreases |t|
  {
    if |t| > 0 {
      var o := t[0];
      var next := MergeGram(st, o.player, o.gram, o.count, u[o.player]);
      MergeAllOwnVisits(next, t[1..], u, k);
      if o.player == st.player {
        assert next.ai == MergeIntoSide(st.ai, o.gram, o.count, u[o.player], st.totalSimulations);
      } else {
        assert next.ai == st.ai;
      }
    }
  }

  /** `updateNGramStats`: nothing for an empty history; otherwise bump the
      simulation counter, extract the tally and merge it. Every player in
      the history must index the utility vector. */
  function UpdateNGramStats<M(==,!new)>(st: Store<M>, h: seq<Played<M>>, u: seq<real>): (r: Store<M>)
    requires StoreOk(st)
    requires forall i :: 0 <= i < |h| ==> 0 <= h[i].player < |u|
    ensures StoreOk(r)
    ensures |h| == 0 ==> r == st
    ensures |h| > 0 ==> r.totalSimulations == st.totalSimulations + 1
    ensures r.player == st.player && r.nGramSize == st.nGramSize
  {
    if |h| == 0 then st
    else
      var t := Extract(h, st.nGramSize);
      ExtractMergeable(h, st.nGramSize, u);
      MergeAll(st.(totalSimulations := st.totalSimulations + 1), t, u)
  }

  /** After a playout, each gram on the agent's side has gained exactly the
      number of history positions at which it was counted for the agent. */
  lemma OwnVisitsAfterUpdate<M(!new)>(st: Store<M>, h: seq<Played<M>>, u: seq<real>, k: seq<M>)
    requires StoreOk(st)
    requires forall i :: 0 <= i < |h| ==> 0 <= h[i].player < |u|
    ensures VisitsOf(UpdateNGramStats(st, h, u).ai.entries, k)
         == VisitsOf(st.ai.entries, k) + Occurrences(h, st.nGramSize, st.player, k, |h|)
  {
    if |h| > 0 {
      var t := Extract(h, st.nGramSize);
      var bumped := st.(totalSimulations := st.totalSimulations + 1);
      UpdateIsMergeAll(st, h, u);
      MergeAllOwnVisits(bumped, t, u, k);
      SumCountsIsCount(t, st.player, k);
      ExtractCounts(h, st.nGramSize, st.player, k);
    }
  }

  /** A playout's update keeps the store invariant. */
  lemma UpdateKeepsInvariant<M(!new)>(st: Store<M>, h: seq<Played<M>>, u: seq<real>)
    requires Invariant(st) && UnitUtilities(u)
    requires forall i :: 0 <= i < |h| ==> 0 <= h[i].player < |u|
    ensures Invariant(UpdateNGramStats(st, h, u))
  {
    if |h| > 0 {
      var bumped := st.(totalSimulations := st.totalSimulations + 1);
      var t := Extract(h, st.nGramSize);
      UpdateIsMergeAll(st, h, u);
      MergeAllInvariant(bumped, t, u);
    }
  }

  /** A non-empty playout's update is the merge of its tally into the
      store with the simulation counter advanced. */
  lemma UpdateIsMergeAll<M(!new)>(st: Store<M>, h: seq<Played<M>>, u: seq<real>)
    requires StoreOk(st) && |h| > 0
    requires forall i :: 0 <= i < |h| ==> 0 <= h[i].player < |u|
    ensures Mergeable(Extract(h, st.nGramSize), u)
    ensures UpdateNGramStats(st, h, u)
         == MergeAll(st.(totalSimulations := st.totalSimulations + 1), Extract(h, st.nGramSize), u)
  {
    ExtractMergeable(h, st.nGramSize, u);
    UnfoldUpdate(st, h, u);
  }

  lemma UnfoldUpdate<M(!new)>(st: Store<M>, h: seq<Played<M>>, u: seq<real>)
    requires StoreOk(st) && |h| > 0
    requires forall i :: 0 <= i < |h| ==> 0 <= h[i].player < |u|
    requires Mergeable(Extract(h, st.nGramSize), u)
    ensures UpdateNGramStats(st, h, u)
         == MergeAll(st.(totalSimulations := st.totalSimulations + 1), Extract(h, st.nGramSize), u)
  {
  }

  /** Every entry of a playout's tally can be merged. */
  lemma ExtractMergeable<M(!new)>(h: seq<Played<M>>, size: nat, u: seq<real>)
    requires forall i :: 0 <= i < |h| ==> 0 <= h[i].player < |u|
    ensures Mergeable(Extract(h, size), u)
  {
    var t := Extract(h, size);
    ExtractEntries(h, size);
    forall i | 0 <= i < |t|
      ensures 0 <= t[i].player < |u|
    {
      var e :| 0 <= e < |h| && h[e].player == t[i].player;
    }
  }
}
