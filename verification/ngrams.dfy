/** N-gram extraction from a playout history (the first phase of
    `updateNGramStats`): at every position the 1-gram of the move played
    there, and every longer gram ending there whose players alternate, is
    counted for the player who made the last move. */
module NGrams {
  import opened Wrappers

  /** A move of the playout together with the player who made it. */
  datatype Played<M> = Played(move: M, player: int)

  /** The moves of the `n` positions of `h` ending at `e`. */
  function Gram<M(==,!new)>(h: seq<Played<M>>, e: nat, n: nat): (k: seq<M>)
    requires 1 <= n <= e + 1 <= |h|
    ensures |k| == n && k[n - 1] == h[e].move
    ensures forall i :: 0 <= i < n ==> k[i] == h[e - n + 1 + i].move
  {
    seq(n, i requires 0 <= i < n => h[e - n + 1 + i].move)
  }

  /** The alternation test of `updateNGramStats`: the position at offset `i`
      of the window is by the last mover exactly when `i` and `n - 1` have
      the same parity. */
  predicate Alternates<M(==,!new)>(h: seq<Played<M>>, e: nat, n: nat)
    requires 1 <= n <= e + 1 <= |h|
  {
    forall i :: 0 <= i < n ==> ((h[e - n + 1 + i].player == h[e].player) <==> (i % 2 == (n - 1) % 2))
  }

  /** Gram `k` is counted for player `p` at position `e` with maximal gram
      length `size`. This is the reference definition of the counting rule. */
  predicate CountedAt<M(==,!new)>(h: seq<Played<M>>, size: nat, e: nat, p: int, k: seq<M>) {
    && e < |h|
    && h[e].player == p
    && 1 <= |k| <= size && |k| <= e + 1
    && k == Gram(h, e, |k|)
    && (|k| == 1 || Alternates(h, e, |k|))
  }

  /** The grams counted at `e` whose length is at most `n`, shortest first. */
  function GramsUpTo<M(==,!new)>(h: seq<Played<M>>, e: nat, n: nat): (r: seq<seq<M>>)
    requires e < |h| && n <= e + 1
    ensures forall i :: 0 <= i < |r| ==> 1 <= |r[i]| <= n
    ensures forall i, j :: 0 <= i < j < |r| ==> |r[i]| < |r[j]|
    ensures forall k :: k in r <==> 1 <= |k| <= n && k == Gram(h, e, |k|) && (|k| == 1 || Alternates(h, e, |k|))
  {
    if n == 0 then []
    else
      var shorter := GramsUpTo(h, e, n - 1);
      var g := Gram(h, e, n);
      if n == 1 || Alternates(h, e, n) then
        AppendLonger(shorter, g);
        shorter + [g]
      else shorter
  }

  /** Appending a gram longer than all others keeps the lengths strictly
      increasing and adds exactly that gram. */
  lemma AppendLonger<M>(s: seq<seq<M>>, g: seq<M>)
    requires forall i, j :: 0 <= i < j < |s| ==> |s[i]| < |s[j]|
    requires forall i :: 0 <= i < |s| ==> |s[i]| < |g|
    ensures forall i :: 0 <= i < |s| + 1 ==> (s + [g])[i] == if i < |s| then s[i] else g
    ensures forall i, j :: 0 <= i < j < |s + [g]| ==> |(s + [g])[i]| < |(s + [g])[j]|
    ensures forall k :: k in s + [g] <==> k in s || k == g
  {
  }

  function MinNat(a: nat, b: nat): nat {
    if a <= b then a else b
  }

  /** The grams counted at position `e` for a maximal gram length `size`. */
  function GramsAt<M(==,!new)>(h: seq<Played<M>>, size: nat, e: nat): (r: seq<seq<M>>)
    requires e < |h|
    ensures forall i, j :: 0 <= i < j < |r| ==> r[i] != r[j]
    ensures forall k :: k in r <==> CountedAt(h, size, e, h[e].player, k)
  {
    GramsUpTo(h, e, MinNat(size, e + 1))
  }

  /** One entry of the per-playout tally: player, gram and number of times
      counted. */
  datatype Occ<M> = Occ(player: int, gram: seq<M>, count: nat)

  predicate Matches<M(==,!new)>(o: Occ<M>, p: int, k: seq<M>) {
    o.player == p && o.gram == k
  }

  /** No (player, gram) pair appears twice, and every count is positive. */
  predicate TallyOk<M(==,!new)>(t: seq<Occ<M>>) {
    && (forall i, j :: 0 <= i < j < |t| ==> !Matches(t[j], t[i].player, t[i].gram))
    && (forall i :: 0 <= i < |t| ==> t[i].count > 0)
  }

  /** The position of the entry for (`p`, `k`), if any. */
  function FindOcc<M(==,!new)>(t: seq<Occ<M>>, p: int, k: seq<M>): (r: Option<nat>)
    ensures r.None? <==> forall i :: 0 <= i < |t| ==> !Matches(t[i], p, k)
    ensures r.Some? ==> r.value < |t| && Matches(t[r.value], p, k)
    ensures r.Some? ==> forall i :: 0 <= i < r.value ==> !Matches(t[i], p, k)
    decreases |t|
  {
    if |t| == 0 then None
    else if Matches(t[0], p, k) then Some(0)
    else match FindOcc(t[1..], p, k)
      case None => None
      case Some(i) => Some(i + 1)
  }

  /** How often (`p`, `k`) was counted, according to the tally. */
  function CountOf<M(==,!new)>(t: seq<Occ<M>>, p: int, k: seq<M>): nat {
    match FindOcc(t, p, k)
    case None => 0
    case Some(i) => t[i].count
  }

  /** `merge(key, 1, Integer::sum)`: one more for (`p`, `k`), appended when
      new. */
  function Bump<M(==,!new)>(t: seq<Occ<M>>, p: int, k: seq<M>): (r: seq<Occ<M>>)
    requires TallyOk(t)
    ensures TallyOk(r)
    ensures forall q, x :: CountOf(r, q, x) == CountOf(t, q, x) + (if q == p && x == k then 1 else 0)
    ensures |t| <= |r| && forall i :: 0 <= i < |t| ==> Matches(r[i], t[i].player, t[i].gram)
  {
    match FindOcc(t, p, k)
    case Some(i) =>
      var r := t[i := t[i].(count := t[i].count + 1)];
      BumpCounts(t, r);
      r
    case None =>
      var r := t + [Occ(p, k, 1)];
      AppendCounts(t, p, k);
      r
  }

  /** The first matching position is unique: any answer with the three
      properties of the lookup is the lookup. */
  lemma FirstMatch<M(!new)>(t: seq<Occ<M>>, q: int, x: seq<M>, a: Option<nat>)
    requires a.None? ==> forall i :: 0 <= i < |t| ==> !Matches(t[i], q, x)
    requires a.Some? ==> a.value < |t| && Matches(t[a.value], q, x)
    requires a.Some? ==> forall i :: 0 <= i < a.value ==> !Matches(t[i], q, x)
    ensures FindOcc(t, q, x) == a
  {
    var b := FindOcc(t, q, x);
    assert a.Some? <==> b.Some?;
    assert a.Some? && b.Some? ==> !(a.value < b.value) && !(b.value < a.value);
  }

  /** Changing counts without changing keys leaves every lookup in place. */
  lemma BumpCounts<M(!new)>(t: seq<Occ<M>>, r: seq<Occ<M>>)
    requires |t| == |r| && forall i :: 0 <= i < |t| ==> Matches(r[i], t[i].player, t[i].gram)
    ensures forall q, x :: FindOcc(r, q, x) == FindOcc(t, q, x)
  {
    forall q, x
      ensures FindOcc(r, q, x) == FindOcc(t, q, x)
    {
      assert forall i :: 0 <= i < |t| ==> (Matches(r[i], q, x) <==> Matches(t[i], q, x));
      FirstMatch(r, q, x, FindOcc(t, q, x));
    }
  }

  /** Appending a fresh key finds it at the end and leaves the others. */
  lemma AppendCounts<M(!new)>(t: seq<Occ<M>>, p: int, k: seq<M>)
    requires forall i :: 0 <= i < |t| ==> !Matches(t[i], p, k)
    ensures forall q, x ::
      FindOcc(t + [Occ(p, k, 1)], q, x) == (if q == p && x == k then Some(|t|) else FindOcc(t, q, x))
  {
    var r := t + [Occ(p, k, 1)];
    forall q, x
      ensures FindOcc(r, q, x) == (if q == p && x == k then Some(|t|) else FindOcc(t, q, x))
    {
      assert forall i :: 0 <= i < |t| ==> r[i] == t[i];
      assert Matches(r[|t|], q, x) <==> q == p && x == k;
      FirstMatch(r, q, x, if q == p && x == k then Some(|t|) else FindOcc(t, q, x));
    }
  }

  /** Count every gram of `ks` once for player `p`. */
  function BumpAll<M(==,!new)>(t: seq<Occ<M>>, p: int, ks: seq<seq<M>>): (r: seq<Occ<M>>)
    requires TallyOk(t)
    requires forall i, j :: 0 <= i < j < |ks| ==> ks[i] != ks[j]
    ensures TallyOk(r)
    ensures forall q, x :: CountOf(r, q, x) == CountOf(t, q, x) + (if q == p && x in ks then 1 else 0)
    decreases |ks|
  {
    if |ks| == 0 then t
    else
      var r := BumpAll(Bump(t, p, ks[0]), p, ks[1..]);
      assert forall x :: x in ks <==> x == ks[0] || x in ks[1..];
      assert ks[0] !in ks[1..];
      r
  }

  /** The tally of the first `m` positions of the history. */
  function TallyUpTo<M(==,!new)>(h: seq<Played<M>>, size: nat, m: nat): (r: seq<Occ<M>>)
    requires m <= |h|
    ensures TallyOk(r)
  {
    if m == 0 then []
    else BumpAll(TallyUpTo(h, size, m - 1), h[m - 1].player, GramsAt(h, size, m - 1))
  }

  /** The tally of a whole playout history. */
  function Extract<M(==,!new)>(h: seq<Played<M>>, size: nat): (r: seq<Occ<M>>)
    ensures TallyOk(r)
  {
    TallyUpTo(h, size, |h|)
  }

  /** The number of positions below `m` at which gram `k` is counted for `p`. */
  function Occurrences<M(==,!new)>(h: seq<Played<M>>, size: nat, p: int, k: seq<M>, m: nat): nat
    requires m <= |h|
  {
    if m == 0 then 0
    else Occurrences(h, size, p, k, m - 1) + (if CountedAt(h, size, m - 1, p, k) then 1 else 0)
  }

  /** The tally counts each (player, gram) exactly as often as the counting
      rule holds along the history. */
  lemma {:induction false} TallyCounts<M(!new)>(h: seq<Played<M>>, size: nat, m: nat, p: int, k: seq<M>)
    requires m <= |h|
    ensures CountOf(TallyUpTo(h, size, m), p, k) == Occurrences(h, size, p, k, m)
  {
    if m > 0 {
      TallyCounts(h, size, m - 1, p, k);
      TallyStep(h, size, m, p, k);
    }
  }

  /** Position `m - 1` adds one to a count exactly when the counting rule
      holds there. */
  lemma TallyStep<M(!new)>(h: seq<Played<M>>, size: nat, m: nat, p: int, k: seq<M>)
    requires 0 < m <= |h|
    ensures CountOf(TallyUpTo(h, size, m), p, k)
         == CountOf(TallyUpTo(h, size, m - 1), p, k) + (if CountedAt(h, size, m - 1, p, k) then 1 else 0)
  {
    var gs := GramsAt(h, size, m - 1);
    assert (p == h[m - 1].player && k in gs) <==> CountedAt(h, size, m - 1, p, k);
  }

  lemma ExtractCounts<M(!new)>(h: seq<Played<M>>, size: nat, p: int, k: seq<M>)
    ensures CountOf(Extract(h, size), p, k) == Occurrences(h, size, p, k, |h|)
  {
    TallyCounts(h, size, |h|, p, k);
  }

  /** Every gram in the tally is non-empty, no longer than `size`, and was
      counted somewhere in the history. */
  lemma {:induction false} TallyGrams<M(!new)>(h: seq<Played<M>>, size: nat, m: nat, i: nat)
    requires m <= |h| && i < |TallyUpTo(h, size, m)|
    ensures var o := TallyUpTo(h, size, m)[i];
      && 1 <= |o.gram| <= size && Occurrences(h, size, o.player, o.gram, m) > 0
      && exists e :: 0 <= e < m && h[e].player == o.player
  {
    var t := TallyUpTo(h, size, m);
    var o := t[i];
    TallyCounts(h, size, m, o.player, o.gram);
    assert FindOcc(t, o.player, o.gram).Some?;
    assert CountOf(t, o.player, o.gram) > 0;
    OccursSomewhere(h, size, o.player, o.gram, m);
  }

  /** A positive count has a witness position. */
  lemma {:induction false} OccursSomewhere<M(!new)>(h: seq<Played<M>>, size: nat, p: int, k: seq<M>, m: nat)
    requires m <= |h| && Occurrences(h, size, p, k, m) > 0
    ensures 1 <= |k| <= size
    ensures exists e :: 0 <= e < m && h[e].player == p
  {
    if !CountedAt(h, size, m - 1, p, k) {
      OccursSomewhere(h, size, p, k, m - 1);
    }
  }

  /** Every tally entry has a gram of length 1 to `size` and belongs to a
      player who moved in the history. */
  lemma ExtractEntries<M(!new)>(h: seq<Played<M>>, size: nat)
    ensures forall i :: 0 <= i < |Extract(h, size)| ==>
      && 1 <= |Extract(h, size)[i].gram| <= size
      && exists e :: 0 <= e < |h| && h[e].player == Extract(h, size)[i].player
  {
    forall i | 0 <= i < |Extract(h, size)|
      ensures 1 <= |Extract(h, size)[i].gram| <= size
      ensures exists e :: 0 <= e < |h| && h[e].player == Extract(h, size)[i].player
    {
      TallyGrams(h, size, |h|, i);
    }
  }

  /** The sum of the counts of the entries for (`p`, `k`). */
  function SumCounts<M(==,!new)>(t: seq<Occ<M>>, p: int, k: seq<M>): nat {
    if |t| == 0 then 0
    else (if Matches(t[0], p, k) then t[0].count else 0) + SumCounts(t[1..], p, k)
  }

  /** In a well-formed tally the entries for a key sum to its count. */
  lemma {:induction false} SumCountsIsCount<M(!new)>(t: seq<Occ<M>>, p: int, k: seq<M>)
    requires TallyOk(t)
    ensures SumCounts(t, p, k) == CountOf(t, p, k)
    decreases |t|
  {
    if |t| > 0 {
      SumCountsIsCount(t[1..], p, k);
      if Matches(t[0], p, k) {
        assert forall i :: 0 <= i < |t[1..]| ==> !Matches(t[1..][i], p, k) by {
          forall i | 0 <= i < |t[1..]|
            ensures !Matches(t[1..][i], p, k)
          {
            assert t[1..][i] == t[i + 1];
          }
        }
      }
    }
  }
}
