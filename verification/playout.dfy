/** The MAST-guided playout: the greedy move choice over the per-move
    aggregates, the playout loop run from a leaf, and the statistics update
    at its end. */
module Playouts {
  import opened Wrappers
  import opened Games
  import opened NGrams
  import opened Mast
  import opened ArgMax

  /** `getMoveScore`: the aggregate of move `m` on the side of player `p`,
      or `NewMoveExploration` when the side has none. */
  function GetMoveScore<M(==,!new)>(st: Store<M>, m: M, p: int): (r: real)
    ensures m !in SideOf(st, p).moveScores ==> r == NewMoveExploration
    ensures Consistent(SideOf(st, p)) ==>
      r == if HasValid(SideOf(st, p).entries, m) then SumValid(SideOf(st, p).entries, m) else NewMoveExploration
  {
    var side := SideOf(st, p);
    if m in side.moveScores then side.moveScores[m] else NewMoveExploration
  }

  /** The scan of `selectMoveByMAST` over the first `n` scores: the index
      the loop holds after them, replacing the best only on a strictly
      greater score. */
  function FirstBestUpTo(scores: seq<real>, n: nat): (r: nat)
    requires 0 < n <= |scores|
    ensures r < n
    ensures forall i :: 0 <= i < n ==> scores[i] <= scores[r]
    ensures forall i :: 0 <= i < r ==> scores[i] < scores[r]
  {
    if n == 1 then 0
    else
      var b := FirstBestUpTo(scores, n - 1);
      if scores[n - 1] > scores[b] then n - 1 else b
  }

  /** The index the greedy scan settles on: the first maximal score. */
  function FirstBest(scores: seq<real>): (r: nat)
    requires |scores| > 0
    ensures r < |scores|
    ensures forall i :: 0 <= i < |scores| ==> scores[i] <= scores[r]
    ensures forall i :: 0 <= i < r ==> scores[i] < scores[r]
  {
    FirstBestUpTo(scores, |scores|)
  }

  /** The greedy scan picks the smallest index of the maximal set. */
  lemma FirstBestIsFirstArgMax(scores: seq<real>)
    requires |scores| > 0
    ensures |ArgMaxes(scores, AllAllowed(|scores|))| > 0
    ensures FirstBest(scores) == ArgMaxes(scores, AllAllowed(|scores|))[0]
  {
    var allowed := AllAllowed(|scores|);
    var best := ArgMaxes(scores, allowed);
    var b := FirstBest(scores);
    assert allowed[0];
    assert b in best;
    assert forall k :: 0 <= k < |best| ==> best[0] <= best[k];
    assert scores[b] <= scores[best[0]];
  }

  /** The aggregates of the legal moves, in order. */
  function MoveScores<M(==,!new)>(st: Store<M>, legal: seq<M>, p: int): (r: seq<real>)
    ensures |r| == |legal|
    ensures forall i :: 0 <= i < |legal| ==> r[i] == GetMoveScore(st, legal[i], p)
  {
    seq(|legal|, i requires 0 <= i < |legal| => GetMoveScore(st, legal[i], p))
  }

  /** `selectMoveByMAST`: nothing for no legal moves; on an exploration
      draw the legal move at `pick`; otherwise the first legal move of
      maximal score. */
  function SelectMoveByMAST<M(==,!new)>(st: Store<M>, legal: seq<M>, p: int, explore: bool, pick: nat)
    : (r: Option<M>)
    ensures r.None? <==> |legal| == 0
    ensures r.Some? ==> r.value in legal
    ensures |legal| > 0 && explore ==> r == Some(legal[pick % |legal|])
    ensures |legal| > 0 && !explore ==>
      exists i :: 0 <= i < |legal| && r == Some(legal[i])
        && (forall j :: 0 <= j < |legal| ==> GetMoveScore(st, legal[j], p) <= GetMoveScore(st, legal[i], p))
        && (forall j :: 0 <= j < i ==> GetMoveScore(st, legal[j], p) < GetMoveScore(st, legal[i], p))
  {
    if |legal| == 0 then None
    else if explore then Some(legal[pick % |legal|])
    else
      var scores := MoveScores(st, legal, p);
      var i := FirstBest(scores);
      assert forall j :: 0 <= j < |legal| ==> scores[j] == GetMoveScore(st, legal[j], p);
      Some(legal[i])
  }

  /** A greedy pick from a consistent store that has never seen any legal
      move is the first legal move: every move scores the default. */
  lemma UnseenPicksFirst<M(!new)>(st: Store<M>, legal: seq<M>, p: int, pick: nat)
    requires |legal| > 0
    requires forall j :: 0 <= j < |legal| ==> legal[j] !in SideOf(st, p).moveScores
    ensures SelectMoveByMAST(st, legal, p, false, pick) == Some(legal[0])
  {
    var r := SelectMoveByMAST(st, legal, p, false, pick);
    var i :| 0 <= i < |legal| && r == Some(legal[i])
      && (forall j :: 0 <= j < i ==> GetMoveScore(st, legal[j], p) < GetMoveScore(st, legal[i], p));
    if i > 0 {
      assert GetMoveScore(st, legal[0], p) < GetMoveScore(st, legal[i], p);
    }
  }

  /** The random draws of the playouts, indexed by the simulation number and
      the step within the playout: whether the ε-branch fires, and which
      legal move it takes. */
  datatype Draws = Draws(explore: (nat, nat) -> bool, pick: (nat, nat) -> nat)

  /** `h` is a legal line of play from `s` to `end`: every move is legal
      where it is played and is recorded with the player to move there. */
  ghost predicate Line<S, M>(g: Game<S, M>, s: S, h: seq<Played<M>>, end: S)
    decreases |h|
  {
    if |h| == 0 then s == end
    else
      && h[0].move in g.legal(s)
      && h[0].player == g.mover(s)
      && Line(g, g.apply(s, h[0].move), h[1..], end)
  }

  /** The playout loop from `s`, with `h` the moves played so far: stop at a
      terminal state or when no move is legal, otherwise play the MAST pick
      for the mover. Each step consumes one unit of `fuel`; running out of
      it gives `None`. */
  function Play<S, M(==,!new)>(g: Game<S, M>, st: Store<M>, d: Draws, s: S, step: nat, fuel: nat)
    : (r: Option<(S, seq<Played<M>>)>)
    ensures r.Some? ==> Line(g, s, r.value.1, r.value.0)
    ensures r.Some? ==> g.terminal(r.value.0) || |g.legal(r.value.0)| == 0
    ensures g.terminal(s) || |g.legal(s)| == 0 ==> r == Some((s, []))
    decreases fuel
  {
    if g.terminal(s) || |g.legal(s)| == 0 then Some((s, []))
    else if fuel == 0 then None
    else
      var p := g.mover(s);
      var pick := SelectMoveByMAST(st, g.legal(s), p,
        d.explore(st.totalSimulations, step), d.pick(st.totalSimulations, step));
      var m := pick.value;
      match Play(g, st, d, g.apply(s, m), step + 1, fuel - 1)
      case None => None
      case Some((end, h)) => Some((end, [Played(m, p)] + h))
  }

  /** Every player in the history indexes the utility vector. */
  predicate PlayersIn<M>(h: seq<Played<M>>, u: seq<real>) {
    forall i :: 0 <= i < |h| ==> 0 <= h[i].player < |u|
  }

  /** A MAST playout from the non-terminal leaf `s`: play it out, read the
      utilities of the final state, and fold the history into the store
      (which leaves the store alone for an empty history). A mover outside
      the utility vector makes the update fail. */
  function Rollout<S(!new), M(==,!new)>(g: Game<S, M>, d: Draws, fuel: nat, st: Store<M>, s: S)
    : (r: Option<(Store<M>, seq<real>)>)
    requires StoreOk(st)
    ensures r.Some? ==> exists end, h :: (Line(g, s, h, end) && r.value.1 == g.utilities(end)
      && PlayersIn(h, r.value.1) && r.value.0 == UpdateNGramStats(st, h, r.value.1))
    ensures r.Some? ==> StoreOk(r.value.0)
  {
    match Play(g, st, d, s, 0, fuel)
    case None => None
    case Some((end, h)) =>
      var u := g.utilities(end);
      if PlayersIn(h, u) then Some((UpdateNGramStats(st, h, u), u)) else None
  }

  /** Playouts keep the store invariant when utilities lie in [-1, 1]. */
  lemma RolloutKeepsInvariant<S(!new), M(!new)>(g: Game<S, M>, d: Draws, fuel: nat, st: Store<M>, s: S)
    requires Invariant(st)
    requires forall x :: UnitUtilities(g.utilities(x))
    ensures Rollout(g, d, fuel, st, s).Some? ==> Invariant(Rollout(g, d, fuel, st, s).value.0)
  {
    match Play(g, st, d, s, 0, fuel)
    case None =>
    case Some((end, h)) =>
      var u := g.utilities(end);
      if PlayersIn(h, u) {
        UpdateKeepsInvariant(st, h, u);
      }
  }

  /** A playout from a state with moves records at least one move and
      counts one more simulation. */
  lemma RolloutCounts<S(!new), M(!new)>(g: Game<S, M>, d: Draws, fuel: nat, st: Store<M>, s: S)
    requires StoreOk(st)
    requires !g.terminal(s) && |g.legal(s)| > 0
    ensures Rollout(g, d, fuel, st, s).Some? ==>
      Rollout(g, d, fuel, st, s).value.0.totalSimulations == st.totalSimulations + 1
  {
    match Play(g, st, d, s, 0, fuel)
    case None =>
    case Some((end, h)) =>
  }
}
