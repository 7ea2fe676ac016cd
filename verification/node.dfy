/** The search-tree node and the operations on one node: construction,
    proof-number refresh, child ranking, development (expansion) and child
    selection. The tree is an immutable value; the engine's mutable lists of
    children and of not-yet-visited children become a sequence of children
    and a sequence of indices into it. */
module Nodes {
  import opened Wrappers
  import opened ExtNats
  import opened Games
  import opened ProofNumbers
  import opened ArgMax

  datatype Node<S, M> = Node(
    move: Option<M>,          // the move that led here; None at the root
    state: S,
    visits: nat,
    scoreSums: seq<real>,     // one sum per player, index 0 unused
    kind: Kind,
    value: Value,
    pn: ExtNat,
    dn: ExtNat,
    rank: int,
    expanded: bool,
    unexpandedMoves: seq<M>,  // the legal moves, snapshot taken at creation
    children: seq<Node<S, M>>,
    pending: seq<nat>)        // children not yet handed out by select

  /** What `select`/`developNode` hand back: the node itself (a solved node
      being marked expanded) or one of its children. */
  datatype Choice = Itself | Child(index: nat)

  predicate Distinct(s: seq<nat>) {
    forall i, j :: 0 <= i < j < |s| ==> s[i] != s[j]
  }

  /** Shape invariants every node the engine builds keeps. */
  predicate WF<S, M(==)>(n: Node<S, M>, players: nat)
    decreases n
  {
    && |n.scoreSums| == players + 1
    && (!n.expanded ==> |n.children| == 0 && |n.pending| == 0)
    && Distinct(n.pending)
    && (forall i :: 0 <= i < |n.pending| ==> n.pending[i] < |n.children|)
    && (forall i :: 0 <= i < |n.children| ==>
          n.children[i].move.Some? && n.children[i].move.value in n.unexpandedMoves)
    && (forall i :: 0 <= i < |n.children| ==> WF(n.children[i], players))
  }

  /** The node constructor: classify, evaluate, set leaf numbers, snapshot
      the legal moves. */
  function NewNode<S, M>(g: Game<S, M>, proofPlayer: int, s: S, move: Option<M>): (n: Node<S, M>)
    requires g.terminal(s) ==> 0 <= proofPlayer < |g.utilities(s)|
    ensures n.kind == OrNode <==> g.mover(s) == proofPlayer
    ensures n.value == Proven <==> g.terminal(s) && g.utilities(s)[proofPlayer] == 1.0
    ensures n.value == Disproven <==> g.terminal(s) && g.utilities(s)[proofPlayer] != 1.0
    ensures n.value == Unknown <==> !g.terminal(s)
    ensures n.value == Proven ==> n.pn == Fin(0) && n.dn == Inf
    ensures n.value == Disproven ==> n.pn == Inf && n.dn == Fin(0)
    ensures n.value == Unknown ==> n.pn == Fin(1) && n.dn == Fin(1)
    ensures n.state == s && n.move == move && n.visits == 0 && !n.expanded
    ensures n.children == [] && n.pending == [] && n.unexpandedMoves == g.legal(s)
    ensures |n.scoreSums| == g.players + 1
    ensures forall p :: 0 <= p < |n.scoreSums| ==> n.scoreSums[p] == 0.0
  {
    var value := Evaluate(g.terminal(s), if g.terminal(s) then g.utilities(s)[proofPlayer] else 0.0);
    var numbers := LeafNumbers(value);
    Node(move, s, 0, seq(g.players + 1, _ => 0.0), KindOf(g.mover(s), proofPlayer), value,
         numbers.0, numbers.1, 0, false, g.legal(s), [], [])
  }

  function ChildPns<S, M>(n: Node<S, M>): (r: seq<ExtNat>)
    ensures |r| == |n.children| && forall i :: 0 <= i < |r| ==> r[i] == n.children[i].pn
  {
    seq(|n.children|, i requires 0 <= i < |n.children| => n.children[i].pn)
  }

  function ChildDns<S, M>(n: Node<S, M>): (r: seq<ExtNat>)
    ensures |r| == |n.children| && forall i :: 0 <= i < |r| ==> r[i] == n.children[i].dn
  {
    seq(|n.children|, i requires 0 <= i < |n.children| => n.children[i].dn)
  }

  /** `setProofAndDisproofNumbers`: an expanded node takes the AND/OR
      combination of its children and reports whether that changed anything;
      an unexpanded node takes its leaf numbers and always reports a change. */
  function Refresh<S, M>(n: Node<S, M>): (r: (Node<S, M>, bool))
    ensures r.0 == n.(pn := r.0.pn, dn := r.0.dn)
    ensures n.expanded ==> (r.0.pn, r.0.dn) == Combine(n.kind, ChildPns(n), ChildDns(n))
    ensures !n.expanded ==> (r.0.pn, r.0.dn) == LeafNumbers(n.value)
    ensures !r.1 <==> n.expanded && r.0.pn == n.pn && r.0.dn == n.dn
  {
    if n.expanded then
      var numbers := Combine(n.kind, ChildPns(n), ChildDns(n));
      if n.pn == numbers.0 && n.dn == numbers.1 then (n, false)
      else (n.(pn := numbers.0, dn := numbers.1), true)
    else
      var numbers := LeafNumbers(n.value);
      (n.(pn := numbers.0, dn := numbers.1), true)
  }

  /** The keys a node ranks its children by. */
  function ChildKeys<S, M>(n: Node<S, M>): (r: seq<ExtNat>)
    ensures |r| == |n.children|
    ensures forall i :: 0 <= i < |r| ==> r[i] == Key(n.kind, n.children[i].pn, n.children[i].dn)
  {
    seq(|n.children|, i requires 0 <= i < |n.children| => Key(n.kind, n.children[i].pn, n.children[i].dn))
  }

  /** The node with its rank field cleared: what ranking leaves intact. */
  function Unranked<S, M>(n: Node<S, M>): Node<S, M> {
    n.(rank := 0)
  }

  /** `setChildRanks`: every child gets its rank among its siblings; nothing
      else changes. */
  function SetChildRanks<S, M>(n: Node<S, M>): (r: Node<S, M>)
    ensures r == n.(children := r.children)
    ensures |r.children| == |n.children|
    ensures forall i :: 0 <= i < |n.children| ==>
      r.children[i] == n.children[i].(rank := Ranks(ChildKeys(n))[i])
    ensures ChildPns(r) == ChildPns(n) && ChildDns(r) == ChildDns(n)
    ensures forall i :: 0 <= i < |n.children| ==> Unranked(r.children[i]) == Unranked(n.children[i])
  {
    var ranks := Ranks(ChildKeys(n));
    var r := n.(children := seq(|n.children|, i requires 0 <= i < |n.children| => n.children[i].(rank := ranks[i])));
    assert ChildPns(r) == ChildPns(n);
    assert ChildDns(r) == ChildDns(n);
    r
  }

  /** Indices lo..hi-1. */
  function Range(lo: nat, hi: nat): (r: seq<nat>)
    requires lo <= hi
    ensures |r| == hi - lo && forall i :: 0 <= i < |r| ==> r[i] == lo + i
  {
    seq(hi - lo, i requires 0 <= i < hi - lo => lo + i)
  }

  /** The list after `remove(j)`. */
  function RemoveAt(s: seq<nat>, j: nat): (r: seq<nat>)
    requires j < |s|
    ensures |r| == |s| - 1
    ensures forall x :: x in r ==> x in s
    ensures forall x :: x in s && x != s[j] ==> x in r
    ensures Distinct(s) ==> Distinct(r) && s[j] !in r
  {
    var r := s[..j] + s[j + 1..];
    assert forall i :: 0 <= i < |r| ==> r[i] == (if i < j then s[i] else s[i + 1]);
    r
  }

  /** One fresh child per move, in order. */
  function Kids<S(!new), M>(g: Game<S, M>, proofPlayer: int, s: S, moves: seq<M>): (ks: seq<Node<S, M>>)
    requires ValidProofPlayer(g, proofPlayer)
    ensures |ks| == |moves|
    ensures forall i :: 0 <= i < |moves| ==> ks[i] == NewNode(g, proofPlayer, g.apply(s, moves[i]), Some(moves[i]))
    ensures forall i :: 0 <= i < |moves| ==> WF(ks[i], g.players) && ks[i].move == Some(moves[i])
  {
    var ks := seq(|moves|, i requires 0 <= i < |moves| => NewNode(g, proofPlayer, g.apply(s, moves[i]), Some(moves[i])));
    forall i | 0 <= i < |moves|
      ensures WF(ks[i], g.players)
    {
      NewNodeWF(g, proofPlayer, g.apply(s, moves[i]), Some(moves[i]));
    }
    ks
  }

  /** The node after `developNode` has created its children: one fresh child
      per legal move appended in order, all of them pending. */
  function Expanded<S(!new), M>(g: Game<S, M>, proofPlayer: int, n: Node<S, M>): (m: Node<S, M>)
    requires ValidProofPlayer(g, proofPlayer)
  {
    var kids := Kids(g, proofPlayer, n.state, n.unexpandedMoves);
    n.(children := n.children + kids, pending := n.pending + Range(|n.children|, |n.children| + |kids|), expanded := true)
  }

  lemma NewNodeWF<S(!new), M>(g: Game<S, M>, proofPlayer: int, s: S, move: Option<M>)
    requires ValidProofPlayer(g, proofPlayer)
    ensures WF(NewNode(g, proofPlayer, s, move), g.players)
  {
  }

  lemma ExpandedWF<S(!new), M>(g: Game<S, M>, proofPlayer: int, n: Node<S, M>)
    requires ValidProofPlayer(g, proofPlayer) && WF(n, g.players)
    ensures WF(Expanded(g, proofPlayer, n), g.players)
  {
    var m := Expanded(g, proofPlayer, n);
    forall i | 0 <= i < |m.children|
      ensures WF(m.children[i], g.players)
      ensures m.children[i].move.Some? && m.children[i].move.value in n.unexpandedMoves
    {
      ExpandedChildWF(g, proofPlayer, n, i);
    }
    ExpandedPending(g, proofPlayer, n);
  }

  /** Each child of the expanded node is an old child or a fresh node for
      one of the legal moves. */
  lemma ExpandedChildWF<S(!new), M>(g: Game<S, M>, proofPlayer: int, n: Node<S, M>, i: nat)
    requires ValidProofPlayer(g, proofPlayer) && WF(n, g.players)
    requires i < |Expanded(g, proofPlayer, n).children|
    ensures WF(Expanded(g, proofPlayer, n).children[i], g.players)
    ensures Expanded(g, proofPlayer, n).children[i].move.Some?
    ensures Expanded(g, proofPlayer, n).children[i].move.value in n.unexpandedMoves
  {
    if i < |n.children| {
      ExpandedOld(g, proofPlayer, n, i);
    } else {
      ExpandedNew(g, proofPlayer, n, i);
    }
  }

  lemma ExpandedOld<S(!new), M>(g: Game<S, M>, proofPlayer: int, n: Node<S, M>, i: nat)
    requires ValidProofPlayer(g, proofPlayer) && WF(n, g.players)
    requires i < |n.children|
    ensures Expanded(g, proofPlayer, n).children[i] == n.children[i]
  {
    var kids := Kids(g, proofPlayer, n.state, n.unexpandedMoves);
    assert (n.children + kids)[i] == n.children[i];
  }

  lemma ExpandedNew<S(!new), M>(g: Game<S, M>, proofPlayer: int, n: Node<S, M>, i: nat)
    requires ValidProofPlayer(g, proofPlayer)
    requires |n.children| <= i < |Expanded(g, proofPlayer, n).children|
    ensures WF(Expanded(g, proofPlayer, n).children[i], g.players)
    ensures Expanded(g, proofPlayer, n).children[i].move == Some(n.unexpandedMoves[i - |n.children|])
  {
    var kids := Kids(g, proofPlayer, n.state, n.unexpandedMoves);
    assert (n.children + kids)[i] == kids[i - |n.children|];
  }

  lemma OldChildWF<S, M>(n: Node<S, M>, i: nat, players: nat)
    requires WF(n, players) && i < |n.children|
    ensures WF(n.children[i], players)
    ensures n.children[i].move.Some? && n.children[i].move.value in n.unexpandedMoves
  {
  }

  /** The pending list of the expanded node holds distinct child indices. */
  lemma ExpandedPending<S(!new), M>(g: Game<S, M>, proofPlayer: int, n: Node<S, M>)
    requires ValidProofPlayer(g, proofPlayer) && WF(n, g.players)
    ensures Distinct(Expanded(g, proofPlayer, n).pending)
    ensures forall a :: 0 <= a < |Expanded(g, proofPlayer, n).pending| ==>
      Expanded(g, proofPlayer, n).pending[a] < |Expanded(g, proofPlayer, n).children|
  {
    var m := Expanded(g, proofPlayer, n);
    var p := m.pending;
    var before := |n.pending|;
    assert forall a :: before <= a < |p| ==> p[a] == |n.children| + (a - before);
    assert forall a :: 0 <= a < before ==> p[a] == n.pending[a];
  }

  /** `developNode`: an unsolved node creates one child per legal move, marks
      itself expanded and hands one of the pending children out (taking it off
      the list); a solved node is only marked expanded and hands out itself.
      With nothing pending the engine's random draw fails. */
  function Develop<S(!new), M(==)>(g: Game<S, M>, proofPlayer: int, n: Node<S, M>, coin: nat): (r: Option<(Node<S, M>, Choice)>)
    requires ValidProofPlayer(g, proofPlayer) && WF(n, g.players)
    ensures n.value != Unknown ==> r == Some((n.(expanded := true), Itself))
    ensures n.value == Unknown ==> (r.None? <==> |n.pending| + |n.unexpandedMoves| == 0)
    ensures r.Some? ==> WF(r.value.0, g.players)
    ensures r.Some? && n.value == Unknown ==>
      && r.value.1.Child?
      && r.value.0 == Expanded(g, proofPlayer, n).(pending := r.value.0.pending)
      && r.value.1.index in Expanded(g, proofPlayer, n).pending
      && r.value.1.index !in r.value.0.pending
      && |r.value.0.pending| == |n.pending| + |n.unexpandedMoves| - 1
  {
    if n.value == Unknown then
      var e := Expanded(g, proofPlayer, n);
      if |e.pending| == 0 then None
      else
        ExpandedWF(g, proofPlayer, n);
        var j := coin % |e.pending|;
        Some((e.(pending := RemoveAt(e.pending, j)), Child(e.pending[j])))
    else
      Some((n.(expanded := true), Itself))
  }

  /** Child `c` of `m` is brand new: never visited, not expanded, and
      reached from `n` by one of `n`'s legal moves. */
  ghost predicate FreshChild<S, M>(g: Game<S, M>, n: Node<S, M>, m: Node<S, M>, c: Choice) {
    && c.Child? && c.index < |m.children|
    && m.children[c.index].visits == 0 && !m.children[c.index].expanded
    && m.children[c.index].move.Some?
    && m.children[c.index].move.value in n.unexpandedMoves
    && m.children[c.index].state == g.apply(n.state, m.children[c.index].move.value)
  }

  /** Expanding a node without children gives exactly the fresh children,
      all of them pending. */
  lemma ExpandedFirst<S(!new), M>(g: Game<S, M>, proofPlayer: int, n: Node<S, M>)
    requires ValidProofPlayer(g, proofPlayer)
    requires n.children == [] && n.pending == []
    ensures Expanded(g, proofPlayer, n).children == Kids(g, proofPlayer, n.state, n.unexpandedMoves)
    ensures Expanded(g, proofPlayer, n).pending == Range(0, |n.unexpandedMoves|)
  {
    var kids := Kids(g, proofPlayer, n.state, n.unexpandedMoves);
    assert [] + kids == kids;
    assert [] + Range(0, |kids|) == Range(0, |kids|);
  }

  /** The members of `Range(lo, hi)` lie between its bounds. */
  lemma InRange(lo: nat, hi: nat, k: nat)
    requires lo <= hi && k in Range(lo, hi)
    ensures lo <= k < hi
  {
    var a :| 0 <= a < |Range(lo, hi)| && Range(lo, hi)[a] == k;
  }

  /** Developing a node for the first time hands out a brand-new child: never
      visited, not expanded, reached by one of the node's legal moves. */
  lemma DevelopFresh<S(!new), M>(g: Game<S, M>, proofPlayer: int, n: Node<S, M>, coin: nat)
    requires ValidProofPlayer(g, proofPlayer) && WF(n, g.players)
    requires n.value == Unknown && !n.expanded
    requires Develop(g, proofPlayer, n, coin).Some?
    ensures FreshChild(g, n, Develop(g, proofPlayer, n, coin).value.0, Develop(g, proofPlayer, n, coin).value.1)
  {
    var r := Develop(g, proofPlayer, n, coin).value;
    var kids := Kids(g, proofPlayer, n.state, n.unexpandedMoves);
    ExpandedFirst(g, proofPlayer, n);
    var k := r.1.index;
    InRange(0, |n.unexpandedMoves|, k);
    assert r.0.children == kids;
    assert r.0.children[k] == NewNode(g, proofPlayer, g.apply(n.state, n.unexpandedMoves[k]), Some(n.unexpandedMoves[k]));
  }

  /** The solver-like pruning test of `select`: while the node itself is
      unsolved, a solved child with more than `minVisits` visits is skipped. */
  predicate Pruned<S, M>(parent: Node<S, M>, child: Node<S, M>, minVisits: int) {
    && parent.pn != Fin(0) && parent.dn != Fin(0)
    && (child.pn == Fin(0) || child.dn == Fin(0))
    && child.visits > minVisits
  }

  function ChildValues<S, M>(n: Node<S, M>, value: (Node<S, M>, Node<S, M>) -> real): (r: seq<real>)
    ensures |r| == |n.children| && forall i :: 0 <= i < |r| ==> r[i] == value(n, n.children[i])
  {
    seq(|n.children|, i requires 0 <= i < |n.children| => value(n, n.children[i]))
  }

  function Unpruned<S, M>(n: Node<S, M>, minVisits: int): (r: seq<bool>)
    ensures |r| == |n.children| && forall i :: 0 <= i < |r| ==> r[i] == !Pruned(n, n.children[i], minVisits)
  {
    seq(|n.children|, i requires 0 <= i < |n.children| => !Pruned(n, n.children[i], minVisits))
  }

  /** `select` on an expanded node: first hand out a pending child (and take
      it off the list); once none is pending, a non-pruned child of maximal
      UCT-PN value (ties broken by `coin`), or nothing when every child is
      pruned. Returns the new pending list and the chosen child. */
  function SelectExpanded<S, M>(n: Node<S, M>, minVisits: int, value: (Node<S, M>, Node<S, M>) -> real, coin: nat)
    : (r: Option<(seq<nat>, nat)>)
    requires Distinct(n.pending) && forall i :: 0 <= i < |n.pending| ==> n.pending[i] < |n.children|
    ensures r.Some? ==> r.value.1 < |n.children| && Distinct(r.value.0)
    ensures r.Some? ==> forall x :: x in r.value.0 ==> x in n.pending
    ensures |n.pending| > 0 ==>
      r.Some? && r.value.1 in n.pending && r.value.1 !in r.value.0 && |r.value.0| == |n.pending| - 1
    ensures |n.pending| == 0 ==>
      (r.None? <==> forall i :: 0 <= i < |n.children| ==> Pruned(n, n.children[i], minVisits))
    ensures |n.pending| == 0 && r.Some? ==>
      && r.value.0 == []
      && !Pruned(n, n.children[r.value.1], minVisits)
      && forall j :: 0 <= j < |n.children| && !Pruned(n, n.children[j], minVisits) ==>
           value(n, n.children[j]) <= value(n, n.children[r.value.1])
  {
    if |n.pending| > 0 then
      var j := coin % |n.pending|;
      Some((RemoveAt(n.pending, j), n.pending[j]))
    else
      var best := ArgMaxes(ChildValues(n, value), Unpruned(n, minVisits));
      if |best| == 0 then None
      else Some((n.pending, best[coin % |best|]))
  }

  /** Adds the utilities of players 1..players to the score sums. */
  function AddScores(sums: seq<real>, u: seq<real>, players: nat): (r: seq<real>)
    requires |sums| == players + 1 && |u| == players + 1
    ensures |r| == players + 1 && r[0] == sums[0]
    ensures forall p :: 1 <= p <= players ==> r[p] == sums[p] + u[p]
  {
    seq(players + 1, p requires 0 <= p <= players => if p == 0 then sums[0] else sums[p] + u[p])
  }

  /** The per-node backpropagation update: one more visit and the utilities
      added to the score sums. */
  function Credit<S, M>(n: Node<S, M>, u: seq<real>, players: nat): (r: Node<S, M>)
    requires |n.scoreSums| == players + 1 && |u| == players + 1
    ensures r.visits == n.visits + 1
    ensures |r.scoreSums| == players + 1 && r.scoreSums[0] == n.scoreSums[0]
    ensures forall p :: 1 <= p <= players ==> r.scoreSums[p] == n.scoreSums[p] + u[p]
    ensures r.scoreSums == AddScores(n.scoreSums, u, players)
    ensures r == n.(visits := r.visits, scoreSums := r.scoreSums)
  {
    n.(visits := n.visits + 1, scoreSums := AddScores(n.scoreSums, u, players))
  }
}
