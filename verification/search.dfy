/** One search call: repeated select/expand, playout and backpropagation from
    a fresh root, then the final move choice. Random choices come from
    `coin(iteration, depth)`; the playout is a parameter (`rollout`) so that
    the guided playout of the MAST module, with its statistics store as the
    context `T`, can be plugged in. */
module Search {
  import opened Wrappers
  import opened ExtNats
  import opened Games
  import opened ProofNumbers
  import opened ArgMax
  import opened Nodes

  /** The environment of one search call. `value(parent, child)` is the
      UCT-PN value of a child; `rollout(ctx, s)` plays out from the
      non-terminal state `s` and returns the updated context and the final
      utility vector, or nothing when the playout fails. */
  datatype Env<!S, !M, !T> = Env(
    game: Game<S, M>,
    proofPlayer: int,
    minVisits: int,
    value: (Node<S, M>, Node<S, M>) -> real,
    coin: (nat, nat) -> nat,
    rollout: (T, S) -> Option<(T, seq<real>)>)

  ghost predicate ValidEnv<S(!new), M, T(!new)>(env: Env<S, M, T>) {
    && ValidProofPlayer(env.game, env.proofPlayer)
    && forall t, s :: env.rollout(t, s).Some? ==> |env.rollout(t, s).value.1| == env.game.players + 1
  }

  /** A sequence of child indices that can be followed from `n`. */
  predicate ValidPath<S, M>(n: Node<S, M>, path: seq<nat>)
    decreases |path|
  {
    |path| == 0 || (path[0] < |n.children| && ValidPath(n.children[path[0]], path[1..]))
  }

  /** The node reached by following `path` from `n`. */
  function At<S, M>(n: Node<S, M>, path: seq<nat>): Node<S, M>
    requires ValidPath(n, path)
    decreases |path|
  {
    if |path| == 0 then n else At(n.children[path[0]], path[1..])
  }

  /** The tree after the selection/expansion phase and the path to the node
      where it stopped. */
  datatype Descent<S, M> = Descent(tree: Node<S, M>, path: seq<nat>)

  /** The traversal loop of `selectAction`: stop at a terminal node;
      otherwise `select` (developing an unexpanded node), and stop at the
      chosen node if it has never been visited, else continue from it.
      Fails where the engine would throw: no child to hand out, or every
      child pruned. */
  function Descend<S(!new), M(==), T(!new)>(env: Env<S, M, T>, n: Node<S, M>, iter: nat, depth: nat)
    : (r: Option<Descent<S, M>>)
    requires ValidEnv(env) && WF(n, env.game.players)
    ensures env.game.terminal(n.state) ==> r == Some(Descent(n, []))
    ensures r.Some? ==> WF(r.value.tree, env.game.players) && ValidPath(r.value.tree, r.value.path)
    ensures r.Some? ==>
      var leaf := At(r.value.tree, r.value.path);
      leaf.visits == 0 || env.game.terminal(leaf.state)
    ensures r.Some? ==> r.value.tree == n.(children := r.value.tree.children, pending := r.value.tree.pending,
                                          expanded := r.value.tree.expanded)
    ensures r.Some? ==> |r.value.tree.children| >= |n.children|
    ensures r.Some? && !env.game.terminal(n.state) && !n.expanded && n.value == Unknown ==>
      |r.value.tree.children| == |n.unexpandedMoves|
    ensures !env.game.terminal(n.state) && !n.expanded && n.value == Unknown ==>
      (r.None? <==> |n.unexpandedMoves| == 0)
    decreases n
  {
    var g := env.game;
    if g.terminal(n.state) then Some(Descent(n, []))
    else if !n.expanded then Enter(env, n, iter, depth)
    else
      match SelectExpanded(n, env.minVisits, env.value, env.coin(iter, depth))
      case None => None
      case Some((pending, i)) =>
        var m := n.(pending := pending);
        SetPendingWF(n, pending, g.players);
        if n.children[i].visits == 0 then
          ReplaceChild(m, i, m.children[i], g.players, []);
          Some(Descent(m, [i]))
        else
          match Descend(env, n.children[i], iter, depth + 1)
          case None => None
          case Some(d) =>
            ReplaceChild(m, i, d.tree, g.players, d.path);
            Some(Descent(m.(children := m.children[i := d.tree]), [i] + d.path))
  }

  /** The traversal at a node not expanded yet: develop it and stop at the
      child handed out, or at the node itself when it is solved and has
      never been visited. */
  function Enter<S(!new), M(==), T(!new)>(env: Env<S, M, T>, n: Node<S, M>, iter: nat, depth: nat)
    : (r: Option<Descent<S, M>>)
    requires ValidEnv(env) && WF(n, env.game.players) && !n.expanded
    ensures r.Some? ==> WF(r.value.tree, env.game.players) && ValidPath(r.value.tree, r.value.path)
    ensures r.Some? ==> At(r.value.tree, r.value.path).visits == 0
    ensures r.Some? ==> r.value.tree == n.(children := r.value.tree.children, pending := r.value.tree.pending,
                                          expanded := r.value.tree.expanded)
    ensures r.Some? && n.value == Unknown ==> |r.value.tree.children| == |n.unexpandedMoves|
    ensures n.value == Unknown ==> (r.None? <==> |n.unexpandedMoves| == 0)
  {
    var g := env.game;
    match Develop(g, env.proofPlayer, n, env.coin(iter, depth))
    case None => None
    case Some((m, choice)) =>
      match choice
      case Itself =>
        if m.visits == 0 then Some(Descent(m, [])) else None
      case Child(i) =>
        DevelopFresh(g, env.proofPlayer, n, env.coin(iter, depth));
        OneStep(m, i);
        Some(Descent(m, [i]))
  }

  /** `b` is `a` where, at every depth, only children were appended and
      pending lists and expanded flags changed: every statistic, number and
      state of every existing node is kept. */
  ghost predicate Grows<S, M>(a: Node<S, M>, b: Node<S, M>)
    decreases a
  {
    && b == a.(children := b.children, pending := b.pending, expanded := b.expanded)
    && |a.children| <= |b.children|
    && forall i :: 0 <= i < |a.children| ==> Grows(a.children[i], b.children[i])
  }

  lemma {:induction false} GrowsRefl<S, M>(a: Node<S, M>)
    ensures Grows(a, a)
    decreases a
  {
    forall i | 0 <= i < |a.children|
      ensures Grows(a.children[i], a.children[i])
    {
      GrowsRefl(a.children[i]);
    }
  }

  /** Growth reaches every node: a path of the old tree can be followed in
      the new one, to a grown copy of the node it led to. */
  lemma {:induction false} GrowsAt<S, M>(a: Node<S, M>, b: Node<S, M>, path: seq<nat>)
    requires Grows(a, b) && ValidPath(a, path)
    ensures ValidPath(b, path) && Grows(At(a, path), At(b, path))
    decreases |path|
  {
    if |path| > 0 {
      GrowsAt(a.children[path[0]], b.children[path[0]], path[1..]);
    }
  }

  /** The selection/expansion phase only grows the tree. */
  lemma {:induction false} DescendGrows<S(!new), M, T(!new)>(env: Env<S, M, T>, n: Node<S, M>, iter: nat, depth: nat)
    requires ValidEnv(env) && WF(n, env.game.players)
    ensures Descend(env, n, iter, depth).Some? ==> Grows(n, Descend(env, n, iter, depth).value.tree)
    decreases n
  {
    var g := env.game;
    if g.terminal(n.state) {
      GrowsRefl(n);
    } else if n.expanded {
      match SelectExpanded(n, env.minVisits, env.value, env.coin(iter, depth))
      case None =>
      case Some((pending, i)) =>
        forall j | 0 <= j < |n.children|
          ensures Grows(n.children[j], n.children[j])
        {
          GrowsRefl(n.children[j]);
        }
        if n.children[i].visits != 0 {
          DescendGrows(env, n.children[i], iter, depth + 1);
        }
    }
  }

  /** Every node of the tree before the selection/expansion phase is still
      reached by the same path after it, with the same visits, score sums,
      proof numbers, state and move: only children, pending lists and
      expanded flags change. */
  lemma DescendKeepsNodes<S(!new), M, T(!new)>(env: Env<S, M, T>, n: Node<S, M>, iter: nat, depth: nat,
                                                  path: seq<nat>)
    requires ValidEnv(env) && WF(n, env.game.players) && ValidPath(n, path)
    requires Descend(env, n, iter, depth).Some?
    ensures var t := Descend(env, n, iter, depth).value.tree;
      && ValidPath(t, path)
      && At(t, path) == At(n, path).(children := At(t, path).children, pending := At(t, path).pending,
                                     expanded := At(t, path).expanded)
  {
    DescendGrows(env, n, iter, depth);
    GrowsAt(n, Descend(env, n, iter, depth).value.tree, path);
  }

  /** The one-step path to child `i` leads to it. */
  lemma OneStep<S, M>(n: Node<S, M>, i: nat)
    requires i < |n.children|
    ensures ValidPath(n, [i]) && At(n, [i]) == n.children[i]
  {
    assert [i][1..] == [];
  }

  /** A pending list of distinct child indices keeps an expanded node well
      formed. */
  lemma SetPendingWF<S, M>(n: Node<S, M>, pending: seq<nat>, players: nat)
    requires WF(n, players) && n.expanded
    requires Distinct(pending) && forall x :: x in pending ==> x < |n.children|
    ensures WF(n.(pending := pending), players)
  {
    assert forall i :: 0 <= i < |pending| ==> pending[i] in pending;
  }

  /** Putting a well-formed node reached by the same move in place of child
      `i` keeps the parent well formed, and the path through that child
      leads where the path from the new child led. */
  lemma ReplaceChild<S, M>(n: Node<S, M>, i: nat, c: Node<S, M>, players: nat, path: seq<nat>)
    requires WF(n, players) && i < |n.children| && WF(c, players) && c.move == n.children[i].move
    requires ValidPath(c, path)
    ensures WF(n.(children := n.children[i := c]), players)
    ensures ValidPath(n.(children := n.children[i := c]), [i] + path)
    ensures At(n.(children := n.children[i := c]), [i] + path) == At(c, path)
  {
    var t := n.(children := n.children[i := c]);
    assert t.children[i] == c;
    ConsPath(t, i, path);
    assert forall j :: 0 <= j < |t.children| && j != i ==> t.children[j] == n.children[j];
  }

  /** One step of the backpropagation loop of `selectAction` at a node that is
      not the first one: `c` replaces child `i`, the node gets one more visit
      and the utilities, and, when the node below reported a change, the
      node's numbers are recomputed and its children re-ranked. The flag is
      the new changed flag. */
  function Lift<S, M>(n: Node<S, M>, i: nat, c: Node<S, M>, changed: bool, u: seq<real>, players: nat)
    : (r: (Node<S, M>, bool))
    requires i < |n.children| && |n.scoreSums| == players + 1 && |u| == players + 1
    ensures r.0.visits == n.visits + 1 && r.0.scoreSums == AddScores(n.scoreSums, u, players)
    ensures r.0 == n.(visits := r.0.visits, scoreSums := r.0.scoreSums, pn := r.0.pn, dn := r.0.dn,
                      children := r.0.children)
    ensures |r.0.children| == |n.children| && Unranked(r.0.children[i]) == Unranked(c)
    ensures forall j :: 0 <= j < |n.children| && j != i ==> Unranked(r.0.children[j]) == Unranked(n.children[j])
    ensures !changed ==> !r.1
    ensures !r.1 ==> r.0.pn == n.pn && r.0.dn == n.dn
    ensures changed && r.0.expanded ==> (r.0.pn, r.0.dn) == Combine(r.0.kind, ChildPns(r.0), ChildDns(r.0))
  {
    var m := Credit(n.(children := n.children[i := c]), u, players);
    if changed then
      var refreshed := Refresh(m);
      var ranked := if |refreshed.0.children| > 0 then SetChildRanks(refreshed.0) else refreshed.0;
      (ranked, refreshed.1)
    else
      (m, false)
  }

  /** `Lift` keeps the shape invariants when the new child keeps the old
      child's move, and the path below the child can still be followed. */
  lemma LiftWF<S, M>(n: Node<S, M>, i: nat, c: Node<S, M>, changed: bool, u: seq<real>, players: nat, path: seq<nat>)
    requires WF(n, players) && i < |n.children| && |u| == players + 1
    requires WF(c, players) && c.move == n.children[i].move && ValidPath(c, path)
    ensures WF(Lift(n, i, c, changed, u, players).0, players)
    ensures ValidPath(Lift(n, i, c, changed, u, players).0, [i] + path)
    ensures Unranked(At(Lift(n, i, c, changed, u, players).0, [i] + path)) == Unranked(At(c, path))
  {
    var r := Lift(n, i, c, changed, u, players).0;
    forall j | 0 <= j < |r.children|
      ensures WF(r.children[j], players) && r.children[j].move == n.children[j].move
    {
      if j == i {
        UnrankedWF(c, r.children[j], players);
      } else {
        UnrankedWF(n.children[j], r.children[j], players);
      }
    }
    UnrankedPath(c, r.children[i], path);
    ConsPath(r, i, path);
  }

  /** The backpropagation loop of `selectAction`, from the node at the end of
      `path` up to `n`: the node at the end of the path only gets the visit
      and the utilities; each node above it goes through `Lift`. `flags[k]`
      is the changed flag after the node at depth k; the flag of the last
      node is the initial `true`. */
  function Backprop<S, M>(n: Node<S, M>, path: seq<nat>, u: seq<real>, players: nat): (r: (Node<S, M>, seq<bool>))
    requires |n.scoreSums| == players + 1 && |u| == players + 1
    requires ValidPath(n, path) && PathSums(n, path, players)
    ensures r.0.visits == n.visits + 1 && r.0.scoreSums == AddScores(n.scoreSums, u, players)
    ensures r.0 == n.(visits := r.0.visits, scoreSums := r.0.scoreSums, pn := r.0.pn, dn := r.0.dn,
                      children := r.0.children)
    ensures |r.0.children| == |n.children|
    ensures |r.1| == |path| + 1 && r.1[|path|]
    ensures !r.1[0] ==> r.0.pn == n.pn && r.0.dn == n.dn
    ensures |path| == 0 ==> r.0 == Credit(n, u, players)
    ensures |path| > 0 ==> (r.1[0] ==> r.1[1])
    ensures |path| > 0 && r.1[1] && r.0.expanded ==>
      (r.0.pn, r.0.dn) == Combine(r.0.kind, ChildPns(r.0), ChildDns(r.0))
    ensures |path| > 0 ==> forall j :: 0 <= j < |n.children| && j != path[0] ==>
      Unranked(r.0.children[j]) == Unranked(n.children[j])
    decreases |path|
  {
    if |path| == 0 then (Credit(n, u, players), [true])
    else
      var child := n.children[path[0]];
      assert PathSums(child, path[1..], players) && |child.scoreSums| == players + 1;
      var below := Backprop(child, path[1..], u, players);
      var lifted := Lift(n, path[0], below.0, below.1[0], u, players);
      (lifted.0, [lifted.1] + below.1)
  }

  /** Every node along `path` has a score vector of the right length. */
  predicate PathSums<S, M>(n: Node<S, M>, path: seq<nat>, players: nat)
    requires ValidPath(n, path)
    decreases |path|
  {
    |n.scoreSums| == players + 1 && (|path| == 0 || PathSums(n.children[path[0]], path[1..], players))
  }

  lemma {:induction false} WFPathSums<S, M>(n: Node<S, M>, path: seq<nat>, players: nat)
    requires WF(n, players) && ValidPath(n, path)
    ensures PathSums(n, path, players)
    decreases |path|
  {
    if |path| > 0 {
      WFPathSums(n.children[path[0]], path[1..], players);
    }
  }

  /** Backpropagation keeps the shape invariants and the path. */
  lemma {:induction false} BackpropWF<S, M>(n: Node<S, M>, path: seq<nat>, u: seq<real>, players: nat)
    requires WF(n, players) && ValidPath(n, path) && |u| == players + 1
    ensures PathSums(n, path, players)
    ensures WF(Backprop(n, path, u, players).0, players) && ValidPath(Backprop(n, path, u, players).0, path)
    decreases |path|
  {
    WFPathSums(n, path, players);
    if |path| > 0 {
      var below := Backprop(n.children[path[0]], path[1..], u, players);
      BackpropWF(n.children[path[0]], path[1..], u, players);
      LiftWF(n, path[0], below.0, below.1[0], u, players, path[1..]);
    }
  }

  lemma UnrankedWF<S, M>(a: Node<S, M>, b: Node<S, M>, players: nat)
    requires Unranked(a) == Unranked(b) && WF(a, players)
    ensures WF(b, players)
  {
    assert a.children == b.children;
  }

  /** Following a path never looks at the rank of the node it starts from. */
  lemma UnrankedPath<S, M>(a: Node<S, M>, b: Node<S, M>, path: seq<nat>)
    requires Unranked(a) == Unranked(b) && ValidPath(a, path)
    ensures ValidPath(b, path) && Unranked(At(a, path)) == Unranked(At(b, path))
  {
    assert a.children == b.children;
  }

  /** A prefix of a followable path is followable. */
  lemma {:induction false} PrefixPath<S, M>(n: Node<S, M>, path: seq<nat>, k: nat)
    requires ValidPath(n, path) && k <= |path|
    ensures ValidPath(n, path[..k])
    decreases k
  {
    if k > 0 {
      PrefixPath(n.children[path[0]], path[1..], k - 1);
      assert path[..k][1..] == path[1..][..k - 1];
    }
  }

  /** Backpropagation along the whole path: the node at every depth k gets
      one more visit and the utilities added; once a refresh reports no
      change, no node above it is refreshed, so its numbers stay put. */
  lemma {:induction false} BackpropAlongPath<S, M>(n: Node<S, M>, path: seq<nat>, u: seq<real>, players: nat, k: nat)
    requires |n.scoreSums| == players + 1 && |u| == players + 1
    requires ValidPath(n, path) && PathSums(n, path, players) && k <= |path|
    ensures ValidPath(n, path[..k]) && ValidPath(Backprop(n, path, u, players).0, path[..k])
    ensures
      var r := Backprop(n, path, u, players);
      var before := At(n, path[..k]);
      var after := At(r.0, path[..k]);
      && after.visits == before.visits + 1
      && |before.scoreSums| == players + 1
      && after.scoreSums == AddScores(before.scoreSums, u, players)
      && (!r.1[k] ==> after.pn == before.pn && after.dn == before.dn)
      && (k < |path| && !r.1[k + 1] ==> !r.1[k])
    decreases k
  {
    var r := Backprop(n, path, u, players);
    if k > 0 {
      var i := path[0];
      var child := n.children[i];
      BackpropStep(n, path, u, players);
      var below := Backprop(child, path[1..], u, players);
      var rest := path[1..][..k - 1];
      BackpropAlongPath(child, path[1..], u, players, k - 1);
      PrefixCons(path, k);
      UnrankedPath(below.0, r.0.children[i], rest);
      ConsPath(n, i, rest);
      ConsPath(r.0, i, rest);
    } else {
      assert path[..k] == [];
    }
  }

  /** The node at the end of the path is only credited: up to its rank it
      is the old node with one more visit and the utilities added, so its
      proof numbers are the ones it had. */
  lemma {:induction false} BackpropLeaf<S, M>(n: Node<S, M>, path: seq<nat>, u: seq<real>, players: nat)
    requires |n.scoreSums| == players + 1 && |u| == players + 1
    requires ValidPath(n, path) && PathSums(n, path, players)
    ensures |At(n, path).scoreSums| == players + 1
    ensures ValidPath(Backprop(n, path, u, players).0, path)
    ensures Unranked(At(Backprop(n, path, u, players).0, path)) == Unranked(Credit(At(n, path), u, players))
    ensures At(Backprop(n, path, u, players).0, path).pn == At(n, path).pn
    ensures At(Backprop(n, path, u, players).0, path).dn == At(n, path).dn
    decreases |path|
  {
    if |path| > 0 {
      var r := Backprop(n, path, u, players);
      var i := path[0];
      var rest := path[1..];
      var child := n.children[i];
      BackpropStep(n, path, u, players);
      var below := Backprop(child, rest, u, players);
      BackpropLeaf(child, rest, u, players);
      UnrankedPath(below.0, r.0.children[i], rest);
      HeadTail(path);
      ConsPath(n, i, rest);
      ConsPath(r.0, i, rest);
    }
  }

  /** The node at depth `k` of the backpropagated tree, up to its rank, is
      the node at depth `k - 1` of the child's own backpropagation. */
  lemma DepthStep<S, M>(n: Node<S, M>, path: seq<nat>, u: seq<real>, players: nat, k: nat)
    requires |n.scoreSums| == players + 1 && |u| == players + 1
    requires ValidPath(n, path) && PathSums(n, path, players) && 0 < k <= |path|
    requires ValidPath(n.children[path[0]], path[1..][..k - 1])
    requires PathSums(n.children[path[0]], path[1..], players) && |n.children[path[0]].scoreSums| == players + 1
    requires ValidPath(Backprop(n.children[path[0]], path[1..], u, players).0, path[1..][..k - 1])
    ensures ValidPath(n, path[..k]) && ValidPath(Backprop(n, path, u, players).0, path[..k])
    ensures At(n, path[..k]) == At(n.children[path[0]], path[1..][..k - 1])
    ensures Unranked(At(Backprop(n, path, u, players).0, path[..k]))
         == Unranked(At(Backprop(n.children[path[0]], path[1..], u, players).0, path[1..][..k - 1]))
  {
    var r := Backprop(n, path, u, players);
    var i := path[0];
    var rest := path[1..][..k - 1];
    BackpropStep(n, path, u, players);
    var below := Backprop(n.children[i], path[1..], u, players);
    PrefixCons(path, k);
    UnrankedPath(below.0, r.0.children[i], rest);
    ConsPath(n, i, rest);
    ConsPath(r.0, i, rest);
  }

  /** At every depth `k` above the end of the path, backpropagation leaves
      the children off the path alone up to their ranks, and when the node
      below reported a change and the node is expanded, its numbers are
      recomputed from its children by the AND/OR rule. */
  lemma {:induction false} BackpropOffPath<S, M>(n: Node<S, M>, path: seq<nat>, u: seq<real>, players: nat, k: nat)
    requires |n.scoreSums| == players + 1 && |u| == players + 1
    requires ValidPath(n, path) && PathSums(n, path, players) && k < |path|
    ensures ValidPath(n, path[..k]) && ValidPath(Backprop(n, path, u, players).0, path[..k])
    ensures
      var r := Backprop(n, path, u, players);
      var before := At(n, path[..k]);
      var after := At(r.0, path[..k]);
      && |after.children| == |before.children|
      && (forall j :: 0 <= j < |before.children| && j != path[k] ==>
            Unranked(after.children[j]) == Unranked(before.children[j]))
      && (r.1[k + 1] && after.expanded ==> (after.pn, after.dn) == Combine(after.kind, ChildPns(after), ChildDns(after)))
    decreases k
  {
    BackpropAlongPath(n, path, u, players, k);
    if k > 0 {
      var child := n.children[path[0]];
      BackpropStep(n, path, u, players);
      BackpropAlongPath(child, path[1..], u, players, k - 1);
      BackpropOffPath(child, path[1..], u, players, k - 1);
      DepthStep(n, path, u, players, k);
      assert path[k] == path[1..][k - 1];
    } else {
      assert path[..k] == [];
    }
  }

  /** One level of `Backprop`: the child on the path becomes the child's own
      backpropagation, up to ranks, and the flags below are the child's. */
  lemma BackpropStep<S, M>(n: Node<S, M>, path: seq<nat>, u: seq<real>, players: nat)
    requires |n.scoreSums| == players + 1 && |u| == players + 1
    requires ValidPath(n, path) && PathSums(n, path, players) && |path| > 0
    ensures |n.children[path[0]].scoreSums| == players + 1 && PathSums(n.children[path[0]], path[1..], players)
    ensures var r := Backprop(n, path, u, players);
      var below := Backprop(n.children[path[0]], path[1..], u, players);
      && Unranked(r.0.children[path[0]]) == Unranked(below.0)
      && |r.1| == |below.1| + 1
      && forall j :: 1 <= j < |r.1| ==> r.1[j] == below.1[j - 1]
  {
    var child := n.children[path[0]];
    var below := Backprop(child, path[1..], u, players);
    var lifted := Lift(n, path[0], below.0, below.1[0], u, players);
    assert Backprop(n, path, u, players) == (lifted.0, [lifted.1] + below.1);
    ConsTail(lifted.1, below.1);
  }

  /** Behind its head, a flag list prefixed by one flag is the old list. */
  lemma ConsTail(b: bool, s: seq<bool>)
    ensures |[b] + s| == |s| + 1
    ensures forall j :: 1 <= j < |s| + 1 ==> ([b] + s)[j] == s[j - 1]
  {
  }

  /** A non-empty path is its first step followed by the rest. */
  lemma HeadTail(path: seq<nat>)
    requires |path| > 0
    ensures path == [path[0]] + path[1..]
  {
  }

  /** The first `k > 0` steps of a path are its first step followed by the
      first `k - 1` steps of the rest. */
  lemma PrefixCons(path: seq<nat>, k: nat)
    requires 0 < k <= |path|
    ensures path[..k] == [path[0]] + path[1..][..k - 1]
  {
  }

  /** A path that starts with child `i` leads where the rest leads from
      that child. */
  lemma ConsPath<S, M>(n: Node<S, M>, i: nat, rest: seq<nat>)
    requires i < |n.children| && ValidPath(n.children[i], rest)
    ensures ValidPath(n, [i] + rest) && At(n, [i] + rest) == At(n.children[i], rest)
  {
    assert ([i] + rest)[1..] == rest;
  }

  /** The utilities credited for a leaf: the game's own at a terminal state,
      else those of a playout from it. */
  function Outcome<S(!new), M, T(!new)>(env: Env<S, M, T>, ctx: T, leaf: S): (r: Option<(T, seq<real>)>)
    requires ValidEnv(env)
    ensures r.Some? ==> |r.value.1| == env.game.players + 1
    ensures env.game.terminal(leaf) ==> r == Some((ctx, env.game.utilities(leaf)))
    ensures !env.game.terminal(leaf) ==> r == env.rollout(ctx, leaf)
  {
    if env.game.terminal(leaf) then Some((ctx, env.game.utilities(leaf))) else env.rollout(ctx, leaf)
  }

  /** One iteration of the main loop of `selectAction`: descend, play out
      from the leaf unless it is terminal, and backpropagate. Only the root's
      statistics, numbers and subtree change; the root gets exactly one more
      visit. */
  function Iterate<S(!new), M(==), T(!new)>(env: Env<S, M, T>, root: Node<S, M>, ctx: T, iter: nat)
    : (r: Option<(Node<S, M>, T)>)
    requires ValidEnv(env) && WF(root, env.game.players)
    ensures r.Some? ==> WF(r.value.0, env.game.players)
    ensures r.Some? ==> r.value.0.visits == root.visits + 1
    ensures r.Some? ==> r.value.0 == root.(visits := r.value.0.visits, scoreSums := r.value.0.scoreSums,
      pn := r.value.0.pn, dn := r.value.0.dn, children := r.value.0.children, pending := r.value.0.pending,
      expanded := r.value.0.expanded)
    ensures r.Some? ==> |r.value.0.children| >= |root.children|
    ensures r.Some? && !env.game.terminal(root.state) && !root.expanded && root.value == Unknown ==>
      |r.value.0.children| > 0
    ensures env.game.terminal(root.state) ==>
      r == Some((Credit(root, env.game.utilities(root.state), env.game.players), ctx))
  {
    match Descend(env, root, iter, 0)
    case None => None
    case Some(d) =>
      match Outcome(env, ctx, At(d.tree, d.path).state)
      case None => None
      case Some((ctx', u)) =>
        BackpropWF(d.tree, d.path, u, env.game.players);
        Some((Backprop(d.tree, d.path, u, env.game.players).0, ctx'))
  }

  /** `k` iterations, numbered from `iter`; fails as soon as one fails. The
      root ends with exactly `k` more visits. */
  function Iterations<S(!new), M(==), T(!new)>(env: Env<S, M, T>, root: Node<S, M>, ctx: T, iter: nat, k: nat)
    : (r: Option<(Node<S, M>, T)>)
    requires ValidEnv(env) && WF(root, env.game.players)
    ensures r.Some? ==> WF(r.value.0, env.game.players)
    ensures r.Some? ==> r.value.0.visits == root.visits + k
    ensures r.Some? ==> r.value.0 == root.(visits := r.value.0.visits, scoreSums := r.value.0.scoreSums,
      pn := r.value.0.pn, dn := r.value.0.dn, children := r.value.0.children, pending := r.value.0.pending,
      expanded := r.value.0.expanded)
    ensures r.Some? ==> |r.value.0.children| >= |root.children|
    ensures r.Some? && k > 0 && !env.game.terminal(root.state) && !root.expanded && root.value == Unknown ==>
      |r.value.0.children| > 0
    decreases k
  {
    if k == 0 then Some((root, ctx))
    else
      match Iterate(env, root, ctx, iter)
      case None => None
      case Some((t, ctx')) => Iterations(env, t, ctx', iter + 1, k - 1)
  }

  /** A property of the playout context that every rollout preserves holds
      after an iteration. */
  lemma IterateKeeps<S(!new), M, T(!new)>(env: Env<S, M, T>, root: Node<S, M>, ctx: T, iter: nat, inv: T -> bool)
    requires ValidEnv(env) && WF(root, env.game.players) && inv(ctx)
    requires forall t, s :: inv(t) && env.rollout(t, s).Some? ==> inv(env.rollout(t, s).value.0)
    ensures Iterate(env, root, ctx, iter).Some? ==> inv(Iterate(env, root, ctx, iter).value.1)
  {
    match Descend(env, root, iter, 0)
    case None =>
    case Some(d) =>
      var leaf := At(d.tree, d.path).state;
      if !env.game.terminal(leaf) && env.rollout(ctx, leaf).Some? {
        assert inv(env.rollout(ctx, leaf).value.0);
      }
  }

  /** The same across any number of iterations. */
  lemma {:induction false} IterationsKeep<S(!new), M, T(!new)>(env: Env<S, M, T>, root: Node<S, M>, ctx: T, iter: nat, k: nat, inv: T -> bool)
    requires ValidEnv(env) && WF(root, env.game.players) && inv(ctx)
    requires forall t, s :: inv(t) && env.rollout(t, s).Some? ==> inv(env.rollout(t, s).value.0)
    ensures Iterations(env, root, ctx, iter, k).Some? ==> inv(Iterations(env, root, ctx, iter, k).value.1)
    decreases k
  {
    if k > 0 {
      IterateKeeps(env, root, ctx, iter, inv);
      match Iterate(env, root, ctx, iter)
      case None =>
      case Some((t, ctx')) => IterationsKeep(env, t, ctx', iter + 1, k - 1, inv);
    }
  }

  /** The index of the first zero in `xs` at or after `lo`. */
  function FirstZero(xs: seq<ExtNat>, lo: nat): (r: Option<nat>)
    requires lo <= |xs|
    ensures r.None? <==> forall j :: lo <= j < |xs| ==> xs[j] != Fin(0)
    ensures r.Some? ==> lo <= r.value < |xs| && xs[r.value] == Fin(0)
    ensures r.Some? ==> forall j :: lo <= j < r.value ==> xs[j] != Fin(0)
    decreases |xs| - lo
  {
    if lo == |xs| then None
    else if xs[lo] == Fin(0) then Some(lo)
    else FirstZero(xs, lo + 1)
  }

  function ChildVisits<S, M>(n: Node<S, M>): (r: seq<real>)
    ensures |r| == |n.children| && forall i :: 0 <= i < |r| ==> r[i] == n.children[i].visits as real
  {
    seq(|n.children|, i requires 0 <= i < |n.children| => n.children[i].visits as real)
  }

  /** `finalMoveSelection`: the robust child (most visits, ties broken by
      `coin`); with the final-move option on and a proven root, the first
      proven child instead. Nothing when the root has no children. */
  function FinalChoice<S, M>(root: Node<S, M>, finMoveSel: bool, coin: nat): (r: Option<nat>)
    ensures r.None? <==> |root.children| == 0
    ensures r.Some? ==> r.value < |root.children|
    ensures r.Some? && ProvenOverride(root, finMoveSel) ==>
      root.children[r.value].pn == Fin(0) && forall j :: 0 <= j < r.value ==> root.children[j].pn != Fin(0)
    ensures r.Some? && !ProvenOverride(root, finMoveSel) ==>
      forall j :: 0 <= j < |root.children| ==> root.children[j].visits <= root.children[r.value].visits
  {
    var best := ArgMaxes(ChildVisits(root), AllAllowed(|root.children|));
    if |best| == 0 then None
    else if finMoveSel && root.pn == Fin(0) then
      match FirstZero(ChildPns(root), 0)
      case Some(j) => Some(j)
      case None => Some(best[coin % |best|])
    else Some(best[coin % |best|])
  }

  /** The proven-child override of `finalMoveSelection` applies. */
  predicate ProvenOverride<S, M>(root: Node<S, M>, finMoveSel: bool) {
    finMoveSel && root.pn == Fin(0) && exists j :: 0 <= j < |root.children| && root.children[j].pn == Fin(0)
  }

  /** All `k` iterations of a search from a fresh root for `s` succeed. */
  ghost predicate SearchCompletes<S(!new), M, T(!new)>(env: Env<S, M, T>, s: S, ctx: T, k: nat) {
    && ValidEnv(env)
    && var root := NewNode(env.game, env.proofPlayer, s, None);
      && WF(root, env.game.players)
      && Iterations(env, root, ctx, 0, k).Some?
  }

  /** `selectAction`: a fresh root for `s`, `k` iterations, then the final
      choice. The move returned is always legal in `s`; a terminal `s`
      yields nothing, since the root is never expanded. */
  function SelectAction<S(!new), M(==), T(!new)>(env: Env<S, M, T>, s: S, ctx: T, k: nat, finMoveSel: bool, coin: nat)
    : (r: Option<(M, T)>)
    requires ValidEnv(env)
    ensures r.Some? ==> r.value.0 in env.game.legal(s)
    ensures env.game.terminal(s) ==> r.None?
    ensures k == 0 ==> r.None?
    ensures r.Some? ==> SearchCompletes(env, s, ctx, k)
    ensures !env.game.terminal(s) && k > 0 && SearchCompletes(env, s, ctx, k) ==> r.Some?
  {
    var root := NewNode(env.game, env.proofPlayer, s, None);
    NewNodeWF(env.game, env.proofPlayer, s, None);
    match Iterations(env, root, ctx, 0, k)
    case None => None
    case Some((t, ctx')) =>
      if env.game.terminal(s) then
        TerminalRootStays(env, root, ctx, 0, k);
        None
      else
        match FinalChoice(t, finMoveSel, coin)
        case None => None
        case Some(i) =>
          assert t.children[i].move.Some?;
          Some((t.children[i].move.value, ctx'))
  }

  /** A property of the playout context that every rollout preserves holds
      for the context `selectAction` hands back. */
  lemma SelectActionKeeps<S(!new), M, T(!new)>(env: Env<S, M, T>, s: S, ctx: T, k: nat, finMoveSel: bool, coin: nat, inv: T -> bool)
    requires ValidEnv(env) && inv(ctx)
    requires forall t, s :: inv(t) && env.rollout(t, s).Some? ==> inv(env.rollout(t, s).value.0)
    ensures SelectAction(env, s, ctx, k, finMoveSel, coin).Some? ==> inv(SelectAction(env, s, ctx, k, finMoveSel, coin).value.1)
  {
    var root := NewNode(env.game, env.proofPlayer, s, None);
    NewNodeWF(env.game, env.proofPlayer, s, None);
    IterationsKeep(env, root, ctx, 0, k, inv);
  }

  /** At a terminal root the iterations only credit the root: it never gets
      children. */
  lemma {:induction false} TerminalRootStays<S(!new), M, T(!new)>(env: Env<S, M, T>, root: Node<S, M>, ctx: T, iter: nat, k: nat)
    requires ValidEnv(env) && WF(root, env.game.players) && env.game.terminal(root.state)
    requires Iterations(env, root, ctx, iter, k).Some?
    ensures |Iterations(env, root, ctx, iter, k).value.0.children| == |root.children|
    decreases k
  {
    if k > 0 {
      var t := Credit(root, env.game.utilities(root.state), env.game.players);
      assert WF(t, env.game.players);
      TerminalRootStays(env, t, ctx, iter + 1, k - 1);
    }
  }
}
