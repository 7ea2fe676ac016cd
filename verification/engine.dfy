/** The agent: its configuration, its n-gram store carried from one search
    to the next, and the search environment that plugs the MAST playout into
    the proof-number tree search. */
module Engine {
  import opened Wrappers
  import opened Games
  import opened Nodes
  import opened Search
  import opened NGrams
  import opened Mast
  import opened Playouts

  /** The largest 32-bit signed integer, the default of the pruning
      threshold: with it no solved child is pruned while visit counts stay
      within 32 bits. */
  const MaxInt32: int := 0x7fff_ffff

  /** The longest n-gram the agent keeps statistics for. */
  const MaxNGramSize: nat := 3

  /** The options of the agent: the proven-child override of the final
      choice, the visit threshold beyond which solved children are pruned,
      and the n-gram length. */
  datatype Config = Config(finMoveSel: bool, minVisits: int, nGramSize: nat)

  /** The n-gram length the constructor keeps: its argument clamped to
      1..3. */
  function ClampNGramSize(n: int): (r: nat)
    ensures 1 <= r <= MaxNGramSize
    ensures 1 <= n <= MaxNGramSize ==> r == n
    ensures n < 1 ==> r == 1
    ensures n > MaxNGramSize ==> r == MaxNGramSize
  {
    if n < 1 then 1 else if n > MaxNGramSize then MaxNGramSize else n
  }

  /** The options of the argument-free constructor: 1-grams, no override,
      and a pruning threshold no 32-bit visit count exceeds. */
  function DefaultConfig(): (c: Config)
    ensures c.nGramSize == 1 && !c.finMoveSel && c.minVisits == MaxInt32
  {
    Config(false, MaxInt32, 1)
  }

  /** The options of the four-argument constructor. */
  function MakeConfig(finMove: bool, minVisits: int, nGramSize: int): (c: Config)
    ensures 1 <= c.nGramSize <= MaxNGramSize
    ensures c.finMoveSel == finMove && c.minVisits == minVisits
    ensures c.nGramSize == ClampNGramSize(nGramSize)
  {
    Config(finMove, minVisits, ClampNGramSize(nGramSize))
  }

  /** An agent playing for `store.player`. */
  datatype Agent<M> = Agent(config: Config, store: Store<M>)

  /** The player index of an agent that has not been told its player. */
  const NoPlayer: int := -1

  /** The constructors: the given options, no player yet, and empty n-gram
      tables with no simulations counted. */
  function NewAgent<M(==,!new)>(config: Config): (a: Agent<M>)
    ensures a.config == config && a.store.player == NoPlayer
    ensures a.store.nGramSize == config.nGramSize
    ensures |a.store.ai.entries| == 0 && |a.store.opp.entries| == 0
    ensures a.store.totalSimulations == 0 && a.store.additions == 0
    ensures Invariant(a.store)
  {
    Agent(config, EmptyStore(NoPlayer, config.nGramSize))
  }

  /** `initAI`: the agent takes its player and keeps everything else, its
      n-gram tables and counters included. */
  function InitAI<M>(a: Agent<M>, player: int): (r: Agent<M>)
    ensures r.store.player == player && r.config == a.config
    ensures r.store.ai == a.store.ai && r.store.opp == a.store.opp
    ensures r.store.nGramSize == a.store.nGramSize
    ensures r.store.totalSimulations == a.store.totalSimulations && r.store.additions == a.store.additions
  {
    a.(store := a.store.(player := player))
  }

  /** Telling its player to an agent keeps its store invariant. */
  lemma InitAIKeepsInvariant<M(!new)>(a: Agent<M>, player: int)
    requires Invariant(a.store)
    ensures Invariant(InitAI(a, player).store)
  {
    var r := InitAI(a, player);
    assert r.store.ai == a.store.ai && r.store.opp == a.store.opp;
  }

  /** A newly built agent told its player plays for that player from empty
      tables that satisfy the store invariant. */
  lemma InitFreshAgent<M(!new)>(config: Config, player: int)
    ensures var a: Agent<M> := InitAI(NewAgent(config), player);
      && a.store.player == player && a.store.nGramSize == config.nGramSize
      && |a.store.ai.entries| == 0 && |a.store.opp.entries| == 0
      && a.store.totalSimulations == 0
      && Invariant(a.store)
  {
    var a: Agent<M> := NewAgent(config);
    InitAIKeepsInvariant(a, player);
  }

  /** The search environment of an agent: the proof player is the agent's
      player, the pruning threshold comes from the options, and the playout
      is the MAST rollout. The UCT-PN value and the random draws are
      parameters. */
  function MastEnv<S(!new), M(==,!new)>(g: Game<S, M>, a: Agent<M>, value: (Node<S, M>, Node<S, M>) -> real,
                                        coin: (nat, nat) -> nat, d: Draws, fuel: nat)
    : (env: Env<S, M, Store<M>>)
    ensures env.game == g && env.proofPlayer == a.store.player && env.minVisits == a.config.minVisits
    ensures forall st, s :: StoreOk(st) ==> env.rollout(st, s) == Rollout(g, d, fuel, st, s)
  {
    Env(g, a.store.player, a.config.minVisits, value, coin,
      (st: Store<M>, s: S) => if StoreOk(st) then Rollout(g, d, fuel, st, s) else None)
  }

  /** The environment is one the search accepts whenever the game reports
      well-formed utilities and the agent's player is one of its players. */
  lemma MastEnvValid<S(!new), M(!new)>(g: Game<S, M>, a: Agent<M>, value: (Node<S, M>, Node<S, M>) -> real,
                                       coin: (nat, nat) -> nat, d: Draws, fuel: nat)
    requires WellFormed(g) && 0 <= a.store.player <= g.players
    ensures ValidEnv(MastEnv(g, a, value, coin, d, fuel))
  {
    var env := MastEnv(g, a, value, coin, d, fuel);
    forall st, s | env.rollout(st, s).Some?
      ensures |env.rollout(st, s).value.1| == g.players + 1
    {
      var r := Rollout(g, d, fuel, st, s);
      var end, h :| Line(g, s, h, end) && r.value.1 == g.utilities(end)
        && PlayersIn(h, r.value.1) && r.value.0 == UpdateNGramStats(st, h, r.value.1);
    }
  }

  /** `selectAction` for the agent: run `k` iterations from `s` with the
      agent's store as the playout context, and hand back the chosen move
      with the agent holding the updated store. */
  function ChooseMove<S(!new), M(==,!new)>(g: Game<S, M>, a: Agent<M>, s: S, k: nat,
                                           value: (Node<S, M>, Node<S, M>) -> real, coin: (nat, nat) -> nat,
                                           d: Draws, fuel: nat, finalCoin: nat)
    : (r: Option<(M, Agent<M>)>)
    requires SupportsGame(g)
    requires WellFormed(g) && 0 <= a.store.player <= g.players
    ensures r.Some? ==> r.value.0 in g.legal(s)
    ensures r.Some? ==> r.value.1.config == a.config && r.value.1.store.player == a.store.player
    ensures g.terminal(s) || k == 0 ==> r.None?
    ensures r.Some? ==> SearchCompletes(MastEnv(g, a, value, coin, d, fuel), s, a.store, k)
    ensures !g.terminal(s) && k > 0 && SearchCompletes(MastEnv(g, a, value, coin, d, fuel), s, a.store, k) ==>
      r.Some?
  {
    var env := MastEnv(g, a, value, coin, d, fuel);
    MastEnvValid(g, a, value, coin, d, fuel);
    SelectActionKeeps(env, s, a.store, k, a.config.finMoveSel, finalCoin,
      (st: Store<M>) => st.player == a.store.player);
    match SelectAction(env, s, a.store, k, a.config.finMoveSel, finalCoin)
    case None => None
    case Some((m, st)) => Some((m, a.(store := st)))
  }

  /** Across a whole search the agent's store keeps its invariant, when the
      game's utilities lie in [-1, 1]. */
  lemma ChooseMoveKeepsInvariant<S(!new), M(!new)>(g: Game<S, M>, a: Agent<M>, s: S, k: nat,
                                                   value: (Node<S, M>, Node<S, M>) -> real, coin: (nat, nat) -> nat,
                                                   d: Draws, fuel: nat, finalCoin: nat)
    requires SupportsGame(g)
    requires WellFormed(g) && 0 <= a.store.player <= g.players
    requires forall x :: UnitUtilities(g.utilities(x))
    requires Invariant(a.store)
    ensures ChooseMove(g, a, s, k, value, coin, d, fuel, finalCoin).Some? ==>
      Invariant(ChooseMove(g, a, s, k, value, coin, d, fuel, finalCoin).value.1.store)
  {
    var env := MastEnv(g, a, value, coin, d, fuel);
    MastEnvValid(g, a, value, coin, d, fuel);
    forall st, x | Invariant(st) && env.rollout(st, x).Some?
      ensures Invariant(env.rollout(st, x).value.0)
    {
      RolloutKeepsInvariant(g, d, fuel, st, x);
    }
    SelectActionKeeps(env, s, a.store, k, a.config.finMoveSel, finalCoin, (st: Store<M>) => Invariant(st));
  }
}
