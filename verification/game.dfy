/** The game as the engine sees it: five operations of the rules engine plus
    the two flags the engine inspects before it agrees to play. States and
    moves are opaque; moves only need equality. */
module Games {

  datatype Game<!S, !M> = Game(
    players: nat,
    legal: S -> seq<M>,
    apply: (S, M) -> S,
    terminal: S -> bool,
    mover: S -> int,
    utilities: S -> seq<real>,
    stochastic: bool,
    alternating: bool)

  /** The rules engine reports one utility per player, indexed 1..players,
      with index 0 unused. */
  ghost predicate WellFormed<S(!new), M>(g: Game<S, M>) {
    forall s :: |g.utilities(s)| == g.players + 1
  }

  /** A proof player the utility vector can be indexed with. */
  ghost predicate ValidProofPlayer<S(!new), M>(g: Game<S, M>, proofPlayer: int) {
    WellFormed(g) && 0 <= proofPlayer <= g.players
  }

  /** `supportsGame`: the engine refuses stochastic games, then games whose
      players do not alternate, and accepts every other game. */
  function SupportsGame<S, M>(g: Game<S, M>): (r: bool)
    ensures g.stochastic ==> !r
    ensures !g.alternating ==> !r
    ensures !g.stochastic && g.alternating ==> r
  {
    !g.stochastic && g.alternating
  }
}
