/** Proof and disproof numbers. The engine stores them as doubles, but they
    only ever hold a natural number or positive infinity, so they are modelled
    as the naturals extended with a top element. */
module ExtNats {

  datatype ExtNat = Fin(n: nat) | Inf

  /** Strict order of doubles restricted to these values: infinity is below
      nothing, and equal to itself. */
  predicate Less(a: ExtNat, b: ExtNat) {
    match a
    case Inf => false
    case Fin(x) => b.Inf? || x < b.n
  }

  predicate LessEq(a: ExtNat, b: ExtNat) {
    !Less(b, a)
  }

  lemma LessTransitive(a: ExtNat, b: ExtNat, c: ExtNat)
    requires Less(a, b) && LessEq(b, c)
    ensures Less(a, c)
  {
  }

  /** Double addition on these values: infinity absorbs. */
  function Add(a: ExtNat, b: ExtNat): (r: ExtNat)
    ensures r == Inf <==> a == Inf || b == Inf
    ensures r == Fin(0) <==> a == Fin(0) && b == Fin(0)
  {
    if a.Inf? || b.Inf? then Inf else Fin(a.n + b.n)
  }

  /** One step of the "if (x < best) best = x" scan. */
  function Min(a: ExtNat, b: ExtNat): (r: ExtNat)
    ensures LessEq(r, a) && LessEq(r, b)
    ensures r == a || r == b
  {
    if Less(b, a) then b else a
  }

  /** Every element equals `v`. */
  predicate All(xs: seq<ExtNat>, v: ExtNat) {
    forall i :: 0 <= i < |xs| ==> xs[i] == v
  }

  /** Some element equals `v`. */
  predicate Has(xs: seq<ExtNat>, v: ExtNat) {
    exists i :: 0 <= i < |xs| && xs[i] == v
  }

  lemma SplitFirst(xs: seq<ExtNat>, v: ExtNat)
    requires |xs| > 0
    ensures All(xs, v) <==> xs[0] == v && All(xs[1..], v)
    ensures Has(xs, v) <==> xs[0] == v || Has(xs[1..], v)
  {
    assert forall i :: 1 <= i < |xs| ==> xs[1..][i - 1] == xs[i];
    if Has(xs[1..], v) {
      var i :| 0 <= i < |xs[1..]| && xs[1..][i] == v;
      assert xs[i + 1] == v;
    }
  }

  /** The sum the engine accumulates over the children, starting at 0
      (addition is commutative here, so the fold direction does not matter):
      zero exactly when every term is zero, infinite exactly when some term is. */
  function Sum(xs: seq<ExtNat>): (r: ExtNat)
    ensures r == Fin(0) <==> All(xs, Fin(0))
    ensures r == Inf <==> Has(xs, Inf)
  {
    if |xs| == 0 then Fin(0)
    else
      SplitFirst(xs, Fin(0));
      SplitFirst(xs, Inf);
      Add(xs[0], Sum(xs[1..]))
  }

  /** The running minimum the engine computes over the children, starting at
      infinity and replacing it by any strictly smaller child: a lower bound
      that is attained, zero exactly when some term is zero, infinite exactly
      when every term is. */
  function MinOf(xs: seq<ExtNat>): (r: ExtNat)
    ensures forall i :: 0 <= i < |xs| ==> LessEq(r, xs[i])
    ensures |xs| > 0 ==> Has(xs, r)
    ensures r == Fin(0) <==> Has(xs, Fin(0))
    ensures r == Inf <==> All(xs, Inf)
  {
    if |xs| == 0 then Inf
    else
      var rest := MinOf(xs[1..]);
      SplitFirst(xs, Fin(0));
      SplitFirst(xs, Inf);
      SplitFirst(xs, rest);
      assert forall i :: 1 <= i < |xs| ==> xs[1..][i - 1] == xs[i];
      Min(rest, xs[0])
  }
}
