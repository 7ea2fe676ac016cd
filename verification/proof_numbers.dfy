/** Proof-Number Search bookkeeping as in L. V. Allis, "Searching for
    Solutions in Games and Artificial Intelligence": node kinds, leaf
    evaluation, the AND/OR combination rule and the sibling ranking used by
    the UCT-PN selection formula. */
module ProofNumbers {
  import opened ExtNats

  /** OR nodes are where the proof player moves, AND nodes the others. */
  datatype Kind = OrNode | AndNode

  /** A leaf's evaluation: won for the proof player (TRUE in the engine),
      lost or drawn (FALSE), or not terminal (UNKNOWN). */
  datatype Value = Proven | Disproven | Unknown

  function KindOf(mover: int, proofPlayer: int): Kind {
    if mover == proofPlayer then OrNode else AndNode
  }

  function Evaluate(terminal: bool, proofUtility: real): Value {
    if terminal then (if proofUtility == 1.0 then Proven else Disproven)
    else Unknown
  }

  /** (proof, disproof) of a node that has not been expanded. */
  function LeafNumbers(v: Value): (r: (ExtNat, ExtNat))
    ensures r.0 == Fin(0) <==> v == Proven
    ensures r.1 == Fin(0) <==> v == Disproven
    ensures v == Unknown ==> r == (Fin(1), Fin(1))
    ensures v != Unknown ==> r.0 == Inf || r.1 == Inf
  {
    match v
    case Proven => (Fin(0), Inf)
    case Disproven => (Inf, Fin(0))
    case Unknown => (Fin(1), Fin(1))
  }

  /** (proof, disproof) of an expanded node from its children's numbers:
      an AND node needs every child proven and one disproven, an OR node the
      dual. */
  function Combine(k: Kind, pns: seq<ExtNat>, dns: seq<ExtNat>): (r: (ExtNat, ExtNat))
    ensures k == AndNode ==> r == (Sum(pns), MinOf(dns))
    ensures k == OrNode ==> r == (MinOf(pns), Sum(dns))
  {
    match k
    case AndNode => (Sum(pns), MinOf(dns))
    case OrNode => (MinOf(pns), Sum(dns))
  }

  /** An expanded node is proven (proof number 0) exactly when one child is
      proven at an OR node, or every child at an AND node; dually for
      disproof. */
  lemma {:induction false} CombineSolved(k: Kind, pns: seq<ExtNat>, dns: seq<ExtNat>)
    ensures Combine(k, pns, dns).0 == Fin(0) <==>
      (if k == OrNode then Has(pns, Fin(0)) else All(pns, Fin(0)))
    ensures Combine(k, pns, dns).1 == Fin(0) <==>
      (if k == AndNode then Has(dns, Fin(0)) else All(dns, Fin(0)))
    ensures Combine(k, pns, dns).0 == Inf <==>
      (if k == OrNode then All(pns, Inf) else Has(pns, Inf))
    ensures Combine(k, pns, dns).1 == Inf <==>
      (if k == AndNode then All(dns, Inf) else Has(dns, Inf))
  {
    var _ := Sum(pns);
    var _ := Sum(dns);
    var _ := MinOf(pns);
    var _ := MinOf(dns);
  }

  /** The number a parent ranks its children by: the proof number under an
      OR parent, the disproof number under an AND parent. */
  function Key(parent: Kind, pn: ExtNat, dn: ExtNat): ExtNat {
    if parent == OrNode then pn else dn
  }

  /** The children's `compareTo`: the sign of the comparison of their keys. */
  function Compare(parent: Kind, pnA: ExtNat, dnA: ExtNat, pnB: ExtNat, dnB: ExtNat): (c: int)
    ensures c == -1 || c == 0 || c == 1
    ensures c < 0 <==> Less(Key(parent, pnA, dnA), Key(parent, pnB, dnB))
    ensures c > 0 <==> Less(Key(parent, pnB, dnB), Key(parent, pnA, dnA))
    ensures c == 0 <==> Key(parent, pnA, dnA) == Key(parent, pnB, dnB)
  {
    var a := if parent == OrNode then pnA else dnA;
    var b := if parent == OrNode then pnB else dnB;
    if Less(a, b) then -1 else if Less(b, a) then 1 else 0
  }

  /** Number of keys strictly below `x`. */
  function CountBelow(keys: seq<ExtNat>, x: ExtNat): nat {
    if |keys| == 0 then 0
    else CountBelow(keys[..|keys| - 1], x) + (if Less(keys[|keys| - 1], x) then 1 else 0)
  }

  /** The rank a child with key `x` receives among siblings with `keys`. */
  function RankOf(keys: seq<ExtNat>, x: ExtNat): nat {
    1 + CountBelow(keys, x)
  }

  lemma {:induction false} CountBelowBound(keys: seq<ExtNat>, x: ExtNat)
    ensures CountBelow(keys, x) <= |keys|
    ensures x in keys ==> CountBelow(keys, x) < |keys|
  {
    if |keys| > 0 {
      var init := keys[..|keys| - 1];
      CountBelowBound(init, x);
      if x in keys && x != keys[|keys| - 1] {
        assert x in init;
      }
    }
  }

  lemma {:induction false} CountBelowMonotone(keys: seq<ExtNat>, x: ExtNat, y: ExtNat)
    requires Less(x, y)
    ensures CountBelow(keys, x) <= CountBelow(keys, y)
    ensures x in keys ==> CountBelow(keys, x) < CountBelow(keys, y)
  {
    if |keys| > 0 {
      var init := keys[..|keys| - 1];
      var last := keys[|keys| - 1];
      CountBelowMonotone(init, x, y);
      if Less(last, x) {
        LessTransitive(last, x, y);
      }
      if x in keys && x != last {
        assert x in init;
      }
    }
  }

  /** Ranks of children with the given keys: 1 for the best key, ties share
      a rank, a strictly smaller key gets a strictly smaller rank, and no
      rank exceeds the number of children. */
  function Ranks(keys: seq<ExtNat>): (r: seq<nat>)
    ensures |r| == |keys|
    ensures forall i :: 0 <= i < |keys| ==> 1 <= r[i] <= |keys|
    ensures forall i, j :: 0 <= i < |keys| && 0 <= j < |keys| && keys[i] == keys[j] ==> r[i] == r[j]
    ensures forall i, j :: 0 <= i < |keys| && 0 <= j < |keys| && Less(keys[i], keys[j]) ==> r[i] < r[j]
    ensures forall i :: 0 <= i < |keys| && (forall j :: 0 <= j < |keys| ==> LessEq(keys[i], keys[j])) ==> r[i] == 1
  {
    var r := seq(|keys|, i requires 0 <= i < |keys| => RankOf(keys, keys[i]));
    assert forall i :: 0 <= i < |keys| ==> 1 <= r[i] <= |keys| by {
      forall i | 0 <= i < |keys| {
        CountBelowBound(keys, keys[i]);
      }
    }
    assert forall i, j :: 0 <= i < |keys| && 0 <= j < |keys| && Less(keys[i], keys[j]) ==> r[i] < r[j] by {
      forall i, j | 0 <= i < |keys| && 0 <= j < |keys| && Less(keys[i], keys[j]) {
        CountBelowMonotone(keys, keys[i], keys[j]);
      }
    }
    assert forall i :: 0 <= i < |keys| && (forall j :: 0 <= j < |keys| ==> LessEq(keys[i], keys[j])) ==> r[i] == 1 by {
      forall i | 0 <= i < |keys| && (forall j :: 0 <= j < |keys| ==> LessEq(keys[i], keys[j])) {
        NoneBelow(keys, keys[i]);
      }
    }
    r
  }

  lemma {:induction false} NoneBelow(keys: seq<ExtNat>, x: ExtNat)
    requires forall j :: 0 <= j < |keys| ==> LessEq(x, keys[j])
    ensures CountBelow(keys, x) == 0
  {
    if |keys| > 0 {
      NoneBelow(keys[..|keys| - 1], x);
    }
  }

  /** Keys in non-decreasing order, as `Collections.sort` leaves them. */
  predicate Sorted(s: seq<ExtNat>) {
    forall i, j :: 0 <= i < j < |s| ==> LessEq(s[i], s[j])
  }

  /** The loop of `setChildRanks` over the sorted children: position i gets
      rank i + 1 unless its key equals its predecessor's, in which case it
      copies the predecessor's rank. */
  function ScanRanks(sorted: seq<ExtNat>): (r: seq<nat>)
    ensures |r| == |sorted|
  {
    if |sorted| == 0 then []
    else
      var i := |sorted| - 1;
      var prev := ScanRanks(sorted[..i]);
      prev + [if i > 0 && sorted[i - 1] == sorted[i] then prev[i - 1] else i + 1]
  }

  lemma {:induction false} CountBelowAllBelow(keys: seq<ExtNat>, x: ExtNat)
    requires forall j :: 0 <= j < |keys| ==> Less(keys[j], x)
    ensures CountBelow(keys, x) == |keys|
  {
    if |keys| > 0 {
      CountBelowAllBelow(keys[..|keys| - 1], x);
    }
  }

  /** On a sorted sequence the scan gives each position one plus the number
      of keys strictly below its own. */
  lemma {:induction false} ScanCountsBelow(sorted: seq<ExtNat>)
    requires Sorted(sorted)
    ensures forall a :: 0 <= a < |sorted| ==> ScanRanks(sorted)[a] == 1 + CountBelow(sorted, sorted[a])
  {
    if |sorted| > 0 {
      var i := |sorted| - 1;
      var init := sorted[..i];
      var last := sorted[i];
      ScanCountsBelow(init);
      var r := ScanRanks(sorted);
      forall a | 0 <= a < |sorted|
        ensures r[a] == 1 + CountBelow(sorted, sorted[a])
      {
        if a < i {
          assert sorted[a] == init[a];
          assert LessEq(sorted[a], last);
        } else if i > 0 && sorted[i - 1] == last {
          assert init[i - 1] == last;
        } else {
          forall j | 0 <= j < |init|
            ensures Less(init[j], last)
          {
            assert LessEq(init[j], sorted[i - 1]);
          }
          CountBelowAllBelow(init, last);
        }
      }
    }
  }

  lemma {:induction false} CountBelowAppend(a: seq<ExtNat>, b: seq<ExtNat>, x: ExtNat)
    ensures CountBelow(a + b, x) == CountBelow(a, x) + CountBelow(b, x)
  {
    if |b| > 0 {
      assert (a + b)[..|a + b| - 1] == a + b[..|b| - 1];
      CountBelowAppend(a, b[..|b| - 1], x);
    } else {
      assert a + b == a;
    }
  }

  lemma RemoveAtMultiset(b: seq<ExtNat>, k: nat)
    requires k < |b|
    ensures multiset(b[..k] + b[k + 1..]) == multiset(b) - multiset{b[k]}
  {
    assert b == b[..k] + [b[k]] + b[k + 1..];
  }

  lemma {:induction false} RemoveAtCountBelow(b: seq<ExtNat>, k: nat, x: ExtNat)
    requires k < |b|
    ensures CountBelow(b, x) == CountBelow(b[..k] + b[k + 1..], x) + (if Less(b[k], x) then 1 else 0)
  {
    assert b == (b[..k] + [b[k]]) + b[k + 1..];
    CountBelowAppend(b[..k] + [b[k]], b[k + 1..], x);
    CountBelowAppend(b[..k], [b[k]], x);
    CountBelowAppend(b[..k], b[k + 1..], x);
    assert [b[k]][..0] == [];
  }

  /** Counting keys below a value does not depend on their order. */
  lemma {:induction false} CountBelowPermutation(a: seq<ExtNat>, b: seq<ExtNat>, x: ExtNat)
    requires multiset(a) == multiset(b)
    ensures CountBelow(a, x) == CountBelow(b, x)
    decreases |a|
  {
    if |a| == 0 {
      assert |b| == |multiset(b)| == 0;
    } else {
      var init := a[..|a| - 1];
      var last := a[|a| - 1];
      assert a == init + [last];
      assert multiset(init) == multiset(a) - multiset{last};
      assert last in multiset(b);
      var k :| 0 <= k < |b| && b[k] == last;
      RemoveAtMultiset(b, k);
      CountBelowPermutation(init, b[..k] + b[k + 1..], x);
      RemoveAtCountBelow(b, k, x);
    }
  }

  /** The engine's sort-then-scan ranking agrees with `Ranks`: whatever
      order the sort leaves equal keys in, the child at sorted position a
      gets the rank `Ranks` assigns to its key. */
  lemma ScanAgreesWithRanks(keys: seq<ExtNat>, sorted: seq<ExtNat>)
    requires Sorted(sorted) && multiset(sorted) == multiset(keys)
    ensures forall a :: 0 <= a < |sorted| ==> ScanRanks(sorted)[a] == RankOf(keys, sorted[a])
  {
    ScanCountsBelow(sorted);
    forall a | 0 <= a < |sorted|
      ensures ScanRanks(sorted)[a] == RankOf(keys, sorted[a])
    {
      CountBelowPermutation(sorted, keys, sorted[a]);
    }
  }
}
