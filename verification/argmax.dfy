/** The set of indices that maximise a score, optionally over a subset of
    allowed indices. The engine breaks ties among them randomly (or takes the
    first one); its choices are stated as "one of these". */
module ArgMax {
  import opened Wrappers

  /** The largest score at an allowed index, if any index is allowed. */
  function Top(vals: seq<real>, allowed: seq<bool>): (m: Option<real>)
    requires |vals| == |allowed|
    ensures m.None? <==> forall i :: 0 <= i < |vals| ==> !allowed[i]
    ensures m.Some? ==> exists i :: 0 <= i < |vals| && allowed[i] && vals[i] == m.value
    ensures m.Some? ==> forall i :: 0 <= i < |vals| && allowed[i] ==> vals[i] <= m.value
  {
    if |vals| == 0 then None
    else
      var k := |vals| - 1;
      var m0 := Top(vals[..k], allowed[..k]);
      assert forall i :: 0 <= i < k ==> vals[..k][i] == vals[i] && allowed[..k][i] == allowed[i];
      if !allowed[k] then m0
      else if m0.None? || m0.value < vals[k] then Some(vals[k])
      else m0
  }

  /** Allowed indices from `lo` on whose score is `m`, in increasing order. */
  function Collect(vals: seq<real>, allowed: seq<bool>, m: real, lo: nat): (r: seq<nat>)
    requires |vals| == |allowed| && lo <= |vals|
    ensures forall k :: 0 <= k < |r| ==> lo <= r[k] < |vals| && allowed[r[k]] && vals[r[k]] == m
    ensures forall i :: lo <= i < |vals| && allowed[i] && vals[i] == m ==> i in r
    ensures forall a, b :: 0 <= a < b < |r| ==> r[a] < r[b]
    decreases |vals| - lo
  {
    if lo == |vals| then []
    else (if allowed[lo] && vals[lo] == m then [lo] else []) + Collect(vals, allowed, m, lo + 1)
  }

  /** Every allowed index of maximal score, in increasing order; empty
      exactly when no index is allowed. */
  function ArgMaxes(vals: seq<real>, allowed: seq<bool>): (r: seq<nat>)
    requires |vals| == |allowed|
    ensures forall k :: 0 <= k < |r| ==> r[k] < |vals| && allowed[r[k]]
    ensures forall k, i :: 0 <= k < |r| && 0 <= i < |vals| && allowed[i] ==> vals[i] <= vals[r[k]]
    ensures forall i :: 0 <= i < |vals| && allowed[i] && (forall j :: 0 <= j < |vals| && allowed[j] ==> vals[j] <= vals[i]) ==> i in r
    ensures |r| == 0 <==> forall i :: 0 <= i < |vals| ==> !allowed[i]
    ensures forall a, b :: 0 <= a < b < |r| ==> r[a] < r[b]
  {
    match Top(vals, allowed)
    case None => []
    case Some(m) =>
      var r := Collect(vals, allowed, m, 0);
      assert |r| > 0 by {
        var i :| 0 <= i < |vals| && allowed[i] && vals[i] == m;
        assert i in r;
      }
      r
  }

  /** Every index allowed. */
  function AllAllowed(n: nat): (r: seq<bool>)
    ensures |r| == n && forall i :: 0 <= i < n ==> r[i]
  {
    seq(n, _ => true)
  }
}
