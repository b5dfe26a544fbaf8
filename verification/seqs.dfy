/** Order-preserving filtering of sequences, with the indices of the kept
    elements as a witness. `Array.prototype.filter` and the
    "forEach + early return + push" loops of the source are both modelled
    with these two functions. */
module Seqs {

  /** The elements of `s` that satisfy `keep`, in their original order. */
  function Filter<T>(s: seq<T>, keep: T -> bool): (r: seq<T>)
    ensures |r| <= |s|
    ensures forall k :: 0 <= k < |r| ==> keep(r[k])
    decreases |s|
  {
    if |s| == 0 then []
    else
      var last := s[|s| - 1];
      Filter(s[..|s| - 1], keep) + (if keep(last) then [last] else [])
  }

  /** The positions in `s` of the elements that `Filter` keeps. */
  function Kept<T>(s: seq<T>, keep: T -> bool): seq<nat>
    decreases |s|
  {
    if |s| == 0 then []
    else
      var n := |s| - 1;
      Kept(s[..n], keep) + (if keep(s[n]) then [n] else [])
  }

  /** `r` lists positions of a sequence of length `len`, strictly increasing. */
  predicate Positions(r: seq<nat>, len: nat) {
    && (forall k :: 0 <= k < |r| ==> r[k] < len)
    && (forall i, j :: 0 <= i < j < |r| ==> r[i] < r[j])
  }

  /** `Kept` is a faithful witness of `Filter`: strictly increasing
      positions, exactly the positions whose element satisfies `keep`, and
      the k-th kept element sits at position `Kept(s, keep)[k]`. */
  lemma KeptWitness<T>(s: seq<T>, keep: T -> bool)
    ensures var r := Kept(s, keep);
      && |r| == |Filter(s, keep)|
      && Positions(r, |s|)
      && (forall k :: 0 <= k < |r| ==> Filter(s, keep)[k] == s[r[k]])
      && (forall j :: 0 <= j < |s| ==> (keep(s[j]) <==> j in r))
  {
    KeptElements(s, keep);
    KeptPositions(s, keep);
    KeptExact(s, keep);
  }

  lemma {:induction false} KeptElements<T>(s: seq<T>, keep: T -> bool)
    ensures |Kept(s, keep)| == |Filter(s, keep)|
    ensures forall k :: 0 <= k < |Kept(s, keep)| ==>
      Kept(s, keep)[k] < |s| && Filter(s, keep)[k] == s[Kept(s, keep)[k]]
    decreases |s|
  {
    if |s| > 0 {
      var n := |s| - 1;
      var prefix := s[..n];
      KeptElements(prefix, keep);
      var rp := Kept(prefix, keep);
      var fp := Filter(prefix, keep);
      assert forall k :: 0 <= k < |rp| ==> fp[k] == s[rp[k]] by {
        forall k | 0 <= k < |rp| ensures fp[k] == s[rp[k]] {
          assert prefix[rp[k]] == s[rp[k]];
        }
      }
      if keep(s[n]) {
        assert Kept(s, keep) == rp + [n];
        assert Filter(s, keep) == fp + [s[n]];
      } else {
        assert Kept(s, keep) == rp;
        assert Filter(s, keep) == fp;
      }
    }
  }

  lemma {:induction false} KeptPositions<T>(s: seq<T>, keep: T -> bool)
    ensures Positions(Kept(s, keep), |s|)
    decreases |s|
  {
    if |s| > 0 {
      var n := |s| - 1;
      var prefix := s[..n];
      KeptPositions(prefix, keep);
      var rp := Kept(prefix, keep);
      if keep(s[n]) {
        assert Kept(s, keep) == rp + [n];
      } else {
        assert Kept(s, keep) == rp;
      }
    }
  }

  lemma {:induction false} KeptExact<T>(s: seq<T>, keep: T -> bool)
    ensures forall j :: 0 <= j < |s| ==> (keep(s[j]) <==> j in Kept(s, keep))
    decreases |s|
  {
    if |s| > 0 {
      var n := |s| - 1;
      var prefix := s[..n];
      KeptExact(prefix, keep);
      KeptPositions(prefix, keep);
      var rp := Kept(prefix, keep);
      assert n !in rp;
      forall j | 0 <= j < |s| ensures keep(s[j]) <==> j in Kept(s, keep) {
        if j < n {
          assert prefix[j] == s[j];
        }
      }
    }
  }

  /** `[0, 1, ..., n - 1]`. */
  function Range(n: nat): (r: seq<nat>)
    ensures |r| == n
    ensures forall k :: 0 <= k < n ==> r[k] == k
  {
    seq(n, k requires 0 <= k < n => k)
  }

  /** When every element is kept, the filter is the identity and its
      witness is the whole index range. */
  lemma {:induction false} KeepAll<T>(s: seq<T>, keep: T -> bool)
    requires forall j :: 0 <= j < |s| ==> keep(s[j])
    ensures Filter(s, keep) == s
    ensures Kept(s, keep) == Range(|s|)
    decreases |s|
  {
    if |s| > 0 {
      var n := |s| - 1;
      var prefix := s[..n];
      assert forall j :: 0 <= j < n ==> prefix[j] == s[j];
      KeepAll(prefix, keep);
      SplitLast(s);
      RangeSnoc(n);
    }
  }

  lemma SplitLast<T>(s: seq<T>)
    requires |s| > 0
    ensures s[..|s| - 1] + [s[|s| - 1]] == s
  {
  }

  lemma RangeSnoc(n: nat)
    ensures Range(n) + [n] == Range(n + 1)
  {
    assert forall k :: 0 <= k <= n ==> (Range(n) + [n])[k] == k;
  }
}
