/** The erase/remove_if idiom on a std::vector, as both particle pools use it:
    `v.erase(std::remove_if(v.begin(), v.end(), doomed), v.end())` removes
    every element for which `doomed` holds and keeps the others in order. */
module VectorOps {

  /** The elements of `s` for which `doomed` does not hold, in their original order. */
  function Erased<T>(s: seq<T>, doomed: T -> bool): (r: seq<T>)
    ensures |r| <= |s|
    ensures forall x :: x in r ==> !doomed(x)
  {
    if s == [] then []
    else Erased(s[..|s| - 1], doomed) + (if doomed(s[|s| - 1]) then [] else [s[|s| - 1]])
  }

  /** The positions in `s` that `Erased(s, doomed)` keeps, in increasing order. */
  ghost function KeptIndices<T>(s: seq<T>, doomed: T -> bool): seq<nat>
  {
    if s == [] then []
    else KeptIndices(s[..|s| - 1], doomed) + (if doomed(s[|s| - 1]) then [] else [|s| - 1])
  }

  /** There is one kept position per survivor, each in range, in strictly increasing order. */
  lemma {:induction false} KeptIndicesOrdered<T>(s: seq<T>, doomed: T -> bool)
    ensures var idx := KeptIndices(s, doomed);
      && |idx| == |Erased(s, doomed)|
      && (forall k :: 0 <= k < |idx| ==> idx[k] < |s|)
      && (forall k, l :: 0 <= k < l < |idx| ==> idx[k] < idx[l])
  {
    if s != [] {
      var n := |s| - 1;
      KeptIndicesOrdered(s[..n], doomed);
      var idx0, idx := KeptIndices(s[..n], doomed), KeptIndices(s, doomed);
      assert idx == idx0 + (if doomed(s[n]) then [] else [n]);
      assert forall k :: 0 <= k < |idx0| ==> idx[k] == idx0[k];
    }
  }

  /** The kept positions are exactly the positions whose element is not doomed. */
  lemma {:induction false} KeptIndicesExact<T>(s: seq<T>, doomed: T -> bool)
    ensures forall i :: 0 <= i < |s| ==> (i in KeptIndices(s, doomed) <==> !doomed(s[i]))
  {
    if s != [] {
      var n := |s| - 1;
      var front := s[..n];
      KeptIndicesExact(front, doomed);
      KeptIndicesOrdered(front, doomed);
      var idx0, idx := KeptIndices(front, doomed), KeptIndices(s, doomed);
      var tail := if doomed(s[n]) then [] else [n];
      assert idx == idx0 + tail;
      assert n !in idx0;
      forall i | 0 <= i < |s|
        ensures i in idx <==> !doomed(s[i])
      {
        assert i in idx <==> i in idx0 || i in tail;
        if i < n {
          assert s[i] == front[i];
        }
      }
    }
  }

  /** Stability: the survivors are `s` read at strictly increasing positions,
      and a position is read exactly when its element is not doomed. */
  lemma {:induction false} ErasedIsStable<T>(s: seq<T>, doomed: T -> bool)
    ensures var r, idx := Erased(s, doomed), KeptIndices(s, doomed);
      && |idx| == |r|
      && (forall k :: 0 <= k < |idx| ==> idx[k] < |s| && r[k] == s[idx[k]])
      && (forall k, l :: 0 <= k < l < |idx| ==> idx[k] < idx[l])
      && (forall i :: 0 <= i < |s| ==> (i in idx <==> !doomed(s[i])))
  {
    KeptIndicesOrdered(s, doomed);
    KeptIndicesExact(s, doomed);
    if s != [] {
      var n := |s| - 1;
      var front := s[..n];
      ErasedIsStable(front, doomed);
      var r0, idx0 := Erased(front, doomed), KeptIndices(front, doomed);
      var r, idx := Erased(s, doomed), KeptIndices(s, doomed);
      assert r == r0 + (if doomed(s[n]) then [] else [s[n]]);
      assert idx == idx0 + (if doomed(s[n]) then [] else [n]);
      forall k | 0 <= k < |idx|
        ensures r[k] == s[idx[k]]
      {
        if k < |idx0| {
          assert idx[k] == idx0[k] && r[k] == r0[k];
          assert front[idx0[k]] == s[idx0[k]];
        }
      }
    }
  }

  /** When nothing is doomed, nothing is erased. */
  lemma {:induction false} ErasedNothingDoomed<T>(s: seq<T>, doomed: T -> bool)
    requires forall i :: 0 <= i < |s| ==> !doomed(s[i])
    ensures Erased(s, doomed) == s
  {
    if s != [] {
      var n := |s| - 1;
      var front := s[..n];
      assert forall i :: 0 <= i < n ==> front[i] == s[i];
      ErasedNothingDoomed(front, doomed);
      assert Erased(s, doomed) == front + [s[n]];
      assert front + [s[n]] == s;
    }
  }

  /** `std::remove_if` followed by `erase`: survivors are moved forward over the
      doomed elements one by one, then the tail is cut off. */
  method EraseRemoveIf<T>(s: seq<T>, doomed: T -> bool) returns (r: seq<T>)
    ensures r == Erased(s, doomed)
  {
    var v := s;
    var write, read := 0, 0;
    while read < |v|
      invariant |v| == |s|
      invariant 0 <= write <= read <= |v|
      invariant v[..write] == Erased(s[..read], doomed)
      invariant forall k :: read <= k < |v| ==> v[k] == s[k]
    {
      assert s[..read + 1][..read] == s[..read];
      if !doomed(v[read]) {
        v := v[write := v[read]];
        write := write + 1;
      }
      read := read + 1;
    }
    assert s[..read] == s;
    r := v[..write];
  }
}
