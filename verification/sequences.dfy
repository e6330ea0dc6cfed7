/** Order-preserving selections from a sequence, and removal of a set of
    positions (the behaviour of a collection's `remove(atOffsets:)`). */
module Sequences {

  /** Every position in `idx` is smaller than the one after it. */
  ghost predicate StrictlyIncreasing(idx: seq<nat>)
  {
    forall a, b :: 0 <= a < b < |idx| ==> idx[a] < idx[b]
  }

  /** `r` is the subsequence of `s` at the increasing positions `idx`. */
  ghost predicate SelectedBy<T>(r: seq<T>, s: seq<T>, idx: seq<nat>)
  {
    |idx| == |r| && StrictlyIncreasing(idx) &&
    forall j :: 0 <= j < |idx| ==> idx[j] < |s| && r[j] == s[idx[j]]
  }

  /** The positions 0, 1, ..., n - 1 in order. */
  function AllPositions(n: nat): (idx: seq<nat>)
    ensures |idx| == n
    ensures forall i :: 0 <= i < n ==> idx[i] == i
  {
    if n == 0 then [] else AllPositions(n - 1) + [n - 1]
  }

  /** The positions below `n` that are not in `offsets`, in increasing order. */
  function KeptPositions(n: nat, offsets: set<nat>): (idx: seq<nat>)
    ensures StrictlyIncreasing(idx)
    ensures forall j :: 0 <= j < |idx| ==> idx[j] < n
    ensures forall i: nat :: i in idx <==> i < n && i !in offsets
  {
    if n == 0 then []
    else KeptPositions(n - 1, offsets) + (if n - 1 in offsets then [] else [n - 1])
  }

  /** Removes the elements of `s` whose positions are in `offsets`; positions
      at or beyond `|s|` select nothing. */
  function RemoveOffsets<T>(s: seq<T>, offsets: set<nat>): seq<T>
    decreases |s|
  {
    if s == [] then []
    else
      var k := |s| - 1;
      RemoveOffsets(s[..k], offsets) + (if k in offsets then [] else [s[k]])
  }

  /** The survivors of the removal are the elements at the kept positions,
      in their original order. */
  lemma {:induction false} RemoveOffsetsSelects<T>(s: seq<T>, offsets: set<nat>)
    ensures SelectedBy(RemoveOffsets(s, offsets), s, KeptPositions(|s|, offsets))
    decreases |s|
  {
    if s != [] {
      RemoveOffsetsSelects(s[..|s| - 1], offsets);
    }
  }

  /** The positions that the offsets in `offsets` denote in a view selected
      from some sequence by `pos`. */
  function PositionsOf(pos: seq<nat>, offsets: set<nat>): set<nat>
  {
    set o | o in offsets && o < |pos| :: pos[o]
  }

  /** Extending a view by the position `k`, beyond all its other positions,
      adds at most `k` to the positions that offsets into it denote. */
  lemma PositionsOfSnoc(ps: seq<nat>, k: nat, extend: bool, offsets: set<nat>)
    requires forall j :: 0 <= j < |ps| ==> ps[j] < k
    ensures var p := ps + (if extend then [k] else []);
            (forall i: nat :: i < k ==> (i in PositionsOf(p, offsets) <==> i in PositionsOf(ps, offsets))) &&
            (k in PositionsOf(p, offsets) <==> extend && |ps| in offsets)
  {
  }

  /** Only the offsets below `n` matter to KeptPositions. */
  lemma {:induction false} KeptPositionsAgree(n: nat, a: set<nat>, b: set<nat>)
    requires forall i: nat :: i < n ==> (i in a <==> i in b)
    ensures KeptPositions(n, a) == KeptPositions(n, b)
  {
    if n > 0 {
      KeptPositionsAgree(n - 1, a, b);
    }
  }

  /** Only the offsets below `|s|` matter to RemoveOffsets. */
  lemma {:induction false} RemoveOffsetsAgree<T>(s: seq<T>, a: set<nat>, b: set<nat>)
    requires forall i: nat :: i < |s| ==> (i in a <==> i in b)
    ensures RemoveOffsets(s, a) == RemoveOffsets(s, b)
    decreases |s|
  {
    if s != [] {
      RemoveOffsetsAgree(s[..|s| - 1], a, b);
    }
  }

  /** Removing distinct in-range positions drops exactly that many elements. */
  lemma {:induction false} KeptPositionsLength(n: nat, offsets: set<nat>)
    requires forall o :: o in offsets ==> o < n
    ensures |KeptPositions(n, offsets)| == n - |offsets|
  {
    if n == 0 {
      assert offsets == {} by {
        forall o | o in offsets ensures false { }
      }
    } else {
      var k := n - 1;
      if k in offsets {
        var rest := offsets - {k};
        KeptPositionsAgree(k, offsets, rest);
        KeptPositionsLength(k, rest);
      } else {
        KeptPositionsLength(k, offsets);
      }
    }
  }

  /** `remove(atOffsets:)` with in-range offsets shortens the sequence by the
      number of distinct offsets. */
  lemma RemoveOffsetsLength<T>(s: seq<T>, offsets: set<nat>)
    requires forall o :: o in offsets ==> o < |s|
    ensures |RemoveOffsets(s, offsets)| == |s| - |offsets|
  {
    RemoveOffsetsSelects(s, offsets);
    KeptPositionsLength(|s|, offsets);
  }

  /** An element survives the removal exactly when it sits at some position
      outside `offsets`. */
  lemma RemoveOffsetsMembers<T>(s: seq<T>, offsets: set<nat>, x: T)
    ensures x in RemoveOffsets(s, offsets) <==>
            exists i: nat :: i < |s| && i !in offsets && s[i] == x
  {
  }

  /** Removing from a sequence extended by one element. */
  lemma RemoveOffsetsSnoc<T>(s: seq<T>, x: T, offsets: set<nat>)
    ensures RemoveOffsets(s + [x], offsets) ==
            RemoveOffsets(s, offsets) + (if |s| in offsets then [] else [x])
  {
  }

  /** Selection by the identity positions is the sequence itself. */
  lemma SelectAll<T>(s: seq<T>)
    ensures SelectedBy(s, s, AllPositions(|s|))
  {
  }
}
