/** The doubly linked list of src/bio.c: NBUF (30) buffers and a head, linked by index; the head has
    index 30. */
module BioList {

  ghost predicate Distinct(order: seq<nat>) {
    && (forall i | 0 <= i < |order| :: order[i] < 30)
    && forall i, j | 0 <= i < j < |order| :: order[i] != order[j]
  }

  /** The i-th node of the cycle head, order, head. */
  ghost function Node(order: seq<nat>, i: nat): (b: nat)
    requires i <= |order| + 1
  {
    if i == 0 || i == |order| + 1 then 30 else order[i - 1]
  }

  ghost predicate LinkAt(next: seq<nat>, prev: seq<nat>, order: seq<nat>, i: nat)
    requires |next| == |prev| == 31 && Distinct(order) && i <= |order|
  {
    next[Node(order, i)] == Node(order, i + 1) && prev[Node(order, i + 1)] == Node(order, i)
  }

  /** Following next from the head visits order and comes back; prev runs the other way. */
  ghost predicate Links(next: seq<nat>, prev: seq<nat>, order: seq<nat>) {
    && |next| == |prev| == 31 && Distinct(order)
    && forall i | 0 <= i <= |order| :: LinkAt(next, prev, order, i)
  }

  function Without(order: seq<nat>, k: nat): (r: seq<nat>)
    requires k < |order|
    ensures |r| == |order| - 1
    ensures forall i | 0 <= i < |r| :: r[i] == order[if i < k then i else i + 1]
  {
    order[..k] + order[k + 1..]
  }

  lemma NodesDiffer(order: seq<nat>, i: nat, j: nat)
    requires Distinct(order) && i <= |order| && j <= |order| && i != j
    ensures Node(order, i) != Node(order, j)
  {
  }

  lemma WithoutNodes(order: seq<nat>, k: nat, i: nat)
    requires Distinct(order) && k < |order| && i <= |order|
    ensures Distinct(Without(order, k))
    ensures Node(Without(order, k), i) == Node(order, if i <= k then i else i + 1)
  {
  }

  /** Taking the k-th buffer out by linking its neighbours. */
  lemma Unlinks(next: seq<nat>, prev: seq<nat>, order: seq<nat>, k: nat)
    requires Links(next, prev, order) && k < |order|
    ensures var b := order[k];
      && next[b] < 31 && prev[b] < 31
      && Links(next[prev[b] := next[b]], prev[next[b] := prev[b]], Without(order, k))
  {
    var b := order[k];
    assert LinkAt(next, prev, order, k) && LinkAt(next, prev, order, k + 1);
    var next', prev', r := next[prev[b] := next[b]], prev[next[b] := prev[b]], Without(order, k);
    assert Distinct(r);
    forall i | 0 <= i <= |r| ensures LinkAt(next', prev', r, i) {
      WithoutNodes(order, k, i);
      WithoutNodes(order, k, i + 1);
      if i < k {
        assert LinkAt(next, prev, order, i);
        NodesDiffer(order, i, k);
        LastDiffers(order, i + 1, k + 2);
      } else if i > k {
        assert LinkAt(next, prev, order, i + 1);
        NodesDiffer(order, i + 1, k);
        LastDiffers(order, i + 2, k + 2);
      }
    }
  }

  lemma LastDiffers(order: seq<nat>, i: nat, j: nat)
    requires Distinct(order) && 0 < i <= |order| + 1 && 0 < j <= |order| + 1 && i != j
    ensures Node(order, i) != Node(order, j)
  {
  }

  /** Linking a buffer in behind the head. */
  lemma Pushes(next: seq<nat>, prev: seq<nat>, order: seq<nat>, b: nat)
    requires Links(next, prev, order) && b < 30 && b !in order
    ensures next[30] < 31
    ensures Links(next[b := next[30]][30 := b], prev[b := 30][next[30] := b], [b] + order)
  {
    assert LinkAt(next, prev, order, 0);
    var next', prev', r := next[b := next[30]][30 := b], prev[b := 30][next[30] := b], [b] + order;
    assert Distinct(r);
    forall i | 0 <= i <= |r| ensures LinkAt(next', prev', r, i) {
      if i > 0 {
        assert LinkAt(next, prev, order, i - 1);
        assert Node(r, i + 1) == Node(order, i);
        if i > 1 {
          assert Node(r, i) == Node(order, i - 1);
          LastDiffers(order, i, 1);
        }
      }
    }
  }
}
