/** The fixed ring of clock.c and its hand. A queue of at most CLOCKSIZE pages lies in the slots
    that end at the hand; all other slots are empty. */
module ClockRing {
  import opened Clock

  // vpn is -1 in an empty slot; pte is an index into the page table
  datatype Node = Node(vpn: int, pte: nat)

  /** The slot d places behind the hand. */
  function Slot(hand: int, d: nat): (i: nat)
    requires -1 <= hand < 8 && d < 8
    ensures i < 8
  {
    if d <= hand then hand - d else hand + 8 - d
  }

  function Next(hand: int): (i: nat)
    requires -1 <= hand < 8
    ensures i == if hand == 7 then 0 else hand + 1
  {
    (hand + 1) % 8
  }

  function Ahead(hand: int, i: nat): (r: nat)
    requires 0 <= hand < 8 && i < 8
    ensures r == if hand + i < 8 then hand + i else hand + i - 8
  {
    (hand + i) % 8
  }

  lemma SlotsDiffer(hand: int, d: nat, e: nat)
    requires -1 <= hand < 8 && d < 8 && e < 8
    ensures Slot(hand, d) == Slot(hand, e) <==> d == e
  {
  }

  lemma SlotAdvanced(hand: int, d: nat)
    requires -1 <= hand < 8 && 0 < d < 8
    ensures Slot(Next(hand), d) == Slot(hand, d - 1)
    ensures Slot(Next(hand), 0) == Next(hand) == Slot(hand, 7)
  {
  }

  ghost predicate SlotHolds(ring: seq<Node>, hand: int, q: seq<nat>, d: nat)
    requires |ring| == 8 && -1 <= hand < 8 && d < 8
  {
    var node := ring[Slot(hand, d)];
    if d < |q| then node.vpn == node.pte == q[|q| - 1 - d] else node.vpn == -1
  }

  ghost predicate Holds(ring: seq<Node>, hand: int, q: seq<nat>) {
    && |ring| == 8 && -1 <= hand < 8 && |q| <= 8
    && forall d | 0 <= d < 8 :: SlotHolds(ring, hand, q, d)
  }

  /** The slot after the hand holds the oldest page of a full queue, else it is empty. */
  lemma AtHead(ring: seq<Node>, hand: int, q: seq<nat>)
    requires Holds(ring, hand, q)
    ensures |ring| == 8 && -1 <= hand < 8 && |q| <= 8
    ensures var node := ring[Next(hand)];
      if |q| == 8 then node.vpn == node.pte == q[0] else node.vpn == -1
  {
    assert SlotHolds(ring, hand, q, 7);
  }

  /** Moving the hand over the oldest page of a full queue makes it the youngest. */
  lemma Rotates(ring: seq<Node>, hand: int, q: seq<nat>)
    requires Holds(ring, hand, q) && |q| == 8
    ensures Holds(ring, Next(hand), q[1..] + [q[0]])
  {
    AtHead(ring, hand, q);
    var h, q' := Next(hand), q[1..] + [q[0]];
    forall d | 0 <= d < 8 ensures SlotHolds(ring, h, q', d) {
      if d > 0 {
        SlotAdvanced(hand, d);
        assert SlotHolds(ring, hand, q, d - 1);
      }
    }
  }

  /** Filling the slot after the hand adds a youngest page, in place of the oldest if full. */
  lemma Fills(ring: seq<Node>, hand: int, q: seq<nat>, v: nat)
    requires Holds(ring, hand, q)
    ensures Holds(ring[Next(hand) := Node(v, v)], Next(hand), (if |q| == 8 then q[1..] else q) + [v])
  {
    var h := Next(hand);
    var ring' := ring[h := Node(v, v)];
    var q' := (if |q| == 8 then q[1..] else q) + [v];
    forall d | 0 <= d < 8 ensures SlotHolds(ring', h, q', d) {
      if d > 0 {
        SlotAdvanced(hand, d);
        SlotsDiffer(h, d, 0);
        assert SlotHolds(ring, hand, q, d - 1);
      } else {
        assert Slot(h, 0) == h;
      }
    }
  }

  /** In the middle of closing the gap d places behind the hand, with c places still to go. */
  ghost predicate Closing(ring: seq<Node>, hand: int, q: seq<nat>, d: nat, c: nat, e: nat)
    requires |ring| == 8 && -1 <= hand < 8 && e < 8 && d < |q|
  {
    var node := ring[Slot(hand, e)];
    if e >= |q| then node.vpn == -1
    else if c < e <= d then node.vpn == node.pte == q[|q| - e]
    else node.vpn == node.pte == q[|q| - 1 - e]
  }

  ghost predicate ClosingTo(ring: seq<Node>, hand: int, q: seq<nat>, d: nat, c: nat) {
    && |ring| == 8 && 0 <= hand < 8 && c <= d < |q| <= 8
    && forall e | 0 <= e < 8 :: Closing(ring, hand, q, d, c, e)
  }

  lemma ClosingStart(ring: seq<Node>, hand: int, q: seq<nat>, d: nat, at: nat)
    requires Holds(ring, hand, q) && 0 <= hand && d < |q| && at < 8
    requires d == if at <= hand then hand - at else hand + 8 - at
    ensures |ring| == 8 && 0 <= hand < 8 && ClosingTo(ring, hand, q, d, d) && at == Slot(hand, d)
  {
    forall e | 0 <= e < 8 ensures Closing(ring, hand, q, d, d, e) {
      assert SlotHolds(ring, hand, q, e);
    }
  }

  lemma ClosesOne(ring: seq<Node>, hand: int, q: seq<nat>, d: nat, c: nat)
    requires ClosingTo(ring, hand, q, d, c) && 0 < c
    ensures var i := Slot(hand, c);
      Next(i) == Slot(hand, c - 1) && ClosingTo(ring[i := ring[Next(i)]], hand, q, d, c - 1)
  {
    var i := Slot(hand, c);
    var ring' := ring[i := ring[Next(i)]];
    var c' := c - 1;
    forall e | 0 <= e < 8 ensures Closing(ring', hand, q, d, c', e) {
      SlotsDiffer(hand, e, c);
      assert Closing(ring, hand, q, d, c, e) && Closing(ring, hand, q, d, c, c - 1);
    }
  }

  /** With the gap closed, emptying the last slot and moving the hand back removes the page. */
  lemma Closed(ring: seq<Node>, hand: int, q: seq<nat>, d: nat)
    requires ClosingTo(ring, hand, q, d, 0)
    ensures var m := |q| - 1 - d;
      Holds(ring[hand := ring[hand].(vpn := -1)], if hand == 0 then 7 else hand - 1, q[..m] + q[m + 1..])
  {
    var m := |q| - 1 - d;
    var h := if hand == 0 then 7 else hand - 1;
    var ring' := ring[hand := ring[hand].(vpn := -1)];
    var q' := q[..m] + q[m + 1..];
    assert Slot(hand, 0) == hand == Next(h);
    forall e | 0 <= e < 8 ensures SlotHolds(ring', h, q', e) {
      SlotAdvanced(h, 7);
      if e < 7 {
        SlotAdvanced(h, e + 1);
        SlotsDiffer(hand, e + 1, 0);
        assert Closing(ring, hand, q, d, 0, e + 1);
      }
    }
  }

  ghost predicate AllReferenced(s: State, n: nat)
    requires Mapped(s) && n <= |s.q|
  {
    forall i | 0 <= i < n :: Accessed(s.ptes[s.q[i]])
  }

  /** The page that comes up after n referenced ones is the victim if it is unreferenced by now. */
  lemma FoundVictim(s: State, n: nat)
    requires Mapped(s) && Distinct(s.q) && |s.q| == 8 && n <= 8 && AllReferenced(s, n)
    requires var q := s.q[n..] + s.q[..n]; !Accessed(Unref(s.ptes, s.q[..n])[q[0]])
    ensures n == FirstUnref(s.q, s.ptes)
    ensures var q := s.q[n..] + s.q[..n]; q[0] == Victim(s.q, n) && q[1..] == Survivors(s.q, n)
  {
    hide Unref, FirstUnref, Accessed, ClearRef;
    var q := s.q[n..] + s.q[..n];
    if n < 8 {
      assert q[0] == s.q[n] && s.q[n] !in s.q[..n];
      assert q[1..] == s.q[n + 1..] + s.q[..n];
      assert Unref(s.ptes, s.q[..n])[s.q[n]] == s.ptes[s.q[n]];
    } else {
      assert q == s.q;
    }
  }

  lemma InsertKeeps(s: State, v: nat)
    requires Mapped(s) && Distinct(s.q) && |s.q| <= 8 && v < |s.ptes| && v !in s.q
    ensures Distinct(Clock.Insert(s, v).q) && Mapped(Clock.Insert(s, v))
  {
    hide Encrypt, Decrypt, FirstUnref, Unref, Survivors;
    if |s.q| == 8 {
      var k := FirstUnref(s.q, s.ptes);
      InsertParts(s, v);
      SurvivorsAre(s.q, k);
      var r := Survivors(s.q, k);
      assert forall i | 0 <= i < |r| :: r[i] in r;
    }
  }

  // After a full turn the oldest page is unreferenced.
  lemma FullTurn(s: State)
    requires Mapped(s) && |s.q| == 8
    ensures var q := s.q[8..] + s.q[..8]; q[0] == s.q[0] && !Accessed(Unref(s.ptes, s.q[..8])[q[0]])
  {
    hide Accessed, ClearRef;
    Flags(s.ptes[s.q[0]]);
    assert s.q[..8][0] == s.q[0];
  }

  lemma RotateMore(q: seq<nat>, n: nat)
    requires n < |q|
    ensures var r := q[n..] + q[..n]; r[0] == q[n] && r[1..] + [r[0]] == q[n + 1..] + q[..n + 1]
  {
  }

  lemma PassOver(s: State, n: nat)
    requires Mapped(s) && Distinct(s.q) && |s.q| == 8 && n <= 8 && AllReferenced(s, n)
    requires var q := s.q[n..] + s.q[..n]; Accessed(Unref(s.ptes, s.q[..n])[q[0]])
    ensures n < 8 && AllReferenced(s, n + 1)
    ensures var q := s.q[n..] + s.q[..n];
      var ptes := Unref(s.ptes, s.q[..n]);
      && q[1..] + [q[0]] == s.q[n + 1..] + s.q[..n + 1]
      && ptes[q[0] := ClearRef(ptes[q[0]])] == Unref(s.ptes, s.q[..n + 1])
  {
    hide Accessed, ClearRef;
    FullTurn(s);
    if n < 8 {
      RotateMore(s.q, n);
      assert s.q[n] !in s.q[..n];
      assert s.q[..n + 1] == s.q[..n] + [s.q[n]];
    }
  }

  class Ring {
    const queue: array<Node>
    var ptes: seq<Pte>
    var hand: int
    ghost var q: seq<nat>    // the pages in the ring, oldest first

    ghost predicate Valid()
      reads this, queue
    {
      && Holds(queue[..], hand, q)
      && Distinct(q) && Mapped(St())
      && (hand == -1 ==> q == [])
    }

    ghost function St(): State
      reads this
    {
      State(q, ptes)
    }

    constructor (pages: seq<Pte>)
      ensures Valid() && q == [] && ptes == pages && fresh(queue)
    {
      queue := new Node[8](_ => Node(-1, 0));
      ptes := pages;
      hand := -1;
      q := [];
    }

    /** Empties the ring; the pages keep their flags. */
    method Clear()
      requires queue.Length == 8
      modifies this, queue
      ensures Valid() && St() == old(St()).(q := [])
    {
      for i := 0 to 8
        invariant forall j | 0 <= j < i :: queue[j].vpn == -1
        invariant ptes == old(ptes)
      {
        queue[i] := queue[i].(vpn := -1);
      }
      hand := -1;
      q := [];
    }

    /** The eviction loop after some moves of the hand over referenced pages. */
    ghost predicate Searching(s0: State, n: nat)
      requires Mapped(s0)
      reads this, queue
    {
      && Holds(queue[..], hand, q) && n <= 8 && |s0.q| <= 8
      && if |s0.q| < 8 then n == 0 && St() == s0
         else q == s0.q[n..] + s0.q[..n] && ptes == Unref(s0.ptes, s0.q[..n]) && AllReferenced(s0, n)
    }

    /** Brings page v into the working set; the hand moves at most CLOCKSIZE + 1 times. */
    method Insert(v: nat) returns (ghost advances: nat)
      requires Valid() && v < |ptes| && v !in q
      modifies this, queue
      ensures Valid() && St() == Clock.Insert(old(St()), v)
      ensures advances == 1 + if |old(q)| < CLOCKSIZE then 0 else FirstUnref(old(q), old(ptes))
      ensures advances <= CLOCKSIZE + 1
    {
      hide Holds, Unref, FirstUnref, Distinct, Encrypt, Decrypt;
      ghost var s0 := St();
      advances := 0;
      var placed := false;
      AtHead(queue[..], hand, q);
      assert s0.q[..0] == [] && ptes == Unref(s0.ptes, []);
      while !placed
        invariant Mapped(s0)
        invariant !placed ==> Searching(s0, advances)
        invariant placed ==> Placed(s0, v, advances)
        decreases !placed, 9 - advances
      {
        placed := Advance(v, s0, advances);
        advances := advances + 1;
      }
      InsertKeeps(s0, v);
      ptes := ptes[v := Decrypt(ptes[v])];
    }

    /** The new page is in the ring and the victim, if there was one, is encrypted. */
    ghost predicate Placed(s0: State, v: nat, advances: nat)
      requires Mapped(s0)
      reads this, queue
    {
      && Holds(queue[..], hand, q) && hand != -1 && advances > 0 && |s0.q| <= 8
      && if |s0.q| < 8 then advances == 1 && q == s0.q + [v] && ptes == s0.ptes
         else
           var k := FirstUnref(s0.q, s0.ptes);
           var cleared := Unref(s0.ptes, s0.q[..k]);
           var victim := Victim(s0.q, k);
           && advances == k + 1
           && q == Survivors(s0.q, k) + [v]
           && ptes == cleared[victim := Encrypt(cleared[victim])]
    }

    /** One move of the hand. */
    method Advance(v: nat, ghost s0: State, ghost n: nat) returns (placed: bool)
      requires Mapped(s0) && Distinct(s0.q) && Searching(s0, n)
      modifies this, queue
      ensures if placed then Placed(s0, v, n + 1) else n < 8 && Searching(s0, n + 1)
    {
      hide Holds, Unref, FirstUnref;
      ghost var ring := queue[..];
      AtHead(queue[..], hand, q);
      var h := Next(hand);
      assert ring[h] == queue[h];
      if queue[h].vpn == -1 {
        Fills(queue[..], hand, q, v);
        queue[h] := Node(v, v);
        hand := h;
        q := q + [v];
        assert queue[..] == ring[h := Node(v, v)];
        placed := true;
      } else if !Accessed(ptes[queue[h].pte]) {
        Fills(queue[..], hand, q, v);
        FoundVictim(s0, n);
        ptes := ptes[queue[h].pte := Encrypt(ptes[queue[h].pte])];
        queue[h] := Node(v, v);
        hand := h;
        q := q[1..] + [v];
        assert queue[..] == ring[h := Node(v, v)];
        placed := true;
      } else {
        Rotates(queue[..], hand, q);
        PassOver(s0, n);
        ptes := ptes[queue[h].pte := ClearRef(ptes[queue[h].pte])];
        hand := h;
        q := q[1..] + [q[0]];
        placed := false;
      }
    }

    /** Takes page v out of the ring and closes the gap; the hand must have moved before. */
    method Remove(v: nat)
      requires Valid() && hand >= 0
      modifies this, queue
      ensures Valid() && hand >= 0 && St() == old(St()).(q := Without(old(q), v))
    {
      hide Holds, ClosingTo, Without, Distinct, Slot;
      var found, at := Find(v);
      WithoutDistinct(q, v);
      if !found {
        return;
      }
      ghost var d: nat := if at <= hand then hand - at else hand + 8 - at;
      ghost var m := |q| - 1 - d;
      WithoutAt(q, m);
      ClosingStart(queue[..], hand, q, d, at);
      CloseGap(at, d);
      ghost var ring := queue[..];
      Closed(ring, hand, q, d);
      queue[hand] := queue[hand].(vpn := -1);
      assert queue[..] == ring[hand := ring[hand].(vpn := -1)];
      hand := if hand == 0 then 7 else hand - 1;
      q := q[..m] + q[m + 1..];
    }

    /** Moves the pages behind the gap at slot at, up to the hand, one slot back. */
    method CloseGap(at: nat, ghost d: nat)
      requires ClosingTo(queue[..], hand, q, d, d) && at == Slot(hand, d)
      modifies queue
      ensures ClosingTo(queue[..], hand, q, d, 0)
    {
      var i := at;
      ghost var c := d;
      while i != hand
        invariant ClosingTo(queue[..], hand, q, d, c) && i == Slot(hand, c)
        decreases c
      {
        ghost var ring := queue[..];
        ClosesOne(ring, hand, q, d, c);
        var next := Next(i);
        queue[i] := queue[next];
        assert queue[..] == ring[i := ring[next]];
        i := next;
        c := c - 1;
      }
      assert c == 0;
    }

    /** The slot of page v, if it is in the ring. */
    method Find(v: nat) returns (found: bool, at: nat)
      requires Valid() && hand >= 0
      ensures found <==> v in q
      ensures at < 8
      ensures found ==>
        var d := if at <= hand then hand - at else hand + 8 - at;
        0 <= d < |q| && v == q[|q| - 1 - d]
    {
      at := 0;
      for i := 0 to 8
        invariant at < 8
        invariant forall j | 0 <= j < i :: queue[Ahead(hand, j)].vpn != v
      {
        at := Ahead(hand, i);
        ghost var d := if at <= hand then hand - at else hand + 8 - at;
        assert SlotHolds(queue[..], hand, q, d);
        if queue[at].vpn == v {
          return true, at;
        }
      }
      found := false;
      forall k | 0 <= k < |q| ensures q[k] != v {
        var d := |q| - 1 - k;
        assert SlotHolds(queue[..], hand, q, d);
        var j := if d == 0 then 0 else 8 - d;
        assert Ahead(hand, j) == Slot(hand, d);
      }
    }

    /** A reference to page v: a fault brings it in, the processor marks it. */
    method RefPage(v: nat, ghost live: set<nat>)
      requires Valid() && Resident(St(), live) && v in live
      modifies this, queue
      ensures Valid() && St() == Ref(old(St()), v) && Resident(St(), live)
    {
      hide Holds, FirstUnref, Unref, Encrypt, Decrypt, Present, SetRef;
      RefResident(St(), v, live);
      if !Present(ptes[v]) {
        ghost var advances := Insert(v);
      }
      ptes := ptes[v := SetRef(ptes[v])];
    }

    /** Deallocation of page v. */
    method RemovePage(v: nat, ghost live: set<nat>)
      requires Valid() && hand >= 0 && Resident(St(), live)
      modifies this, queue
      ensures Valid() && hand >= 0 && Resident(St(), live - {v})
      ensures Step(old(St()), live, Op.RemovePage(v), St(), live - {v})
    {
      WithoutDistinct(q, v);
      Remove(v);
    }
  }
}
