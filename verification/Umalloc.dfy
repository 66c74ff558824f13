/** The storage allocator of src/umalloc.c (section 8.7 of The C Programming Language, second
    edition). Addresses count header-sized units; the static header `base` lies below the heap. */
module Umalloc {

  const BASE := 1
  const NULL := 0

  /** The two fields of every header, and how the memory obtained so far is divided: the free list
      in address order, the blocks handed out, and for every unit the header of its block. */
  datatype Tiling = Tiling(
    ptr: map<int, int>, size: map<int, int>, fl: seq<int>, live: map<int, int>, own: map<int, int>)

  ghost predicate Covers(own: map<int, int>, h: int, n: int) {
    forall u | h <= u < h + n :: u in own && own[u] == h
  }

  ghost predicate Ordered(fl: seq<int>) {
    && |fl| >= 1 && fl[0] == BASE
    && forall i, j | 0 <= i < j < |fl| :: fl[i] < fl[j]
  }

  /** The successor of free block i on the circular list. */
  function Next(fl: seq<int>, i: nat): int
    requires i < |fl|
  {
    if i + 1 < |fl| then fl[i + 1] else fl[0]
  }

  ghost predicate LinkAt(t: Tiling, i: nat)
    requires i < |t.fl|
  {
    t.fl[i] in t.ptr && t.ptr[t.fl[i]] == Next(t.fl, i)
  }

  ghost predicate Linked(t: Tiling) {
    forall i | 0 <= i < |t.fl| :: LinkAt(t, i)
  }

  ghost predicate FreeBlocks(t: Tiling) {
    && (forall i | 0 <= i < |t.fl| :: t.fl[i] in t.size)
    && (|t.fl| >= 1 ==> t.size[t.fl[0]] == 0)
    && (forall i | 1 <= i < |t.fl| :: t.size[t.fl[i]] >= 1 && Covers(t.own, t.fl[i], t.size[t.fl[i]]))
  }

  ghost predicate LiveBlocks(t: Tiling) {
    forall h | h in t.live ::
      && BASE < h && t.live[h] >= 1 && h in t.size && t.size[h] == t.live[h]
      && Covers(t.own, h, t.live[h]) && h !in t.fl
  }

  /** Every unit lies in the block it is said to belong to, and that block is free or live. */
  ghost predicate NoStray(t: Tiling) {
    forall u | u in t.own ::
      && BASE < t.own[u] && (t.own[u] in t.fl || t.own[u] in t.live)
      && t.own[u] in t.size && t.own[u] <= u < t.own[u] + t.size[t.own[u]]
  }

  ghost predicate Good(t: Tiling) {
    Ordered(t.fl) && FreeBlocks(t) && LiveBlocks(t) && NoStray(t)
  }

  /** Free blocks j and j + 1 do not touch; `base` never counts as touching. */
  ghost predicate Gap(t: Tiling, j: int)
    requires Good(t) && 0 <= j
  {
    1 <= j && j + 1 < |t.fl| ==> t.fl[j] + t.size[t.fl[j]] < t.fl[j + 1]
  }

  ghost predicate Coalesced(t: Tiling)
    requires Good(t)
  {
    forall j | 0 <= j < |t.fl| :: Gap(t, j)
  }

  /** Two different blocks never overlap. */
  lemma BlocksApart(t: Tiling, h: int, n: int, g: int, m: int)
    requires Covers(t.own, h, n) && Covers(t.own, g, m) && h < g && n >= 1 && m >= 1
    ensures h + n <= g
  {
    assert t.own[g] == g;
  }

  // ----- putting a live block on the list -----

  function Inserted(fl: seq<int>, i: nat, bp: int): (r: seq<int>)
    requires i < |fl|
    ensures |r| == |fl| + 1
    ensures forall k | 0 <= k < |r| :: r[k] == if k <= i then fl[k] else if k == i + 1 then bp else fl[k - 1]
    ensures forall h :: h in r <==> h in fl || h == bp
  {
    var r := fl[..i + 1] + [bp] + fl[i + 1..];
    assert fl == fl[..i + 1] + fl[i + 1..];
    r
  }

  /** bp belongs between free blocks i and i + 1. */
  ghost predicate Place(fl: seq<int>, i: nat, bp: int) {
    i < |fl| && fl[i] < bp && (i + 1 < |fl| ==> bp < fl[i + 1])
  }

  ghost function Insert(t: Tiling, i: nat, bp: int): Tiling
    requires i < |t.fl|
  {
    t.(ptr := t.ptr[bp := Next(t.fl, i)][t.fl[i] := bp], fl := Inserted(t.fl, i, bp), live := t.live - {bp})
  }

  lemma InsertOrdered(fl: seq<int>, i: nat, bp: int)
    requires Ordered(fl) && Place(fl, i, bp)
    ensures Ordered(Inserted(fl, i, bp))
  {
  }

  lemma InsertGood(t: Tiling, i: nat, bp: int)
    requires Good(t) && bp in t.live && Place(t.fl, i, bp)
    ensures Good(Insert(t, i, bp))
  {
    var t' := Insert(t, i, bp);
    InsertOrdered(t.fl, i, bp);
    hide Inserted, Covers, Ordered;
    assert FreeBlocks(t') by { hide NoStray; }
    assert LiveBlocks(t') by { hide NoStray, FreeBlocks; }
    assert NoStray(t') by { hide FreeBlocks; }
  }

  // ----- merging two adjacent free blocks -----

  function Joined(fl: seq<int>, j: nat): (r: seq<int>)
    requires j + 1 < |fl|
    ensures |r| == |fl| - 1
    ensures forall k | 0 <= k < |r| :: r[k] == if k <= j then fl[k] else fl[k + 1]
    ensures forall h :: h in fl <==> h in r || h == fl[j + 1]
  {
    var r := fl[..j + 1] + fl[j + 2..];
    assert fl == fl[..j + 1] + [fl[j + 1]] + fl[j + 2..];
    r
  }

  ghost function Merge(t: Tiling, j: nat): Tiling
    requires Good(t) && 1 <= j && j + 1 < |t.fl|
  {
    var a, b := t.fl[j], t.fl[j + 1];
    t.(ptr := t.ptr[a := Next(t.fl, j + 1)],
       fl := Joined(t.fl, j),
       size := t.size[a := t.size[a] + t.size[b]],
       own := map u | u in t.own :: if t.own[u] == b then a else t.own[u])
  }

  lemma MergeOrdered(fl: seq<int>, j: nat)
    requires Ordered(fl) && 1 <= j && j + 1 < |fl|
    ensures Ordered(Joined(fl, j)) && fl[j + 1] !in Joined(fl, j)
  {
  }

  lemma MergeCovers(t: Tiling, j: nat, h: int, n: int)
    requires Good(t) && 1 <= j && j + 1 < |t.fl| && t.fl[j] + t.size[t.fl[j]] == t.fl[j + 1]
    ensures Covers(t.own, h, n) && h != t.fl[j + 1] ==> Covers(Merge(t, j).own, h, n)
    ensures Covers(Merge(t, j).own, t.fl[j], t.size[t.fl[j]] + t.size[t.fl[j + 1]])
  {
    var a, b := t.fl[j], t.fl[j + 1];
    var own' := Merge(t, j).own;
    forall u | a <= u < a + t.size[a] + t.size[b] ensures u in own' && own'[u] == a {
      if u < b { assert u in t.own && t.own[u] == a; } else { assert u in t.own && t.own[u] == b; }
    }
  }

  lemma MergeGood(t: Tiling, j: nat)
    requires Good(t) && 1 <= j && j + 1 < |t.fl| && t.fl[j] + t.size[t.fl[j]] == t.fl[j + 1]
    ensures Good(Merge(t, j))
    ensures Merge(t, j).own.Keys == t.own.Keys
  {
    hide Joined, Ordered, FreeBlocks, LiveBlocks, NoStray;
    MergeOrdered(t.fl, j);
    MergeFree(t, j);
    MergeLive(t, j);
    MergeNoStray(t, j);
  }

  lemma MergeFree(t: Tiling, j: nat)
    requires Good(t) && 1 <= j && j + 1 < |t.fl| && t.fl[j] + t.size[t.fl[j]] == t.fl[j + 1]
    ensures FreeBlocks(Merge(t, j))
  {
    hide Covers, LiveBlocks, NoStray;
    var t' := Merge(t, j);
    MergeCovers(t, j, t.fl[j], 0);
    forall i | 1 <= i < |t'.fl|
      ensures t'.fl[i] in t'.size && t'.size[t'.fl[i]] >= 1 && Covers(t'.own, t'.fl[i], t'.size[t'.fl[i]])
    {
      if i != j {
        MergeCovers(t, j, t'.fl[i], t.size[t'.fl[i]]);
      }
    }
    assert t'.fl[0] == t.fl[0] && t.fl[0] < t.fl[j];
  }

  lemma MergeLive(t: Tiling, j: nat)
    requires Good(t) && 1 <= j && j + 1 < |t.fl| && t.fl[j] + t.size[t.fl[j]] == t.fl[j + 1]
    ensures LiveBlocks(Merge(t, j))
  {
    hide Joined, Covers, FreeBlocks, NoStray, Ordered;
    var t' := Merge(t, j);
    assert t.fl[j] in t.fl && t.fl[j + 1] in t.fl;
    forall h | h in t.live ensures Covers(t'.own, h, t.live[h]) {
      MergeCovers(t, j, h, t.live[h]);
    }
  }

  lemma MergeNoStray(t: Tiling, j: nat)
    requires Good(t) && 1 <= j && j + 1 < |t.fl| && t.fl[j] + t.size[t.fl[j]] == t.fl[j + 1]
    ensures NoStray(Merge(t, j))
  {
    hide Joined, Covers, LiveBlocks;
    var t' := Merge(t, j);
    var a, b := t.fl[j], t.fl[j + 1];
    assert a < b && a in t'.fl && t.size[a] >= 1 && t.size[b] >= 1 && BASE < a;
    forall u | u in t'.own
      ensures BASE < t'.own[u] && (t'.own[u] in t'.fl || t'.own[u] in t'.live)
      ensures t'.own[u] in t'.size && t'.own[u] <= u < t'.own[u] + t'.size[t'.own[u]]
    {
      assert u in t.own;
    }
  }

  // ----- free -----

  ghost predicate Touch(t: Tiling, j: nat)
    requires Good(t)
  {
    1 <= j && j + 1 < |t.fl| && t.fl[j] + t.size[t.fl[j]] == t.fl[j + 1]
  }

  ghost function Settle(t: Tiling, j: nat): (r: Tiling)
    requires Good(t)
    ensures Good(r) && r.own.Keys == t.own.Keys && r.live == t.live
  {
    if Touch(t, j) then MergeGood(t, j); Merge(t, j) else t
  }

  /** free(): the block goes between its neighbours, joins the upper one if they touch, and then
      the lower one if they touch. */
  ghost function Freed(t: Tiling, i: nat, bp: int): (r: Tiling)
    requires Good(t) && bp in t.live && Place(t.fl, i, bp)
    ensures Good(r) && r.own.Keys == t.own.Keys && r.live == t.live - {bp}
  {
    InsertGood(t, i, bp);
    Settle(Settle(Insert(t, i, bp), i + 1), i)
  }

  lemma ApartFree(t: Tiling, j: nat)
    requires Good(t) && 1 <= j && j + 1 < |t.fl|
    ensures t.fl[j] + t.size[t.fl[j]] <= t.fl[j + 1]
  {
    BlocksApart(t, t.fl[j], t.size[t.fl[j]], t.fl[j + 1], t.size[t.fl[j + 1]]);
  }

  /** There is a gap after every free block, except perhaps those at a and at b. */
  ghost predicate Gaps(t: Tiling, a: int, b: int)
    requires Good(t)
  {
    forall k | 0 <= k < |t.fl| && k != a && k != b :: Gap(t, k)
  }

  /** Settling j leaves a gap after the block at j. */
  lemma SettleGaps(t: Tiling, a: nat, j: nat)
    requires Good(t) && a <= j < |t.fl| && Gaps(t, a, j)
    ensures if a == j then Coalesced(Settle(t, j)) else Gaps(Settle(t, j), a, a)
  {
    hide LiveBlocks, NoStray, Covers;
    if 1 <= j && j + 1 < |t.fl| {
      ApartFree(t, j);
    }
    var r := Settle(t, j);
    forall k | 0 <= k < |r.fl| && (k != a || a == j) ensures Gap(r, k) {
      if Touch(t, j) {
        assert r == Merge(t, j);
        if k < j {
          assert Gap(t, k);
        } else if k + 1 < |t.fl| {
          assert Gap(t, k + 1);
        }
      } else if k != j {
        assert Gap(t, k);
      }
    }
  }

  lemma InsertGaps(t: Tiling, i: nat, bp: int)
    requires Good(t) && bp in t.live && Place(t.fl, i, bp) && Coalesced(t)
    ensures Good(Insert(t, i, bp)) && Gaps(Insert(t, i, bp), i, i + 1)
  {
    InsertGood(t, i, bp);
    var t1 := Insert(t, i, bp);
    forall k | 0 <= k < |t1.fl| && k != i && k != i + 1 ensures Gap(t1, k) {
      assert Gap(t, if k < i then k else k - 1);
    }
  }

  lemma FreedCoalesced(t: Tiling, i: nat, bp: int)
    requires Good(t) && bp in t.live && Place(t.fl, i, bp) && Coalesced(t)
    ensures Coalesced(Freed(t, i, bp))
  {
    hide Gaps, Coalesced, Settle, Insert, Ordered, LiveBlocks, NoStray, FreeBlocks;
    InsertGaps(t, i, bp);
    var t1 := Insert(t, i, bp);
    assert i + 1 < |t1.fl| by { InsertLength(t, i, bp); }
    SettleGaps(t1, i, i + 1);
    SettleLength(t1, i + 1);
    SettleGaps(Settle(t1, i + 1), i, i);
  }

  lemma InsertLength(t: Tiling, i: nat, bp: int)
    requires i < |t.fl|
    ensures |Insert(t, i, bp).fl| == |t.fl| + 1
  {
  }

  lemma SettleLength(t: Tiling, j: nat)
    requires Good(t) && j < |t.fl|
    ensures j < |Settle(t, j).fl|
  {
  }

  // ----- malloc -----

  lemma BlockOwnsItself(t: Tiling, h: int)
    requires Good(t) && (h in t.live || (h in t.fl && h != BASE))
    ensures h in t.own && t.own[h] == h
  {
    if h in t.fl && h != BASE {
      var i :| 0 <= i < |t.fl| && t.fl[i] == h;
      assert i != 0;
      assert Covers(t.own, h, t.size[h]);
    }
  }

  /** An exact fit leaves the list. */
  ghost function TakeAll(t: Tiling, k: nat): Tiling
    requires Good(t) && 1 <= k < |t.fl|
  {
    t.(ptr := t.ptr[t.fl[k - 1] := Next(t.fl, k)],
       fl := Joined(t.fl, k - 1),
       live := t.live[t.fl[k] := t.size[t.fl[k]]])
  }

  lemma TakeAllBlocks(t: Tiling, k: nat)
    requires Good(t) && 1 <= k < |t.fl|
    ensures FreeBlocks(TakeAll(t, k)) && LiveBlocks(TakeAll(t, k)) && NoStray(TakeAll(t, k))
  {
    var t' := TakeAll(t, k);
    assert t.fl[k] !in t'.fl && BASE < t.fl[k] by { assert t.fl[0] < t.fl[k]; }
    assert t.fl[k] in t.size && t.size[t.fl[k]] >= 1 && Covers(t.own, t.fl[k], t.size[t.fl[k]]);
    hide Covers, Ordered;
  }

  lemma TakeAllGood(t: Tiling, k: nat)
    requires Good(t) && Coalesced(t) && 1 <= k < |t.fl|
    ensures Good(TakeAll(t, k)) && Coalesced(TakeAll(t, k))
  {
    TakeAllBlocks(t, k);
    var t' := TakeAll(t, k);
    hide FreeBlocks, LiveBlocks, NoStray;
    assert Ordered(t'.fl);
    forall j | 0 <= j < |t'.fl| ensures Gap(t', j) {
      assert Gap(t, if j < k then j else j + 1);
    }
  }

  /** A larger block keeps its lower part; the tail is handed out. */
  ghost function TakeTail(t: Tiling, k: nat, n: int): Tiling
    requires Good(t) && 1 <= k < |t.fl| && 1 <= n < t.size[t.fl[k]]
  {
    var p := t.fl[k];
    var h := p + t.size[p] - n;
    t.(size := t.size[p := t.size[p] - n][h := n],
       live := t.live[h := n],
       own := map u | u in t.own :: if h <= u < h + n then h else t.own[u])
  }

  lemma TakeTailFacts(t: Tiling, k: nat, n: int)
    requires Good(t) && 1 <= k < |t.fl| && 1 <= n < t.size[t.fl[k]]
    ensures
      var p := t.fl[k];
      var h := p + t.size[p] - n;
      var own' := TakeTail(t, k, n).own;
      && BASE < h && h !in t.fl && h !in t.live && own'.Keys == t.own.Keys
      && Covers(own', p, t.size[p] - n) && Covers(own', h, n)
      && forall g, m | Covers(t.own, g, m) && g != p :: Covers(own', g, m)
  {
    var p := t.fl[k];
    var h := p + t.size[p] - n;
    assert Covers(t.own, p, t.size[p]);
    assert h in t.own && t.own[h] == p && h != p;
    if h in t.live || (h in t.fl && h != BASE) {
      BlockOwnsItself(t, h);
    }
    assert t.fl[0] < t.fl[k];
    hide Good;
  }

  lemma TakeTailFree(t: Tiling, k: nat, n: int)
    requires Good(t) && 1 <= k < |t.fl| && 1 <= n < t.size[t.fl[k]]
    ensures FreeBlocks(TakeTail(t, k, n))
  {
    hide Covers, NoStray, LiveBlocks;
    TakeTailFacts(t, k, n);
    assert forall i | 0 <= i < |t.fl| && i != k :: t.fl[i] != t.fl[k];
    hide Ordered;
  }

  lemma TakeTailLive(t: Tiling, k: nat, n: int)
    requires Good(t) && 1 <= k < |t.fl| && 1 <= n < t.size[t.fl[k]]
    ensures LiveBlocks(TakeTail(t, k, n))
  {
    TakeTailFacts(t, k, n);
    assert t.fl[k] !in t.live;
    hide Covers, NoStray, FreeBlocks, Ordered;
  }

  lemma TakeTailNoStray(t: Tiling, k: nat, n: int)
    requires Good(t) && 1 <= k < |t.fl| && 1 <= n < t.size[t.fl[k]]
    ensures NoStray(TakeTail(t, k, n))
  {
    hide LiveBlocks, Covers;
    TakeTailFacts(t, k, n);
    var p := t.fl[k];
    var h := p + t.size[p] - n;
    var t' := TakeTail(t, k, n);
    assert t.fl[0] < t.fl[k];
    forall u | u in t'.own
      ensures BASE < t'.own[u] && (t'.own[u] in t'.fl || t'.own[u] in t'.live)
      ensures t'.own[u] in t'.size && t'.own[u] <= u < t'.own[u] + t'.size[t'.own[u]]
    {
      assert u in t.own && t.own[u] != h by { OwnsNoTail(t, k, n, u); }
    }
  }

  /** Nothing belonged to the tail before it was cut off. */
  lemma OwnsNoTail(t: Tiling, k: nat, n: int, u: int)
    requires Good(t) && 1 <= k < |t.fl| && 1 <= n < t.size[t.fl[k]] && u in t.own
    ensures t.own[u] != t.fl[k] + t.size[t.fl[k]] - n
  {
    TakeTailFacts(t, k, n);
    hide FreeBlocks, LiveBlocks;
  }

  lemma TakeTailGood(t: Tiling, k: nat, n: int)
    requires Good(t) && Coalesced(t) && 1 <= k < |t.fl| && 1 <= n < t.size[t.fl[k]]
    ensures Good(TakeTail(t, k, n)) && Coalesced(TakeTail(t, k, n))
  {
    var t' := TakeTail(t, k, n);
    TakeTailFree(t, k, n);
    TakeTailLive(t, k, n);
    TakeTailNoStray(t, k, n);
    TakeTailFacts(t, k, n);
    hide LiveBlocks, NoStray, Ordered, Covers;
    forall j | 0 <= j < |t'.fl| ensures Gap(t', j) {
      assert Gap(t, j);
    }
  }

  /** sbrk: nu fresh units, made into a block that free() will put on the list. */
  ghost function Obtain(t: Tiling, hp: int, nu: int): Tiling {
    t.(size := t.size[hp := nu],
       live := t.live[hp := nu],
       own := t.own + Region(hp, nu))
  }

  /** The n units from lo on, all belonging to the block at hp. */
  ghost function Region(hp: int, n: int): (r: map<int, int>)
    ensures forall u :: u in r <==> hp <= u < hp + n
    ensures forall u | u in r :: r[u] == hp
    decreases n
  {
    if n <= 0 then map[] else Region(hp, n - 1)[hp + n - 1 := hp]
  }

  ghost predicate Unowned(own: map<int, int>, hp: int, nu: int) {
    forall u | hp <= u < hp + nu :: u !in own
  }

  lemma ObtainFacts(t: Tiling, hp: int, nu: int)
    requires Good(t) && BASE < hp && 1 <= nu && Unowned(t.own, hp, nu)
    ensures hp !in t.live && hp !in t.fl
    ensures Covers(Obtain(t, hp, nu).own, hp, nu)
    ensures forall g, m | Covers(t.own, g, m) :: Covers(Obtain(t, hp, nu).own, g, m)
  {
    if hp in t.live || hp in t.fl {
      BlockOwnsItself(t, hp);
    }
    hide Good;
  }

  lemma ObtainNoStray(t: Tiling, hp: int, nu: int)
    requires Good(t) && BASE < hp && 1 <= nu && Unowned(t.own, hp, nu) && hp !in t.fl && hp !in t.live
    ensures NoStray(Obtain(t, hp, nu))
  {
    hide FreeBlocks, LiveBlocks, Ordered;
  }

  lemma ObtainGood(t: Tiling, hp: int, nu: int)
    requires Good(t) && Coalesced(t) && BASE < hp && 1 <= nu && Unowned(t.own, hp, nu)
    ensures Good(Obtain(t, hp, nu)) && Coalesced(Obtain(t, hp, nu))
    ensures hp !in t.live && hp !in t.fl
  {
    ObtainFacts(t, hp, nu);
    ObtainNoStray(t, hp, nu);
    hide Covers, NoStray, Ordered, Unowned, Region;
    var t' := Obtain(t, hp, nu);
    forall j | 0 <= j < |t'.fl| ensures Gap(t', j) {
      assert Gap(t, j);
    }
  }

  // ----- the links -----

  lemma PlaceDistinct(fl: seq<int>, i: nat, bp: int)
    requires Ordered(fl) && Place(fl, i, bp)
    ensures forall k | 0 <= k < |fl| :: fl[k] != bp && (k != i ==> fl[k] != fl[i])
  {
  }

  lemma InsertLinked(t: Tiling, i: nat, bp: int)
    requires Good(t) && Linked(t) && Place(t.fl, i, bp)
    ensures Linked(Insert(t, i, bp))
  {
    hide FreeBlocks, LiveBlocks, NoStray;
    var t' := Insert(t, i, bp);
    PlaceDistinct(t.fl, i, bp);
    hide Ordered, Good, Place, Inserted;
    forall k | 0 <= k < |t'.fl| ensures LinkAt(t', k) {
      assert LinkAt(t, if k <= i then k else k - 1);
    }
  }

  lemma MergeLinked(t: Tiling, j: nat)
    requires Good(t) && Linked(t) && 1 <= j && j + 1 < |t.fl|
    ensures Linked(Merge(t, j))
  {
    hide FreeBlocks, LiveBlocks, NoStray;
    var t' := Merge(t, j);
    MergeOrdered(t.fl, j);
    forall k | 0 <= k < |t'.fl| ensures LinkAt(t', k) {
      var k0 := if k <= j then k else k + 1;
      assert LinkAt(t, k0) && t'.fl[k] == t.fl[k0] && (k != j ==> t.fl[k0] != t.fl[j]);
      assert k + 1 < |t'.fl| ==> t'.fl[k + 1] == t.fl[if k + 1 <= j then k + 1 else k + 2];
    }
  }

  lemma FreedLinked(t: Tiling, i: nat, bp: int)
    requires Good(t) && Linked(t) && bp in t.live && Place(t.fl, i, bp)
    ensures Linked(Freed(t, i, bp))
  {
    InsertGood(t, i, bp);
    InsertLinked(t, i, bp);
    hide Linked, Insert, Merge;
    SettleLinked(Insert(t, i, bp), i + 1);
    SettleLinked(Settle(Insert(t, i, bp), i + 1), i);
  }

  lemma SettleLinked(t: Tiling, j: nat)
    requires Good(t) && Linked(t)
    ensures Linked(Settle(t, j))
  {
    if Touch(t, j) {
      MergeLinked(t, j);
    }
  }

  lemma TakeAllLinked(t: Tiling, k: nat)
    requires Good(t) && Linked(t) && 1 <= k < |t.fl|
    ensures Linked(TakeAll(t, k))
  {
    hide FreeBlocks, LiveBlocks, NoStray, Joined, Next;
    var t' := TakeAll(t, k);
    forall j | 0 <= j < |t'.fl| ensures LinkAt(t', j) {
      var j0 := if j <= k - 1 then j else j + 1;
      JoinedNext(t.fl, k - 1, j);
      assert LinkAt(t, j0) && (j != k - 1 ==> t.fl[j0] != t.fl[k - 1]);
    }
  }

  lemma JoinedNext(fl: seq<int>, j: nat, i: nat)
    requires j + 1 < |fl| && i + 1 < |fl|
    ensures |Joined(fl, j)| == |fl| - 1 && Joined(fl, j)[i] == fl[if i <= j then i else i + 1]
    ensures Next(Joined(fl, j), i) == Next(fl, if i < j then i else i + 1)
  {
  }

  // ----- the allocator -----

  datatype Option<T> = None | Some(value: T)

  const UINT := 0x1_0000_0000

  /** Units for nbytes bytes and a header, in 32-bit unsigned arithmetic. */
  function Units(nbytes: nat): nat {
    (nbytes + 7) % 0x1_0000_0000 / 8 + 1
  }

  /** The block malloc hands out has room for nbytes exactly when the rounding does not wrap. */
  lemma RoomUnlessWrapped(nbytes: nat)
    requires nbytes < UINT
    ensures 8 * (Units(nbytes) - 1) >= nbytes <==> nbytes + 7 < UINT
  {
  }

  ghost predicate Sound(t: Tiling) {
    Good(t) && Coalesced(t) && Linked(t)
  }

  /** Units a request makes morecore ask for. */
  function Request(nunits: nat): nat { if nunits < 4096 then 4096 else nunits }

  /** The index x steps after f on a circular list of n. */
  function Around(n: nat, f: nat, x: nat): nat
    requires f < n && x < n
  {
    if f + 1 + x < n then f + 1 + x else f + 1 + x - n
  }

  /** Blocks up to the x-th after freep are too small. */
  ghost predicate TooSmall(t: Tiling, f: nat, x: nat, nunits: nat)
    requires f < |t.fl| && x <= |t.fl| && FreeBlocks(t)
  {
    forall y | 0 <= y < x :: t.size[t.fl[Around(|t.fl|, f, y)]] < nunits
  }

  lemma AllTooSmall(t: Tiling, f: nat, nunits: nat, j: nat)
    requires f < |t.fl| && j < |t.fl| && FreeBlocks(t) && TooSmall(t, f, |t.fl|, nunits)
    ensures t.size[t.fl[j]] < nunits
  {
    var y := if j > f then j - f - 1 else j - f - 1 + |t.fl|;
    assert Around(|t.fl|, f, y) == j;
  }

  lemma PlaceExists(fl: seq<int>, bp: int) returns (i: nat)
    requires Ordered(fl) && BASE < bp && bp !in fl
    ensures Place(fl, i, bp)
  {
    i := 0;
    while i + 1 < |fl| && fl[i + 1] < bp
      invariant i < |fl| && fl[i] < bp
    {
      i := i + 1;
    }
  }

  class Allocator {
    var ptr: map<int, int>
    var size: map<int, int>
    var freep: int
    ghost var fl: seq<int>
    ghost var live: map<int, int>
    ghost var own: map<int, int>

    ghost function T(): Tiling
      reads this
    {
      Tiling(ptr, size, fl, live, own)
    }

    ghost predicate Valid()
      reads this
    {
      && (freep == NULL ==> fl == [] && live == map[] && own == map[])
      && (freep != NULL ==> Sound(T()) && freep in fl)
    }

    /** Before the first call. */
    constructor ()
      ensures Valid() && freep == NULL && fl == [] && live == map[] && own == map[]
    {
      ptr, size, freep, fl, live, own := map[], map[], NULL, [], map[], map[];
    }

    /** The search loop of free(): from freep around the list to the block below bp. */
    method FindPlace(bp: int) returns (p: int, ghost i: nat)
      requires Sound(T()) && freep in fl && BASE < bp && bp !in fl
      ensures Place(fl, i, bp) && i < |fl| && p == fl[i]
      ensures p in fl && p < bp && forall k | 0 <= k < |fl| && fl[k] < bp :: fl[k] <= p
    {
      ghost var goal := PlaceExists(fl, bp);
      p := freep;
      i :| 0 <= i < |fl| && fl[i] == freep;
      hide FreeBlocks, LiveBlocks, NoStray, Coalesced;
      assert LinkAt(T(), i);
      while !(bp > p && bp < ptr[p])
        invariant i < |fl| && p == fl[i] && LinkAt(T(), i)
        decreases if i <= goal then goal - i else goal + |fl| - i
      {
        if p >= ptr[p] && (bp > p || bp < ptr[p]) {
          break;
        }
        assert i != goal;
        p := ptr[p];
        i := if i + 1 < |fl| then i + 1 else 0;
        assert LinkAt(T(), i);
      }
    }

    /** Give a block back. It leaves the live blocks, no unit changes hands, and the list is again
        circular, in address order and free of touching neighbours. It is now part of the free block h,
        together with the neighbours it touched; every other free block is as before. The next search
        starts after the free block below it. */
    method Free(ap: int) returns (ghost h: int)
      requires Valid() && ap - 1 in live
      modifies this
      ensures Valid() && freep != NULL && LastBelow(old(fl), freep, ap - 1)
      ensures Grown(old(T()), T(), ap - 1, old(live[ap - 1]), h)
      ensures live == old(live) - {ap - 1}
      ensures own.Keys == old(own.Keys)
    {
      hide Good, Coalesced, Linked, Freed, Place, UpperFields, LowerFields, Grown, LastBelow;
      var bp := ap - 1;
      ghost var t := T();
      LiveIsAbove(t, bp);
      var p, i := FindPlace(bp);
      FoundBelow(fl, p, bp);
      PlaceFields(t, i, bp);
      FreedFields(t, i, bp);
      FreedCoalesced(t, i, bp);
      FreedLinked(t, i, bp);
      ghost var r := Freed(t, i, bp);
      h := FreedInto(t, i, bp);
      Attach(p, bp);
      freep := p;
      fl, live, own := r.fl, r.live, r.own;
      assert T() == r;
    }

    /** The two ifs of free(): join bp to the block above it, and to the block p below it. */
    method Attach(p: int, bp: int)
      requires bp in size && p in ptr && p in size && ptr[p] in ptr && ptr[p] in size
      modifies `ptr, `size
      ensures
        var f := UpperFields(old(ptr), old(size), bp, old(ptr[p]));
        p in f.1 && (ptr, size) == LowerFields(f.0, f.1, p, bp)
    {
      var next := ptr[p];
      if bp + size[bp] == next {
        size := size[bp := size[bp] + size[next]];
        ptr := ptr[bp := ptr[next]];
      } else {
        ptr := ptr[bp := next];
      }
      if p + size[p] == bp {
        size := size[p := size[p] + size[bp]];
        ptr := ptr[p := ptr[bp]];
      } else {
        ptr := ptr[p := bp];
      }
    }

    /** Get at least nunits from the system and put them on the list. `sbrk` stands for the address
        that the system call would return. */
    method Morecore(nunits: nat, sbrk: Option<int>) returns (p: int, ghost h: int)
      requires Valid() && freep != NULL
      requires sbrk.Some? ==> BASE < sbrk.value && Unowned(own, sbrk.value, Request(nunits))
      modifies this
      ensures Valid() && freep != NULL && live == old(live)
      ensures sbrk.None? ==> p == NULL && T() == old(T()) && freep == old(freep)
      ensures sbrk.Some? ==>
                && p == freep && LastBelow(old(fl), freep, sbrk.value)
                && Grown(old(T()), T(), sbrk.value, Request(nunits), h)
                && own.Keys == old(own.Keys) + Region(sbrk.value, Request(nunits)).Keys
    {
      hide Good, Coalesced, Unowned, Region, Linked, Grown, LastBelow;
      h := BASE;
      var nu := nunits;
      if nu < 4096 {
        nu := 4096;
      }
      if sbrk.None? {
        return NULL, h;
      }
      var hp := sbrk.value;
      ghost var t := T();
      ObtainSound(t, hp, nu);
      size := size[hp := nu];
      live, own := live[hp := nu], own + Region(hp, nu);
      h := Free(hp + 1);
      GrownFrom(t, T(), hp, nu, h);
      p := freep;
    }

    /** First fit from the block after freep. Returns NULL only if the system refused memory; else
        a new live block of exactly Units(nbytes) units, the tail of the free block b: the first one
        that is large enough, or the one the new memory went to. The next search starts after the free
        block below b. The system is asked at most once, and exactly when no free block is large
        enough. */
    method Malloc(nbytes: nat, sbrk: Option<int>) returns (r: int, ghost asked: nat, ghost b: int)
      requires Valid() && nbytes < UINT
      requires sbrk.Some? ==> BASE < sbrk.value && Unowned(own, sbrk.value, Request(Units(nbytes)))
      modifies this
      ensures Valid() && freep != NULL
      ensures asked <= 1
      ensures asked == 1 <==> old(freep) == NULL || !HasBig(old(T()), Units(nbytes))
      ensures r == NULL ==> asked == 1 && sbrk.None? && live == old(live) && own == old(own)
      ensures r != NULL && asked == 1 ==> sbrk.Some?
      ensures r != NULL ==>
                && r - 1 !in old(live) && live == old(live)[r - 1 := Units(nbytes)] && LastBelow(fl, freep, b)
                && own.Keys == old(own.Keys) + if asked == 0 then {} else Region(sbrk.value, Request(Units(nbytes))).Keys
      ensures r != NULL && asked == 0 ==>
                && FirstFit(old(T()), old(freep), Units(nbytes), b) && b in old(size)
                && r - 1 + Units(nbytes) == b + old(size)[b]
      ensures r != NULL && asked == 1 ==>
                && Joins(old(T()), sbrk.value, b)
                && r - 1 + Units(nbytes) == BlockEnd(old(T()), sbrk.value + Request(Units(nbytes)))
    {
      hide Good, Coalesced, Unowned, Region, Linked, LastBelow, FirstFit, Joins, BlockEnd, HasBig;
      ghost var t := T();
      var nunits := Units(nbytes);
      if freep == NULL {
        ptr, size, freep := ptr[BASE := BASE], size[BASE := 0], BASE;
        fl := [BASE];
        StartSound(T());
        NothingBig(T(), nunits);
        ghost var t0 := T();
        r, asked, b := Search(nunits, sbrk);
        if r != NULL {
          StartJoins(t, t0, sbrk.value, nunits, b);
        }
      } else {
        r, asked, b := Search(nunits, sbrk);
      }
    }

    /** The loop of malloc(). */
    method Search(nunits: nat, sbrk: Option<int>) returns (r: int, ghost asked: nat, ghost b: int)
      requires Valid() && freep != NULL && nunits >= 1
      requires sbrk.Some? ==> BASE < sbrk.value && Unowned(own, sbrk.value, Request(nunits))
      modifies this
      ensures Valid() && freep != NULL && asked <= 1
      ensures asked == 1 <==> !HasBig(old(T()), nunits)
      ensures r == NULL ==> asked == 1 && sbrk.None? && live == old(live) && own == old(own)
      ensures r != NULL && asked == 1 ==> sbrk.Some?
      ensures r != NULL ==>
                && r - 1 !in old(live) && live == old(live)[r - 1 := nunits] && LastBelow(fl, freep, b)
                && own.Keys == old(own.Keys) + if asked == 0 then {} else Region(sbrk.value, Request(nunits)).Keys
      ensures r != NULL && asked == 0 ==>
                FirstFit(old(T()), old(freep), nunits, b) && b in old(size) && r - 1 + nunits == b + old(size)[b]
      ensures r != NULL && asked == 1 ==>
                && Joins(old(T()), sbrk.value, b)
                && r - 1 + nunits == BlockEnd(old(T()), sbrk.value + Request(nunits))
    {
      hide Good, Coalesced, Unowned, Region, Linked, At, Grown, LastBelow, FirstFit, Joins, BlockEnd, HasBig;
      asked, b := 0, BASE;
      ghost var t0 := T();
      ghost var f := AtStart(t0, freep);
      ghost var x: nat := 0;
      var prevp := freep;
      var p := ptr[prevp];
      while true
        invariant Sound(T()) && freep in fl && live == old(live) && asked <= 1
        invariant asked == 0 ==>
                    && T() == t0 && freep == old(freep) && own == old(own)
                    && (sbrk.Some? ==> Unowned(own, sbrk.value, Request(nunits)))
        invariant asked == 1 ==>
                    sbrk.Some? && HasBig(T(), nunits) && !HasBig(t0, nunits) && Added(t0, T(), sbrk.value, nunits, b)
        invariant asked == 1 ==> own.Keys == old(own.Keys) + Region(sbrk.value, Request(nunits)).Keys
        invariant At(T(), freep, f, x, prevp, p, nunits)
        decreases 1 - asked, |fl| - x
      {
        AtFields(T(), freep, f, x, prevp, p, nunits);
        if size[p] >= nunits {
          FoundFirst(T(), freep, f, x, prevp, p, nunits);
          b := p;
          r := Carve(prevp, p, nunits, Around(|fl|, f, x));
          return;
        }
        if p == freep {
          AtEnd(T(), freep, f, x, prevp, p, nunits);
          p, b := Morecore(nunits, sbrk);
          asked := 1;
          if p == NULL {
            return NULL, asked, b;
          }
          GrownBig(t0, T(), sbrk.value, nunits, b);
          f := AtStart(T(), freep);
          x := 0;
          prevp, p := p, ptr[p];
        } else {
          AtStep(T(), freep, f, x, prevp, p, nunits);
          prevp, p := p, ptr[p];
          x := x + 1;
        }
      }
    }

    /** Hand out block k, or its tail. */
    method Carve(prevp: int, p0: int, nunits: nat, ghost k: nat) returns (r: int)
      requires Sound(T()) && 1 <= k < |fl| && p0 == fl[k] && prevp == fl[k - 1]
      requires 1 <= nunits && p0 in size && size[p0] >= nunits
      modifies this
      ensures Valid() && freep == prevp && freep != NULL && r > NULL && LastBelow(fl, freep, p0)
      ensures r - 1 + nunits == p0 + old(size)[p0]
      ensures r - 1 !in old(live) && live == old(live)[r - 1 := nunits] && own.Keys == old(own.Keys)
      ensures fl == if old(size)[p0] == nunits then old(fl[..k] + fl[k + 1..]) else old(fl)
    {
      hide Good, Coalesced, Linked, LastBelow;
      ghost var t := T();
      CarveFields(t, k, nunits);
      ghost var t' := Carved(t, k, nunits);
      var p := p0;
      if size[p] == nunits {
        ptr := ptr[prevp := ptr[p]];
      } else {
        size := size[p := size[p] - nunits];
        p := p + size[p];
        size := size[p := nunits];
      }
      CarvedList(t, k, nunits);
      fl, live, own := t'.fl, t'.live, t'.own;
      freep := prevp;
      r := p + 1;
    }
  }

  ghost function Carved(t: Tiling, k: nat, n: nat): (r: Tiling)
    requires Good(t) && 1 <= k < |t.fl| && 1 <= n <= t.size[t.fl[k]]
  {
    if t.size[t.fl[k]] == n then TakeAll(t, k) else TakeTail(t, k, n)
  }

  lemma CarvedList(t: Tiling, k: nat, n: nat)
    requires Good(t) && 1 <= k < |t.fl| && 1 <= n <= t.size[t.fl[k]]
    ensures Carved(t, k, n).fl == if t.size[t.fl[k]] == n then t.fl[..k] + t.fl[k + 1..] else t.fl
    ensures LastBelow(Carved(t, k, n).fl, t.fl[k - 1], t.fl[k])
  {
    hide FreeBlocks, LiveBlocks, NoStray;
    var fl := Carved(t, k, n).fl;
    assert fl[k - 1] == t.fl[k - 1];
    forall q | q in fl && q < t.fl[k] ensures q <= t.fl[k - 1] {
      var j :| 0 <= j < |t.fl| && t.fl[j] == q;
    }
  }

  lemma TakeTailLinked(t: Tiling, k: nat, n: int)
    requires Good(t) && Linked(t) && 1 <= k < |t.fl| && 1 <= n < t.size[t.fl[k]]
    ensures Linked(TakeTail(t, k, n))
  {
    forall i | 0 <= i < |t.fl| ensures LinkAt(TakeTail(t, k, n), i) { assert LinkAt(t, i); }
  }

  lemma CarveFields(t: Tiling, k: nat, n: nat)
    requires Sound(t) && 1 <= k < |t.fl| && t.fl[k] in t.size && 1 <= n <= t.size[t.fl[k]]
    ensures Good(t)
    ensures t.fl[k] in t.ptr && t.fl[k - 1] in t.ptr && t.ptr[t.fl[k]] == Next(t.fl, k)
    ensures
      var r := Carved(t, k, n);
      var h := t.fl[k] + t.size[t.fl[k]] - n;
      && Sound(r) && t.fl[k - 1] in r.fl && BASE <= t.fl[k - 1] && BASE < h
      && h !in t.live && r.live == t.live[h := n] && r.own.Keys == t.own.Keys
      && r.ptr == (if t.size[t.fl[k]] == n then t.ptr[t.fl[k - 1] := Next(t.fl, k)] else t.ptr)
      && r.size == (if t.size[t.fl[k]] == n then t.size else t.size[t.fl[k] := t.size[t.fl[k]] - n][h := n])
  {
    hide FreeBlocks, Coalesced, Linked, NoStray;
    LinkedAt(t, k);
    LinkedAt(t, k - 1);
    assert t.fl[0] < t.fl[k] && t.fl[0] <= t.fl[k - 1];
    hide Ordered;
    assert t.fl[k] !in t.live;
    hide LiveBlocks;
    if t.size[t.fl[k]] == n {
      TakeAllGood(t, k);
      TakeAllLinked(t, k);
      assert Joined(t.fl, k - 1)[k - 1] == t.fl[k - 1];
    } else {
      TakeTailGood(t, k, n);
      TakeTailFacts(t, k, n);
      TakeTailLinked(t, k, n);
    }
  }

  // ----- where malloc's scan stands -----

  ghost predicate HasBig(t: Tiling, nunits: nat) {
    exists h :: h in t.fl && h in t.size && t.size[h] >= nunits
  }

  /** Starting after freep, the search comes to free block c before it comes to b. */
  predicate Passed(freep: int, c: int, b: int) {
    if freep < b then freep < c < b else freep < c || c < b
  }

  /** b is the first block after freep that is large enough. */
  ghost predicate FirstFit(t: Tiling, freep: int, nunits: nat, b: int) {
    && b in t.fl && b in t.size && t.size[b] >= nunits
    && forall c | c in t.fl && c in t.size && Passed(freep, c, b) :: t.size[c] < nunits
  }

  /** The memory obtained went to block h, and no other is large enough. */
  ghost predicate Added(t: Tiling, r: Tiling, x: int, nunits: nat, h: int) {
    && Joins(t, x, h) && h in r.size && h + r.size[h] == BlockEnd(t, x + Request(nunits))
    && forall c | c in r.fl && c in r.size && r.size[c] >= nunits :: c == h
  }

  /** The list of one block that malloc starts with joins nothing. */
  lemma StartJoins(t: Tiling, t0: Tiling, x: int, nunits: nat, h: int)
    requires t.fl == [] && t0.fl == [BASE] && BASE in t0.size && t0.size[BASE] == 0 && BASE < x && Joins(t0, x, h)
    ensures Joins(t, x, h) && BlockEnd(t, x + Request(nunits)) == BlockEnd(t0, x + Request(nunits))
  {
  }

  lemma NothingBig(t: Tiling, nunits: nat)
    requires t.fl == [BASE] && BASE in t.size && t.size[BASE] == 0 && nunits >= 1
    ensures !HasBig(t, nunits)
  {
  }

  lemma GrownBig(t: Tiling, r: Tiling, x: int, nunits: nat, h: int)
    requires Grown(t, r, x, Request(nunits), h) && !HasBig(t, nunits) && Good(t)
    ensures Added(t, r, x, nunits, h) && HasBig(r, nunits)
  {
    hide LiveBlocks, NoStray, Ordered;
  }

  /** The scan stops at the first fit. */
  lemma FoundFirst(t: Tiling, freep: int, f: nat, x: nat, prevp: int, p: int, nunits: nat)
    requires At(t, freep, f, x, prevp, p, nunits) && p in t.size && t.size[p] >= nunits
    ensures FirstFit(t, freep, nunits, p) && HasBig(t, nunits)
  {
    hide LiveBlocks, NoStray;
    var n := |t.fl|;
    var k := Around(n, f, x);
    forall c | c in t.fl && c in t.size && Passed(freep, c, p) ensures t.size[c] < nunits {
      var j :| 0 <= j < n && t.fl[j] == c;
      var y := if j > f then j - f - 1 else j - f - 1 + n;
      assert Around(n, f, y) == j;
      assert y < x;
    }
  }

  /** p is the x-th block after freep (which is block f), prevp the one before it, and all blocks
      passed so far are too small. */
  ghost predicate At(t: Tiling, freep: int, f: nat, x: nat, prevp: int, p: int, nunits: nat) {
    && Good(t) && f < |t.fl| && x < |t.fl| && t.fl[f] == freep
    && var k := Around(|t.fl|, f, x);
    && p == t.fl[k]
    && prevp == t.fl[if k == 0 then |t.fl| - 1 else k - 1]
    && TooSmall(t, f, x, nunits)
  }

  lemma StartSound(t: Tiling)
    requires t.fl == [BASE] && t.live == map[] && t.own == map[]
    requires BASE in t.ptr && t.ptr[BASE] == BASE && BASE in t.size && t.size[BASE] == 0
    ensures Sound(t)
  {
  }

  lemma AtStart(t: Tiling, freep: int) returns (f: nat)
    requires Sound(t) && freep in t.fl
    ensures freep in t.ptr && forall nunits: nat :: At(t, freep, f, 0, freep, t.ptr[freep], nunits)
  {
    f :| 0 <= f < |t.fl| && t.fl[f] == freep;
    assert LinkAt(t, f);
  }

  lemma AtFields(t: Tiling, freep: int, f: nat, x: nat, prevp: int, p: int, nunits: nat)
    requires Linked(t) && At(t, freep, f, x, prevp, p, nunits) && nunits >= 1
    ensures p in t.ptr && p in t.size && f < |t.fl| && x < |t.fl| && p in t.fl && p > NULL
    ensures
      var k := Around(|t.fl|, f, x);
      t.size[p] >= nunits ==> 1 <= k < |t.fl| && p == t.fl[k] && prevp == t.fl[k - 1]
  {
    assert LinkAt(t, Around(|t.fl|, f, x));
    assert t.fl[0] <= p;
  }

  lemma AtStep(t: Tiling, freep: int, f: nat, x: nat, prevp: int, p: int, nunits: nat)
    requires Linked(t) && At(t, freep, f, x, prevp, p, nunits) && p in t.size && t.size[p] < nunits
    requires p != freep && p in t.ptr
    ensures x + 1 < |t.fl| && At(t, freep, f, x + 1, p, t.ptr[p], nunits)
  {
    var k := Around(|t.fl|, f, x);
    assert LinkAt(t, k);
    hide LiveBlocks, NoStray, Linked;
  }

  lemma AtEnd(t: Tiling, freep: int, f: nat, x: nat, prevp: int, p: int, nunits: nat)
    requires At(t, freep, f, x, prevp, p, nunits) && p in t.size && t.size[p] < nunits && p == freep
    ensures !HasBig(t, nunits)
  {
    var n := |t.fl|;
    assert Around(n, f, x) == f;
    assert x == n - 1;
    forall h | h in t.fl && h in t.size ensures t.size[h] < nunits {
      var j :| 0 <= j < n && t.fl[j] == h;
      AllTooSmall(t, f, nunits, j);
    }
  }

  lemma ObtainSound(t: Tiling, hp: int, nu: int)
    requires Sound(t) && BASE < hp && 1 <= nu && Unowned(t.own, hp, nu)
    ensures Sound(Obtain(t, hp, nu)) && t.live[hp := nu] - {hp} == t.live && hp !in t.fl
  {
    hide Good, Coalesced, Linked;
    ObtainGood(t, hp, nu);
    ObtainLinked(t, hp, nu);
  }

  lemma GrownFrom(t: Tiling, r: Tiling, hp: int, nu: int, h: int)
    requires Good(t) && hp !in t.fl && nu >= 1 && Grown(Obtain(t, hp, nu), r, hp, nu, h)
    ensures Grown(t, r, hp, nu, h)
  {
    hide LiveBlocks, NoStray;
  }

  lemma ObtainLinked(t: Tiling, hp: int, nu: int)
    requires Linked(t)
    ensures Linked(Obtain(t, hp, nu))
  {
    forall i | 0 <= i < |t.fl| ensures LinkAt(Obtain(t, hp, nu), i) { assert LinkAt(t, i); }
  }

  /** p is the last block of the list below x. */
  ghost predicate LastBelow(fl: seq<int>, p: int, x: int) {
    p in fl && p < x && forall q | q in fl && q < x :: q <= p
  }

  /** Where the block at x begins once it has joined the free block that ends at x, if there is one. */
  ghost predicate Joins(t: Tiling, x: int, h: int) {
    if h == x then forall q | q in t.fl && q in t.size :: q + t.size[q] != x
    else h in t.fl && h in t.size && h + t.size[h] == x
  }

  /** Where a block that ended at e ends once it has joined the free block at e, if there is one. */
  ghost function BlockEnd(t: Tiling, e: int): int {
    if e in t.fl && e in t.size then e + t.size[e] else e
  }

  /** n units from x on became free: they and the free blocks they touch are the free block h, and every
      other free block is as before. */
  ghost predicate Grown(t: Tiling, r: Tiling, x: int, n: int, h: int) {
    && h in r.fl && h in r.size && Joins(t, x, h) && h + r.size[h] == BlockEnd(t, x + n)
    && (forall q | q in r.fl && q != h :: q in t.fl && q in t.size && q in r.size && r.size[q] == t.size[q])
    && forall q | q in t.fl && q != x + n :: q in r.fl
  }

  lemma FoundBelow(fl: seq<int>, p: int, bp: int)
    requires p in fl && p < bp && forall k | 0 <= k < |fl| && fl[k] < bp :: fl[k] <= p
    ensures LastBelow(fl, p, bp)
  {
  }

  /** The free block that a freed block ends up in. */
  lemma FreedInto(t: Tiling, i: nat, bp: int) returns (h: int)
    requires Sound(t) && bp in t.live && Place(t.fl, i, bp)
    ensures Grown(t, Freed(t, i, bp), bp, t.live[bp], h)
  {
    hide Good, Coalesced, Linked, Freed, UpperFields, LowerFields, BlockEnd, Joins;
    PlaceFields(t, i, bp);
    FreedFields(t, i, bp);
    var p, next := t.fl[i], Next(t.fl, i);
    EndsBelow(t, i, bp);
    StartsAbove(t, i, bp);
    FreedList(t, i, bp);
    h := if p + t.size[p] == bp then p else bp;
    FieldSizes(t, i, bp);
    HaveSizes(t);
  }

  lemma HaveSizes(t: Tiling)
    requires Good(t)
    ensures forall q | q in t.fl :: q in t.size
  {
  }

  /** Only the block below can end where bp begins. */
  lemma EndsBelow(t: Tiling, i: nat, bp: int)
    requires Good(t) && bp in t.live && Place(t.fl, i, bp)
    ensures Joins(t, bp, if t.fl[i] + t.size[t.fl[i]] == bp then t.fl[i] else bp)
  {
    hide NoStray;
    forall j | 0 <= j < |t.fl| && j != i ensures t.fl[j] + t.size[t.fl[j]] != bp {
      if 1 <= j < i {
        BlocksApart(t, t.fl[j], t.size[t.fl[j]], t.fl[i], t.size[t.fl[i]]);
      }
    }
  }

  /** Only the block above can begin where bp ends. */
  lemma StartsAbove(t: Tiling, i: nat, bp: int)
    requires Good(t) && bp in t.live && Place(t.fl, i, bp)
    ensures bp in t.size && t.size[bp] == t.live[bp]
    ensures bp + t.live[bp] in t.fl <==> bp + t.live[bp] == Next(t.fl, i)
    ensures Next(t.fl, i) in t.size
    ensures BlockEnd(t, bp + t.live[bp]) ==
      bp + t.live[bp] + if bp + t.live[bp] == Next(t.fl, i) then t.size[Next(t.fl, i)] else 0
  {
    hide NoStray;
    var e := bp + t.live[bp];
    forall j | 0 <= j < |t.fl| && t.fl[j] == e ensures e == Next(t.fl, i) {
      assert j > i;
      if j > i + 1 {
        BlocksApart(t, bp, t.live[bp], t.fl[i + 1], t.size[t.fl[i + 1]]);
      }
    }
  }

  /** free() adds bp to the list unless the block below takes it in, and drops the block above if bp
      takes that in. */
  lemma FreedList(t: Tiling, i: nat, bp: int)
    requires Good(t) && bp in t.live && Place(t.fl, i, bp) && bp in t.size
    ensures
      var r := Freed(t, i, bp);
      var p, next := t.fl[i], Next(t.fl, i);
      && (forall q :: q in r.fl ==> q in t.fl || q == bp)
      && (bp in r.fl <==> p + t.size[p] != bp)
      && (forall q | q in t.fl && (q != next || bp + t.size[bp] != next) :: q in r.fl)
      && (bp + t.size[bp] == next ==> next !in r.fl)
  {
    InsertGood(t, i, bp);
    UpperTouch(t, i, bp);
    LowerTouch(t, i, bp);
    var t1 := Insert(t, i, bp);
    var t2 := Settle(t1, i + 1);
    hide FreeBlocks, LiveBlocks, NoStray;
    SettleList(t1, i + 1);
    SettleList(t2, i);
  }

  lemma SettleList(t: Tiling, j: nat)
    requires Good(t)
    ensures
      if Touch(t, j) then
        && (forall h :: h in t.fl <==> h in Settle(t, j).fl || h == t.fl[j + 1])
        && t.fl[j + 1] !in Settle(t, j).fl
      else Settle(t, j).fl == t.fl
  {
    if Touch(t, j) {
      MergeOrdered(t.fl, j);
    }
  }

  /** The sizes free() writes, block by block. */
  lemma FieldSizes(t: Tiling, i: nat, bp: int)
    requires Sound(t) && bp in t.live && Place(t.fl, i, bp)
    requires bp in t.size && Next(t.fl, i) in t.ptr && Next(t.fl, i) in t.size && t.fl[i] in t.size
    requires t.fl[i] in UpperFields(t.ptr, t.size, bp, Next(t.fl, i)).1
    ensures
      var p, next := t.fl[i], Next(t.fl, i);
      var f := UpperFields(t.ptr, t.size, bp, next);
      var size := LowerFields(f.0, f.1, p, bp).1;
      var n := t.size[bp] + if bp + t.size[bp] == next then t.size[next] else 0;
      && p in size && bp in size
      && (if p + t.size[p] == bp then size[p] == t.size[p] + n else size[bp] == n && size[p] == t.size[p])
      && forall q | q in t.size && q != p && q != bp :: q in size && size[q] == t.size[q]
  {
    hide Good, Coalesced, Linked;
    assert t.fl[i] < bp;
  }

  /** The header fields after free()'s first if: those of bp have been set. */
  function UpperFields(ptr: map<int, int>, size: map<int, int>, bp: int, next: int): (r: (map<int, int>, map<int, int>))
    requires bp in size && next in ptr && next in size
    ensures bp in r.0 && bp in r.1
  {
    if bp + size[bp] == next then (ptr[bp := ptr[next]], size[bp := size[bp] + size[next]])
    else (ptr[bp := next], size)
  }

  /** ... and after the second one, which sets those of the block below. */
  function LowerFields(ptr: map<int, int>, size: map<int, int>, p: int, bp: int): (map<int, int>, map<int, int>)
    requires bp in ptr && bp in size && p in size
  {
    if p + size[p] == bp then (ptr[p := ptr[bp]], size[p := size[p] + size[bp]])
    else (ptr[p := bp], size)
  }

  lemma PlaceFields(t: Tiling, i: nat, bp: int)
    requires Sound(t) && bp in t.live && Place(t.fl, i, bp)
    ensures
      i < |t.fl| &&
      var p, next := t.fl[i], Next(t.fl, i);
      && p in t.ptr && p in t.size && t.ptr[p] == next && next in t.ptr && next in t.size
      && BASE <= p < bp && bp in t.size && bp != next
  {
    LiveIsAbove(t, bp);
    assert LinkAt(t, i);
    assert LinkAt(t, if i + 1 < |t.fl| then i + 1 else 0);
    assert t.fl[0] <= t.fl[i];
    hide LiveBlocks, NoStray, Coalesced, Linked;
  }

  lemma UpperStep(t: Tiling, i: nat, bp: int)
    requires Sound(t) && bp in t.live && Place(t.fl, i, bp) && Good(Insert(t, i, bp))
    requires bp in t.size && Next(t.fl, i) in t.ptr && Next(t.fl, i) in t.size
    ensures
      var t2 := Settle(Insert(t, i, bp), i + 1);
      var f := UpperFields(t.ptr, t.size, bp, Next(t.fl, i));
      && t2.size == f.1
      && t2.ptr == f.0[t.fl[i] := bp]
      && Linked(t2)
  {
    hide Good, Coalesced, Linked, Merge;
    var t1 := Insert(t, i, bp);
    UpperTouch(t, i, bp);
    InsertLinked(t, i, bp);
    SettleLinked(t1, i + 1);
    if Touch(t1, i + 1) {
      UpperMerged(t, i, bp);
    }
  }

  lemma UpperMerged(t: Tiling, i: nat, bp: int)
    requires Linked(t) && Place(t.fl, i, bp) && Good(Insert(t, i, bp)) && i + 1 < |t.fl|
    requires bp in t.size && t.fl[i + 1] in t.ptr && t.fl[i + 1] in t.size
    ensures
      var t2 := Merge(Insert(t, i, bp), i + 1);
      && t2.size == t.size[bp := t.size[bp] + t.size[t.fl[i + 1]]]
      && t2.ptr == t.ptr[bp := t.ptr[t.fl[i + 1]]][t.fl[i] := bp]
  {
    hide Good, Linked;
    var t1 := Insert(t, i, bp);
    LinkedAt(t, i + 1);
    assert t1.fl[i + 1] == bp && t1.fl[i + 2] == t.fl[i + 1];
    assert Next(t1.fl, i + 2) == Next(t.fl, i + 1);
  }

  lemma LinkedAt(t: Tiling, i: nat)
    requires Linked(t) && i < |t.fl|
    ensures LinkAt(t, i)
  {
  }

  /** free() writes exactly the fields of the tiling Freed. */
  lemma FreedFields(t: Tiling, i: nat, bp: int)
    requires Sound(t) && bp in t.live && Place(t.fl, i, bp)
    requires bp in t.size && Next(t.fl, i) in t.ptr && Next(t.fl, i) in t.size && t.fl[i] in t.size
    ensures
      var f := UpperFields(t.ptr, t.size, bp, Next(t.fl, i));
      t.fl[i] in f.1 &&
      var g := LowerFields(f.0, f.1, t.fl[i], bp);
      var r := Freed(t, i, bp);
      r.ptr == g.0 && r.size == g.1 && t.fl[i] in r.fl
  {
    hide FreeBlocks, LiveBlocks, NoStray, Coalesced, Linked, Insert, Ordered, Settle;
    InsertGood(t, i, bp);
    UpperStep(t, i, bp);
    LowerTouch(t, i, bp);
    PlaceFields(t, i, bp);
    LowerStep(Settle(Insert(t, i, bp), i + 1), i, t.fl[i], bp);
  }

  lemma LowerStep(t2: Tiling, i: nat, p: int, bp: int)
    requires Good(t2) && Linked(t2) && i + 1 < |t2.fl| && t2.fl[i] == p && t2.fl[i + 1] == bp
    ensures p in t2.size && bp in t2.size && bp in t2.ptr && p in t2.ptr
    ensures
      var r := Settle(t2, i);
      && p in r.fl
      && r.size == (if Touch(t2, i) then t2.size[p := t2.size[p] + t2.size[bp]] else t2.size)
      && r.ptr == (if Touch(t2, i) then t2.ptr[p := t2.ptr[bp]] else t2.ptr)
  {
    assert LinkAt(t2, i) && LinkAt(t2, i + 1);
    assert Settle(t2, i).fl[i] == p;
    hide LiveBlocks, NoStray, Linked, Ordered;
  }

  lemma UpperTouch(t: Tiling, i: nat, bp: int)
    requires Good(t) && bp in t.live && Place(t.fl, i, bp) && bp in t.size
    requires Good(Insert(t, i, bp))
    ensures Touch(Insert(t, i, bp), i + 1) <==> bp + t.size[bp] == Next(t.fl, i)
  {
    var t1 := Insert(t, i, bp);
    assert t1.fl[i + 1] == bp;
    if i + 2 < |t1.fl| {
      assert t1.fl[i + 2] == t.fl[i + 1];
    }
  }

  lemma LowerTouch(t: Tiling, i: nat, bp: int)
    requires Good(t) && bp in t.live && Place(t.fl, i, bp) && bp in t.size
    requires Good(Insert(t, i, bp))
    ensures
      var t2 := Settle(Insert(t, i, bp), i + 1);
      && i + 1 < |t2.fl| && t2.fl[i] == t.fl[i] && t2.fl[i + 1] == bp
      && (Touch(t2, i) <==> t.fl[i] + t.size[t.fl[i]] == bp)
  {
    var t1 := Insert(t, i, bp);
    assert t1.fl[i + 1] == bp && t1.fl[i] == t.fl[i];
    hide LiveBlocks, NoStray;
  }

  lemma LiveIsAbove(t: Tiling, bp: int)
    requires Good(t) && bp in t.live
    ensures BASE < bp && bp !in t.fl && bp in t.size
  {
  }

  // ----- adding up -----

  ghost function Total(m: map<nat, int>): int {
    if m == map[] then 0
    else
      var h :| h in m;
      m[h] + Total(m - {h})
  }

  /** The units belonging to blocks in bs. */
  ghost function UnitsIn(own: map<int, int>, bs: map<nat, int>): set<int> {
    set u | u in own && own[u] in bs
  }

  lemma {:induction false} RegionCard(hp: int, n: nat)
    ensures |Region(hp, n).Keys| == n
  {
    if n > 0 {
      RegionCard(hp, n - 1);
      assert Region(hp, n).Keys == Region(hp, n - 1).Keys + {hp + n - 1};
    }
  }

  /** bs maps headers of blocks to their sizes. */
  ghost predicate AreBlocks(t: Tiling, bs: map<nat, int>) {
    forall h | h in bs :: h in t.size && bs[h] == t.size[h] >= 0 && Covers(t.own, h, bs[h])
  }

  lemma UnitsOfOne(t: Tiling, bs: map<nat, int>, h: nat)
    requires NoStray(t) && AreBlocks(t, bs) && h in bs
    ensures |UnitsIn(t.own, bs)| == bs[h] + |UnitsIn(t.own, bs - {h})|
  {
    assert bs[h] >= 0;
    hide NoStray, AreBlocks, UnitsIn, Region;
    RegionCard(h, bs[h]);
    UnitsOf(t, bs, h);
    UnitsSplit(t.own, bs, h, Region(h, bs[h]).Keys);
  }

  lemma UnitsSplit(own: map<int, int>, bs: map<nat, int>, h: nat, mine: set<int>)
    requires h in bs && forall u :: u in mine <==> u in own && own[u] == h
    ensures |UnitsIn(own, bs)| == |mine| + |UnitsIn(own, bs - {h})|
  {
    var rest := UnitsIn(own, bs - {h});
    forall u
      ensures u in UnitsIn(own, bs) <==> u in mine || u in rest
      ensures !(u in mine && u in rest)
    {
      assert u in mine <==> u in own && own[u] == h;
      assert u in own ==> (own[u] in bs <==> own[u] == h || own[u] in bs - {h});
    }
    assert UnitsIn(own, bs) == mine + rest;
    assert mine !! rest;
  }

  lemma UnitsOf(t: Tiling, bs: map<nat, int>, h: nat)
    requires NoStray(t) && AreBlocks(t, bs) && h in bs
    ensures forall u :: u in Region(h, bs[h]).Keys <==> u in t.own && t.own[u] == h
  {
    assert Covers(t.own, h, bs[h]);
  }

  lemma {:induction false} UnitsAddUpFor(t: Tiling, bs: map<nat, int>)
    requires NoStray(t) && AreBlocks(t, bs)
    ensures |UnitsIn(t.own, bs)| == Total(bs)
    decreases |bs|
  {
    if bs == map[] {
      assert UnitsIn(t.own, bs) == {};
    } else {
      var h :| h in bs && Total(bs) == bs[h] + Total(bs - {h});
      UnitsAddUpFor(t, bs - {h});
      UnitsOfOne(t, bs, h);
    }
  }

  /** All blocks with their sizes: the free ones other than base, and the live ones. */
  ghost function Blocks(t: Tiling): map<nat, int>
    requires FreeBlocks(t)
  {
    (map h: nat | h in t.fl && h != BASE :: t.size[h]) + (map h: nat | h in t.live :: t.live[h])
  }

  /** Conservation: the units of the free blocks and of the live blocks add up to the units
      obtained from the system; no block is both. */
  lemma UnitsAddUp(t: Tiling)
    requires Good(t)
    ensures |t.own.Keys| == Total(Blocks(t))
    ensures forall h | h in t.live :: h !in t.fl
  {
    var bs := Blocks(t);
    forall h | h in bs ensures h in t.size && bs[h] == t.size[h] >= 0 && Covers(t.own, h, bs[h]) {
      if h !in t.live {
        var i :| 0 <= i < |t.fl| && t.fl[i] == h;
        assert i != 0;
      }
    }
    UnitsAddUpFor(t, bs);
    forall u | u in t.own ensures t.own[u] in bs {
      assert t.own[u] > BASE;
    }
    assert UnitsIn(t.own, bs) == t.own.Keys;
  }

  /** malloc passes sbrk a count that fits a signed int exactly when it needs less than 2^31 bytes
      after rounding; requests at or above that, unless the rounding wraps, reach sbrk negative or
      as zero. */
  lemma SbrkArgument(nbytes: nat)
    requires nbytes < UINT
    ensures 8 * Request(Units(nbytes)) < 0x8000_0000 <==> nbytes + 7 < 0x7fff_fff8 || nbytes + 7 >= UINT
  {
  }
}
