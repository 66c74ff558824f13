/** The frame allocator of src/kalloc.c and the page table code of src/vm.c. */
module VmOps {
  import opened VmModel

  type Bytes = seq<bv8>

  function Fill(b: bv8): Bytes { seq(4096, _ => b) }

  datatype Outcome = Done | NoMemory | Panicked

  /** Frames, their holders and their contents at one moment. */
  datatype Snap = Snap(s: Mem, own: map<nat, Owner>, mem: map<nat, Bytes>)

  ghost predicate Good(a: Snap) {
    Inv(a.s, a.own) && forall f | f in a.own :: f in a.mem
  }

  /** The managed frames are the same, and every frame that was in use, other than those in fs,
      keeps its holder and its contents. */
  ghost predicate KeptBut(a: Snap, b: Snap, fs: set<nat>) {
    && a.own.Keys == b.own.Keys
    && forall f | f in a.own && !a.own[f].FreeList? && f !in fs :: KeptAt(a, b, f)
  }

  ghost predicate KeptAt(a: Snap, b: Snap, f: nat)
    requires f in a.own
  {
    f in b.own && b.own[f] == a.own[f] && (f in a.mem ==> f in b.mem && b.mem[f] == a.mem[f])
  }

  ghost predicate Kept(a: Snap, b: Snap) { KeptBut(a, b, {}) }

  lemma KeptTwice(a: Snap, b: Snap, c: Snap, fs: set<nat>)
    requires KeptBut(a, b, fs) && KeptBut(b, c, fs) && Good(a)
    ensures KeptBut(a, c, fs)
  {
    forall f | f in a.own && !a.own[f].FreeList? && f !in fs ensures KeptAt(a, c, f) {
      assert KeptAt(a, b, f) && KeptAt(b, c, f);
    }
  }

  /** The tables a directory had are still its tables. */
  lemma TablesKept(a: Snap, b: Snap, fs: set<nat>, d: nat, x: nat)
    requires Good(a) && Good(b) && KeptBut(a, b, fs) && fs <= a.s.held
    requires d in a.s.spaces && x in a.s.spaces[d].tables
    ensures d in b.s.spaces && x in b.s.spaces[d].tables && b.s.spaces[d].tables[x] == a.s.spaces[d].tables[x]
  {
    var f := a.s.spaces[d].tables[x];
    assert Has(a.s, Table(d, x), f);
    assert !Has(a.s, Held, f);
    assert KeptAt(a, b, f);
    assert Has(b.s, Table(d, x), f);
  }

  /** The entry that mappages stores: PTE_E in the permissions keeps PTE_P clear. */
  function Entry(frame: nat, perm: Pte): Pte {
    perm.(frame := frame, p := !perm.e)
  }

  function EntryAt(v: nat, first: nat, frame: nat, perm: Pte): Pte
    requires v >= first
  {
    Entry(frame + (v - first), perm)
  }

  function Run(first: nat, n: nat, frame: nat, perm: Pte): map<nat, Pte> {
    map v: nat | first <= v < first + n :: EntryAt(v, first, frame, perm)
  }

  /** The frames of the user pages among n pages from first on, mapped from frame on. */
  function UserFrames(first: nat, n: nat, frame: nat): set<nat> {
    set f: nat | frame <= f < frame + n && ForUser(f, first, frame)
  }

  predicate ForUser(f: nat, first: nat, frame: nat) { first + (f - frame) < USERPAGES }

  /** n pages from first on are mapped to n frames from frame on; nothing else of d is changed
      but for page tables that were added. */
  ghost predicate Maps(a: Snap, b: Snap, d: nat, first: nat, n: nat, frame: nat, perm: Pte) {
    && d in a.s.spaces && d in b.s.spaces
    && b.s.spaces == a.s.spaces[d := b.s.spaces[d]]
    && b.s.spaces[d].ptes == a.s.spaces[d].ptes + Run(first, n, frame, perm)
    && (forall v | first <= v < first + n :: v !in a.s.spaces[d].ptes)
    && b.s.held == a.s.held - UserFrames(first, n, frame)
    && KeptBut(a, b, UserFrames(first, n, frame))
    && forall f | f in a.own && !a.own[f].FreeList? :: UsedStill(a, b, f)
  }

  ghost predicate UsedStill(a: Snap, b: Snap, f: nat)
    requires f in a.own
  {
    f in b.own && !b.own[f].FreeList? && (f in a.mem ==> f in b.mem && b.mem[f] == a.mem[f])
  }

  lemma RunMore(first: nat, n: nat, frame: nat, perm: Pte)
    ensures Run(first, n + 1, frame, perm) == Run(first, n, frame, perm) + Run(first + n, 1, frame + n, perm)
    ensures UserFrames(first, n + 1, frame) == UserFrames(first, n, frame) + UserFrames(first + n, 1, frame + n)
    ensures forall v :: v in Run(first, n, frame, perm) <==> first <= v < first + n
  {
  }

  lemma MapsOneMore(a: Snap, b: Snap, c: Snap, d: nat, first: nat, n: nat, frame: nat, perm: Pte)
    requires Good(a) && Maps(a, b, d, first, n, frame, perm) && Maps(b, c, d, first + n, 1, frame + n, perm)
    ensures Maps(a, c, d, first, n + 1, frame, perm)
  {
    hide Good, Run, UserFrames, Entry;
    RunMore(first, n, frame, perm);
    var hs := UserFrames(first, n + 1, frame);
    assert KeptBut(a, b, hs) && KeptBut(b, c, hs);
    KeptTwice(a, b, c, hs);
    forall f | f in a.own && !a.own[f].FreeList? ensures UsedStill(a, c, f) {
      assert UsedStill(a, b, f) && UsedStill(b, c, f);
    }
  }

  // ----- counting frames -----

  /** The directory entries that the pages lo up to hi need. */
  ghost function TablesOf(lo: nat, hi: nat): set<nat> { set v: nat | lo <= v < hi :: Dir(v) }

  function Dir(v: nat): nat { v / 1024 }

  /** From a to b, d got page tables for the entries ts, and these and `pages` frames besides came from
      the free list. */
  ghost predicate Spent(a: Snap, b: Snap, d: nat, ts: set<nat>, pages: nat) {
    && d in a.s.spaces && d in b.s.spaces
    && b.s.spaces[d].tables.Keys == a.s.spaces[d].tables.Keys + ts
    && |b.s.free| + |b.s.spaces[d].tables.Keys| + pages == |a.s.free| + |a.s.spaces[d].tables.Keys|
  }

  /** The frames that takes. */
  ghost function Need(a: Snap, d: nat, ts: set<nat>, pages: nat): nat
    requires d in a.s.spaces
  {
    pages + |ts - a.s.spaces[d].tables.Keys|
  }

  lemma SpentNothing(a: Snap, d: nat)
    requires d in a.s.spaces
    ensures Spent(a, a, d, {}, 0)
  {
  }

  lemma SpentMore(a: Snap, b: Snap, c: Snap, d: nat, ts: set<nat>, ts': set<nat>, p: nat, p': nat)
    requires Spent(a, b, d, ts, p) && Spent(b, c, d, ts', p')
    ensures Spent(a, c, d, ts + ts', p + p')
  {
  }

  lemma SpentIsNeeded(a: Snap, b: Snap, d: nat, ts: set<nat>, pages: nat)
    requires Spent(a, b, d, ts, pages)
    ensures |a.s.free| == |b.s.free| + Need(a, d, ts, pages)
  {
    var have := a.s.spaces[d].tables.Keys;
    assert have + ts == have + (ts - have);
  }

  /** With the free list empty and more to do, there were too few frames from the start. */
  lemma RunsOut(a: Snap, b: Snap, d: nat, ts: set<nat>, pages: nat, all: set<nat>, total: nat, x: nat)
    requires Spent(a, b, d, ts, pages) && b.s.free == [] && ts <= all && pages <= total
    requires pages < total || (x in all && x !in b.s.spaces[d].tables)
    ensures |a.s.free| < Need(a, d, all, total)
  {
    var have := a.s.spaces[d].tables.Keys;
    SpentIsNeeded(a, b, d, ts, pages);
    assert all - have == (ts - have) + (all - have - ts);
    if pages == total {
      assert x in all - have - ts;
    }
  }

  /** One more page was mapped, with its table. */
  lemma SpentPage(a: Snap, b: Snap, c: Snap, d: nat, lo: nat, k: nat, pages: nat)
    requires lo <= k && Spent(a, b, d, TablesOf(lo, k), pages) && Spent(b, c, d, TablesOf(k, k + 1), 0)
    ensures Spent(a, c, d, TablesOf(lo, k + 1), pages)
  {
    hide Spent, TablesOf, Dir;
    TablesMore(lo, k);
    OneTable(k);
    SpentMore(a, b, c, d, TablesOf(lo, k), {Dir(k)}, pages, 0);
  }

  /** Without memory for the table of page k, no more pages fit. */
  lemma NoTable(a: Snap, b: Snap, c: Snap, d: nat, lo: nat, k: nat, hi: nat, pages: nat)
    requires lo <= k < hi && pages <= hi - lo && Spent(a, b, d, TablesOf(lo, k), pages) && Spent(b, c, d, TablesOf(k, k), 0)
    requires c.s.free == [] && d in c.s.spaces && Dir(k) !in c.s.spaces[d].tables
    ensures d in a.s.spaces && |a.s.free| < Need(a, d, TablesOf(lo, hi), hi - lo)
  {
    hide Spent, Need, Dir;
    SpentSpace(a, b, d, TablesOf(lo, k), pages);
    SpentMore(a, b, c, d, TablesOf(lo, k), TablesOf(k, k), pages, 0);
    assert TablesOf(lo, k) + TablesOf(k, k) == TablesOf(lo, k);
    assert Dir(k) in TablesOf(lo, hi);
    RunsOut(a, c, d, TablesOf(lo, k), pages, TablesOf(lo, hi), hi - lo, Dir(k));
  }

  lemma SpentSpace(a: Snap, b: Snap, d: nat, ts: set<nat>, pages: nat)
    requires Spent(a, b, d, ts, pages)
    ensures d in a.s.spaces && d in b.s.spaces
  {
  }

  /** One more frame was taken for a page. */
  lemma SpentTaken(a: Snap, b: Snap, c: Snap, d: nat, ts: set<nat>, pages: nat)
    requires Spent(a, b, d, ts, pages) && b.s.free != [] && c.s == Take(b.s)
    ensures Spent(a, c, d, ts, pages + 1)
  {
  }

  lemma TablesMore(lo: nat, hi: nat)
    requires lo <= hi
    ensures TablesOf(lo, hi + 1) == TablesOf(lo, hi) + {Dir(hi)} && TablesOf(lo, lo) == {}
  {
    forall x | x in TablesOf(lo, hi + 1) ensures x in TablesOf(lo, hi) + {Dir(hi)} {
      var v: nat :| lo <= v < hi + 1 && Dir(v) == x;
    }
    assert Dir(hi) in TablesOf(lo, hi + 1);
  }

  lemma OneTable(k: nat)
    ensures TablesOf(k, k + 1) == {Dir(k)}
  {
    hide Dir;
    TablesMore(k, k);
  }

  lemma TablesWithin(lo: nat, k: nat, hi: nat)
    requires lo <= k <= hi
    ensures TablesOf(lo, k) <= TablesOf(lo, hi) && (k < hi ==> Dir(k) in TablesOf(lo, hi))
  {
  }

  class Vm {
    var freelist: seq<nat>            // head of the list last
    var spaces: map<nat, Space>
    var mem: map<nat, Bytes>
    ghost var held: set<nat>
    ghost var own: map<nat, Owner>

    ghost function St(): Mem
      reads this
    {
      Mem(freelist, spaces, held)
    }

    ghost function Now(): Snap
      reads this
    {
      Snap(St(), own, mem)
    }

    ghost predicate Valid()
      reads this
    {
      Good(Now())
    }

    /** At the start the n frames from first on are freed one by one. */
    constructor (first: nat, n: nat)
      ensures Valid() && spaces == map[] && held == {}
      ensures |freelist| == n && forall f :: f in own <==> first <= f < first + n
    {
      freelist, spaces, mem := [], map[], map[];
      held, own := {}, map[];
      new;
      for i := 0 to n
        invariant spaces == map[] && held == {} && |freelist| == i
        invariant forall j | 0 <= j < i :: freelist[j] == first + j
        invariant forall f :: f in own <==> first <= f < first + i
        invariant forall f | f in own :: own[f] == FreeList(f - first) && f in mem
      {
        mem := mem[first + i := Fill(1)];
        freelist := freelist + [first + i];
        own := own[first + i := FreeList(i)];
      }
    }

    method Kalloc() returns (r: Option<nat>)
      requires Valid()
      modifies this
      ensures Valid()
      ensures r.None? <==> old(freelist) == []
      ensures r.None? ==> Now() == old(Now())
      ensures r.Some? ==>
        && r.value == old(freelist)[|old(freelist)| - 1] && r.value in old(own)
        && Now() == Snap(Take(old(St())), old(own)[r.value := Held], old(mem))
        && Kept(old(Now()), Now())
    {
      if freelist == [] {
        return None;
      }
      TakeKeeps(St(), own);
      var n := |freelist| - 1;
      var f := freelist[n];
      assert Has(St(), FreeList(n), f);
      freelist := freelist[..n];
      held := held + {f};
      own := own[f := Held];
      return Some(f);
    }

    method Kfree(f: nat)
      requires Valid() && f in held
      modifies this
      ensures Valid() && f in old(own)
      ensures Now() == Snap(Give(old(St()), f), old(own)[f := FreeList(|old(freelist)|)], old(mem)[f := Fill(1)])
      ensures KeptBut(old(Now()), Now(), {f})
    {
      GiveKeeps(St(), own, f);
      mem := mem[f := Fill(1)];
      own := own[f := FreeList(|freelist|)];
      held := held - {f};
      freelist := freelist + [f];
    }

    /** Finds the page table for page v, creating it if asked to. */
    method Walkpgdir(d: nat, v: nat, alloc: bool) returns (ok: bool)
      requires Valid() && d in spaces && v < ALLPAGES
      modifies this
      ensures Valid() && Kept(old(Now()), Now())
      ensures d in spaces && spaces == old(spaces)[d := spaces[d]] && spaces[d].ptes == old(spaces)[d].ptes
      ensures held == old(held)
      ensures ok <==> v / 1024 in spaces[d].tables
      ensures v / 1024 in old(spaces)[d].tables || !alloc ==> Now() == old(Now())
      ensures !ok ==> Now() == old(Now()) && (alloc ==> freelist == [])
      ensures ok ==> Spent(old(Now()), Now(), d, {Dir(v)}, 0)
    {
      hide Owns, SpacesOk;
      ghost var a := Now();
      if v / 1024 in spaces[d].tables {
        assert spaces[d].tables.Keys + {Dir(v)} == spaces[d].tables.Keys;
        return true;
      }
      if !alloc {
        return false;
      }
      var r := Kalloc();
      if r.None? {
        return false;
      }
      var f := r.value;
      ghost var b := Now();
      mem := mem[f := Fill(0)];
      AddTableKeeps(St(), own, d, v / 1024, f);
      TakenIsNew(a, f);
      spaces := spaces[d := spaces[d].(tables := spaces[d].tables[v / 1024 := f])];
      held := held - {f};
      own := own[f := Table(d, v / 1024)];
      ok := true;
    }

    /** Maps page v to frame. */
    method MapOne(d: nat, v: nat, frame: nat, perm: Pte) returns (r: Outcome)
      requires Valid() && d in spaces && v < ALLPAGES
      requires if v < USERPAGES then frame in held else !perm.u && !perm.e
      modifies this
      ensures Valid() && d in spaces
      ensures Maps(old(Now()), Now(), d, v, if r.Done? then 1 else 0, frame, perm)
      ensures r.Panicked? <==> v in old(spaces)[d].ptes
      ensures r.NoMemory? ==> freelist == [] && Now() == old(Now()) && Dir(v) !in spaces[d].tables
      ensures !r.NoMemory? ==> Spent(old(Now()), Now(), d, {Dir(v)}, 0)
    {
      hide Owns, SpacesOk, Good, Maps, KeptBut;
      ghost var a := Now();
      Missing(a, d, v);
      NothingMapped(a, d, v, frame, perm);
      var ok := Walkpgdir(d, v, true);
      if !ok {
        return NoMemory;
      }
      if v in spaces[d].ptes && InUse(spaces[d].ptes[v]) {
        return Panicked;
      }
      Missing(Now(), d, v);
      ghost var b := Now();
      spaces := spaces[d := spaces[d].(ptes := spaces[d].ptes[v := Entry(frame, perm)])];
      if v < USERPAGES {
        held := held - {frame};
        own := own[frame := Page(d, v)];
      }
      Stored(a, b, Now(), d, v, frame, perm);
      r := Done;
    }

    /** Maps the pages first to last to consecutive frames; n says how many were mapped. */
    method Mappages(d: nat, first: nat, last: nat, frame: nat, perm: Pte) returns (r: Outcome, ghost n: nat)
      requires Valid() && d in spaces && first <= last < ALLPAGES
      requires UserFrames(first, last - first + 1, frame) <= held
      requires last >= USERPAGES ==> !perm.u && !perm.e
      modifies this
      ensures Valid() && d in spaces && n <= last - first + 1
      ensures Maps(old(Now()), Now(), d, first, n, frame, perm)
      ensures r.Done? <==> n == last - first + 1
      ensures r.Panicked? ==> first + n in old(spaces)[d].ptes
      ensures r.NoMemory? ==>
                && freelist == [] && first + n !in old(spaces)[d].ptes && Dir(first + n) !in spaces[d].tables
      ensures !r.Panicked? ==> Spent(old(Now()), Now(), d, TablesOf(first, first + n), 0)
    {
      hide Owns, SpacesOk, Good, KeptBut, Maps, UserFrames, Run, Spent, TablesOf, Dir;
      ghost var a := Now();
      var v, f := first, frame;
      n := 0;
      SpentNothing(a, d);
      TablesMore(first, first);
      NothingMapped(a, d, first, frame, perm);
      while true
        invariant Valid() && d in spaces && v == first + n <= last && f == frame + n
        invariant Maps(a, Now(), d, first, n, frame, perm)
        invariant Spent(a, Now(), d, TablesOf(first, first + n), 0)
        decreases last - v
      {
        ghost var b := Now();
        StillHeld(a, b, d, first, n, frame, perm, last);
        r := MapOne(d, v, f, perm);
        if !r.Done? {
          MapsNoMore(a, b, Now(), d, first, n, frame, perm, v, f);
          return;
        }
        MapsOneMore(a, b, Now(), d, first, n, frame, perm);
        OneTable(first + n);
        SpentPage(a, b, Now(), d, first, first + n, 0);
        n := n + 1;
        if v == last {
          return;
        }
        v := v + 1;
        f := f + 1;
      }
    }

    method FreeOne(d: nat, v: nat)
      requires Valid() && d in spaces && v < USERPAGES && v in spaces[d].ptes
      modifies this
      ensures Valid() && St() == FreePage(old(St()), d, v)
      ensures Freed(old(Now()), Now(), d, v, v + 1)
    {
      ghost var a := Now();
      var f := spaces[d].ptes[v].frame;
      DropPageKeeps(St(), own, d, v);
      assert Has(St(), Page(d, v), f);
      spaces := spaces[d := spaces[d].(ptes := spaces[d].ptes - {v})];
      held := held + {f};
      own := own[f := Held];
      Kfree(f);
      forall g | g in a.own ensures InRange(a.own[g], d, v, v + 1) <==> g == f {
        assert Has(a.s, a.own[g], g);
      }
    }

    /** Frees the user pages of d, its page tables and its directory. */
    method Freevm(d: nat)
      requires Valid() && d in spaces
      modifies this
      ensures Valid() && spaces == old(spaces) - {d} && held == old(held)
      ensures FreedSpace(old(Now()), Now(), d)
    {
      hide Owns, SpacesOk, Good, FreePage, FreedSpace, Freed, Returned, Loose, KeptBut, Scan, NoUserPages, Frames;
      ghost var a := Now();
      var sz := Deallocuvm(d, KERNBASE, 0);
      NoUsersLeft(a, Now(), d);
      ghost var b := Now();
      var sp := spaces[d];
      held := held + {d} + sp.tables.Values;
      own := map f | f in own :: if f in Frames(b.s, d) then Held else own[f];
      spaces := spaces - {d};
      Detached(b, Now(), d);
      ghost var c := Now();
      NoneReturned(c, sp.tables);
      for i := 0 to 1024
        invariant Valid() && spaces == c.s.spaces
        invariant Returned(c, Now(), sp.tables, i)
      {
        if i in sp.tables {
          StillDetached(b, c, Now(), d, i);
          ghost var now := Now();
          Kfree(sp.tables[i]);
          ReturnedMore(c, now, Now(), sp.tables, i, FreeList(|now.s.free|), Fill(1));
        } else {
          ReturnedSame(c, Now(), sp.tables, i);
        }
      }
      DirectoryLast(b, c, Now(), d);
      ghost var e := Now();
      Kfree(d);
      AllFreed(a, b, c, e, Now(), d, FreeList(|e.s.free|), Fill(1));
    }

    /** One turn of the loop in allocuvm: a zeroed frame, mapped at page k. Without memory for the page
        table the frame m is left in the caller's hands. */
    method GrowPage(d: nat, k: nat, ghost a0: Snap, ghost lo: nat) returns (r: Outcome, m: Option<nat>)
      requires Valid() && d in spaces && lo <= k < USERPAGES && Good(a0)
      requires Grew(a0, Now(), d, lo, k, {}) && Spent(a0, Now(), d, TablesOf(lo, k), k - lo)
      modifies this
      ensures Valid() && d in spaces && d in a0.s.spaces
      ensures r.Done? ==> Grew(a0, Now(), d, lo, k + 1, {}) && Spent(a0, Now(), d, TablesOf(lo, k + 1), k + 1 - lo)
      ensures r.Panicked? ==> k in a0.s.spaces[d].ptes && |a0.s.free| > Need(a0, d, TablesOf(lo, k), k - lo)
      ensures r.NoMemory? ==>
                && Grew(a0, Now(), d, lo, k, Taken(m)) && (m.Some? ==> m.value in held)
                && |a0.s.free| < Need(a0, d, TablesOf(lo, k + 1), k + 1 - lo)
                && (k in a0.s.spaces[d].ptes ==> |a0.s.free| <= Need(a0, d, TablesOf(lo, k), k - lo))
    {
      hide Owns, SpacesOk, Good, KeptBut, Kept, Freed, Grew, Maps, Spent, TablesOf, Need, Dir;
      ghost var b0 := Now();
      SpaceThere(a0, b0, d, lo, k, {});
      SpentIsNeeded(a0, b0, d, TablesOf(lo, k), k - lo);
      m := Kalloc();
      if m.None? {
        TablesWithin(lo, k, k + 1);
        RunsOut(a0, b0, d, TablesOf(lo, k), k - lo, TablesOf(lo, k + 1), k + 1 - lo, 0);
        return NoMemory, None;
      }
      mem := mem[m.value := Fill(0)];
      GrewTaken(a0, b0, Now(), d, lo, k, m.value);
      SpentTaken(a0, b0, Now(), d, TablesOf(lo, k), k - lo);
      r := GrowInto(d, k, m.value, a0, lo);
    }

    /** The second half of that turn: the zeroed frame f goes to page k. */
    method GrowInto(d: nat, k: nat, f: nat, ghost a0: Snap, ghost lo: nat) returns (r: Outcome)
      requires Valid() && d in spaces && lo <= k < USERPAGES && Good(a0) && f in held && f in mem && mem[f] == Fill(0)
      requires Grew(a0, Now(), d, lo, k, {f}) && Spent(a0, Now(), d, TablesOf(lo, k), k - lo + 1)
      modifies this
      ensures Valid() && d in spaces && d in a0.s.spaces
      ensures r.Done? ==> Grew(a0, Now(), d, lo, k + 1, {}) && Spent(a0, Now(), d, TablesOf(lo, k + 1), k + 1 - lo)
      ensures r.Panicked? ==> k in a0.s.spaces[d].ptes
      ensures r.NoMemory? ==>
                && Grew(a0, Now(), d, lo, k, {f}) && f in held && k !in a0.s.spaces[d].ptes
                && |a0.s.free| < Need(a0, d, TablesOf(lo, k + 1), k + 1 - lo)
    {
      hide Owns, SpacesOk, Good, KeptBut, Kept, Freed, Grew, Maps, Spent, TablesOf, Need, Dir;
      ghost var b := Now();
      SpaceThere(a0, b, d, lo, k, {f});
      ghost var n;
      r, n := Mappages(d, k, k, f, Pte(0, true, true, true, false, false));
      if r.NoMemory? {
        GrewStill(a0, b, Now(), d, lo, k, f, Pte(0, true, true, true, false, false));
        NoTable(a0, b, Now(), d, lo, k, k + 1, k - lo + 1);
        NotMapped(a0, b, d, lo, k, f);
        StillTaken(a0, Now(), d, lo, k, f);
      } else if r.Panicked? {
        AlreadyMapped(a0, b, d, lo, k, f);
      } else {
        GrewMore(a0, b, Now(), d, lo, k, f);
        SpentPage(a0, b, Now(), d, lo, k, k - lo + 1);
      }
    }

    /** Grows d from oldsz to newsz with zeroed pages; if memory runs out, unmaps the range again. */
    method Allocuvm(d: nat, oldsz: nat, newsz: nat) returns (r: nat, panicked: bool)
      requires Valid() && d in spaces
      modifies this
      ensures Valid()
      ensures newsz >= KERNBASE ==> !panicked && r == 0 && Now() == old(Now())
      ensures newsz < KERNBASE && newsz < oldsz ==> !panicked && r == oldsz && Now() == old(Now())
      ensures oldsz <= newsz < KERNBASE && !panicked ==>
        var lo, hi := Up(oldsz), Up(newsz);
        && lo <= hi
        && if |old(freelist)| >= Need(old(Now()), d, TablesOf(lo, hi), hi - lo)
           then r == newsz && Grew(old(Now()), Now(), d, lo, hi, {})
           else r == 0 && Undone(old(Now()), Now(), d, lo, hi, {})
      ensures panicked <==>
        && oldsz <= newsz < KERNBASE && Up(oldsz) <= Up(newsz)
        && var lo, hi := Up(oldsz), Up(newsz);
           var n := UnmappedFrom(old(spaces)[d].ptes, lo, hi);
           n < hi && |old(freelist)| > Need(old(Now()), d, TablesOf(lo, n), n - lo)
    {
      hide Owns, SpacesOk, Good, KeptBut, Freed, Grew, Undone, Maps, Scan, Spent, TablesOf, Need, Up, Taken, Cut, Kept,
        UnmappedFrom;
      panicked := false;
      if newsz >= KERNBASE {
        return 0, false;
      }
      if newsz < oldsz {
        return oldsz, false;
      }
      ghost var a0 := Now();
      ghost var lo, hi := Up(oldsz), Up(newsz);
      UpAlong(oldsz, newsz);
      var a := (oldsz + 4095) / 4096 * 4096;
      ghost var k := lo;
      NoneGrown(a0, d, lo);
      SpentNothing(a0, d);
      TablesMore(lo, lo);
      while a < newsz
        invariant a == 4096 * k && lo <= k <= hi
        invariant Valid() && d in spaces && Grew(a0, Now(), d, lo, k, {}) && Spent(a0, Now(), d, TablesOf(lo, k), k - lo)
      {
        UpBelow(a, k, newsz);
        ghost var b := Now();
        var q, m := GrowPage(d, a / 4096, a0, lo);
        if q.NoMemory? {
          AllocShort(a0, b, d, lo, k, hi);
          GiveUp(d, oldsz, newsz, m, a0, k);
          return 0, false;
        }
        if q.Panicked? {
          AllocStops(a0, b, d, lo, k, hi);
          return 0, true;
        }
        a := a + 4096;
        k := k + 1;
      }
      UpReached(a, k, newsz);
      AllocEnough(a0, Now(), d, lo, hi);
      r := newsz;
    }

    /** The failure exits of allocuvm: the range is unmapped, and a frame not yet mapped is freed. */
    method GiveUp(d: nat, oldsz: nat, newsz: nat, m: Option<nat>, ghost a0: Snap, ghost k: nat)
      requires Valid() && Good(a0) && d in spaces && oldsz <= newsz <= KERNBASE && Up(oldsz) <= k <= Up(newsz)
      requires Grew(a0, Now(), d, Up(oldsz), k, Taken(m))
      modifies this
      ensures Valid() && Undone(a0, Now(), d, Up(oldsz), Up(newsz), {})
    {
      hide Owns, SpacesOk, Good, KeptBut, Freed, Grew, Undone, Scan, Up;
      UpAlong(oldsz, newsz);
      ghost var b := Now();
      var sz := Deallocuvm(d, newsz, oldsz);
      UndoneBy(a0, b, Now(), d, Up(oldsz), k, Up(newsz), Taken(m));
      if m.Some? {
        ghost var e := Now();
        Kfree(m.value);
        UndoneFreed(a0, e, Now(), d, Up(oldsz), Up(newsz), m.value);
      }
    }

    /** Brings the size of d down to newsz; the skip over missing page tables frees exactly what a
        scan page by page does. */
    method Deallocuvm(d: nat, oldsz: nat, newsz: nat) returns (r: nat)
      requires Valid() && d in spaces && oldsz <= KERNBASE
      modifies this
      ensures Valid() && r == if newsz >= oldsz then oldsz else newsz
      ensures St() == Scan(old(St()), d, Up(newsz), Up(oldsz))
      ensures Freed(old(Now()), Now(), d, Up(newsz), Up(oldsz))
    {
      hide Owns, SpacesOk, Good, FreePage, Freed, KeptBut, Up, Scan;
      ghost var a0 := Now();
      ghost var lo, hi := Up(newsz), Up(oldsz);
      UpAlong(oldsz, oldsz);
      if newsz >= oldsz {
        UpAlong(oldsz, newsz);
        NoneFreed(a0, d, lo, hi);
        ScanNone(St(), d, lo, hi);
        return oldsz;
      }
      UpAlong(newsz, oldsz);
      var a := (newsz + 4095) / 4096 * 4096;
      ghost var k := lo;
      NoneFreed(a0, d, lo, lo);
      while a < oldsz
        invariant a == 4096 * k && lo <= k
        invariant Valid() && d in spaces
        invariant Scan(St(), d, k, hi) == Scan(a0.s, d, lo, hi)
        invariant Freed(a0, Now(), d, lo, Min(k, hi))
      {
        ghost var b := Now();
        UpBelow(a, k, oldsz);
        SkipTo(a, k);
        var ok := Walkpgdir(d, a / 4096, false);
        if !ok {
          a := (a / 4194304 + 1) * 4194304 - 4096;
          SkipUnmapped(b, d, k, NextTable(k), hi);
          FreedMore(a0, b, b, d, lo, k, Min(NextTable(k), hi));
          k := NextTable(k) - 1;
        } else if a / 4096 in spaces[d].ptes && InUse(spaces[d].ptes[a / 4096]) {
          FreeOne(d, a / 4096);
          ScanFirst(b.s, d, k, hi);
          FreedMore(a0, b, Now(), d, lo, k, k + 1);
        } else {
          SkipUnmapped(b, d, k, k + 1, hi);
          FreedMore(a0, b, b, d, lo, k, k + 1);
        }
        a := a + 4096;
        k := k + 1;
      }
      UpPast(a, k, oldsz);
      ScanNone(St(), d, k, hi);
      r := newsz;
    }

    /** One turn of the loop in setupkvm: region i of the kernel's mappings. */
    method MapRegion(d: nat, data: nat, i: nat, ghost a: Snap, ghost b1: Snap) returns (q: Outcome)
      requires Valid() && Good(a) && 0x8_0100 < data < 0x8_E000 && i < 4 && d in spaces
      requires KernelOnly(a, Now(), d, data, i) && Spent(b1, Now(), d, RegionTables(data, i), 0)
      requires d in b1.s.spaces && b1.s.spaces[d].tables == map[]
      modifies this
      ensures Valid() && d in spaces && !q.Panicked?
      ensures q.Done? ==> KernelOnly(a, Now(), d, data, i + 1) && Spent(b1, Now(), d, RegionTables(data, i + 1), 0)
      ensures q.NoMemory? ==> FreshSpace(a, Now(), d) && |b1.s.free| < 64
    {
      hide Owns, SpacesOk, Good, KeptBut, Maps, KernelOnly, KernelPtes, Spent, TablesOf, RegionTables, Dir, FreshSpace,
        KernelTables, UserFrames, Kmap;
      var k := Kmap(data)[i];
      ghost var b := Now();
      RegionOk(data, i);
      NoUserFrames(k.first, k.last - k.first + 1, k.frame);
      ghost var n;
      q, n := Mappages(d, k.first, k.last, k.frame, k.perm);
      KernelPart(a, b, Now(), d, data, i, n);
      RegionOutcome(b1, b, Now(), d, data, i, n, k);
    }

    /** A new directory with the kernel's mappings and nothing else, or nothing at all. */
    method Setupkvm(data: nat) returns (r: Option<nat>)
      requires Valid() && 0x8_0100 < data < 0x8_E000
      modifies this
      ensures Valid()
      ensures r.None? <==> |old(freelist)| < 65
      ensures r.None? ==> Restored(old(Now()), Now())
      ensures r.Some? ==> KernelOnly(old(Now()), Now(), r.value, data, 4)
      ensures r.Some? ==> r.value in spaces && KernelLayout(spaces[r.value].ptes, data)
      ensures r.Some? ==> spaces[r.value].tables.Keys == KernelTables() && |freelist| == |old(freelist)| - 65
    {
      hide Owns, SpacesOk, Good, KeptBut, FreedSpace, Maps, KernelOnly, KernelPtes, KernelLayout, Spent, TablesOf,
        RegionTables, KernelTables, Dir;
      ghost var a := Now();
      r := Kalloc();
      if r.None? {
        Unchanged(a);
        return;
      }
      var d := r.value;
      ghost var b0 := Now();
      spaces := spaces[d := Space(map[], map[])];
      held := held - {d};
      own := own[d := Directory];
      Started(a, b0, Now(), d, data);
      ghost var b1 := Now();
      SpentNothing(b1, d);
      RegionTablesFirst(data);
      for i := 0 to 4
        invariant Valid() && d in spaces && KernelOnly(a, Now(), d, data, i)
        invariant Spent(b1, Now(), d, RegionTables(data, i), 0)
      {
        var q := MapRegion(d, data, i, a, b1);
        if q.NoMemory? {
          ghost var c := Now();
          Freevm(d);
          AllBack(a, c, Now(), d);
          return None;
        }
      }
      EnoughForKernel(b1, Now(), d, data);
      KernelLaidOut(a, Now(), d, data);
    }

    /** One turn of the loop in copyuvm: a copy of page v of d, mapped at page v of c. Without memory
        the frame taken for it, if any, is given back. */
    method CopyPage(d: nat, c: nat, v: nat, ghost a: Snap, ghost bk: Snap, ghost data: nat) returns (r: Outcome)
      requires Valid() && Good(a) && v < USERPAGES && 0x8_0100 < data < 0x8_E000
      requires Copied(a, Now(), d, c, data, v, {}) && Spent(bk, Now(), c, TablesOf(0, v), v)
      modifies this
      ensures Valid() && d in a.s.spaces && c in bk.s.spaces
      ensures r.Panicked? <==> v !in a.s.spaces[d].ptes
      ensures r.Panicked? ==> Spent(bk, Now(), c, TablesOf(0, v), v)
      ensures r.Done? ==>
                Copied(a, Now(), d, c, data, v + 1, {}) && Spent(bk, Now(), c, TablesOf(0, v + 1), v + 1)
      ensures r.NoMemory? ==>
                && c in spaces && FreshSpace(a, Now(), c)
                && |bk.s.free| < Need(bk, c, TablesOf(0, v + 1), v + 1)
    {
      hide Owns, SpacesOk, Good, KeptBut, Kept, Maps, KernelPtes, Copied, Spent, TablesOf, Need, FreshSpace, HasFresh;
      ghost var b0 := Now();
      CopiedGives(a, b0, d, c, data, v, {});
      SpentSpace(bk, b0, c, TablesOf(0, v), v);
      TablesWithin(0, v, v + 1);
      Missing(a, d, v);
      var ok := Walkpgdir(d, v, false);
      if !ok {
        return Panicked;
      }
      if v !in spaces[d].ptes || !InUse(spaces[d].ptes[v]) {
        return Panicked;
      }
      var x := spaces[d].ptes[v];
      var m := Kalloc();
      if m.None? {
        RunsOut(bk, b0, c, TablesOf(0, v), v, TablesOf(0, v + 1), v + 1, 0);
        return NoMemory;
      }
      PageHasBytes(Now(), d, v);
      mem := mem[m.value := mem[x.frame]];
      CopyTaken(a, b0, Now(), d, c, data, v, m.value);
      SpentTaken(bk, b0, Now(), c, TablesOf(0, v), v);
      r := CopyInto(d, c, v, m.value, x, a, bk, data);
    }

    /** The second half of that turn: the filled frame f goes to page v of c. */
    method CopyInto(d: nat, c: nat, v: nat, f: nat, x: Pte, ghost a: Snap, ghost bk: Snap, ghost data: nat)
      returns (r: Outcome)
      requires Valid() && Good(a) && v < USERPAGES && 0x8_0100 < data < 0x8_E000 && f in held
      requires Copied(a, Now(), d, c, data, v, {f}) && Spent(bk, Now(), c, TablesOf(0, v), v + 1)
      requires d in a.s.spaces && v in a.s.spaces[d].ptes && x == a.s.spaces[d].ptes[v]
      requires x.frame in a.mem && f in mem && mem[f] == a.mem[x.frame]
      modifies this
      ensures Valid() && c in bk.s.spaces && !r.Panicked?
      ensures r.Done? ==>
                Copied(a, Now(), d, c, data, v + 1, {}) && Spent(bk, Now(), c, TablesOf(0, v + 1), v + 1)
      ensures r.NoMemory? ==>
                && c in spaces && FreshSpace(a, Now(), c)
                && |bk.s.free| < Need(bk, c, TablesOf(0, v + 1), v + 1)
    {
      hide Owns, SpacesOk, Good, KeptBut, Kept, Maps, KernelPtes, Copied, Spent, TablesOf, Need, FreshSpace, HasFresh, Dir;
      ghost var b := Now();
      NotYetCopied(a, b, d, c, data, v, {f});
      SpentSpace(bk, b, c, TablesOf(0, v), v + 1);
      var q, n := Mappages(c, v, v, f, x);
      ghost var e := Now();
      if q.NoMemory? {
        CopyStill(a, b, e, d, c, data, v, f, x);
        NoTable(bk, b, e, c, 0, v, v + 1, v + 1);
        Kfree(f);
        CopyDropped(a, e, Now(), c, f);
        return NoMemory;
      }
      CopyMore(a, b, e, d, c, data, v, f);
      SpentPage(bk, b, e, c, 0, v, v + 1);
      r := Done;
    }

    /** A copy of the first sz bytes of d for a child, each page in a frame of its own, or nothing
        at all. Stops if a page of d below sz is not mapped. */
    method Copyuvm(d: nat, sz: nat, data: nat) returns (r: Option<nat>, panicked: bool)
      requires Valid() && d in spaces && sz <= KERNBASE && 0x8_0100 < data < 0x8_E000
      modifies this
      ensures Valid()
      ensures
        var n := MappedBelow(old(spaces)[d].ptes, Up(sz));
        panicked <==> n < Up(sz) && |old(freelist)| >= CopyFrames(n)
      ensures !panicked ==> (r.None? <==> |old(freelist)| < CopyFrames(Up(sz)))
      ensures !panicked && r.None? ==> Restored(old(Now()), Now())
      ensures !panicked && r.Some? ==> Copied(old(Now()), Now(), d, r.value, data, Up(sz), {})
    {
      hide Owns, SpacesOk, Good, KeptBut, FreedSpace, Kept, KernelOnly, Copied, Spent, TablesOf, KernelTables, Need, Up,
        KernelLayout, CopyFrames, MappedBelow, FreshSpace, Restored;
      ghost var a := Now();
      ghost var hi := Up(sz);
      UpAlong(sz, sz);
      r := Setupkvm(data);
      if r.None? {
        NoKernelFrames(a, d, hi);
        return None, false;
      }
      var c := r.value;
      NothingCopied(a, Now(), d, c, data);
      ghost var bk := Now();
      SpentNothing(bk, c);
      TablesMore(0, 0);
      var i := 0;
      ghost var k := 0;
      while i < sz
        invariant i == 4096 * k && k <= hi
        invariant Valid() && Copied(a, Now(), d, c, data, k, {}) && Spent(bk, Now(), c, TablesOf(0, k), k)
      {
        UpBelow(i, k, sz);
        ghost var b := Now();
        var q := CopyPage(d, c, i / 4096, a, bk, data);
        if q.Panicked? {
          CopyStops(a, b, bk, d, c, data, k, hi);
          return None, true;
        }
        if q.NoMemory? {
          CopyShort(a, b, bk, d, c, data, k, hi);
          ghost var g := Now();
          Freevm(c);
          AllBack(a, g, Now(), c);
          return None, false;
        }
        i := i + 4096;
        k := k + 1;
      }
      UpReached(i, k, sz);
      CopyEnough(a, Now(), bk, d, c, data, hi);
      panicked := false;
    }
  }

  /** All frames of d went to the free list; every other frame keeps its holder, or its place in
      the free list, and its contents. */
  ghost predicate FreedSpace(a: Snap, b: Snap, d: nat) {
    && a.own.Keys == b.own.Keys
    && forall f | f in a.own :: if OfSpace(a.own[f], f, d) then b.own[f].FreeList? else KeptAt(a, b, f)
  }

  predicate OfSpace(o: Owner, f: nat, d: nat) {
    match o
    case Directory => f == d
    case Table(d', _) => d' == d
    case Page(d', _) => d' == d
    case _ => false
  }

  lemma PageNotHeld(a: Snap, d: nat, v: nat)
    requires Good(a) && d in a.s.spaces && v in a.s.spaces[d].ptes && v < USERPAGES
    ensures a.s.spaces[d].ptes[v].frame !in a.s.held
  {
    var f := a.s.spaces[d].ptes[v].frame;
    assert Has(a.s, Page(d, v), f) && !Has(a.s, Held, f);
  }

  lemma NoUsersLeft(a: Snap, b: Snap, d: nat)
    requires Good(a) && d in a.s.spaces && b.s == Scan(a.s, d, Up(0), Up(KERNBASE))
    ensures d in b.s.spaces && NoUserPages(b.s.spaces[d])
    ensures b.s.spaces == a.s.spaces[d := b.s.spaces[d]] && b.s.spaces[d].tables == a.s.spaces[d].tables
    ensures b.s.held == a.s.held
  {
    hide Good, Scan, FramesIn;
    forall v | v in a.s.spaces[d].ptes && v < USERPAGES ensures a.s.spaces[d].ptes[v].frame !in a.s.held {
      PageNotHeld(a, d, v);
    }
    ScanFrees(a.s, d, Up(0), Up(KERNBASE));
  }

  /** The space is gone; its directory and tables are in the hands of the caller. */
  ghost predicate Loose(b: Snap, c: Snap, d: nat) {
    && Good(b) && Good(c) && d in b.s.spaces && d in b.own
    && c.own.Keys == b.own.Keys && c.mem == b.mem
    && forall f | f in b.own :: c.own[f] == if f in Frames(b.s, d) then Held else b.own[f]
  }

  lemma Detached(b: Snap, c: Snap, d: nat)
    requires Good(b) && d in b.s.spaces && NoUserPages(b.s.spaces[d])
    requires c == Snap(DropSpace(b.s, d), map f | f in b.own :: if f in Frames(b.s, d) then Held else b.own[f], b.mem)
    ensures Good(c) && Loose(b, c, d)
  {
    DropSpaceKeeps(b.s, b.own, d);
    assert Has(b.s, Directory, d);
  }

  /** The frames of the tables below i are back on the free list. */
  ghost predicate Returned(c: Snap, e: Snap, tables: map<nat, nat>, i: nat) {
    && c.own.Keys == e.own.Keys
    && forall f | f in c.own :: if Below(tables, i, f) then e.own[f].FreeList? else KeptAt(c, e, f)
  }

  ghost predicate Below(tables: map<nat, nat>, i: nat, f: nat) {
    exists x :: x in tables && x < i && tables[x] == f
  }

  lemma NoneReturned(c: Snap, tables: map<nat, nat>)
    ensures Returned(c, c, tables, 0)
  {
  }

  lemma StillDetached(b: Snap, c: Snap, e: Snap, d: nat, i: nat)
    requires Loose(b, c, d) && Good(e) && i in b.s.spaces[d].tables && Returned(c, e, b.s.spaces[d].tables, i)
    ensures b.s.spaces[d].tables[i] in e.s.held
  {
    var tables := b.s.spaces[d].tables;
    var f := tables[i];
    assert Has(b.s, Table(d, i), f);
    assert forall x | x in tables && tables[x] == f :: Has(b.s, Table(d, x), f);
    assert KeptAt(c, e, f);
    assert Has(e.s, Held, f);
  }

  lemma ReturnedMore(c: Snap, e: Snap, g: Snap, tables: map<nat, nat>, i: nat, o: Owner, bytes: Bytes)
    requires Returned(c, e, tables, i) && i in tables && tables[i] in e.own && o.FreeList?
    requires g.own == e.own[tables[i] := o] && g.mem == e.mem[tables[i] := bytes]
    ensures Returned(c, g, tables, i + 1)
  {
    forall f | f in c.own ensures if Below(tables, i + 1, f) then g.own[f].FreeList? else KeptAt(c, g, f) {
      assert if Below(tables, i, f) then e.own[f].FreeList? else KeptAt(c, e, f);
      assert Below(tables, i + 1, tables[i]);
      if Below(tables, i, f) {
        var x :| x in tables && x < i && tables[x] == f;
        assert Below(tables, i + 1, f);
      }
    }
  }

  lemma ReturnedSame(c: Snap, e: Snap, tables: map<nat, nat>, i: nat)
    requires Returned(c, e, tables, i) && i !in tables
    ensures Returned(c, e, tables, i + 1)
  {
    forall f ensures Below(tables, i, f) <==> Below(tables, i + 1, f) {
      if Below(tables, i, f) {
        var x :| x in tables && x < i && tables[x] == f;
        assert Below(tables, i + 1, f);
      }
    }
  }

  lemma DirectoryLast(b: Snap, c: Snap, e: Snap, d: nat)
    requires Loose(b, c, d) && Good(e) && Returned(c, e, b.s.spaces[d].tables, 1024)
    ensures d in e.s.held
  {
    var tables := b.s.spaces[d].tables;
    assert Has(b.s, Directory, d);
    assert forall x | x in tables && tables[x] == d :: Has(b.s, Table(d, x), d);
    assert KeptAt(c, e, d);
    assert Has(e.s, Held, d);
  }

  lemma AllFreed(a: Snap, b: Snap, c: Snap, e: Snap, g: Snap, d: nat, o: Owner, bytes: Bytes)
    requires Good(a) && Good(g) && Freed(a, b, d, Up(0), Up(KERNBASE)) && Loose(b, c, d)
    requires Returned(c, e, b.s.spaces[d].tables, 1024)
    requires g.own == e.own[d := o] && o.FreeList? && g.mem == e.mem[d := bytes]
    ensures FreedSpace(a, g, d) && g.s.held == a.s.held
  {
    hide Good;
    assert g.own.Keys == e.own.Keys == a.own.Keys;
    hide Returned;
    forall f | f in a.own ensures if OfSpace(a.own[f], f, d) then g.own[f].FreeList? else KeptAt(a, g, f) {
      FreedOne(a, b, c, e, d, f);
    }
    SameHeld(a, g, d);
  }

  lemma FreedOne(a: Snap, b: Snap, c: Snap, e: Snap, d: nat, f: nat)
    requires Good(a) && f in a.own && Freed(a, b, d, Up(0), Up(KERNBASE)) && Loose(b, c, d)
    requires Returned(c, e, b.s.spaces[d].tables, 1024)
    ensures f == d ==> a.own[f] == Directory
    ensures f in e.own && if OfSpace(a.own[f], f, d) && f != d then e.own[f].FreeList? else f == d || KeptAt(a, e, f)
  {
    var tables := b.s.spaces[d].tables;
    assert Has(a.s, a.own[f], f) && Has(b.s, b.own[f], f);
    assert if InRange(a.own[f], d, Up(0), Up(KERNBASE)) then b.own[f].FreeList? else KeptAt(a, b, f);
    assert SpaceOk(b.s.spaces[d]) && Has(b.s, Directory, d);
    if f in tables.Values {
      var x :| x in tables && tables[x] == f;
      assert Has(b.s, Table(d, x), f);
      assert Below(tables, 1024, f);
    } else {
      assert KeptAt(c, e, f);
    }
  }

  lemma SameHeld(a: Snap, g: Snap, d: nat)
    requires Good(a) && Good(g) && FreedSpace(a, g, d)
    ensures g.s.held == a.s.held
  {
    forall f ensures f in g.s.held <==> f in a.s.held {
      assert Has(a.s, Held, f) <==> f in a.own && a.own[f] == Held;
      assert Has(g.s, Held, f) <==> f in g.own && g.own[f] == Held;
    }
  }

  function Min(a: nat, b: nat): nat { if a < b then a else b }

  // A stretch of one directory entry without a page table, or one page with a zero entry.
  lemma SkipUnmapped(b: Snap, d: nat, k: nat, k': nat, hi: nat)
    requires Good(b) && d in b.s.spaces && k <= k' <= NextTable(k) && k < hi
    requires k / 1024 !in b.s.spaces[d].tables || (k' == k + 1 && (k in b.s.spaces[d].ptes ==> !InUse(b.s.spaces[d].ptes[k])))
    ensures Scan(b.s, d, k, hi) == Scan(b.s, d, k', hi) && Freed(b, b, d, k, Min(k', hi))
  {
    forall v | k <= v < k' ensures v !in b.s.spaces[d].ptes {
      Missing(b, d, v);
    }
    ScanSkips(b.s, d, k, k', hi);
    forall f | f in b.own ensures !InRange(b.own[f], d, k, Min(k', hi)) {
      assert Has(b.s, b.own[f], f);
    }
  }

  function Up(sz: nat): nat { (sz + 4095) / 4096 }

  lemma UpAlong(oldsz: nat, newsz: nat)
    requires oldsz <= newsz
    ensures Up(oldsz) <= Up(newsz) && (oldsz + 4095) / 4096 * 4096 == 4096 * Up(oldsz)
    ensures newsz <= KERNBASE ==> Up(newsz) <= USERPAGES
  {
  }

  lemma UpBelow(a: nat, k: nat, newsz: nat)
    requires a == 4096 * k && a < newsz
    ensures k < Up(newsz) && a / 4096 == k
  {
  }

  lemma UpPast(a: nat, k: nat, newsz: nat)
    requires a == 4096 * k && a >= newsz
    ensures k >= Up(newsz)
  {
  }

  /** The first page of the next page table. */
  ghost function NextTable(k: nat): nat { (k / 1024 + 1) * 1024 }

  lemma SkipTo(a: nat, k: nat)
    requires a == 4096 * k
    ensures k < NextTable(k) && (a / 4194304 + 1) * 4194304 - 4096 == 4096 * (NextTable(k) - 1)
  {
  }

  lemma ScanNone(s: Mem, d: nat, k: nat, hi: nat)
    requires d in s.spaces && hi <= k
    ensures Scan(s, d, k, hi) == s
  {
  }

  lemma ScanFirst(s: Mem, d: nat, k: nat, hi: nat)
    requires d in s.spaces && k < hi && k in s.spaces[d].ptes
    ensures Scan(s, d, k, hi) == Scan(FreePage(s, d, k), d, k + 1, hi)
  {
  }

  lemma UpReached(a: nat, k: nat, newsz: nat)
    requires a == 4096 * k && a >= newsz && k <= Up(newsz)
    ensures k == Up(newsz)
  {
  }

  /** The frames of the pages of d from lo up to hi went to the free list; every other frame keeps
      its holder, or its place in the free list, and its contents. */
  ghost predicate Freed(a: Snap, b: Snap, d: nat, lo: nat, hi: nat) {
    && a.own.Keys == b.own.Keys
    && forall f | f in a.own :: if InRange(a.own[f], d, lo, hi) then b.own[f].FreeList? else KeptAt(a, b, f)
  }

  predicate InRange(o: Owner, d: nat, lo: nat, hi: nat) { o.Page? && o.d == d && lo <= o.v < hi }

  lemma NoneFreed(a: Snap, d: nat, lo: nat, hi: nat)
    requires hi <= lo
    ensures Freed(a, a, d, lo, hi)
  {
  }

  lemma FreedMore(a: Snap, b: Snap, c: Snap, d: nat, lo: nat, mid: nat, hi: nat)
    requires lo <= mid <= hi && Freed(a, b, d, lo, mid) && Freed(b, c, d, mid, hi)
    ensures Freed(a, c, d, lo, hi)
  {
    forall f | f in a.own ensures if InRange(a.own[f], d, lo, hi) then c.own[f].FreeList? else KeptAt(a, c, f) {
      assert if InRange(a.own[f], d, lo, mid) then b.own[f].FreeList? else KeptAt(a, b, f);
      assert if InRange(b.own[f], d, mid, hi) then c.own[f].FreeList? else KeptAt(b, c, f);
    }
  }

  // A page without a page table, or with a zero entry, is not mapped.
  lemma Missing(a: Snap, d: nat, v: nat)
    requires Good(a) && d in a.s.spaces
    ensures v in a.s.spaces[d].ptes ==> v / 1024 in a.s.spaces[d].tables && InUse(a.s.spaces[d].ptes[v])
  {
    assert v in a.s.spaces[d].ptes ==> EntryOk(a.s.spaces[d], v);
  }

  lemma NothingMapped(a: Snap, d: nat, first: nat, frame: nat, perm: Pte)
    requires d in a.s.spaces
    ensures Maps(a, a, d, first, 0, frame, perm)
  {
    assert UserFrames(first, 0, frame) == {};
  }

  lemma StillHeld(a: Snap, b: Snap, d: nat, first: nat, n: nat, frame: nat, perm: Pte, last: nat)
    requires Maps(a, b, d, first, n, frame, perm) && first + n <= last
    requires UserFrames(first, last - first + 1, frame) <= a.s.held
    ensures first + n < USERPAGES ==> frame + n in b.s.held
  {
    if first + n < USERPAGES {
      assert frame + n in UserFrames(first, last - first + 1, frame);
    }
  }

  lemma MapsNoMore(a: Snap, b: Snap, c: Snap, d: nat, first: nat, n: nat, frame: nat, perm: Pte, v: nat, f: nat)
    requires Good(a) && Maps(a, b, d, first, n, frame, perm) && Maps(b, c, d, v, 0, f, perm)
    ensures Maps(a, c, d, first, n, frame, perm)
    ensures first + n in b.s.spaces[d].ptes <==> first + n in a.s.spaces[d].ptes
  {
    assert UserFrames(v, 0, f) == {};
    assert KeptBut(b, c, UserFrames(first, n, frame));
    KeptTwice(a, b, c, UserFrames(first, n, frame));
    forall f | f in a.own && !a.own[f].FreeList? ensures UsedStill(a, c, f) {
      assert UsedStill(a, b, f) && UsedStill(b, c, f);
    }
  }

  lemma Stored(a: Snap, b: Snap, c: Snap, d: nat, v: nat, frame: nat, perm: Pte)
    requires Good(a) && Good(b) && Kept(a, b) && d in a.s.spaces && d in b.s.spaces && v < ALLPAGES
    requires b.s.spaces == a.s.spaces[d := b.s.spaces[d]] && b.s.spaces[d].ptes == a.s.spaces[d].ptes
    requires v !in a.s.spaces[d].ptes && b.s.held == a.s.held && v / 1024 in b.s.spaces[d].tables
    requires if v < USERPAGES then frame in a.s.held else !perm.u && !perm.e
    requires c == Snap(AddEntry(b.s, d, v, Entry(frame, perm)),
                       if v < USERPAGES then b.own[frame := Page(d, v)] else b.own, b.mem)
    ensures Good(c) && Maps(a, c, d, v, 1, frame, perm)
  {
    hide Maps;
    AddEntryKeeps(b.s, b.own, d, v, Entry(frame, perm));
    hide Owns, SpacesOk;
    assert UserFrames(v, 1, frame) == if v < USERPAGES then {frame} else {};
    OneEntry(a, b, c, d, v, frame, perm);
  }

  lemma OneEntry(a: Snap, b: Snap, c: Snap, d: nat, v: nat, frame: nat, perm: Pte)
    requires Good(a) && Kept(a, b) && d in a.s.spaces && d in b.s.spaces
    requires b.s.spaces == a.s.spaces[d := b.s.spaces[d]] && b.s.spaces[d].ptes == a.s.spaces[d].ptes
    requires v !in a.s.spaces[d].ptes && b.s.held == a.s.held
    requires c.s.spaces == b.s.spaces[d := b.s.spaces[d].(ptes := b.s.spaces[d].ptes[v := Entry(frame, perm)])]
    requires c.s.held == b.s.held - UserFrames(v, 1, frame)
    requires KeptBut(b, c, UserFrames(v, 1, frame))
    requires forall f | f in b.own && !b.own[f].FreeList? :: UsedStill(b, c, f)
    ensures Maps(a, c, d, v, 1, frame, perm)
  {
    hide Good, KeptBut;
    assert Run(v, 1, frame, perm) == map[v := Entry(frame, perm)];
    KeptButMore(a, b, UserFrames(v, 1, frame));
    KeptTwice(a, b, c, UserFrames(v, 1, frame));
    StillUsed(a, b, c);
  }

  lemma KeptButMore(a: Snap, b: Snap, fs: set<nat>)
    requires Kept(a, b)
    ensures KeptBut(a, b, fs)
  {
  }

  lemma StillUsed(a: Snap, b: Snap, c: Snap)
    requires Good(a) && Kept(a, b) && forall f | f in b.own && !b.own[f].FreeList? :: UsedStill(b, c, f)
    ensures forall f | f in a.own && !a.own[f].FreeList? :: UsedStill(a, c, f)
  {
    hide Good;
    forall f | f in a.own && !a.own[f].FreeList? ensures UsedStill(a, c, f) {
      assert KeptAt(a, b, f) && UsedStill(b, c, f);
    }
  }

  // The head of the free list is in nobody's hands.
  lemma TakenIsNew(a: Snap, f: nat)
    requires Good(a) && a.s.free != [] && f == a.s.free[|a.s.free| - 1]
    ensures f in a.own && a.own[f].FreeList? && f !in a.s.held && f !in a.s.spaces
  {
    assert Has(a.s, FreeList(|a.s.free| - 1), f);
    assert !Has(a.s, Held, f) && !Has(a.s, Directory, f);
  }

  // ----- growing -----

  /** The pages from lo up to hi are new in d: each zeroed and mapped with PTE_W and PTE_U to a
      frame that was free; extra frames are in the hands of the caller. */
  ghost predicate Grew(a: Snap, b: Snap, d: nat, lo: nat, hi: nat, extra: set<nat>) {
    && d in a.s.spaces && d in b.s.spaces
    && b.s.spaces == a.s.spaces[d := b.s.spaces[d]]
    && b.s.held == a.s.held + extra && Kept(a, b)
    && (forall f | f in extra :: f in a.own && a.own[f].FreeList?)
    && (forall v :: v in b.s.spaces[d].ptes <==> v in a.s.spaces[d].ptes || lo <= v < hi)
    && (forall v | v in a.s.spaces[d].ptes :: b.s.spaces[d].ptes[v] == a.s.spaces[d].ptes[v])
    && (forall v | lo <= v < hi :: NewPage(a, b, d, v))
  }

  ghost predicate NewPage(a: Snap, b: Snap, d: nat, v: nat)
    requires d in a.s.spaces && d in b.s.spaces
  {
    && v !in a.s.spaces[d].ptes && v in b.s.spaces[d].ptes
    && var x := b.s.spaces[d].ptes[v];
       && x == Pte(x.frame, true, true, true, false, false)
       && x.frame in a.own && a.own[x.frame].FreeList?
       && x.frame in b.mem && b.mem[x.frame] == Fill(0)
  }

  /** The range is unmapped; nothing else of d is changed but for page tables that were added. */
  ghost predicate Undone(a: Snap, b: Snap, d: nat, lo: nat, hi: nat, extra: set<nat>) {
    && d in a.s.spaces && d in b.s.spaces
    && b.s.spaces == a.s.spaces[d := b.s.spaces[d]]
    && b.s.held == a.s.held + extra
    && Cut(a.s.spaces[d].ptes, b.s.spaces[d].ptes, lo, hi)
    && a.own.Keys == b.own.Keys
    && (forall f | f in extra :: f in a.own && a.own[f].FreeList?)
    && forall f | f in a.own ::
         if InRange(a.own[f], d, lo, hi) then b.own[f].FreeList? else a.own[f].FreeList? || KeptAt(a, b, f)
  }

  /** The frame in the caller's hands. */
  function Taken(m: Option<nat>): set<nat> { if m.None? then {} else {m.value} }

  lemma SpaceThere(a: Snap, b: Snap, d: nat, lo: nat, k: nat, extra: set<nat>)
    requires Grew(a, b, d, lo, k, extra)
    ensures d in a.s.spaces && d in b.s.spaces
  {
    hide NewPage, KeptBut;
  }

  lemma StillTaken(a: Snap, b: Snap, d: nat, lo: nat, k: nat, f: nat)
    requires Grew(a, b, d, lo, k, {f})
    ensures f in b.s.held
  {
    hide NewPage, KeptBut;
  }

  lemma NoneGrown(a: Snap, d: nat, lo: nat)
    requires d in a.s.spaces
    ensures Grew(a, a, d, lo, lo, {})
  {
  }

  lemma GrewTaken(a: Snap, b: Snap, c: Snap, d: nat, lo: nat, hi: nat, f: nat)
    requires Good(a) && Good(b) && Grew(a, b, d, lo, hi, {}) && hi <= USERPAGES
    requires b.s.free != [] && f == b.s.free[|b.s.free| - 1]
    requires c == Snap(Take(b.s), b.own[f := Held], b.mem[f := Fill(0)])
    ensures Good(c) && Grew(a, c, d, lo, hi, {f}) && f in c.s.held && c.mem[f] == Fill(0)
  {
    TakenIsNew(b, f);
    TakeKeeps(b.s, b.own);
    forall g | g in a.own && !a.own[g].FreeList? ensures g != f && KeptAt(a, c, g) {
      assert KeptAt(a, b, g);
    }
    forall v | lo <= v < hi ensures NewPage(a, c, d, v) {
      assert NewPage(a, b, d, v);
      assert Has(b.s, Page(d, v), b.s.spaces[d].ptes[v].frame);
    }
  }

  lemma GrewStill(a: Snap, b: Snap, c: Snap, d: nat, lo: nat, hi: nat, f: nat, perm: Pte)
    requires Good(a) && Good(b) && Grew(a, b, d, lo, hi, {f}) && Maps(b, c, d, hi, 0, f, perm) && hi <= USERPAGES
    ensures Grew(a, c, d, lo, hi, {f})
  {
    assert UserFrames(hi, 0, f) == {};
    KeptTwice(a, b, c, {});
    forall v | lo <= v < hi ensures NewPage(a, c, d, v) {
      assert NewPage(a, b, d, v);
      assert Has(b.s, Page(d, v), b.s.spaces[d].ptes[v].frame);
      assert UsedStill(b, c, b.s.spaces[d].ptes[v].frame);
    }
  }

  lemma GrewMore(a: Snap, b: Snap, c: Snap, d: nat, lo: nat, hi: nat, f: nat)
    requires Good(a) && Good(b) && Grew(a, b, d, lo, hi, {f}) && hi < USERPAGES && lo <= hi
    requires f in b.mem && b.mem[f] == Fill(0)
    requires Maps(b, c, d, hi, 1, f, Pte(0, true, true, true, false, false))
    ensures Grew(a, c, d, lo, hi + 1, {})
  {
    assert UserFrames(hi, 1, f) == {f};
    forall g | g in a.own && !a.own[g].FreeList? ensures KeptAt(a, c, g) {
      assert KeptAt(a, b, g) && KeptAt(b, c, g);
    }
    assert f !in a.s.held by {
      assert !Has(a.s, Held, f);
    }
    assert Has(b.s, Held, f) && UsedStill(b, c, f);
    forall v | lo <= v < hi + 1 ensures NewPage(a, c, d, v) {
      if v < hi {
        assert NewPage(a, b, d, v);
        assert Has(b.s, Page(d, v), b.s.spaces[d].ptes[v].frame);
        assert UsedStill(b, c, b.s.spaces[d].ptes[v].frame);
      } else {
        assert EntryAt(hi, hi, f, Pte(0, true, true, true, false, false)) == Pte(f, true, true, true, false, false);
      }
    }
  }

  lemma NotMapped(a: Snap, b: Snap, d: nat, lo: nat, k: nat, f: nat)
    requires Grew(a, b, d, lo, k, {f}) && d in b.s.spaces && k !in b.s.spaces[d].ptes
    ensures d in a.s.spaces && k !in a.s.spaces[d].ptes
  {
    hide Kept, NewPage;
  }

  /** The first page from lo on that is mapped, up to hi. */
  ghost function UnmappedFrom(ptes: map<nat, Pte>, lo: nat, hi: nat): (r: nat)
    requires lo <= hi
    ensures lo <= r <= hi && (forall v | lo <= v < r :: v !in ptes) && (r < hi ==> r in ptes)
    decreases hi - lo
  {
    if lo == hi || lo in ptes then lo else UnmappedFrom(ptes, lo + 1, hi)
  }

  lemma UnmappedUpTo(a: Snap, b: Snap, d: nat, lo: nat, k: nat, hi: nat)
    requires Grew(a, b, d, lo, k, {}) && lo <= k <= hi
    ensures d in a.s.spaces && k <= UnmappedFrom(a.s.spaces[d].ptes, lo, hi)
  {
    hide Kept;
    forall v | lo <= v < k ensures v !in a.s.spaces[d].ptes {
      assert NewPage(a, b, d, v);
    }
  }

  lemma NeedGrows(a: Snap, d: nat, lo: nat, k: nat, hi: nat)
    requires d in a.s.spaces && lo <= k <= hi
    ensures Need(a, d, TablesOf(lo, k), k - lo) + (hi - k) <= Need(a, d, TablesOf(lo, hi), hi - lo)
  {
    hide TablesOf;
    TablesWithin(lo, k, hi);
    var ts, us := TablesOf(lo, k) - a.s.spaces[d].tables.Keys, TablesOf(lo, hi) - a.s.spaces[d].tables.Keys;
    assert us == ts + (us - ts);
  }

  lemma AllocStops(a: Snap, b: Snap, d: nat, lo: nat, k: nat, hi: nat)
    requires Grew(a, b, d, lo, k, {}) && lo <= k < hi && d in a.s.spaces && k in a.s.spaces[d].ptes
    ensures UnmappedFrom(a.s.spaces[d].ptes, lo, hi) == k
  {
    hide Grew;
    UnmappedUpTo(a, b, d, lo, k, hi);
  }

  lemma AllocShort(a: Snap, b: Snap, d: nat, lo: nat, k: nat, hi: nat)
    requires Grew(a, b, d, lo, k, {}) && lo <= k < hi && d in a.s.spaces
    requires |a.s.free| < Need(a, d, TablesOf(lo, k + 1), k + 1 - lo)
    requires k in a.s.spaces[d].ptes ==> |a.s.free| <= Need(a, d, TablesOf(lo, k), k - lo)
    ensures |a.s.free| < Need(a, d, TablesOf(lo, hi), hi - lo)
    ensures
      var n := UnmappedFrom(a.s.spaces[d].ptes, lo, hi);
      |a.s.free| <= Need(a, d, TablesOf(lo, n), n - lo)
  {
    hide Grew, Need, TablesOf;
    UnmappedUpTo(a, b, d, lo, k, hi);
    var n := UnmappedFrom(a.s.spaces[d].ptes, lo, hi);
    NeedGrows(a, d, lo, k + 1, hi);
    if n > k {
      NeedGrows(a, d, lo, k + 1, n);
    }
  }

  lemma AllocEnough(a: Snap, b: Snap, d: nat, lo: nat, hi: nat)
    requires Grew(a, b, d, lo, hi, {}) && lo <= hi && Spent(a, b, d, TablesOf(lo, hi), hi - lo)
    ensures d in a.s.spaces && UnmappedFrom(a.s.spaces[d].ptes, lo, hi) == hi
    ensures |a.s.free| >= Need(a, d, TablesOf(lo, hi), hi - lo)
  {
    hide Grew, Need, TablesOf, Spent;
    UnmappedUpTo(a, b, d, lo, hi, hi);
    SpentIsNeeded(a, b, d, TablesOf(lo, hi), hi - lo);
  }

  lemma AlreadyMapped(a: Snap, b: Snap, d: nat, lo: nat, k: nat, f: nat)
    requires Grew(a, b, d, lo, k, {f}) && d in b.s.spaces && k in b.s.spaces[d].ptes
    ensures d in a.s.spaces && k in a.s.spaces[d].ptes
  {
  }

  lemma UndoneBy(a: Snap, b: Snap, c: Snap, d: nat, lo: nat, k: nat, hi: nat, extra: set<nat>)
    requires Good(a) && Good(b) && Grew(a, b, d, lo, k, extra) && lo <= k <= hi <= USERPAGES
    requires c.s == Scan(b.s, d, lo, hi) && Freed(b, c, d, lo, hi)
    ensures Undone(a, c, d, lo, hi, extra) && extra <= c.s.held
  {
    hide Good, Scan, FramesIn, NewPage;
    forall v | v in b.s.spaces[d].ptes && v < USERPAGES ensures b.s.spaces[d].ptes[v].frame !in b.s.held {
      PageNotHeld(b, d, v);
    }
    ScanFrees(b.s, d, lo, hi);
    forall f | f in a.own
      ensures if InRange(a.own[f], d, lo, hi) then c.own[f].FreeList? else a.own[f].FreeList? || KeptAt(a, c, f)
    {
      assert a.own[f].FreeList? || KeptAt(a, b, f);
      assert if InRange(b.own[f], d, lo, hi) then c.own[f].FreeList? else KeptAt(b, c, f);
    }
  }

  lemma UndoneFreed(a: Snap, b: Snap, c: Snap, d: nat, lo: nat, hi: nat, f: nat)
    requires Good(a) && Undone(a, b, d, lo, hi, {f}) && c.s == Give(b.s, f)
    requires f in b.own && c.own == b.own[f := FreeList(|b.s.free|)] && KeptBut(b, c, {f}) && c.mem == b.mem[f := Fill(1)]
    ensures Undone(a, c, d, lo, hi, {})
  {
    assert f !in a.s.held by {
      assert !Has(a.s, Held, f);
    }
  }

  // ----- new address spaces -----

  /** Nothing is changed but the order of the free list. */
  ghost predicate Restored(a: Snap, b: Snap) {
    b.s.spaces == a.s.spaces && b.s.held == a.s.held && Kept(a, b)
  }

  lemma FreeMeans(a: Snap, f: nat)
    requires Good(a)
    ensures f in a.s.free <==> f in a.own && a.own[f].FreeList?
  {
    if f in a.s.free {
      var i :| 0 <= i < |a.s.free| && a.s.free[i] == f;
      assert Has(a.s, FreeList(i), f);
    }
    assert f in a.own ==> Has(a.s, a.own[f], f);
  }

  /** The same frames are free. */
  lemma RestoredFree(a: Snap, b: Snap, f: nat)
    requires Good(a) && Good(b) && Restored(a, b)
    ensures f in a.s.free <==> f in b.s.free
  {
    FreeMeans(a, f);
    FreeMeans(b, f);
    if f in b.own {
      assert Has(b.s, b.own[f], f);
      assert !b.own[f].FreeList? ==> Has(a.s, b.own[f], f);
    }
  }

  datatype Region = Region(first: nat, last: nat, frame: nat, perm: Pte)

  /** The kernel's mappings, in pages: I/O space, text, data and memory, devices. */
  function Kmap(data: nat): (r: seq<Region>)
    requires 0x8_0100 < data < 0x8_E000
    ensures |r| == 4
    ensures forall i | 0 <= i < 4 :: USERPAGES <= r[i].first <= r[i].last < ALLPAGES && !r[i].perm.u && !r[i].perm.e
    ensures forall i, j | 0 <= i < j < 4 :: r[i].last < r[j].first
  {
    var ro := Pte(0, true, false, false, false, false);
    var rw := ro.(w := true);
    [Region(0x8_0000, 0x8_00FF, 0, rw),
     Region(0x8_0100, data - 1, 0x100, ro),
     Region(data, 0x8_DFFF, data - 0x8_0000, rw),
     Region(0xF_E000, 0xF_FFFF, 0xF_E000, rw)]
  }

  function KernelPtes(data: nat, i: nat): map<nat, Pte>
    requires 0x8_0100 < data < 0x8_E000 && i <= 4
  {
    if i == 0 then map[]
    else var k := Kmap(data)[i - 1]; KernelPtes(data, i - 1) + Run(k.first, k.last - k.first + 1, k.frame, k.perm)
  }

  /** The kernel's part of an address space: KERNBASE up to the top of memory, and the devices from
      DEVSPACE on. Memory is mapped at KERNBASE, devices at their own addresses; the pages from
      KERNLINK to the kernel's data are read-only, and no page is open to users. */
  ghost predicate KernelLayout(ptes: map<nat, Pte>, data: nat) {
    && (forall v: nat :: v in ptes <==> 0x8_0000 <= v < 0x8_E000 || 0xF_E000 <= v < 0x10_0000)
    && forall v | v in ptes ::
         ptes[v].frame == (if v < 0xF_E000 then v - 0x8_0000 else v) && ptes[v].p && !ptes[v].u && !ptes[v].e
         && (ptes[v].w <==> !(0x8_0100 <= v < data))
  }

  lemma KernelLaidOut(a: Snap, b: Snap, d: nat, data: nat)
    requires 0x8_0100 < data < 0x8_E000 && KernelOnly(a, b, d, data, 4)
    ensures d in b.s.spaces && KernelLayout(b.s.spaces[d].ptes, data)
  {
    hide Kept, KernelPtes;
    forall v: nat
      ensures v in KernelPtes(data, 4) <==> 0x8_0000 <= v < 0x8_E000 || 0xF_E000 <= v < 0x10_0000
      ensures v in KernelPtes(data, 4) ==>
        var x := KernelPtes(data, 4)[v];
        x.frame == (if v < 0xF_E000 then v - 0x8_0000 else v) && x.p && !x.u && !x.e && (x.w <==> !(0x8_0100 <= v < data))
    {
      KernelPtesNone(data, v);
      KernelPtesAt(data, 0, v);
      KernelPtesAt(data, 1, v);
      KernelPtesAt(data, 2, v);
      KernelPtesAt(data, 3, v);
    }
  }

  /** The directory entries of the first i regions. */
  ghost function RegionTables(data: nat, i: nat): set<nat>
    requires 0x8_0100 < data < 0x8_E000 && i <= 4
  {
    if i == 0 then {}
    else var k := Kmap(data)[i - 1]; RegionTables(data, i - 1) + TablesOf(k.first, k.last + 1)
  }

  lemma RegionTablesFirst(data: nat)
    requires 0x8_0100 < data < 0x8_E000
    ensures RegionTables(data, 0) == {}
  {
  }

  lemma RegionTablesNext(data: nat, i: nat)
    requires 0x8_0100 < data < 0x8_E000 && i < 4
    ensures var k := Kmap(data)[i]; RegionTables(data, i + 1) == RegionTables(data, i) + TablesOf(k.first, k.last + 1)
  {
  }

  ghost function Entries(lo: nat, hi: nat): (r: set<nat>)
    requires lo <= hi
    ensures |r| == hi - lo && forall x :: x in r <==> lo <= x < hi
    decreases hi - lo
  {
    if lo == hi then {} else Entries(lo, hi - 1) + {hi - 1}
  }

  /** The kernel's mappings need 64 page tables. */
  ghost function KernelTables(): set<nat> { Entries(512, 568) + Entries(1016, 1024) }

  lemma TablesAre(lo: nat, hi: nat)
    requires lo < hi
    ensures TablesOf(lo, hi) == Entries(lo / 1024, (hi - 1) / 1024 + 1)
  {
    forall x | x in Entries(lo / 1024, (hi - 1) / 1024 + 1) ensures x in TablesOf(lo, hi) {
      var v: nat := if 1024 * x < lo then lo else 1024 * x;
      assert lo <= v < hi && Dir(v) == x;
    }
  }

  lemma EntriesJoin(a: nat, b: nat, c: nat, d: nat)
    requires a <= c <= b <= d
    ensures Entries(a, b) + Entries(c, d) == Entries(a, d)
  {
    hide Entries;
  }

  lemma KernelTablesCount()
    ensures |KernelTables()| == 64
  {
    hide Entries;
    assert Entries(512, 568) !! Entries(1016, 1024);
  }

  lemma RegionTablesAre(data: nat)
    requires 0x8_0100 < data < 0x8_E000
    ensures RegionTables(data, 4) == KernelTables()
  {
    hide TablesOf, RegionTables, Entries;
    TablesAre(0x8_0000, 0x8_0100);
    TablesAre(0x8_0100, data);
    TablesAre(data, 0x8_E000);
    TablesAre(0xF_E000, 0x10_0000);
    RegionTablesFirst(data);
    RegionTablesNext(data, 0);
    RegionTablesNext(data, 1);
    RegionTablesNext(data, 2);
    RegionTablesNext(data, 3);
    LowRegions(data);
  }

  lemma LowRegions(data: nat)
    requires 0x8_0100 < data < 0x8_E000
    ensures {} + Entries(512, 513) + Entries(512, (data - 1) / 1024 + 1) + Entries(data / 1024, 568) == Entries(512, 568)
  {
    hide Entries;
    EntriesJoin(512, 513, 512, (data - 1) / 1024 + 1);
    EntriesJoin(512, (data - 1) / 1024 + 1, data / 1024, 568);
  }

  /** The tables of region i are among those of the kernel. */
  lemma RegionWithin(data: nat, i: nat)
    requires 0x8_0100 < data < 0x8_E000 && i < 4
    ensures var k := Kmap(data)[i]; RegionTables(data, i) + TablesOf(k.first, k.last + 1) <= KernelTables()
    ensures |KernelTables()| == 64
  {
    hide TablesOf, RegionTables, KernelTables, Kmap;
    RegionTablesAre(data);
    KernelTablesCount();
    RegionTablesNext(data, i);
    RegionTablesUpTo(data, i + 1);
  }

  lemma TooFew(b: Snap, c: Snap, d: nat, done: set<nat>, first: nat, n: nat, last: nat, all: set<nat>)
    requires d in b.s.spaces && b.s.spaces[d].tables == map[] && c.s.free == [] && d in c.s.spaces
    requires first + n <= last && Dir(first + n) !in c.s.spaces[d].tables
    requires Spent(b, c, d, done + TablesOf(first, first + n), 0) && done + TablesOf(first, last + 1) <= all
    ensures |b.s.free| < |all|
  {
    hide Spent, TablesOf, Dir, Need;
    TablesWithin(first, first + n, last + 1);
    assert done + TablesOf(first, first + n) <= all;
    RunsOut(b, c, d, done + TablesOf(first, first + n), 0, all, 0, Dir(first + n));
    NeedAll(b, d, all);
  }

  lemma RegionOk(data: nat, i: nat)
    requires 0x8_0100 < data < 0x8_E000 && i < 4
    ensures var k := Kmap(data)[i]; USERPAGES <= k.first <= k.last < ALLPAGES && !k.perm.u && !k.perm.e
  {
  }

  lemma RegionOutcome(b1: Snap, b: Snap, c: Snap, d: nat, data: nat, i: nat, n: nat, k: Region)
    requires 0x8_0100 < data < 0x8_E000 && i < 4 && k == Kmap(data)[i] && k.first <= k.last && n <= k.last - k.first + 1
    requires d in b1.s.spaces && b1.s.spaces[d].tables == map[]
    requires Spent(b1, b, d, RegionTables(data, i), 0) && Spent(b, c, d, TablesOf(k.first, k.first + n), 0)
    ensures n == k.last - k.first + 1 ==> Spent(b1, c, d, RegionTables(data, i + 1), 0)
    ensures n <= k.last - k.first && c.s.free == [] && d in c.s.spaces && Dir(k.first + n) !in c.s.spaces[d].tables ==>
              |b1.s.free| < 64
  {
    hide Spent, TablesOf, RegionTables, KernelTables, Dir, Kmap;
    if n == k.last - k.first + 1 {
      assert k.first + n == k.last + 1;
      RegionTablesNext(data, i);
      SpentBoth(b1, b, c, d, RegionTables(data, i), TablesOf(k.first, k.first + n), RegionTables(data, i + 1));
    } else if c.s.free == [] && d in c.s.spaces && Dir(k.first + n) !in c.s.spaces[d].tables {
      RegionWithin(data, i);
      TooFewAfter(b1, b, c, d, RegionTables(data, i), k.first, n, k.last, KernelTables());
    }
  }

  lemma SpentBoth(b1: Snap, b: Snap, c: Snap, d: nat, ts: set<nat>, us: set<nat>, all: set<nat>)
    requires Spent(b1, b, d, ts, 0) && Spent(b, c, d, us, 0) && all == ts + us
    ensures Spent(b1, c, d, all, 0)
  {
    SpentMore(b1, b, c, d, ts, us, 0, 0);
  }

  lemma TooFewAfter(b1: Snap, b: Snap, c: Snap, d: nat, done: set<nat>, first: nat, n: nat, last: nat, all: set<nat>)
    requires d in b1.s.spaces && b1.s.spaces[d].tables == map[] && c.s.free == [] && d in c.s.spaces
    requires first + n <= last && Dir(first + n) !in c.s.spaces[d].tables
    requires Spent(b1, b, d, done, 0) && Spent(b, c, d, TablesOf(first, first + n), 0)
    requires done + TablesOf(first, last + 1) <= all
    ensures |b1.s.free| < |all|
  {
    hide Spent, TablesOf, Dir;
    SpentBoth(b1, b, c, d, done, TablesOf(first, first + n), done + TablesOf(first, first + n));
    TooFew(b1, c, d, done, first, n, last, all);
  }

  lemma NeedAll(b: Snap, d: nat, ts: set<nat>)
    requires d in b.s.spaces && b.s.spaces[d].tables == map[]
    ensures Need(b, d, ts, 0) == |ts|
  {
    assert ts - b.s.spaces[d].tables.Keys == ts;
  }

  lemma {:induction false} RegionTablesUpTo(data: nat, i: nat)
    requires 0x8_0100 < data < 0x8_E000 && i <= 4
    ensures RegionTables(data, i) <= RegionTables(data, 4)
    decreases 4 - i
  {
    if i < 4 {
      RegionTablesNext(data, i);
      RegionTablesUpTo(data, i + 1);
    }
  }

  lemma EnoughForKernel(b: Snap, c: Snap, d: nat, data: nat)
    requires 0x8_0100 < data < 0x8_E000 && d in b.s.spaces && b.s.spaces[d].tables == map[]
    requires Spent(b, c, d, RegionTables(data, 4), 0)
    ensures |b.s.free| == |c.s.free| + 64 && c.s.spaces[d].tables.Keys == KernelTables()
  {
    hide RegionTables, KernelTables, Need;
    RegionTablesAre(data);
    KernelTablesCount();
    SpentIsNeeded(b, c, d, RegionTables(data, 4), 0);
    NeedAll(b, d, KernelTables());
  }

  lemma KernelPtesNone(data: nat, v: nat)
    requires 0x8_0100 < data < 0x8_E000
    ensures v !in KernelPtes(data, 0)
  {
  }

  /** What region i adds. */
  lemma KernelPtesAt(data: nat, i: nat, v: nat)
    requires 0x8_0100 < data < 0x8_E000 && i < 4
    ensures
      var k := Kmap(data)[i];
      if k.first <= v <= k.last then
        v in KernelPtes(data, i + 1) && KernelPtes(data, i + 1)[v] == Entry(k.frame + (v - k.first), k.perm)
      else
        && (v in KernelPtes(data, i + 1) <==> v in KernelPtes(data, i))
        && (v in KernelPtes(data, i) ==> KernelPtes(data, i + 1)[v] == KernelPtes(data, i)[v])
  {
    hide Kmap;
    assert KernelPtes(data, i + 1) ==
      KernelPtes(data, i) + Run(Kmap(data)[i].first, Kmap(data)[i].last - Kmap(data)[i].first + 1, Kmap(data)[i].frame,
                                Kmap(data)[i].perm);
  }

  lemma {:induction false} KernelPtesBelow(data: nat, i: nat)
    requires 0x8_0100 < data < 0x8_E000 && i <= 4
    ensures forall v | v in KernelPtes(data, i) :: USERPAGES <= v && (i < 4 ==> v < Kmap(data)[i].first)
  {
    if i > 0 {
      KernelPtesBelow(data, i - 1);
    }
  }

  /** d is new and holds the first i kernel regions; every frame that was in use is as before. */
  ghost predicate KernelOnly(a: Snap, b: Snap, d: nat, data: nat, i: nat)
    requires 0x8_0100 < data < 0x8_E000 && i <= 4
  {
    && d !in a.s.spaces && d in b.s.spaces
    && b.s.spaces == a.s.spaces[d := b.s.spaces[d]]
    && b.s.spaces[d].ptes == KernelPtes(data, i)
    && b.s.held == a.s.held && Kept(a, b)
  }

  lemma Unchanged(a: Snap)
    ensures Restored(a, a)
  {
  }

  lemma Started(a: Snap, b: Snap, c: Snap, d: nat, data: nat)
    requires Good(a) && a.s.free != [] && d == a.s.free[|a.s.free| - 1] && 0x8_0100 < data < 0x8_E000
    requires b == Snap(Take(a.s), a.own[d := Held], a.mem) && Kept(a, b)
    requires c == Snap(NewSpace(b.s, d), b.own[d := Directory], b.mem)
    ensures Good(c) && KernelOnly(a, c, d, data, 0)
  {
    TakenIsNew(a, d);
    TakeKeeps(a.s, a.own);
    NewSpaceKeeps(b.s, b.own, d);
  }

  lemma NoUserFrames(first: nat, n: nat, frame: nat)
    requires first >= USERPAGES
    ensures UserFrames(first, n, frame) == {}
  {
  }

  lemma KernelPart(a: Snap, b: Snap, c: Snap, d: nat, data: nat, i: nat, n: nat)
    requires 0x8_0100 < data < 0x8_E000 && i < 4 && Good(a) && KernelOnly(a, b, d, data, i)
    requires var k := Kmap(data)[i]; Maps(b, c, d, k.first, n, k.frame, k.perm) && n <= k.last - k.first + 1
    ensures var k := Kmap(data)[i];
      && (n == k.last - k.first + 1 ==> KernelOnly(a, c, d, data, i + 1))
      && k.first + n !in b.s.spaces[d].ptes
      && FreshSpace(a, c, d)
  {
    var k := Kmap(data)[i];
    assert UserFrames(k.first, n, k.frame) == {};
    KernelPtesBelow(data, i);
    KeptTwice(a, b, c, {});
  }

  /** d is new; every frame that was in use is as before. */
  ghost predicate FreshSpace(a: Snap, b: Snap, d: nat) {
    && d !in a.s.spaces && d in b.s.spaces
    && b.s.spaces == a.s.spaces[d := b.s.spaces[d]]
    && b.s.held == a.s.held && Kept(a, b)
  }

  lemma AllBack(a: Snap, b: Snap, c: Snap, d: nat)
    requires Good(a) && FreshSpace(a, b, d) && FreedSpace(b, c, d)
    requires c.s.spaces == b.s.spaces - {d} && c.s.held == b.s.held
    ensures Restored(a, c)
  {
    forall f | f in a.own && !a.own[f].FreeList? ensures KeptAt(a, c, f) {
      assert KeptAt(a, b, f);
      assert Has(a.s, a.own[f], f);
      assert !OfSpace(b.own[f], f, d);
      assert KeptAt(b, c, f);
    }
    assert c.s.spaces == a.s.spaces;
  }

  // ----- copying -----

  /** c is new: the kernel's mappings, and of the pages of d the first n, each in a frame that was
      free, with the flags and the bytes of its original. */
  ghost predicate Copied(a: Snap, b: Snap, d: nat, c: nat, data: nat, n: nat, extra: set<nat>)
    requires 0x8_0100 < data < 0x8_E000
  {
    && d in a.s.spaces && c !in a.s.spaces && c in b.s.spaces
    && b.s.spaces == a.s.spaces[c := b.s.spaces[c]]
    && b.s.held == a.s.held + extra && Kept(a, b)
    && (forall f | f in extra :: f in a.own && a.own[f].FreeList?)
    && (forall v: nat :: v in b.s.spaces[c].ptes <==> v < n || v in KernelPtes(data, 4))
    && (forall v | v in KernelPtes(data, 4) && v >= n :: b.s.spaces[c].ptes[v] == KernelPtes(data, 4)[v])
    && forall v | 0 <= v < n :: CopyAt(a, b, d, c, v)
  }

  ghost predicate CopyAt(a: Snap, b: Snap, d: nat, c: nat, v: nat)
    requires d in a.s.spaces && c in b.s.spaces
  {
    && v in a.s.spaces[d].ptes && v in b.s.spaces[c].ptes
    && var x, y := a.s.spaces[d].ptes[v], b.s.spaces[c].ptes[v];
       && y == Entry(y.frame, x)
       && y.frame in a.own && a.own[y.frame].FreeList?
       && x.frame in a.mem && y.frame in b.mem && b.mem[y.frame] == a.mem[x.frame]
  }

  lemma NothingCopied(a: Snap, b: Snap, d: nat, c: nat, data: nat)
    requires 0x8_0100 < data < 0x8_E000 && d in a.s.spaces && KernelOnly(a, b, c, data, 4)
    ensures Copied(a, b, d, c, data, 0, {})
  {
  }

  lemma CopiedGives(a: Snap, b: Snap, d: nat, c: nat, data: nat, n: nat, extra: set<nat>)
    requires 0x8_0100 < data < 0x8_E000 && Copied(a, b, d, c, data, n, extra)
    ensures d in a.s.spaces && d in b.s.spaces && c in b.s.spaces && b.s.spaces[d] == a.s.spaces[d]
    ensures extra == {} ==> FreshSpace(a, b, c)
  {
  }

  lemma NotYetCopied(a: Snap, b: Snap, d: nat, c: nat, data: nat, n: nat, extra: set<nat>)
    requires 0x8_0100 < data < 0x8_E000 && Copied(a, b, d, c, data, n, extra) && n < USERPAGES
    ensures c in b.s.spaces && n !in b.s.spaces[c].ptes
  {
    KernelPtesBelow(data, 4);
  }

  /** How many pages from 0 on are mapped, up to n. */
  ghost function MappedBelow(ptes: map<nat, Pte>, n: nat): (r: nat)
    ensures r <= n && (forall v | 0 <= v < r :: v in ptes) && (r < n ==> r !in ptes)
  {
    if n == 0 then 0
    else
      var r := MappedBelow(ptes, n - 1);
      if r == n - 1 && r in ptes then n else r
  }

  /** The frames a copy of n pages takes: a directory, the kernel's 64 page tables, the pages, and a page
      table for every 1024 of them. */
  function CopyFrames(n: nat): nat { 65 + n + (n + 1023) / 1024 }

  /** bk is the state in which the child c has the kernel's mappings only. */
  ghost predicate Outset(a: Snap, bk: Snap, c: nat) {
    c in bk.s.spaces && bk.s.spaces[c].tables.Keys == KernelTables() && |a.s.free| == |bk.s.free| + 65
  }

  lemma CopyNeeds(b: Snap, c: nat, n: nat)
    requires c in b.s.spaces && b.s.spaces[c].tables.Keys == KernelTables() && n <= USERPAGES
    ensures Need(b, c, TablesOf(0, n), n) + 65 == CopyFrames(n)
  {
    hide Entries, KernelTables;
    if n == 0 {
      assert TablesOf(0, n) == {};
    } else {
      TablesAre(0, n);
      BelowKernel((n - 1) / 1024 + 1);
    }
  }

  lemma BelowKernel(m: nat)
    requires m <= 512
    ensures Entries(0, m) - KernelTables() == Entries(0, m)
  {
    hide Entries;
  }

  lemma CopyFramesGrow(n: nat, m: nat)
    requires n <= m
    ensures 65 <= CopyFrames(n) <= CopyFrames(m)
  {
  }

  lemma CopiedAreMapped(a: Snap, b: Snap, d: nat, c: nat, data: nat, n: nat, v: nat)
    requires 0x8_0100 < data < 0x8_E000 && Copied(a, b, d, c, data, n, {}) && v < n
    ensures d in a.s.spaces && v in a.s.spaces[d].ptes
  {
    hide Kept, KernelPtes;
    assert CopyAt(a, b, d, c, v);
  }

  lemma MappedUpTo(a: Snap, b: Snap, d: nat, c: nat, data: nat, k: nat, hi: nat)
    requires 0x8_0100 < data < 0x8_E000 && Copied(a, b, d, c, data, k, {}) && k <= hi && d in a.s.spaces
    ensures k <= MappedBelow(a.s.spaces[d].ptes, hi)
  {
    hide Copied;
    var n := MappedBelow(a.s.spaces[d].ptes, hi);
    if n < k {
      CopiedAreMapped(a, b, d, c, data, k, n);
    }
  }

  lemma NoKernelFrames(a: Snap, d: nat, hi: nat)
    requires d in a.s.spaces && |a.s.free| < 65
    ensures |a.s.free| < CopyFrames(hi) && |a.s.free| < CopyFrames(MappedBelow(a.s.spaces[d].ptes, hi))
  {
  }

  lemma CopyStops(a: Snap, b: Snap, bk: Snap, d: nat, c: nat, data: nat, k: nat, hi: nat)
    requires 0x8_0100 < data < 0x8_E000 && Copied(a, b, d, c, data, k, {}) && k < hi <= USERPAGES
    requires Outset(a, bk, c) && Spent(bk, b, c, TablesOf(0, k), k)
    requires d in a.s.spaces && k !in a.s.spaces[d].ptes
    ensures MappedBelow(a.s.spaces[d].ptes, hi) == k && |a.s.free| >= CopyFrames(k)
  {
    hide Copied, Spent, TablesOf, Need, CopyFrames, KernelTables;
    MappedUpTo(a, b, d, c, data, k, hi);
    SpentIsNeeded(bk, b, c, TablesOf(0, k), k);
    CopyNeeds(bk, c, k);
  }

  lemma CopyShort(a: Snap, b: Snap, bk: Snap, d: nat, c: nat, data: nat, k: nat, hi: nat)
    requires 0x8_0100 < data < 0x8_E000 && Copied(a, b, d, c, data, k, {}) && k < hi <= USERPAGES
    requires Outset(a, bk, c) && |bk.s.free| < Need(bk, c, TablesOf(0, k + 1), k + 1)
    requires d in a.s.spaces && k in a.s.spaces[d].ptes
    ensures |a.s.free| < CopyFrames(hi) && |a.s.free| < CopyFrames(MappedBelow(a.s.spaces[d].ptes, hi))
  {
    hide Copied, TablesOf, Need, CopyFrames, KernelTables;
    MappedUpTo(a, b, d, c, data, k, hi);
    CopyNeeds(bk, c, k + 1);
    CopyFramesGrow(k + 1, hi);
    CopyFramesGrow(k + 1, MappedBelow(a.s.spaces[d].ptes, hi));
  }

  lemma CopyEnough(a: Snap, b: Snap, bk: Snap, d: nat, c: nat, data: nat, hi: nat)
    requires 0x8_0100 < data < 0x8_E000 && Copied(a, b, d, c, data, hi, {}) && hi <= USERPAGES
    requires Outset(a, bk, c) && Spent(bk, b, c, TablesOf(0, hi), hi) && d in a.s.spaces
    ensures MappedBelow(a.s.spaces[d].ptes, hi) == hi && |a.s.free| >= CopyFrames(hi)
  {
    hide Copied, Spent, TablesOf, Need, CopyFrames, KernelTables;
    MappedUpTo(a, b, d, c, data, hi, hi);
    SpentIsNeeded(bk, b, c, TablesOf(0, hi), hi);
    CopyNeeds(bk, c, hi);
  }

  lemma PageHasBytes(a: Snap, d: nat, v: nat)
    requires Good(a) && d in a.s.spaces && v in a.s.spaces[d].ptes && v < USERPAGES
    ensures a.s.spaces[d].ptes[v].frame in a.mem
  {
    assert Has(a.s, Page(d, v), a.s.spaces[d].ptes[v].frame);
  }

  lemma CopyTaken(a: Snap, b: Snap, e: Snap, d: nat, c: nat, data: nat, n: nat, f: nat)
    requires 0x8_0100 < data < 0x8_E000 && n < USERPAGES
    requires Good(a) && Good(b) && Copied(a, b, d, c, data, n, {}) && n in a.s.spaces[d].ptes
    requires a.s.spaces[d].ptes[n].frame in b.mem
    requires b.s.free != [] && f == b.s.free[|b.s.free| - 1]
    requires e == Snap(Take(b.s), b.own[f := Held], b.mem[f := b.mem[a.s.spaces[d].ptes[n].frame]])
    ensures Good(e) && Copied(a, e, d, c, data, n, {f}) && f in e.s.held
    ensures var x := a.s.spaces[d].ptes[n].frame; x in a.mem && e.mem[f] == a.mem[x]
  {
    TakenIsNew(b, f);
    TakeKeeps(b.s, b.own);
    forall g | g in a.own && !a.own[g].FreeList? ensures g != f && KeptAt(a, e, g) {
      assert KeptAt(a, b, g);
    }
    assert Has(a.s, Page(d, n), a.s.spaces[d].ptes[n].frame);
    forall v | 0 <= v < n ensures CopyAt(a, e, d, c, v) {
      assert CopyAt(a, b, d, c, v);
      assert Has(b.s, Page(c, v), b.s.spaces[c].ptes[v].frame);
    }
  }

  lemma CopyStill(a: Snap, b: Snap, e: Snap, d: nat, c: nat, data: nat, n: nat, f: nat, x: Pte)
    requires 0x8_0100 < data < 0x8_E000 && n < USERPAGES && Good(a)
    requires Copied(a, b, d, c, data, n, {f}) && Maps(b, e, c, n, 0, f, x)
    ensures HasFresh(a, e, c, f)
  {
    assert UserFrames(n, 0, f) == {};
    KeptTwice(a, b, e, {});
  }

  /** As FreshSpace, with one frame that was free in the hands of the caller. */
  ghost predicate HasFresh(a: Snap, b: Snap, c: nat, f: nat) {
    && c !in a.s.spaces && c in b.s.spaces && b.s.spaces == a.s.spaces[c := b.s.spaces[c]]
    && f in a.own && a.own[f].FreeList? && b.s.held == a.s.held + {f} && Kept(a, b)
  }

  lemma CopyDropped(a: Snap, b: Snap, e: Snap, c: nat, f: nat)
    requires Good(a) && HasFresh(a, b, c, f) && e.s == Give(b.s, f) && KeptBut(b, e, {f})
    ensures FreshSpace(a, e, c)
  {
    assert !Has(a.s, Held, f);
    forall g | g in a.own && !a.own[g].FreeList? ensures KeptAt(a, e, g) {
      assert KeptAt(a, b, g) && KeptAt(b, e, g);
    }
  }

  lemma CopyMore(a: Snap, b: Snap, e: Snap, d: nat, c: nat, data: nat, n: nat, f: nat)
    requires 0x8_0100 < data < 0x8_E000 && n < USERPAGES && Good(a) && Good(b)
    requires Copied(a, b, d, c, data, n, {f}) && n in a.s.spaces[d].ptes
    requires var x := a.s.spaces[d].ptes[n];
      x.frame in a.mem && f in b.mem && b.mem[f] == a.mem[x.frame] && Maps(b, e, c, n, 1, f, x)
    ensures Copied(a, e, d, c, data, n + 1, {})
  {
    var x := a.s.spaces[d].ptes[n];
    assert UserFrames(n, 1, f) == {f};
    KernelPtesBelow(data, 4);
    assert !Has(a.s, Held, f) && Has(b.s, Held, f) && UsedStill(b, e, f);
    forall g | g in a.own && !a.own[g].FreeList? ensures KeptAt(a, e, g) {
      assert KeptAt(a, b, g) && KeptAt(b, e, g);
    }
    forall v | 0 <= v < n + 1 ensures CopyAt(a, e, d, c, v) {
      if v < n {
        assert CopyAt(a, b, d, c, v);
        assert Has(b.s, Page(c, v), b.s.spaces[c].ptes[v].frame);
        assert UsedStill(b, e, b.s.spaces[c].ptes[v].frame);
      } else {
        assert EntryAt(n, n, f, x) == Entry(f, x);
      }
    }
  }
}
