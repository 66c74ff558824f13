/** Page frames and the address spaces of src/vm.c and src/kalloc.c: who holds each frame. */
module VmModel {

  const KERNBASE := 0x8000_0000
  const USERPAGES := 0x8_0000      // pages below KERNBASE
  const ALLPAGES := 0x10_0000

  datatype Option<T> = None | Some(value: T)

  /** A page table entry: the frame and the flags PTE_P, PTE_W, PTE_U, PTE_A and PTE_E. */
  datatype Pte = Pte(frame: nat, p: bool, w: bool, u: bool, a: bool, e: bool)

  predicate InUse(x: Pte) { x.p || x.e }

  /** A page directory: the frames of its page tables by directory index, and the entries that are
      not zero by page number. */
  datatype Space = Space(tables: map<nat, nat>, ptes: map<nat, Pte>)

  /** The free list (its head last), the address spaces by the frame of their directory, and the
      frames that kernel code has in its hands. */
  datatype Mem = Mem(free: seq<nat>, spaces: map<nat, Space>, held: set<nat>)

  datatype Owner = FreeList(i: nat) | Directory | Table(d: nat, x: nat) | Page(d: nat, v: nat) | Held

  ghost predicate Has(s: Mem, o: Owner, f: nat) {
    match o
    case FreeList(i) => i < |s.free| && s.free[i] == f
    case Directory => f in s.spaces
    case Table(d, x) => d in s.spaces && x in s.spaces[d].tables && s.spaces[d].tables[x] == f
    case Page(d, v) => d in s.spaces && v < USERPAGES && v in s.spaces[d].ptes && s.spaces[d].ptes[v].frame == f
    case Held => f in s.held
  }

  /** The managed frames are partitioned: each has exactly the one role that own says. */
  ghost predicate Owns(s: Mem, own: map<nat, Owner>) {
    forall f, o :: Has(s, o, f) <==> f in own && own[f] == o
  }

  /** Entries lie in page tables that exist; kernel entries are neither PTE_U nor PTE_E. */
  ghost predicate SpaceOk(sp: Space) {
    && (forall x | x in sp.tables :: x < 1024)
    && forall v | v in sp.ptes :: EntryOk(sp, v)
  }

  ghost predicate EntryOk(sp: Space, v: nat)
    requires v in sp.ptes
  {
    && v < ALLPAGES && v / 1024 in sp.tables && InUse(sp.ptes[v])
    && (v >= USERPAGES ==> !sp.ptes[v].u && !sp.ptes[v].e)
  }

  ghost predicate SpacesOk(s: Mem) {
    forall d | d in s.spaces :: SpaceOk(s.spaces[d])
  }

  ghost predicate Inv(s: Mem, own: map<nat, Owner>) {
    Owns(s, own) && SpacesOk(s)
  }

  /** No two different holders share a frame, and a holder's frame is managed. */
  lemma OneHolder(s: Mem, own: map<nat, Owner>, o: Owner, o': Owner, f: nat)
    requires Inv(s, own) && Has(s, o, f) && Has(s, o', f)
    ensures o == o' && f in own
  {
  }

  // ----- the elementary moves of a frame from one holder to the next -----

  function Take(s: Mem): Mem
    requires s.free != []
  {
    var n := |s.free| - 1;
    s.(free := s.free[..n], held := s.held + {s.free[n]})
  }

  function Give(s: Mem, f: nat): Mem { s.(free := s.free + [f], held := s.held - {f}) }

  function AddTable(s: Mem, d: nat, x: nat, f: nat): Mem
    requires d in s.spaces
  {
    s.(spaces := s.spaces[d := s.spaces[d].(tables := s.spaces[d].tables[x := f])], held := s.held - {f})
  }

  function AddEntry(s: Mem, d: nat, v: nat, x: Pte): Mem
    requires d in s.spaces
  {
    s.(spaces := s.spaces[d := s.spaces[d].(ptes := s.spaces[d].ptes[v := x])],
       held := if v < USERPAGES then s.held - {x.frame} else s.held)
  }

  function DropPage(s: Mem, d: nat, v: nat): Mem
    requires d in s.spaces && v in s.spaces[d].ptes
  {
    s.(spaces := s.spaces[d := s.spaces[d].(ptes := s.spaces[d].ptes - {v})],
       held := s.held + {s.spaces[d].ptes[v].frame})
  }

  function NewSpace(s: Mem, d: nat): Mem {
    s.(spaces := s.spaces[d := Space(map[], map[])], held := s.held - {d})
  }

  function DropSpace(s: Mem, d: nat): Mem
    requires d in s.spaces
  {
    s.(spaces := s.spaces - {d}, held := s.held + {d} + s.spaces[d].tables.Values)
  }

  lemma TakeKeeps(s: Mem, own: map<nat, Owner>)
    requires Inv(s, own) && s.free != []
    ensures var f := s.free[|s.free| - 1]; f in own && Inv(Take(s), own[f := Held])
  {
    var n := |s.free| - 1;
    var f := s.free[n];
    assert Has(s, FreeList(n), f);
    var s' := Take(s);
    forall g, o ensures Has(s', o, g) <==> g in own[f := Held] && own[f := Held][g] == o {
      assert Has(s, o, g) <==> g in own && own[g] == o;
    }
  }

  lemma GiveKeeps(s: Mem, own: map<nat, Owner>, f: nat)
    requires Inv(s, own) && f in s.held
    ensures f in own && Inv(Give(s, f), own[f := FreeList(|s.free|)])
  {
    assert Has(s, Held, f);
    var s' := Give(s, f);
    var own' := own[f := FreeList(|s.free|)];
    forall g, o ensures Has(s', o, g) <==> g in own' && own'[g] == o {
      assert Has(s, o, g) <==> g in own && own[g] == o;
    }
  }

  lemma AddTableKeeps(s: Mem, own: map<nat, Owner>, d: nat, x: nat, f: nat)
    requires Inv(s, own) && f in s.held && d in s.spaces && x < 1024 && x !in s.spaces[d].tables
    ensures f in own && Inv(AddTable(s, d, x, f), own[f := Table(d, x)])
  {
    assert Has(s, Held, f);
    var s' := AddTable(s, d, x, f);
    var own' := own[f := Table(d, x)];
    forall g, o ensures Has(s', o, g) <==> g in own' && own'[g] == o {
      assert Has(s, o, g) <==> g in own && own[g] == o;
    }
    forall v | v in s.spaces[d].ptes ensures EntryOk(s'.spaces[d], v) {
      assert EntryOk(s.spaces[d], v);
    }
  }

  lemma AddEntryKeeps(s: Mem, own: map<nat, Owner>, d: nat, v: nat, x: Pte)
    requires Inv(s, own) && d in s.spaces && v !in s.spaces[d].ptes
    requires v < ALLPAGES && v / 1024 in s.spaces[d].tables && InUse(x)
    requires if v < USERPAGES then x.frame in s.held else !x.u && !x.e
    ensures v < USERPAGES ==> x.frame in own
    ensures Inv(AddEntry(s, d, v, x), if v < USERPAGES then own[x.frame := Page(d, v)] else own)
  {
    var s' := AddEntry(s, d, v, x);
    if v < USERPAGES {
      assert Has(s, Held, x.frame);
    }
    var own' := if v < USERPAGES then own[x.frame := Page(d, v)] else own;
    forall g, o ensures Has(s', o, g) <==> g in own' && own'[g] == o {
      assert Has(s, o, g) <==> g in own && own[g] == o;
    }
    forall w | w in s'.spaces[d].ptes ensures EntryOk(s'.spaces[d], w) {
      if w != v {
        assert EntryOk(s.spaces[d], w);
      }
    }
  }

  lemma DropPageKeeps(s: Mem, own: map<nat, Owner>, d: nat, v: nat)
    requires Inv(s, own) && d in s.spaces && v < USERPAGES && v in s.spaces[d].ptes
    ensures var f := s.spaces[d].ptes[v].frame; f in own && Inv(DropPage(s, d, v), own[f := Held])
  {
    var f := s.spaces[d].ptes[v].frame;
    assert Has(s, Page(d, v), f);
    var s' := DropPage(s, d, v);
    var own' := own[f := Held];
    forall g, o ensures Has(s', o, g) <==> g in own' && own'[g] == o {
      assert Has(s, o, g) <==> g in own && own[g] == o;
    }
    forall w | w in s'.spaces[d].ptes ensures EntryOk(s'.spaces[d], w) {
      assert EntryOk(s.spaces[d], w);
    }
  }

  lemma NewSpaceKeeps(s: Mem, own: map<nat, Owner>, d: nat)
    requires Inv(s, own) && d in s.held
    ensures d in own && d !in s.spaces && Inv(NewSpace(s, d), own[d := Directory])
  {
    assert Has(s, Held, d);
    assert !Has(s, Directory, d);
    var s' := NewSpace(s, d);
    var own' := own[d := Directory];
    forall g, o ensures Has(s', o, g) <==> g in own' && own'[g] == o {
      assert Has(s, o, g) <==> g in own && own[g] == o;
    }
  }

  /** The frames of a directory and its tables. */
  function Frames(s: Mem, d: nat): set<nat>
    requires d in s.spaces
  {
    {d} + s.spaces[d].tables.Values
  }

  ghost predicate NoUserPages(sp: Space) { forall v | v in sp.ptes :: v >= USERPAGES }

  lemma DropSpaceKeeps(s: Mem, own: map<nat, Owner>, d: nat)
    requires Inv(s, own) && d in s.spaces && NoUserPages(s.spaces[d])
    ensures Frames(s, d) <= own.Keys
    ensures Inv(DropSpace(s, d), map f | f in own :: if f in Frames(s, d) then Held else own[f])
  {
    var s' := DropSpace(s, d);
    var fs := Frames(s, d);
    forall f | f in fs ensures f in own && ((own[f] == Directory && f == d) || (own[f].Table? && own[f].d == d)) {
      if f == d {
        assert Has(s, Directory, d);
      } else {
        var x :| x in s.spaces[d].tables && s.spaces[d].tables[x] == f;
        assert Has(s, Table(d, x), f);
      }
    }
    var own' := map f | f in own :: if f in fs then Held else own[f];
    forall g, o ensures Has(s', o, g) <==> g in own' && own'[g] == o {
      assert Has(s, o, g) <==> g in own && own[g] == o;
    }
  }

  // ----- freeing a range of user pages -----

  /** Unmaps page v and frees its frame, if it is mapped. */
  function FreePage(s: Mem, d: nat, v: nat): (r: Mem)
    requires d in s.spaces
    ensures d in r.spaces
  {
    if v in s.spaces[d].ptes then Give(DropPage(s, d, v), s.spaces[d].ptes[v].frame) else s
  }

  /** Frees the pages from lo up to hi one after the other. */
  function Scan(s: Mem, d: nat, lo: nat, hi: nat): (r: Mem)
    requires d in s.spaces
    ensures d in r.spaces
    decreases hi - lo
  {
    if lo >= hi then s else Scan(FreePage(s, d, lo), d, lo + 1, hi)
  }

  function FramesIn(ptes: map<nat, Pte>, lo: nat, hi: nat): seq<nat>
    decreases hi - lo
  {
    if lo >= hi then [] else (if lo in ptes then [ptes[lo].frame] else []) + FramesIn(ptes, lo + 1, hi)
  }

  // Pages that are not mapped can be skipped.
  lemma {:induction false} ScanSkips(s: Mem, d: nat, lo: nat, mid: nat, hi: nat)
    requires d in s.spaces && lo <= mid
    requires forall v | lo <= v < mid && v < hi :: v !in s.spaces[d].ptes
    ensures Scan(s, d, lo, hi) == Scan(s, d, mid, hi)
    decreases mid - lo
  {
    if lo < mid && lo < hi {
      ScanSkips(s, d, lo + 1, mid, hi);
    }
  }

  lemma {:induction false} FramesInSame(ptes: map<nat, Pte>, ptes': map<nat, Pte>, lo: nat, hi: nat)
    requires forall v | lo <= v < hi :: (v in ptes <==> v in ptes') && (v in ptes ==> ptes'[v] == ptes[v])
    ensures FramesIn(ptes, lo, hi) == FramesIn(ptes', lo, hi)
    decreases hi - lo
  {
    if lo < hi {
      FramesInSame(ptes, ptes', lo + 1, hi);
    }
  }

  lemma CutHas(p: map<nat, Pte>, q: map<nat, Pte>, lo: nat, hi: nat)
    ensures Cut(p, q, lo, hi) ==> forall v | v in q || v >= hi :: (v in q <==> v in p) && (v in q ==> q[v] == p[v])
    ensures p == q && lo >= hi ==> Cut(p, q, lo, hi)
  {
  }

  lemma CutTwice(p: map<nat, Pte>, q: map<nat, Pte>, r: map<nat, Pte>, lo: nat, hi: nat)
    requires Cut(p, q, lo, lo + 1) && Cut(q, r, lo + 1, hi) && lo < hi
    ensures Cut(p, r, lo, hi)
  {
  }

  lemma FreesOne(s: Mem, d: nat, v: nat)
    requires d in s.spaces && (v in s.spaces[d].ptes ==> s.spaces[d].ptes[v].frame !in s.held)
    ensures var r := FreePage(s, d, v);
      && r.held == s.held
      && r.free == s.free + (if v in s.spaces[d].ptes then [s.spaces[d].ptes[v].frame] else [])
      && r.spaces == s.spaces[d := r.spaces[d]]
      && r.spaces[d].tables == s.spaces[d].tables
      && Cut(s.spaces[d].ptes, r.spaces[d].ptes, v, v + 1)
  {
  }

  /** The scan unmaps exactly the pages of the range and appends exactly their frames, in page
      order, to the free list. */
  lemma {:induction false} ScanFrees(s: Mem, d: nat, lo: nat, hi: nat)
    requires d in s.spaces
    requires forall v | v in s.spaces[d].ptes && lo <= v < hi :: s.spaces[d].ptes[v].frame !in s.held
    ensures var r := Scan(s, d, lo, hi);
      && r.held == s.held
      && r.free == s.free + FramesIn(s.spaces[d].ptes, lo, hi)
      && r.spaces == s.spaces[d := r.spaces[d]]
      && r.spaces[d].tables == s.spaces[d].tables
      && Cut(s.spaces[d].ptes, r.spaces[d].ptes, lo, hi)
    decreases hi - lo
  {
    hide FreePage, Cut;
    if lo < hi {
      var t := FreePage(s, d, lo);
      FreesOne(s, d, lo);
      CutHas(s.spaces[d].ptes, t.spaces[d].ptes, lo, lo + 1);
      ScanFrees(t, d, lo + 1, hi);
      FramesInSame(s.spaces[d].ptes, t.spaces[d].ptes, lo + 1, hi);
      CutTwice(s.spaces[d].ptes, t.spaces[d].ptes, Scan(t, d, lo + 1, hi).spaces[d].ptes, lo, hi);
    } else {
      CutHas(s.spaces[d].ptes, s.spaces[d].ptes, lo, hi);
      assert FramesIn(s.spaces[d].ptes, lo, hi) == [];
    }
  }

  /** ptes' is ptes without the pages from lo up to hi. */
  ghost predicate Cut(ptes: map<nat, Pte>, ptes': map<nat, Pte>, lo: nat, hi: nat) {
    && (forall v :: v in ptes' <==> v in ptes && !(lo <= v < hi))
    && forall v | v in ptes' :: ptes'[v] == ptes[v]
  }
}
