/** Page encryption in src/vm.c: what mencrypt, mdecrypt and an eviction do to the plaintext of the
    pages of one address space. */
module VmCrypt {
  import opened VmModel
  import ClockRing

  type Bytes = seq<bv8>

  /** The pages of the running process: its page tables and the bytes of frames. */
  datatype View = View(space: Space, mem: map<nat, Bytes>)

  /** Every user page has a page of bytes, in a frame of its own. */
  ghost predicate Ok(s: View) {
    && SpaceOk(s.space)
    && (forall v | v in s.space.ptes && v < USERPAGES :: HasBytes(s, v))
    && forall v, w | v in s.space.ptes && w in s.space.ptes && v < w < USERPAGES ::
         s.space.ptes[v].frame != s.space.ptes[w].frame
  }

  ghost predicate HasBytes(s: View, v: nat)
    requires v in s.space.ptes
  {
    var f := s.space.ptes[v].frame;
    f in s.mem && |s.mem[f]| == 4096
  }

  /** The frame allocator's partition gives every address space this separation. */
  lemma FromPartition(s: Mem, own: map<nat, Owner>, mem: map<nat, Bytes>, d: nat)
    requires Inv(s, own) && d in s.spaces && forall f | f in own :: f in mem && |mem[f]| == 4096
    ensures Ok(View(s.spaces[d], mem))
  {
    var ptes := s.spaces[d].ptes;
    forall v | v in ptes && v < USERPAGES ensures ptes[v].frame in own && own[ptes[v].frame] == Page(d, v) {
      assert Has(s, Page(d, v), ptes[v].frame);
    }
  }

  function Flip(b: Bytes): (r: Bytes)
    ensures |r| == |b|
  {
    seq(|b|, i requires 0 <= i < |b| => !b[i])
  }

  lemma FlipFlip(b: Bytes)
    ensures Flip(Flip(b)) == b
    ensures |b| > 0 ==> Flip(b) != b
  {
    var r := Flip(b);
    forall i | 0 <= i < |b| ensures Flip(r)[i] == b[i] && r[i] != b[i] {
      Twice(b[i]);
    }
    assert |b| > 0 ==> r[0] != b[0];
  }

  lemma Twice(b: bv8)
    ensures !!b == b && !b != b
  {
  }

  /** What the owner of page v wrote: the complement of the bytes when PTE_E is set. */
  function Plain(s: View, v: nat): Bytes
    requires v in s.space.ptes && s.space.ptes[v].frame in s.mem
  {
    var x := s.space.ptes[v];
    if x.e then Flip(s.mem[x.frame]) else s.mem[x.frame]
  }

  /** Same pages in the same frames, with the same plaintext but for page x. */
  ghost predicate SamePlainBut(s: View, t: View, x: nat) {
    && t.space.ptes.Keys == s.space.ptes.Keys && t.space.tables == s.space.tables
    && forall v | v in s.space.ptes :: SameAt(s, t, v, v != x)
  }

  ghost predicate SameAt(s: View, t: View, v: nat, plain: bool)
    requires v in s.space.ptes
  {
    && v in t.space.ptes && t.space.ptes[v].frame == s.space.ptes[v].frame
    && (v >= USERPAGES ==> t.space.ptes[v] == s.space.ptes[v])
    && (plain && v < USERPAGES && HasBytes(s, v) ==> HasBytes(t, v) && Plain(t, v) == Plain(s, v))
  }

  ghost predicate SamePlain(s: View, t: View) {
    && t.space.ptes.Keys == s.space.ptes.Keys && t.space.tables == s.space.tables
    && forall v | v in s.space.ptes :: SameAt(s, t, v, true)
  }

  lemma SamePlainTwice(s: View, t: View, u: View)
    requires SamePlain(s, t) && SamePlain(t, u)
    ensures SamePlain(s, u)
  {
    forall v | v in s.space.ptes ensures SameAt(s, u, v, true) {
      assert SameAt(s, t, v, true) && SameAt(t, u, v, true);
    }
  }

  // ----- encryption -----

  predicate HasTable(sp: Space, v: nat) { v / 1024 in sp.tables }

  predicate Reachable(s: View, v: nat) {
    v in s.space.ptes && InUse(s.space.ptes[v]) && s.space.ptes[v].u
  }

  /** Page v encrypted, unless it is already. */
  function EncPage(s: View, v: nat): View {
    if v !in s.space.ptes || s.space.ptes[v].e || s.space.ptes[v].frame !in s.mem then s
    else
      var x := s.space.ptes[v];
      View(s.space.(ptes := s.space.ptes[v := x.(p := false, e := true)]), s.mem[x.frame := Flip(s.mem[x.frame])])
  }

  lemma EncPageKeeps(s: View, v: nat)
    requires Ok(s) && v in s.space.ptes && v < USERPAGES
    ensures Ok(EncPage(s, v)) && SamePlain(s, EncPage(s, v))
    ensures v in EncPage(s, v).space.ptes && Locked(s.space.ptes[v], EncPage(s, v).space.ptes[v])
    ensures forall w | w in s.space.ptes && w != v ::
              w in EncPage(s, v).space.ptes && EncPage(s, v).space.ptes[w] == s.space.ptes[w]
  {
    assert HasBytes(s, v);
    var t := EncPage(s, v);
    var f := s.space.ptes[v].frame;
    FlipFlip(s.mem[f]);
    forall w | w in s.space.ptes ensures SameAt(s, t, w, true) && EntryOk(t.space, w) {
      assert EntryOk(s.space, w);
      if w < USERPAGES {
        assert HasBytes(s, w);
      }
    }
  }

  /** The n pages from v on encrypted one after the other. */
  function Enc(s: View, v: nat, n: nat): View {
    if n == 0 then s else EncPage(Enc(s, v, n - 1), v + n - 1)
  }

  ghost predicate AllReachable(s: View, v: nat, n: nat) {
    forall w | v <= w < v + n :: Reachable(s, w)
  }

  /** PTE_E set and PTE_P clear, unless the page was encrypted before; nothing else changed. */
  predicate Locked(x: Pte, y: Pte) {
    y == if x.e then x else x.(p := false, e := true)
  }

  lemma UserPage(s: View, v: nat)
    requires Ok(s) && Reachable(s, v)
    ensures v < USERPAGES
  {
    assert EntryOk(s.space, v);
  }

  /** The pages of the range are locked, all other entries unchanged. */
  ghost predicate LocksExactly(s: View, t: View, v: nat, n: nat) {
    && (forall w | w in s.space.ptes && !(v <= w < v + n) :: w in t.space.ptes && t.space.ptes[w] == s.space.ptes[w])
    && (forall w | v <= w < v + n :: w in s.space.ptes && w in t.space.ptes && Locked(s.space.ptes[w], t.space.ptes[w]))
  }

  lemma LocksOneMore(s: View, t: View, v: nat, n: nat)
    requires LocksExactly(s, t, v, n) && Ok(t) && v + n in s.space.ptes && v + n < USERPAGES
    ensures LocksExactly(s, EncPage(t, v + n), v, n + 1)
  {
    hide Ok, EncPage, SamePlain, Locked;
    EncPageKeeps(t, v + n);
  }

  /** Encryption keeps the plaintext of every page and locks exactly its range. */
  lemma {:induction false} EncKeeps(s: View, v: nat, n: nat)
    requires Ok(s) && AllReachable(s, v, n)
    ensures Ok(Enc(s, v, n)) && SamePlain(s, Enc(s, v, n)) && LocksExactly(s, Enc(s, v, n), v, n)
  {
    hide Ok, EncPage, SamePlain, LocksExactly;
    if n == 0 {
      NothingLocked(s, v);
    } else {
      var t, w := Enc(s, v, n - 1), v + (n - 1);
      EncKeeps(s, v, n - 1);
      UserPage(s, w);
      PagesSame(s, t);
      EncPageKeeps(t, w);
      LocksOneMore(s, t, v, n - 1);
      SamePlainTwice(s, t, EncPage(t, w));
    }
  }

  lemma NothingLocked(s: View, v: nat)
    ensures LocksExactly(s, s, v, 0) && SamePlain(s, s)
  {
  }

  lemma PagesSame(s: View, t: View)
    requires SamePlain(s, t)
    ensures t.space.ptes.Keys == s.space.ptes.Keys && t.space.tables == s.space.tables
  {
  }

  /** A second encryption changes nothing. */
  lemma {:induction false} EncTwice(s: View, v: nat, n: nat, k: nat)
    requires Ok(s) && AllReachable(s, v, n) && k <= n
    ensures Enc(Enc(s, v, n), v, k) == Enc(s, v, n)
  {
    hide Ok, EncPage, SamePlain, AllReachable;
    if k > 0 {
      EncTwice(s, v, n, k - 1);
      EncKeeps(s, v, n);
      var t, w := Enc(s, v, n), v + k - 1;
      assert Locked(s.space.ptes[w], t.space.ptes[w]);
      AlreadyLocked(t, w);
    }
  }

  lemma AlreadyLocked(s: View, v: nat)
    requires v in s.space.ptes && s.space.ptes[v].e
    ensures EncPage(s, v) == s
  {
  }

  // ----- decryption -----

  /** PTE_E cleared, PTE_P set, the bytes complemented, whatever the entry was. */
  function DecPage(s: View, v: nat): View {
    if v !in s.space.ptes || s.space.ptes[v].frame !in s.mem then s
    else
      var x := s.space.ptes[v];
      View(s.space.(ptes := s.space.ptes[v := x.(p := true, e := false)]), s.mem[x.frame := Flip(s.mem[x.frame])])
  }

  /** Decryption keeps the plaintext of every other page, and that of its own page if and only if
      that page was encrypted. */
  lemma DecPageKeeps(s: View, v: nat)
    requires Ok(s) && v in s.space.ptes && v < USERPAGES
    ensures Ok(DecPage(s, v)) && SamePlainBut(s, DecPage(s, v), v)
    ensures SamePlain(s, DecPage(s, v)) <==> s.space.ptes[v].e
    ensures HasBytes(s, v) && v in DecPage(s, v).space.ptes && HasBytes(DecPage(s, v), v)
    ensures Plain(DecPage(s, v), v) == if s.space.ptes[v].e then Plain(s, v) else Flip(Plain(s, v))
    ensures forall w | w in s.space.ptes && w != v :: DecPage(s, v).space.ptes[w] == s.space.ptes[w]
  {
    assert HasBytes(s, v);
    var t := DecPage(s, v);
    var f := s.space.ptes[v].frame;
    FlipFlip(s.mem[f]);
    forall w | w in s.space.ptes ensures SameAt(s, t, w, w != v) && EntryOk(t.space, w) {
      assert EntryOk(s.space, w);
      if w < USERPAGES {
        assert HasBytes(s, w);
      }
    }
    assert SamePlain(s, t) ==> SameAt(s, t, v, true);
    if s.space.ptes[v].e {
      assert SameAt(s, t, v, true);
      assert forall w | w in s.space.ptes :: SameAt(s, t, w, w != v);
    }
  }

  /** Encrypting and decrypting a page gives the page back, with PTE_P set. */
  lemma DecEnc(s: View, v: nat)
    requires Ok(s) && v in s.space.ptes && v < USERPAGES && !s.space.ptes[v].e
    ensures DecPage(EncPage(s, v), v) == s
  {
    assert HasBytes(s, v) && EntryOk(s.space, v);
    var x := s.space.ptes[v];
    FlipFlip(s.mem[x.frame]);
    assert x.(p := false, e := true).(p := true, e := false) == x;
    assert s.space.ptes[v := x] == s.space.ptes;
    assert s.mem[x.frame := s.mem[x.frame]] == s.mem;
  }

  // ----- eviction -----

  /** PTE_A cleared in the pages of a set. */
  function Clear(s: View, pages: set<nat>): View {
    s.(space := s.space.(ptes := map v | v in s.space.ptes ::
      if v in pages then s.space.ptes[v].(a := false) else s.space.ptes[v]))
  }

  lemma ClearKeeps(s: View, pages: set<nat>)
    requires Ok(s) && forall v | v in pages :: v < USERPAGES
    ensures Ok(Clear(s, pages)) && SamePlain(s, Clear(s, pages))
  {
    var t := Clear(s, pages);
    forall v | v in s.space.ptes ensures SameAt(s, t, v, true) && EntryOk(t.space, v) {
      assert EntryOk(s.space, v);
      if v < USERPAGES {
        assert HasBytes(s, v);
      }
    }
  }

  /** Some pages lost their ref bit and a victim, if there is one that can be reached, is encrypted. */
  function Evicted(s: View, pages: set<nat>, victim: Option<nat>): View {
    var t := Clear(s, pages);
    if victim.Some? && Reachable(t, victim.value) then EncPage(t, victim.value) else t
  }

  lemma EvictedKeeps(s: View, pages: set<nat>, victim: Option<nat>)
    requires Ok(s) && forall v | v in pages :: v < USERPAGES
    ensures Ok(Evicted(s, pages, victim)) && SamePlain(s, Evicted(s, pages, victim))
    ensures forall v | v in s.space.ptes && v !in pages && Some(v) != victim ::
      v in Evicted(s, pages, victim).space.ptes && Evicted(s, pages, victim).space.ptes[v] == s.space.ptes[v]
  {
    hide Ok, SamePlain;
    ClearKeeps(s, pages);
    var t := Clear(s, pages);
    if victim.Some? && Reachable(t, victim.value) {
      UserPage(t, victim.value);
      EncPageKeeps(t, victim.value);
      SamePlainTwice(s, t, EncPage(t, victim.value));
    }
  }

  lemma SamePlainAfter(s: View, t: View, u: View, x: nat)
    requires SamePlainBut(s, t, x) && SamePlain(t, u)
    ensures SamePlainBut(s, u, x)
  {
    forall v | v in s.space.ptes ensures SameAt(s, u, v, v != x) {
      assert SameAt(s, t, v, v != x) && SameAt(t, u, v, true);
    }
  }

  // va is the address that faulted, page the page of the entry it points to
  datatype Slot = Slot(va: nat, page: nat, empty: bool)

  /** Every slot in use stands for a user page of this address space, and no two for the same. */
  ghost predicate RingOk(ring: seq<Slot>, tables: map<nat, nat>) {
    && |ring| == 8
    && (forall i | 0 <= i < 8 && !ring[i].empty :: SlotOk(ring[i], tables))
    && forall i, j | 0 <= i < j < 8 && !ring[i].empty && !ring[j].empty :: ring[i].page != ring[j].page
  }

  /** A slot in use holds the page. */
  ghost predicate InSet(ring: seq<Slot>, v: nat) {
    exists i :: 0 <= i < |ring| && !ring[i].empty && ring[i].page == v
  }

  ghost predicate SlotOk(slot: Slot, tables: map<nat, nat>) {
    slot.page == slot.va / 4096 && slot.va < KERNBASE && slot.page / 1024 in tables
  }

  // ----- the hand of the clock -----

  /** The slot under the hand after k + 1 steps. */
  function Reached(hand: int, k: nat): (i: nat)
    requires -1 <= hand < 8
    ensures i < 8
  {
    (hand + 1 + k) % 8
  }

  /** A slot in use whose page has its ref bit set: the hand passes over it. */
  ghost predicate Referenced(s: View, slot: Slot) {
    !slot.empty && slot.page in s.space.ptes && s.space.ptes[slot.page].a
  }

  /** The hand passes over the next m slots and no more; eight is once around. */
  ghost predicate Passes(s: View, ring: seq<Slot>, hand: int, m: nat) {
    && |ring| == 8 && -1 <= hand < 8 && m <= 8
    && (forall k | 0 <= k < m :: Referenced(s, ring[Reached(hand, k)]))
    && (m < 8 ==> !Referenced(s, ring[Reached(hand, m)]))
  }

  ghost function PageUnder(ring: seq<Slot>, hand: int, k: nat): nat
    requires |ring| == 8 && -1 <= hand < 8
  {
    ring[Reached(hand, k)].page
  }

  /** The pages in the first m slots. */
  ghost function PassedPages(ring: seq<Slot>, hand: int, m: nat): set<nat>
    requires |ring| == 8 && -1 <= hand < 8
  {
    set k | 0 <= k < m :: PageUnder(ring, hand, k)
  }

  /** What an eviction does to an entry: a passed page loses its ref bit, a page put out is locked. */
  predicate Swept(x: Pte, y: Pte, passed: bool, out: bool) {
    var z := if passed then x.(a := false) else x;
    y == if out && !z.e then z.(p := false, e := true) else z
  }

  /** Page v took the place under the hand after m pages were passed over; `victim` was there. */
  ghost predicate Replaced(s: View, ring: seq<Slot>, hand: int, ring': seq<Slot>, hand': int, va: nat, m: nat,
                           cleared: set<nat>, victim: Option<nat>) {
    && Passes(s, ring, hand, m)
    && hand' == Reached(hand, m)
    && ring' == ring[hand' := Slot(va, va / 4096, false)]
    && cleared == PassedPages(ring, hand, m)
    && victim == if ring[hand'].empty then None else Some(ring[hand'].page)
  }

  /** Every entry after the pages of a set lost their ref bit and the victim, if reachable, was locked. */
  ghost predicate SweptAll(s: View, t: View, cleared: set<nat>, victim: Option<nat>) {
    && t.space.tables == s.space.tables && t.space.ptes.Keys == s.space.ptes.Keys
    && forall w | w in s.space.ptes ::
         w in t.space.ptes && Swept(s.space.ptes[w], t.space.ptes[w], w in cleared, victim == Some(w) && Reachable(s, w))
  }

  lemma EvictedSweeps(s: View, cleared: set<nat>, victim: Option<nat>)
    requires Ok(s)
    ensures SweptAll(s, Evicted(s, cleared, victim), cleared, victim)
  {
    if victim.Some? && Reachable(s, victim.value) {
      UserPage(s, victim.value);
      assert HasBytes(s, victim.value);
    }
  }

  /** A page that left the ring is the victim. */
  lemma OneLeaves(s: View, ring: seq<Slot>, hand: int, ring': seq<Slot>, hand': int, va: nat, m: nat,
                  cleared: set<nat>, victim: Option<nat>, w: nat)
    requires Replaced(s, ring, hand, ring', hand', va, m, cleared, victim)
    requires InSet(ring, w) && !InSet(ring', w)
    ensures victim == Some(w)
  {
    assert forall j | 0 <= j < 8 && j != hand' :: ring'[j] == ring[j];
    var i :| 0 <= i < 8 && !ring[i].empty && ring[i].page == w;
  }

  /** The hand moves on over slot number m. */
  lemma PassesOne(s: View, tables: map<nat, nat>, ring: seq<Slot>, hand: int, m: nat)
    requires RingOk(ring, tables) && -1 <= hand < 8 && m <= 8
    requires forall k | 0 <= k < m :: Referenced(s, ring[Reached(hand, k)])
    ensures
      var slot, cleared := ring[Reached(hand, m)], PassedPages(ring, hand, m);
      && (m == 8 ==> slot.page in cleared && !slot.empty)
      && (m < 8 && !slot.empty ==> slot.page !in cleared)
      && PassedPages(ring, hand, m + 1) == cleared + {slot.page}
      && (m == 0 ==> cleared == {})
  {
    if m == 8 {
      assert Reached(hand, 8) == Reached(hand, 0);
      assert PageUnder(ring, hand, 0) in PassedPages(ring, hand, m);
      assert Referenced(s, ring[Reached(hand, 0)]);
    } else if !ring[Reached(hand, m)].empty {
      forall k | 0 <= k < m ensures PageUnder(ring, hand, k) != PageUnder(ring, hand, m) {
        assert Referenced(s, ring[Reached(hand, k)]) && Reached(hand, k) != Reached(hand, m);
      }
    }
    forall p | p in PassedPages(ring, hand, m + 1)
      ensures p in PassedPages(ring, hand, m) + {ring[Reached(hand, m)].page}
    {
      var k :| 0 <= k < m + 1 && PageUnder(ring, hand, k) == p;
    }
    assert PageUnder(ring, hand, m) in PassedPages(ring, hand, m + 1);
  }

  datatype Translation = NoTable | Closed | At(frame: nat)

  // Fault stands for the use of a page table that is not there.
  datatype Result = Done | Refused | Fault

  class Process {
    var space: Space
    var mem: map<nat, Bytes>
    const cq: array<Slot>
    var hand: int

    ghost function Pages(): View
      reads this
    {
      View(space, mem)
    }

    ghost predicate Valid()
      reads this, cq
    {
      Ok(Pages()) && cq.Length == 8 && RingOk(cq[..], space.tables) && -1 <= hand < 8
    }

    /** Complements the page of bytes in frame f, byte by byte. */
    method FlipBytes(f: nat)
      requires f in mem && |mem[f]| == 4096
      modifies this`mem
      ensures mem == old(mem)[f := Flip(old(mem)[f])]
      ensures |mem[f]| == 4096 && forall j | 0 <= j < 4096 :: mem[f][j] == !old(mem)[f][j]
    {
      ghost var b := mem[f];
      for i := 0 to 4096
        invariant f in mem && |mem[f]| == 4096
        invariant forall j | 0 <= j < 4096 :: mem[f][j] == if j < i then Flip(b)[j] else b[j]
        invariant mem == old(mem)[f := mem[f]]
      {
        mem := mem[f := mem[f][i := !mem[f][i]]];
      }
      assert mem[f] == Flip(b);
    }

    /** The frame of a user page, if the page is mapped for users; a fault without a page table. */
    method Uva2ka(v: nat) returns (r: Translation)
      requires Valid()
      ensures r.NoTable? <==> !HasTable(space, v)
      ensures r.At? <==> Reachable(Pages(), v)
      ensures r.At? ==> r.frame == space.ptes[v].frame
    {
      Missing(Pages(), v);
      if !HasTable(space, v) {
        return NoTable;
      }
      if v !in space.ptes || !(space.ptes[v].p || space.ptes[v].e) {
        return Closed;
      }
      if !space.ptes[v].u {
        return Closed;
      }
      r := At(space.ptes[v].frame);
    }

    /** Encrypts len pages from the page of va on: all of them or, if one cannot be reached, none. */
    method Mencrypt(va: nat, len: int) returns (r: Result)
      requires Valid()
      modifies this`space, this`mem
      ensures Valid()
      ensures var n := if len < 0 then 0 else len;
        && (r.Done? <==> AllReachable(old(Pages()), va / 4096, n))
        && (Pages() == if r.Done? then Enc(old(Pages()), va / 4096, n) else old(Pages()))
        && (r.Done? ==> SamePlain(old(Pages()), Pages()) && LocksExactly(old(Pages()), Pages(), va / 4096, n))
        && (!r.Done? ==>
              exists i: nat ::
                && i < n && AllReachable(old(Pages()), va / 4096, i) && !Reachable(old(Pages()), va / 4096 + i)
                && (r.Fault? <==> !HasTable(old(space), va / 4096 + i)))
    {
      hide Ok, SamePlain, LocksExactly;
      var v, i := va / 4096, 0;
      while i < len
        invariant 0 <= i && v == va / 4096 + i && (i <= len || i == 0)
        invariant AllReachable(Pages(), va / 4096, i)
        invariant Pages() == old(Pages()) && RingOk(cq[..], space.tables)
      {
        var k := Uva2ka(v);
        if k.NoTable? {
          return Fault;
        }
        if k.Closed? {
          return Refused;
        }
        v, i := v + 1, i + 1;
      }
      ghost var n := i;
      ghost var s0 := Pages();
      v, i := va / 4096, 0;
      while i < len
        invariant 0 <= i <= n && v == va / 4096 + i
        invariant Pages() == Enc(s0, va / 4096, i)
        invariant RingOk(cq[..], space.tables)
      {
        StillThere(s0, va / 4096, n, i);
        if space.ptes[v].e {
          v, i := v + 1, i + 1;
          continue;
        }
        FlipBytes(space.ptes[v].frame);
        space := space.(ptes := space.ptes[v := space.ptes[v].(p := false, e := true)]);
        v, i := v + 1, i + 1;
      }
      EncKeeps(s0, va / 4096, n);
      PagesSame(s0, Pages());
      r := Done;
    }

    /** The page of the pte in a slot is marked as referenced. */
    predicate Marked(i: nat)
      requires i < cq.Length
      reads this, cq
    {
      cq[i].page in space.ptes && space.ptes[cq[i].page].a
    }

    /** Puts the page of va into the working set. The hand passes over referenced pages, m of them,
        and clears their ref bits; the page takes the next slot, and the page there is encrypted. */
    method Enset(va: nat) returns (r: int, ghost m: nat, ghost cleared: set<nat>, ghost victim: Option<nat>)
      requires Valid() && va < KERNBASE
      modifies this, cq
      ensures Valid() && (r == 0 <==> HasTable(old(space), va / 4096)) && (r == 0 || r == -1)
      ensures r == -1 || InSet(old(cq[..]), va / 4096) ==>
                Pages() == old(Pages()) && cq[..] == old(cq[..]) && hand == old(hand) && cleared == {} && victim == None
      ensures r == 0 && !InSet(old(cq[..]), va / 4096) ==>
                Replaced(old(Pages()), old(cq[..]), old(hand), cq[..], hand, va, m, cleared, victim)
      ensures SweptAll(old(Pages()), Pages(), cleared, victim) && SamePlain(old(Pages()), Pages())
      ensures Pages() == Evicted(old(Pages()), cleared, victim)
      ensures va / 4096 !in cleared && victim != Some(va / 4096) && forall v | v in cleared :: v < USERPAGES
      ensures r == 0 ==> InSet(cq[..], va / 4096)
    {
      hide Ok, RingOk, Clear, Enc, EncPage, Evicted, SweptAll, SamePlain, PassedPages, Reached, InSet, Passes;
      m, cleared, victim := 0, {}, None;
      ghost var s0, ring, hand0 := Pages(), cq[..], hand;
      NoneEvicted(s0);
      EvictedKeeps(s0, {}, None);
      EvictedSweeps(s0, {}, None);
      if !HasTable(space, va / 4096) {
        return -1, 0, {}, None;
      }
      var found := InRing(va / 4096);
      if found {
        return 0, 0, {}, None;
      }
      var h;
      h, m, cleared := Sweep(va / 4096);
      if !cq[h].empty {
        ghost var t := Pages();
        victim := Some(cq[h].page);
        var ignored := Mencrypt(cq[h].va, 1);
        EncOne(t, cq[h].page);
      }
      cq[h] := Slot(va, va / 4096, false);
      RingSet(ring, space.tables, h, va);
      assert cq[..] == ring[h := Slot(va, va / 4096, false)];
      SetHas(cq[..], h, va / 4096);
      EvictedIs(s0, cleared, victim);
      EvictedKeeps(s0, cleared, victim);
      EvictedSweeps(s0, cleared, victim);
      hand := h;
      r := 0;
    }

    /** The moves of the hand: from slot to slot, clearing ref bits, up to a slot that is empty or whose
        page is not referenced. */
    method Sweep(ghost v: nat) returns (h: nat, ghost m: nat, ghost cleared: set<nat>)
      requires Valid() && !InSet(cq[..], v)
      modifies this`space
      ensures Valid() && h < 8 && Pages() == Clear(old(Pages()), cleared) && space.tables == old(space).tables
      ensures Passes(old(Pages()), cq[..], hand, m) && h == Reached(hand, m) && cleared == PassedPages(cq[..], hand, m)
      ensures !cq[h].empty ==> SlotOk(cq[h], space.tables) && cq[h].page != v
      ensures v !in cleared && forall w | w in cleared :: w < USERPAGES
    {
      hide Ok, RingOk, Clear, PassedPages, Reached, InSet;
      m, cleared := 0, {};
      ghost var s0, ring := Pages(), cq[..];
      NoneEvicted(s0);
      PassesOne(s0, space.tables, ring, hand, 0);
      var i := hand;
      while true
        invariant Valid() && -1 <= i < 8 && Pages() == Clear(s0, cleared) && space.tables == s0.space.tables
        invariant m <= 8 && i == (if m == 0 then hand else Reached(hand, m - 1))
        invariant cleared == PassedPages(ring, hand, m)
        invariant forall k | 0 <= k < m :: Referenced(s0, ring[Reached(hand, k)])
        invariant v !in cleared && forall w | w in cleared :: w < USERPAGES
        decreases 8 - m
      {
        NextReached(hand, m, i);
        h := ClockRing.Next(i);
        i := h;
        PassesOne(s0, space.tables, ring, hand, m);
        SlotGives(ring, space.tables, h, v);
        ClearMarks(s0, cleared, ring[h].page);
        if cq[h].empty || !Marked(h) {
          return;
        }
        var p := cq[h].page;
        ClearOne(s0, cleared, p);
        cleared := cleared + {p};
        ClearKeeps(s0, cleared);
        space := space.(ptes := space.ptes[p := space.ptes[p].(a := false)]);
        m := m + 1;
      }
    }

    method InRing(v: nat) returns (found: bool)
      requires cq.Length == 8
      ensures found <==> InSet(cq[..], v)
    {
      for i := 0 to 8
        invariant forall j | 0 <= j < i :: cq[j].page == v ==> cq[j].empty
      {
        if cq[i].page == v && !cq[i].empty {
          assert cq[..][i] == cq[i];
          return true;
        }
      }
      found := false;
    }

    /** Decrypts the page of va and makes room for it. A page that leaves the working set is encrypted. */
    method Mdecrypt(va: nat) returns (r: int, ghost m: nat, ghost cleared: set<nat>, ghost victim: Option<nat>)
      requires Valid()
      modifies this, cq
      ensures Valid() && (r == 0 || r == -1)
      ensures r == -1 <==> va >= KERNBASE || va / 4096 !in old(space).ptes
      ensures r == -1 ==> Pages() == old(Pages()) && cq[..] == old(cq[..]) && hand == old(hand)
      ensures r == 0 ==>
        var v := va / 4096;
        && Pages() == Evicted(DecPage(old(Pages()), v), cleared, victim)
        && SamePlainBut(old(Pages()), Pages(), v)
        && (SamePlain(old(Pages()), Pages()) <==> old(space).ptes[v].e)
        && v in space.ptes && space.ptes[v] == old(space).ptes[v].(p := true, e := false)
        && InSet(cq[..], v)
        && (if InSet(old(cq[..]), v) then cq[..] == old(cq[..]) && hand == old(hand) && cleared == {} && victim == None
            else Replaced(old(Pages()), old(cq[..]), old(hand), cq[..], hand, va, m, cleared, victim))
        && forall w | w in old(space).ptes && w != v ::
             && w in space.ptes
             && Swept(old(space).ptes[w], space.ptes[w], w in cleared, victim == Some(w) && Reachable(old(Pages()), w))
      ensures Resident(old(Pages()), old(cq[..])) ==> Resident(Pages(), cq[..])
    {
      hide Ok, RingOk, SamePlain, SamePlainBut, Evicted, InSet, Replaced, Resident, SweptAll, Reachable, Swept;
      m, cleared, victim := 0, {}, None;
      if va >= KERNBASE {
        return -1, 0, {}, None;
      }
      var v := va / 4096;
      if !HasTable(space, v) || v !in space.ptes {
        Missing(Pages(), v);
        return -1, 0, {}, None;
      }
      ghost var s0 := Pages();
      DecPageKeeps(s0, v);
      Missing(s0, v);
      var x := space.ptes[v];
      space := space.(ptes := space.ptes[v := x.(p := true, e := false)]);
      FlipBytes(x.frame);
      assert Pages() == DecPage(s0, v);
      ghost var ring, hand0, s1 := cq[..], hand, Pages();
      r, m, cleared, victim := Enset(va);
      Decrypted(s0, Pages(), v, cleared, victim);
      if !InSet(ring, v) {
        SameMarks(s0, v, ring, hand0, cq[..], hand, va, m, cleared, victim);
      }
      SweptOthers(s0, v, Pages(), cleared, victim);
      StaysResident(s0, v, Pages(), ring, hand0, cq[..], hand, va, m, cleared, victim);
    }
  }

  /** Decryption does not touch ref bits. */
  lemma SameMarks(s: View, v: nat, ring: seq<Slot>, hand: int, ring': seq<Slot>, hand': int, va: nat, m: nat,
                  cleared: set<nat>, victim: Option<nat>)
    requires Replaced(DecPage(s, v), ring, hand, ring', hand', va, m, cleared, victim)
    ensures Replaced(s, ring, hand, ring', hand', va, m, cleared, victim)
  {
    hide Reached, PassedPages;
    forall slot ensures Referenced(DecPage(s, v), slot) <==> Referenced(s, slot) {
    }
  }

  lemma SweptOthers(s: View, v: nat, u: View, cleared: set<nat>, victim: Option<nat>)
    requires SweptAll(DecPage(s, v), u, cleared, victim)
    ensures forall w | w in s.space.ptes && w != v ::
              && w in u.space.ptes
              && Swept(s.space.ptes[w], u.space.ptes[w], w in cleared, victim == Some(w) && Reachable(s, w))
  {
    hide Swept;
    forall w | w in s.space.ptes && w != v
      ensures DecPage(s, v).space.ptes[w] == s.space.ptes[w] && Reachable(DecPage(s, v), w) == Reachable(s, w)
    {
    }
  }

  /** Decrypted pages are in the working set. */
  ghost predicate Resident(s: View, ring: seq<Slot>) {
    forall v | Reachable(s, v) && !s.space.ptes[v].e :: InSet(ring, v)
  }

  lemma StaysResident(s: View, v: nat, u: View, ring: seq<Slot>, hand: int, ring': seq<Slot>, hand': int, va: nat, m: nat,
                      cleared: set<nat>, victim: Option<nat>)
    requires SweptAll(DecPage(s, v), u, cleared, victim) && InSet(ring', v)
    requires ring' == ring || Replaced(s, ring, hand, ring', hand', va, m, cleared, victim)
    ensures Resident(s, ring) ==> Resident(u, ring')
  {
    hide InSet, Replaced;
    if Resident(s, ring) {
      SweptOthers(s, v, u, cleared, victim);
      forall w | Reachable(u, w) && !u.space.ptes[w].e && w != v ensures InSet(ring', w) {
        assert w in s.space.ptes && Swept(s.space.ptes[w], u.space.ptes[w], w in cleared, victim == Some(w) && Reachable(s, w));
        if ring' != ring && !InSet(ring', w) {
          OneLeaves(s, ring, hand, ring', hand', va, m, cleared, victim, w);
        }
      }
    }
  }

  lemma NoneEvicted(s: View)
    ensures Clear(s, {}) == s && Evicted(s, {}, None) == s
  {
    assert Clear(s, {}).space.ptes == s.space.ptes;
  }

  lemma SetHas(ring: seq<Slot>, i: nat, v: nat)
    requires i < |ring| && !ring[i].empty && ring[i].page == v
    ensures InSet(ring, v)
  {
  }

  lemma EncOne(s: View, v: nat)
    ensures Enc(s, v, 1) == EncPage(s, v) && EncPage(s, v).space.tables == s.space.tables
  {
    assert Enc(s, v, 0) == s;
  }

  lemma ClearOne(s: View, pages: set<nat>, p: nat)
    requires p in s.space.ptes
    ensures var t := Clear(s, pages);
      Clear(s, pages + {p}) == t.(space := t.space.(ptes := t.space.ptes[p := t.space.ptes[p].(a := false)]))
  {
    var t := Clear(s, pages);
    assert Clear(s, pages + {p}).space.ptes == t.space.ptes[p := t.space.ptes[p].(a := false)];
  }

  lemma SlotGives(ring: seq<Slot>, tables: map<nat, nat>, i: nat, v: nat)
    requires RingOk(ring, tables) && i < 8 && !InSet(ring, v)
    ensures |ring| == 8 && (!ring[i].empty ==> SlotOk(ring[i], tables) && ring[i].page != v)
  {
  }

  lemma NextReached(hand: int, m: nat, h: int)
    requires -1 <= hand < 8 && m <= 8 && -1 <= h < 8 && h == if m == 0 then hand else Reached(hand, m - 1)
    ensures ClockRing.Next(h) == Reached(hand, m)
  {
    var x := hand + 1 + m;
    if x < 8 {
      assert x % 8 == x;
    } else if x < 16 {
      assert x % 8 == x - 8;
    } else {
      assert x == 16;
    }
  }

  /** The ref bit of page p once the pages of a set have lost theirs. */
  lemma ClearMarks(s: View, pages: set<nat>, p: nat)
    ensures p in Clear(s, pages).space.ptes <==> p in s.space.ptes
    ensures p in s.space.ptes ==> (Clear(s, pages).space.ptes[p].a <==> s.space.ptes[p].a && p !in pages)
  {
  }

  lemma EvictedIs(s: View, pages: set<nat>, victim: Option<nat>)
    ensures Evicted(s, pages, victim) ==
            if victim.Some? && Reachable(Clear(s, pages), victim.value) then EncPage(Clear(s, pages), victim.value)
            else Clear(s, pages)
  {
  }

  lemma RingSet(ring: seq<Slot>, tables: map<nat, nat>, i: nat, va: nat)
    requires RingOk(ring, tables) && i < 8 && va < KERNBASE && va / 4096 / 1024 in tables && !InSet(ring, va / 4096)
    ensures |ring| == 8 && RingOk(ring[i := Slot(va, va / 4096, false)], tables)
  {
  }

  lemma Missing(s: View, v: nat)
    requires Ok(s)
    ensures v in s.space.ptes ==> HasTable(s.space, v)
  {
    assert v in s.space.ptes ==> EntryOk(s.space, v);
  }

  /** Decryption with eviction keeps all plaintext if and only if its page was encrypted. */
  lemma Decrypted(s: View, u: View, v: nat, cleared: set<nat>, victim: Option<nat>)
    requires Ok(s) && v in s.space.ptes && v < USERPAGES && u == Evicted(DecPage(s, v), cleared, victim)
    requires v !in cleared && victim != Some(v) && forall w | w in cleared :: w < USERPAGES
    ensures SamePlainBut(s, u, v) && (SamePlain(s, u) <==> s.space.ptes[v].e)
    ensures v in u.space.ptes && u.space.ptes[v] == s.space.ptes[v].(p := true, e := false)
  {
    hide Ok, Evicted;
    var t := DecPage(s, v);
    DecPageKeeps(s, v);
    EvictedKeeps(t, cleared, victim);
    SamePlainAfter(s, t, u, v);
    assert SameAt(t, u, v, true) && HasBytes(t, v);
    FlipFlip(Plain(s, v));
    if s.space.ptes[v].e {
      SamePlainTwice(s, t, u);
    } else {
      assert !SameAt(s, u, v, true);
    }
  }

  lemma StillThere(s: View, v: nat, n: nat, i: nat)
    requires Ok(s) && AllReachable(s, v, n) && i < n
    ensures var t := Enc(s, v, i); v + i in t.space.ptes && HasBytes(t, v + i)
  {
    assert AllReachable(s, v, i);
    EncKeeps(s, v, i);
    UserPage(s, v + i);
    var t := Enc(s, v, i);
    assert v + i in s.space.ptes;
    assert HasBytes(t, v + i);
  }
}
