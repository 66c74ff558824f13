/** The CLOCK working set of clock.c: what the ring must do, stated on a first-in first-out queue,
    and what that keeps about the pages. */
module Clock {

  const CLOCKSIZE := 8

  // page table entry flags
  const PTE_P: bv32 := 0x001
  const PTE_A: bv32 := 0x020
  const PTE_E: bv32 := 0x200

  type Pte = bv32

  predicate Present(p: Pte) { p & PTE_P != 0 }
  predicate Accessed(p: Pte) { p & PTE_A != 0 }
  predicate Encrypted(p: Pte) { p & PTE_E != 0 }

  /** mencrypt and mdecrypt of clock.c on one entry; the bits of the page are not modelled here. */
  function Encrypt(p: Pte): Pte { if p & PTE_E != 0 then p else (p | PTE_E) & !PTE_P }
  function Decrypt(p: Pte): Pte { if p & PTE_E == 0 then p else (p & !PTE_E) | PTE_P }
  function ClearRef(p: Pte): Pte { p & !PTE_A }
  function SetRef(p: Pte): Pte { p | PTE_A }

  lemma Flags(p: Pte)
    ensures Accessed(Encrypt(p)) == Accessed(p) == Accessed(Decrypt(p))
    ensures Encrypted(Encrypt(p)) && !Encrypted(Decrypt(p))
    ensures Encrypted(p) || Present(p) ==> Present(Decrypt(p))
    ensures Present(p) != Encrypted(p) ==> !Present(Encrypt(p))
    ensures !Accessed(ClearRef(p)) && Present(ClearRef(p)) == Present(p) && Encrypted(ClearRef(p)) == Encrypted(p)
    ensures Accessed(SetRef(p)) && Present(SetRef(p)) == Present(p) && Encrypted(SetRef(p)) == Encrypted(p)
  {
  }

  /** No other bit changes: the frame address and the other flags stay. */
  lemma OtherBits(p: Pte)
    ensures Encrypt(p) & !(PTE_P | PTE_E) == p & !(PTE_P | PTE_E)
    ensures Decrypt(p) & !(PTE_P | PTE_E) == p & !(PTE_P | PTE_E)
    ensures ClearRef(p) & !PTE_A == p & !PTE_A
    ensures SetRef(p) & !PTE_A == p & !PTE_A
  {
    hide Encrypt, Decrypt, ClearRef, SetRef;
    EncryptBits(p);
    DecryptBits(p);
    RefBits(p);
  }

  lemma EncryptBits(p: Pte)
    ensures Encrypt(p) & !(PTE_P | PTE_E) == p & !(PTE_P | PTE_E)
  {
  }

  lemma DecryptBits(p: Pte)
    ensures Decrypt(p) & !(PTE_P | PTE_E) == p & !(PTE_P | PTE_E)
  {
  }

  lemma RefBits(p: Pte)
    ensures ClearRef(p) & !PTE_A == p & !PTE_A && SetRef(p) & !PTE_A == p & !PTE_A
  {
  }

  lemma DecryptEncrypt(p: Pte)
    ensures Present(p) && !Encrypted(p) ==> Decrypt(Encrypt(p)) == p
    ensures !Present(p) && Encrypted(p) ==> Encrypt(Decrypt(p)) == p
  {
  }

  /** The pages of the working set, oldest first, and the page table. */
  datatype State = State(q: seq<nat>, ptes: seq<Pte>)

  ghost predicate Distinct(q: seq<nat>) {
    forall i, j | 0 <= i < j < |q| :: q[i] != q[j]
  }

  ghost predicate Mapped(s: State) {
    forall i | 0 <= i < |s.q| :: s.q[i] < |s.ptes|
  }

  /** The first page whose ref bit is clear, or |q| if there is none. */
  function FirstUnref(q: seq<nat>, ptes: seq<Pte>): (k: nat)
    requires forall i | 0 <= i < |q| :: q[i] < |ptes|
    ensures k <= |q|
    ensures forall i | 0 <= i < k :: Accessed(ptes[q[i]])
    ensures k < |q| ==> !Accessed(ptes[q[k]])
  {
    if q == [] || !Accessed(ptes[q[0]]) then 0 else 1 + FirstUnref(q[1..], ptes)
  }

  /** Clearing the ref bits of the pages in q. */
  function Unref(ptes: seq<Pte>, q: seq<nat>): (r: seq<Pte>)
    requires forall i | 0 <= i < |q| :: q[i] < |ptes|
    ensures |r| == |ptes|
    ensures forall v | 0 <= v < |ptes| :: r[v] == if v in q then ClearRef(ptes[v]) else ptes[v]
  {
    seq(|ptes|, v requires 0 <= v < |ptes| => if v in q then ClearRef(ptes[v]) else ptes[v])
  }

  /** Second chance. A full queue gives up its first unreferenced page; the referenced pages ahead
      of it lose their ref bits and go to the back; if all are referenced, all lose their bits and
      the oldest goes. The new page joins at the back, decrypted. */
  function Insert(s: State, v: nat): (r: State)
    requires Mapped(s) && v < |s.ptes|
  {
    if |s.q| < CLOCKSIZE then State(s.q + [v], s.ptes[v := Decrypt(s.ptes[v])])
    else
      var k := FirstUnref(s.q, s.ptes);
      var cleared := Unref(s.ptes, s.q[..k]);
      var victim := if k < |s.q| then s.q[k] else s.q[0];
      var rest := if k < |s.q| then s.q[k + 1..] + s.q[..k] else s.q[1..];
      var ptes := cleared[victim := Encrypt(cleared[victim])];
      State(rest + [v], ptes[v := Decrypt(ptes[v])])
  }

  /** A reference to page v. */
  function Ref(s: State, v: nat): (r: State)
    requires Mapped(s) && v < |s.ptes|
  {
    if Present(s.ptes[v]) then s.(ptes := s.ptes[v := SetRef(s.ptes[v])])
    else
      var t := Insert(s, v);
      t.(ptes := t.ptes[v := SetRef(t.ptes[v])])
  }

  /** The queue without page v, in the same order. */
  function Without(q: seq<nat>, v: nat): (r: seq<nat>)
    ensures v !in r && forall w :: w != v ==> (w in r <==> w in q)
  {
    if q == [] then []
    else
      assert q == [q[0]] + q[1..];
      if q[0] == v then Without(q[1..], v) else [q[0]] + Without(q[1..], v)
  }

  // ----- residency -----

  /** Of the live pages exactly those in the queue are decrypted; each has one of PTE_P and PTE_E;
      an encrypted one is not marked as referenced; no page is queued twice. */
  ghost predicate Resident(s: State, live: set<nat>) {
    && |s.q| <= CLOCKSIZE && Distinct(s.q)
    && (forall v | v in s.q :: v in live)
    && (forall v | v in live :: v < |s.ptes|)
    && (forall v | v in live :: PageOk(s.ptes[v], v in s.q))
  }

  predicate PageOk(p: Pte, queued: bool) {
    && Present(p) == queued
    && Encrypted(p) == !queued
    && (Encrypted(p) ==> !Accessed(p))
  }

  lemma PageChanges(p: Pte)
    ensures PageOk(p, false) ==> PageOk(Decrypt(p), true)
    ensures PageOk(p, true) ==> PageOk(SetRef(p), true) && PageOk(ClearRef(p), true)
    ensures PageOk(p, true) && !Accessed(p) ==> PageOk(Encrypt(p), false)
    ensures !Accessed(ClearRef(p))
  {
    hide Encrypt, Decrypt, ClearRef, SetRef, Present, Accessed, Encrypted;
    Flags(p);
  }

  // The queue after inserting into a full ring, on the queue alone.
  function Survivors(q: seq<nat>, k: nat): (r: seq<nat>)
    requires q != [] && k <= |q|
  {
    if k < |q| then q[k + 1..] + q[..k] else q[1..]
  }

  function Victim(q: seq<nat>, k: nat): (r: nat)
    requires q != [] && k <= |q|
  {
    if k < |q| then q[k] else q[0]
  }

  /** Exactly the victim leaves the queue. */
  lemma SurvivorsAre(q: seq<nat>, k: nat)
    requires q != [] && k <= |q| && Distinct(q)
    ensures |Survivors(q, k)| == |q| - 1 && Distinct(Survivors(q, k))
    ensures forall w :: w in Survivors(q, k) <==> w in q && w != Victim(q, k)
  {
    var r := Survivors(q, k);
    var n := |q|;
    forall w ensures w in r <==> w in q && w != Victim(q, k) {
      if w in q && w != Victim(q, k) {
        var i :| 0 <= i < n && q[i] == w;
        if k < n {
          assert if i < k then r[n - 1 - k + i] == w else r[i - k - 1] == w;
        } else {
          assert r[i - 1] == w;
        }
      }
    }
  }

  lemma InsertParts(s: State, v: nat)
    requires Mapped(s) && v < |s.ptes| && |s.q| == CLOCKSIZE
    ensures var k := FirstUnref(s.q, s.ptes);
      var cleared := Unref(s.ptes, s.q[..k]);
      var victim := Victim(s.q, k);
      var ptes := cleared[victim := Encrypt(cleared[victim])];
      Insert(s, v) == State(Survivors(s.q, k) + [v], ptes[v := Decrypt(ptes[v])])
  {
  }

  lemma ReferencePage(p: Pte)
    ensures PageOk(p, false) ==> PageOk(SetRef(Decrypt(p)), true)
    ensures Accessed(SetRef(p))
  {
    hide Encrypt, Decrypt, ClearRef, SetRef, Present, Accessed, Encrypted;
    Flags(p);
    Flags(Decrypt(p));
  }

  /** A reference decrypts and marks its page and keeps residency. */
  lemma RefResident(s: State, v: nat, live: set<nat>)
    requires Resident(s, live) && v in live
    ensures Mapped(s) && Resident(Ref(s, v), live)
    ensures v in Ref(s, v).q && Accessed(Ref(s, v).ptes[v])
  {
    hide Encrypt, Decrypt, ClearRef, SetRef, Present, Accessed, Encrypted, Unref, FirstUnref;
    assert forall i | 0 <= i < |s.q| :: s.q[i] in s.q;
    PageChanges(s.ptes[v]);
    ReferencePage(s.ptes[v]);
    if !Present(s.ptes[v]) {
      var t := Insert(s, v);
      if |s.q| < CLOCKSIZE {
        ReferencePage(t.ptes[v]);
      } else {
        RefFull(s, v, live);
      }
    }
  }

  /** The pages in q up to the i-th are all marked as referenced. */
  ghost predicate MarkedUpTo(s: State, i: nat)
    requires Mapped(s) && i < |s.q|
  {
    forall j | 0 <= j <= i :: Accessed(s.ptes[s.q[j]])
  }

  lemma MarkedFirst(s: State, i: nat)
    requires Mapped(s) && Distinct(s.q) && i < |s.q|
    ensures
      var k := FirstUnref(s.q, s.ptes);
      (MarkedUpTo(s, i) <==> i < k) && (s.q[i] in s.q[..k] <==> i < k)
  {
    hide FirstUnref, Accessed;
    var k := FirstUnref(s.q, s.ptes);
    assert i < k ==> s.q[..k][i] == s.q[i];
  }

  /** The page table after inserting v into a full queue and marking it. */
  lemma FullEntries(s: State, v: nat, w: nat)
    requires Mapped(s) && Distinct(s.q) && v < |s.ptes| && w < |s.ptes|
    requires !Present(s.ptes[v]) && |s.q| == CLOCKSIZE && v !in s.q
    ensures |Ref(s, v).ptes| == |s.ptes|
    ensures w == v ==> Ref(s, v).ptes[w] == SetRef(Decrypt(s.ptes[v]))
    ensures w != v && w !in s.q ==> Ref(s, v).ptes[w] == s.ptes[w]
    ensures forall i | 0 <= i < |s.q| && s.q[i] == w && w in Ref(s, v).q ::
              Ref(s, v).ptes[w] == if MarkedUpTo(s, i) then ClearRef(s.ptes[w]) else s.ptes[w]
    ensures w in s.q && w !in Ref(s, v).q ==>
              Ref(s, v).ptes[w] == Encrypt(if Accessed(s.ptes[w]) then ClearRef(s.ptes[w]) else s.ptes[w])
  {
    hide Encrypt, Decrypt, ClearRef, SetRef, Present, Accessed, Unref, FirstUnref, Survivors, Insert, MarkedUpTo;
    var k := FirstUnref(s.q, s.ptes);
    InsertParts(s, v);
    SurvivorsAre(s.q, k);
    if w in s.q {
      var i :| 0 <= i < |s.q| && s.q[i] == w;
      assert forall j | 0 <= j < |s.q| && s.q[j] == w :: j == i;
      MarkedFirst(s, i);
    }
  }

  /** Who is in the queue after a reference that finds it full. */
  lemma FullQueue(s: State, v: nat)
    requires Mapped(s) && Distinct(s.q) && v < |s.ptes| && !Present(s.ptes[v]) && |s.q| == CLOCKSIZE && v !in s.q
    ensures v in Ref(s, v).q && forall w | w in Ref(s, v).q :: w == v || w in s.q
  {
    hide Encrypt, Decrypt, ClearRef, SetRef, Present, Accessed, Unref, FirstUnref, Survivors, Insert;
    InsertParts(s, v);
    SurvivorsAre(s.q, FirstUnref(s.q, s.ptes));
  }

  /** What inserting v into a full queue does to the page of w. */
  lemma RefFullPage(s: State, v: nat, live: set<nat>, w: nat)
    requires Resident(s, live) && v in live && v !in s.q && |s.q| == CLOCKSIZE && w in live
    ensures Mapped(s) && !Present(s.ptes[v]) && PageOk(Ref(s, v).ptes[w], w in Ref(s, v).q)
  {
    hide Encrypt, Decrypt, ClearRef, SetRef, Accessed, Encrypted, Insert, Ref, MarkedUpTo;
    assert forall i | 0 <= i < |s.q| :: s.q[i] in s.q;
    assert PageOk(s.ptes[v], false) && PageOk(s.ptes[w], w in s.q);
    FullEntries(s, v, w);
    FullQueue(s, v);
    hide PageOk, Present;
    PageChanges(s.ptes[w]);
    PageChanges(ClearRef(s.ptes[w]));
    ReferencePage(s.ptes[w]);
    if w in s.q {
      var i :| 0 <= i < |s.q| && s.q[i] == w;
    }
  }

  lemma RefFull(s: State, v: nat, live: set<nat>)
    requires Resident(s, live) && v in live && v !in s.q && |s.q| == CLOCKSIZE
    ensures Mapped(s) && !Present(s.ptes[v]) && Resident(Ref(s, v), live)
    ensures v in Ref(s, v).q && Accessed(Ref(s, v).ptes[v])
  {
    hide Encrypt, Decrypt, ClearRef, SetRef, Present, Accessed, Encrypted, Unref, FirstUnref, Survivors, Insert, PageOk;
    assert forall i | 0 <= i < |s.q| :: s.q[i] in s.q;
    var k := FirstUnref(s.q, s.ptes);
    RefFullPage(s, v, live, v);
    InsertParts(s, v);
    SurvivorsAre(s.q, k);
    forall w | w in live ensures PageOk(Ref(s, v).ptes[w], w in Ref(s, v).q) {
      RefFullPage(s, v, live, w);
    }
    ReferencePage(Insert(s, v).ptes[v]);
  }

  /** What a reference to v does to every entry: v is decrypted if need be and marked; a page that
      leaves the queue is encrypted, and loses its ref bit if it was passed over; a page that was
      passed over and stays loses its ref bit; all others keep their entries. */
  lemma RefEntries(s: State, v: nat, live: set<nat>, w: nat)
    requires Resident(s, live) && v in live && w < |s.ptes|
    ensures Mapped(s) && |Ref(s, v).ptes| == |s.ptes|
    ensures w == v ==> Ref(s, v).ptes[w] == SetRef(if Present(s.ptes[v]) then s.ptes[v] else Decrypt(s.ptes[v]))
    ensures w != v && w !in s.q ==> Ref(s, v).ptes[w] == s.ptes[w]
    ensures forall i | 0 <= i < |s.q| && s.q[i] == w && w != v && w in Ref(s, v).q ::
              Ref(s, v).ptes[w] ==
              if !Present(s.ptes[v]) && |s.q| == CLOCKSIZE && MarkedUpTo(s, i) then ClearRef(s.ptes[w]) else s.ptes[w]
    ensures w != v && w in s.q && w !in Ref(s, v).q ==>
              Ref(s, v).ptes[w] == Encrypt(if Accessed(s.ptes[w]) then ClearRef(s.ptes[w]) else s.ptes[w])
  {
    hide Encrypt, Decrypt, ClearRef, SetRef, Present, Accessed, Encrypted, Unref, FirstUnref, Survivors, Insert;
    assert forall i | 0 <= i < |s.q| :: s.q[i] in s.q;
    if !Present(s.ptes[v]) && |s.q| == CLOCKSIZE {
      RefFullPage(s, v, live, v);
      FullEntries(s, v, w);
    } else {
      SmallEntries(s, v, w);
    }
  }

  lemma SmallEntries(s: State, v: nat, w: nat)
    requires Mapped(s) && v < |s.ptes| && w < |s.ptes| && (Present(s.ptes[v]) || |s.q| < CLOCKSIZE)
    ensures |Ref(s, v).ptes| == |s.ptes| && forall x | x in s.q :: x in Ref(s, v).q
    ensures Ref(s, v).ptes[w] ==
            if w == v then SetRef(if Present(s.ptes[v]) then s.ptes[v] else Decrypt(s.ptes[v])) else s.ptes[w]
  {
    hide Encrypt, Decrypt, ClearRef, SetRef, Present, Accessed;
  }

  /** Only an unreferenced page is evicted while there is one, and no page queued ahead of it was
      unreferenced; when all are referenced the oldest goes. Nothing is evicted otherwise. */
  lemma SecondChance(s: State, v: nat, live: set<nat>, i: nat)
    requires Resident(s, live) && v in live && i < |s.q|
    ensures Mapped(s)
    ensures s.q[i] !in Ref(s, v).q <==>
      && v !in s.q && |s.q| == CLOCKSIZE
      && (forall j | 0 <= j < i :: Accessed(s.ptes[s.q[j]]))
      && (Accessed(s.ptes[s.q[i]]) ==> i == 0 && forall j | 0 <= j < |s.q| :: Accessed(s.ptes[s.q[j]]))
  {
    hide Encrypt, Decrypt, ClearRef, SetRef, Present, Accessed, Encrypted, Unref, FirstUnref, Survivors, Insert;
    assert forall i | 0 <= i < |s.q| :: s.q[i] in s.q;
    if v !in s.q && |s.q| == CLOCKSIZE {
      var k := FirstUnref(s.q, s.ptes);
      InsertParts(s, v);
      SurvivorsAre(s.q, k);
    } else {
      Grows(s, v, live);
    }
  }

  /** The pages queued ahead of the evicted one got their second chance and went to the back, in order;
      the new page is behind them. */
  lemma Reorders(s: State, v: nat, live: set<nat>, i: nat)
    requires Resident(s, live) && v in live && Mapped(s) && i < |s.q| && s.q[i] !in Ref(s, v).q
    ensures Ref(s, v).q == s.q[i + 1..] + s.q[..i] + [v]
  {
    hide Encrypt, Decrypt, ClearRef, SetRef, Present, Accessed, Encrypted, Unref, FirstUnref, Survivors, Insert;
    SecondChance(s, v, live, i);
    var k := FirstUnref(s.q, s.ptes);
    InsertParts(s, v);
    SurvivorsAre(s.q, k);
    SurvivorsOrder(s.q, k, i);
  }

  lemma SurvivorsOrder(q: seq<nat>, k: nat, i: nat)
    requires k <= |q| && i < |q| && Distinct(q) && q[i] == Victim(q, k)
    ensures Survivors(q, k) == q[i + 1..] + q[..i]
  {
  }

  lemma Grows(s: State, v: nat, live: set<nat>)
    requires Resident(s, live) && v in live && (v in s.q || |s.q| < CLOCKSIZE)
    ensures Mapped(s) && Ref(s, v).q == if v in s.q then s.q else s.q + [v]
  {
    hide Encrypt, Decrypt, ClearRef, SetRef, Present, Accessed, Encrypted, Unref, FirstUnref, Survivors;
    assert forall i | 0 <= i < |s.q| :: s.q[i] in s.q;
  }

  lemma {:induction false} WithoutDistinct(q: seq<nat>, v: nat)
    requires Distinct(q)
    ensures Distinct(Without(q, v)) && |Without(q, v)| <= |q|
    ensures v !in q ==> Without(q, v) == q
  {
    if q != [] {
      WithoutDistinct(q[1..], v);
      assert q[0] !in q[1..];
    }
  }

  // Removing the page at index m closes the gap.
  lemma {:induction false} WithoutAt(q: seq<nat>, m: nat)
    requires Distinct(q) && m < |q|
    ensures Without(q, q[m]) == q[..m] + q[m + 1..]
  {
    if m == 0 {
      WithoutDistinct(q[1..], q[0]);
      assert q[0] !in q[1..];
    } else {
      WithoutAt(q[1..], m - 1);
      assert q[1..][..m - 1] == q[1..m];
      assert q[1..][m..] == q[m + 1..];
    }
  }

  // ----- runs -----

  datatype Op = RefPage(v: nat) | RemovePage(v: nat)

  /** One operation: a reference to a live page, or the removal of a page being deallocated. */
  ghost predicate Step(s: State, live: set<nat>, op: Op, s': State, live': set<nat>) {
    match op
    case RefPage(v) => v in live && live' == live && Mapped(s) && v < |s.ptes| && s' == Ref(s, v)
    case RemovePage(v) => live' == live - {v} && s' == s.(q := Without(s.q, v))
  }

  /** Residency holds after every run of references and removals. */
  lemma {:induction false} RunResident(ss: seq<State>, lives: seq<set<nat>>, ops: seq<Op>)
    requires |ss| == |lives| == |ops| + 1
    requires Resident(ss[0], lives[0])
    requires forall i | 0 <= i < |ops| :: Step(ss[i], lives[i], ops[i], ss[i + 1], lives[i + 1])
    ensures Resident(ss[|ops|], lives[|ops|])
  {
    var n := |ops|;
    if n > 0 {
      RunResident(ss[..n], lives[..n], ops[..n - 1]);
      assert Step(ss[n - 1], lives[n - 1], ops[n - 1], ss[n], lives[n]);
      match ops[n - 1]
      case RefPage(v) => RefResident(ss[n - 1], v, lives[n - 1]);
      case RemovePage(v) => WithoutDistinct(ss[n - 1].q, v);
    }
  }
}
