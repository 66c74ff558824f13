/** The buffer cache of src/bio.c over the memory disk of src/memide.c. Processes that use a buffer
    wait for its lock, hold it, or have released it and are about to drop their reference; each
    method is a section that runs without interference. */
module Bio {
  import opened BioList

  type Bytes = seq<bv8>

  datatype Option<T> = None | Some(value: T)

  const ROOTDEV := 1

  // holder is the pid in the buffer's sleep lock, if it is locked
  datatype Buf = Buf(dev: nat, blockno: nat, valid: bool, dirty: bool, refcnt: nat, holder: Option<nat>, data: Bytes)

  /** The buffers and the disk, with the block store they stand for: store[n] is what the last
      logged or written change left in block n; edited are the buffers changed since. */
  datatype Cache = Cache(bufs: seq<Buf>, disk: seq<Bytes>, store: seq<Bytes>,
                         edited: set<nat>, waiting: seq<nat>, releasing: seq<nat>)

  ghost predicate Shape(c: Cache) {
    |c.bufs| == |c.waiting| == |c.releasing| == 30 && |c.store| == |c.disk|
  }

  /** Every reference is waiting, holding or releasing. */
  ghost predicate Counted(c: Cache)
    requires Shape(c)
  {
    forall i | 0 <= i < 30 :: c.bufs[i].refcnt == c.waiting[i] + c.releasing[i] + if c.bufs[i].holder.Some? then 1 else 0
  }

  /** No block of the root device has two buffers. */
  ghost predicate Unique(c: Cache)
    requires Shape(c)
  {
    forall i, j | 0 <= i < j < 30 :: c.bufs[i].dev == c.bufs[j].dev == ROOTDEV ==> c.bufs[i].blockno != c.bufs[j].blockno
  }

  /** A valid buffer holds the contents of its block, unless its holder is changing it. */
  ghost predicate BufOk(c: Cache, i: nat)
    requires Shape(c) && i < 30
  {
    var b := c.bufs[i];
    && (b.dirty ==> b.valid)
    && (b.valid ==> b.dev == ROOTDEV && b.blockno < |c.disk| && (i in c.edited || b.data == c.store[b.blockno]))
    && (i in c.edited ==> b.valid && b.holder.Some?)
  }

  /** A block that is newer than the disk is in a dirty buffer. */
  ghost predicate Newer(c: Cache)
    requires Shape(c)
  {
    forall n | 0 <= n < |c.disk| && c.disk[n] != c.store[n] :: exists i :: DirtyIn(c, n, i)
  }

  ghost predicate DirtyIn(c: Cache, n: nat, i: nat)
    requires Shape(c)
  {
    i < 30 && c.bufs[i].dev == ROOTDEV && c.bufs[i].blockno == n && c.bufs[i].dirty
  }

  ghost predicate Inv(c: Cache) {
    Shape(c) && Counted(c) && Unique(c) && Newer(c) && forall i | 0 <= i < 30 :: BufOk(c, i)
  }

  // ----- the sections on values -----

  function Recycled(c: Cache, i: nat, dev: nat, blockno: nat): Cache
    requires Shape(c) && i < 30
  {
    c.(bufs := c.bufs[i := c.bufs[i].(dev := dev, blockno := blockno, valid := false, dirty := false, refcnt := 1)],
       waiting := c.waiting[i := 1])
  }

  /** A clean unused buffer can be given to a block that has none. */
  lemma RecycledKeeps(c: Cache, i: nat, dev: nat, blockno: nat)
    requires Inv(c) && i < 30 && c.bufs[i].refcnt == 0 && !c.bufs[i].dirty
    requires forall j | 0 <= j < 30 :: !(c.bufs[j].dev == dev && c.bufs[j].blockno == blockno)
    ensures Inv(Recycled(c, i, dev, blockno))
  {
    var r := Recycled(c, i, dev, blockno);
    forall n | 0 <= n < |c.disk| && r.disk[n] != r.store[n] ensures exists j :: DirtyIn(r, n, j) {
      var j :| DirtyIn(c, n, j);
      assert DirtyIn(r, n, j);
    }
    forall j | 0 <= j < 30 ensures BufOk(r, j) {
      assert BufOk(c, j);
    }
  }

  /** The buffer of block n is read from the disk: what is read is the latest contents. */
  lemma ReadIsLatest(c: Cache, i: nat)
    requires Inv(c) && i < 30 && c.bufs[i].dev == ROOTDEV && c.bufs[i].blockno < |c.disk| && !c.bufs[i].valid
    ensures var n := c.bufs[i].blockno;
      && c.disk[n] == c.store[n]
      && Inv(c.(bufs := c.bufs[i := c.bufs[i].(data := c.disk[n], valid := true)]))
  {
    var n := c.bufs[i].blockno;
    assert BufOk(c, i);
    forall j ensures !DirtyIn(c, n, j) {
      assert j < 30 ==> BufOk(c, j);
    }
    var r := c.(bufs := c.bufs[i := c.bufs[i].(data := c.disk[n], valid := true)]);
    forall m | 0 <= m < |c.disk| && r.disk[m] != r.store[m] ensures exists j :: DirtyIn(r, m, j) {
      var j :| DirtyIn(c, m, j);
      assert DirtyIn(r, m, j);
    }
    forall j | 0 <= j < 30 ensures BufOk(r, j) {
      assert BufOk(c, j);
    }
  }

  /** The holder of buffer i logs its change: the buffer is pinned and is the latest contents. */
  function Logged(c: Cache, i: nat): Cache
    requires Shape(c) && i < 30 && c.bufs[i].blockno < |c.store|
  {
    c.(bufs := c.bufs[i := c.bufs[i].(dirty := true)],
       store := c.store[c.bufs[i].blockno := c.bufs[i].data], edited := c.edited - {i})
  }

  lemma LoggedKeeps(c: Cache, i: nat)
    requires Inv(c) && i < 30 && c.bufs[i].valid
    ensures c.bufs[i].blockno < |c.store| && Inv(Logged(c, i))
  {
    assert BufOk(c, i);
    var r := Logged(c, i);
    forall m | 0 <= m < |c.disk| && r.disk[m] != r.store[m] ensures exists j :: DirtyIn(r, m, j) {
      if m == c.bufs[i].blockno {
        assert DirtyIn(r, m, i);
      } else {
        var j :| DirtyIn(c, m, j);
        assert DirtyIn(r, m, j);
      }
    }
    forall j | 0 <= j < 30 ensures BufOk(r, j) {
      assert BufOk(c, j);
    }
  }

  /** The holder of buffer i writes it to the disk. */
  function Written(c: Cache, i: nat): Cache
    requires Shape(c) && i < 30 && c.bufs[i].blockno < |c.store|
  {
    var n := c.bufs[i].blockno;
    c.(bufs := c.bufs[i := c.bufs[i].(dirty := false, valid := true)], disk := c.disk[n := c.bufs[i].data],
       store := c.store[n := c.bufs[i].data], edited := c.edited - {i})
  }

  lemma WrittenKeeps(c: Cache, i: nat)
    requires Inv(c) && i < 30 && c.bufs[i].dev == ROOTDEV && c.bufs[i].blockno < |c.store|
    ensures Inv(Written(c, i))
  {
    assert BufOk(c, i);
    var r := Written(c, i);
    forall m | 0 <= m < |c.disk| && r.disk[m] != r.store[m] ensures exists j :: DirtyIn(r, m, j) {
      var j :| DirtyIn(c, m, j);
      assert DirtyIn(r, m, j);
    }
    forall j | 0 <= j < 30 ensures BufOk(r, j) {
      assert BufOk(c, j);
    }
  }

  /** Buffer i with other counts. */
  function Recounted(c: Cache, i: nat, refcnt: nat, holder: Option<nat>, waiting: nat, releasing: nat): Cache
    requires Shape(c) && i < 30
  {
    c.(bufs := c.bufs[i := c.bufs[i].(refcnt := refcnt, holder := holder)],
       waiting := c.waiting[i := waiting], releasing := c.releasing[i := releasing])
  }

  lemma RecountedKeeps(c: Cache, i: nat, refcnt: nat, holder: Option<nat>, waiting: nat, releasing: nat)
    requires Inv(c) && i < 30 && refcnt == waiting + releasing + (if holder.Some? then 1 else 0)
    requires i in c.edited ==> holder.Some?
    ensures Inv(Recounted(c, i, refcnt, holder, waiting, releasing))
  {
    var r := Recounted(c, i, refcnt, holder, waiting, releasing);
    forall m | 0 <= m < |c.disk| && r.disk[m] != r.store[m] ensures exists j :: DirtyIn(r, m, j) {
      var j :| DirtyIn(c, m, j);
      assert DirtyIn(r, m, j);
    }
    forall j | 0 <= j < 30 ensures BufOk(r, j) {
      assert BufOk(c, j);
    }
  }

  lemma CountOf(c: Cache, i: nat)
    requires Inv(c) && i < 30
    ensures Shape(c) && BufOk(c, i)
    ensures c.bufs[i].refcnt == c.waiting[i] + c.releasing[i] + if c.bufs[i].holder.Some? then 1 else 0
  {
    hide Unique, Newer;
  }

  /** The holder of buffer i changes its bytes. */
  lemma EditKeeps(c: Cache, i: nat, data: Bytes)
    requires Inv(c) && i < 30 && c.bufs[i].holder.Some? && c.bufs[i].valid
    ensures Inv(c.(bufs := c.bufs[i := c.bufs[i].(data := data)], edited := c.edited + {i}))
  {
    var r := c.(bufs := c.bufs[i := c.bufs[i].(data := data)], edited := c.edited + {i});
    forall m | 0 <= m < |c.disk| && r.disk[m] != r.store[m] ensures exists j :: DirtyIn(r, m, j) {
      var j :| DirtyIn(c, m, j);
      assert DirtyIn(r, m, j);
    }
    forall j | 0 <= j < 30 ensures BufOk(r, j) {
      assert BufOk(c, j);
    }
  }

  lemma DirtyKeeps(c: Cache, i: nat)
    requires Inv(c) && i < 30 && c.bufs[i].valid
    ensures Inv(c.(bufs := c.bufs[i := c.bufs[i].(dirty := true)]))
  {
    var r := c.(bufs := c.bufs[i := c.bufs[i].(dirty := true)]);
    forall m | 0 <= m < |c.disk| && r.disk[m] != r.store[m] ensures exists j :: DirtyIn(r, m, j) {
      var j :| DirtyIn(c, m, j);
      assert DirtyIn(r, m, j);
    }
    forall j | 0 <= j < 30 ensures BufOk(r, j) {
      assert BufOk(c, j);
    }
  }

  // ----- what a block holds -----

  /** A change to a block that was logged or written. */
  datatype Publication = Publication(block: nat, data: Bytes)

  /** The data of the last change to block n, else its contents at boot. */
  function Latest(initial: seq<Bytes>, published: seq<Publication>, n: nat): Bytes
    requires n < |initial|
  {
    if published == [] then initial[n]
    else
      var p := published[|published| - 1];
      if p.block == n then p.data else Latest(initial, published[..|published| - 1], n)
  }

  /** The last change counts: one that no later change to the block follows. */
  lemma {:induction false} LatestIs(initial: seq<Bytes>, published: seq<Publication>, n: nat, k: nat)
    requires n < |initial| && k <= |published|
    requires forall i | k < i < |published| :: published[i].block != n
    ensures k < |published| && published[k].block == n ==> Latest(initial, published, n) == published[k].data
    ensures (forall i | 0 <= i < |published| :: published[i].block != n) ==> Latest(initial, published, n) == initial[n]
    decreases |published|
  {
    var m := |published| - 1;
    if m >= 0 && published[m].block != n {
      LatestIs(initial, published[..m], n, if k <= m then k else m);
    }
  }

  ghost predicate Replays(initial: seq<Bytes>, published: seq<Publication>, store: seq<Bytes>) {
    |store| == |initial| && forall n | 0 <= n < |store| :: store[n] == Latest(initial, published, n)
  }

  lemma Publishes(initial: seq<Bytes>, published: seq<Publication>, store: seq<Bytes>, n: nat, data: Bytes)
    requires Replays(initial, published, store) && n < |store|
    ensures Replays(initial, published + [Publication(n, data)], store[n := data])
  {
    var more := published + [Publication(n, data)];
    assert more[..|published|] == published;
  }

  class BufferCache {
    const bufs: array<Buf>
    const next: array<nat>
    const prev: array<nat>
    var disk: seq<Bytes>
    ghost var order: seq<nat>      // the buffers in the list, most recently used first
    ghost var store: seq<Bytes>
    ghost var edited: set<nat>
    ghost var waiting: seq<nat>
    ghost var releasing: seq<nat>
    ghost const initial: seq<Bytes>       // the disk at boot
    ghost var published: seq<Publication> // every logged or written change since, oldest first

    ghost function Value(): Cache
      reads this, bufs
    {
      Cache(bufs[..], disk, store, edited, waiting, releasing)
    }

    ghost predicate Linked()
      reads this, next, prev
    {
      next != prev && Links(next[..], prev[..], order)
    }

    ghost predicate Valid()
      reads this, bufs, next, prev
    {
      && Linked() && |order| == 30 && bufs.Length == 30 && Inv(Value())
      && Replays(initial, published, store)
    }

    /** Links all buffers, the last one first; nothing is cached. */
    constructor (blocks: seq<Bytes>)
      ensures Valid() && disk == store == initial == blocks && published == []
      ensures fresh(bufs) && fresh(next) && fresh(prev)
    {
      bufs := new Buf[30](_ => Buf(0, 0, false, false, 0, None, []));
      next := new nat[31](_ => 30);
      prev := new nat[31](_ => 30);
      disk := blocks;
      order, store, edited := [], blocks, {};
      initial, published := blocks, [];
      waiting, releasing := seq(30, _ => 0), seq(30, _ => 0);
      new;
      ghost var none := Value();
      assert Inv(none);
      for i := 0 to 30
        invariant Linked() && |order| == i && forall j | 0 <= j < i :: order[j] < i
        invariant Value() == none && published == []
      {
        PushFront(i);
      }
    }

    /** Links buffer b in behind the head. */
    method PushFront(b: nat)
      requires Linked() && b < 30 && b !in order
      modifies this`order, next, prev
      ensures Linked() && order == [b] + old(order)
    {
      Pushes(next[..], prev[..], order, b);
      ghost var n: seq<nat>, p: seq<nat> := next[..], prev[..];
      next[b] := next[30];
      prev[b] := 30;
      prev[next[30]] := b;
      next[30] := b;
      order := [b] + order;
      assert next[..] == n[b := n[30]][30 := b];
      assert prev[..] == p[b := 30][n[30] := b];
    }

    /** Takes buffer b, the k-th in the list, out of it. */
    method Unlink(b: nat, ghost k: nat)
      requires Linked() && k < |order| && order[k] == b
      modifies this`order, next, prev
      ensures Linked() && order == Without(old(order), k)
    {
      Unlinks(next[..], prev[..], order, k);
      ghost var n: seq<nat>, p: seq<nat> := next[..], prev[..];
      prev[next[b]] := prev[b];
      next[prev[b]] := next[b];
      order := Without(order, k);
      assert next[..] == n[p[b] := n[b]];
      assert prev[..] == p[n[b] := p[b]];
    }

    /** Buffer b gets another count, and the references behind it are accounted for. */
    method SetRefcnt(b: nat, refcnt: nat, ghost w: nat, ghost rel: nat)
      requires Valid() && b < 30 && (b in edited ==> bufs[b].holder.Some?)
      requires refcnt == w + rel + (if bufs[b].holder.Some? then 1 else 0)
      modifies bufs, this`waiting, this`releasing
      ensures Valid() && bufs[..] == old(bufs[..])[b := old(bufs[b]).(refcnt := refcnt)]
      ensures waiting == old(waiting)[b := w] && releasing == old(releasing)[b := rel]
    {
      hide Inv, Links, Replays;
      ghost var c := Value();
      CountOf(c, b);
      RecountedKeeps(c, b, refcnt, bufs[b].holder, w, rel);
      bufs[b] := bufs[b].(refcnt := refcnt);
      waiting, releasing := waiting[b := w], releasing[b := rel];
      assert Value() == Recounted(c, b, refcnt, bufs[b].holder, w, rel);
    }

    /** The part of bget under the cache lock: a buffer for the block, with one more reference. The
        buffer that has the block already, else the least recently used one that is clean and free;
        None if there is none. */
    method Bget(dev: nat, blockno: nat) returns (r: Option<nat>)
      requires Valid()
      modifies bufs, this`waiting, this`releasing
      ensures Valid() && releasing == old(releasing)
      ensures r.None? <==> !HasBlock(old(bufs[..]), dev, blockno) && AllBusy(old(bufs[..]))
      ensures r.None? ==> Value() == old(Value())
      ensures r.Some? ==>
        var b := r.value;
        && b < 30 && bufs[b].dev == dev && bufs[b].blockno == blockno && waiting[b] == old(waiting)[b] + 1
        && if HasBlock(old(bufs[..]), dev, blockno) then
             && bufs[..] == old(bufs[..])[b := old(bufs[b]).(refcnt := old(bufs[b]).refcnt + 1)]
             && waiting == old(waiting)[b := old(waiting)[b] + 1]
           else
             && Oldest(old(bufs[..]), order, b)
             && bufs[..] == old(bufs[..])[b := old(bufs[b]).(dev := dev, blockno := blockno, valid := false, dirty := false,
                                                            refcnt := 1)]
             && waiting == old(waiting)[b := 1]
    {
      hide Inv, Links, HasBlock, AllBusy, Oldest, Replays;
      var b, hit := Lookup(dev, blockno);
      if hit {
        CountOf(Value(), b);
        SetRefcnt(b, bufs[b].refcnt + 1, waiting[b] + 1, releasing[b]);
        return Some(b);
      }
      var free;
      b, free := FindFree();
      if !free {
        return None;
      }
      CountOf(Value(), b);
      NotThere(bufs[..], dev, blockno);
      RecycledKeeps(Value(), b, dev, blockno);
      bufs[b] := bufs[b].(dev := dev, blockno := blockno, valid := false, dirty := false, refcnt := 1);
      waiting := waiting[b := 1];
      r := Some(b);
    }

    /** Searches the list forwards for a block. */
    method Lookup(dev: nat, blockno: nat) returns (b: nat, hit: bool)
      requires Valid()
      ensures hit <==> HasBlock(bufs[..], dev, blockno)
      ensures hit ==> b < 30 && bufs[b].dev == dev && bufs[b].blockno == blockno
    {
      b := next[30];
      ghost var k := 0;
      assert LinkAt(next[..], prev[..], order, 0);
      while b != 30
        invariant k <= 30 && b == Node(order, k + 1)
        invariant forall j | 0 <= j < k :: !(bufs[order[j]].dev == dev && bufs[order[j]].blockno == blockno)
        decreases 30 - k
      {
        if bufs[b].dev == dev && bufs[b].blockno == blockno {
          return b, true;
        }
        assert LinkAt(next[..], prev[..], order, k + 1);
        b := next[b];
        k := k + 1;
      }
      hit := false;
      forall i | 0 <= i < 30 ensures !(bufs[i].dev == dev && bufs[i].blockno == blockno) {
        Everyone(order, i);
      }
    }

    /** Searches the list backwards for a buffer that nobody uses and that is not dirty. */
    method FindFree() returns (b: nat, free: bool)
      requires Valid()
      ensures free ==> b < 30 && bufs[b].refcnt == 0 && !bufs[b].dirty && Oldest(bufs[..], order, b)
      ensures free <==> !AllBusy(bufs[..])
    {
      b := prev[30];
      ghost var k := 30;
      assert LinkAt(next[..], prev[..], order, 30);
      while b != 30
        invariant 0 <= k <= 30 && b == Node(order, k)
        invariant forall j | k <= j < 30 :: bufs[order[j]].refcnt > 0 || bufs[order[j]].dirty
        decreases k
      {
        if bufs[b].refcnt == 0 && !bufs[b].dirty {
          assert order[k - 1] == b;
          return b, true;
        }
        assert LinkAt(next[..], prev[..], order, k - 1);
        b := prev[b];
        k := k - 1;
      }
      free := false;
      forall i | 0 <= i < 30 ensures bufs[i].refcnt > 0 || bufs[i].dirty {
        Everyone(order, i);
      }
    }

    /** A waiting process gets the lock of buffer b. */
    method AcquireSleep(b: nat, me: nat)
      requires Valid() && b < 30 && waiting[b] > 0 && bufs[b].holder.None?
      modifies bufs, this`waiting
      ensures Valid() && b !in edited
      ensures bufs[..] == old(bufs[..])[b := old(bufs[b]).(holder := Some(me))]
      ensures waiting == old(waiting)[b := old(waiting)[b] - 1]
    {
      assert BufOk(Value(), b);
      RecountedKeeps(Value(), b, bufs[b].refcnt, Some(me), waiting[b] - 1, releasing[b]);
      ghost var was := bufs[..];
      bufs[b] := bufs[b].(holder := Some(me));
      waiting := waiting[b := waiting[b] - 1];
      assert bufs[..] == was[b := bufs[b]] && releasing == releasing[b := releasing[b]];
    }

    /** The rest of bread: afterwards the buffer holds the latest contents of its block. */
    method Fetch(b: nat, me: nat) returns (ok: bool)
      requires Valid() && b < 30 && bufs[b].holder == Some(me) && b !in edited
      modifies bufs, this`disk, this`store, this`edited, this`published
      ensures Valid() && disk == old(disk) && store == old(store) && edited == old(edited) && published == old(published)
      ensures ok ==> bufs[b].blockno < |initial| && bufs[b].data == Latest(initial, published, bufs[b].blockno)
      ensures ok <==> bufs[b].dev == ROOTDEV && bufs[b].blockno < |disk|
      ensures ok ==> bufs[b] == old(bufs[b]).(valid := true, data := store[bufs[b].blockno])
      ensures !ok ==> bufs[b] == old(bufs[b])
      ensures forall i | 0 <= i < 30 && i != b :: bufs[i] == old(bufs[i])
    {
      assert BufOk(Value(), b);
      if bufs[b].valid {
        return true;
      }
      ok := Iderw(b, me);
    }

    /** Writes a dirty buffer to the disk or reads one that is not valid; stops on other requests. */
    method Iderw(b: nat, me: nat) returns (ok: bool)
      requires Valid() && b < 30 && (b in edited ==> bufs[b].dirty)
      modifies bufs, this`disk, this`store, this`edited, this`published
      ensures Valid()
      ensures ok <==>
                && bufs[b].holder == Some(me) && !(old(bufs[b]).valid && !old(bufs[b]).dirty)
                && bufs[b].dev == ROOTDEV && bufs[b].blockno < |disk|
      ensures !ok ==> Value() == old(Value()) && published == old(published)
      ensures ok && old(bufs[b]).dirty ==>
        var n := old(bufs[b]).blockno;
        && n < |old(disk)| == |old(store)|
        && disk == old(disk)[n := old(bufs[b]).data] && store == old(store)[n := old(bufs[b]).data]
        && bufs[..] == old(bufs[..])[b := old(bufs[b]).(dirty := false, valid := true)]
        && edited == old(edited) - {b} && published == old(published) + [Publication(n, old(bufs[b]).data)]
      ensures ok && !old(bufs[b]).dirty ==>
        && disk == old(disk) && store == old(store) && edited == old(edited) && published == old(published)
        && bufs[..] == old(bufs[..])[b := old(bufs[b]).(data := store[bufs[b].blockno], valid := true)]
    {
      if bufs[b].holder != Some(me) {
        return false;
      }
      if bufs[b].valid && !bufs[b].dirty {
        return false;
      }
      if bufs[b].dev != 1 {
        return false;
      }
      if bufs[b].blockno >= |disk| {
        return false;
      }
      var n := bufs[b].blockno;
      ghost var c := Value();
      if bufs[b].dirty {
        WrittenKeeps(c, b);
        bufs[b] := bufs[b].(dirty := false);
        disk := disk[n := bufs[b].data];
        store := store[n := bufs[b].data];
        edited := edited - {b};
        Publishes(initial, published, c.store, n, bufs[b].data);
        published := published + [Publication(n, bufs[b].data)];
      } else {
        ReadIsLatest(c, b);
        bufs[b] := bufs[b].(data := disk[n]);
      }
      bufs[b] := bufs[b].(valid := true);
      assert bufs[..] == c.bufs[b := bufs[b]];
      ok := true;
    }

    /** The holder changes the bytes of its buffer. */
    method Edit(b: nat, data: Bytes)
      requires Valid() && b < 30 && bufs[b].holder.Some? && bufs[b].valid
      modifies bufs, this`edited
      ensures Valid() && edited == old(edited) + {b}
      ensures bufs[..] == old(bufs[..])[b := old(bufs[b]).(data := data)]
    {
      EditKeeps(Value(), b, data);
      ghost var was := bufs[..];
      bufs[b] := bufs[b].(data := data);
      edited := edited + {b};
      assert bufs[..] == was[b := bufs[b]];
    }

    /** What log_write does to the buffer: it pins it. */
    method Pin(b: nat)
      requires Valid() && b < 30 && bufs[b].holder.Some? && bufs[b].valid
      modifies bufs, this`store, this`edited, this`published
      ensures
        var n := old(bufs[b]).blockno;
        && Valid() && n < |old(store)| && store == old(store)[n := old(bufs[b]).data]
        && bufs[..] == old(bufs[..])[b := old(bufs[b]).(dirty := true)]
        && edited == old(edited) - {b} && published == old(published) + [Publication(n, old(bufs[b]).data)]
    {
      LoggedKeeps(Value(), b);
      Publishes(initial, published, store, bufs[b].blockno, bufs[b].data);
      published := published + [Publication(bufs[b].blockno, bufs[b].data)];
      ghost var was := bufs[..];
      bufs[b] := bufs[b].(dirty := true);
      store := store[bufs[b].blockno := bufs[b].data];
      edited := edited - {b};
      assert bufs[..] == was[b := bufs[b]];
    }

    /** Writes a buffer through to the disk; stops unless the caller holds its lock. */
    method Bwrite(b: nat, me: nat) returns (ok: bool)
      requires Valid() && b < 30 && bufs[b].valid
      modifies bufs, this`disk, this`store, this`edited, this`published
      ensures Valid() && ok == (old(bufs[b]).holder == Some(me))
      ensures ok ==>
        var n := old(bufs[b]).blockno;
        && n < |old(disk)| == |old(store)|
        && disk == old(disk)[n := old(bufs[b]).data] && store == old(store)[n := old(bufs[b]).data]
        && bufs[..] == old(bufs[..])[b := old(bufs[b]).(dirty := false)]
        && edited == old(edited) - {b} && published == old(published) + [Publication(n, old(bufs[b]).data)]
      ensures !ok ==> Value() == old(Value()) && published == old(published)
    {
      if bufs[b].holder != Some(me) {
        return false;
      }
      ghost var c := Value();
      assert BufOk(c, b);
      DirtyKeeps(c, b);
      bufs[b] := bufs[b].(dirty := true);
      assert bufs[..] == c.bufs[b := bufs[b]];
      ok := Iderw(b, me);
    }

    /** The first half of brelse: the holder, having logged or written its changes, gives up the lock;
        stops unless the caller holds the lock. */
    method ReleaseSleep(b: nat, me: nat) returns (ok: bool)
      requires Valid() && b < 30 && b !in edited
      modifies bufs, this`releasing
      ensures Valid() && ok == (old(bufs[b]).holder == Some(me))
      ensures ok ==>
        && bufs[..] == old(bufs[..])[b := old(bufs[b]).(holder := None)]
        && releasing == old(releasing)[b := old(releasing)[b] + 1]
      ensures !ok ==> Value() == old(Value())
    {
      if bufs[b].holder != Some(me) {
        return false;
      }
      RecountedKeeps(Value(), b, bufs[b].refcnt, None, waiting[b], releasing[b] + 1);
      ghost var was := bufs[..];
      bufs[b] := bufs[b].(holder := None);
      releasing := releasing[b := releasing[b] + 1];
      assert bufs[..] == was[b := bufs[b]] && waiting == waiting[b := waiting[b]];
      ok := true;
    }

    /** The second half of brelse: the last reference moves the buffer to the front of the list. */
    method Drop(b: nat)
      requires Valid() && b < 30 && releasing[b] > 0
      modifies bufs, next, prev, this`order, this`waiting, this`releasing
      ensures Valid() && waiting == old(waiting)
      ensures old(bufs[b]).refcnt > 0
      ensures bufs[..] == old(bufs[..])[b := old(bufs[b]).(refcnt := old(bufs[b]).refcnt - 1)]
      ensures releasing == old(releasing)[b := old(releasing)[b] - 1]
      ensures if bufs[b].refcnt > 0 then order == old(order) else MovedToFront(old(order), order, b)
    {
      hide Inv, Links, MovedToFront, Replays;
      ghost var c := Value();
      CountOf(c, b);
      SetRefcnt(b, bufs[b].refcnt - 1, waiting[b], releasing[b] - 1);
      ghost var done := Value();
      if bufs[b].refcnt == 0 {
        MoveToFront(b);
        assert Value() == done;
      }
    }

    /** Unlinks buffer b and links it in behind the head. */
    method MoveToFront(b: nat)
      requires Linked() && |order| == 30 && b < 30
      modifies this`order, next, prev
      ensures Linked() && |order| == 30 && MovedToFront(old(order), order, b)
    {
      Everyone(order, b);
      ghost var k :| 0 <= k < 30 && order[k] == b;
      Unlink(b, k);
      PushFront(b);
    }
  }

  ghost predicate MovedToFront(order: seq<nat>, order': seq<nat>, b: nat) {
    exists k :: 0 <= k < |order| && order[k] == b && order' == [b] + Without(order, k)
  }

  ghost predicate HasBlock(bufs: seq<Buf>, dev: nat, blockno: nat) {
    exists i :: 0 <= i < |bufs| && bufs[i].dev == dev && bufs[i].blockno == blockno
  }

  lemma NotThere(bufs: seq<Buf>, dev: nat, blockno: nat)
    requires !HasBlock(bufs, dev, blockno)
    ensures forall j | 0 <= j < |bufs| :: !(bufs[j].dev == dev && bufs[j].blockno == blockno)
  {
  }

  /** Every buffer is in use or dirty. */
  ghost predicate AllBusy(bufs: seq<Buf>) {
    forall i | 0 <= i < |bufs| :: bufs[i].refcnt > 0 || bufs[i].dirty
  }

  /** b is free and clean, and no buffer used less recently is. */
  ghost predicate Oldest(bufs: seq<Buf>, order: seq<nat>, b: nat) {
    exists k :: 0 <= k < |order| && order[k] == b && b < |bufs| && bufs[b].refcnt == 0 && !bufs[b].dirty &&
      forall j | k < j < |order| && order[j] < |bufs| :: bufs[order[j]].refcnt > 0 || bufs[order[j]].dirty
  }

  function Upto(n: nat): (r: set<nat>)
    ensures |r| == n && forall i :: i in r <==> 0 <= i < n
  {
    if n == 0 then {} else Upto(n - 1) + {n - 1}
  }

  ghost function SetOf(order: seq<nat>): (r: set<nat>)
    requires Distinct(order)
    ensures |r| == |order| && forall b :: b in r <==> b in order
  {
    if order == [] then {}
    else
      var n := |order| - 1;
      assert order == order[..n] + [order[n]];
      SetOf(order[..n]) + {order[n]}
  }

  lemma SubsetNoLarger(a: set<nat>, b: set<nat>)
    requires a <= b
    ensures |a| <= |b|
  {
    assert b == a + (b - a);
  }

  // A list of thirty different buffers holds them all.
  lemma Everyone(order: seq<nat>, b: nat)
    requires Distinct(order) && |order| == 30 && b < 30
    ensures exists j :: 0 <= j < 30 && order[j] == b
  {
    assert SetOf(order) <= Upto(30);
    if b !in SetOf(order) {
      SubsetNoLarger(SetOf(order), Upto(30) - {b});
    }
  }
}
