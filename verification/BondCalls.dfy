/** The calls of the bond store on its whole state, what they keep, and what survives a power cycle. */
module BondCalls {
  import opened BondTables
  import opened BondImage

  /** store_image, store_loaded, store_flash_cfg_done and the flash behind them. */
  datatype Store = Store(img: Image, loaded: bool, configured: bool, flash: seq<bv8>)

  /** Which of the flash driver's calls succeed; `left` is what the flash holds after a failed erase or
      write. */
  datatype Luck = Luck(config: bool, read: bool, erase: bool, write: bool, left: seq<bv8>)

  /** Object types; the two kinds of security record share one table. */
  datatype Obj = OurSec | PeerSec | Cccd | Unknown

  function TableOf(g: Image, o: Obj): seq<Slot> {
    if o.Cccd? then g.cccd else g.sec
  }

  function WithTable(g: Image, o: Obj, t: seq<Slot>): Image {
    if o.Cccd? then g.(cccd := t) else g.(sec := t)
  }

  predicate Shaped(s: Store, y: Layout) {
    Fits(s.img, y) && |s.flash| >= ImageSize(y)
  }

  /** store_load */
  function LoadCall(s: Store, y: Layout, k: Luck): Store
    requires |s.flash| >= ImageSize(y)
  {
    if s.loaded then s
    else if !s.configured && !k.config then s.(loaded := true, img := Empty(y))
    else s.(loaded := true, configured := true, img := if k.read then LoadFrom(s.flash, y) else Empty(y))
  }

  /** store_commit */
  function CommitCall(s: Store, y: Layout, k: Luck): (Store, Status)
    requires Shaped(s, y)
  {
    var u := s.(img := Sealed(s.img));
    if !s.configured && !k.config then (u, Failed)
    else
      var v := u.(configured := true);
      if !k.erase || !k.write then (v.(flash := k.left), Failed)
      else (v.(flash := Stored(s.flash, s.img, y)), Done)
  }

  /** A record as its object type has it. */
  predicate RecFits(o: Obj, r: Rec, y: Layout) {
    o.Unknown? || SlotFits(Slot(1, r), o.Cccd?, if o.Cccd? then y.cccdBody else y.secBody)
  }

  /** store_write */
  function WriteCall(s: Store, y: Layout, o: Obj, r: Rec, k: Luck): (Store, Status)
    requires Shaped(s, y) && RecFits(o, r, y)
  {
    LoadIsShaped(s, y, k);
    var u := LoadCall(s, y, k);
    if o.Unknown? then (u, NotSupported)
    else
      var (t, st) := Put(TableOf(u.img, o), r);
      PutFits(u.img, y, o, r);
      if st.Full? then (u, Full) else CommitCall(u.(img := WithTable(u.img, o, t)), y, k)
  }

  /** store_delete; of the key only the address counts. */
  function DeleteCall(s: Store, y: Layout, o: Obj, peer: Addr, k: Luck): (Store, Status)
    requires Shaped(s, y)
  {
    LoadIsShaped(s, y, k);
    var u := LoadCall(s, y, k);
    if o.Unknown? then (u, NotSupported)
    else if !AnyOf(TableOf(u.img, o), peer) then (u, NoEntry)
    else
      PurgeFits(u.img, y, o, peer);
      CommitCall(u.(img := WithTable(u.img, o, Purge(TableOf(u.img, o), peer))), y, k)
  }

  datatype Found = Found(rec: Rec) | NotFound(status: Status)

  /** store_read */
  function ReadCall(s: Store, y: Layout, o: Obj, key: Key, idx: nat, k: Luck): (Store, Found)
    requires Shaped(s, y)
  {
    var u := LoadCall(s, y, k);
    if o.Unknown? then (u, NotFound(NotSupported))
    else
      var h := Hits(TableOf(u.img, o), key);
      (u, if idx < |h| then Found(h[idx]) else NotFound(NoEntry))
  }

  /** Power off and on: the work copy is gone, the flash stays. */
  function PowerUp(s: Store, y: Layout): Store {
    Store(Empty(y).(magic := 0, version := 0), false, false, s.flash)
  }

  // ---------------------------------------------------------------- shapes

  lemma EmptyFits(y: Layout)
    ensures Fits(Empty(y), y) && Fits(Empty(y).(magic := 0, version := 0), y)
  {
  }

  lemma LoadedFits(f: seq<bv8>, y: Layout)
    requires |f| >= ImageSize(y)
    ensures Fits(LoadFrom(f, y), y) && LoadFrom(f, y).magic == MAGIC
  {
    hide Parse, Fits, Empty;
    EmptyFits(y);
    EmptyMagic(y);
    BytesParse(f[..ImageSize(y)], y);
  }

  lemma EmptyMagic(y: Layout)
    ensures Empty(y).magic == MAGIC && Empty(y).version == 1
  {
  }

  lemma LoadIsShaped(s: Store, y: Layout, k: Luck)
    requires Shaped(s, y)
    ensures Shaped(LoadCall(s, y, k), y)
  {
    hide Fits, LoadFrom, Empty;
    EmptyFits(y);
    LoadedFits(s.flash, y);
  }

  lemma PutFits(g: Image, y: Layout, o: Obj, r: Rec)
    requires Fits(g, y) && RecFits(o, r, y) && !o.Unknown?
    ensures Fits(WithTable(g, o, Put(TableOf(g, o), r).0), y)
  {
  }

  lemma PurgeFits(g: Image, y: Layout, o: Obj, peer: Addr)
    requires Fits(g, y) && !o.Unknown?
    ensures Fits(WithTable(g, o, Purge(TableOf(g, o), peer)), y)
  {
  }

  // ---------------------------------------------------------------- what every run keeps

  /** An image in which no key is held twice. */
  ghost predicate Sound(g: Image, y: Layout) {
    Fits(g, y) && g.magic == MAGIC && Unique(g.sec) && Unique(g.cccd)
  }

  /** The work copy, once loaded, is sound, and so is what a load would find in the flash. */
  ghost predicate StoreOk(s: Store, y: Layout) {
    && Shaped(s, y) && ImageSize(y) <= SECTOR
    && (s.loaded ==> Sound(s.img, y))
    && Sound(LoadFrom(s.flash, y), y)
  }

  /** After a failed erase or write a load would find what it would have found before, or nothing. */
  ghost predicate LuckOk(s: Store, y: Layout, k: Luck) {
    || (k.erase && k.write)
    || (|k.left| == |s.flash| >= ImageSize(y)
        && (LoadFrom(k.left, y) == Empty(y) || LoadFrom(k.left, y) == LoadFrom(s.flash, y)))
  }

  lemma EmptySound(y: Layout)
    ensures Sound(Empty(y), y)
  {
    EmptyFits(y);
  }

  lemma SealedSound(g: Image, y: Layout)
    requires Sound(g, y)
    ensures Sound(Sealed(g), y)
  {
    hide Payload;
  }

  lemma CommitKeeps(s: Store, y: Layout, k: Luck)
    requires StoreOk(s, y) && s.loaded && LuckOk(s, y, k)
    ensures StoreOk(CommitCall(s, y, k).0, y) && CommitCall(s, y, k).0.loaded
  {
    hide Fits, LoadFrom, Empty, Stored, Unique, Sealed, ImageSize;
    SealedSound(s.img, y);
    EmptySound(y);
    CommitThenLoad(s.flash, s.img, y);
  }

  lemma LoadKeeps(s: Store, y: Layout, k: Luck)
    requires StoreOk(s, y)
    ensures StoreOk(LoadCall(s, y, k), y) && LoadCall(s, y, k).loaded
  {
    hide Fits, LoadFrom, Empty, Unique, ImageSize;
    EmptySound(y);
  }

  lemma WriteKeeps(s: Store, y: Layout, o: Obj, r: Rec, k: Luck)
    requires StoreOk(s, y) && RecFits(o, r, y) && LuckOk(s, y, k)
    ensures StoreOk(WriteCall(s, y, o, r, k).0, y)
  {
    hide Fits, LoadFrom, Empty, Unique, ImageSize, CommitCall, Put;
    LoadKeeps(s, y, k);
    var u := LoadCall(s, y, k);
    if !o.Unknown? {
      PutFits(u.img, y, o, r);
      PutRefinesMap(TableOf(u.img, o), r);
      CommitKeeps(u.(img := WithTable(u.img, o, Put(TableOf(u.img, o), r).0)), y, k);
    }
  }

  lemma DeleteKeeps(s: Store, y: Layout, o: Obj, peer: Addr, k: Luck)
    requires StoreOk(s, y) && LuckOk(s, y, k)
    ensures StoreOk(DeleteCall(s, y, o, peer, k).0, y)
  {
    hide Fits, LoadFrom, Empty, Unique, ImageSize, CommitCall, Purge, AnyOf;
    LoadKeeps(s, y, k);
    var u := LoadCall(s, y, k);
    if !o.Unknown? {
      PurgeFits(u.img, y, o, peer);
      PurgeRefinesMap(TableOf(u.img, o), peer);
      CommitKeeps(u.(img := WithTable(u.img, o, Purge(TableOf(u.img, o), peer))), y, k);
    }
  }

  datatype Event =
    | Write(o: Obj, r: Rec, k: Luck) | Delete(o: Obj, peer: Addr, k: Luck)
    | Read(o: Obj, key: Key, idx: nat, k: Luck) | PowerCycle

  ghost predicate EventOk(s: Store, y: Layout, e: Event) {
    && (!e.PowerCycle? ==> LuckOk(s, y, e.k))
    && (e.Write? ==> RecFits(e.o, e.r, y))
  }

  /** An event that cannot happen changes nothing. */
  ghost function Next(s: Store, y: Layout, e: Event): Store {
    if !Shaped(s, y) || !EventOk(s, y, e) then s
    else
      match e
      case Write(o, r, k) => WriteCall(s, y, o, r, k).0
      case Delete(o, peer, k) => DeleteCall(s, y, o, peer, k).0
      case Read(o, key, idx, k) => ReadCall(s, y, o, key, idx, k).0
      case PowerCycle => PowerUp(s, y)
  }

  ghost function Run(s: Store, y: Layout, es: seq<Event>): Store {
    if es == [] then s else Next(Run(s, y, es[..|es| - 1]), y, es[|es| - 1])
  }

  lemma NextKeeps(s: Store, y: Layout, e: Event)
    requires StoreOk(s, y)
    ensures StoreOk(Next(s, y, e), y)
  {
    hide Fits, LoadFrom, Empty, Unique, ImageSize, WriteCall, DeleteCall, LoadCall;
    if EventOk(s, y, e) {
      match e
      case Write(o, r, k) => WriteKeeps(s, y, o, r, k);
      case Delete(o, peer, k) => DeleteKeeps(s, y, o, peer, k);
      case Read(o, key, idx, k) => LoadKeeps(s, y, k);
      case PowerCycle => EmptyFits(y);
    }
  }

  /** A chip whose flash has never been written. */
  function FirstBoot(y: Layout, n: nat): Store {
    Store(Empty(y).(magic := 0, version := 0), false, false, seq(n, _ => 0xff))
  }

  lemma ErasedMagic(b: seq<bv8>)
    requires |b| == 4 && b == [0xff, 0xff, 0xff, 0xff]
    ensures UnWord(b) != MAGIC
  {
    assert Byte0(UnWord(b)) == 0xff by { Byte0Join(0xff, 0xff, 0xff, 0xff); }
    assert Byte0(MAGIC) != 0xff;
  }

  lemma ErasedIsNotAccepted(f: seq<bv8>, y: Layout)
    requires |f| >= ImageSize(y) && f[..4] == [0xff, 0xff, 0xff, 0xff]
    ensures LoadFrom(f, y) == Empty(y)
  {
    hide UnWord, Payload, Fits;
    assert f[..ImageSize(y)][..4] == f[..4];
    ErasedMagic(f[..4]);
  }

  lemma FirstBootOk(y: Layout, n: nat)
    requires ImageSize(y) <= SECTOR && n >= ImageSize(y)
    ensures StoreOk(FirstBoot(y, n), y)
  {
    var f := FirstBoot(y, n).flash;
    assert f[..4] == [0xff, 0xff, 0xff, 0xff];
    hide Fits, LoadFrom, Empty, ImageSize;
    EmptyFits(y);
    ErasedIsNotAccepted(f, y);
    EmptySound(y);
  }

  /** Whatever calls are made on a new chip, whichever of them fail and however often the power is cut
      between calls, no table ever holds a key twice, neither in memory nor in what a load would find. */
  lemma {:induction false} RunIsSound(y: Layout, n: nat, es: seq<Event>)
    requires ImageSize(y) <= SECTOR && n >= ImageSize(y)
    ensures StoreOk(Run(FirstBoot(y, n), y, es), y)
    decreases |es|
  {
    hide StoreOk, Next, FirstBoot;
    if es == [] {
      FirstBootOk(y, n);
    } else {
      RunIsSound(y, n, es[..|es| - 1]);
      NextKeeps(Run(FirstBoot(y, n), y, es[..|es| - 1]), y, es[|es| - 1]);
    }
  }

  // ---------------------------------------------------------------- what survives

  const LUCKY := Luck(true, true, true, true, [])

  /** A call that reports success has committed: after a power cycle the store comes up with exactly the
      tables it had. */
  lemma CommittedSurvives(s: Store, y: Layout, k: Luck)
    requires Shaped(s, y) && s.img.magic == MAGIC && ImageSize(y) <= SECTOR
    requires CommitCall(s, y, k).1 == Done
    ensures var u := CommitCall(s, y, k).0;
            && LoadCall(PowerUp(u, y), y, LUCKY).img == u.img
            && u.img.sec == s.img.sec && u.img.cccd == s.img.cccd
  {
    hide Fits, LoadFrom, Empty, Stored, ImageSize;
    CommitThenLoad(s.flash, s.img, y);
  }

  /** A write that succeeded is found after a power cycle, unless its key reads as a wildcard. */
  lemma AcknowledgedWriteSurvives(s: Store, y: Layout, o: Obj, r: Rec, k: Luck)
    requires StoreOk(s, y) && RecFits(o, r, y) && !o.Unknown?
    requires WriteCall(s, y, o, r, k).1 == Done && r.peer != ANY && (o.Cccd? ==> r.handle != 0)
    ensures var u := PowerUp(WriteCall(s, y, o, r, k).0, y);
            Shaped(u, y) && ReadCall(u, y, o, KeyOf(r), 0, LUCKY).1 == Found(r)
  {
    hide Fits, LoadFrom, Empty, Unique, ImageSize, CommitCall, Put, Hits, AsMap, SlotFits, Exact;
    LoadKeeps(s, y, k);
    EmptyFits(y);
    var u := LoadCall(s, y, k);
    var t := Put(TableOf(u.img, o), r).0;
    var g := WithTable(u.img, o, t);
    PutFits(u.img, y, o, r);
    PutRefinesMap(TableOf(u.img, o), r);
    CommittedSurvives(u.(img := g), y, k);
    CommitShaped(u.(img := g), y, k);
    ExactKey(g, y, o, r);
    ReadLooksUp(t, KeyOf(r));
  }

  lemma CommitShaped(s: Store, y: Layout, k: Luck)
    requires Shaped(s, y) && CommitCall(s, y, k).1 == Done
    ensures |CommitCall(s, y, k).0.flash| == |s.flash|
  {
  }

  lemma ExactKey(g: Image, y: Layout, o: Obj, r: Rec)
    requires Fits(g, y) && RecFits(o, r, y) && !o.Unknown? && r.peer != ANY && (o.Cccd? ==> r.handle != 0)
    ensures Exact(TableOf(g, o), KeyOf(r))
  {
  }

  /** A write whose commit fails has changed the work copy all the same: until the next power cycle reads
      return the new record, although the caller was told that it was not stored. */
  lemma FailedWriteShows(s: Store, y: Layout, o: Obj, r: Rec, k: Luck)
    requires StoreOk(s, y) && RecFits(o, r, y) && !o.Unknown?
    requires WriteCall(s, y, o, r, k).1 == Failed
    ensures var u := WriteCall(s, y, o, r, k).0;
            u.loaded && AsMap(TableOf(u.img, o)) == AsMap(TableOf(LoadCall(s, y, k).img, o))[KeyOf(r) := r]
  {
    hide Fits, LoadFrom, Empty, Unique, ImageSize, Put, AsMap, SlotFits, Stored;
    LoadKeeps(s, y, k);
    var u := LoadCall(s, y, k);
    PutFits(u.img, y, o, r);
    PutRefinesMap(TableOf(u.img, o), r);
  }

  /** Likewise a delete: the records of the peer are gone from the work copy. */
  lemma FailedDeleteShows(s: Store, y: Layout, o: Obj, peer: Addr, k: Luck)
    requires StoreOk(s, y) && !o.Unknown?
    requires DeleteCall(s, y, o, peer, k).1 == Failed
    ensures var u := DeleteCall(s, y, o, peer, k).0;
            var m := AsMap(TableOf(LoadCall(s, y, k).img, o));
            u.loaded && AsMap(TableOf(u.img, o)) == map q | q in m && q.peer != peer :: m[q]
  {
    hide Fits, LoadFrom, Empty, Unique, ImageSize, Purge, AnyOf, AsMap, SlotFits, Stored;
    LoadKeeps(s, y, k);
    var u := LoadCall(s, y, k);
    PurgeFits(u.img, y, o, peer);
    PurgeRefinesMap(TableOf(u.img, o), peer);
  }

  /** The driver will fail the commit of a call. */
  predicate DriverFails(s: Store, k: Luck) {
    (!s.configured && !k.config) || !k.erase || !k.write
  }

  lemma FailingCommit(s: Store, y: Layout, k: Luck)
    requires Shaped(s, y)
    ensures CommitCall(s, y, k).1 == (if DriverFails(s, k) then Failed else Done)
    ensures CommitCall(s, y, k).0.img == Sealed(s.img)
  {
    hide Stored, Sealed;
  }

  /** What a write answers: it does not know the object type; or the map is full without the key; or the
      driver fails; or it is done. */
  lemma WriteAnswers(s: Store, y: Layout, o: Obj, r: Rec, k: Luck)
    requires StoreOk(s, y) && RecFits(o, r, y) && Shaped(s, y)
    ensures var u := LoadCall(s, y, k);
            var t := TableOf(u.img, o);
            (WriteCall(s, y, o, r, k).1
             == if o.Unknown? then NotSupported
                else if KeyOf(r) !in AsMap(t) && |AsMap(t)| == |t| then Full
                else if (!u.configured && !k.config) || !k.erase || !k.write then Failed
                else Done)
  {
    hide Fits, LoadFrom, Empty, Unique, ImageSize, Put, AsMap, SlotFits, Stored, CommitCall;
    LoadKeeps(s, y, k);
    var u := LoadCall(s, y, k);
    if !o.Unknown? {
      PutFits(u.img, y, o, r);
      PutRefinesMap(TableOf(u.img, o), r);
      FailingCommit(u.(img := WithTable(u.img, o, Put(TableOf(u.img, o), r).0)), y, k);
    }
  }

  /** And a delete: it does not know the object type; or there is no record of the peer; or the driver
      fails; or it is done. */
  lemma DeleteAnswers(s: Store, y: Layout, o: Obj, peer: Addr, k: Luck)
    requires StoreOk(s, y) && Shaped(s, y)
    ensures var u := LoadCall(s, y, k);
            var m := AsMap(TableOf(u.img, o));
            (DeleteCall(s, y, o, peer, k).1
             == if o.Unknown? then NotSupported
                else if forall q :: q in m ==> q.peer != peer then NoEntry
                else if (!u.configured && !k.config) || !k.erase || !k.write then Failed
                else Done)
  {
    hide Fits, LoadFrom, Empty, Unique, ImageSize, Purge, AnyOf, AsMap, SlotFits, Stored, CommitCall;
    LoadKeeps(s, y, k);
    var u := LoadCall(s, y, k);
    if !o.Unknown? {
      PurgeFits(u.img, y, o, peer);
      PurgeRefinesMap(TableOf(u.img, o), peer);
      FailingCommit(u.(img := WithTable(u.img, o, Purge(TableOf(u.img, o), peer))), y, k);
    }
  }

  /** And a read: counting its index up from 0 it goes once through the records whose keys match, and then
      says that there is none. */
  lemma ReadAnswers(s: Store, y: Layout, o: Obj, key: Key, k: Luck)
    requires StoreOk(s, y) && !o.Unknown? && Shaped(s, y)
    ensures var m := AsMap(TableOf(LoadCall(s, y, k).img, o));
            exists h: seq<Rec> ::
              && (forall i: nat :: ReadCall(s, y, o, key, i, k).1 == if i < |h| then Found(h[i]) else NotFound(NoEntry))
              && (forall a :: 0 <= a < |h| ==> KeyOf(h[a]) in m && m[KeyOf(h[a])] == h[a] && Matches(KeyOf(h[a]), key))
              && (forall q :: q in m && Matches(q, key) ==> m[q] in h)
              && (forall a, b :: 0 <= a < b < |h| ==> KeyOf(h[a]) != KeyOf(h[b]))
  {
    hide Fits, LoadFrom, Empty, Unique, ImageSize, AsMap, Hits, Matches;
    LoadKeeps(s, y, k);
    var t := TableOf(LoadCall(s, y, k).img, o);
    ReadEnumerates(t, key);
    var h := Hits(t, key);
    assert forall i: nat :: ReadCall(s, y, o, key, i, k).1 == if i < |h| then Found(h[i]) else NotFound(NoEntry);
  }

  /** A write that the driver fails leaves the records as they were loaded exactly when they had this very
      record already, or were full without its key. */
  lemma FailedWriteIsHarmlessExactly(s: Store, y: Layout, o: Obj, r: Rec, k: Luck)
    requires StoreOk(s, y) && RecFits(o, r, y) && !o.Unknown? && DriverFails(LoadCall(s, y, k), k)
    ensures var t := TableOf(LoadCall(s, y, k).img, o);
            var m := AsMap(t);
            AsMap(TableOf(WriteCall(s, y, o, r, k).0.img, o)) == m
            <==> (if KeyOf(r) in m then m[KeyOf(r)] == r else |m| == |t|)
  {
    hide Fits, LoadFrom, Empty, Unique, ImageSize, Put, AsMap, SlotFits, CommitCall, DriverFails;
    LoadKeeps(s, y, k);
    var u := LoadCall(s, y, k);
    var t := TableOf(u.img, o);
    PutFits(u.img, y, o, r);
    PutRefinesMap(t, r);
    FailingCommit(u.(img := WithTable(u.img, o, Put(t, r).0)), y, k);
    if KeyOf(r) in AsMap(t) {
      assert AsMap(t)[KeyOf(r) := r] == AsMap(t) <==> AsMap(t)[KeyOf(r)] == r;
    } else {
      assert KeyOf(r) in AsMap(t)[KeyOf(r) := r];
    }
  }

  /** A delete that the driver fails leaves the records as they were loaded exactly when there were none
      of the peer. */
  lemma FailedDeleteIsHarmlessExactly(s: Store, y: Layout, o: Obj, peer: Addr, k: Luck)
    requires StoreOk(s, y) && !o.Unknown? && DriverFails(LoadCall(s, y, k), k)
    ensures var m := AsMap(TableOf(LoadCall(s, y, k).img, o));
            AsMap(TableOf(DeleteCall(s, y, o, peer, k).0.img, o)) == m <==> forall q :: q in m ==> q.peer != peer
  {
    hide Fits, LoadFrom, Empty, Unique, ImageSize, Purge, AnyOf, AsMap, SlotFits, CommitCall, DriverFails;
    LoadKeeps(s, y, k);
    var u := LoadCall(s, y, k);
    var t := TableOf(u.img, o);
    PurgeFits(u.img, y, o, peer);
    PurgeRefinesMap(t, peer);
    FailingCommit(u.(img := WithTable(u.img, o, Purge(t, peer))), y, k);
    var m := AsMap(t);
    var rest := map q | q in m && q.peer != peer :: m[q];
    assert rest == m <==> forall q :: q in m ==> q.peer != peer by {
      if q :| q in m && q.peer == peer { assert q !in rest; }
    }
  }
}
