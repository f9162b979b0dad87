/** Whole runs of the bond store as its callers see them: two maps in memory and two in the flash. */
module BondRuns {
  import opened BondTables
  import opened BondImage
  import opened BondCalls

  /** The two maps of an image. */
  datatype Bonds = Bonds(sec: map<Key, Rec>, cccd: map<Key, Rec>)

  function BondsOf(g: Image): Bonds {
    Bonds(AsMap(g.sec), AsMap(g.cccd))
  }

  function MapOf(b: Bonds, o: Obj): map<Key, Rec> {
    if o.Cccd? then b.cccd else b.sec
  }

  function WithMap(b: Bonds, o: Obj, m: map<Key, Rec>): Bonds {
    if o.Cccd? then b.(cccd := m) else b.(sec := m)
  }

  /** The store as its callers see it: what is in memory once loaded, and what is in the flash. */
  datatype Ideal = Ideal(loaded: bool, configured: bool, ram: Bonds, disk: Bonds)

  const NO_BONDS := Bonds(map[], map[])

  /** A load brings what the flash has, or nothing if the driver fails it. */
  function IdealLoad(i: Ideal, k: Luck): Ideal {
    if i.loaded then i
    else if !i.configured && !k.config then i.(loaded := true, ram := NO_BONDS)
    else i.(loaded := true, configured := true, ram := if k.read then i.disk else NO_BONDS)
  }

  /** A commit carries all that is in memory to the flash.  If the driver fails the erase or the write, the
      flash has `kept` its content or lost it. */
  function IdealCommit(i: Ideal, k: Luck, kept: bool): Ideal {
    if !i.configured && !k.config then i
    else if !k.erase || !k.write then i.(configured := true, disk := if kept then i.disk else NO_BONDS)
    else i.(configured := true, disk := i.ram)
  }

  /** A write replaces or adds one record, unless the map is full without its key. */
  function IdealWrite(i: Ideal, y: Layout, o: Obj, r: Rec, k: Luck, kept: bool): Ideal {
    var u := IdealLoad(i, k);
    var m := MapOf(u.ram, o);
    if o.Unknown? || (KeyOf(r) !in m && |m| >= if o.Cccd? then y.nCccd else y.nSec) then u
    else IdealCommit(u.(ram := WithMap(u.ram, o, m[KeyOf(r) := r])), k, kept)
  }

  /** A delete removes the records of a peer, if there are any. */
  function IdealDelete(i: Ideal, o: Obj, peer: Addr, k: Luck, kept: bool): Ideal {
    var u := IdealLoad(i, k);
    var m := MapOf(u.ram, o);
    if o.Unknown? || forall q :: q in m ==> q.peer != peer then u
    else IdealCommit(u.(ram := WithMap(u.ram, o, map q | q in m && q.peer != peer :: m[q])), k, kept)
  }

  function IdealNext(i: Ideal, y: Layout, e: Event, kept: bool): Ideal {
    match e
    case Write(o, r, k) => IdealWrite(i, y, o, r, k, kept)
    case Delete(o, peer, k) => IdealDelete(i, o, peer, k, kept)
    case Read(o, key, idx, k) => IdealLoad(i, k)
    case PowerCycle => i.(loaded := false, configured := false)
  }

  /** What the callers see of a store. */
  ghost predicate Sees(s: Store, y: Layout, i: Ideal) {
    && s.loaded == i.loaded && s.configured == i.configured
    && (s.loaded ==> BondsOf(s.img) == i.ram)
    && |s.flash| >= ImageSize(y) && BondsOf(LoadFrom(s.flash, y)) == i.disk
  }

  /** Should the driver fail an erase or a write, the flash keeps its content. */
  ghost predicate Keeps(s: Store, y: Layout, k: Luck) {
    |k.left| == |s.flash| >= ImageSize(y) && LoadFrom(k.left, y) == LoadFrom(s.flash, y)
  }

  // ---------------------------------------------------------------- every call refines the ideal one

  lemma {:induction false} NoRecords(t: seq<Slot>)
    requires forall i :: 0 <= i < |t| ==> !InUse(t[i])
    ensures AsMap(t) == map[]
  {
    if t != [] {
      NoRecords(t[..|t| - 1]);
    }
  }

  lemma EmptyHasNoBonds(y: Layout)
    ensures BondsOf(Empty(y)) == NO_BONDS
  {
    NoRecords(Empty(y).sec);
    NoRecords(Empty(y).cccd);
  }

  lemma LoadRefines(s: Store, y: Layout, i: Ideal, k: Luck)
    requires Sees(s, y, i)
    ensures Sees(LoadCall(s, y, k), y, IdealLoad(i, k))
  {
    hide Empty, LoadFrom, AsMap, ImageSize;
    EmptyHasNoBonds(y);
  }

  lemma SealedBonds(g: Image)
    ensures BondsOf(Sealed(g)) == BondsOf(g)
  {
    hide AsMap;
  }

  lemma CommitRefines(s: Store, y: Layout, i: Ideal, k: Luck)
    requires StoreOk(s, y) && s.loaded && LuckOk(s, y, k) && Sees(s, y, i)
    ensures Sees(CommitCall(s, y, k).0, y, IdealCommit(i, k, Keeps(s, y, k)))
  {
    hide Empty, LoadFrom, Stored, Sealed, ImageSize, Fits, Unique, BondsOf;
    EmptyHasNoBonds(y);
    SealedBonds(s.img);
    CommitThenLoad(s.flash, s.img, y);
  }

  lemma LoadedTable(u: Store, y: Layout, j: Ideal, o: Obj)
    requires StoreOk(u, y) && u.loaded && Sees(u, y, j) && !o.Unknown?
    ensures Shaped(u, y) && Unique(TableOf(u.img, o)) && MapOf(j.ram, o) == AsMap(TableOf(u.img, o))
    ensures |TableOf(u.img, o)| == if o.Cccd? then y.nCccd else y.nSec
  {
  }

  lemma ChangedOk(u: Store, y: Layout, j: Ideal, o: Obj, t: seq<Slot>)
    requires StoreOk(u, y) && u.loaded && Sees(u, y, j) && !o.Unknown?
    requires Unique(t) && Fits(WithTable(u.img, o, t), y)
    ensures var v := u.(img := WithTable(u.img, o, t));
            StoreOk(v, y) && Sees(v, y, j.(ram := WithMap(j.ram, o, AsMap(t))))
  {
    hide Fits, LoadFrom, Unique, AsMap, ImageSize;
  }

  /** A changed table goes through the commit. */
  lemma ChangeRefines(u: Store, y: Layout, j: Ideal, o: Obj, t: seq<Slot>, k: Luck)
    requires StoreOk(u, y) && u.loaded && Sees(u, y, j) && !o.Unknown? && LuckOk(u, y, k)
    requires Unique(t) && Fits(WithTable(u.img, o, t), y)
    ensures Sees(CommitCall(u.(img := WithTable(u.img, o, t)), y, k).0, y,
                 IdealCommit(j.(ram := WithMap(j.ram, o, AsMap(t))), k, Keeps(u, y, k)))
  {
    ChangedOk(u, y, j, o, t);
    hide StoreOk, Sees, Fits, LoadFrom, Unique, AsMap, ImageSize, IdealCommit, CommitCall, Shaped;
    CommitRefines(u.(img := WithTable(u.img, o, t)), y, j.(ram := WithMap(j.ram, o, AsMap(t))), k);
  }

  lemma Loading(s: Store, y: Layout, k: Luck)
    requires StoreOk(s, y)
    ensures Shaped(s, y) && |s.flash| >= ImageSize(y) && StoreOk(LoadCall(s, y, k), y) && LoadCall(s, y, k).loaded
    ensures LoadCall(s, y, k).flash == s.flash
    ensures LuckOk(LoadCall(s, y, k), y, k) <==> LuckOk(s, y, k)
    ensures Keeps(LoadCall(s, y, k), y, k) <==> Keeps(s, y, k)
  {
    LoadKeeps(s, y, k);
  }

  lemma WriteRefines(s: Store, y: Layout, i: Ideal, o: Obj, r: Rec, k: Luck)
    requires StoreOk(s, y) && RecFits(o, r, y) && LuckOk(s, y, k) && Sees(s, y, i)
    ensures Shaped(s, y) && Sees(WriteCall(s, y, o, r, k).0, y, IdealWrite(i, y, o, r, k, Keeps(s, y, k)))
  {
    hide LoadFrom, Unique, ImageSize, CommitCall, IdealCommit, LoadCall, IdealLoad, Put, AsMap, StoreOk, Sees;
    hide LuckOk, Keeps, Shaped, Fits;
    Loading(s, y, k);
    LoadRefines(s, y, i, k);
    if !o.Unknown? {
      var u, j := LoadCall(s, y, k), IdealLoad(i, k);
      LoadedTable(u, y, j, o);
      var t := TableOf(u.img, o);
      FitsOf(u, y);
      PutFits(u.img, y, o, r);
      PutRefinesMap(t, r);
      FullSize(t);
      if Put(t, r).1 == Done {
        ChangeRefines(u, y, j, o, Put(t, r).0, k);
      }
    }
  }

  lemma FitsOf(u: Store, y: Layout)
    requires Shaped(u, y)
    ensures Fits(u.img, y)
  {
  }

  lemma DeleteRefines(s: Store, y: Layout, i: Ideal, o: Obj, peer: Addr, k: Luck)
    requires StoreOk(s, y) && LuckOk(s, y, k) && Sees(s, y, i)
    ensures Shaped(s, y) && Sees(DeleteCall(s, y, o, peer, k).0, y, IdealDelete(i, o, peer, k, Keeps(s, y, k)))
  {
    hide LoadFrom, Unique, ImageSize, CommitCall, IdealCommit, LoadCall, IdealLoad, Purge, AnyOf, AsMap, StoreOk, Sees;
    hide LuckOk, Keeps, Shaped, Fits;
    Loading(s, y, k);
    LoadRefines(s, y, i, k);
    if !o.Unknown? {
      var u, j := LoadCall(s, y, k), IdealLoad(i, k);
      LoadedTable(u, y, j, o);
      var t := TableOf(u.img, o);
      FitsOf(u, y);
      PurgeFits(u.img, y, o, peer);
      PurgeRefinesMap(t, peer);
      if AnyOf(t, peer) {
        ChangeRefines(u, y, j, o, Purge(t, peer), k);
      }
    }
  }

  lemma NextRefines(s: Store, y: Layout, i: Ideal, e: Event)
    requires StoreOk(s, y) && EventOk(s, y, e) && Sees(s, y, i)
    ensures Sees(Next(s, y, e), y, IdealNext(i, y, e, !e.PowerCycle? && Keeps(s, y, e.k)))
  {
    hide LoadFrom, Unique, ImageSize, WriteCall, DeleteCall, LoadCall, IdealWrite, IdealDelete, IdealLoad, Fits, AsMap;
    match e
    case Write(o, r, k) => WriteRefines(s, y, i, o, r, k);
    case Delete(o, peer, k) => DeleteRefines(s, y, i, o, peer, k);
    case Read(o, key, idx, k) => LoadRefines(s, y, i, k);
    case PowerCycle =>
  }

  /** What the callers see after a run on a new chip. */
  ghost function IdealRun(y: Layout, n: nat, es: seq<Event>): Ideal {
    if es == [] then Ideal(false, false, NO_BONDS, NO_BONDS)
    else
      var before, e := es[..|es| - 1], es[|es| - 1];
      var i, s := IdealRun(y, n, before), Run(FirstBoot(y, n), y, before);
      if EventOk(s, y, e) then IdealNext(i, y, e, !e.PowerCycle? && Keeps(s, y, e.k)) else i
  }

  lemma FirstBootSees(y: Layout, n: nat)
    requires ImageSize(y) <= SECTOR && n >= ImageSize(y)
    ensures Sees(FirstBoot(y, n), y, Ideal(false, false, NO_BONDS, NO_BONDS))
  {
    var f := FirstBoot(y, n).flash;
    assert f[..4] == [0xff, 0xff, 0xff, 0xff];
    hide LoadFrom, Empty, ImageSize, BondsOf;
    ErasedIsNotAccepted(f, y);
    EmptyHasNoBonds(y);
  }

  /** Every run of the store, device failures and power cycles included, is a run of two maps in memory and
      two in the flash: a load copies flash to memory, or empties memory if the driver fails it; a write
      or delete changes the maps in memory and, if it reports success, copies them to the flash. */
  lemma {:induction false} RunRefinesMaps(y: Layout, n: nat, es: seq<Event>)
    requires ImageSize(y) <= SECTOR && n >= ImageSize(y)
    ensures Sees(Run(FirstBoot(y, n), y, es), y, IdealRun(y, n, es))
    decreases |es|
  {
    hide StoreOk, Next, FirstBoot, Sees, IdealNext, EventOk, Keeps;
    if es == [] {
      FirstBootSees(y, n);
    } else {
      var before, e := es[..|es| - 1], es[|es| - 1];
      var s := Run(FirstBoot(y, n), y, before);
      RunRefinesMaps(y, n, before);
      RunIsSound(y, n, before);
      if EventOk(s, y, e) {
        NextRefines(s, y, IdealRun(y, n, before), e);
      } else {
        Impossible(s, y, e);
      }
    }
  }

  lemma Impossible(s: Store, y: Layout, e: Event)
    requires !EventOk(s, y, e)
    ensures Next(s, y, e) == s
  {
  }

  // ---------------------------------------------------------------- when the driver never fails

  predicate AllWell(e: Event) {
    !e.PowerCycle? ==> e.k.config && e.k.read && e.k.erase && e.k.write
  }

  /** One call that was accepted, on the maps. */
  function Asked(b: Bonds, y: Layout, e: Event): Bonds {
    match e
    case Write(o, r, _) =>
      var m := MapOf(b, o);
      if o.Unknown? || (KeyOf(r) !in m && |m| >= if o.Cccd? then y.nCccd else y.nSec) then b
      else WithMap(b, o, m[KeyOf(r) := r])
    case Delete(o, peer, _) =>
      var m := MapOf(b, o);
      if o.Unknown? then b else WithMap(b, o, map q | q in m && q.peer != peer :: m[q])
    case _ => b
  }

  function AskedAll(y: Layout, es: seq<Event>): Bonds {
    if es == [] then NO_BONDS else Asked(AskedAll(y, es[..|es| - 1]), y, es[|es| - 1])
  }

  lemma NothingToPurge(b: Bonds, o: Obj, peer: Addr)
    requires forall q :: q in MapOf(b, o) ==> q.peer != peer
    ensures WithMap(b, o, map q | q in MapOf(b, o) && q.peer != peer :: MapOf(b, o)[q]) == b
  {
    var m := MapOf(b, o);
    assert (map q | q in m && q.peer != peer :: m[q]) == m;
  }

  lemma IdealAsked(i: Ideal, y: Layout, e: Event, kept: bool)
    requires AllWell(e) && (i.loaded ==> i.ram == i.disk && i.configured)
    ensures var j := IdealNext(i, y, e, kept);
            j.disk == Asked(i.disk, y, e) && (j.loaded ==> j.ram == j.disk && j.configured)
  {
    if e.Delete? && !e.o.Unknown? && (forall q :: q in MapOf(i.disk, e.o) ==> q.peer != e.peer) {
      NothingToPurge(i.disk, e.o, e.peer);
    }
  }

  lemma {:induction false} IdealRunAsked(y: Layout, n: nat, es: seq<Event>)
    requires forall j :: 0 <= j < |es| ==> AllWell(es[j]) && (es[j].Write? ==> RecFits(es[j].o, es[j].r, y))
    ensures var i := IdealRun(y, n, es);
            i.disk == AskedAll(y, es) && (i.loaded ==> i.ram == i.disk && i.configured)
    decreases |es|
  {
    if es != [] {
      hide IdealNext, Asked, Run, RecFits;
      var before, e := es[..|es| - 1], es[|es| - 1];
      IdealRunAsked(y, n, before);
      assert EventOk(Run(FirstBoot(y, n), y, before), y, e);
      IdealAsked(IdealRun(y, n, before), y, e,
                 !e.PowerCycle? && Keeps(Run(FirstBoot(y, n), y, before), y, e.k));
    }
  }

  /** While the flash driver does not fail, the store is durable: after any calls and power cycles the
      flash, and memory once loaded, hold exactly what the accepted writes and deletes ask for. */
  lemma BondsAreDurable(y: Layout, n: nat, es: seq<Event>)
    requires ImageSize(y) <= SECTOR && n >= ImageSize(y)
    requires forall j :: 0 <= j < |es| ==> AllWell(es[j]) && (es[j].Write? ==> RecFits(es[j].o, es[j].r, y))
    ensures var s := Run(FirstBoot(y, n), y, es);
            && |s.flash| >= ImageSize(y) && BondsOf(LoadFrom(s.flash, y)) == AskedAll(y, es)
            && (s.loaded ==> BondsOf(s.img) == AskedAll(y, es))
  {
    hide Run, IdealRun, AskedAll, BondsOf, LoadFrom, ImageSize, FirstBoot, RecFits;
    RunRefinesMaps(y, n, es);
    IdealRunAsked(y, n, es);
  }

  // ---------------------------------------------------------------- when a load fails

  /** The driver serves the load of an unloaded store. */
  predicate LoadServed(s: Store, k: Luck) {
    (s.configured || k.config) && k.read
  }

  /** What a load brings is what the flash holds if and only if the driver serves it, or there was nothing. */
  lemma LoadBringsBondsExactly(s: Store, y: Layout, k: Luck)
    requires Shaped(s, y) && !s.loaded
    ensures |s.flash| >= ImageSize(y)
    ensures var d := BondsOf(LoadFrom(s.flash, y));
            BondsOf(LoadCall(s, y, k).img) == d <==> LoadServed(s, k) || d == NO_BONDS
  {
    hide Empty, LoadFrom, AsMap, ImageSize;
    EmptyHasNoBonds(y);
  }

  /** What memory has once this call has loaded it. */
  function InMemory(s: Store, y: Layout, k: Luck): Bonds
    requires Shaped(s, y)
  {
    BondsOf(LoadCall(s, y, k).img)
  }

  lemma SeesItself(s: Store, y: Layout, k: Luck) returns (i: Ideal)
    requires Shaped(s, y)
    ensures Sees(s, y, i) && IdealLoad(i, k).ram == InMemory(s, y, k)
  {
    hide LoadFrom, Empty, AsMap, ImageSize;
    i := Ideal(s.loaded, s.configured, BondsOf(s.img), BondsOf(LoadFrom(s.flash, y)));
    EmptyHasNoBonds(y);
  }

  /** A write that succeeds leaves in the flash all that memory had, with the record added or replaced,
      whatever the flash held before. */
  lemma WriteStoresMemory(s: Store, y: Layout, o: Obj, r: Rec, k: Luck)
    requires StoreOk(s, y) && RecFits(o, r, y)
    requires Shaped(s, y) && WriteCall(s, y, o, r, k).1 == Done
    ensures var u := WriteCall(s, y, o, r, k).0;
            var m := InMemory(s, y, k);
            && |u.flash| >= ImageSize(y)
            && BondsOf(LoadFrom(u.flash, y)) == WithMap(m, o, MapOf(m, o)[KeyOf(r) := r])
  {
    var i := SeesItself(s, y, k);
    WriteHasRoom(s, y, i, o, r, k);
    WriteRefines(s, y, i, o, r, k);
  }

  /** A delete that succeeds leaves in the flash all that memory had but the records of the peer. */
  lemma DeleteStoresMemory(s: Store, y: Layout, o: Obj, peer: Addr, k: Luck)
    requires StoreOk(s, y)
    requires Shaped(s, y) && DeleteCall(s, y, o, peer, k).1 == Done
    ensures var u := DeleteCall(s, y, o, peer, k).0;
            var m := InMemory(s, y, k);
            && |u.flash| >= ImageSize(y)
            && (BondsOf(LoadFrom(u.flash, y))
                == WithMap(m, o, map q | q in MapOf(m, o) && q.peer != peer :: MapOf(m, o)[q]))
  {
    var i := SeesItself(s, y, k);
    DeleteHits(s, y, i, o, peer, k);
    DeleteRefines(s, y, i, o, peer, k);
  }

  /** A write that succeeds in an unloaded store keeps the bonds stored earlier if and only if the read of
      its load succeeds, or there were none but one under the record's own key. */
  lemma WriteKeepsBondsExactly(s: Store, y: Layout, o: Obj, r: Rec, k: Luck)
    requires StoreOk(s, y) && RecFits(o, r, y) && !s.loaded
    requires Shaped(s, y) && WriteCall(s, y, o, r, k).1 == Done
    ensures |s.flash| >= ImageSize(y) && |WriteCall(s, y, o, r, k).0.flash| >= ImageSize(y)
    ensures var d := BondsOf(LoadFrom(s.flash, y));
            BondsOf(LoadFrom(WriteCall(s, y, o, r, k).0.flash, y)) == WithMap(d, o, MapOf(d, o)[KeyOf(r) := r])
            <==> k.read || WithMap(d, o, MapOf(d, o) - {KeyOf(r)}) == NO_BONDS
  {
    WriteStoresMemory(s, y, o, r, k);
    DoneMeans(s, y, o, r, k);
    EmptyHasNoBonds(y);
    hide LoadFrom, ImageSize, WriteCall, StoreOk, BondsOf, Shaped, Empty;
    SameButOneKey(BondsOf(LoadFrom(s.flash, y)), o, r);
  }

  /** Adding a record to these bonds and to none gives the same exactly when these have no other. */
  lemma SameButOneKey(d: Bonds, o: Obj, r: Rec)
    ensures WithMap(NO_BONDS, o, map[KeyOf(r) := r]) == WithMap(d, o, MapOf(d, o)[KeyOf(r) := r])
            <==> WithMap(d, o, MapOf(d, o) - {KeyOf(r)}) == NO_BONDS
    ensures MapOf(NO_BONDS, o)[KeyOf(r) := r] == map[KeyOf(r) := r]
  {
    var m, q := MapOf(d, o), KeyOf(r);
    assert map[][q := r] == map[q := r];
    if m - {q} == map[] {
      assert m[q := r] == map[q := r] by { assert forall x :: x in m ==> x == q || x in m - {q}; }
    } else {
      var x :| x in m - {q};
      assert x in m[q := r] && x !in map[q := r];
    }
  }

  /** The bad case: a load whose read fails starts empty, and if the very call that loads writes with
      success, its record replaces all earlier bonds. */
  lemma FailedLoadLosesBonds(s: Store, y: Layout, o: Obj, r: Rec, k: Luck)
    requires StoreOk(s, y) && RecFits(o, r, y)
    requires !s.loaded && !k.read && WriteCall(s, y, o, r, k).1 == Done
    ensures var u := WriteCall(s, y, o, r, k).0;
            |u.flash| >= ImageSize(y) && BondsOf(LoadFrom(u.flash, y)) == WithMap(NO_BONDS, o, map[KeyOf(r) := r])
  {
    WriteStoresMemory(s, y, o, r, k);
    DoneMeans(s, y, o, r, k);
    EmptyHasNoBonds(y);
    hide LoadFrom, ImageSize, WriteCall, StoreOk, BondsOf, Shaped, Empty;
    SameButOneKey(NO_BONDS, o, r);
  }

  // ---------------------------------------------------------------- a bond that no call is about

  /** Memory, once loaded, and the flash have this record under the key. */
  ghost predicate Bonded(s: Store, y: Layout, o: Obj, q: Key, r: Rec) {
    && (s.loaded ==> q in MapOf(BondsOf(s.img), o) && MapOf(BondsOf(s.img), o)[q] == r)
    && |s.flash| >= ImageSize(y)
    && var d := MapOf(BondsOf(LoadFrom(s.flash, y)), o);
       q in d && d[q] == r
  }

  /** The event is about the key: a write to it or a delete of its peer, in its table. */
  predicate About(e: Event, o: Obj, q: Key) {
    && (e.Write? || e.Delete?) && !e.o.Unknown? && e.o.Cccd? == o.Cccd?
    && if e.Write? then KeyOf(e.r) == q else e.peer == q.peer
  }

  /** The driver serves the load of this event, if it has one, and keeps the flash should a commit fail. */
  ghost predicate Served(s: Store, y: Layout, e: Event) {
    e.PowerCycle? || ((s.loaded || LoadServed(s, e.k)) && ((e.k.erase && e.k.write) || Keeps(s, y, e.k)))
  }

  ghost predicate ServedRun(s: Store, y: Layout, es: seq<Event>) {
    es == [] || (ServedRun(s, y, es[..|es| - 1]) && Served(Run(s, y, es[..|es| - 1]), y, es[|es| - 1]))
  }

  /** A bond survives every run that is not about it, whatever commits fail and however often the power is
      cut, as long as the loads are served and a commit that fails leaves the flash as it was. */
  lemma {:induction false} BondSurvives(s: Store, y: Layout, es: seq<Event>, o: Obj, q: Key, r: Rec)
    requires StoreOk(s, y) && Bonded(s, y, o, q, r) && ServedRun(s, y, es)
    requires forall j :: 0 <= j < |es| ==> !About(es[j], o, q)
    ensures StoreOk(Run(s, y, es), y) && Bonded(Run(s, y, es), y, o, q, r)
    decreases |es|
  {
    hide StoreOk, Bonded, Next, About, Served;
    if es != [] {
      var before, e := es[..|es| - 1], es[|es| - 1];
      BondSurvives(s, y, before, o, q, r);
      NextKeeps(Run(s, y, before), y, e);
      NextKeepsBond(Run(s, y, before), y, e, o, q, r);
    }
  }

  lemma NextKeepsBond(s: Store, y: Layout, e: Event, o: Obj, q: Key, r: Rec)
    requires StoreOk(s, y) && Bonded(s, y, o, q, r) && Served(s, y, e) && !About(e, o, q)
    ensures Bonded(Next(s, y, e), y, o, q, r)
  {
    hide StoreOk, Next, LoadFrom, BondsOf, ImageSize, Keeps, EventOk, About;
    if EventOk(s, y, e) {
      var i := Ideal(s.loaded, s.configured, BondsOf(s.img), BondsOf(LoadFrom(s.flash, y)));
      NextRefines(s, y, i, e);
      IdealKeepsBond(i, y, e, !e.PowerCycle? && Keeps(s, y, e.k), o, q, r);
    } else {
      Impossible(s, y, e);
    }
  }

  lemma IdealKeepsBond(i: Ideal, y: Layout, e: Event, kept: bool, o: Obj, q: Key, r: Rec)
    requires i.loaded ==> q in MapOf(i.ram, o) && MapOf(i.ram, o)[q] == r
    requires q in MapOf(i.disk, o) && MapOf(i.disk, o)[q] == r && !About(e, o, q)
    requires e.PowerCycle? || i.loaded || ((i.configured || e.k.config) && e.k.read)
    requires e.PowerCycle? || (e.k.erase && e.k.write) || kept
    ensures var j := IdealNext(i, y, e, kept);
            && (j.loaded ==> q in MapOf(j.ram, o) && MapOf(j.ram, o)[q] == r)
            && q in MapOf(j.disk, o) && MapOf(j.disk, o)[q] == r
  {
  }

  lemma WriteHasRoom(s: Store, y: Layout, i: Ideal, o: Obj, r: Rec, k: Luck)
    requires StoreOk(s, y) && RecFits(o, r, y) && Shaped(s, y) && Sees(s, y, i)
    requires WriteCall(s, y, o, r, k).1 == Done
    ensures LuckOk(s, y, k) && !o.Unknown? && (IdealLoad(i, k).configured || k.config)
    ensures var m := MapOf(IdealLoad(i, k).ram, o); KeyOf(r) in m || |m| < if o.Cccd? then y.nCccd else y.nSec
  {
    hide Unique, LoadFrom, ImageSize, Put, AsMap, Stored, Sealed, Empty;
    DoneMeans(s, y, o, r, k);
    Loading(s, y, k);
    LoadRefines(s, y, i, k);
    var u, j := LoadCall(s, y, k), IdealLoad(i, k);
    LoadedTable(u, y, j, o);
    PutRefinesMap(TableOf(u.img, o), r);
    FullSize(TableOf(u.img, o));
  }

  lemma DeleteHits(s: Store, y: Layout, i: Ideal, o: Obj, peer: Addr, k: Luck)
    requires StoreOk(s, y) && Shaped(s, y) && Sees(s, y, i)
    requires DeleteCall(s, y, o, peer, k).1 == Done
    ensures LuckOk(s, y, k) && !o.Unknown? && (IdealLoad(i, k).configured || k.config) && k.erase && k.write
    ensures exists q :: q in MapOf(IdealLoad(i, k).ram, o) && q.peer == peer
  {
    hide Unique, LoadFrom, ImageSize, Purge, AnyOf, AsMap, Stored, Sealed, Empty;
    Loading(s, y, k);
    LoadRefines(s, y, i, k);
    var u, j := LoadCall(s, y, k), IdealLoad(i, k);
    LoadedTable(u, y, j, o);
    PurgeRefinesMap(TableOf(u.img, o), peer);
  }

  lemma DoneMeans(s: Store, y: Layout, o: Obj, r: Rec, k: Luck)
    requires Shaped(s, y) && RecFits(o, r, y) && WriteCall(s, y, o, r, k).1 == Done
    ensures !o.Unknown? && k.erase && k.write && (s.configured || k.config)
    ensures !s.loaded && !k.read ==> (if o.Cccd? then y.nCccd else y.nSec) > 0
  {
  }
}
