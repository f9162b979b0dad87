/** The tables of the bond store: fixed arrays of slots used as finite maps. */
module BondTables {

  /** ble_addr_t: a type and six bytes. */
  datatype Addr = Addr(kind: bv8, val: seq<bv8>)

  /** BLE_ADDR_ANY */
  const ANY := Addr(0, [0, 0, 0, 0, 0, 0])

  /** A security or CCCD record.  Security records have no characteristic handle; it is 0 here. */
  datatype Rec = Rec(peer: Addr, handle: bv16, body: seq<bv8>)

  datatype Slot = Slot(valid: bv8, rec: Rec)

  datatype Key = Key(peer: Addr, handle: bv16)

  predicate InUse(s: Slot) {
    s.valid != 0
  }

  function KeyOf(r: Rec): Key {
    Key(r.peer, r.handle)
  }

  predicate Holds(s: Slot, k: Key) {
    InUse(s) && KeyOf(s.rec) == k
  }

  /** What a read asks for: BLE_ADDR_ANY matches every peer and handle 0 every handle. */
  predicate Wanted(s: Slot, k: Key) {
    && InUse(s)
    && (k.peer == ANY || s.rec.peer == k.peer)
    && (k.handle == 0 || s.rec.handle == k.handle)
  }

  /** The records a read can return, in the order of its index. */
  function Hits(t: seq<Slot>, k: Key): seq<Rec> {
    if t == [] then []
    else Hits(t[..|t| - 1], k) + if Wanted(t[|t| - 1], k) then [t[|t| - 1].rec] else []
  }

  /** The first slot that holds this key, or the number of slots. */
  function FirstWith(t: seq<Slot>, k: Key): (i: nat)
    ensures i <= |t| && (forall j :: 0 <= j < i ==> !Holds(t[j], k)) && (i < |t| ==> Holds(t[i], k))
  {
    if t == [] || Holds(t[0], k) then 0 else 1 + FirstWith(t[1..], k)
  }

  function FirstFree(t: seq<Slot>): (i: nat)
    ensures i <= |t| && (forall j :: 0 <= j < i ==> InUse(t[j])) && (i < |t| ==> !InUse(t[i]))
  {
    if t == [] || !InUse(t[0]) then 0 else 1 + FirstFree(t[1..])
  }

  datatype Status = Done | NoEntry | Full | Failed | NotSupported

  /** The table part of store_write. */
  function Put(t: seq<Slot>, r: Rec): (seq<Slot>, Status) {
    var i, f := FirstWith(t, KeyOf(r)), FirstFree(t);
    if i < |t| then (t[i := t[i].(rec := r)], Done)
    else if f < |t| then (t[f := Slot(1, r)], Done)
    else (t, Full)
  }

  predicate Of(s: Slot, peer: Addr) {
    InUse(s) && s.rec.peer == peer
  }

  /** A slot cleared to zero bytes. */
  function Cleared(s: Slot): Slot {
    Slot(0, Rec(ANY, 0, seq(|s.rec.body|, _ => 0)))
  }

  /** The table part of store_delete: everything of one peer, whatever the handle. */
  function Purge(t: seq<Slot>, peer: Addr): (r: seq<Slot>)
    ensures |r| == |t|
  {
    seq(|t|, i requires 0 <= i < |t| => if Of(t[i], peer) then Cleared(t[i]) else t[i])
  }

  predicate AnyOf(t: seq<Slot>, peer: Addr) {
    exists i :: 0 <= i < |t| && Of(t[i], peer)
  }

  // ---------------------------------------------------------------- the map

  /** No key is held twice. */
  ghost predicate Unique(t: seq<Slot>) {
    forall i, j :: 0 <= i < j < |t| && InUse(t[i]) && InUse(t[j]) ==> KeyOf(t[i].rec) != KeyOf(t[j].rec)
  }

  function AsMap(t: seq<Slot>): map<Key, Rec> {
    if t == [] then map[]
    else
      var m, s := AsMap(t[..|t| - 1]), t[|t| - 1];
      if InUse(s) then m[KeyOf(s.rec) := s.rec] else m
  }

  ghost predicate HeldIn(t: seq<Slot>, k: Key) {
    exists i :: 0 <= i < |t| && Holds(t[i], k)
  }

  /** The map has exactly the records of the slots in use. */
  lemma {:induction false} MapSays(t: seq<Slot>)
    requires Unique(t)
    ensures forall k :: k in AsMap(t) <==> HeldIn(t, k)
    ensures forall i :: 0 <= i < |t| && InUse(t[i]) ==>
              KeyOf(t[i].rec) in AsMap(t) && AsMap(t)[KeyOf(t[i].rec)] == t[i].rec
  {
    if t != [] {
      var n := |t| - 1;
      MapSays(t[..n]);
      forall k
        ensures k in AsMap(t) <==> HeldIn(t, k)
      {
        if HeldIn(t[..n], k) {
          var i :| 0 <= i < n && Holds(t[..n][i], k);
          assert Holds(t[i], k);
        }
        if HeldIn(t, k) && !Holds(t[n], k) {
          var i :| 0 <= i < |t| && Holds(t[i], k);
          assert Holds(t[..n][i], k);
        }
      }
      forall i | 0 <= i < |t| && InUse(t[i])
        ensures KeyOf(t[i].rec) in AsMap(t) && AsMap(t)[KeyOf(t[i].rec)] == t[i].rec
      {
        if i < n { assert t[..n][i] == t[i]; }
      }
    }
  }

  /** A map is the map of a table if it has its records. */
  lemma IsTheMap(t: seq<Slot>, m: map<Key, Rec>)
    requires Unique(t)
    requires forall k :: k in m ==> HeldIn(t, k)
    requires forall i :: 0 <= i < |t| && InUse(t[i]) ==> KeyOf(t[i].rec) in m && m[KeyOf(t[i].rec)] == t[i].rec
    ensures AsMap(t) == m
  {
    MapSays(t);
    forall k | k in AsMap(t)
      ensures k in m && m[k] == AsMap(t)[k]
    {
      var i :| 0 <= i < |t| && Holds(t[i], k);
    }
  }

  /** Slot `i` takes record `r`, no other slot holding its key. */
  lemma SetSlot(t: seq<Slot>, i: nat, s: Slot)
    requires Unique(t) && i < |t| && InUse(s) && (InUse(t[i]) ==> KeyOf(t[i].rec) == KeyOf(s.rec))
    requires forall j :: 0 <= j < |t| && j != i ==> !Holds(t[j], KeyOf(s.rec))
    ensures Unique(t[i := s]) && AsMap(t[i := s]) == AsMap(t)[KeyOf(s.rec) := s.rec]
  {
    var r := t[i := s];
    var m := AsMap(t)[KeyOf(s.rec) := s.rec];
    MapSays(t);
    forall k | k in m
      ensures HeldIn(r, k)
    {
      if k == KeyOf(s.rec) {
        assert Holds(r[i], k);
      } else {
        var j :| 0 <= j < |t| && Holds(t[j], k);
        assert Holds(r[j], k);
      }
    }
    forall j | 0 <= j < |r| && InUse(r[j])
      ensures KeyOf(r[j].rec) in m && m[KeyOf(r[j].rec)] == r[j].rec
    {
      if j != i { assert r[j] == t[j] && !Holds(t[j], KeyOf(s.rec)); }
    }
    IsTheMap(r, m);
  }

  lemma LastIsNew(t: seq<Slot>)
    requires Unique(t) && t != [] && InUse(t[|t| - 1])
    ensures !HeldIn(t[..|t| - 1], KeyOf(t[|t| - 1].rec))
  {
  }

  /** A table has as many keys as slots exactly when every slot is in use. */
  lemma {:induction false} FullSize(t: seq<Slot>)
    requires Unique(t)
    ensures |AsMap(t)| <= |t| && (|AsMap(t)| == |t| <==> forall i :: 0 <= i < |t| ==> InUse(t[i]))
  {
    if t != [] {
      var n := |t| - 1;
      FullSize(t[..n]);
      assert (forall i :: 0 <= i < |t| ==> InUse(t[i])) <==>
               InUse(t[n]) && (forall i :: 0 <= i < n ==> InUse(t[..n][i]));
      SizeGrows(t);
    }
  }

  lemma SizeGrows(t: seq<Slot>)
    requires Unique(t) && t != []
    ensures |AsMap(t)| == |AsMap(t[..|t| - 1])| + if InUse(t[|t| - 1]) then 1 else 0
  {
    var n := |t| - 1;
    if InUse(t[n]) {
      LastIsNew(t);
      MapSays(t[..n]);
      hide Unique, HeldIn;
      assert AsMap(t).Keys == AsMap(t[..n]).Keys + {KeyOf(t[n].rec)};
      SizeOf(AsMap(t));
      SizeOf(AsMap(t[..n]));
    }
  }

  lemma SizeOf(m: map<Key, Rec>)
    ensures |m| == |m.Keys|
  {
  }

  /** store_write replaces the record of its key or adds it, and refuses only when the map is as large as
      the table and has no such key; then nothing changes. */
  lemma PutRefinesMap(t: seq<Slot>, r: Rec)
    requires Unique(t)
    ensures var (u, st) := Put(t, r);
            && Unique(u) && |u| == |t|
            && (st == Done || st == Full)
            && (st == Full <==> KeyOf(r) !in AsMap(t) && |AsMap(t)| == |t|)
            && (st == Full ==> u == t)
            && (st == Done ==> AsMap(u) == AsMap(t)[KeyOf(r) := r])
  {
    var k := KeyOf(r);
    var i, f := FirstWith(t, k), FirstFree(t);
    MapSays(t);
    FullSize(t);
    if i < |t| {
      assert Holds(t[i], k);
      SetSlot(t, i, t[i].(rec := r));
    } else {
      assert k !in AsMap(t);
      if f < |t| {
        SetSlot(t, f, Slot(1, r));
      }
    }
  }

  /** store_delete removes exactly the records of the peer, and finds nothing exactly when there are none. */
  lemma PurgeRefinesMap(t: seq<Slot>, peer: Addr)
    requires Unique(t)
    ensures Unique(Purge(t, peer))
    ensures AsMap(Purge(t, peer)) == map k | k in AsMap(t) && k.peer != peer :: AsMap(t)[k]
    ensures AnyOf(t, peer) <==> exists k :: k in AsMap(t) && k.peer == peer
  {
    var r := Purge(t, peer);
    var m := map k | k in AsMap(t) && k.peer != peer :: AsMap(t)[k];
    MapSays(t);
    forall k | k in m
      ensures HeldIn(r, k)
    {
      var i :| 0 <= i < |t| && Holds(t[i], k);
      assert Holds(r[i], k);
    }
    IsTheMap(r, m);
    if AnyOf(t, peer) {
      var i :| 0 <= i < |t| && Of(t[i], peer);
      assert KeyOf(t[i].rec) in AsMap(t);
    }
    if k :| k in AsMap(t) && k.peer == peer {
      var i :| 0 <= i < |t| && Holds(t[i], k);
      assert Of(t[i], peer);
    }
  }

  // ---------------------------------------------------------------- reading

  lemma {:induction false} HitsGrow(t: seq<Slot>, k: Key, i: nat)
    requires i <= |t|
    ensures Hits(t[..i], k) <= Hits(t, k)
    decreases |t|
  {
    if i == |t| {
      assert t[..i] == t;
    } else {
      assert t[..|t| - 1][..i] == t[..i];
      HitsGrow(t[..|t| - 1], k, i);
    }
  }

  /** A slot asked for has this record. */
  ghost predicate WantedRec(t: seq<Slot>, k: Key, r: Rec) {
    exists i :: 0 <= i < |t| && Wanted(t[i], k) && t[i].rec == r
  }

  lemma WantedRecGrows(t: seq<Slot>, k: Key, r: Rec)
    requires t != []
    ensures WantedRec(t, k, r) <==>
              WantedRec(t[..|t| - 1], k, r) || (Wanted(t[|t| - 1], k) && t[|t| - 1].rec == r)
  {
    var u := t[..|t| - 1];
    if i :| 0 <= i < |u| && Wanted(u[i], k) && u[i].rec == r {
      assert Wanted(t[i], k);
    }
    if i :| 0 <= i < |t| && Wanted(t[i], k) && t[i].rec == r && i < |u| {
      assert Wanted(u[i], k);
    }
  }

  /** The records are those of the slots asked for: each is found, and none twice. */
  lemma {:induction false} HitsAre(t: seq<Slot>, k: Key)
    requires Unique(t)
    ensures forall r :: r in Hits(t, k) <==> WantedRec(t, k, r)
    ensures forall a, b :: 0 <= a < b < |Hits(t, k)| ==> KeyOf(Hits(t, k)[a]) != KeyOf(Hits(t, k)[b])
  {
    if t != [] {
      var n := |t| - 1;
      var h := Hits(t[..n], k);
      HitsAre(t[..n], k);
      forall r
        ensures r in Hits(t, k) <==> WantedRec(t, k, r)
      {
        WantedRecGrows(t, k, r);
      }
      forall a | 0 <= a < |h| && Wanted(t[n], k)
        ensures KeyOf(h[a]) != KeyOf(t[n].rec)
      {
        assert h[a] in h;
        var i :| 0 <= i < |t[..n]| && Wanted(t[..n][i], k) && t[..n][i].rec == h[a];
        assert t[..n][i] == t[i];
      }
    }
  }

  /** The key of a record is one a read asks for, BLE_ADDR_ANY standing for every peer and 0 for every
      handle. */
  predicate Matches(q: Key, k: Key) {
    (k.peer == Addr(0, [0, 0, 0, 0, 0, 0]) || q.peer == k.peer) && (k.handle == 0 || q.handle == k.handle)
  }

  /** Reading with index 0, 1, 2 and so on goes once through all records of the map whose keys match; with
      BLE_ADDR_ANY and handle 0 that is all records there are. */
  lemma ReadEnumerates(t: seq<Slot>, k: Key)
    requires Unique(t)
    ensures var h := Hits(t, k);
            && (forall a :: 0 <= a < |h| ==>
                  KeyOf(h[a]) in AsMap(t) && AsMap(t)[KeyOf(h[a])] == h[a] && Matches(KeyOf(h[a]), k))
            && (forall q :: q in AsMap(t) && Matches(q, k) ==> AsMap(t)[q] in h)
            && (forall a, b :: 0 <= a < b < |h| ==> KeyOf(h[a]) != KeyOf(h[b]))
  {
    var h := Hits(t, k);
    MapSays(t);
    HitsAre(t, k);
    forall a | 0 <= a < |h|
      ensures KeyOf(h[a]) in AsMap(t) && AsMap(t)[KeyOf(h[a])] == h[a] && Matches(KeyOf(h[a]), k)
    {
      assert h[a] in h;
    }
    forall q | q in AsMap(t) && Matches(q, k)
      ensures AsMap(t)[q] in h
    {
      var i :| 0 <= i < |t| && Holds(t[i], q);
      assert WantedRec(t, k, t[i].rec);
    }
  }

  /** No wildcard: the key names a peer, and a handle if the records have handles. */
  ghost predicate Exact(t: seq<Slot>, k: Key) {
    && k.peer != ANY
    && (k.handle != 0 || forall i :: 0 <= i < |t| && InUse(t[i]) ==> t[i].rec.handle == 0)
  }

  lemma ExactWants(t: seq<Slot>, k: Key, r: Rec)
    requires Unique(t) && Exact(t, k)
    ensures WantedRec(t, k, r) <==> k in AsMap(t) && AsMap(t)[k] == r
  {
    MapSays(t);
    hide AsMap, Unique;
    if k in AsMap(t) {
      var i :| 0 <= i < |t| && Holds(t[i], k);
      assert Wanted(t[i], k);
    }
  }

  /** Reading one key finds what the map has for it and nothing else, unless the key is a wildcard. */
  lemma ReadLooksUp(t: seq<Slot>, k: Key)
    requires Unique(t) && Exact(t, k)
    ensures Hits(t, k) == if k in AsMap(t) then [AsMap(t)[k]] else []
  {
    hide Hits, AsMap, Unique, WantedRec, Exact;
    var h := Hits(t, k);
    HitsAre(t, k);
    forall r
      ensures r in h <==> k in AsMap(t) && AsMap(t)[k] == r
    {
      ExactWants(t, k, r);
    }
    assert |h| >= 1 ==> h[0] in h;
    assert |h| >= 2 ==> h[1] in h && KeyOf(h[0]) != KeyOf(h[1]);
    assert k in AsMap(t) ==> AsMap(t)[k] in h;
  }

  // ---------------------------------------------------------------- two roles, one table

  /** The keys of our own and of the peer's security records are told apart by nothing: after one role's
      record has been written and then the other's, both accepted, a read for the first role still finds
      its record exactly when the two are for different peers or are the same record. */
  lemma SecondRoleReplacesFirst(t: seq<Slot>, ours: Rec, theirs: Rec)
    requires Unique(t) && ours.peer != ANY && ours.handle == theirs.handle == 0
    requires forall i :: 0 <= i < |t| && InUse(t[i]) ==> t[i].rec.handle == 0
    requires Put(t, ours).1 == Done && Put(Put(t, ours).0, theirs).1 == Done
    ensures var u := Put(Put(t, ours).0, theirs).0;
            Hits(u, KeyOf(ours)) == [ours] <==> ours.peer != theirs.peer || ours == theirs
  {
    var v := Put(t, ours).0;
    var u := Put(v, theirs).0;
    hide Hits, AsMap;
    PutRefinesMap(t, ours);
    PutRefinesMap(v, theirs);
    ReadLooksUp(u, KeyOf(ours));
  }
}
