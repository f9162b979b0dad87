/** The bond store in place: two arrays of slots, changed one slot at a time, and the flash behind them. */
module BondStore {
  import opened BondCrc
  import opened BondTables
  import opened BondImage
  import opened BondCalls

  lemma FullKeeps(t: seq<Slot>, r: Rec)
    ensures |Put(t, r).0| == |t| && (Put(t, r).1 == Full ==> Put(t, r).0 == t)
    ensures Put(t, r).1 == Full || Put(t, r).1 == Done
  {
  }

  class FlashStore {
    const y: Layout
    const sec: array<Slot>
    const cccd: array<Slot>
    var magic: bv32
    var version: bv32
    var nSec: bv32
    var nCccd: bv32
    var crc: bv32
    var loaded: bool
    var configured: bool
    var flash: seq<bv8>

    ghost function Abs(): Store
      reads this, sec, cccd
    {
      Store(Image(magic, version, nSec, nCccd, sec[..], cccd[..], crc), loaded, configured, flash)
    }

    ghost predicate Valid()
      reads this, sec, cccd
    {
      sec != cccd && sec.Length == y.nSec && cccd.Length == y.nCccd && Shaped(Abs(), y)
    }

    /** .bss after power-up, in front of this flash. */
    constructor (y: Layout, flash: seq<bv8>)
      requires |flash| >= ImageSize(y)
      ensures Valid() && fresh(this) && fresh(sec) && fresh(cccd) && this.y == y
      ensures Abs() == Store(Empty(y).(magic := 0, version := 0), false, false, flash)
    {
      this.y := y;
      var s := new Slot[y.nSec](_ => Slot(0, Rec(ANY, 0, seq(y.secBody, _ => 0))));
      var c := new Slot[y.nCccd](_ => Slot(0, Rec(ANY, 0, seq(y.cccdBody, _ => 0))));
      sec, cccd := s, c;
      magic, version, nSec, nCccd, crc := 0, 0, 0, 0, 0;
      loaded, configured, this.flash := false, false, flash;
      new;
      EmptyFits(y);
      assert sec[..] == Empty(y).sec && cccd[..] == Empty(y).cccd;
    }

    /** Read over the whole of store_image. */
    method Overwrite(g: Image)
      requires Valid() && Fits(g, y)
      modifies this`magic, this`version, this`nSec, this`nCccd, this`crc, sec, cccd
      ensures Valid() && Abs() == old(Abs()).(img := g)
    {
      magic, version, nSec, nCccd, crc := g.magic, g.version, g.nSec, g.nCccd, g.crc;
      forall i | 0 <= i < sec.Length { sec[i] := g.sec[i]; }
      forall i | 0 <= i < cccd.Length { cccd[i] := g.cccd[i]; }
      assert sec[..] == g.sec && cccd[..] == g.cccd;
    }

    /** store_flash_config */
    method Configure(ok: bool) returns (rc: int)
      modifies this`configured
      ensures configured == (old(configured) || ok) && (rc == 0 <==> configured)
    {
      if configured {
        return 0;
      }
      if !ok {
        return 1;
      }
      configured := true;
      return 0;
    }

    /** store_load */
    method Load(k: Luck)
      requires Valid()
      modifies this, sec, cccd
      ensures Valid() && loaded && Abs() == LoadCall(old(Abs()), y, k)
    {
      if loaded {
        return;
      }
      loaded := true;
      EmptyFits(y);
      LoadedFits(flash, y);
      hide Fits, Empty, Crc;
      var rc := Configure(k.config);
      if rc != 0 || !k.read {
        Overwrite(Empty(y));
        return;
      }
      var g := Parse(flash[..ImageSize(y)], y);
      BytesParse(flash[..ImageSize(y)], y);
      Overwrite(g);
      var c := StoreCrc(Payload(g));
      if magic != MAGIC || crc != c {
        Overwrite(Empty(y));
      }
    }

    /** store_commit */
    method Commit(k: Luck) returns (st: Status)
      requires Valid() && (|k.left| == |flash| || (k.erase && k.write))
      modifies this
      ensures Valid() && (Abs(), st) == CommitCall(old(Abs()), y, k)
    {
      ghost var g := Abs().img;
      SealedFits(g, y);
      hide Fits, Crc, Payload, Bytes, Erase, Program, ImageSize;
      crc := StoreCrc(Payload(Image(magic, version, nSec, nCccd, sec[..], cccd[..], crc)));
      var rc := Configure(k.config);
      if rc != 0 {
        return Failed;
      }
      if !k.erase {
        flash := k.left;
        return Failed;
      }
      var erased := Erase(flash);
      if !k.write {
        flash := k.left;
        return Failed;
      }
      flash := Program(erased, Bytes(Image(magic, version, nSec, nCccd, sec[..], cccd[..], crc)));
      return Done;
    }

    method TableArray(o: Obj) returns (t: array<Slot>)
      requires Valid()
      ensures t == if o.Cccd? then cccd else sec
    {
      if o.Cccd? { t := cccd; } else { t := sec; }
    }

    /** The loop of store_read. */
    method Nth(t: array<Slot>, key: Key, idx: nat) returns (r: Found)
      ensures var h := Hits(t[..], key); r == if idx < |h| then Found(h[idx]) else NotFound(NoEntry)
    {
      var skipped := 0;
      var i := 0;
      while i < t.Length
        invariant i <= t.Length && skipped == |Hits(t[..i], key)| <= idx
      {
        HitsGrow(t[..], key, i + 1);
        assert t[..][..i + 1] == t[..i + 1] && t[..i + 1][..i] == t[..i];
        if t[i].valid != 0 && (key.peer == ANY || t[i].rec.peer == key.peer)
           && (key.handle == 0 || t[i].rec.handle == key.handle) {
          if skipped < idx {
            skipped := skipped + 1;
          } else {
            return Found(t[i].rec);
          }
        }
        i := i + 1;
      }
      assert t[..t.Length] == t[..];
      return NotFound(NoEntry);
    }

    /** store_read */
    method Read(o: Obj, key: Key, idx: nat, k: Luck) returns (r: Found)
      requires Valid()
      modifies this, sec, cccd
      ensures Valid() && (Abs(), r) == ReadCall(old(Abs()), y, o, key, idx, k)
    {
      Load(k);
      if o.Unknown? {
        return NotFound(NotSupported);
      }
      hide Fits, LoadCall, ImageSize, Hits;
      var t := TableArray(o);
      r := Nth(t, key, idx);
    }

    /** The search of store_write: the slot of the key, else the first free slot, else nothing. */
    method Locate(t: array<Slot>, key: Key) returns (i: nat, found: bool)
      ensures found == (FirstWith(t[..], key) < t.Length)
      ensures i == if found then FirstWith(t[..], key) else FirstFree(t[..])
    {
      i, found := 0, false;
      var free := -1;
      while i < t.Length
        invariant i <= t.Length
        invariant forall j :: 0 <= j < i ==> !Holds(t[j], key)
        invariant -1 <= free < i
        invariant free == -1 ==> forall j :: 0 <= j < i ==> InUse(t[j])
        invariant free != -1 ==> !InUse(t[free]) && forall j :: 0 <= j < free ==> InUse(t[j])
      {
        if t[i].valid == 0 {
          if free < 0 {
            free := i;
          }
        } else if KeyOf(t[i].rec) == key {
          found := true;
          return;
        }
        i := i + 1;
      }
      if free >= 0 {
        i := free;
      }
    }

    /** The update of store_write. */
    method PutInto(t: array<Slot>, r: Rec) returns (st: Status)
      modifies t
      ensures (t[..], st) == Put(old(t[..]), r)
    {
      var i, found := Locate(t, KeyOf(r));
      ghost var was := t[..];
      if found {
        t[i] := t[i].(rec := r);
        assert t[..] == was[i := was[i].(rec := r)];
      } else if i == t.Length {
        return Full;
      } else {
        t[i] := t[i].(valid := 1);
        t[i] := t[i].(rec := r);
        assert t[..] == was[i := Slot(1, r)];
      }
      st := Done;
    }

    /** store_write */
    method Write(o: Obj, r: Rec, k: Luck) returns (st: Status)
      requires Valid() && RecFits(o, r, y) && (|k.left| == |flash| || (k.erase && k.write))
      modifies this, sec, cccd
      ensures Valid() && (Abs(), st) == WriteCall(old(Abs()), y, o, r, k)
    {
      LoadIsShaped(Abs(), y, k);
      Load(k);
      ghost var u := Abs();
      if o.Unknown? {
        return NotSupported;
      }
      var t := TableArray(o);
      PutFits(u.img, y, o, r);
      hide Fits, LoadCall, CommitCall, ImageSize, SlotFits, Put;
      st := PutInto(t, r);
      FullKeeps(TableOf(u.img, o), r);
      assert Abs() == u.(img := WithTable(u.img, o, t[..]));
      if st == Full {
        return;
      }
      st := Commit(k);
    }

    /** store_delete */
    method Delete(o: Obj, peer: Addr, k: Luck) returns (st: Status)
      requires Valid() && (|k.left| == |flash| || (k.erase && k.write))
      modifies this, sec, cccd
      ensures Valid() && (Abs(), st) == DeleteCall(old(Abs()), y, o, peer, k)
    {
      LoadIsShaped(Abs(), y, k);
      Load(k);
      ghost var u := Abs();
      if o.Unknown? {
        return NotSupported;
      }
      var t := TableArray(o);
      PurgeFits(u.img, y, o, peer);
      hide Fits, LoadCall, CommitCall, ImageSize, SlotFits;
      var hit := Sweep(t, peer);
      if !hit {
        assert Abs() == u;
        return NoEntry;
      }
      assert Abs() == u.(img := WithTable(u.img, o, t[..]));
      st := Commit(k);
    }

    /** The loop of store_delete. */
    method Sweep(t: array<Slot>, peer: Addr) returns (hit: bool)
      modifies t
      ensures t[..] == Purge(old(t[..]), peer) && hit == AnyOf(old(t[..]), peer)
      ensures !hit ==> t[..] == old(t[..])
    {
      hit := false;
      ghost var was := t[..];
      var i := 0;
      while i < t.Length
        invariant i <= t.Length
        invariant forall j :: 0 <= j < t.Length ==> t[j] == if j < i then Purge(was, peer)[j] else was[j]
        invariant hit <==> exists j :: 0 <= j < i && Of(was[j], peer)
        invariant !hit ==> forall j :: 0 <= j < t.Length ==> t[j] == was[j]
      {
        if t[i].valid != 0 && t[i].rec.peer == peer {
          t[i] := t[i].(valid := 0);
          t[i] := t[i].(rec := Rec(ANY, 0, seq(|t[i].rec.body|, _ => 0)));
          hit := true;
          assert Of(was[i], peer);
        }
        i := i + 1;
      }
    }
  }
}
