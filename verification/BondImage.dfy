/** The image of the bond store as bytes, and the flash sector it is kept in. */
module BondImage {
  import opened BondCrc
  import opened BondTables

  /** How many slots the two tables have, and how long their records are beyond address and handle. */
  datatype Layout = Layout(nSec: nat, nCccd: nat, secBody: nat, cccdBody: nat)

  /** struct asp3_ble_store_image */
  datatype Image = Image(magic: bv32, version: bv32, nSec: bv32, nCccd: bv32,
                         sec: seq<Slot>, cccd: seq<Slot>, crc: bv32)

  /** ASP3_BLE_STORE_MAGIC, "BSS1" */
  const MAGIC: bv32 := 0x42535331

  /** ASP3_BLE_STORE_SECTOR_SIZE */
  const SECTOR: nat := 0x1000

  // ---------------------------------------------------------------- words

  function Byte0(w: bv32): bv8 { (w & 0xff) as bv8 }
  function Byte1(w: bv32): bv8 { ((w >> 8) & 0xff) as bv8 }
  function Byte2(w: bv32): bv8 { ((w >> 16) & 0xff) as bv8 }
  function Byte3(w: bv32): bv8 { (w >> 24) as bv8 }

  function Join(a: bv8, b: bv8, c: bv8, d: bv8): bv32 {
    (a as bv32) | ((b as bv32) << 8) | ((c as bv32) << 16) | ((d as bv32) << 24)
  }

  lemma JoinBytes(w: bv32)
    ensures Join(Byte0(w), Byte1(w), Byte2(w), Byte3(w)) == w
  {
  }

  lemma Byte0Join(a: bv8, b: bv8, c: bv8, d: bv8)
    ensures Byte0(Join(a, b, c, d)) == a
  {
  }

  lemma Byte1Join(a: bv8, b: bv8, c: bv8, d: bv8)
    ensures Byte1(Join(a, b, c, d)) == b
  {
  }

  lemma Byte2Join(a: bv8, b: bv8, c: bv8, d: bv8)
    ensures Byte2(Join(a, b, c, d)) == c
  {
  }

  lemma Byte3Join(a: bv8, b: bv8, c: bv8, d: bv8)
    ensures Byte3(Join(a, b, c, d)) == d
  {
  }

  /** A word, lowest byte first. */
  function Word(w: bv32): seq<bv8> {
    [Byte0(w), Byte1(w), Byte2(w), Byte3(w)]
  }

  function UnWord(b: seq<bv8>): bv32
    requires |b| == 4
  {
    Join(b[0], b[1], b[2], b[3])
  }

  lemma UnWordWord(w: bv32)
    ensures UnWord(Word(w)) == w
  {
    hide Byte0, Byte1, Byte2, Byte3, Join;
    JoinBytes(w);
  }

  lemma WordUnWord(b: seq<bv8>)
    requires |b| == 4
    ensures Word(UnWord(b)) == b
  {
    hide Byte0, Byte1, Byte2, Byte3, Join;
    Byte0Join(b[0], b[1], b[2], b[3]);
    Byte1Join(b[0], b[1], b[2], b[3]);
    Byte2Join(b[0], b[1], b[2], b[3]);
    Byte3Join(b[0], b[1], b[2], b[3]);
  }

  function Low(w: bv16): bv8 { (w & 0xff) as bv8 }
  function High(w: bv16): bv8 { (w >> 8) as bv8 }

  function Pair(a: bv8, b: bv8): bv16 {
    (a as bv16) | ((b as bv16) << 8)
  }

  lemma PairHalves(w: bv16)
    ensures Pair(Low(w), High(w)) == w
  {
  }

  lemma HalvesPair(a: bv8, b: bv8)
    ensures Low(Pair(a, b)) == a && High(Pair(a, b)) == b
  {
  }

  function Half(w: bv16): seq<bv8> {
    [Low(w), High(w)]
  }

  function UnHalf(b: seq<bv8>): bv16
    requires |b| == 2
  {
    Pair(b[0], b[1])
  }

  lemma UnHalfHalf(w: bv16)
    ensures UnHalf(Half(w)) == w
  {
    hide Low, High, Pair;
    PairHalves(w);
  }

  lemma HalfUnHalf(b: seq<bv8>)
    requires |b| == 2
    ensures Half(UnHalf(b)) == b
  {
    hide Low, High, Pair;
    HalvesPair(b[0], b[1]);
  }

  // ---------------------------------------------------------------- slots

  predicate SlotFits(s: Slot, handles: bool, body: nat) {
    |s.rec.peer.val| == 6 && |s.rec.body| == body && (!handles ==> s.rec.handle == 0)
  }

  function SlotSize(handles: bool, body: nat): nat {
    (if handles then 10 else 8) + body
  }

  function SlotBytes(s: Slot, handles: bool): seq<bv8> {
    [s.valid, s.rec.peer.kind] + s.rec.peer.val + (if handles then Half(s.rec.handle) else []) + s.rec.body
  }

  function ParseSlot(b: seq<bv8>, handles: bool): Slot
    requires |b| >= SlotSize(handles, 0)
  {
    var rest := b[8..];
    Slot(b[0], Rec(Addr(b[1], b[2..8]), if handles then UnHalf(rest[..2]) else 0, if handles then rest[2..] else rest))
  }

  lemma ParseSlotBytes(s: Slot, handles: bool, body: nat)
    requires SlotFits(s, handles, body)
    ensures |SlotBytes(s, handles)| == SlotSize(handles, body)
    ensures ParseSlot(SlotBytes(s, handles), handles) == s
  {
    hide Half, UnHalf;
    var b := SlotBytes(s, handles);
    UnHalfHalf(s.rec.handle);
    HalfSize(s.rec.handle);
    assert b[2..8] == s.rec.peer.val;
    if handles {
      assert b[8..][..2] == Half(s.rec.handle);
      assert b[8..][2..] == s.rec.body;
    } else {
      assert b[8..] == s.rec.body;
    }
  }

  lemma HalfSize(w: bv16)
    ensures |Half(w)| == 2
  {
  }

  lemma SlotBytesParse(b: seq<bv8>, handles: bool, body: nat)
    requires |b| == SlotSize(handles, body)
    ensures SlotFits(ParseSlot(b, handles), handles, body)
    ensures SlotBytes(ParseSlot(b, handles), handles) == b
  {
    hide Half, UnHalf;
    if handles {
      HalfUnHalf(b[8..][..2]);
      HalfSize(UnHalf(b[8..][..2]));
    }
  }

  // ---------------------------------------------------------------- tables

  predicate TableFits(t: seq<Slot>, handles: bool, n: nat, body: nat) {
    |t| == n && forall i :: 0 <= i < |t| ==> SlotFits(t[i], handles, body)
  }

  function TableSize(handles: bool, n: nat, body: nat): nat {
    if n == 0 then 0 else TableSize(handles, n - 1, body) + SlotSize(handles, body)
  }

  function TableBytes(t: seq<Slot>, handles: bool): seq<bv8> {
    if t == [] then [] else TableBytes(t[..|t| - 1], handles) + SlotBytes(t[|t| - 1], handles)
  }

  function ParseTable(b: seq<bv8>, handles: bool, n: nat, body: nat): (t: seq<Slot>)
    requires |b| == TableSize(handles, n, body)
    ensures |t| == n
    decreases n
  {
    if n == 0 then []
    else
      var k := TableSize(handles, n - 1, body);
      ParseTable(b[..k], handles, n - 1, body) + [ParseSlot(b[k..], handles)]
  }

  lemma {:induction false} ParseTableBytes(t: seq<Slot>, handles: bool, n: nat, body: nat)
    requires TableFits(t, handles, n, body)
    ensures |TableBytes(t, handles)| == TableSize(handles, n, body)
    ensures ParseTable(TableBytes(t, handles), handles, n, body) == t
    decreases n
  {
    hide SlotFits, SlotBytes, ParseSlot, SlotSize;
    if n > 0 {
      var b := TableBytes(t, handles);
      var k := TableSize(handles, n - 1, body);
      ParseTableBytes(t[..n - 1], handles, n - 1, body);
      ParseSlotBytes(t[n - 1], handles, body);
      assert b[..k] == TableBytes(t[..n - 1], handles) && b[k..] == SlotBytes(t[n - 1], handles);
    }
  }

  lemma {:induction false} TableBytesParse(b: seq<bv8>, handles: bool, n: nat, body: nat)
    requires |b| == TableSize(handles, n, body)
    ensures TableFits(ParseTable(b, handles, n, body), handles, n, body)
    ensures TableBytes(ParseTable(b, handles, n, body), handles) == b
    decreases n
  {
    hide SlotFits, SlotBytes, ParseSlot;
    if n > 0 {
      var k := TableSize(handles, n - 1, body);
      var t := ParseTable(b, handles, n, body);
      TableBytesParse(b[..k], handles, n - 1, body);
      SlotBytesParse(b[k..], handles, body);
      assert t[..n - 1] == ParseTable(b[..k], handles, n - 1, body);
      assert b == b[..k] + b[k..];
    }
  }

  // ---------------------------------------------------------------- the image

  predicate Fits(g: Image, y: Layout) {
    TableFits(g.sec, false, y.nSec, y.secBody) && TableFits(g.cccd, true, y.nCccd, y.cccdBody)
  }

  /** The bytes the checksum covers. */
  function Payload(g: Image): seq<bv8> {
    Word(g.magic) + Word(g.version) + Word(g.nSec) + Word(g.nCccd) + TableBytes(g.sec, false) + TableBytes(g.cccd, true)
  }

  function Bytes(g: Image): seq<bv8> {
    Payload(g) + Word(g.crc)
  }

  function PayloadSize(y: Layout): nat {
    16 + TableSize(false, y.nSec, y.secBody) + TableSize(true, y.nCccd, y.cccdBody)
  }

  function ImageSize(y: Layout): nat {
    PayloadSize(y) + 4
  }

  function Parse(b: seq<bv8>, y: Layout): Image
    requires |b| == ImageSize(y)
  {
    var k := 16 + TableSize(false, y.nSec, y.secBody);
    var n := PayloadSize(y);
    Image(UnWord(b[..4]), UnWord(b[4..8]), UnWord(b[8..12]), UnWord(b[12..16]),
          ParseTable(b[16..k], false, y.nSec, y.secBody), ParseTable(b[k..n], true, y.nCccd, y.cccdBody),
          UnWord(b[n..]))
  }

  lemma WordSize(w: bv32)
    ensures |Word(w)| == 4
  {
  }

  lemma ParseBytes(g: Image, y: Layout)
    requires Fits(g, y)
    ensures |Payload(g)| == PayloadSize(y) && |Bytes(g)| == ImageSize(y)
    ensures Parse(Bytes(g), y) == g
  {
    hide Word, UnWord, TableBytes, ParseTable, TableSize, TableFits;
    ParseTableBytes(g.sec, false, y.nSec, y.secBody);
    ParseTableBytes(g.cccd, true, y.nCccd, y.cccdBody);
    UnWordWord(g.magic); WordSize(g.magic);
    UnWordWord(g.version); WordSize(g.version);
    UnWordWord(g.nSec); WordSize(g.nSec);
    UnWordWord(g.nCccd); WordSize(g.nCccd);
    UnWordWord(g.crc); WordSize(g.crc);
    var b := Bytes(g);
    var k, n := 16 + TableSize(false, y.nSec, y.secBody), PayloadSize(y);
    assert b[..4] == Word(g.magic) && b[4..8] == Word(g.version);
    assert b[8..12] == Word(g.nSec) && b[12..16] == Word(g.nCccd);
    assert b[16..k] == TableBytes(g.sec, false);
    assert b[k..n] == TableBytes(g.cccd, true);
    assert b[n..] == Word(g.crc);
  }

  lemma {:induction false} TableSizeIs(handles: bool, n: nat, body: nat)
    ensures TableSize(handles, n, body) == n * ((if handles then 10 else 8) + body)
  {
    if n > 0 {
      var k := (if handles then 10 else 8) + body;
      TableSizeIs(handles, n - 1, body);
      assert n * k == (n - 1) * k + k;
    }
  }

  /** How an image lies in the flash: the magic number first, lowest byte first, then three words, the two
      tables slot by slot, and the checksum last. */
  lemma ImageLayout(g: Image, y: Layout)
    requires Fits(g, y)
    ensures |Bytes(g)| == 20 + y.nSec * (8 + y.secBody) + y.nCccd * (10 + y.cccdBody) == ImageSize(y)
    ensures g.magic == MAGIC ==> Bytes(g)[..4] == [0x31, 0x53, 0x53, 0x42]
    ensures g.version == 1 ==> Bytes(g)[4..8] == [1, 0, 0, 0]
    ensures Bytes(g)[|Bytes(g)| - 4..] == Word(g.crc)
    ensures y.nSec > 0 ==> Bytes(g)[16] == g.sec[0].valid && Bytes(g)[17] == g.sec[0].rec.peer.kind
  {
    MagicBytes();
    WordSize(g.magic);
    WordSize(g.version);
    WordSize(g.nSec);
    WordSize(g.nCccd);
    WordSize(g.crc);
    TableSizeIs(false, y.nSec, y.secBody);
    TableSizeIs(true, y.nCccd, y.cccdBody);
    hide Word, TableBytes, TableSize, SlotFits, Parse;
    ParseBytes(g, y);
    if y.nSec > 0 {
      TableStarts(g.sec);
    }
    var t, u := TableBytes(g.sec, false), TableBytes(g.cccd, true);
    PiecesLie(Word(g.magic), Word(g.version), Word(g.nSec), Word(g.nCccd), t, u, Word(g.crc));
  }

  lemma PiecesLie(a: seq<bv8>, b: seq<bv8>, c: seq<bv8>, d: seq<bv8>, t: seq<bv8>, u: seq<bv8>, e: seq<bv8>)
    requires |a| == |b| == |c| == |d| == |e| == 4
    ensures var s := a + b + c + d + t + u + e;
            && s[..4] == a && s[4..8] == b && s[|s| - 4..] == e
            && (|t| >= 2 ==> s[16] == t[0] && s[17] == t[1])
  {
  }

  lemma MagicBytes()
    ensures Word(0x42535331) == [0x31, 0x53, 0x53, 0x42] && Word(1) == [1, 0, 0, 0]
  {
  }

  lemma {:induction false} TableStarts(t: seq<Slot>)
    requires t != []
    ensures var b := TableBytes(t, false); |b| >= 2 && b[0] == t[0].valid && b[1] == t[0].rec.peer.kind
  {
    if |t| > 1 {
      TableStarts(t[..|t| - 1]);
    }
  }

  lemma BytesParse(b: seq<bv8>, y: Layout)
    requires |b| == ImageSize(y)
    ensures Fits(Parse(b, y), y)
    ensures Payload(Parse(b, y)) == b[..PayloadSize(y)] && Bytes(Parse(b, y)) == b
  {
    hide Word, UnWord, TableBytes, ParseTable, TableSize, TableFits;
    var k, n := 16 + TableSize(false, y.nSec, y.secBody), PayloadSize(y);
    TableBytesParse(b[16..k], false, y.nSec, y.secBody);
    TableBytesParse(b[k..n], true, y.nCccd, y.cccdBody);
    WordUnWord(b[..4]);
    WordUnWord(b[4..8]);
    WordUnWord(b[8..12]);
    WordUnWord(b[12..16]);
    WordUnWord(b[n..]);
    Pieces(b, k, n);
  }

  lemma Pieces(b: seq<bv8>, k: nat, n: nat)
    requires 16 <= k <= n <= |b|
    ensures b[..4] + b[4..8] + b[8..12] + b[12..16] + b[16..k] + b[k..n] == b[..n]
    ensures b[..n] + b[n..] == b
  {
    assert b[..4] + b[4..8] == b[..8];
    assert b[..8] + b[8..12] == b[..12];
    assert b[..12] + b[12..16] == b[..16];
    assert b[..16] + b[16..k] == b[..k];
    assert b[..k] + b[k..n] == b[..n];
  }

  // ---------------------------------------------------------------- flash

  /** Erasing the sector sets all its bits. */
  function Erase(f: seq<bv8>): (r: seq<bv8>)
    ensures |r| == |f|
  {
    seq(|f|, i requires 0 <= i < |f| => if i < SECTOR then 0xff else f[i])
  }

  /** Programming can only clear bits. */
  function Program(f: seq<bv8>, b: seq<bv8>): (r: seq<bv8>)
    requires |b| <= |f|
    ensures |r| == |f|
  {
    seq(|f|, i requires 0 <= i < |f| => if i < |b| then f[i] & b[i] else f[i])
  }

  lemma AllOnes(x: bv8)
    ensures 0xff & x == x
  {
  }

  /** What is read back after erase and program is what was to be written exactly when, beyond the one
      sector that is erased, the flash had all the ones needed.  An image that fits the sector is always
      read back. */
  lemma ReadBackExactly(f: seq<bv8>, b: seq<bv8>)
    requires |b| <= |f|
    ensures Program(Erase(f), b)[..|b|] == b <==> forall i :: SECTOR <= i < |b| ==> f[i] & b[i] == b[i]
    ensures |b| <= 4096 ==> Program(Erase(f), b)[..|b|] == b
  {
    var r := Program(Erase(f), b);
    forall i | 0 <= i < |b| && i < SECTOR
      ensures r[i] == b[i]
    {
      AllOnes(b[i]);
    }
    if r[..|b|] == b {
      forall i | SECTOR <= i < |b|
        ensures f[i] & b[i] == b[i]
      {
        assert r[..|b|][i] == b[i];
      }
    }
  }

  // ---------------------------------------------------------------- commit and load

  /** An empty store. */
  function Empty(y: Layout): Image {
    Image(MAGIC, 1, 0, 0,
          seq(y.nSec, _ => Slot(0, Rec(ANY, 0, seq(y.secBody, _ => 0)))),
          seq(y.nCccd, _ => Slot(0, Rec(ANY, 0, seq(y.cccdBody, _ => 0)))), 0)
  }

  /** The image is taken for valid. */
  predicate Accepted(g: Image) {
    g.magic == MAGIC && g.crc == Crc(Payload(g))
  }

  /** What store_load makes of a flash it can read. */
  function LoadFrom(f: seq<bv8>, y: Layout): Image
    requires |f| >= ImageSize(y)
  {
    var g := Parse(f[..ImageSize(y)], y);
    if Accepted(g) then g else Empty(y)
  }

  function Sealed(g: Image): Image {
    g.(crc := Crc(Payload(g)))
  }

  /** What a successful store_commit leaves in the flash. */
  function Stored(f: seq<bv8>, g: Image, y: Layout): (r: seq<bv8>)
    requires Fits(g, y) && |f| >= ImageSize(y)
    ensures |r| == |f|
  {
    SealedFits(g, y);
    Program(Erase(f), Bytes(Sealed(g)))
  }

  lemma SealedFits(g: Image, y: Layout)
    requires Fits(g, y)
    ensures Fits(Sealed(g), y) && |Bytes(Sealed(g))| == ImageSize(y)
  {
    hide Crc, Bytes, Payload, ImageSize;
    ParseBytes(Sealed(g), y);
  }

  /** After a successful commit a fresh load accepts the image and restores it as it was, in any flash,
      given that the image fits the sector. */
  lemma CommitThenLoad(f: seq<bv8>, g: Image, y: Layout)
    requires Fits(g, y) && g.magic == MAGIC && |f| >= ImageSize(y) && ImageSize(y) <= SECTOR
    ensures LoadFrom(Stored(f, g, y), y) == Sealed(g)
  {
    hide Crc, Bytes, Parse, ImageSize, Erase, Program;
    ParseBytes(Sealed(g), y);
    ReadBackExactly(f, Bytes(Sealed(g)));
    SealedAccepted(g);
  }

  lemma SealedAccepted(g: Image)
    requires g.magic == MAGIC
    ensures Accepted(Sealed(g))
  {
    hide Crc;
    assert Payload(Sealed(g)) == Payload(g);
  }

  /** The parts of an image whose byte `i` has gone bad. */
  lemma BadByte(good: Image, y: Layout, i: nat, v: bv8)
    requires Fits(good, y) && |Bytes(good)| == ImageSize(y) && i < ImageSize(y)
    ensures var n := PayloadSize(y);
            var h := Parse(Bytes(good)[i := v], y);
            && |Payload(good)| == n
            && Payload(h) == (if i < n then Payload(good)[i := v] else Payload(good))
            && Word(h.crc) == if i < n then Word(good.crc) else Word(good.crc)[i - n := v]
  {
    hide Parse, Payload, Word;
    var n := PayloadSize(y);
    var b := Bytes(good);
    var bad := b[i := v];
    ParseBytes(good, y);
    BytesParse(bad, y);
    var h := Parse(bad, y);
    WordSize(good.crc);
    WordSize(h.crc);
    assert Payload(good) == b[..n] && Word(good.crc) == b[n..];
    assert Payload(h) == bad[..n];
    assert Word(h.crc) == Bytes(h)[n..] == bad[n..];
  }

  /** Should any one byte of a stored image go bad, wherever it is, load starts with an empty store. */
  lemma OneBadByteIsNoticed(g: Image, y: Layout, f: seq<bv8>, i: nat, v: bv8)
    requires Fits(g, y) && |f| >= ImageSize(y) && f[..ImageSize(y)] == Bytes(Sealed(g))
    requires i < ImageSize(y) && v != f[i]
    ensures LoadFrom(f[i := v], y) == Empty(y)
  {
    hide Crc, Parse, Payload, Word, Bytes, ImageSize, PayloadSize, Fits;
    var n := PayloadSize(y);
    var good := Sealed(g);
    assert f[i := v][..ImageSize(y)] == Bytes(good)[i := v];
    SealedFits(g, y);
    SealedPayload(g);
    SizesOf(y);
    BadByte(good, y, i, v);
    var h := Parse(Bytes(good)[i := v], y);
    if i < n {
      BytesAt(good, y, i);
      OneByteIsDetected(Payload(good), i, v);
      UnWordWord(h.crc);
      UnWordWord(good.crc);
    } else {
      BytesAt(good, y, i);
      WordSize(good.crc);
      assert Word(good.crc)[i - n := v][i - n] != Word(good.crc)[i - n];
    }
  }

  lemma SizesOf(y: Layout)
    ensures ImageSize(y) == PayloadSize(y) + 4
  {
  }

  lemma BytesAt(g: Image, y: Layout, i: nat)
    requires |Payload(g)| == PayloadSize(y) && i < |Bytes(g)| == ImageSize(y)
    ensures var n := PayloadSize(y);
            if i < n then Bytes(g)[i] == Payload(g)[i] else i - n < |Word(g.crc)| && Bytes(g)[i] == Word(g.crc)[i - n]
  {
    hide Payload, Word;
  }

  lemma SealedPayload(g: Image)
    ensures Payload(Sealed(g)) == Payload(g)
  {
  }
}
