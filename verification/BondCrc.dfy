/** The checksum of the bond store: rotate left by one, exclusive-or the next byte. */
module BondCrc {

  function Rotate(c: bv32): bv32 {
    (c << 1) ^ (c >> 31)
  }

  function Absorb(c: bv32, b: bv8): bv32 {
    Rotate(c) ^ (b as bv32)
  }

  /** store_crc of the bytes of an image. */
  function Crc(s: seq<bv8>): bv32 {
    if s == [] then 0 else Absorb(Crc(s[..|s| - 1]), s[|s| - 1])
  }

  /** The loop of store_crc. */
  method StoreCrc(p: seq<bv8>) returns (c: bv32)
    ensures c == Crc(p)
  {
    c := 0;
    var i := 0;
    while i < |p|
      invariant i <= |p| && c == Crc(p[..i])
    {
      assert p[..i + 1][..i] == p[..i];
      c := (c << 1) ^ (c >> 31) ^ (p[i] as bv32);
      i := i + 1;
    }
    assert p[..|p|] == p;
  }

  // ---------------------------------------------------------------- words

  /** The difference of two words. */
  function Diff(a: bv32, b: bv32): bv32 {
    a ^ b
  }

  function Turn(c: bv32, n: nat): bv32 {
    if n == 0 then c else Rotate(Turn(c, n - 1))
  }

  function Unrotate(c: bv32): bv32 {
    (c >> 1) ^ (c << 31)
  }

  lemma UnrotateRotates(a: bv32)
    ensures Unrotate(Rotate(a)) == a
  {
  }

  lemma RotateIsOneToOne(a: bv32, b: bv32)
    ensures Rotate(a) == Rotate(b) <==> a == b
  {
    hide Rotate, Unrotate;
    UnrotateRotates(a);
    UnrotateRotates(b);
  }

  lemma DiffIsZero(a: bv32, b: bv32)
    ensures Diff(a, b) == 0 <==> a == b
  {
    hide Diff;
    DiffCancels(a, b);
    DiffOfNothing(b);
  }

  lemma DiffOfNothing(b: bv32)
    ensures Diff(0, b) == b && Diff(b, b) == 0
  {
  }

  lemma DiffAbsorbSame(a: bv32, b: bv32, x: bv8)
    ensures Diff(Absorb(a, x), Absorb(b, x)) == Rotate(Diff(a, b))
  {
  }

  lemma DiffAbsorbOther(c: bv32, x: bv8, y: bv8)
    ensures Diff(Absorb(c, x), Absorb(c, y)) == (x ^ y) as bv32
  {
  }

  lemma DiffAbsorbs(a: bv32, b: bv32, x: bv8, y: bv8)
    ensures Absorb(Diff(a, b), x ^ y) == Diff(Absorb(a, x), Absorb(b, y))
  {
  }

  lemma DiffChain(a: bv32, b: bv32, c: bv32)
    ensures a == c <==> Diff(a, b) == Diff(b, c)
  {
    hide Diff;
    DiffCancels(a, b);
    DiffCancels(c, b);
  }

  lemma DiffCancels(a: bv32, b: bv32)
    ensures Diff(Diff(a, b), b) == a && Diff(a, b) == Diff(b, a)
  {
  }

  lemma NarrowIsZero(x: bv8, y: bv8)
    ensures (x ^ y) as bv32 == 0 <==> x == y
  {
  }

  lemma {:induction false} TurnIsOneToOne(a: bv32, b: bv32, n: nat)
    ensures Turn(a, n) == Turn(b, n) <==> a == b
  {
    hide Rotate;
    if n > 0 {
      TurnIsOneToOne(a, b, n - 1);
      RotateIsOneToOne(Turn(a, n - 1), Turn(b, n - 1));
    }
  }

  lemma {:induction false} TurnZero(n: nat)
    ensures Turn(0, n) == 0
  {
    if n > 0 {
      TurnZero(n - 1);
    }
  }

  lemma {:induction false} TurnAdds(c: bv32, m: nat, n: nat)
    ensures Turn(Turn(c, m), n) == Turn(c, m + n)
  {
    hide Rotate;
    if n > 0 {
      TurnAdds(c, m, n - 1);
    }
  }

  /** Eight turns at once. */
  function Roll(x: bv32): bv32 {
    (x << 8) ^ (x >> 24)
  }

  lemma EightTurns(x: bv32)
    ensures Turn(x, 8) == Roll(x)
  {
    assert Turn(x, 1) == Rotate(x);
    assert Turn(x, 2) == Rotate(Rotate(x));
    assert Turn(x, 4) == Rotate(Rotate(Turn(x, 2)));
    assert Turn(x, 6) == Rotate(Rotate(Turn(x, 4)));
  }

  lemma TwoRolls(x: bv32)
    ensures Roll(Roll(x)) == (x << 16) ^ (x >> 16)
  {
  }

  lemma FourRolls(x: bv32)
    ensures Roll(Roll(Roll(Roll(x)))) == x
  {
    var y := Roll(Roll(x));
    TwoRolls(x);
    TwoRolls(y);
    hide Roll;
    assert (y << 16) ^ (y >> 16) == x;
  }

  lemma FullTurn(c: bv32)
    ensures Turn(c, 32) == c
  {
    hide Turn, Roll;
    TurnAdds(c, 8, 8);
    TurnAdds(c, 16, 8);
    TurnAdds(c, 24, 8);
    EightTurns(c);
    EightTurns(Turn(c, 8));
    EightTurns(Turn(c, 16));
    EightTurns(Turn(c, 24));
    FourRolls(c);
  }

  // ---------------------------------------------------------------- what the checksum tells apart

  /** The checksum in bits: a byte moves one place to the left for each that follows it. */
  lemma CrcOfFewBytes(a: bv8, b: bv8)
    ensures Crc([]) == 0 && Crc([a]) == a as bv32 && Crc([a, b]) == ((a as bv32) << 1) ^ (b as bv32)
  {
    hide Absorb;
    assert [a, b][..1] == [a] && [a][..0] == [];
    AbsorbFirst(a);
    AbsorbSecond(a, b);
  }

  lemma AbsorbFirst(a: bv8)
    ensures Absorb(0, a) == a as bv32
  {
  }

  lemma AbsorbSecond(a: bv8, b: bv8)
    ensures Absorb(a as bv32, b) == ((a as bv32) << 1) ^ (b as bv32)
  {
    assert (a as bv32) >> 31 == 0;
  }

  lemma RotateComesBack()
    ensures Rotate(0x8000_0000) == 1 && Rotate(0x4000_0001) == 0x8000_0002
  {
  }

  /** Byte by byte exclusive or. */
  function Xor(s: seq<bv8>, t: seq<bv8>): seq<bv8>
    requires |s| == |t|
  {
    seq(|s|, i requires 0 <= i < |s| => s[i] ^ t[i])
  }

  /** The checksum is linear: that of a difference is the difference of the checksums. */
  lemma {:induction false} CrcIsLinear(s: seq<bv8>, t: seq<bv8>)
    requires |s| == |t|
    ensures Crc(Xor(s, t)) == Diff(Crc(s), Crc(t))
  {
    if s != [] {
      var n := |s| - 1;
      CrcIsLinear(s[..n], t[..n]);
      assert Xor(s, t)[..n] == Xor(s[..n], t[..n]);
      hide Absorb, Diff;
      DiffAbsorbs(Crc(s[..n]), Crc(t[..n]), s[n], t[n]);
    }
  }

  /** Two images of one length have the same checksum exactly if their difference has checksum 0. */
  lemma SameCrcExactly(s: seq<bv8>, t: seq<bv8>)
    requires |s| == |t|
    ensures Crc(s) == Crc(t) <==> Crc(Xor(s, t)) == 0
  {
    CrcIsLinear(s, t);
    hide Crc, Xor, Diff;
    DiffIsZero(Crc(s), Crc(t));
  }

  /** What comes after a difference only turns it. */
  lemma {:induction false} TailTurns(s: seq<bv8>, t: seq<bv8>, i: nat)
    requires i <= |s| == |t| && s[i..] == t[i..]
    ensures Diff(Crc(s), Crc(t)) == Turn(Diff(Crc(s[..i]), Crc(t[..i])), |s| - i)
    decreases |s|
  {
    hide Diff, Absorb, Rotate;
    if i == |s| {
      assert s[..i] == s && t[..i] == t;
    } else {
      var n := |s| - 1;
      assert s[n] == s[i..][n - i] == t[i..][n - i] == t[n];
      assert s[..n][i..] == s[i..][..n - i] && t[..n][i..] == t[i..][..n - i];
      assert s[..n][..i] == s[..i] && t[..n][..i] == t[..i];
      TailTurns(s[..n], t[..n], i);
      DiffAbsorbSame(Crc(s[..n]), Crc(t[..n]), s[n]);
    }
  }

  /** The difference that changing byte `i` makes to the checksum. */
  lemma OneByteDifference(s: seq<bv8>, i: nat, v: bv8)
    requires i < |s|
    ensures Diff(Crc(s), Crc(s[i := v])) == Turn((s[i] ^ v) as bv32, |s| - i - 1)
  {
    hide Diff, Absorb, Turn;
    var t := s[i := v];
    TailTurns(s, t, i + 1);
    assert s[..i + 1][..i] == s[..i] == t[..i] == t[..i + 1][..i];
    DiffAbsorbOther(Crc(s[..i]), s[i], v);
  }

  /** Every change of a single byte, in an image of any length, changes the checksum. */
  lemma OneByteIsDetected(s: seq<bv8>, i: nat, v: bv8)
    requires i < |s|
    ensures Crc(s[i := v]) == Crc(s) <==> v == s[i]
  {
    hide Crc, Diff, Turn;
    OneByteDifference(s, i, v);
    DiffIsZero(Crc(s), Crc(s[i := v]));
    TurnZero(|s| - i - 1);
    TurnIsOneToOne((s[i] ^ v) as bv32, 0, |s| - i - 1);
    NarrowIsZero(s[i], v);
  }

  /** Two bytes changed, `j - i` apart, go unnoticed exactly when the first change, turned by their
      distance, is the second change. */
  lemma TwoBytesEscapeExactly(s: seq<bv8>, i: nat, v: bv8, j: nat, w: bv8)
    requires i < j < |s|
    ensures Crc(s[i := v][j := w]) == Crc(s) <==> Turn((s[i] ^ v) as bv32, j - i) == (s[j] ^ w) as bv32
  {
    hide Crc, Turn, Diff;
    var t := s[i := v];
    OneByteDifference(s, i, v);
    OneByteDifference(t, j, w);
    var d, e := (s[i] ^ v) as bv32, (s[j] ^ w) as bv32;
    TurnAdds(d, j - i, |s| - j - 1);
    TurnIsOneToOne(Turn(d, j - i), e, |s| - j - 1);
    DiffChain(Crc(s), Crc(t), Crc(t[j := w]));
  }

  lemma FlipTwice(x: bv8, flip: bv8)
    ensures x ^ (x ^ flip) == flip
  {
  }

  /** So the same bits flipped in two bytes 32 places apart are never noticed. */
  lemma SameFlipThirtyTwoApartEscapes(s: seq<bv8>, i: nat, flip: bv8)
    requires i + 32 < |s|
    ensures Crc(s[i := s[i] ^ flip][i + 32 := s[i + 32] ^ flip]) == Crc(s)
  {
    hide Crc, Turn;
    TwoBytesEscapeExactly(s, i, s[i] ^ flip, i + 32, s[i + 32] ^ flip);
    FlipTwice(s[i], flip);
    FlipTwice(s[i + 32], flip);
    FullTurn(flip as bv32);
  }
}
