/** Keys as byte strings: their order, their bits, and the masked comparison of their first bits. */
module KeyBits {

  type Byte = bv8
  type Bytes = seq<Byte>

  // ---------------------------------------------------------------------------------------------
  // Bytes and bits

  /** A byte as a number. */
  function Val(b: Byte): (v: nat)
    ensures v < 256
  {
    b as int
  }

  /** Different bytes are different numbers. */
  lemma SameByte(x: Byte, y: Byte)
    ensures x == y <==> Val(x) == Val(y)
  {
  }

  /** Weight of the lowest of the top `n` bits. */
  function Unit(n: nat): nat
    requires n <= 8
  {
    if n == 0 then 256 else if n == 1 then 128 else if n == 2 then 64 else if n == 3 then 32 else if n == 4 then 16
    else if n == 5 then 8 else if n == 6 then 4 else if n == 7 then 2 else 1
  }

  /** The top `n` bits of a number below 256, as a number, and its single bits. */
  function TopOf(v: nat, n: nat): nat
    requires n <= 8
  {
    v / Unit(n)
  }

  predicate BitIn(v: nat, i: nat)
    requires i < 8
  {
    TopOf(v, i + 1) % 2 == 1
  }

  lemma TopStep(v: nat, n: nat)
    requires 0 < n <= 8
    ensures TopOf(v, n) == 2 * TopOf(v, n - 1) + if BitIn(v, n - 1) then 1 else 0
  {
  }

  predicate SameBits(v: nat, w: nat, n: nat)
    requires n <= 8
  {
    forall i :: 0 <= i < n ==> BitIn(v, i) == BitIn(w, i)
  }

  /** Equal top bits as numbers are equal bit by bit. */
  lemma {:induction false} TopComparesBits(v: nat, w: nat, n: nat)
    requires n <= 8 && v < 256 && w < 256
    ensures TopOf(v, n) == TopOf(w, n) <==> SameBits(v, w, n)
  {
    if n > 0 {
      TopComparesBits(v, w, n - 1);
      TopStep(v, n);
      TopStep(w, n);
      assert SameBits(v, w, n) <==> SameBits(v, w, n - 1) && BitIn(v, n - 1) == BitIn(w, n - 1);
    }
  }

  lemma TopMonotone(v: nat, w: nat, n: nat)
    requires n <= 8 && v <= w
    ensures TopOf(v, n) <= TopOf(w, n)
  {
  }

  function Top(b: Byte, n: nat): nat
    requires n <= 8
  {
    TopOf(Val(b), n)
  }

  predicate BitOf(b: Byte, i: nat)
    requires i < 8
  {
    BitIn(Val(b), i)
  }

  lemma WholeByte(x: Byte, y: Byte)
    ensures Top(x, 8) == Top(y, 8) <==> x == y
  {
    SameByte(x, y);
  }

  // ---------------------------------------------------------------------------------------------
  // Masks

  /** Bytes touched by the fixed bits. */
  function FixedBytes(fixedbits: nat): nat {
    (fixedbits + 7) / 8
  }

  /** Fixed bits in the last of those bytes. */
  function LastBits(fixedbits: nat): (n: nat)
    ensures 1 <= n <= 8
  {
    if fixedbits % 8 == 0 then 8 else fixedbits % 8
  }

  /** `Bytesmask`. */
  function Bytesmask(fixedbits: nat): (nat, bv8) {
    (FixedBytes(fixedbits), Mask(fixedbits % 8))
  }

  function Mask(shiftbits: nat): bv8
    requires shiftbits < 8
  {
    if shiftbits != 0 then 0xff << (8 - shiftbits) else 0xff
  }

  predicate EqualMasked(a: Byte, b: Byte, mask: bv8) {
    a & mask == b & mask
  }

  /** The masks, spelled out. */
  predicate IsMask(s: nat, mask: bv8) {
    || (s == 0 && mask == 0xff) || (s == 1 && mask == 0x80) || (s == 2 && mask == 0xc0) || (s == 3 && mask == 0xe0)
    || (s == 4 && mask == 0xf0) || (s == 5 && mask == 0xf8) || (s == 6 && mask == 0xfc) || (s == 7 && mask == 0xfe)
  }

  lemma Masks(s: nat)
    requires s < 8
    ensures IsMask(s, Mask(s))
  {
  }

  /** Comparing bytes under `mask` is comparing their top bits. */
  predicate KeepsTop(x: Byte, y: Byte, s: nat, mask: bv8) {
    EqualMasked(x, y, mask) <==> Top(x, LastBits(s)) == Top(y, LastBits(s))
  }

  lemma Shift1(x: Byte)
    ensures Val(x >> 1) == Val(x) / 2
  {
  }

  lemma Masked7(x: Byte, y: Byte, s: nat, mask: bv8)
    requires s == 7 && IsMask(s, mask)
    ensures KeepsTop(x, y, s, mask)
  {
    Shift1(x);
    Shift1(y);
    SameByte(x >> 1, y >> 1);
    assert x & 0xfe == y & 0xfe <==> x >> 1 == y >> 1;
  }

  lemma Shift2(x: Byte)
    ensures Val(x >> 2) == Val(x) / 4
  {
  }

  lemma Masked6(x: Byte, y: Byte, s: nat, mask: bv8)
    requires s == 6 && IsMask(s, mask)
    ensures KeepsTop(x, y, s, mask)
  {
    Shift2(x);
    Shift2(y);
    SameByte(x >> 2, y >> 2);
    assert x & 0xfc == y & 0xfc <==> x >> 2 == y >> 2;
  }

  lemma Shift3(x: Byte)
    ensures Val(x >> 3) == Val(x) / 8
  {
  }

  lemma Masked5(x: Byte, y: Byte, s: nat, mask: bv8)
    requires s == 5 && IsMask(s, mask)
    ensures KeepsTop(x, y, s, mask)
  {
    Shift3(x);
    Shift3(y);
    SameByte(x >> 3, y >> 3);
    assert x & 0xf8 == y & 0xf8 <==> x >> 3 == y >> 3;
  }

  lemma Shift4(x: Byte)
    ensures Val(x >> 4) == Val(x) / 16
  {
  }

  lemma Masked4(x: Byte, y: Byte, s: nat, mask: bv8)
    requires s == 4 && IsMask(s, mask)
    ensures KeepsTop(x, y, s, mask)
  {
    Shift4(x);
    Shift4(y);
    SameByte(x >> 4, y >> 4);
    assert x & 0xf0 == y & 0xf0 <==> x >> 4 == y >> 4;
  }

  lemma Shift5(x: Byte)
    ensures Val(x >> 5) == Val(x) / 32
  {
  }

  lemma Masked3(x: Byte, y: Byte, s: nat, mask: bv8)
    requires s == 3 && IsMask(s, mask)
    ensures KeepsTop(x, y, s, mask)
  {
    Shift5(x);
    Shift5(y);
    SameByte(x >> 5, y >> 5);
    assert x & 0xe0 == y & 0xe0 <==> x >> 5 == y >> 5;
  }

  lemma Shift6(x: Byte)
    ensures Val(x >> 6) == Val(x) / 64
  {
  }

  lemma Masked2(x: Byte, y: Byte, s: nat, mask: bv8)
    requires s == 2 && IsMask(s, mask)
    ensures KeepsTop(x, y, s, mask)
  {
    Shift6(x);
    Shift6(y);
    SameByte(x >> 6, y >> 6);
    assert x & 0xc0 == y & 0xc0 <==> x >> 6 == y >> 6;
  }

  lemma Shift7(x: Byte)
    ensures Val(x >> 7) == Val(x) / 128
  {
  }

  lemma Masked1(x: Byte, y: Byte, s: nat, mask: bv8)
    requires s == 1 && IsMask(s, mask)
    ensures KeepsTop(x, y, s, mask)
  {
    Shift7(x);
    Shift7(y);
    SameByte(x >> 7, y >> 7);
    assert x & 0x80 == y & 0x80 <==> x >> 7 == y >> 7;
  }

  lemma Masked0(x: Byte, y: Byte)
    ensures KeepsTop(x, y, 0, 0xff)
  {
    WholeByte(x, y);
    FullMask(x);
    FullMask(y);
  }

  lemma FullMask(x: Byte)
    ensures x & 0xff == x
  {
  }

  lemma EveryMaskKeepsTop(x: Byte, y: Byte, s: nat, mask: bv8)
    requires s < 8 && IsMask(s, mask)
    ensures KeepsTop(x, y, s, mask)
  {
    match s
    case 0 => Masked0(x, y);
    case 1 => Masked1(x, y, s, mask);
    case 2 => Masked2(x, y, s, mask);
    case 3 => Masked3(x, y, s, mask);
    case 4 => Masked4(x, y, s, mask);
    case 5 => Masked5(x, y, s, mask);
    case 6 => Masked6(x, y, s, mask);
    case _ => Masked7(x, y, s, mask);
  }

  /** Under the mask of `Bytesmask`, two bytes are equal exactly when their fixed bits are. */
  lemma MaskComparesTop(x: Byte, y: Byte, fixedbits: nat)
    ensures KeepsTop(x, y, fixedbits, Bytesmask(fixedbits).1)
  {
    var s := fixedbits % 8;
    assert LastBits(s) == LastBits(fixedbits);
    Masks(s);
    EveryMaskKeepsTop(x, y, s, Mask(s));
  }

  // ---------------------------------------------------------------------------------------------
  // Keys

  /** Lexicographic order. */
  predicate LessEq(a: Bytes, b: Bytes) {
    a == [] || (b != [] && (Val(a[0]) < Val(b[0]) || (a[0] == b[0] && LessEq(a[1..], b[1..]))))
  }

  /** `a` is a prefix of `b`, or has the smaller byte at the first place where they differ. */
  ghost predicate NotAfter(a: Bytes, b: Bytes) {
    a <= b || exists i :: 0 <= i < |a| && i < |b| && a[..i] == b[..i] && Val(a[i]) < Val(b[i])
  }

  /** The key order is the order at the first difference. */
  lemma {:induction false} LessEqIffNotAfter(a: Bytes, b: Bytes)
    ensures LessEq(a, b) <==> NotAfter(a, b)
    decreases |a|
  {
    if a != [] && b != [] && a[0] == b[0] {
      LessEqIffNotAfter(a[1..], b[1..]);
      NotAfterStep(a, b);
    } else if a != [] && b != [] {
      NotAfterAtOnce(a, b);
    }
  }

  lemma NotAfterAtOnce(a: Bytes, b: Bytes)
    requires a != [] && b != [] && a[0] != b[0]
    ensures NotAfter(a, b) <==> Val(a[0]) < Val(b[0])
  {
    assert a[..0] == b[..0];
    if NotAfter(a, b) {
      var i :| 0 <= i < |a| && i < |b| && a[..i] == b[..i] && Val(a[i]) < Val(b[i]);
      StartAlike(a, b, i);
    }
  }

  lemma StartAlike(a: Bytes, b: Bytes, i: nat)
    requires i <= |a| && i <= |b| && a[..i] == b[..i]
    ensures i > 0 ==> a[0] == b[0]
  {
    assert i > 0 ==> a[..i][0] == b[..i][0];
  }

  lemma NotAfterStep(a: Bytes, b: Bytes)
    requires a != [] && b != [] && a[0] == b[0]
    ensures NotAfter(a, b) <==> NotAfter(a[1..], b[1..])
  {
    assert a <= b <==> a[1..] <= b[1..] by {
      assert a == [a[0]] + a[1..] && b == [b[0]] + b[1..];
    }
    if NotAfter(a[1..], b[1..]) && !(a <= b) {
      var i :| 0 <= i < |a[1..]| && i < |b[1..]| && a[1..][..i] == b[1..][..i] && Val(a[1..][i]) < Val(b[1..][i]);
      assert a[..i + 1] == [a[0]] + a[1..][..i] && b[..i + 1] == [b[0]] + b[1..][..i];
      assert a[..i + 1] == b[..i + 1] && Val(a[i + 1]) < Val(b[i + 1]);
    }
    if NotAfter(a, b) && !(a <= b) {
      var i :| 0 <= i < |a| && i < |b| && a[..i] == b[..i] && Val(a[i]) < Val(b[i]);
      assert a[1..][..i - 1] == a[..i][1..] && b[1..][..i - 1] == b[..i][1..];
      assert Val(a[1..][i - 1]) < Val(b[1..][i - 1]);
    }
  }

  lemma {:induction false} LessEqTransitive(a: Bytes, b: Bytes, c: Bytes)
    requires LessEq(a, b) && LessEq(b, c)
    ensures LessEq(a, c)
  {
    if a != [] && a[0] == b[0] == c[0] {
      LessEqTransitive(a[1..], b[1..], c[1..]);
    }
  }

  /** The loop condition of Walk, and matchKey of the split cursor. */
  predicate Matches(start: Bytes, k: Bytes, fixedbits: nat)
    requires |start| >= FixedBytes(fixedbits)
  {
    var (n, mask) := Bytesmask(fixedbits);
    |k| >= n && (fixedbits == 0 || (k[..n - 1] == start[..n - 1] && EqualMasked(k[n - 1], start[n - 1], mask)))
  }

  /** The same without masks. */
  predicate MatchesTop(start: Bytes, k: Bytes, fixedbits: nat)
    requires |start| >= FixedBytes(fixedbits)
  {
    var n, bits := FixedBytes(fixedbits), LastBits(fixedbits);
    |k| >= n && (fixedbits == 0 || (k[..n - 1] == start[..n - 1] && Top(k[n - 1], bits) == Top(start[n - 1], bits)))
  }

  lemma MatchesIsMatchesTop(start: Bytes, k: Bytes, fixedbits: nat)
    requires |start| >= FixedBytes(fixedbits)
    ensures Matches(start, k, fixedbits) <==> MatchesTop(start, k, fixedbits)
  {
    var n := FixedBytes(fixedbits);
    if fixedbits > 0 && |k| >= n {
      MaskComparesTop(k[n - 1], start[n - 1], fixedbits);
    }
  }

  /** Bit `i` of a key, most significant bit of each byte first. */
  predicate Bit(k: Bytes, i: nat)
    requires i < 8 * |k|
  {
    BitOf(k[i / 8], i % 8)
  }

  /** Two keys agree on their first `n` bits. */
  predicate AgreeOn(a: Bytes, b: Bytes, n: nat) {
    n <= 8 * |a| && n <= 8 * |b| && forall i :: 0 <= i < n ==> Bit(a, i) == Bit(b, i)
  }

  /** The same, byte by byte. */
  predicate SharePrefix(a: Bytes, b: Bytes, n: nat) {
    if n == 0 then true
    else if a == [] || b == [] then false
    else if n < 8 then Top(a[0], n) == Top(b[0], n)
    else a[0] == b[0] && SharePrefix(a[1..], b[1..], n - 8)
  }

  lemma FixedBytesStep(fixedbits: nat)
    requires fixedbits > 8
    ensures FixedBytes(fixedbits) >= 2
    ensures FixedBytes(fixedbits - 8) == FixedBytes(fixedbits) - 1 && LastBits(fixedbits - 8) == LastBits(fixedbits)
  {
  }

  lemma PrefixStep(a: Bytes, b: Bytes, n: nat)
    requires 0 < n < |a| && n < |b|
    ensures a[..n] == b[..n] <==> a[0] == b[0] && a[1..][..n - 1] == b[1..][..n - 1]
  {
    assert a[..n] == [a[0]] + a[1..][..n - 1] && b[..n] == [b[0]] + b[1..][..n - 1];
  }

  lemma MatchesStep(start: Bytes, k: Bytes, fixedbits: nat)
    requires fixedbits > 8 && |start| >= FixedBytes(fixedbits) && k != []
    ensures |start[1..]| >= FixedBytes(fixedbits - 8)
    ensures MatchesTop(start, k, fixedbits) <==> start[0] == k[0] && MatchesTop(start[1..], k[1..], fixedbits - 8)
  {
    FixedBytesStep(fixedbits);
    var n := FixedBytes(fixedbits);
    if |k| >= n {
      PrefixStep(start, k, n - 1);
    }
  }

  lemma MatchesOneByte(start: Bytes, k: Bytes, fixedbits: nat)
    requires fixedbits <= 8 && |start| >= FixedBytes(fixedbits)
    ensures MatchesTop(start, k, fixedbits) <==> SharePrefix(start, k, fixedbits)
  {
    assert fixedbits > 0 ==> FixedBytes(fixedbits) == 1 && LastBits(fixedbits) == fixedbits;
    if fixedbits == 8 && k != [] {
      WholeByte(k[0], start[0]);
    }
  }

  lemma {:induction false} MatchesIsSharePrefix(start: Bytes, k: Bytes, fixedbits: nat)
    requires |start| >= FixedBytes(fixedbits)
    ensures MatchesTop(start, k, fixedbits) <==> SharePrefix(start, k, fixedbits)
    decreases fixedbits
  {
    if fixedbits > 8 {
      if k != [] {
        MatchesStep(start, k, fixedbits);
        MatchesIsSharePrefix(start[1..], k[1..], fixedbits - 8);
      }
    } else {
      MatchesOneByte(start, k, fixedbits);
    }
  }

  lemma FirstByteBits(a: Bytes, b: Bytes, n: nat)
    requires a != [] && b != [] && n <= 8
    ensures AgreeOn(a, b, n) <==> Top(a[0], n) == Top(b[0], n)
  {
    TopComparesBits(Val(a[0]), Val(b[0]), n);
    forall i | 0 <= i < n
      ensures Bit(a, i) == Bit(b, i) <==> BitIn(Val(a[0]), i) == BitIn(Val(b[0]), i)
    {
      FirstByteBit(a, i);
      FirstByteBit(b, i);
    }
    if SameBits(Val(a[0]), Val(b[0]), n) {
      assert forall i :: 0 <= i < n ==> BitIn(Val(a[0]), i) == BitIn(Val(b[0]), i) && Bit(a, i) == Bit(b, i);
    }
    if AgreeOn(a, b, n) {
      assert forall i :: 0 <= i < n ==> Bit(a, i) == Bit(b, i) && BitIn(Val(a[0]), i) == BitIn(Val(b[0]), i);
    }
  }

  lemma FirstByteBit(a: Bytes, i: nat)
    requires a != [] && i < 8
    ensures Bit(a, i) == BitOf(a[0], i)
  {
  }

  lemma TailBits(a: Bytes, b: Bytes, n: nat)
    requires a != [] && b != [] && n >= 8
    ensures AgreeOn(a, b, n) <==> AgreeOn(a, b, 8) && AgreeOn(a[1..], b[1..], n - 8)
  {
    assert forall i: nat :: i < 8 * |a[1..]| ==> Bit(a[1..], i) == Bit(a, i + 8);
    assert forall i: nat :: i < 8 * |b[1..]| ==> Bit(b[1..], i) == Bit(b, i + 8);
    if AgreeOn(a, b, 8) && AgreeOn(a[1..], b[1..], n - 8) {
      forall i | 0 <= i < n
        ensures Bit(a, i) == Bit(b, i)
      {
        if i >= 8 {
          assert Bit(a[1..], i - 8) == Bit(b[1..], i - 8);
        }
      }
    }
  }

  lemma {:induction false} SharePrefixIsAgreeOn(a: Bytes, b: Bytes, n: nat)
    ensures SharePrefix(a, b, n) <==> AgreeOn(a, b, n)
    decreases n
  {
    if n > 0 && a != [] && b != [] {
      if n < 8 {
        FirstByteBits(a, b, n);
      } else {
        FirstByteBits(a, b, 8);
        WholeByte(a[0], b[0]);
        TailBits(a, b, n);
        SharePrefixIsAgreeOn(a[1..], b[1..], n - 8);
      }
    }
  }

  /** The key test compares exactly the first `fixedbits` bits. */
  lemma MatchesComparesBits(start: Bytes, k: Bytes, fixedbits: nat)
    requires |start| >= FixedBytes(fixedbits)
    ensures Matches(start, k, fixedbits) <==> AgreeOn(start, k, fixedbits)
  {
    MatchesIsMatchesTop(start, k, fixedbits);
    MatchesIsSharePrefix(start, k, fixedbits);
    SharePrefixIsAgreeOn(start, k, fixedbits);
  }

  /** Everything between the start key and a matching key matches: a scan may stop at the first
      mismatch. Keys too short to match cannot lie in between. */
  lemma {:induction false} MatchesBetween(start: Bytes, k: Bytes, m: Bytes, n: nat)
    requires LessEq(start, k) && LessEq(k, m) && SharePrefix(start, m, n)
    ensures SharePrefix(start, k, n)
    decreases n
  {
    if n > 0 {
      if n < 8 {
        TopMonotone(Val(start[0]), Val(k[0]), n);
        TopMonotone(Val(k[0]), Val(m[0]), n);
      } else {
        MatchesBetween(start[1..], k[1..], m[1..], n - 8);
      }
    }
  }
}
