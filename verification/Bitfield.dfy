/**
 SETBIT, GETBIT and the typed reads and writes of BITFIELD: fields of any width,
 sign and bit offset over a byte string that grows with zero bytes.
 */
module Bitfield {
  import opened Arithmetic
  import opened Options

  type Bytes = seq<bv8>

  datatype Overflow = Wrap | Sat | Fail

  datatype Encoding = Encoding(signed: bool, size: nat) {
    /** The sizes that decoding an encoding accepts. */
    predicate Valid() {
      1 <= size <= if signed then 64 else 63
    }

    function Min(): int
      requires Valid()
    {
      if signed then -Pow2(size - 1) else 0
    }

    function Max(): int
      requires Valid()
    {
      if signed then Pow2(size - 1) - 1 else Pow2(size) - 1
    }

    predicate InRange(x: int)
      requires Valid()
    {
      Min() <= x <= Max()
    }
  }

  // ---------- single bits ----------

  function Mask(k: nat): bv8
    requires k < 8
  {
    (1 as bv8) << k
  }

  predicate TestBit(b: bv8, k: nat)
    requires k < 8
  {
    b & Mask(k) != 0
  }

  lemma MasksDisjoint(s: nat, t: nat)
    requires s < 8 && t < 8 && s != t
    ensures Mask(s) & Mask(t) == 0
  {
  }

  lemma BitwiseElsewhere(b: bv8, m: bv8, n: bv8)
    requires m & n == 0
    ensures (b | m) & n == b & n && (b & !m) & n == b & n
  {
  }

  lemma ThisBit(b: bv8, s: nat)
    requires s < 8
    ensures TestBit(b | Mask(s), s) && !TestBit(b & !Mask(s), s)
    ensures b | Mask(s) == b <==> TestBit(b, s)
    ensures b & !Mask(s) == b <==> !TestBit(b, s)
  {
  }

  lemma OtherBit(b: bv8, s: nat, t: nat)
    requires s < 8 && t < 8 && s != t
    ensures TestBit(b | Mask(s), t) == TestBit(b, t) == TestBit(b & !Mask(s), t)
  {
    MasksDisjoint(s, t);
    BitwiseElsewhere(b, Mask(s), Mask(t));
  }

  /** Sets or clears one bit of a byte; previous is the bit's old value. */
  method ReplaceBit(oldByte: bv8, s: nat, bit: int) returns (newByte: bv8, previous: int)
    requires s < 8 && (bit == 0 || bit == 1)
    ensures forall t: nat | t < 8 :: TestBit(newByte, t) == if t == s then bit == 1 else TestBit(oldByte, t)
    ensures previous == if TestBit(oldByte, s) then 1 else 0
  {
    newByte := if bit == 1 then oldByte | Mask(s) else oldByte & !Mask(s);
    previous := if oldByte == newByte then bit else 1 - bit;
    ThisBit(oldByte, s);
    forall t: nat | t < 8 && t != s ensures TestBit(newByte, t) == TestBit(oldByte, t) {
      OtherBit(oldByte, s, t);
    }
  }

  /**
   Bit number k of the string under zero extension; bit 0 is the most
   significant bit of the first byte.
   */
  predicate BitAt(v: Bytes, k: nat) {
    k / 8 < |v| && TestBit(v[k / 8], 7 - k % 8)
  }

  /** What the bits of a byte are worth, the most significant one first. */
  lemma ByteIsSumOfBits(b: bv8)
    ensures b as int ==
      (if TestBit(b, 7) then 128 else 0) + (if TestBit(b, 6) then 64 else 0) + (if TestBit(b, 5) then 32 else 0) +
      (if TestBit(b, 4) then 16 else 0) + (if TestBit(b, 3) then 8 else 0) + (if TestBit(b, 2) then 4 else 0) +
      (if TestBit(b, 1) then 2 else 0) + (if TestBit(b, 0) then 1 else 0)
  {
  }

  /** Eight bits to a byte, the most significant one first; beyond the end all are clear. */
  lemma BitsOfBytes(v: Bytes, i: nat, j: nat)
    requires j < 8
    ensures BitAt(v, 8 * i + j) <==> i < |v| && TestBit(v[i], 7 - j)
  {
    assert (8 * i + j) / 8 == i && (8 * i + j) % 8 == j;
  }

  lemma PaddingIsInvisible(v: Bytes, w: Bytes, k: nat)
    requires |v| <= |w| && v == w[..|v|] && forall i | |v| <= i < |w| :: w[i] == 0
    ensures BitAt(v, k) == BitAt(w, k)
  {
  }

  lemma ReplacedByte(v: Bytes, offset: nat, b: bv8, on: bool, k: nat)
    requires offset / 8 < |v|
    requires forall t: nat | t < 8 :: TestBit(b, t) == if t == 7 - offset % 8 then on else TestBit(v[offset / 8], t)
    ensures BitAt(v[offset / 8 := b], k) == if k == offset then on else BitAt(v, k)
  {
  }

  /** The number that n bits from offset off denote, read as an unsigned integer. */
  ghost function Unsigned(v: Bytes, off: nat, n: nat): (u: int)
    ensures 0 <= u < Pow2(n)
  {
    if n == 0 then 0 else 2 * Unsigned(v, off, n - 1) + if BitAt(v, off + n - 1) then 1 else 0
  }

  lemma {:induction false} UnsignedDependsOnField(v: Bytes, w: Bytes, off: nat, n: nat)
    requires forall k | off <= k < off + n :: BitAt(v, k) == BitAt(w, k)
    ensures Unsigned(v, off, n) == Unsigned(w, off, n)
  {
    if n > 0 {
      UnsignedDependsOnField(v, w, off, n - 1);
    }
  }

  /** A field's value: its bits as an unsigned number, or in two's complement. */
  ghost function FieldValue(v: Bytes, e: Encoding, off: nat): int {
    Unsigned(v, off, e.size) - if e.signed && BitAt(v, off) then Pow2(e.size) else 0
  }

  lemma {:induction false} UnsignedTopBit(v: Bytes, off: nat, n: nat)
    requires n >= 1
    ensures BitAt(v, off) <==> Unsigned(v, off, n) >= Pow2(n - 1)
  {
    if n == 1 {
      assert Unsigned(v, off, 0) == 0;
    } else {
      UnsignedTopBit(v, off, n - 1);
    }
  }

  /** A field holds a value of its type, and that value determines the bits. */
  lemma FieldValueInRange(v: Bytes, e: Encoding, off: nat)
    requires e.Valid()
    ensures e.InRange(FieldValue(v, e, off))
  {
    UnsignedTopBit(v, off, e.size);
  }

  /** Only one value of the type is congruent to x modulo 2^size. */
  lemma RepresentativeIsUnique(e: Encoding, x: int, y: int)
    requires e.Valid() && e.InRange(x) && e.InRange(y)
    requires x % Pow2(e.size) == y % Pow2(e.size)
    ensures x == y
  {
    assert e.Max() - e.Min() < Pow2(e.size);
    CongruentAndClose(x, y, Pow2(e.size));
  }

  // ---------- the overflow rules ----------

  /** The cast of the source to a 64-bit unsigned integer. */
  function Uint64(x: int): (u: int)
    ensures 0 <= u < 0x1_0000_0000_0000_0000
    ensures exists q :: x == u + q * 0x1_0000_0000_0000_0000
  {
    assert x == x % 0x1_0000_0000_0000_0000 + (x / 0x1_0000_0000_0000_0000) * 0x1_0000_0000_0000_0000;
    x % 0x1_0000_0000_0000_0000
  }

  /** The number a write aims at, before overflow is dealt with. */
  function Target(e: Encoding, current: int, value: Option<int>, incr: int): int
  {
    var start := if value.None? then current else value.value;
    (if e.signed then start else Uint64(start)) + incr
  }

  /** What each overflow policy promises to store for a target; None when nothing is stored. */
  ghost predicate Meets(o: Overflow, e: Encoding, target: int, stored: Option<int>)
    requires e.Valid()
  {
    match o
    case Wrap =>
      stored.Some? && e.InRange(stored.value) && stored.value % Pow2(e.size) == target % Pow2(e.size)
    case Sat =>
      stored == Some(if target > e.Max() then e.Max() else if target < e.Min() then e.Min() else target)
    case Fail =>
      if e.InRange(target) then stored == Some(target) else stored == None
  }

  /** The policies determine the outcome completely. */
  lemma MeetsIsDeterministic(o: Overflow, e: Encoding, target: int, s1: Option<int>, s2: Option<int>)
    requires e.Valid() && Meets(o, e, target, s1) && Meets(o, e, target, s2)
    ensures s1 == s2
  {
    if o == Wrap {
      RepresentativeIsUnique(e, s1.value, s2.value);
    }
  }

  lemma SixtyFourBits()
    ensures Pow2(64) == 0x1_0000_0000_0000_0000
  {
    assert Pow2(2) == 4 && Pow2(4) == 16;
    Pow2Sum(4, 4);
    Pow2Sum(8, 8);
    Pow2Sum(16, 16);
    Pow2Sum(32, 32);
  }

  lemma MultipleOfProduct(k: int, c: int, m: int)
    requires m > 0
    ensures (k * (c * m)) % m == 0
  {
    assert k * (c * m) == (k * c) * m;
    MultipleIsZero(k * c, m);
  }

  /** The cast leaves the number as it is modulo any power of two up to 2^64. */
  lemma CastIsCongruent(x: int, n: nat)
    requires n <= 64
    ensures (Uint64(x) - x) % Pow2(n) == 0
  {
    var q :| x == Uint64(x) + q * 0x1_0000_0000_0000_0000;
    SixtyFourBits();
    Pow2Sum(64 - n, n);
    MultipleOfProduct(-q, Pow2(64 - n), Pow2(n));
  }

  /** An unsigned field's own value is not changed by it. */
  lemma FieldFitsCast(e: Encoding, x: int)
    requires e.Valid() && !e.signed && e.InRange(x)
    ensures Uint64(x) == x
  {
    var q :| x == Uint64(x) + q * 0x1_0000_0000_0000_0000;
    SixtyFourBits();
    Pow2Sum(64 - e.size, e.size);
    assert Pow2(64) >= Pow2(e.size) by {
      assert (Pow2(64 - e.size) - 1) * Pow2(e.size) >= 0;
    }
    SmallMultiple(q, Pow2(64));
  }

  /** The number written for an unsigned field is taken modulo 2^64, for a signed one it is as given. */
  ghost predicate IsCast(e: Encoding, x: int, u: int) {
    if e.signed then u == x else 0 <= u < 0x1_0000_0000_0000_0000 && (u - x) % 0x1_0000_0000_0000_0000 == 0
  }

  lemma TargetIsCast(e: Encoding, x: int, incr: int)
    requires e.Valid()
    ensures IsCast(e, x, Target(e, 0, Some(x), incr) - incr)
    ensures (Target(e, 0, Some(x), incr) - x - incr) % Pow2(e.size) == 0
  {
    SixtyFourBits();
    CastIsCongruent(x, 64);
    CastIsCongruent(x, e.size);
  }

  lemma CongruentDiffers(x: int, y: int, m: int)
    requires m > 0 && x % m == y % m
    ensures (x - y) % m == 0
  {
    assert x - y == (x / m - y / m) * m;
    MultipleIsZero(x / m - y / m, m);
  }

  lemma MultiplesAdd(x: int, y: int, m: int)
    requires m > 0 && x % m == 0 && y % m == 0
    ensures (x + y) % m == 0
  {
    assert x + y == (x / m + y / m) * m;
    MultipleIsZero(x / m + y / m, m);
  }

  /**
   What each policy makes of a number: one congruent to it, the nearest one in
   range, or the number itself if it is in range and otherwise nothing.
   */
  ghost predicate Settles(o: Overflow, e: Encoding, aim: int, now: int, stored: bool)
    requires e.Valid()
  {
    match o
    case Wrap => stored && (now - aim) % Pow2(e.size) == 0
    case Sat => stored && e.InRange(now) && forall x | e.InRange(x) :: aim <= now <= x || x <= now <= aim
    case Fail => (stored <==> e.InRange(aim)) && (stored ==> now == aim)
  }

  lemma MeetsSettles(o: Overflow, e: Encoding, target: int, stored: Option<int>, now: int)
    requires e.Valid() && Meets(o, e, target, stored) && (stored.Some? ==> now == stored.value)
    ensures Settles(o, e, target, now, stored.Some?)
  {
    if o == Wrap {
      CongruentDiffers(now, target, Pow2(e.size));
    }
  }

  /**
   INCRBY aims at the sum of the field's value and the increment and answers
   with what is stored; SET aims at the number given and answers with what was.
   */
  ghost predicate IsWritten(o: Overflow, e: Encoding, was: int, val: Option<int>, incr: int, now: int, r: Option<int>)
    requires e.Valid()
  {
    if val.None? then Settles(o, e, was + incr, now, r.Some?) && (r.Some? ==> r.value == now)
    else
      && (r.Some? ==> r.value == was)
      && (o == Wrap ==> (now - (val.value + incr)) % Pow2(e.size) == 0)
      && exists start :: IsCast(e, val.value, start) && Settles(o, e, start + incr, now, r.Some?)
  }

  lemma WrittenAsTargeted(o: Overflow, e: Encoding, was: int, val: Option<int>, incr: int, now: int, r: Option<int>)
    requires e.Valid() && e.InRange(was) && (r.Some? ==> r.value == if val.None? then now else was)
    requires Meets(o, e, Target(e, was, val, incr), if r.Some? then Some(now) else None)
    ensures IsWritten(o, e, was, val, incr, now, r)
  {
    var target := Target(e, was, val, incr);
    MeetsSettles(o, e, target, if r.Some? then Some(now) else None, now);
    if val.None? {
      if !e.signed {
        FieldFitsCast(e, was);
      }
    } else {
      TargetIsCast(e, val.value, incr);
      if o == Wrap {
        MultiplesAdd(now - target, target - (val.value + incr), Pow2(e.size));
      }
      assert IsCast(e, val.value, target - incr);
    }
  }

  // ---------- the commands ----------

  /** GETBIT on the stored string. */
  function GetBit(value: Option<Bytes>, offset: nat): (r: int)
    ensures r == if value.Some? && BitAt(value.value, offset) then 1 else 0
  {
    var v := if value.Some? then value.value else [];
    if offset / 8 >= |v| then 0
    else if Mask(7 - offset % 8) & v[offset / 8] != 0 then 1 else 0
  }

  /** The key a command works on: its string, if it exists, and whether it must be written back. */
  class StringItem {
    var value: Option<Bytes>
    var modified: bool

    constructor (v: Option<Bytes>)
      ensures value == v && !modified
    {
      value, modified := v, false;
    }

    /** The string, a missing key reading as the empty one. */
    function Content(): Bytes
      reads this
    {
      if value.Some? then value.value else []
    }

    method SetBit(offset: nat, bit: int) returns (previous: int)
      requires bit == 0 || bit == 1
      modifies this
      ensures value.Some?
      ensures |Content()| == Max(|old(Content())|, offset / 8 + 1)
      ensures BitAt(Content(), offset) <==> bit == 1
      ensures forall k: nat | k != offset :: BitAt(Content(), k) == BitAt(old(Content()), k)
      ensures previous == if BitAt(old(Content()), offset) then 1 else 0
      ensures modified == (old(modified) || value != old(value))
    {
      var val := if value.Some? then value.value else [0];
      var index, shift := offset / 8, 7 - offset % 8;
      if |val| - 1 < index {
        val := val + seq(index - (|val| - 1), _ => 0);
      }
      forall k: nat ensures BitAt(val, k) == BitAt(Content(), k) {
        PaddingIsInvisible(Content(), val, k);
      }
      var newByte;
      newByte, previous := ReplaceBit(val[index], shift, bit);
      forall k: nat ensures BitAt(val[index := newByte], k) == if k == offset then bit == 1 else BitAt(val, k) {
        ReplacedByte(val, offset, newByte, bit == 1, k);
      }
      val := val[index := newByte];
      if Some(val) != value {
        value, modified := Some(val), true;
      }
    }

    method BitfieldGet(e: Encoding, offset: nat) returns (ans: int)
      requires e.Valid()
      ensures ans == FieldValue(Content(), e, offset)
    {
      ans := 0;
      for i := 0 to e.size
        invariant ans == Unsigned(Content(), offset, i)
                         - if e.signed && i > 0 && BitAt(Content(), offset) then Pow2(i) else 0
      {
        ans := ans * 2;
        if GetBit(value, offset + i) != 0 {
          ans := ans + if e.signed && i == 0 then -1 else 1;
        }
        assert Unsigned(Content(), offset, 0) == 0;
      }
    }

    /** The loop that stores the low n bits of x, most significant first. */
    method WriteBits(offset: nat, n: nat, x: int)
      requires n >= 1
      modifies this
      ensures value.Some?
      ensures Unsigned(Content(), offset, n) == x % Pow2(n)
      ensures forall k: nat | k < offset || offset + n <= k :: BitAt(Content(), k) == BitAt(old(Content()), k)
      ensures |Content()| == Max(|old(Content())|, (offset + n - 1) / 8 + 1)
      ensures !modified ==> !old(modified) && value == old(value)
    {
      HighBitsEnds(x, n);
      for i := 0 to n
        invariant i > 0 ==> value.Some?
        invariant Unsigned(Content(), offset, i) == HighBits(x, n, i)
        invariant forall k: nat | k < offset || offset + i <= k :: BitAt(Content(), k) == BitAt(old(Content()), k)
        invariant |Content()| == if i == 0 then |old(Content())| else Max(|old(Content())|, (offset + i - 1) / 8 + 1)
        invariant !modified ==> !old(modified) && value == old(value)
      {
        var bit := (x / Pow2(n - i - 1)) % 2;
        HighBitsStep(x, n, i);
        ghost var before := Content();
        var _ := SetBit(offset + i, bit);
        UnsignedDependsOnField(before, Content(), offset, i);
      }
    }

    /** Stores a value of the field's type. */
    method StoreField(e: Encoding, offset: nat, x: int)
      requires e.Valid() && e.InRange(x)
      modifies this
      ensures FieldValue(Content(), e, offset) == x
      ensures forall k: nat | k < offset || offset + e.size <= k :: BitAt(Content(), k) == BitAt(old(Content()), k)
      ensures |Content()| == Max(|old(Content())|, (offset + e.size - 1) / 8 + 1)
      ensures !modified ==> value == old(value)
    {
      WriteBits(offset, e.size, x);
      StoredValue(Content(), e, offset, x);
    }

    /**
     BITFIELD SET (a value is given) and INCRBY (none is). The answer is None
     exactly when the policy is Fail and the target does not fit, and then
     nothing changed; otherwise the field holds what the policy promises and
     every other bit is as before.
     */
    method BitfieldSet(e: Encoding, offset: nat, overflow: Overflow, val: Option<int>, incr: int)
      returns (r: Option<int>)
      requires e.Valid()
      modifies this
      ensures
        var target := Target(e, FieldValue(old(Content()), e, offset), val, incr);
        && (r.None? <==> overflow == Fail && !e.InRange(target))
        && (r.None? ==> value == old(value) && modified == old(modified))
        && (r.Some? ==>
              && Meets(overflow, e, target, Some(FieldValue(Content(), e, offset)))
              && r.value == FieldValue(if val.None? then Content() else old(Content()), e, offset))
      ensures IsWritten(overflow, e, FieldValue(old(Content()), e, offset), val, incr, FieldValue(Content(), e, offset), r)
      ensures forall k: nat | k < offset || offset + e.size <= k :: BitAt(Content(), k) == BitAt(old(Content()), k)
      ensures r.Some? ==> |Content()| == Max(|old(Content())|, (offset + e.size - 1) / 8 + 1)
      ensures !modified ==> value == old(value)
    {
      var ans := BitfieldGet(e, offset);
      FieldValueInRange(Content(), e, offset);
      var start := if val.None? then ans else val.value;
      if !e.signed {
        start := Uint64(start);
      }
      var newValue := Resolve(overflow, e, start, incr);
      if newValue.None? {
        WrittenAsTargeted(overflow, e, ans, val, incr, ans, None);
        return None;
      }
      StoreField(e, offset, newValue.value);
      r := Some(if val.None? then newValue.value else ans);
      WrittenAsTargeted(overflow, e, ans, val, incr, newValue.value, r);
    }
  }

  /** The part of a write that settles what to store. */
  function Resolve(o: Overflow, e: Encoding, start: int, incr: int): (r: Option<int>)
    requires e.Valid() && (!e.signed ==> start >= 0)
    ensures Meets(o, e, start + incr, r)
    ensures r.Some? ==> e.InRange(r.value)
  {
    if o == Fail && !e.InRange(start + incr) then None
    else
      var wanted :=
        if o == Sat && start + incr > e.Max() then e.Max()
        else if o == Sat && (e.signed || incr < 0) && start + incr < e.Min() then e.Min()
        else start + incr;
      var masked := wanted % Pow2(e.size);
      var x := if e.signed && masked > e.Max() then masked - Pow2(e.size) else masked;
      Normalised(e, wanted, x);
      Some(x)
  }

  /** The value of the high i bits of the low n bits of x. */
  ghost function HighBits(x: int, n: nat, i: nat): int
    requires i <= n
  {
    x / Pow2(n - i) - Pow2(i) * (x / Pow2(n))
  }

  lemma HighBitsEnds(x: int, n: nat)
    ensures HighBits(x, n, 0) == 0
    ensures HighBits(x, n, n) == x % Pow2(n)
  {
  }

  lemma HighBitsStep(x: int, n: nat, i: nat)
    requires i < n
    ensures HighBits(x, n, i + 1) == 2 * HighBits(x, n, i) + (x / Pow2(n - i - 1)) % 2
  {
    HalfQuotient(x, Pow2(n - i - 1));
    assert Pow2(n - i) == 2 * Pow2(n - i - 1);
    var q, top := x / Pow2(n - i - 1), x / Pow2(n);
    assert q == 2 * (q / 2) + q % 2;
    assert Pow2(i + 1) * top == 2 * (Pow2(i) * top);
  }

  /** Masking to the field's width, then moving the sign, gives the type's representative of w. */
  lemma Normalised(e: Encoding, w: int, x: int)
    requires e.Valid()
    requires var u := w % Pow2(e.size); x == if e.signed && u > e.Max() then u - Pow2(e.size) else u
    ensures e.InRange(x) && x % Pow2(e.size) == w % Pow2(e.size)
    ensures e.InRange(w) ==> x == w
  {
    var m := Pow2(e.size);
    var u := w % m;
    EuclidUnique(0, u, m);
    EuclidUnique(-1, u, m);
    if e.InRange(w) {
      RepresentativeIsUnique(e, x, w);
    }
  }

  /** Bits that agree with x modulo the field's width read back as x. */
  lemma StoredValue(v: Bytes, e: Encoding, offset: nat, x: int)
    requires e.Valid() && e.InRange(x)
    requires Unsigned(v, offset, e.size) == x % Pow2(e.size)
    ensures FieldValue(v, e, offset) == x
  {
    FieldValueInRange(v, e, offset);
    var m, u := Pow2(e.size), x % Pow2(e.size);
    EuclidUnique(0, u, m);
    EuclidUnique(-1, u, m);
    RepresentativeIsUnique(e, FieldValue(v, e, offset), x);
  }

  /** A write leaves every field that does not overlap it with the value it had. */
  lemma DisjointFieldsKeepTheirValue(v: Bytes, w: Bytes, e: Encoding, offset: nat, f: Encoding, other: nat)
    requires f.Valid() && (other + f.size <= offset || offset + e.size <= other)
    requires forall k: nat | k < offset || offset + e.size <= k :: BitAt(v, k) == BitAt(w, k)
    ensures FieldValue(v, f, other) == FieldValue(w, f, other)
  {
    UnsignedDependsOnField(v, w, other, f.size);
  }
}
