/**
 The geohash encoder and decoder, over the reals. A hash is read as a sequence
 of bits that halve a longitude and a latitude interval in turn.
 */
module Geohash {
  import opened Options

  predicate Ascending(s: string) {
    forall i | 0 < i < |s| :: s[i - 1] < s[i]
  }

  /** Thirty-two letters, no two of them alike. */
  type Alphabet = s: string | |s| == 32 && Ascending(s) witness "0123456789bcdefghjkmnpqrstuvwxyz"

  const BASE32: Alphabet := "0123456789bcdefghjkmnpqrstuvwxyz"

  predicate IsBase32Letter(c: char) {
    '0' <= c <= '9' || ('a' <= c <= 'z' && c !in {'a', 'i', 'l', 'o'})
  }

  /** The alphabet has the ten digits and the small letters but a, i, l and o, in ascending order. */
  lemma Base32Letters(c: char)
    ensures c in BASE32 <==> IsBase32Letter(c)
    ensures Ascending(BASE32) && |BASE32| == 32
  {
  }

  /** A range of degrees. */
  datatype Interval = Interval(lo: real, hi: real) {
    function Mid(): real {
      (lo + hi) / 2.0
    }

    function Width(): real {
      hi - lo
    }

    /** The upper half for a set bit, the lower half for a clear one. */
    function Half(upper: bool): Interval {
      if upper then Interval(Mid(), hi) else Interval(lo, Mid())
    }

    predicate Contains(x: real) {
      lo <= x <= hi
    }
  }

  datatype Box = Box(lon: Interval, lat: Interval)

  datatype Area = Area(lat: real, lon: real, latErr: real, lonErr: real)

  const WORLD := Box(Interval(-180.0, 180.0), Interval(-90.0, 90.0))

  // ---------- specification ----------

  /** Bits are about the longitude and the latitude in turn, the first about the longitude. */
  predicate IsLon(n: nat) {
    n == 0 || !IsLon(n - 1)
  }

  function Narrow(box: Box, onLon: bool, upper: bool): Box {
    if onLon then box.(lon := box.lon.Half(upper)) else box.(lat := box.lat.Half(upper))
  }

  ghost function BoxOf(bits: seq<bool>): Box {
    if bits == [] then WORLD
    else
      var n := |bits| - 1;
      Narrow(BoxOf(bits[..n]), IsLon(n), bits[n])
  }

  /** Which half of the box the point lies in; a midpoint counts as below. */
  predicate IsAbove(box: Box, onLon: bool, lat: real, lon: real) {
    if onLon then lon > box.lon.Mid() else lat > box.lat.Mid()
  }

  /** The first n bits of the point. */
  ghost function PointBits(lat: real, lon: real, n: nat): (bits: seq<bool>)
    ensures |bits| == n
  {
    if n == 0 then []
    else
      var bits := PointBits(lat, lon, n - 1);
      bits + [IsAbove(BoxOf(bits), IsLon(n - 1), lat, lon)]
  }

  function Mask(i: nat): int
    requires i < 5
  {
    if i == 0 then 16 else if i == 1 then 8 else if i == 2 then 4 else if i == 3 then 2 else 1
  }

  /** Whether v and Mask(i) have a bit in common. */
  predicate HasBit(v: int, i: nat)
    requires i < 5
  {
    (if i == 0 then v / 16 else if i == 1 then v / 8 else if i == 2 then v / 4 else if i == 3 then v / 2 else v) % 2 == 1
  }

  /** The number made of up to five bits, the first being worth sixteen. */
  ghost function Value(bits: seq<bool>): int
    requires |bits| <= 5
  {
    if bits == [] then 0
    else
      var k := |bits| - 1;
      Value(bits[..k]) + if bits[k] then Mask(k) else 0
  }

  lemma ValueAppend(bits: seq<bool>, b: bool)
    requires |bits| < 5
    ensures Value(bits + [b]) == Value(bits) + if b then Mask(|bits|) else 0
  {
  }

  ghost function Worth(bits: seq<bool>, i: nat): int
    requires i < 5
  {
    if i < |bits| && bits[i] then Mask(i) else 0
  }

  lemma {:induction false} ValueIsSum(bits: seq<bool>)
    requires |bits| <= 5
    ensures Value(bits) == Worth(bits, 0) + Worth(bits, 1) + Worth(bits, 2) + Worth(bits, 3) + Worth(bits, 4)
  {
    if bits != [] {
      ValueIsSum(bits[..|bits| - 1]);
    }
  }

  lemma ValueIsDigit(bits: seq<bool>)
    requires |bits| <= 5
    ensures 0 <= Value(bits) < 32
  {
    ValueIsSum(bits);
  }

  lemma SumHasBit(a: int, b: int, c: int, d: int, e: int, i: nat)
    requires i < 5 && 0 <= a <= 1 && 0 <= b <= 1 && 0 <= c <= 1 && 0 <= d <= 1 && 0 <= e <= 1
    ensures HasBit(16 * a + 8 * b + 4 * c + 2 * d + e, i) <==>
            (if i == 0 then a else if i == 1 then b else if i == 2 then c else if i == 3 then d else e) == 1
  {
  }

  lemma ValueHasBits(bits: seq<bool>, i: nat)
    requires |bits| <= 5 && i < 5
    ensures HasBit(Value(bits), i) <==> i < |bits| && bits[i]
  {
    ValueIsSum(bits);
    SumHasBit(Worth(bits, 0) / 16, Worth(bits, 1) / 8, Worth(bits, 2) / 4, Worth(bits, 3) / 2, Worth(bits, 4), i);
  }

  ghost function CharBits(v: int): seq<bool> {
    [HasBit(v, 0), HasBit(v, 1), HasBit(v, 2), HasBit(v, 3), HasBit(v, 4)]
  }

  lemma ValueOfCharBits(v: int)
    requires 0 <= v < 32
    ensures Value(CharBits(v)) == v
  {
    ValueIsSum(CharBits(v));
  }

  predicate IsHash(abc: Alphabet, s: string) {
    forall i | 0 <= i < |s| :: s[i] in abc
  }

  /** The position of the first c in s. */
  function IndexOf(s: string, c: char): (d: nat)
    requires c in s
    ensures d < |s| && s[d] == c && c !in s[..d]
  {
    if s[0] == c then 0 else 1 + IndexOf(s[1..], c)
  }

  /** The number a character of the alphabet stands for. */
  function Digit(abc: Alphabet, c: char): int
    requires c in abc
  {
    IndexOf(abc, c)
  }

  ghost function HashBits(abc: Alphabet, s: string): (bits: seq<bool>)
    requires IsHash(abc, s)
    ensures |bits| == 5 * |s|
  {
    if s == "" then [] else HashBits(abc, s[..|s| - 1]) + CharBits(Digit(abc, s[|s| - 1]))
  }

  /** The five bits that the k-th character spells. */
  ghost function PointGroup(lat: real, lon: real, k: nat): (g: seq<bool>)
    requires k >= 1
    ensures |g| == 5
  {
    PointBits(lat, lon, 5 * k)[5 * k - 5..]
  }

  ghost function Spell(abc: Alphabet, group: seq<bool>): char
    requires |group| == 5
  {
    ValueIsDigit(group);
    abc[Value(group)]
  }

  ghost function Encode(abc: Alphabet, lat: real, lon: real, precision: nat): (s: string)
    ensures |s| == precision
  {
    if precision == 0 then ""
    else Encode(abc, lat, lon, precision - 1) + [Spell(abc, PointGroup(lat, lon, precision))]
  }

  ghost function Decode(abc: Alphabet, s: string): Area
    requires IsHash(abc, s)
  {
    var b := BoxOf(HashBits(abc, s));
    Area(b.lat.Mid(), b.lon.Mid(), b.lat.Width() / 2.0, b.lon.Width() / 2.0)
  }

  // ---------- the encoder ----------

  lemma {:induction false} PointBitsPrefix(lat: real, lon: real, m: nat, n: nat)
    requires m <= n
    ensures PointBits(lat, lon, n)[..m] == PointBits(lat, lon, m)
  {
    if m < n {
      PointBitsPrefix(lat, lon, m, n - 1);
    }
  }

  /** ch |= mask, where the bit is still clear. */
  method SetBit(ch: int, ghost bits: seq<bool>, bit: nat) returns (ch': int)
    requires bit < 5 && |bits| == bit && ch == Value(bits)
    ensures ch' == Value(bits + [true])
  {
    ch' := if HasBit(ch, bit) then ch else ch + Mask(bit);
    ValueHasBits(bits, bit);
    ValueAppend(bits, true);
  }

  method NextInterval(curr: real, interval: Interval, ch: int, ghost bits: seq<bool>, bit: nat)
    returns (half: Interval, ch': int)
    requires bit < 5 && |bits| == bit && ch == Value(bits)
    ensures half == interval.Half(curr > interval.Mid())
    ensures ch' == Value(bits + [curr > interval.Mid()])
  {
    var mid := (interval.lo + interval.hi) / 2.0;
    if curr > mid {
      ch' := SetBit(ch, bits, bit);
      half := Interval(mid, interval.hi);
    } else {
      ch' := ch;
      ValueAppend(bits, false);
      half := Interval(interval.lo, mid);
    }
  }

  /** Halves whichever interval is due and notes the bit. */
  method NarrowBox(lat: real, lon: real, box: Box, isLongitude: bool, ch: int, ghost group: seq<bool>, bit: nat)
    returns (box': Box, ch': int, ghost above: bool)
    requires bit < 5 && |group| == bit && ch == Value(group)
    ensures above == IsAbove(box, isLongitude, lat, lon)
    ensures box' == Narrow(box, isLongitude, above)
    ensures ch' == Value(group + [above])
  {
    var half;
    above := IsAbove(box, isLongitude, lat, lon);
    if isLongitude {
      half, ch' := NextInterval(lon, box.lon, ch, group, bit);
      box' := box.(lon := half);
    } else {
      half, ch' := NextInterval(lat, box.lat, ch, group, bit);
      box' := box.(lat := half);
    }
  }

  lemma BoxOfAppend(bits: seq<bool>, b: bool)
    ensures BoxOf(bits + [b]) == Narrow(BoxOf(bits), IsLon(|bits|), b)
  {
  }

  /** The encoder's state: whole characters' bits, then the bits of the character in the making. */
  ghost predicate EncoderInvariant(lat: real, lon: real, whole: seq<bool>, group: seq<bool>, box: Box, isLongitude: bool, ch: int) {
    var n := |whole| + |group|;
    && whole + group == PointBits(lat, lon, n)
    && box == BoxOf(whole + group)
    && isLongitude == IsLon(n)
    && |group| <= 5 && ch == Value(group)
  }

  lemma EncoderStep(lat: real, lon: real, whole: seq<bool>, group: seq<bool>, box: Box, isLongitude: bool, ch: int, box': Box, ch': int, above: bool)
    requires EncoderInvariant(lat, lon, whole, group, box, isLongitude, ch) && |group| < 5
    requires above == IsAbove(box, isLongitude, lat, lon)
    requires box' == Narrow(box, isLongitude, above) && ch' == Value(group + [above])
    ensures EncoderInvariant(lat, lon, whole, group + [above], box', !isLongitude, ch')
  {
    var bits := whole + group;
    BoxOfAppend(bits, above);
    assert whole + (group + [above]) == bits + [above];
    assert PointBits(lat, lon, |bits| + 1) == bits + [above];
  }

  lemma EncoderCharacter(abc: Alphabet, lat: real, lon: real, whole: seq<bool>, group: seq<bool>, box: Box, isLongitude: bool, ch: int, k: nat)
    requires EncoderInvariant(lat, lon, whole, group, box, isLongitude, ch) && |group| == 5 && |whole| == 5 * k
    ensures EncoderInvariant(lat, lon, whole + group, [], box, isLongitude, 0)
    ensures 0 <= ch < 32 && Encode(abc, lat, lon, k + 1) == Encode(abc, lat, lon, k) + [abc[ch]]
  {
    assert whole + group + [] == whole + group;
    assert PointGroup(lat, lon, k + 1) == group;
    ValueIsDigit(group);
  }

  method GeoEncode(abc: Alphabet, latitude: real, longitude: real, precision: int) returns (geohash: string)
    ensures geohash == Encode(abc, latitude, longitude, if precision < 0 then 0 else precision)
  {
    var box := WORLD;
    geohash := "";
    var bit, ch := 0, 0;
    var isLongitude := true;
    ghost var whole, group: seq<bool> := [], [];
    while |geohash| < precision
      invariant 0 <= bit < 5 && |group| == bit && |whole| == 5 * |geohash|
      invariant |geohash| <= if precision < 0 then 0 else precision
      invariant EncoderInvariant(latitude, longitude, whole, group, box, isLongitude, ch)
      invariant geohash == Encode(abc, latitude, longitude, |geohash|)
      decreases precision - |geohash|, 5 - bit
    {
      var box', ch';
      ghost var above;
      box', ch', above := NarrowBox(latitude, longitude, box, isLongitude, ch, group, bit);
      EncoderStep(latitude, longitude, whole, group, box, isLongitude, ch, box', ch', above);
      group := group + [above];
      box, ch, isLongitude := box', ch', !isLongitude;
      if bit < 4 {
        bit := bit + 1;
      } else {
        assert |group| == 5;
        EncoderCharacter(abc, latitude, longitude, whole, group, box, isLongitude, ch, |geohash|);
        geohash := geohash + [abc[ch]];
        bit := 0;
        ch := 0;
        whole, group := whole + group, [];
      }
    }
  }

  // ---------- the decoder ----------

  method TestMask(cd: int, i: nat) returns (set': bool)
    requires i < 5
    ensures set' == CharBits(cd)[i]
  {
    set' := HasBit(cd, i);
  }

  /** The intervals and the error margins after some bits. */
  ghost predicate DecoderInvariant(bits: seq<bool>, box: Box, latErr: real, lonErr: real, isLongitude: bool) {
    && box == BoxOf(bits) && isLongitude == IsLon(|bits|)
    && box.lat.Width() == 2.0 * latErr && box.lon.Width() == 2.0 * lonErr
  }

  method DecodeBit(ghost bits: seq<bool>, box: Box, latErr: real, lonErr: real, isLongitude: bool, upper: bool)
    returns (box': Box, latErr': real, lonErr': real)
    requires DecoderInvariant(bits, box, latErr, lonErr, isLongitude)
    ensures DecoderInvariant(bits + [upper], box', latErr', lonErr', !isLongitude)
  {
    box', latErr', lonErr' := box, latErr, lonErr;
    BoxOfAppend(bits, upper);
    if isLongitude {
      lonErr' := lonErr / 2.0;
      if upper {
        box' := box.(lon := Interval((box.lon.lo + box.lon.hi) / 2.0, box.lon.hi));
      } else {
        box' := box.(lon := Interval(box.lon.lo, (box.lon.lo + box.lon.hi) / 2.0));
      }
    } else {
      latErr' := latErr / 2.0;
      if upper {
        box' := box.(lat := Interval((box.lat.lo + box.lat.hi) / 2.0, box.lat.hi));
      } else {
        box' := box.(lat := Interval(box.lat.lo, (box.lat.lo + box.lat.hi) / 2.0));
      }
    }
  }

  /** The loop over the masks, for one character. */
  method DecodeDigit(ghost bits: seq<bool>, box0: Box, latErr0: real, lonErr0: real, isLongitude0: bool, cd: int)
    returns (box: Box, latErr: real, lonErr: real, isLongitude: bool)
    requires DecoderInvariant(bits, box0, latErr0, lonErr0, isLongitude0)
    ensures DecoderInvariant(bits + CharBits(cd), box, latErr, lonErr, isLongitude)
  {
    box, latErr, lonErr, isLongitude := box0, latErr0, lonErr0, isLongitude0;
    ghost var more := [];
    assert bits + more == bits;
    for i := 0 to 5
      invariant |more| == i && more == CharBits(cd)[..i]
      invariant DecoderInvariant(bits + more, box, latErr, lonErr, isLongitude)
    {
      var upper := TestMask(cd, i);
      box, latErr, lonErr := DecodeBit(bits + more, box, latErr, lonErr, isLongitude, upper);
      assert bits + (more + [upper]) == bits + more + [upper];
      more := more + [upper];
      isLongitude := !isLongitude;
    }
    assert more == CharBits(cd);
  }

  /** The decoder; None stands for the KeyError a character outside the alphabet raises. */
  method GeoDecode(abc: Alphabet, geohash: string) returns (r: Option<Area>)
    ensures r == if IsHash(abc, geohash) then Some(Decode(abc, geohash)) else None
  {
    var box, latErr, lonErr, isLongitude := WORLD, 90.0, 180.0, true;
    for k := 0 to |geohash|
      invariant IsHash(abc, geohash[..k])
      invariant DecoderInvariant(HashBits(abc, geohash[..k]), box, latErr, lonErr, isLongitude)
    {
      if geohash[k] !in abc {
        return None;
      }
      box, latErr, lonErr, isLongitude :=
        DecodeDigit(HashBits(abc, geohash[..k]), box, latErr, lonErr, isLongitude, Digit(abc, geohash[k]));
      assert geohash[..k + 1][..k] == geohash[..k];
    }
    assert geohash[..|geohash|] == geohash;
    var lat := (box.lat.lo + box.lat.hi) / 2.0;
    var lon := (box.lon.lo + box.lon.hi) / 2.0;
    return Some(Area(lat, lon, latErr, lonErr));
  }

  // ---------- encoding and decoding together ----------

  lemma PointBitsSplit(lat: real, lon: real, k: nat)
    requires k >= 1
    ensures PointBits(lat, lon, 5 * k) == PointBits(lat, lon, 5 * (k - 1)) + PointGroup(lat, lon, k)
  {
    PointBitsPrefix(lat, lon, 5 * (k - 1), 5 * k);
    var bits := PointBits(lat, lon, 5 * k);
    assert bits == bits[..5 * k - 5] + bits[5 * k - 5..];
  }

  lemma {:induction false} HashBitsOfEncode(abc: Alphabet, lat: real, lon: real, n: nat)
    ensures IsHash(abc, Encode(abc, lat, lon, n))
    ensures HashBits(abc, Encode(abc, lat, lon, n)) == PointBits(lat, lon, 5 * n)
  {
    if n > 0 {
      HashBitsOfEncode(abc, lat, lon, n - 1);
      var s := Encode(abc, lat, lon, n);
      LetterDigit(abc, PointGroup(lat, lon, n));
      PointBitsSplit(lat, lon, n);
      assert s[..n - 1] == Encode(abc, lat, lon, n - 1);
    }
  }

  lemma DigitOfLetter(abc: Alphabet, v: nat)
    requires v < 32
    ensures abc[v] in abc && Digit(abc, abc[v]) == v
  {
    AlphabetIsInjective(abc, v, Digit(abc, abc[v]));
  }

  lemma CharBitsAt(v: int, i: nat)
    requires i < 5
    ensures |CharBits(v)| == 5 && CharBits(v)[i] == HasBit(v, i)
  {
  }

  lemma CharBitsOfValue(group: seq<bool>)
    requires |group| == 5
    ensures CharBits(Value(group)) == group
  {
    forall i | 0 <= i < 5 ensures CharBits(Value(group))[i] == group[i] {
      CharBitsAt(Value(group), i);
      ValueHasBits(group, i);
    }
  }

  /** The letter of five bits decodes to those bits. */
  lemma LetterDigit(abc: Alphabet, group: seq<bool>)
    requires |group| == 5
    ensures Spell(abc, group) in abc && CharBits(Digit(abc, Spell(abc, group))) == group
  {
    ValueIsDigit(group);
    DigitOfLetter(abc, Value(group));
    CharBitsOfValue(group);
  }

  /** The bits of a letter spell that letter. */
  lemma DigitLetter(abc: Alphabet, c: char)
    requires c in abc
    ensures Spell(abc, CharBits(Digit(abc, c))) == c
  {
    ValueOfCharBits(Digit(abc, c));
  }

  lemma {:induction false} AscendingIsStrict(s: string, i: nat, j: nat)
    requires Ascending(s) && i < j < |s|
    ensures s[i] < s[j]
  {
    if i + 1 < j {
      AscendingIsStrict(s, i, j - 1);
    }
  }

  lemma AlphabetIsInjective(abc: Alphabet, i: nat, j: nat)
    requires i < 32 && j < 32 && abc[i] == abc[j]
    ensures i == j
  {
    if i < j {
      AscendingIsStrict(abc, i, j);
    } else if j < i {
      AscendingIsStrict(abc, j, i);
    }
  }

  predicate InWorld(lat: real, lon: real) {
    -90.0 <= lat <= 90.0 && -180.0 <= lon <= 180.0
  }

  lemma WorldIsWhole(lat: real, lon: real)
    ensures InWorld(lat, lon) <==> BoxContains(WORLD, lat, lon)
    ensures WORLD.lat.lo + WORLD.lat.hi == 0.0 && WORLD.lon.lo + WORLD.lon.hi == 0.0
    ensures WORLD.lat.Width() == 180.0 && WORLD.lon.Width() == 360.0
  {
  }

  predicate BoxContains(b: Box, lat: real, lon: real) {
    b.lat.Contains(lat) && b.lon.Contains(lon)
  }

  lemma NarrowContains(b: Box, onLon: bool, lat: real, lon: real)
    requires BoxContains(b, lat, lon)
    ensures BoxContains(Narrow(b, onLon, IsAbove(b, onLon, lat, lon)), lat, lon)
  {
  }

  lemma {:induction false} PointStaysInBox(lat: real, lon: real, n: nat)
    requires InWorld(lat, lon)
    ensures BoxContains(BoxOf(PointBits(lat, lon, n)), lat, lon)
  {
    if n > 0 {
      PointStaysInBox(lat, lon, n - 1);
      var bits := PointBits(lat, lon, n - 1);
      BoxOfAppend(bits, IsAbove(BoxOf(bits), IsLon(n - 1), lat, lon));
      NarrowContains(BoxOf(bits), IsLon(n - 1), lat, lon);
    }
  }

  /** Above the lower end, unless that is the end of the world, and up to the upper end. */
  predicate HoldsAbove(inner: Interval, world: Interval, x: real) {
    (inner.lo < x || (inner.lo == x == world.lo)) && x <= inner.hi
  }

  /** A point on the line between two boxes belongs to the lower one. */
  lemma {:induction false} PointIsAboveLowerEnd(lat: real, lon: real, n: nat)
    requires InWorld(lat, lon)
    ensures
      var box := BoxOf(PointBits(lat, lon, n));
      HoldsAbove(box.lat, WORLD.lat, lat) && HoldsAbove(box.lon, WORLD.lon, lon)
  {
    if n > 0 {
      PointIsAboveLowerEnd(lat, lon, n - 1);
      var bits := PointBits(lat, lon, n - 1);
      BoxOfAppend(bits, IsAbove(BoxOf(bits), IsLon(n - 1), lat, lon));
    }
  }

  function PowerOfTwo(n: nat): real {
    if n == 0 then 1.0 else 2.0 * PowerOfTwo(n - 1)
  }

  lemma {:induction false} IsLonParity(n: nat)
    ensures IsLon(n) <==> n % 2 == 0
  {
    if n > 0 {
      IsLonParity(n - 1);
    }
  }

  /** x / 2^k. */
  function Halved(x: real, k: nat): real {
    if k == 0 then x else Halved(x, k - 1) / 2.0
  }

  lemma {:induction false} HalvedIsQuotient(x: real, k: nat)
    ensures Halved(x, k) * PowerOfTwo(k) == x
  {
    if k > 0 {
      HalvedIsQuotient(x, k - 1);
      var h, p := Halved(x, k - 1), PowerOfTwo(k - 1);
      assert (h / 2.0) * (2.0 * p) == h * p;
    }
  }

  lemma HalfWidth(iv: Interval, upper: bool)
    ensures iv.Half(upper).Width() == iv.Width() / 2.0
  {
  }

  lemma {:induction false} Widths(bits: seq<bool>)
    ensures BoxOf(bits).lat.Width() == Halved(180.0, |bits| / 2)
    ensures BoxOf(bits).lon.Width() == Halved(360.0, (|bits| + 1) / 2)
  {
    if bits != [] {
      var n := |bits| - 1;
      Widths(bits[..n]);
      IsLonParity(n);
      var b := BoxOf(bits[..n]);
      HalfWidth(b.lon, bits[n]);
      HalfWidth(b.lat, bits[n]);
      if n % 2 == 0 {
        assert (n + 2) / 2 == (n + 1) / 2 + 1 && (n + 1) / 2 == n / 2;
      } else {
        assert (n + 1) / 2 == n / 2 + 1 && (n + 2) / 2 == (n + 1) / 2;
      }
    }
  }

  lemma {:induction false} HalvedOfHalf(x: real, k: nat)
    ensures Halved(x, k) / 2.0 == Halved(x / 2.0, k)
  {
    if k > 0 {
      HalvedOfHalf(x, k - 1);
    }
  }

  /** The error margins are 90/2^floor(5n/2) and 180/2^ceil(5n/2). */
  lemma ErrorMargins(abc: Alphabet, s: string)
    requires IsHash(abc, s)
    ensures Decode(abc, s).latErr == Halved(90.0, 5 * |s| / 2)
    ensures Decode(abc, s).lonErr == Halved(180.0, (5 * |s| + 1) / 2)
  {
    Widths(HashBits(abc, s));
    HalvedOfHalf(180.0, 5 * |s| / 2);
    HalvedOfHalf(360.0, (5 * |s| + 1) / 2);
  }

  /** Decoding an encoded point lands within the error margins of it. */
  lemma DecodeOfEncodeIsClose(abc: Alphabet, lat: real, lon: real, n: nat)
    requires InWorld(lat, lon)
    ensures IsHash(abc, Encode(abc, lat, lon, n))
    ensures
      var a := Decode(abc, Encode(abc, lat, lon, n));
      a.lat - a.latErr <= lat <= a.lat + a.latErr && a.lon - a.lonErr <= lon <= a.lon + a.lonErr
  {
    HashBitsOfEncode(abc, lat, lon, n);
    PointStaysInBox(lat, lon, 5 * n);
  }

  /** A shorter encoding is a prefix of a longer one. */
  lemma {:induction false} ShorterIsPrefix(abc: Alphabet, lat: real, lon: real, m: nat, n: nat)
    requires m <= n
    ensures Encode(abc, lat, lon, m) == Encode(abc, lat, lon, n)[..m]
  {
    if m < n {
      ShorterIsPrefix(abc, lat, lon, m, n - 1);
    }
  }

  ghost predicate Within(inner: Interval, outer: Interval) {
    outer.lo <= inner.lo < inner.hi <= outer.hi
  }

  lemma {:induction false} BoxesNest(bits: seq<bool>, k: nat)
    requires k <= |bits|
    ensures Within(BoxOf(bits).lat, BoxOf(bits[..k]).lat) && Within(BoxOf(bits).lon, BoxOf(bits[..k]).lon)
  {
    if k < |bits| {
      BoxesNest(bits[..|bits| - 1], k);
      assert bits[..|bits| - 1][..k] == bits[..k];
    } else if bits == [] {
    } else {
      BoxesNest(bits[..|bits| - 1], k - 1);
      assert bits[..k] == bits;
    }
  }

  /** The centre of a box lies on the side that each bit of the box says. */
  lemma {:induction false} CentreHasBits(bits: seq<bool>, k: nat)
    requires k <= |bits|
    ensures PointBits(BoxOf(bits).lat.Mid(), BoxOf(bits).lon.Mid(), k) == bits[..k]
  {
    if k > 0 {
      CentreHasBits(bits, k - 1);
      BoxesNest(bits, k);
      assert bits[..k][..k - 1] == bits[..k - 1];
    }
  }

  /** A point with the bits of a hash is encoded as that hash. */
  lemma {:induction false} BitsDetermineHash(abc: Alphabet, s: string, lat: real, lon: real)
    requires IsHash(abc, s) && PointBits(lat, lon, 5 * |s|) == HashBits(abc, s)
    ensures Encode(abc, lat, lon, |s|) == s
    decreases |s|
  {
    if s != "" {
      var k := |s|;
      var init := s[..k - 1];
      PointBitsSplit(lat, lon, k);
      SplitIsUnique(PointBits(lat, lon, 5 * (k - 1)), PointGroup(lat, lon, k), HashBits(abc, init), CharBits(Digit(abc, s[k - 1])));
      BitsDetermineHash(abc, init, lat, lon);
      DigitLetter(abc, s[k - 1]);
      assert s == init + [s[k - 1]];
    }
  }

  lemma SplitIsUnique(a: seq<bool>, b: seq<bool>, c: seq<bool>, d: seq<bool>)
    requires a + b == c + d && |a| == |c|
    ensures a == c && b == d
  {
    assert a == (a + b)[..|a|] && b == (a + b)[|a|..];
    assert c == (c + d)[..|c|] && d == (c + d)[|c|..];
  }

  /** Every hash is the encoding of the centre it decodes to. */
  lemma EncodeOfDecodeIsIdentity(abc: Alphabet, s: string)
    requires IsHash(abc, s)
    ensures Encode(abc, Decode(abc, s).lat, Decode(abc, s).lon, |s|) == s
  {
    var bits := HashBits(abc, s);
    CentreHasBits(bits, |bits|);
    assert bits[..|bits|] == bits;
    BitsDetermineHash(abc, s, Decode(abc, s).lat, Decode(abc, s).lon);
  }

  /** Both round trips, with the alphabet of the source. */
  lemma Base32RoundTrips(lat: real, lon: real, n: nat, s: string)
    requires InWorld(lat, lon) && IsHash(BASE32, s)
    ensures IsHash(BASE32, Encode(BASE32, lat, lon, n))
    ensures
      var area := Decode(BASE32, Encode(BASE32, lat, lon, n));
      -area.latErr <= lat - area.lat <= area.latErr && -area.lonErr <= lon - area.lon <= area.lonErr
    ensures Encode(BASE32, Decode(BASE32, s).lat, Decode(BASE32, s).lon, |s|) == s
  {
    DecodeOfEncodeIsClose(BASE32, lat, lon, n);
    EncodeOfDecodeIsIdentity(BASE32, s);
  }
}
