/**
 * 256-bit identifiers, the XOR metric on them and the bucket arithmetic
 * (kademlia/kademliaid.go, GetBucketIndex and generateRandomIDForBucket).
 *
 * An identifier is 32 bytes. Its numeric meaning is the big-endian value `Value`,
 * and `Dist(a, b)` is the big-endian value of the byte-wise XOR. Every order on
 * contacts in this project is the order of natural numbers on `Dist`.
 */
module KademliaIds {
  import Bits

  const ID_LENGTH := 32
  const ID_BITS := 256

  type Byte = b: nat | b < 256

  type KademliaId = s: seq<Byte> | |s| == ID_LENGTH witness seq(ID_LENGTH, _ => 0)

  // ---------------------------------------------------------------- numeric value

  ghost function Value(s: seq<Byte>): nat {
    if s == [] then 0 else Value(s[..|s| - 1]) * 256 + s[|s| - 1]
  }

  function XorByte(x: Byte, y: Byte): Byte {
    Bits.XorBelow(x, y, 8);
    Bits.Xor(x, y)
  }

  function Xor(a: KademliaId, b: KademliaId): KademliaId {
    seq(ID_LENGTH, i requires 0 <= i < ID_LENGTH => XorByte(a[i], b[i]))
  }

  ghost function Dist(a: KademliaId, b: KademliaId): nat {
    Value(Xor(a, b))
  }

  /** The first differing byte decides the order of the values. */
  lemma {:induction false} FirstDifferenceDecides(a: seq<Byte>, b: seq<Byte>, i: nat)
    requires |a| == |b| && i < |a|
    requires a[..i] == b[..i]
    requires a[i] < b[i]
    ensures Value(a) < Value(b)
  {
    var n := |a| - 1;
    if i < n {
      assert a[..n][..i] == a[..i] && b[..n][..i] == b[..i];
      FirstDifferenceDecides(a[..n], b[..n], i);
    } else {
      assert a[..n] == a[..i] == b[..i] == b[..n];
    }
  }

  lemma {:induction false} FirstDifference(a: seq<Byte>, b: seq<Byte>) returns (i: nat)
    requires |a| == |b| && a != b
    ensures i < |a| && a[..i] == b[..i] && a[i] != b[i]
  {
    var n := |a| - 1;
    if a[..n] != b[..n] {
      i := FirstDifference(a[..n], b[..n]);
      assert a[..n][..i] == a[..i] && b[..n][..i] == b[..i];
    } else {
      i := n;
      assert a == a[..n] + [a[n]] && b == b[..n] + [b[n]];
    }
  }

  lemma ValueInjective(a: seq<Byte>, b: seq<Byte>)
    requires |a| == |b|
    ensures Value(a) == Value(b) <==> a == b
  {
    if a != b {
      var i := FirstDifference(a, b);
      if a[i] < b[i] {
        FirstDifferenceDecides(a, b, i);
      } else {
        FirstDifferenceDecides(b, a, i);
      }
    }
  }

  /** The byte-wise comparison loop of `KademliaID.Less` decides the numeric order. */
  method Less(a: KademliaId, b: KademliaId) returns (less: bool)
    ensures less <==> Value(a) < Value(b)
  {
    for i := 0 to ID_LENGTH
      invariant a[..i] == b[..i]
    {
      if a[i] != b[i] {
        if a[i] < b[i] {
          FirstDifferenceDecides(a, b, i);
        } else {
          FirstDifferenceDecides(b, a, i);
        }
        return a[i] < b[i];
      }
    }
    assert a == a[..ID_LENGTH] && b == b[..ID_LENGTH];
    return false;
  }

  method Equals(a: KademliaId, b: KademliaId) returns (same: bool)
    ensures same <==> a == b
  {
    for i := 0 to ID_LENGTH
      invariant a[..i] == b[..i]
    {
      if a[i] != b[i] {
        return false;
      }
    }
    assert a == a[..ID_LENGTH] && b == b[..ID_LENGTH];
    return true;
  }

  method CalcDistance(a: KademliaId, target: KademliaId) returns (distance: KademliaId)
    ensures Value(distance) == Dist(a, target)
    ensures distance == Xor(a, target)
  {
    var result := new Byte[ID_LENGTH](_ => 0);
    for i := 0 to ID_LENGTH
      invariant forall j :: 0 <= j < i ==> result[j] == XorByte(a[j], target[j])
    {
      result[i] := XorByte(a[i], target[i]);
    }
    assert result[..] == Xor(a, target);
    distance := result[..];
  }

  // ---------------------------------------------------------------- the XOR metric

  ghost function Zero(): KademliaId {
    seq(ID_LENGTH, _ => 0)
  }

  lemma {:induction false} ValueOfZeros(s: seq<Byte>)
    requires forall i :: 0 <= i < |s| ==> s[i] == 0
    ensures Value(s) == 0
  {
    if s != [] {
      ValueOfZeros(s[..|s| - 1]);
    }
  }

  lemma DistZeroIffEqual(a: KademliaId, b: KademliaId)
    ensures Dist(a, b) == 0 <==> a == b
  {
    ValueOfZeros(Zero());
    forall x: nat { Bits.XorZero(x); }
    ValueInjective(Xor(a, b), Zero());
    if Xor(a, b) == Zero() {
      forall i | 0 <= i < ID_LENGTH ensures a[i] == b[i] {
        assert Xor(a, b)[i] == Zero()[i];
        XorCancels(a[i], b[i], b[i]);
      }
      assert a == b;
    }
    if a == b {
      assert Xor(a, b) == Zero();
    }
  }

  lemma DistSymmetric(a: KademliaId, b: KademliaId)
    ensures Dist(a, b) == Dist(b, a)
  {
    forall x: nat, y: nat { Bits.XorSymmetric(x, y); }
    assert Xor(a, b) == Xor(b, a);
  }

  /** XOR with a fixed target is injective: no two identifiers are equally far from it. */
  lemma DistInjective(a: KademliaId, b: KademliaId, target: KademliaId)
    ensures Dist(a, target) == Dist(b, target) <==> a == b
  {
    ValueInjective(Xor(a, target), Xor(b, target));
    if Xor(a, target) == Xor(b, target) {
      forall i | 0 <= i < ID_LENGTH ensures a[i] == b[i] {
        assert Xor(a, target)[i] == Xor(b, target)[i];
        XorCancels(a[i], b[i], target[i]);
      }
      assert a == b;
    }
  }

  lemma XorCancels(x: nat, y: nat, t: nat)
    requires Bits.Xor(x, t) == Bits.Xor(y, t)
    ensures x == y
  {
    Bits.XorUndo(x, t, Bits.Xor(x, t));
    Bits.XorUndo(y, t, Bits.Xor(y, t));
  }

  /** Unidirectionality: exactly one identifier lies at a given distance in the metric. */
  lemma Unidirectional(target: KademliaId, distance: KademliaId)
    ensures Dist(Xor(target, distance), target) == Value(distance)
    ensures forall x: KademliaId :: Dist(x, target) == Value(distance) ==> x == Xor(target, distance)
  {
    var y := Xor(target, distance);
    forall i | 0 <= i < ID_LENGTH ensures Xor(y, target)[i] == distance[i] {
      Bits.XorSymmetric(target[i], distance[i]);
      Bits.XorUndo(distance[i], target[i], y[i]);
    }
    assert Xor(y, target) == distance;
    forall x: KademliaId | Dist(x, target) == Value(distance) ensures x == y {
      DistInjective(x, y, target);
    }
  }

  lemma {:induction false} TriangleUpTo(x: seq<Byte>, y: seq<Byte>, z: seq<Byte>)
    requires |x| == |y| == |z|
    requires forall i :: 0 <= i < |x| ==> x[i] <= y[i] as int + z[i]
    ensures Value(x) <= Value(y) + Value(z)
  {
    if x != [] {
      var n := |x| - 1;
      TriangleUpTo(x[..n], y[..n], z[..n]);
    }
  }

  lemma Triangle(a: KademliaId, b: KademliaId, c: KademliaId)
    ensures Dist(a, c) <= Dist(a, b) + Dist(b, c)
  {
    forall i | 0 <= i < ID_LENGTH
      ensures Xor(a, c)[i] <= Xor(a, b)[i] as int + Xor(b, c)[i]
    {
      Bits.XorTriangle(a[i], b[i], c[i]);
    }
    TriangleUpTo(Xor(a, c), Xor(a, b), Xor(b, c));
  }

  // ---------------------------------------------------------------- bits and shared prefixes

  /** Bit `j` of a byte, counted from the most significant one. */
  predicate ByteBit(b: Byte, j: nat)
    requires j < 8
  {
    Bits.Bit(b, 7 - j)
  }

  /** Bit `n` of an identifier, counted from the most significant one. */
  predicate Bit(id: KademliaId, n: nat)
    requires n < ID_BITS
  {
    ByteBit(id[n / 8], n % 8)
  }

  /** `a` and `b` agree on their first `n` bits. */
  ghost predicate SharePrefix(a: KademliaId, b: KademliaId, n: nat)
    requires n <= ID_BITS
  {
    forall k: nat :: k < n ==> Bit(a, k) == Bit(b, k)
  }

  /** `n` is the length of the common prefix of two distinct identifiers. */
  ghost predicate FirstBitDifference(a: KademliaId, b: KademliaId, n: nat) {
    n < ID_BITS && SharePrefix(a, b, n) && Bit(a, n) != Bit(b, n)
  }

  lemma BitOfXor(a: KademliaId, b: KademliaId, n: nat)
    requires n < ID_BITS
    ensures Bit(Xor(a, b), n) <==> Bit(a, n) != Bit(b, n)
  {
    Bits.XorBit(a[n / 8], b[n / 8], 7 - n % 8);
  }

  /** Bytes are ordered by their first differing bit. */
  lemma FirstBitOrders(x: Byte, y: Byte, j: nat)
    requires j < 8
    requires forall k: nat :: k < j ==> ByteBit(x, k) == ByteBit(y, k)
    requires !ByteBit(x, j) && ByteBit(y, j)
    ensures x < y
  {
    forall i: nat | 7 - j < i < 8 ensures Bits.Bit(x, i) == Bits.Bit(y, i) {
      assert ByteBit(x, 7 - i) == ByteBit(y, 7 - i);
    }
    Bits.HighBitOrders(x, y, 7 - j, 8);
  }

  lemma SameBitsSameByte(x: Byte, y: Byte)
    requires forall k: nat :: k < 8 ==> ByteBit(x, k) == ByteBit(y, k)
    ensures x == y
  {
    forall i: nat | i < 8 ensures Bits.Bit(x, i) == Bits.Bit(y, i) {
      assert ByteBit(x, 7 - i) == ByteBit(y, 7 - i);
    }
    Bits.AgreeOnBits(x, y, 8);
  }

  lemma SamePrefixSameBytes(a: KademliaId, b: KademliaId, i: nat)
    requires i <= ID_LENGTH && SharePrefix(a, b, 8 * i)
    ensures a[..i] == b[..i]
  {
    forall k | 0 <= k < i ensures a[k] == b[k] {
      forall j: nat | j < 8 ensures ByteBit(a[k], j) == ByteBit(b[k], j) {
        assert Bit(a, 8 * k + j) == Bit(b, 8 * k + j);
        assert (8 * k + j) / 8 == k && (8 * k + j) % 8 == j;
      }
      SameBitsSameByte(a[k], b[k]);
    }
  }

  lemma EqualIffAllBits(a: KademliaId, b: KademliaId)
    ensures a == b <==> SharePrefix(a, b, ID_BITS)
  {
    if SharePrefix(a, b, ID_BITS) {
      SamePrefixSameBytes(a, b, ID_LENGTH);
      assert a == a[..ID_LENGTH] && b == b[..ID_LENGTH];
    }
  }

  /** Sharing more bits with the target means being strictly closer to it. */
  lemma LongerPrefixIsCloser(near: KademliaId, far: KademliaId, target: KademliaId, n: nat)
    requires FirstBitDifference(far, target, n)
    requires SharePrefix(near, target, n + 1)
    ensures Dist(near, target) < Dist(far, target)
  {
    var i, j := n / 8, n % 8;
    assert 8 * i <= n && 8 * i + j == n;
    SamePrefixSameBytes(near, target, i);
    SamePrefixSameBytes(far, target, i);
    var x, y := Xor(near, target), Xor(far, target);
    forall k | 0 <= k < i ensures x[k] == y[k] {
      assert near[..i][k] == target[..i][k] == far[..i][k];
      assert near[k] == target[k] == far[k];
    }
    assert x[..i] == y[..i];
    forall k: nat | k <= j ensures !ByteBit(x[i], k) && ByteBit(y[i], k) == (k == j) {
      var b := 8 * i + k;
      assert b / 8 == i && b % 8 == k;
      assert Bit(near, b) == Bit(target, b) && (k < j ==> Bit(far, b) == Bit(target, b));
      BitOfXor(near, target, b);
      BitOfXor(far, target, b);
    }
    FirstBitOrders(x[i], y[i], j);
    FirstDifferenceDecides(x, y, i);
  }

  // ---------------------------------------------------------------- bucket index

  /** The bucket of `id` at a node `me`: the common prefix length, or 255 for `me` itself. */
  ghost predicate IsBucketIndex(me: KademliaId, id: KademliaId, n: nat) {
    if id == me then n == ID_BITS - 1 else FirstBitDifference(id, me, n)
  }

  /** The same bucket as a function: scan from bit `from` for the first set bit of the distance. */
  function FirstSetBit(distance: KademliaId, from: nat): (n: nat)
    requires from <= ID_BITS
    ensures n < ID_BITS
    ensures forall k: nat :: from <= k < n ==> !Bit(distance, k)
    ensures !Bit(distance, n) ==> n == ID_BITS - 1
    decreases ID_BITS - from
  {
    if from == ID_BITS then ID_BITS - 1
    else if Bit(distance, from) then from
    else FirstSetBit(distance, from + 1)
  }

  function BucketIndex(me: KademliaId, id: KademliaId): (n: nat)
    ensures n < ID_BITS
  {
    FirstSetBit(Xor(id, me), 0)
  }

  /** GetBucketIndex is the common prefix length, for every pair of identifiers. */
  lemma BucketIndexIsPrefixLength(me: KademliaId, id: KademliaId)
    ensures forall n: nat :: IsBucketIndex(me, id, n) <==> n == BucketIndex(me, id)
  {
    var b := BucketIndex(me, id);
    var d := Xor(id, me);
    forall k: nat | k < ID_BITS ensures Bit(d, k) <==> Bit(id, k) != Bit(me, k) {
      BitOfXor(id, me, k);
    }
    EqualIffAllBits(id, me);
    assert IsBucketIndex(me, id, b) by {
      if id != me {
        assert SharePrefix(id, me, b);
        if !Bit(d, b) {
          assert SharePrefix(id, me, ID_BITS);
        }
      } else if Bit(d, b) {
        assert false;
      }
    }
    forall n: nat | IsBucketIndex(me, id, n) ensures n == b {
    }
  }

  lemma BitInByte(id: KademliaId, i: nat, j: nat)
    requires i < ID_LENGTH && j < 8
    ensures Bit(id, 8 * i + j) <==> (id[i] / Bits.Pow2(7 - j)) % 2 != 0
  {
    assert (8 * i + j) / 8 == i && (8 * i + j) % 8 == j;
    Bits.BitByDivision(id[i], 7 - j);
  }

  /** The nested byte and bit loops of `RoutingTable.GetBucketIndex`. */
  method GetBucketIndex(me: KademliaId, id: KademliaId) returns (index: nat)
    ensures index == BucketIndex(me, id)
    ensures IsBucketIndex(me, id, index)
  {
    BucketIndexIsPrefixLength(me, id);
    var distance := CalcDistance(id, me);
    for i := 0 to ID_LENGTH
      invariant forall k: nat :: k < 8 * i ==> !Bit(distance, k)
    {
      for j := 0 to 8
        invariant forall k: nat :: k < 8 * i + j ==> !Bit(distance, k)
      {
        BitInByte(distance, i, j);
        if (distance[i] / Bits.Pow2(7 - j)) % 2 != 0 {
          return i * 8 + j;
        }
      }
    }
    return ID_BITS - 1;
  }

  // ---------------------------------------------------------------- random identifiers per bucket

  /** `now` keeps the first `j` bits of `was` and flips bit `j`. */
  ghost predicate FlippedAt(was: Byte, now: Byte, j: nat)
    requires j < 8
  {
    forall k: nat :: k <= j ==> ByteBit(now, k) == (ByteBit(was, k) != (k == j))
  }

  lemma FlipFirst(was: Byte, j: nat)
    requires j < 8
    ensures Bits.Xor(was, Bits.Pow2(7 - j)) < 256
    ensures FlippedAt(was, Bits.Xor(was, Bits.Pow2(7 - j)), j)
  {
    FlipBelow(was, 7 - j);
    forall k: nat | k <= j
      ensures ByteBit(Bits.Xor(was, Bits.Pow2(7 - j)), k) == (ByteBit(was, k) != (k == j))
    {
      Bits.XorBit(was, Bits.Pow2(7 - j), 7 - k);
      Bits.BitOfPow2(7 - j, 7 - k);
    }
  }

  lemma FlipBelow(was: Byte, i: nat)
    requires i < 8
    ensures Bits.Xor(was, Bits.Pow2(i)) < 256
  {
    Bits.Pow2Monotone(i, 7);
    assert Bits.Pow2(7) == 128 && Bits.Pow2(8) == 256;
    Bits.XorBelow(was, Bits.Pow2(i), 8);
  }

  lemma CoinKeepsFlip(was: Byte, now: Byte, j: nat, b: nat)
    requires j < 8 && b < 7 - j && FlippedAt(was, now, j)
    ensures Bits.SetBit(now, b) < 256 && FlippedAt(was, Bits.SetBit(now, b), j)
    ensures Bits.ClearBit(now, b) < 256 && FlippedAt(was, Bits.ClearBit(now, b), j)
  {
    assert Bits.Pow2(8) == 256;
    Bits.SetBitBelow(now, b, 8);
    forall k: nat | k <= j
      ensures ByteBit(Bits.SetBit(now, b), k) == ByteBit(now, k)
      ensures ByteBit(Bits.ClearBit(now, b), k) == ByteBit(now, k)
    {
      Bits.SetBitBits(now, b, 7 - k);
    }
  }

  lemma FlippedByteGivesIndex(me: KademliaId, id: KademliaId, index: nat)
    requires index < ID_BITS
    requires forall i :: 0 <= i < index / 8 ==> id[i] == me[i]
    requires FlippedAt(me[index / 8], id[index / 8], index % 8)
    ensures BucketIndex(me, id) == index
  {
    forall k: nat | k <= index ensures Bit(id, k) == (Bit(me, k) != (k == index)) {
      assert k / 8 < index / 8 || k % 8 <= index % 8;
    }
    assert FirstBitDifference(id, me, index);
    BucketIndexIsPrefixLength(me, id);
    assert IsBucketIndex(me, id, index);
  }

  /** The random choices fix the identifier: two identifiers of one bucket with the same lower bits and bytes are equal. */
  lemma BucketMembersByChoices(me: KademliaId, x: KademliaId, y: KademliaId, index: nat)
    requires index < ID_BITS && x != me && y != me && BucketIndex(me, x) == index && BucketIndex(me, y) == index
    requires forall b :: 0 <= b < 7 - index % 8 ==> (Bits.Bit(x[index / 8], b) <==> Bits.Bit(y[index / 8], b))
    requires forall i :: index / 8 < i < ID_LENGTH ==> x[i] == y[i]
    ensures x == y
  {
    BucketIndexIsPrefixLength(me, x);
    BucketIndexIsPrefixLength(me, y);
    assert IsBucketIndex(me, x, index) && IsBucketIndex(me, y, index);
    SameBeyondIndex(me, x, y, index);
    EqualIffAllBits(x, y);
  }

  lemma SameBeyondIndex(me: KademliaId, x: KademliaId, y: KademliaId, index: nat)
    requires FirstBitDifference(x, me, index) && FirstBitDifference(y, me, index)
    requires forall b :: 0 <= b < 7 - index % 8 ==> (Bits.Bit(x[index / 8], b) <==> Bits.Bit(y[index / 8], b))
    requires forall i :: index / 8 < i < ID_LENGTH ==> x[i] == y[i]
    ensures SharePrefix(x, y, ID_BITS)
  {
    forall k: nat | k < ID_BITS ensures Bit(x, k) == Bit(y, k) {
      if k < index {
        assert Bit(x, k) == Bit(me, k) && Bit(y, k) == Bit(me, k);
      } else if k > index && k / 8 == index / 8 {
        assert 0 <= 7 - k % 8 < 7 - index % 8;
      }
    }
  }

  /**
   * `generateRandomIDForBucket`: `coin` and `noise` are the random choices, so the
   * contract holds for every sequence of them. An out-of-range index yields a random
   * identifier, as in the source.
   */
  method GenerateRandomIdForBucket(me: KademliaId, index: int, coin: nat -> bool, noise: nat -> Byte)
    returns (id: KademliaId)
    ensures 0 <= index < ID_BITS ==> BucketIndex(me, id) == index
    ensures 0 <= index < ID_BITS ==> forall b :: 0 <= b < 7 - index % 8 ==> (Bits.Bit(id[index / 8], b) <==> coin(b))
    ensures 0 <= index < ID_BITS ==> forall i :: index / 8 < i < ID_LENGTH ==> id[i] == noise(i)
    ensures !(0 <= index < ID_BITS) ==> forall i :: 0 <= i < ID_LENGTH ==> id[i] == noise(i)
  {
    if index < 0 || index >= ID_BITS {
      return seq(ID_LENGTH, i requires i >= 0 => noise(i));
    }
    var target := new Byte[ID_LENGTH](i requires 0 <= i < ID_LENGTH => me[i]);
    var byteIdx, bitOffset := index / 8, 7 - index % 8;
    FlipFirst(me[byteIdx], index % 8);
    target[byteIdx] := Bits.Xor(target[byteIdx], Bits.Pow2(bitOffset));
    for b := 0 to bitOffset
      invariant forall i :: 0 <= i < byteIdx ==> target[i] == me[i]
      invariant FlippedAt(me[byteIdx], target[byteIdx], index % 8)
      invariant forall c :: 0 <= c < b ==> (Bits.Bit(target[byteIdx], c) <==> coin(c))
    {
      CoinKeepsFlip(me[byteIdx], target[byteIdx], index % 8, b);
      forall c: nat { Bits.SetBitBits(target[byteIdx], b, c); }
      if coin(b) {
        target[byteIdx] := Bits.SetBit(target[byteIdx], b);
      } else {
        target[byteIdx] := Bits.ClearBit(target[byteIdx], b);
      }
    }
    for b := byteIdx + 1 to ID_LENGTH
      invariant forall i :: 0 <= i < byteIdx ==> target[i] == me[i]
      invariant FlippedAt(me[byteIdx], target[byteIdx], index % 8)
      invariant forall c :: 0 <= c < bitOffset ==> (Bits.Bit(target[byteIdx], c) <==> coin(c))
      invariant forall i :: byteIdx < i < b ==> target[i] == noise(i)
    {
      target[b] := noise(b);
    }
    id := target[..];
    FlippedByteGivesIndex(me, id, index);
  }
}
