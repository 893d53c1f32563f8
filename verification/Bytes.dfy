/** Bytes, byte strings, and the fixed-width big-endian numbers used on every wire of the gateway. */
module Bytes {

  type byte = b: int | 0 <= b < 256

  type bytes = seq<byte>

  /** Number of values of a 64-bit counter. */
  const U64: nat := 0x1_0000_0000_0000_0000

  datatype Option<+T> = None | Some(value: T)

  function Min(a: nat, b: nat): nat {
    if a <= b then a else b
  }

  // ---------------------------------------------------------------- big-endian numbers

  function Pow256(k: nat): (r: nat)
    ensures r > 0
  {
    if k == 0 then 1 else 256 * Pow256(k - 1)
  }

  /** The low `k` bytes of `n`, most significant first: higher bits are dropped. */
  function BigEndian(n: nat, k: nat): (r: bytes)
    ensures |r| == k
    decreases k, n
  {
    if k == 0 then [] else BigEndian(n / 256, k - 1) + [n % 256]
  }

  function FromBigEndian(s: bytes): (n: nat)
    ensures n < Pow256(|s|)
  {
    if s == [] then 0 else 256 * FromBigEndian(s[..|s| - 1]) + s[|s| - 1]
  }

  /** A number reads back modulo the values of its `k` bytes, so as itself when it fits. */
  lemma {:induction false} BigEndianRoundTrip(n: nat, k: nat)
    ensures FromBigEndian(BigEndian(n, k)) == n % Pow256(k)
    ensures n < Pow256(k) ==> FromBigEndian(BigEndian(n, k)) == n
  {
    if k > 0 {
      hide Pow256;
      BigEndianRoundTrip(n / 256, k - 1);
      var s := BigEndian(n, k);
      assert s[..|s| - 1] == BigEndian(n / 256, k - 1);
      OneMoreByte(n, k);
    } else {
      NothingLeft(n);
    }
    SmallModulo(n, Pow256(k));
  }

  lemma NothingLeft(n: nat)
    ensures n % Pow256(0) == 0
  {
  }

  lemma SmallModulo(n: nat, m: nat)
    requires m > 0
    ensures n < m ==> n % m == n
  {
  }

  lemma OneMoreByte(n: nat, k: nat)
    requires k > 0
    ensures n % Pow256(k) == 256 * (n / 256 % Pow256(k - 1)) + n % 256
  {
    var p := Pow256(k - 1);
    assert Pow256(k) == 256 * p;
    hide Pow256;
    ModuloOfProduct(n, p);
  }

  lemma ModuloOfProduct(n: nat, p: nat)
    requires p > 0
    ensures 256 * p > 0 && n % (256 * p) == 256 * (n / 256 % p) + n % 256
  {
    var q := n / 256;
    var a, b := q / p, q % p;
    var r := 256 * b + n % 256;
    assert q == a * p + b;
    assert n == 256 * q + n % 256;
    assert 256 * (a * p) == a * (256 * p);
    assert n == a * (256 * p) + r;
    assert 0 <= r < 256 * p;
    SameRemainder(256 * p, a, r, n / (256 * p), n % (256 * p));
  }

  lemma SameRemainder(m: int, a: int, r: int, b: int, s: int)
    requires 0 <= r < m && 0 <= s < m && a * m + r == b * m + s
    ensures r == s
  {
    assert (a - b) * m == s - r;
    assert a - b >= 1 ==> (a - b) * m >= m;
    assert a - b <= -1 ==> (a - b) * m <= -m;
  }

  lemma {:induction false} FromBigEndianRoundTrip(s: bytes)
    ensures BigEndian(FromBigEndian(s), |s|) == s
  {
    if s != [] {
      var init := s[..|s| - 1];
      FromBigEndianRoundTrip(init);
      assert FromBigEndian(s) / 256 == FromBigEndian(init);
      assert s == init + [s[|s| - 1]];
    }
  }

  /** Two bytes as one number, as (hi << 8) | lo. */
  function Word(hi: byte, lo: byte): (r: nat)
    ensures r < 0x1_0000 && r / 256 == hi && r % 256 == lo
  {
    256 * (hi as int) + lo as int
  }

  lemma WordIsBigEndian(hi: byte, lo: byte)
    ensures BigEndian(Word(hi, lo), 2) == [hi, lo]
  {
    var n := Word(hi, lo);
    assert BigEndian(n, 2) == BigEndian(n / 256, 1) + [lo];
    assert BigEndian(n / 256, 1) == BigEndian(n / 256 / 256, 0) + [hi];
  }

  // ---------------------------------------------------------------- flattening

  function Flatten(parts: seq<bytes>): bytes {
    if parts == [] then [] else parts[0] + Flatten(parts[1..])
  }

  lemma {:induction false} FlattenAppend(a: seq<bytes>, b: seq<bytes>)
    ensures Flatten(a + b) == Flatten(a) + Flatten(b)
  {
    if a == [] {
      assert a + b == b;
    } else {
      assert (a + b)[1..] == a[1..] + b;
      FlattenAppend(a[1..], b);
    }
  }

  lemma FlattenSnoc(a: seq<bytes>, x: bytes)
    ensures Flatten(a + [x]) == Flatten(a) + x
  {
    FlattenAppend(a, [x]);
    assert Flatten([x]) == x;
  }

  /** Every part holds at least one byte: a read from a connection never returns an empty success. */
  predicate NonEmpty(parts: seq<bytes>) {
    forall i | 0 <= i < |parts| :: parts[i] != []
  }

  lemma {:induction false} FlattenPrefix(parts: seq<bytes>, k: nat)
    requires k <= |parts|
    ensures Flatten(parts) == Flatten(parts[..k]) + Flatten(parts[k..])
    ensures Flatten(parts[..k]) <= Flatten(parts)
  {
    assert parts == parts[..k] + parts[k..];
    FlattenAppend(parts[..k], parts[k..]);
  }

  lemma FlattenNonEmpty(parts: seq<bytes>)
    requires NonEmpty(parts)
    ensures Flatten(parts) == [] <==> parts == []
  {
  }
}
