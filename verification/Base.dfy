/** Shared vocabulary: options and results, machine words as bounded integers,
    byte strings and their little-endian integer encoding. */
module Base {

  datatype Option<+T> = None | Some(value: T)

  datatype Result<+T, +E> = Ok(value: T) | Err(error: E)

  const U16_LIMIT: int := 0x1_0000
  const U32_LIMIT: int := 0x1_0000_0000
  const U64_LIMIT: int := 0x1_0000_0000_0000_0000

  type Byte = x: int | 0 <= x < 256
  type U16 = x: int | 0 <= x < U16_LIMIT
  type U64 = x: int | 0 <= x < U64_LIMIT

  type Bytes = seq<Byte>
  function Zeros(n: nat): (b: Bytes)
    ensures |b| == n && forall i :: 0 <= i < n ==> b[i] == 0
  {
    if n == 0 then [] else [0] + Zeros(n - 1)
  }

  function Filled(n: nat, b: Byte): (r: Bytes)
    ensures |r| == n && forall i :: 0 <= i < n ==> r[i] == b
  {
    seq(n, _ => b)
  }

  type Bytes32 = b: Bytes | |b| == 32 witness Zeros(32)
  type Bytes64 = b: Bytes | |b| == 64 witness Zeros(64)

  /** A public key or address on chain. */
  type Key = Bytes32

  const ZERO32: Bytes32 := Zeros(32)
  const ZERO64: Bytes64 := Zeros(64)

  /** The primitives the system calls and never looks inside. Every theorem is
      stated for all of them; where a result leans on collision resistance, the
      two inputs that would have to collide are named. */
  datatype Crypto = Crypto(
    verifies: (Bytes32, Bytes, Bytes64) -> bool,
    sha256: Bytes -> Bytes32,
    blake3: Bytes -> Bytes32)

  function Pow256(n: nat): (r: nat)
    ensures r > 0
  {
    if n == 0 then 1 else 256 * Pow256(n - 1)
  }

  /** The `len` low bytes of `n`, least significant first. */
  function ToLe(n: nat, len: nat): (b: Bytes)
    ensures |b| == len
  {
    if len == 0 then [] else [n % 256] + ToLe(n / 256, len - 1)
  }

  function FromLe(b: Bytes): (n: nat)
    ensures n < Pow256(|b|)
  {
    if b == [] then 0 else b[0] + 256 * FromLe(b[1..])
  }

  lemma {:induction false} FromLeToLe(n: nat, len: nat)
    requires n < Pow256(len)
    ensures FromLe(ToLe(n, len)) == n
  {
    if len > 0 {
      FromLeToLe(n / 256, len - 1);
      assert ToLe(n, len)[1..] == ToLe(n / 256, len - 1);
    }
  }

  lemma DivModByte(low: Byte, high: nat)
    ensures (low + 256 * high) % 256 == low && (low + 256 * high) / 256 == high
  {
  }

  lemma {:induction false} ToLeFromLe(b: Bytes)
    ensures ToLe(FromLe(b), |b|) == b
  {
    if b != [] {
      var n := FromLe(b[1..]);
      assert FromLe(b) % 256 == b[0] && FromLe(b) / 256 == n by { DivModByte(b[0], n); }
      ToLeFromLe(b[1..]);
    }
  }

  lemma Pow256Widths()
    ensures Pow256(2) == U16_LIMIT && Pow256(8) == U64_LIMIT
  {
    assert Pow256(4) == 0x1_0000_0000;
    assert Pow256(6) == 0x1_0000_0000_0000;
  }

  /** Folds a map of accounts into one number. */
  ghost function SumOver<K, V>(m: map<K, V>, f: V -> int): int
  {
    if m == map[] then 0 else
      var k :| k in m;
      f(m[k]) + SumOver(m - {k}, f)
  }

  lemma {:induction false} SumRemove<K, V>(m: map<K, V>, f: V -> int, k: K)
    requires k in m
    ensures SumOver(m, f) == f(m[k]) + SumOver(m - {k}, f)
    decreases |m|
  {
    var j :| j in m && SumOver(m, f) == f(m[j]) + SumOver(m - {j}, f);
    if j != k {
      SumRemove(m - {j}, f, k);
      SumRemove(m - {k}, f, j);
      assert m - {j} - {k} == m - {k} - {j};
    }
  }

  /** Replacing or adding one entry changes the sum by exactly that entry. */
  lemma SumUpdate<K, V>(m: map<K, V>, f: V -> int, k: K, v: V)
    ensures SumOver(m[k := v], f) == SumOver(m, f) + f(v) - (if k in m then f(m[k]) else 0)
  {
    SumRemove(m[k := v], f, k);
    assert m[k := v] - {k} == m - {k};
    if k in m {
      SumRemove(m, f, k);
    } else {
      assert m - {k} == m;
    }
  }

  lemma MulDistributes(a: int, x: int, y: int)
    ensures a * (x + y) == a * x + a * y
  {
  }

  /** A linear inequality that every entry satisfies is satisfied by the sums. */
  lemma {:induction false} SumCombination<K, V>(m: map<K, V>, f: V -> int, g: V -> int, h: V -> int, a: int, b: int,
          c: int)
    requires forall k :: k in m ==> a * f(m[k]) + b * g(m[k]) + c * h(m[k]) >= 0
    ensures a * SumOver(m, f) + b * SumOver(m, g) + c * SumOver(m, h) >= 0
    decreases |m|
  {
    if m != map[] {
      var k :| k in m;
      var rest := m - {k};
      SumCombination(rest, f, g, h, a, b, c);
      SumRemove(m, f, k);
      SumRemove(m, g, k);
      SumRemove(m, h, k);
      MulDistributes(a, f(m[k]), SumOver(rest, f));
      MulDistributes(b, g(m[k]), SumOver(rest, g));
      MulDistributes(c, h(m[k]), SumOver(rest, h));
    }
  }
}
