/** Values shared by the models: optional results, bytes and little-endian integers. */
module Common {

  datatype Option<+T> = None | Some(value: T)

  type Byte = b: int | 0 <= b < 256

  const U16: int := 0x1_0000
  const U32: int := 0x1_0000_0000
  const U64: int := 0x1_0000_0000_0000_0000

  function Min(a: int, b: int): int { if a <= b then a else b }
  function Max(a: int, b: int): int { if a >= b then a else b }

  /** Two's complement: the unsigned image of `i` in a word of `m` values. */
  function Wrap(i: int, m: int): (u: nat)
    requires m > 0
    ensures u < m
  {
    i % m
  }

  /** Two's complement: the signed reading of the low bits of `u`. */
  function Signed(u: int, m: int): int
    requires m > 0
  {
    if 2 * (u % m) < m then u % m else u % m - m
  }

  lemma {:induction false} SignedInvertsWrap(i: int, m: int)
    requires m == 256 || m == U16 || m == U32 || m == U64
    requires -m <= 2 * i < m
    ensures 0 <= Wrap(i, m) < m && Signed(Wrap(i, m), m) == i
  {
    if m == 256 {
    } else if m == U16 {
    } else if m == U32 {
    } else {
    }
  }

  /** `u16::from_be_bytes`. */
  function BeWord(hi: Byte, lo: Byte): (w: nat)
    ensures w < U16
  {
    256 * (hi as int) + lo
  }

  function Pow256(k: nat): (p: nat)
    ensures p >= 1
  {
    if k == 0 then 1 else 256 * Pow256(k - 1)
  }

  /** The `k` little-endian bytes of `n`. */
  function ToLe(n: nat, k: nat): (bs: seq<Byte>)
    ensures |bs| == k
  {
    if k == 0 then [] else [n % 256] + ToLe(n / 256, k - 1)
  }

  function FromLe(bs: seq<Byte>): (n: nat)
  {
    if bs == [] then 0 else bs[0] + 256 * FromLe(bs[1..])
  }

  lemma {:induction false} FromLeToLe(n: nat, k: nat)
    requires n < Pow256(k)
    ensures FromLe(ToLe(n, k)) == n
  {
    if k > 0 {
      FromLeToLe(n / 256, k - 1);
      assert ToLe(n, k)[1..] == ToLe(n / 256, k - 1);
    }
  }

  lemma {:induction false} Pow256Widths()
    ensures Pow256(1) == 256 && Pow256(2) == U16 && Pow256(4) == U32 && Pow256(8) == U64
  {
  }

  lemma {:induction false} MulMonotone(a: nat, b: nat, c: nat)
    requires a <= b
    ensures a * c <= b * c
  {
  }

  lemma {:induction false} ConcatAssociates<T>(a: seq<T>, b: seq<T>, c: seq<T>)
    ensures (a + b) + c == a + (b + c)
  {
  }

  lemma {:induction false} DropOfConcat<T>(a: seq<T>, b: seq<T>, n: nat)
    requires n <= |a|
    ensures (a + b)[n..] == a[n..] + b && (a + b)[..n] == a[..n]
  {
  }

  lemma {:induction false} ConcatSplits<T>(a: seq<T>, b: seq<T>)
    ensures (a + b)[|a|..] == b && (a + b)[..|a|] == a
  {
  }

  lemma {:induction false} ConcatNil<T>(s: seq<T>)
    ensures s + [] == s && [] + s == s
  {
  }

  lemma {:induction false} HeadAndTail<T>(s: seq<T>)
    requires s != []
    ensures [s[0]] + s[1..] == s
  {
  }
}
