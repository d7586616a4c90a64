/** Byte buffers with little-endian fields, as the netlink helpers read and write them. */
module Bytes {
  type byte = n: nat | n < 256

  /** Divisible by four. */
  predicate Aligned(n: nat) {
    n == 0 || (n >= 4 && Aligned(n - 4))
  }

  /** Round up to a multiple of four. */
  function Align(n: nat): (r: nat)
    ensures Aligned(r) && n <= r < n + 4
    ensures Aligned(n) ==> r == n
  {
    if n == 0 then 0 else if n <= 4 then 4 else Align(n - 4) + 4
  }

  /** MNL_ALIGN adds three and clears the two low bits. */
  lemma {:induction false} AlignIsMacro(n: nat)
    ensures Align(n) == (n + 3) / 4 * 4
    ensures Aligned(n) <==> n % 4 == 0
  {
    if n > 4 {
      AlignIsMacro(n - 4);
    }
  }

  lemma {:induction false} AlignMonotone(a: nat, b: nat)
    requires a <= b
    ensures Align(a) <= Align(b)
  {
    if a > 4 {
      AlignMonotone(a - 4, b - 4);
    }
  }

  lemma {:induction false} AlignSum(a: nat, b: nat)
    requires Aligned(a)
    ensures Align(a + b) == a + Align(b)
  {
    if a > 0 {
      AlignSum(a - 4, b);
    }
  }

  function U16(b: seq<byte>, i: nat): (r: nat)
    requires i + 2 <= |b|
    ensures r < 0x1_0000
  {
    b[i] as nat + 256 * b[i + 1] as nat
  }

  function U32(b: seq<byte>, i: nat): (r: nat)
    requires i + 4 <= |b|
    ensures r < 0x1_0000_0000
  {
    U16(b, i) + 0x1_0000 * U16(b, i + 2)
  }

  /** Low byte and high byte of a 16-bit value. */
  function Low(n: nat): byte {
    n % 256
  }

  function High(n: nat): byte {
    n / 256 % 256
  }

  method PutU16(buf: array<byte>, i: nat, n: nat)
    requires i + 2 <= buf.Length && n < 0x1_0000
    modifies buf
    ensures U16(buf[..], i) == n
    ensures forall j | 0 <= j < buf.Length && !(i <= j < i + 2) :: buf[j] == old(buf[j])
  {
    buf[i] := Low(n);
    buf[i + 1] := High(n);
  }

  method PutU32(buf: array<byte>, i: nat, n: nat)
    requires i + 4 <= buf.Length && n < 0x1_0000_0000
    modifies buf
    ensures U32(buf[..], i) == n
    ensures forall j | 0 <= j < buf.Length && !(i <= j < i + 4) :: buf[j] == old(buf[j])
  {
    PutU16(buf, i, n % 0x1_0000);
    PutU16(buf, i + 2, n / 0x1_0000);
  }

  /** memcpy of a value into a buffer. */
  method PutBytes(buf: array<byte>, i: nat, data: seq<byte>)
    requires i + |data| <= buf.Length
    modifies buf
    ensures buf[i..i + |data|] == data
    ensures forall j | i <= j < i + |data| :: buf[j] == data[j - i]
    ensures forall j | 0 <= j < buf.Length && !(i <= j < i + |data|) :: buf[j] == old(buf[j])
  {
    for k := 0 to |data|
      invariant forall j | i <= j < i + k :: buf[j] == data[j - i]
      invariant forall j | 0 <= j < buf.Length && !(i <= j < i + k) :: buf[j] == old(buf[j])
    {
      buf[i + k] := data[k];
    }
  }

  /** Fields depend only on their own bytes. */
  lemma {:induction false} SameU16(a: seq<byte>, i: nat, b: seq<byte>, j: nat)
    requires i + 2 <= |a| && j + 2 <= |b| && a[i..i + 2] == b[j..j + 2]
    ensures U16(a, i) == U16(b, j)
  {
    assert a[i] == a[i..i + 2][0] && a[i + 1] == a[i..i + 2][1];
    assert b[j] == b[j..j + 2][0] && b[j + 1] == b[j..j + 2][1];
  }

  lemma {:induction false} SameU32(a: seq<byte>, i: nat, b: seq<byte>, j: nat)
    requires i + 4 <= |a| && j + 4 <= |b| && a[i..i + 4] == b[j..j + 4]
    ensures U32(a, i) == U32(b, j)
  {
    assert a[i..i + 2] == a[i..i + 4][..2] && b[j..j + 2] == b[j..j + 4][..2];
    assert a[i + 2..i + 4] == a[i..i + 4][2..] && b[j + 2..j + 4] == b[j..j + 4][2..];
    SameU16(a, i, b, j);
    SameU16(a, i + 2, b, j + 2);
  }

  lemma {:induction false} SliceSlice<T>(b: seq<T>, i: nat, j: nat, p: nat, q: nat)
    requires i <= j <= |b| && p <= q <= j - i
    ensures b[i..j][p..q] == b[i + p..i + q]
  {
    var x, y := b[i..j][p..q], b[i + p..i + q];
    forall k | 0 <= k < q - p
      ensures x[k] == y[k]
    {
      assert x[k] == b[i..j][p + k];
    }
  }
}
