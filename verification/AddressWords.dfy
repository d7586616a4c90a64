/** IPv6 addresses as eight words in network byte order, and the loops over those words: shifting with
    carries (funciones.c), toggling the child's bit (hcb_address.c), distances and prefix tests
    (pkt_handle.c), and the successor test (heart_beat.c). */
module AddressWords {
  import opened Hypercube
  import opened Metric
  import opened Words
  import Allocation

  type Addr = a: seq<Word> | |a| == 8 witness seq(8, _ => seq(16, _ => false))

  function Bits(ws: seq<Word>): (b: seq<bool>)
    ensures |b| == 16 * |ws|
  {
    if ws == [] then [] else ws[0] + Bits(ws[1..])
  }

  function Swapped(ws: seq<Word>): (r: seq<Word>)
    ensures |r| == |ws| && forall i | 0 <= i < |ws| :: r[i] == Swap(ws[i])
  {
    if ws == [] then [] else [Swap(ws[0])] + Swapped(ws[1..])
  }

  /** The 128 bits of an address in the order in which they travel. */
  function AddrBits(a: Addr): (b: seq<bool>)
    ensures |b| == 128
  {
    Bits(Swapped(a))
  }

  function HostOf(a: Addr): Host {
    AddrBits(a)[64..]
  }

  lemma {:induction false} BitsConcat(s: seq<Word>, t: seq<Word>)
    ensures Bits(s + t) == Bits(s) + Bits(t)
  {
    if s == [] {
      assert s + t == t;
    } else {
      BitsConcat(s[1..], t);
      assert (s + t)[1..] == s[1..] + t;
      assert Bits(s + t) == s[0] + Bits(s[1..] + t);
    }
  }

  lemma {:induction false} BitsAt(ws: seq<Word>, k: nat)
    requires k < 16 * |ws|
    ensures Bits(ws)[k] == ws[k / 16][k % 16]
  {
    if k >= 16 {
      BitsAt(ws[1..], k - 16);
      assert ws[1..][(k - 16) / 16] == ws[k / 16];
    }
  }

  lemma {:induction false} AddrBitsAt(a: Addr, k: nat)
    requires k < 128
    ensures AddrBits(a)[k] == Swap(a[k / 16])[k % 16]
  {
    BitsAt(Swapped(a), k);
  }

  /** Addresses agree bit by bit when their words do. */
  lemma {:induction false} SwapTwice(a: Addr)
    ensures Swapped(Swapped(a)) == a
  {
    forall i | 0 <= i < 8
      ensures Swapped(Swapped(a))[i] == a[i]
    {
      assert Swap(Swap(a[i])) == a[i];
    }
  }

  // ----- Shifting with carries -----

  method SwapBytes(r: array<Word>)
    requires r.Length == 8
    modifies r
    ensures r[..] == Swapped(old(r[..]))
  {
    for i := 0 to 8
      invariant forall j | 0 <= j < i :: r[j] == Swap(old(r[j]))
      invariant forall j | i <= j < 8 :: r[j] == old(r[j])
    {
      var aux1 := And(r[i], HighByte());
      var aux2 := And(r[i], LowByte());
      aux1 := Shr(aux1, 8);
      aux2 := Shl(aux2, 8);
      r[i] := Plus(aux1, aux2);
    }
  }

  /** One pass of the left shift: from the last word to the first, carrying the top bit. */
  method LeftPass(r: array<Word>)
    requires r.Length == 8
    modifies r
    ensures Bits(r[..]) == Shl(old(Bits(r[..])), 1)
  {
    var i := 7;
    var carry1, carry2 := false, false;
    ghost var was := r[..];
    while i >= 0
      invariant -1 <= i <= 7
      invariant r[..i + 1] == was[..i + 1]
      invariant carry2 == (Bits(was[i + 1..]) + [false])[0]
      invariant Bits(r[i + 1..]) == (Bits(was[i + 1..]) + [false])[1..]
    {
      carry1 := carry2;
      assert r[..i + 1][i] == was[..i + 1][i];
      ghost var tail := r[i + 1..];
      r[i], carry2 := ShiftLeft(r[i], carry1);
      assert r[i..] == [r[i]] + tail;
      assert was[i..] == [was[i]] + was[i + 1..];
      LeftJoin(was[i], r[i], carry1, Bits(was[i + 1..]), Bits(tail));
      i := i - 1;
    }
    assert r[0..] == r[..] && was[0..] == was;
  }

  /** One word of the pass: test the top bit, shift, and take the carry in. */
  method ShiftLeft(w: Word, carry: bool) returns (r: Word, out: bool)
    ensures r == w[1..] + [carry] && out == w[0]
  {
    out := And(w, OneAt(0)) != Zeros(16);
    BitTest(w, 0);
    r := Shl(w, 1);
    if carry {
      r := Or(r, OneAt(15));
    }
    LeftWord(w, carry);
  }

  lemma {:induction false} BitTest(w: Word, j: nat)
    requires j < 16
    ensures And(w, OneAt(j)) != Zeros(16) <==> w[j]
  {
    var x := And(w, OneAt(j));
    assert x[j] == w[j];
    if !w[j] {
      assert x == Zeros(16);
    }
  }

  /** What the two branches of the left pass leave in a word. */
  lemma {:induction false} LeftWord(w: Word, carry: bool)
    ensures (if carry then Or(Shl(w, 1), OneAt(15)) else Shl(w, 1)) == w[1..] + [carry]
  {
  }

  lemma {:induction false} LeftJoin(w: Word, r: Word, carry: bool, was: seq<bool>, tail: seq<bool>)
    requires carry == (was + [false])[0] && tail == (was + [false])[1..]
    requires r == w[1..] + [carry]
    ensures r + tail == ((w + was) + [false])[1..]
    ensures ((w + was) + [false])[0] == w[0]
  {
    assert was + [false] == [carry] + tail;
    assert (w + was) + [false] == w + ([carry] + tail);
  }

  /** One pass of the right shift: from the first word to the last, carrying the low bit. */
  method RightPass(r: array<Word>)
    requires r.Length == 8
    modifies r
    ensures Bits(r[..]) == Shr(old(Bits(r[..])), 1)
  {
    var i := 0;
    var carry1, carry2 := false, false;
    ghost var was := r[..];
    while i <= 7
      invariant 0 <= i <= 8
      invariant r[i..] == was[i..] && RightDone(was[..i], r[..i], carry2)
    {
      carry1 := carry2;
      assert r[i..][0] == was[i..][0];
      ghost var head, tail := r[..i], r[i + 1..];
      assert tail == r[i..][1..] && was[i + 1..] == was[i..][1..];
      r[i], carry2 := ShiftRight(r[i], carry1);
      assert r[..i + 1] == head + [r[i]];
      assert was[..i + 1] == was[..i] + [was[i]];
      RightTurn(was[..i], head, carry1, was[i], r[i], carry2);
      assert r[i + 1..] == tail;
      i := i + 1;
    }
    assert r[..8] == r[..] && was[..8] == was;
  }

  /** What the pass has made of the leading words, and the carry for the next one. */
  predicate RightDone(was: seq<Word>, head: seq<Word>, carry: bool) {
    && |was| == |head| && carry == ([false] + Bits(was))[16 * |was|]
    && Bits(head) == ([false] + Bits(was))[..16 * |was|]
  }

  lemma {:induction false} RightTurn(was: seq<Word>, head: seq<Word>, carry: bool, w: Word, r: Word, out: bool)
    requires RightDone(was, head, carry) && r == [carry] + w[..15] && out == w[15]
    ensures RightDone(was + [w], head + [r], out)
  {
    RightJoin(w, r, carry, was, head);
  }

  /** One word of the pass: test the low bit, shift, and take the carry in. */
  method ShiftRight(w: Word, carry: bool) returns (r: Word, out: bool)
    ensures r == [carry] + w[..15] && out == w[15]
  {
    out := And(w, OneAt(15)) != Zeros(16);
    BitTest(w, 15);
    r := Shr(w, 1);
    if carry {
      r := Or(r, OneAt(0));
    }
    RightWord(w, carry);
  }

  /** What the two branches of the right pass leave in a word. */
  lemma {:induction false} RightWord(w: Word, carry: bool)
    ensures (if carry then Or(Shr(w, 1), OneAt(0)) else Shr(w, 1)) == [carry] + w[..15]
  {
  }

  lemma {:induction false} RightJoin(w: Word, r: Word, carry: bool, was: seq<Word>, head: seq<Word>)
    requires |was| == |head| && carry == ([false] + Bits(was))[16 * |was|]
    requires Bits(head) == ([false] + Bits(was))[..16 * |was|]
    requires r == [carry] + w[..15]
    ensures Bits(head + [r]) == ([false] + Bits(was + [w]))[..16 * |was| + 16]
    ensures ([false] + Bits(was + [w]))[16 * |was| + 16] == w[15]
  {
    BitsConcat(head, [r]);
    BitsConcat(was, [w]);
    assert Bits([w]) == w && Bits([r]) == r;
    RightJoinBits(w, r, carry, Bits(was), Bits(head), 16 * |was|);
  }

  lemma {:induction false} RightJoinBits(w: Word, r: Word, carry: bool, was: seq<bool>, head: seq<bool>, n: nat)
    requires |was| == n && carry == ([false] + was)[n] && head == ([false] + was)[..n]
    requires r == [carry] + w[..15]
    ensures head + r == ([false] + (was + w))[..n + 16]
    ensures ([false] + (was + w))[n + 16] == w[15]
  {
    assert [false] + (was + w) == ([false] + was) + w;
    assert [false] + was == head + [carry];
  }

  lemma {:induction false} ShlStep(b: seq<bool>, j: nat)
    ensures Shl(Shl(b, j), 1) == Shl(b, j + 1)
  {
    forall i | 0 <= i < |b|
      ensures Shl(Shl(b, j), 1)[i] == Shl(b, j + 1)[i]
    {
      assert i + 1 < |b| ==> Shl(b, j)[i + 1] == (i + 1 + j < |b| && b[i + 1 + j]);
    }
  }

  lemma {:induction false} ShrStep(b: seq<bool>, j: nat)
    ensures Shr(Shr(b, j), 1) == Shr(b, j + 1)
  {
    forall i | 0 <= i < |b|
      ensures Shr(Shr(b, j), 1)[i] == Shr(b, j + 1)[i]
    {
      assert i >= 1 ==> Shr(b, j)[i - 1] == (i - 1 >= j && b[i - 1 - j]);
    }
  }

  /** The shift loops of shift and shift_unos on host-order words. */
  method ShiftWords(left: bool, count: nat, r: array<Word>)
    requires r.Length == 8
    modifies r
    ensures Bits(r[..]) == if left then Shl(old(Bits(r[..])), count) else Shr(old(Bits(r[..])), count)
  {
    ghost var was := Bits(r[..]);
    if left {
      assert Shl(was, 0) == was;
      for j := 0 to count
        invariant Bits(r[..]) == Shl(was, j)
      {
        LeftPass(r);
        ShlStep(was, j);
      }
    } else {
      assert Shr(was, 0) == was;
      for j := 0 to count
        invariant Bits(r[..]) == Shr(was, j)
      {
        RightPass(r);
        ShrStep(was, j);
      }
    }
  }

  /** shift_unos: a logical shift of all 128 bits. */
  method ShiftUnos(left: bool, count: nat, addr: array<Word>)
    requires addr.Length == 8
    modifies addr
    ensures AddrBits(addr[..]) ==
            if left then Shl(old(AddrBits(addr[..])), count) else Shr(old(AddrBits(addr[..])), count)
  {
    SwapBytes(addr);
    ShiftWords(left, count, addr);
    ghost var shifted := addr[..];
    SwapBytes(addr);
    SwapTwice(shifted);
  }

  /** The host part without the root's bits, shifted, with the root's bits set again. */
  function Shifted(left: bool, count: nat, root: Host, h: Host): Host {
    var bare := And(h, Not(root));
    Or(if left then Shl(bare, count) else Shr(bare, count), root)
  }

  /** First part of shift: what the root leaves free among the host bits. */
  method FreeBits(root: Addr) returns (result: array<Word>)
    ensures fresh(result) && result.Length == 8
    ensures forall j | 0 <= j < 8 :: result[j] == Kept(root, j)
  {
    var mask := new Word[8](_ => Zeros(16));
    result := new Word[8](_ => Zeros(16));
    for i := 0 to 8
      invariant forall j | 0 <= j < 8 :: mask[j] == Zeros(16)
      invariant forall j | 0 <= j < i :: result[j] == Not(Or(root[j], Zeros(16)))
    {
      result[i] := Not(Or(root[i], mask[i]));
    }
    for i := 0 to (128 - DIM) / 16
      invariant forall j | 0 <= j < i :: result[j] == Zeros(16)
      invariant forall j | i <= j < 8 :: result[j] == Not(Or(root[j], Zeros(16)))
    {
      result[i] := Zeros(16);
    }
  }

  /** Second part of shift: the host bits of the address that the root leaves free. */
  method BareHost(root: Addr, addr: array<Word>) returns (result: array<Word>)
    requires addr.Length == 8
    ensures fresh(result) && result.Length == 8
    ensures AddrBits(result[..]) == Zeros(64) + And(HostOf(addr[..]), Not(HostOf(root)))
  {
    result := FreeBits(root);
    ghost var free := result[..];
    for i := 0 to 8
      invariant forall j | 0 <= j < 8 :: result[j] == if j < i then And(free[j], addr[j]) else free[j]
    {
      result[i] := And(result[i], addr[i]);
    }
    BareBits(root, addr[..], result[..]);
  }

  /** Last part of shift: clear the network words again and set the root's bits. */
  method RestoreRoot(root: Addr, result: array<Word>)
    requires result.Length == 8
    modifies result
    ensures AddrBits(result[..]) == AddrBits(root)[..64] + Or(old(HostOf(result[..])), HostOf(root))
  {
    ghost var was := result[..];
    for i := 0 to (128 - DIM) / 16
      invariant forall j | 0 <= j < 8 :: result[j] == if j < i then Zeros(16) else was[j]
    {
      result[i] := Zeros(16);
    }
    ghost var cleared := result[..];
    for i := 0 to 8
      invariant forall j | 0 <= j < 8 :: result[j] == if j < i then Or(cleared[j], root[j]) else cleared[j]
    {
      result[i] := Or(result[i], root[i]);
    }
    RestoreBits(root, was, result[..]);
  }

  /** shift: the network part becomes the root's, the host part is shifted around the root's bit. */
  method Shift(left: bool, count: nat, root: Addr, addr: array<Word>)
    requires addr.Length == 8
    modifies addr
    ensures AddrBits(addr[..]) ==
            AddrBits(root)[..64] + Shifted(left, count, HostOf(root), old(HostOf(addr[..])))
  {
    ghost var bare := And(HostOf(addr[..]), Not(HostOf(root)));
    var result := BareHost(root, addr);
    SwapBytes(result);
    ShiftWords(left, count, result);
    ghost var moved := result[..];
    SwapBytes(result);
    SwapTwice(moved);
    HostOfShifted(left, count, bare, result[..]);
    RestoreRoot(root, result);
    CopyWords(result, addr);
  }

  /** memcpy of one address. */
  method CopyWords(from: array<Word>, to: array<Word>)
    requires from.Length == 8 && to.Length == 8 && from != to
    modifies to
    ensures to[..] == from[..]
  {
    forall i | 0 <= i < 8 {
      to[i] := from[i];
    }
  }

  lemma {:induction false} HostOfShifted(left: bool, count: nat, bare: Host, a: Addr)
    requires var all := Zeros(64) + bare; AddrBits(a) == if left then Shl(all, count) else Shr(all, count)
    ensures HostOf(a) == if left then Shl(bare, count) else Shr(bare, count)
  {
    if left {
      HostShl(bare, count);
    } else {
      HostShr(bare, count);
    }
  }

  lemma {:induction false} HostShl(bare: Host, count: nat)
    ensures Shl(Zeros(64) + bare, count)[64..] == Shl(bare, count)
  {
    var x, y := Shl(Zeros(64) + bare, count), Shl(bare, count);
    forall i | 0 <= i < 64
      ensures x[64 + i] == y[i]
    {
    }
  }

  lemma {:induction false} HostShr(bare: Host, count: nat)
    ensures Shr(Zeros(64) + bare, count)[64..] == Shr(bare, count)
  {
    var x, y := Shr(Zeros(64) + bare, count), Shr(bare, count);
    forall i | 0 <= i < 64
      ensures x[64 + i] == y[i]
    {
    }
  }

  /** What the complement of the root keeps of word j once the network words are cleared. */
  function Kept(root: Addr, j: nat): Word
    requires j < 8
  {
    if j < 4 then Zeros(16) else Not(Or(root[j], Zeros(16)))
  }

  lemma {:induction false} BareBit(root: Addr, was: Addr, result: Addr, k: nat)
    requires forall j | 0 <= j < 8 :: result[j] == And(Kept(root, j), was[j])
    requires k < 128
    ensures AddrBits(result)[k] == (k >= 64 && HostOf(was)[k - 64] && !HostOf(root)[k - 64])
  {
    AddrBitsAt(result, k);
    AddrBitsAt(was, k);
    AddrBitsAt(root, k);
  }

  lemma {:induction false} BareBits(root: Addr, was: Addr, result: Addr)
    requires forall j | 0 <= j < 8 :: result[j] == And(Kept(root, j), was[j])
    ensures AddrBits(result) == Zeros(64) + And(HostOf(was), Not(HostOf(root)))
  {
    var x, y := AddrBits(result), Zeros(64) + And(HostOf(was), Not(HostOf(root)));
    forall k | 0 <= k < 128
      ensures x[k] == y[k]
    {
      BareBit(root, was, result, k);
    }
  }

  lemma {:induction false} RestoreBits(root: Addr, was: Addr, result: Addr)
    requires forall j | 0 <= j < 8 :: result[j] == Or(if j < 4 then Zeros(16) else was[j], root[j])
    ensures AddrBits(result) == AddrBits(root)[..64] + Or(HostOf(was), HostOf(root))
  {
    forall k | 0 <= k < 128
      ensures AddrBits(result)[k] == (AddrBits(root)[..64] + Or(HostOf(was), HostOf(root)))[k]
    {
      RestoreBit(root, was, result, k);
    }
  }

  lemma {:induction false} RestoreBit(root: Addr, was: Addr, result: Addr, k: nat)
    requires k < 128 && forall j | 0 <= j < 8 :: result[j] == Or(if j < 4 then Zeros(16) else was[j], root[j])
    ensures AddrBits(result)[k] == ((k >= 64 && AddrBits(was)[k]) || AddrBits(root)[k])
  {
    AddrBitsAt(result, k);
    AddrBitsAt(root, k);
    AddrBitsAt(was, k);
  }

  lemma {:induction false} HostBit(a: Addr, w: nat, t: nat)
    requires 4 <= w < 8 && t < 16
    ensures HostOf(a)[16 * (w - 4) + t] == Swap(a[w])[t]
  {
    AddrBitsAt(a, 16 * w + t);
  }

  // ----- Toggling the child's bit -----

  /** Where htons moves bit j of a word. */
  function Across(j: nat): nat
    requires j < 16
  {
    if j < 8 then j + 8 else j - 8
  }

  lemma {:induction false} SwapOne(j: nat)
    requires j < 16
    ensures Swap(OneAt(j)) == OneAt(Across(j))
  {
  }

  /** Adding or subtracting one power of two toggles its bit. */
  lemma {:induction false} ToggleWord(w: Word, s: nat)
    requires s < 16
    ensures (if w[s] then Minus(w, OneAt(s)) else Plus(w, OneAt(s))) == w[s := !w[s]]
  {
    if w[s] {
      MinusContained(w, OneAt(s));
    } else {
      PlusDisjoint(w, OneAt(s));
    }
  }

  /** The part of send_pap that names the next child: toggle host bit primMask. */
  method ToggleChildBit(addr: array<Word>, primMask: nat)
    requires addr.Length == 8 && primMask < DIM
    modifies addr
    ensures HostOf(addr[..]) == Flip(old(HostOf(addr[..])), primMask)
    ensures AddrBits(addr[..])[..64] == old(AddrBits(addr[..])[..64])
  {
    ghost var was := addr[..];
    var bitIndex := 15 - primMask % 16;
    var wordIndex := 4 + primMask / 16;
    var mask := Swap(OneAt(15 - bitIndex));
    var aux := And(addr[wordIndex], mask);
    var power := OneAt(15 - bitIndex);
    SwapOne(primMask % 16);
    BitTest(addr[wordIndex], Across(primMask % 16));
    ToggleWord(addr[wordIndex], Across(primMask % 16));
    if aux != Zeros(16) {
      addr[wordIndex] := Minus(addr[wordIndex], Swap(power));
    } else {
      addr[wordIndex] := Plus(addr[wordIndex], Swap(power));
    }
    ToggledBits(was, addr[..], primMask);
  }

  lemma {:induction false} ToggledBits(was: Addr, now: Addr, m: nat)
    requires m < 64
    requires var w, s := 4 + m / 16, Across(m % 16); now == was[w := was[w][s := !was[w][s]]]
    ensures HostOf(now) == Flip(HostOf(was), m)
    ensures AddrBits(now)[..64] == AddrBits(was)[..64]
  {
    forall k | 0 <= k < 128
      ensures AddrBits(now)[k] == AddrBits(was)[64 + m := !AddrBits(was)[64 + m]][k]
    {
      ToggledBit(was, now, m, k);
    }
    assert AddrBits(now) == AddrBits(was)[64 + m := !AddrBits(was)[64 + m]];
  }

  lemma {:induction false} ToggledBit(was: Addr, now: Addr, m: nat, k: nat)
    requires m < 64 && k < 128
    requires var w, s := 4 + m / 16, Across(m % 16); now == was[w := was[w][s := !was[w][s]]]
    ensures AddrBits(now)[k] == if k == 64 + m then !AddrBits(was)[k] else AddrBits(was)[k]
  {
    AddrBitsAt(was, k);
    AddrBitsAt(now, k);
  }

  /** The word-by-word OR of one address into another. */
  method OrInto(addr: array<Word>, src: Addr)
    requires addr.Length == 8
    modifies addr
    ensures AddrBits(addr[..]) == Or(old(AddrBits(addr[..])), AddrBits(src))
  {
    ghost var was := addr[..];
    for j := 0 to 8
      invariant forall k | 0 <= k < 8 :: addr[k] == if k < j then Or(was[k], src[k]) else was[k]
    {
      addr[j] := Or(addr[j], src[j]);
    }
    OrBits(was, src, addr[..]);
  }

  lemma {:induction false} OrBits(a: Addr, b: Addr, r: Addr)
    requires forall k | 0 <= k < 8 :: r[k] == Or(a[k], b[k])
    ensures AddrBits(r) == Or(AddrBits(a), AddrBits(b))
  {
    forall k | 0 <= k < 128
      ensures AddrBits(r)[k] == Or(AddrBits(a), AddrBits(b))[k]
    {
      AddrBitsAt(a, k);
      AddrBitsAt(b, k);
      AddrBitsAt(r, k);
    }
  }

  // ----- Distances and prefix tests -----

  lemma {:induction false} MaskedDiffer(a: Word, b: Word, j: nat)
    requires j < 16
    ensures And(a, Swap(OneAt(j))) != And(b, Swap(OneAt(j))) <==> Swap(a)[j] != Swap(b)[j]
  {
    var x, y := And(a, Swap(OneAt(j))), And(b, Swap(OneAt(j)));
    assert x[Across(j)] == a[Across(j)] && y[Across(j)] == b[Across(j)];
    if a[Across(j)] == b[Across(j)] {
      assert x == y;
    }
  }

  /** Compare one bit of word i under the mask htons(2^j). */
  method MaskedCompare(dst: Addr, neigh: Addr, i: nat, j: nat) returns (differ: bool)
    requires 4 <= i < 8 && j < 16
    ensures differ == (HostOf(dst)[16 * (i - 4) + 15 - j] != HostOf(neigh)[16 * (i - 4) + 15 - j])
  {
    var mask := Swap(OneAt(15 - j));
    var aux1 := And(dst[i], mask);
    var aux2 := And(neigh[i], mask);
    MaskedDiffer(dst[i], neigh[i], 15 - j);
    HostBit(dst, i, 15 - j);
    HostBit(neigh, i, 15 - j);
    differ := aux1 != aux2;
  }

  lemma {:induction false} DiffLow(a: Host, b: Host, lo: nat, hi: nat)
    requires lo < hi <= 64
    ensures Diff(a, b, lo, hi) == (if a[lo] != b[lo] then 1 else 0) + Diff(a, b, lo + 1, hi)
  {
    DiffSplit(a, b, lo, lo + 1, hi);
    assert Diff(a, b, lo, lo + 1) == (if a[lo] != b[lo] then 1 else 0) + Diff(a, b, lo, lo);
  }

  /** The inner loop of dist and dist_w_mask: differing bits of one word, lowest bit first. */
  method WordDist(dst: Addr, neigh: Addr, i: nat) returns (count: nat)
    requires 4 <= i < 8
    ensures count == Diff(HostOf(dst), HostOf(neigh), 16 * (i - 4), 16 * (i - 4) + 16)
  {
    count := 0;
    ghost var top := 16 * (i - 4) + 16;
    for j := 0 to 16
      invariant count == Diff(HostOf(dst), HostOf(neigh), top - j, top)
    {
      var differ := MaskedCompare(dst, neigh, i, j);
      DiffLow(HostOf(dst), HostOf(neigh), top - j - 1, top);
      if differ {
        count := count + 1;
      }
    }
  }

  /** dist: the hypercube distance of two addresses. */
  method DistOf(dst: Addr, neigh: Addr) returns (count: nat)
    ensures count == Dist(HostOf(dst), HostOf(neigh))
  {
    count := 0;
    for i := 4 to 8
      invariant count == Diff(HostOf(dst), HostOf(neigh), 0, 16 * (i - 4))
    {
      var c := WordDist(dst, neigh, i);
      DiffSplit(HostOf(dst), HostOf(neigh), 0, 16 * (i - 4), 16 * (i - 4) + 16);
      count := count + c;
    }
  }

  /** dist_w_mask: the distance on the neighbour's first primMask bits. */
  method DistWMask(dst: Addr, neigh: Addr, primMask: nat) returns (count: nat)
    requires primMask <= 64
    ensures count == Diff(HostOf(dst), HostOf(neigh), 0, primMask)
  {
    var words := 4 + primMask / 16;
    var bits := 15 - primMask % 16;
    count := 0;
    for i := 4 to words
      invariant count == Diff(HostOf(dst), HostOf(neigh), 0, 16 * (i - 4))
    {
      var c := WordDist(dst, neigh, i);
      DiffSplit(HostOf(dst), HostOf(neigh), 0, 16 * (i - 4), 16 * (i - 4) + 16);
      count := count + c;
    }
    var j := 15;
    while j > bits
      invariant bits <= j <= 15
      invariant count == Diff(HostOf(dst), HostOf(neigh), 0, 16 * (words - 4) + 15 - j)
    {
      var differ := MaskedCompare(dst, neigh, words, j);
      if differ {
        count := count + 1;
      }
      j := j - 1;
    }
  }

  /** check_addr_space: 0 exactly when addr lies in the space (addr2, mask). */
  method CheckAddrSpace(addr: Addr, addr2: Addr, maskAddr: nat) returns (r: int)
    requires maskAddr <= 64
    ensures r == 0 || r == 1
    ensures r == 0 <==> Covers(Space(HostOf(addr2), maskAddr), HostOf(addr))
  {
    var words, bits := maskAddr / 16, maskAddr % 16;
    for i := 0 to words
      invariant Agree(HostOf(addr2), HostOf(addr), 16 * i)
    {
      if addr2[i + 4] != addr[i + 4] {
        WordsDiffer(addr, addr2, i + 4);
        return 1;
      }
      WordsAgree(addr, addr2, i + 4);
    }
    if bits > 0 {
      r := CheckLastWord(addr, addr2, words, bits);
    } else {
      r := 0;
    }
  }

  /** The second loop of check_addr_space, over the leading bits of the word after the whole ones. */
  method CheckLastWord(addr: Addr, addr2: Addr, words: nat, bits: nat) returns (r: int)
    requires words < 4 && bits < 16 && Agree(HostOf(addr2), HostOf(addr), 16 * words)
    ensures r == 0 || r == 1
    ensures r == 0 <==> Agree(HostOf(addr2), HostOf(addr), 16 * words + bits)
  {
    var mask := OneAt(0);
    ghost var a, b, base := HostOf(addr2), HostOf(addr), 16 * words;
    for j := 0 to bits
      invariant mask == MaskAt(j)
      invariant Agree(a, b, base + j)
    {
      var differ := LeadingCompare(addr2, addr, words + 4, mask, j);
      AgreeNext(a, b, base + j);
      if differ {
        AgreeLess(a, b, base + j + 1, base + bits);
        return 1;
      }
      MaskNext(j);
      mask := Shr(mask, 1);
    }
    return 0;
  }

  lemma {:induction false} AgreeNext(a: Host, b: Host, k: nat)
    requires k < 64 && Agree(a, b, k)
    ensures Agree(a, b, k + 1) <==> a[k] == b[k]
  {
  }

  lemma {:induction false} AgreeLess(a: Host, b: Host, k: nat, m: nat)
    requires k <= m
    ensures Agree(a, b, m) ==> Agree(a, b, k)
  {
  }

  method LeadingCompare(a: Addr, b: Addr, i: nat, mask: Word, ghost j: nat) returns (differ: bool)
    requires 4 <= i < 8 && j < 16 && mask == MaskAt(j)
    ensures differ == (HostOf(a)[16 * (i - 4) + j] != HostOf(b)[16 * (i - 4) + j])
  {
    differ := Swap(And(Swap(a[i]), mask)) != Swap(And(Swap(b[i]), mask));
    MaskedHigh(Swap(a[i]), Swap(b[i]), j);
    HostBit(a, i, j);
    HostBit(b, i, j);
  }

  /** The single-bit mask that starts at the top bit and moves right; it ends up empty. */
  function MaskAt(p: nat): Word {
    if p < 16 then OneAt(p) else Zeros(16)
  }

  lemma {:induction false} MaskNext(p: nat)
    ensures Shr(MaskAt(p), 1) == MaskAt(p + 1)
  {
  }

  lemma {:induction false} MaskedHigh(a: Word, b: Word, j: nat)
    requires j < 16
    ensures Swap(And(a, MaskAt(j))) != Swap(And(b, MaskAt(j))) <==> a[j] != b[j]
  {
    var x, y := And(a, MaskAt(j)), And(b, MaskAt(j));
    assert x[j] == a[j] && y[j] == b[j];
    assert Swap(x)[Across(j)] == x[j] && Swap(y)[Across(j)] == y[j];
    if a[j] == b[j] {
      assert x == y;
    }
  }

  lemma {:induction false} WordsDiffer(a: Addr, b: Addr, w: nat)
    requires 4 <= w < 8 && a[w] != b[w]
    ensures !Agree(HostOf(b), HostOf(a), 16 * (w - 4) + 16)
  {
    var t :| 0 <= t < 16 && a[w][t] != b[w][t];
    HostBit(a, w, Across(t));
    HostBit(b, w, Across(t));
  }

  lemma {:induction false} WordsAgree(a: Addr, b: Addr, w: nat)
    requires 4 <= w < 8 && a[w] == b[w] && Agree(HostOf(b), HostOf(a), 16 * (w - 4))
    ensures Agree(HostOf(b), HostOf(a), 16 * (w - 4) + 16)
  {
    forall i | 0 <= i < 64 && i < 16 * (w - 4) + 16
      ensures HostOf(b)[i] == HostOf(a)[i]
    {
      if i >= 16 * (w - 4) {
        HostBit(a, w, i - 16 * (w - 4));
        HostBit(b, w, i - 16 * (w - 4));
      }
    }
  }

  // ----- The successor test -----

  lemma {:induction false} MaskedBit(u: Word, v: Word, p: nat)
    ensures And(u, MaskAt(p)) == And(v, MaskAt(p)) <==> (p < 16 ==> u[p] == v[p])
    ensures And(u, MaskAt(p)) == Zeros(16) <==> (p < 16 ==> !u[p])
  {
    var x, y := And(u, MaskAt(p)), And(v, MaskAt(p));
    if p < 16 {
      assert x[p] == u[p] && y[p] == v[p];
    }
    if p < 16 ==> u[p] == v[p] {
      assert x == y;
    }
    if p < 16 ==> !u[p] {
      assert x == Zeros(16);
    }
  }

  /** aux1 and aux2 of check_succesor: do both words agree under the mask, and is the first one zero? */
  method Masked(u: Word, v: Word, mask: Word, ghost p: nat) returns (same: bool, zero: bool)
    requires mask == MaskAt(p)
    ensures same <==> (p < 16 ==> u[p] == v[p])
    ensures zero <==> (p < 16 ==> !u[p])
  {
    MaskedBit(u, v, p);
    var aux1, aux2 := And(u, mask), And(v, mask);
    same, zero := aux1 == aux2, aux1 == Zeros(16);
  }

  /** The first loop of check_succesor: move to the first differing bit j. */
  method FirstDifference(u: Word, v: Word) returns (mask: Word, j: nat, zero: bool)
    requires u != v
    ensures j < 16 && mask == MaskAt(j) && u[j] != v[j] && forall i | 0 <= i < j :: u[i] == v[i]
    ensures zero == !u[j]
  {
    var same;
    ghost var e: nat :| e < 16 && u[e] != v[e];
    mask, j := OneAt(0), 0;
    same, zero := Masked(u, v, mask, 0);
    while same
      invariant j <= e && mask == MaskAt(j)
      invariant forall i | 0 <= i < j :: u[i] == v[i]
      invariant same == (u[j] == v[j]) && zero == !u[j]
      decreases e - j
    {
      MaskNext(j);
      mask, j := Shr(mask, 1), j + 1;
      same, zero := Masked(u, v, mask, j);
    }
  }

  /** The second loop of check_succesor: the rest of the word is zero in both exactly when j gets to 16. */
  method RestZero(u: Word, v: Word, start: Word, d: nat) returns (j: nat)
    requires d < 16 && start == MaskAt(d + 1)
    ensures j == 16 <==> forall i | d < i < 16 :: !u[i] && !v[i]
  {
    var mask := start;
    j := d;
    var same, zero := Masked(u, v, mask, j + 1);
    while same && zero && j < 16
      invariant d <= j <= 16 && mask == MaskAt(j + 1)
      invariant forall i | d < i <= j && i < 16 :: !u[i] && !v[i]
      invariant same <==> (j + 1 < 16 ==> u[j + 1] == v[j + 1])
      invariant zero <==> (j + 1 < 16 ==> !u[j + 1])
      decreases 16 - j
    {
      MaskNext(j + 1);
      mask, j := Shr(mask, 1), j + 1;
      same, zero := Masked(u, v, mask, j + 1);
    }
  }

  /** The body of check_succesor for one differing word, in host order: d is the first differing bit. */
  method SuccessorWord(u: Word, v: Word) returns (ok: bool, flag: bool, d: nat)
    requires u != v
    ensures d < 16 && u[d] != v[d] && forall i | 0 <= i < d :: u[i] == v[i]
    ensures flag == !u[d]
    ensures ok <==> forall i | d < i < 16 :: !u[i] && !v[i]
  {
    var mask;
    mask, d, flag := FirstDifference(u, v);
    MaskNext(d);
    var j := RestZero(u, v, Shr(mask, 1), d);
    ok := j == 16;
  }

  /** check_succesor, for addresses whose host parts differ in at most one word. */
  method CheckSuccesor(own: Addr, neigh: Addr) returns (r: bool)
    requires forall i, j | 4 <= i < j < 8 :: own[i] == neigh[i] || own[j] == neigh[j]
    ensures r == Allocation.Successor(HostOf(own), HostOf(neigh))
  {
    var differentWords, succesorFlag := 0, false;
    for i := 4 to 8
      invariant differentWords == 0 ==> forall j | 4 <= j < i :: own[j] == neigh[j]
      invariant differentWords == 0 || differentWords == 1
      invariant differentWords == 1 ==> exists j | 4 <= j < i ::
                    own[j] != neigh[j] && succesorFlag == Allocation.Successor(HostOf(own), HostOf(neigh))
    {
      if own[i] != neigh[i] {
        differentWords := differentWords + 1;
        SwapInjective(own[i], neigh[i]);
        var ok, flag, d := SuccessorWord(Swap(own[i]), Swap(neigh[i]));
        WordDecides(own, neigh, i, d, ok, flag);
        succesorFlag := flag;
        if !ok {
          return false;
        }
      }
    }
    if differentWords == 0 {
      SameIsNoSuccessor(own, neigh);
    }
    return differentWords == 1 && succesorFlag;
  }

  lemma {:induction false} SwapInjective(a: Word, b: Word)
    requires a != b
    ensures Swap(a) != Swap(b)
  {
    assert Swap(Swap(a)) == a && Swap(Swap(b)) == b;
  }

  lemma {:induction false} HostAt(a: Addr, k: nat)
    requires k < 64
    ensures HostOf(a)[k] == Swap(a[4 + k / 16])[k % 16]
  {
    HostBit(a, 4 + k / 16, k % 16);
  }

  lemma {:induction false} WordDecides(own: Addr, neigh: Addr, w: nat, d: nat, ok: bool, flag: bool)
    requires 4 <= w < 8 && own[w] != neigh[w]
    requires forall j | 4 <= j < 8 && j != w :: own[j] == neigh[j]
    requires var u, v := Swap(own[w]), Swap(neigh[w]);
             && d < 16 && u[d] != v[d] && (forall i | 0 <= i < d :: u[i] == v[i])
             && flag == !u[d]
             && (ok <==> forall i | d < i < 16 :: !u[i] && !v[i])
    ensures Allocation.Successor(HostOf(own), HostOf(neigh)) == (ok && flag)
  {
    var a, b, k := HostOf(own), HostOf(neigh), 16 * (w - 4) + d;
    forall i | 0 <= i < 64
      ensures i / 16 == w - 4 ==> a[i] == Swap(own[w])[i % 16] && b[i] == Swap(neigh[w])[i % 16]
      ensures i / 16 != w - 4 ==> a[i] == b[i]
    {
      HostAt(own, i);
      HostAt(neigh, i);
    }
    forall i | 0 <= i < 16
      ensures a[16 * (w - 4) + i] == Swap(own[w])[i] && b[16 * (w - 4) + i] == Swap(neigh[w])[i]
    {
      HostBit(own, w, i);
      HostBit(neigh, w, i);
    }
    OneWordDecides(a, b, Swap(own[w]), Swap(neigh[w]), w - 4, d);
  }

  lemma {:induction false} OneWordDecides(a: Host, b: Host, u: Word, v: Word, g: nat, d: nat)
    requires g < 4 && d < 16
    requires forall i | 0 <= i < 64 && i / 16 != g :: a[i] == b[i]
    requires forall i | 0 <= i < 16 :: a[16 * g + i] == u[i] && b[16 * g + i] == v[i]
    requires u[d] != v[d] && forall i | 0 <= i < d :: u[i] == v[i]
    ensures Allocation.Successor(a, b) == (!u[d] && forall i | d < i < 16 :: !u[i] && !v[i])
  {
    var k := 16 * g + d;
    if !u[d] && forall i | d < i < 16 :: !u[i] && !v[i] {
      forall i | k < i < 16 * (k / 16) + 16
        ensures !a[i] && !b[i]
      {
        assert a[16 * g + (i - 16 * g)] == u[i - 16 * g];
      }
      forall i | 16 * (k / 16) <= i < k
        ensures a[i] == b[i]
      {
        assert a[16 * g + (i - 16 * g)] == u[i - 16 * g];
      }
      assert Allocation.SuccessorAt(a, b, k);
    }
    if Allocation.Successor(a, b) {
      var e :| 0 <= e < 64 && Allocation.SuccessorAt(a, b, e);
      assert a[16 * g + d] != b[16 * g + d];
      assert e / 16 == g;
      var f := e - 16 * g;
      assert a[16 * g + f] == u[f] && b[16 * g + f] == v[f];
      forall i | 0 <= i < f
        ensures u[i] == v[i]
      {
        assert a[16 * g + i] == b[16 * g + i];
      }
      assert f == d;
      forall i | d < i < 16
        ensures !u[i] && !v[i]
      {
        assert !a[16 * g + i] && !b[16 * g + i];
      }
    }
  }

  lemma {:induction false} SameIsNoSuccessor(own: Addr, neigh: Addr)
    requires forall j | 4 <= j < 8 :: own[j] == neigh[j]
    ensures !Allocation.Successor(HostOf(own), HostOf(neigh))
  {
    forall i | 0 <= i < 64
      ensures HostOf(own)[i] == HostOf(neigh)[i]
    {
      HostAt(own, i);
      HostAt(neigh, i);
    }
  }
}
