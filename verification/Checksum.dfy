/** The two Internet checksums: the fold loop of ping6.c and the fixed two-step fold of utils.c
    (RFC 1071, sections 1 and 2). */
module Checksum {
  import opened Bytes

  /** The one's-complement value of a sum: its end-around carries added until it fits 16 bits. */
  function Ones(sum: nat): (r: nat)
    ensures r < 0x1_0000
    ensures r == 0 <==> sum == 0
  {
    if sum == 0 then 0 else (sum - 1) % 0xffff + 1
  }

  /** It is the one 16-bit number that differs from the sum by a multiple of 65535 and is zero only for zero. */
  lemma {:induction false} OnesUnique(sum: nat, r: nat, k: nat)
    requires sum == r + 0xffff * k && r < 0x1_0000 && (r == 0 ==> sum == 0)
    ensures Ones(sum) == r
  {
  }

  lemma {:induction false} OnesRemainder(sum: nat) returns (k: nat)
    ensures sum == Ones(sum) + 0xffff * k
  {
    k := if sum == 0 then 0 else (sum - 1) / 0xffff;
  }

  /** Carries may be deferred or added early. */
  lemma {:induction false} OnesDeferred(a: nat, b: nat)
    ensures Ones(a + b) == Ones(Ones(a) + Ones(b))
  {
    var i := OnesRemainder(a);
    var j := OnesRemainder(b);
    var k := OnesRemainder(Ones(a) + Ones(b));
    assert a + b == Ones(Ones(a) + Ones(b)) + 0xffff * (i + j + k);
    OnesUnique(a + b, Ones(Ones(a) + Ones(b)), i + j + k);
  }

  // ----- Sums of words -----

  /** The little-endian words of a buffer, a left-over byte being a word of its own. */
  function Words(b: seq<byte>): (w: seq<nat>)
    ensures |w| == (|b| + 1) / 2
    ensures forall i | 0 <= i < |w| :: w[i] < 0x1_0000
  {
    if b == [] then []
    else if |b| == 1 then [b[0] as nat]
    else [b[0] as nat + 256 * b[1] as nat] + Words(b[2..])
  }

  function Sum(w: seq<nat>): nat {
    if w == [] then 0 else w[0] + Sum(w[1..])
  }

  lemma {:induction false} SumBound(w: seq<nat>)
    requires forall i | 0 <= i < |w| :: w[i] < 0x1_0000
    ensures Sum(w) <= 0xffff * |w|
  {
    if w != [] {
      SumBound(w[1..]);
    }
  }

  /** ntohs on a little-endian machine. */
  function Swap16(w: nat): (r: nat)
    requires w < 0x1_0000
    ensures r < 0x1_0000
  {
    w / 256 + 256 * (w % 256)
  }

  function Swapped(w: seq<nat>): (r: seq<nat>)
    requires forall i | 0 <= i < |w| :: w[i] < 0x1_0000
    ensures |r| == |w| && forall i | 0 <= i < |w| :: r[i] == Swap16(w[i])
  {
    if w == [] then [] else [Swap16(w[0])] + Swapped(w[1..])
  }

  lemma {:induction false} SwapScales(w: nat) returns (k: nat)
    requires w < 0x1_0000
    ensures 256 * w == Swap16(w) + 0xffff * k
    ensures Swap16(w) == 0 <==> w == 0
  {
    k := w / 256;
    assert w == 256 * (w / 256) + w % 256;
  }

  lemma {:induction false} SumSwapped(w: seq<nat>) returns (k: nat)
    requires forall i | 0 <= i < |w| :: w[i] < 0x1_0000
    ensures 256 * Sum(w) == Sum(Swapped(w)) + 0xffff * k
    ensures Sum(Swapped(w)) == 0 <==> Sum(w) == 0
  {
    if w == [] {
      k := 0;
    } else {
      var i := SwapScales(w[0]);
      var j := SumSwapped(w[1..]);
      k := i + j;
      assert Swapped(w)[1..] == Swapped(w[1..]);
    }
  }

  /** Summing byte-swapped words gives the byte-swapped result. */
  lemma {:induction false} ByteOrderIndependent(w: seq<nat>)
    requires forall i | 0 <= i < |w| :: w[i] < 0x1_0000
    ensures Ones(Sum(Swapped(w))) == Swap16(Ones(Sum(w)))
  {
    var k := SumSwapped(w);
    var i := OnesRemainder(Sum(w));
    var j := SwapScales(Ones(Sum(w)));
    var s, r := Sum(Swapped(w)), Swap16(Ones(Sum(w)));
    assert s + 0xffff * k == r + 0xffff * (j + 256 * i);
    SameOnes(s, k, r, j + 256 * i);
  }

  lemma {:induction false} SameOnes(s: nat, k: nat, r: nat, j: nat)
    requires s + 0xffff * k == r + 0xffff * j && r < 0x1_0000 && (r == 0 <==> s == 0)
    ensures Ones(s) == r
  {
    assert j < k ==> r >= s + 0xffff;
    OnesUnique(s, r, j - k);
  }

  /** The complement goes with the swap. */
  lemma {:induction false} ComplementSwaps(w: nat)
    requires w < 0x1_0000
    ensures Swap16(0xffff - w) == 0xffff - Swap16(w)
  {
    var h, l := w / 256, w % 256;
    assert 0xffff - w == 256 * (255 - h) + (255 - l);
  }

  // ----- The two implementations -----

  /** checksum (ping6.c). The sum is 32 bits wide. */
  method Checksum(b: seq<byte>) returns (answer: nat)
    ensures |b| <= 0x2_0002 ==> answer == 0xffff - Ones(Sum(Words(b)))
  {
    var sum: nat := AddWords(b);
    while sum / 0x1_0000 != 0
      invariant sum < 0x1_0000_0000
      invariant |b| <= 0x2_0002 ==> Ones(sum) == Ones(Sum(Words(b)))
      decreases sum
    {
      FoldStep(sum);
      sum := sum % 0x1_0000 + sum / 0x1_0000;
    }
    Small(sum);
    answer := 0xffff - sum;
  }

  lemma {:induction false} Small(sum: nat)
    requires sum < 0x1_0000
    ensures Ones(sum) == sum
  {
    OnesUnique(sum, sum, 0);
  }

  /** One turn of the fold loop keeps the value and makes the sum smaller. */
  lemma {:induction false} FoldStep(sum: nat)
    requires 0x1_0000 <= sum < 0x1_0000_0000
    ensures Ones(sum % 0x1_0000 + sum / 0x1_0000) == Ones(sum)
    ensures sum % 0x1_0000 + sum / 0x1_0000 < sum
  {
    var h, l := sum / 0x1_0000, sum % 0x1_0000;
    assert sum == l + h + 0xffff * h;
    var k := OnesRemainder(l + h);
    OnesUnique(sum, Ones(l + h), k + h);
  }

  /** The loop over the words, with 32-bit overflow. It adds up exactly for all buffers of at most 131074
      bytes; checksum's callers stay below that. */
  method AddWords(b: seq<byte>) returns (sum: nat)
    ensures sum < 0x1_0000_0000
    ensures |b| <= 0x2_0002 ==> sum == Sum(Words(b))
  {
    sum := 0;
    var i := 0;
    assert b[0..] == b;
    if |b| <= 0x2_0002 {
      TotalBound(b, false);
    }
    while |b| - i > 1
      invariant 0 <= i <= |b| && sum < 0x1_0000_0000
      invariant |b| <= 0x2_0002 ==> sum + Tail(b, i, false) == Tail(b, 0, false)
    {
      NextTail(b, i, false);
      sum := Add32(sum, b[i] as nat + 256 * b[i + 1] as nat);
      i := i + 2;
    }
    if |b| - i > 0 {
      LastByte(b, i);
      sum := Add32(sum, b[i] as nat);
    }
  }

  function Add32(a: nat, b: nat): (r: nat)
    ensures a + b < 0x1_0000_0000 ==> r == a + b
    ensures r < 0x1_0000_0000
  {
    (a + b) % 0x1_0000_0000
  }

  lemma {:induction false} TotalBound(b: seq<byte>, ntoh: bool)
    requires |b| <= 0x2_0002
    ensures Tail(b, 0, ntoh) < 0x1_0000_0000
  {
    assert b[0..] == b;
    SumBound(Words(b));
    SumBound(Swapped(Words(b)));
  }

  lemma {:induction false} LastByte(b: seq<byte>, i: nat)
    requires i + 1 == |b|
    ensures Tail(b, i, false) == b[i] as nat
  {
    assert b[i..] == [b[i]];
    assert Words(b[i..]) == [b[i] as nat];
    assert Sum([b[i] as nat]) == b[i] as nat + Sum([b[i] as nat][1..]);
  }

  // ----- cksum_sum (utils.c): the words are swapped before they are added -----

  function Even(b: seq<byte>): seq<byte> {
    b[..|b| - |b| % 2]
  }

  /** The byte of the last whole word that is still in ret's high byte when a single byte is left over. */
  function Stale(b: seq<byte>, ntoh: bool): nat {
    if |b| < 3 then 0 else b[|b| - if ntoh then 3 else 2] as nat
  }

  /** What the left-over byte adds: it replaces ret's low byte only. */
  function LeftOver(b: seq<byte>, ntoh: bool): nat {
    if |b| % 2 == 0 then 0 else b[|b| - 1] as nat + 256 * Stale(b, ntoh)
  }

  function WordsOf(b: seq<byte>, ntoh: bool): seq<nat> {
    if ntoh then Swapped(Words(b)) else Words(b)
  }

  function WordAt(b: seq<byte>, i: nat, ntoh: bool): (w: nat)
    requires i + 1 < |b|
    ensures w < 0x1_0000
  {
    var w := b[i] as nat + 256 * b[i + 1] as nat;
    if ntoh then Swap16(w) else w
  }

  method ReadWord(b: seq<byte>, i: nat, ntoh: bool) returns (ret: nat)
    requires i + 1 < |b|
    ensures ret == WordAt(b, i, ntoh)
  {
    ret := b[i] as nat + 256 * b[i + 1] as nat;
    if ntoh {
      ret := Swap16(ret);
    }
  }

  method CksumSum(b: seq<byte>, ntoh: bool) returns (sum: nat)
    ensures sum < 0x1_0000_0000
    ensures |b| <= 0x2_0002 ==> sum == Sum(WordsOf(Even(b), ntoh)) + LeftOver(b, ntoh)
  {
    sum := 0;
    var i, ret := 0, 0;
    ghost var e := Even(b);
    while |b| - i > 1
      invariant 0 <= i <= |e| && i % 2 == 0 && sum < 0x1_0000_0000
      invariant |b| <= 0x2_0002 ==> sum + Tail(e, i, ntoh) == Tail(e, 0, ntoh)
      invariant ret / 0x100 == High(b, i, ntoh)
    {
      NextSum(e, i, ntoh, sum);
      EvenWord(b, i, ntoh);
      ret := ReadWord(b, i, ntoh);
      sum := Add32(sum, ret);
      i := i + 2;
    }
    TailEnds(e, ntoh);
    if |b| - i == 1 {
      sum := AddLeftOver(b, ntoh, ret, sum);
    }
  }

  /** The high byte of ret after the first i bytes. */
  function High(b: seq<byte>, i: nat, ntoh: bool): nat
    requires i <= |b|
  {
    if i < 2 then 0 else b[i - if ntoh then 2 else 1] as nat
  }

  lemma {:induction false} EvenWord(b: seq<byte>, i: nat, ntoh: bool)
    requires i + 1 < |Even(b)|
    ensures WordAt(Even(b), i, ntoh) == WordAt(b, i, ntoh) && High(b, i + 2, ntoh) == WordAt(b, i, ntoh) / 0x100
  {
    HighByte(b[i] as nat, b[i + 1] as nat);
  }

  lemma {:induction false} HighByte(x: nat, y: nat)
    requires x < 0x100 && y < 0x100
    ensures (x + 256 * y) / 0x100 == y && Swap16(x + 256 * y) / 0x100 == x
  {
    assert (x + 256 * y) % 256 == x;
  }

  lemma {:induction false} TailEnds(e: seq<byte>, ntoh: bool)
    ensures Tail(e, 0, ntoh) == Sum(WordsOf(e, ntoh)) && Tail(e, |e|, ntoh) == 0
  {
    assert e[0..] == e && e[|e|..] == [];
  }

  method AddLeftOver(b: seq<byte>, ntoh: bool, ret: nat, sum: nat) returns (r: nat)
    requires |b| % 2 == 1 && ret / 0x100 == Stale(b, ntoh)
    ensures r < 0x1_0000_0000
    ensures |b| <= 0x2_0002 && sum == Sum(WordsOf(Even(b), ntoh)) ==> r == sum + LeftOver(b, ntoh)
  {
    EvenBound(b, ntoh);
    r := Add32(sum, b[|b| - 1] as nat + 256 * (ret / 0x100));
  }

  lemma {:induction false} EvenBound(b: seq<byte>, ntoh: bool)
    requires |b| % 2 == 1
    ensures |b| <= 0x2_0002 ==> Sum(WordsOf(Even(b), ntoh)) + LeftOver(b, ntoh) < 0x1_0000_0000
  {
    SumBound(WordsOf(Even(b), ntoh));
  }

  /** The words of a buffer of odd length, padded with a zero byte. */
  lemma {:induction false} PaddedSum(b: seq<byte>, ntoh: bool)
    requires |b| % 2 == 1
    ensures Sum(WordsOf(b, ntoh)) == Sum(WordsOf(Even(b), ntoh)) + Padded(b[|b| - 1] as nat, ntoh)
    decreases |b|
  {
    if |b| > 1 {
      var rest := b[2..];
      assert rest[|rest| - 1] == b[|b| - 1] && Even(b)[2..] == Even(rest);
      PaddedSum(rest, ntoh);
      HeadSum(b, ntoh);
      EvenWord(b, 0, ntoh);
      HeadSum(Even(b), ntoh);
    } else {
      PaddedOne(b, ntoh);
    }
  }

  /** The word of a left-over byte and a zero byte. */
  function Padded(last: nat, ntoh: bool): nat {
    if ntoh then 0x100 * last else last
  }

  lemma {:induction false} PaddedOne(b: seq<byte>, ntoh: bool)
    requires |b| == 1
    ensures Sum(WordsOf(b, ntoh)) == Padded(b[0] as nat, ntoh) && Sum(WordsOf(Even(b), ntoh)) == 0
  {
    assert Even(b) == [];
    assert WordsOf(b, ntoh) == [Padded(b[0] as nat, ntoh)];
    assert WordsOf(b, ntoh)[1..] == [];
  }

  lemma {:induction false} HeadSum(b: seq<byte>, ntoh: bool)
    requires |b| >= 2
    ensures Sum(WordsOf(b, ntoh)) == WordAt(b, 0, ntoh) + Sum(WordsOf(b[2..], ntoh))
  {
    var w := Words(b);
    assert w[1..] == Words(b[2..]) && Swapped(w)[1..] == Swapped(w[1..]);
  }

  /** RFC 1071 pads a buffer of odd length with a zero byte. The sum has that value if and only if the stale
      byte is zero and, when words are swapped, so is the last byte, which lands in the wrong half. */
  lemma {:induction false} OddExact(b: seq<byte>, ntoh: bool)
    requires |b| % 2 == 1
    ensures Ones(Sum(WordsOf(Even(b), ntoh)) + LeftOver(b, ntoh)) == Ones(Sum(WordsOf(b, ntoh))) <==>
            Stale(b, ntoh) == 0 && (ntoh ==> b[|b| - 1] == 0)
  {
    PaddedSum(b, ntoh);
    var even, last, stale := Sum(WordsOf(Even(b), ntoh)), b[|b| - 1] as nat, Stale(b, ntoh);
    StaleExact(last, stale, ntoh);
    OnesApart(even + (last + 0x100 * stale), even + Padded(last, ntoh));
  }

  lemma {:induction false} StaleExact(last: nat, stale: nat, ntoh: bool)
    requires last < 0x100 && stale < 0x100
    ensures -0xffff < last + 0x100 * stale - Padded(last, ntoh) < 0xffff
    ensures last + 0x100 * stale == Padded(last, ntoh) <==> stale == 0 && (ntoh ==> last == 0)
  {
  }

  /** Sums less than 65535 apart have the same value only if they are equal. */
  lemma {:induction false} OnesApart(x: nat, y: nat)
    requires -0xffff < x - y < 0xffff
    ensures Ones(x) == Ones(y) <==> x == y
  {
    var i := OnesRemainder(x);
    var j := OnesRemainder(y);
    if Ones(x) == Ones(y) {
      assert x - y == 0xffff * (i - j);
    }
  }

  function Tail(b: seq<byte>, i: nat, ntoh: bool): nat
    requires i <= |b|
  {
    Sum(WordsOf(b[i..], ntoh))
  }

  lemma {:induction false} NextTail(b: seq<byte>, i: nat, ntoh: bool)
    requires i + 1 < |b|
    ensures Tail(b, i, ntoh) == WordAt(b, i, ntoh) + Tail(b, i + 2, ntoh)
  {
    assert b[i..][2..] == b[i + 2..];
    HeadSum(b[i..], ntoh);
  }

  /** The next word keeps the total, which fits 32 bits. */
  lemma {:induction false} NextSum(b: seq<byte>, i: nat, ntoh: bool, sum: nat)
    requires i + 1 < |b|
    ensures |b| <= 0x2_0002 && sum + Tail(b, i, ntoh) == Tail(b, 0, ntoh) ==>
              Add32(sum, WordAt(b, i, ntoh)) + Tail(b, i + 2, ntoh) == Tail(b, 0, ntoh)
  {
    NextTail(b, i, ntoh);
    if |b| <= 0x2_0002 {
      TotalBound(b, ntoh);
    }
  }

  /** The fixed fold at the end of icmpv6_cksum and udp_cksum. */
  method TwoStepFold(sum: nat) returns (val: nat)
    requires sum < 0x1_0000_0000
    ensures val == 0xffff - Ones(sum)
  {
    var s := sum / 0x1_0000 + sum % 0x1_0000;
    s := s + s / 0x1_0000;
    TwoSteps(sum);
    val := 0xffff - s % 0x1_0000;
  }

  /** Two steps are enough for every 32-bit sum. */
  lemma {:induction false} TwoSteps(sum: nat)
    requires sum < 0x1_0000_0000
    ensures var s := sum / 0x1_0000 + sum % 0x1_0000;
            (s + s / 0x1_0000) % 0x1_0000 == Ones(sum)
  {
    var h, l := sum / 0x1_0000, sum % 0x1_0000;
    var s := h + l;
    var c := s / 0x1_0000;
    assert sum == s + 0xffff * h;
    assert c <= 1;
    var r := (s + c) % 0x1_0000;
    if c == 1 {
      assert s + 1 == r + 0x1_0000;
      OnesUnique(sum, r, h + 1);
    } else {
      OnesUnique(sum, s, h);
    }
  }

  /** The loop over words as they lie in memory and the two-step fold over words in host order agree, up to
      the byte order of the result, on every even buffer. */
  lemma {:induction false} ChecksumsAgree(b: seq<byte>)
    requires |b| % 2 == 0
    ensures 0xffff - Ones(Sum(Swapped(Words(b)))) == Swap16(0xffff - Ones(Sum(Words(b))))
  {
    ByteOrderIndependent(Words(b));
    ComplementSwaps(Ones(Sum(Words(b))));
  }
}
