/** 16-bit words as C sees them: their bits, most significant first, with the operators that the
    address code applies to them. */
module Words {
  import opened Hypercube

  type Word = w: seq<bool> | |w| == 16 witness seq(16, _ => false)

  /** The word whose only set bit is bit j (counted from the top): 2 to the power 15 - j. */
  function OneAt(j: nat): (w: Word)
    requires j < 16
    ensures forall i | 0 <= i < 16 :: w[i] == (i == j)
  {
    Zeros(j) + [true] + Zeros(15 - j)
  }

  function And(a: seq<bool>, b: seq<bool>): (r: seq<bool>)
    requires |a| == |b|
    ensures |r| == |a| && forall i | 0 <= i < |a| :: r[i] == (a[i] && b[i])
  {
    seq(|a|, i requires 0 <= i < |a| => a[i] && b[i])
  }

  function Or(a: seq<bool>, b: seq<bool>): (r: seq<bool>)
    requires |a| == |b|
    ensures |r| == |a| && forall i | 0 <= i < |a| :: r[i] == (a[i] || b[i])
  {
    seq(|a|, i requires 0 <= i < |a| => a[i] || b[i])
  }

  function Not(a: seq<bool>): (r: seq<bool>)
    ensures |r| == |a| && forall i | 0 <= i < |a| :: r[i] == !a[i]
  {
    seq(|a|, i requires 0 <= i < |a| => !a[i])
  }

  /** Shift left by k, losing the top bits. */
  function Shl(b: seq<bool>, k: nat): (r: seq<bool>)
    ensures |r| == |b|
    ensures forall i | 0 <= i < |b| :: r[i] == (i + k < |b| && b[i + k])
  {
    (b + Zeros(k))[k..]
  }

  /** Logical shift right by k, losing the low bits. */
  function Shr(b: seq<bool>, k: nat): (r: seq<bool>)
    ensures |r| == |b|
    ensures forall i | 0 <= i < |b| :: r[i] == (i >= k && b[i - k])
  {
    (Zeros(k) + b)[..|b|]
  }

  /** Ripple-carry addition modulo two to the width; the result carries its overflow in front. */
  function AddCarry(a: seq<bool>, b: seq<bool>): (r: seq<bool>)
    requires |a| == |b|
    ensures |r| == |a| + 1
    decreases |a|
  {
    if a == [] then [false]
    else
      var low := AddCarry(a[1..], b[1..]);
      var x, y, c := a[0], b[0], low[0];
      [(x && y) || (x && c) || (y && c), (x != y) != c] + low[1..]
  }

  function Plus(a: seq<bool>, b: seq<bool>): (r: seq<bool>)
    requires |a| == |b|
    ensures |r| == |a|
  {
    AddCarry(a, b)[1..]
  }

  /** Subtraction is addition of the two's complement. */
  function SubBorrow(a: seq<bool>, b: seq<bool>): (r: seq<bool>)
    requires |a| == |b|
    ensures |r| == |a| + 1
    decreases |a|
  {
    if a == [] then [false]
    else
      var low := SubBorrow(a[1..], b[1..]);
      var x, y, c := a[0], b[0], low[0];
      [(!x && y) || (!x && c) || (y && c), (x != y) != c] + low[1..]
  }

  function Minus(a: seq<bool>, b: seq<bool>): (r: seq<bool>)
    requires |a| == |b|
    ensures |r| == |a|
  {
    SubBorrow(a, b)[1..]
  }

  /** Without common bits no carry arises, and the sum is the union of the bits. */
  lemma {:induction false} PlusDisjoint(a: seq<bool>, b: seq<bool>)
    requires |a| == |b| && forall i | 0 <= i < |a| :: !(a[i] && b[i])
    ensures !AddCarry(a, b)[0]
    ensures forall i | 0 <= i < |a| :: Plus(a, b)[i] == (a[i] || b[i])
  {
    if a != [] {
      PlusDisjoint(a[1..], b[1..]);
      assert Plus(a, b) == [a[0] || b[0]] + Plus(a[1..], b[1..]);
    }
  }

  lemma {:induction false} MinusHead(a: seq<bool>, b: seq<bool>)
    requires |a| == |b| > 0 && !SubBorrow(a[1..], b[1..])[0] && (b[0] ==> a[0])
    ensures !SubBorrow(a, b)[0] && Minus(a, b) == [a[0] && !b[0]] + Minus(a[1..], b[1..])
  {
  }

  /** Taking away bits that are there borrows nothing. */
  lemma {:induction false} MinusContained(a: seq<bool>, b: seq<bool>)
    requires |a| == |b| && forall i | 0 <= i < |a| && b[i] :: a[i]
    ensures !SubBorrow(a, b)[0]
    ensures forall i | 0 <= i < |a| :: Minus(a, b)[i] == (a[i] && !b[i])
  {
    if a != [] {
      MinusContained(a[1..], b[1..]);
      MinusHead(a, b);
    }
  }

  /** htons on a little-endian machine, as the shift functions spell it. */
  function Swap(w: Word): (r: Word)
    ensures forall i | 0 <= i < 16 :: r[i] == w[if i < 8 then i + 8 else i - 8]
  {
    var high := Shr(And(w, HighByte()), 8);
    var low := Shl(And(w, LowByte()), 8);
    PlusDisjoint(high, low);
    Plus(high, low)
  }

  function HighByte(): Word {
    Ones(8) + Zeros(8)
  }

  function LowByte(): Word {
    Zeros(8) + Ones(8)
  }

  function Ones(n: nat): (s: seq<bool>)
    ensures |s| == n && forall i | 0 <= i < n :: s[i]
  {
    seq(n, _ => true)
  }

  // ----- The value of a bit string, and what shifting does to it -----

  function Num(b: seq<bool>): nat {
    if b == [] then 0 else 2 * Num(b[..|b| - 1]) + if b[|b| - 1] then 1 else 0
  }

  lemma {:induction false} NumBound(b: seq<bool>)
    ensures Num(b) < Pow2(|b|)
  {
    if b != [] {
      NumBound(b[..|b| - 1]);
    }
  }

  lemma {:induction false} NumTop(b: seq<bool>)
    requires b != []
    ensures Num(b) == (if b[0] then Pow2(|b| - 1) else 0) + Num(b[1..])
  {
    if |b| > 1 {
      NumTop(b[..|b| - 1]);
      assert b[..|b| - 1][1..] == b[1..][..|b| - 2];
    } else {
      assert b[..0] == [] && b[1..] == [];
    }
  }

  /** A left shift multiplies by 2^k modulo the width. */
  lemma {:induction false} ShlIsTimes(b: seq<bool>, k: nat)
    ensures Num(Shl(b, k)) == (Num(b) * Pow2(k)) % Pow2(|b|)
    decreases k
  {
    NumBound(b);
    if k == 0 || b == [] {
      assert Shl(b, k) == b;
      SmallModulo(Num(b), Pow2(k), Pow2(|b|), b == []);
    } else {
      ShlIsTimes(b, k - 1);
      ShlOnce(Shl(b, k - 1));
      assert Shl(b, k) == Shl(Shl(b, k - 1), 1);
      DoubleProduct(Num(b), Pow2(k - 1), Pow2(|b|));
    }
  }

  lemma {:induction false} SmallModulo(x: nat, p: nat, m: nat, empty: bool)
    requires x < m && if empty then m == 1 else p == 1
    ensures x == (x * p) % m
  {
    if empty {
      assert x * p == 0;
    }
  }

  lemma {:induction false} DoubleProduct(x: nat, p: nat, m: nat)
    requires m > 0
    ensures (2 * ((x * p) % m)) % m == (x * (2 * p)) % m
  {
    DoubleModulo(x * p, m);
    MulTwo(x, p);
  }

  lemma {:induction false} MulTwo(x: nat, y: nat)
    ensures 2 * (x * y) == x * (2 * y)
  {
  }

  lemma {:induction false} ShlOnce(s: seq<bool>)
    requires s != []
    ensures Num(Shl(s, 1)) == (2 * Num(s)) % Pow2(|s|)
  {
    NumTop(s);
    NumBound(s[1..]);
    assert Shl(s, 1) == s[1..] + [false];
    assert (s[1..] + [false])[..|s| - 1] == s[1..];
    WrapTwice(Num(s), Num(s[1..]), Pow2(|s| - 1));
  }

  lemma {:induction false} WrapTwice(x: nat, y: nat, h: nat)
    requires y < h && (x == y || x == h + y)
    ensures (2 * x) % (2 * h) == 2 * y
  {
    if x == y {
      assert 2 * x == 0 * (2 * h) + 2 * y;
    } else {
      assert 2 * x == 1 * (2 * h) + 2 * y;
    }
    ModuloUnique(2 * x, 2 * h, if x == y then 0 else 1, 2 * y);
  }

  lemma {:induction false} ModuloUnique(x: nat, m: nat, q: nat, r: nat)
    requires r < m && x == q * m + r
    ensures x % m == r && x / m == q
  {
    var q', r' := x / m, x % m;
    assert x == q' * m + r';
    MulStep(q, q', m);
    MulStep(q', q, m);
  }

  lemma {:induction false} MulStep(p: nat, q: nat, m: nat)
    ensures p < q ==> p * m + m <= q * m
  {
    if p < q {
      var d := q - p - 1;
      assert q == p + 1 + d;
      assert q * m == p * m + m + d * m;
    }
  }

  lemma {:induction false} DoubleModulo(x: nat, m: nat)
    requires m > 0
    ensures (2 * (x % m)) % m == (2 * x) % m
  {
    var q, r := x / m, x % m;
    assert x == q * m + r;
    var q2, r2 := (2 * r) / m, (2 * r) % m;
    assert 2 * r == q2 * m + r2;
    TwiceQuotient(q, q2, m);
    ModuloUnique(2 * x, m, 2 * q + q2, r2);
  }

  lemma {:induction false} TwiceQuotient(q: nat, q2: nat, m: nat)
    ensures (2 * q + q2) * m == 2 * (q * m) + q2 * m
  {
  }

  /** A right shift divides by 2^k. */
  lemma {:induction false} ShrIsDivide(b: seq<bool>, k: nat)
    ensures Num(Shr(b, k)) == Num(b) / Pow2(k)
    decreases k
  {
    if k == 0 {
      assert Shr(b, 0) == b;
    } else if b != [] {
      ShrIsDivide(b, k - 1);
      var s := Shr(b, k - 1);
      assert Shr(b, k) == [false] + s[..|s| - 1];
      NumTop([false] + s[..|s| - 1]);
      assert ([false] + s[..|s| - 1])[1..] == s[..|s| - 1];
      assert Num(Shr(b, k)) == Num(s) / 2;
      HalfQuotient(Num(b), Pow2(k - 1));
    }
  }

  lemma {:induction false} HalfQuotient(x: nat, m: nat)
    requires m > 0
    ensures (x / m) / 2 == x / (2 * m)
  {
    var q, r := x / m, x % m;
    assert x == q * m + r;
    var h, e := q / 2, q % 2;
    assert x == h * (2 * m) + (e * m + r) by {
      assert q == 2 * h + e;
      assert q * m == (2 * h + e) * m == h * (2 * m) + e * m;
    }
    assert e * m + r < 2 * m by {
      assert e == 0 || e == 1;
    }
    ModuloUnique(x, 2 * m, h, e * m + r);
  }
}
