/** Building a netlink message in a buffer and parsing it again (nlmsg.c, attr.c). */
module Messages {
  import opened Bytes
  import opened Attributes

  /** A nest that has been started and not ended: where its header is, its type, the attributes before it,
      and the message as it was. */
  datatype Level = Level(start: nat, typ: nat, before: seq<Attr>, message: seq<byte>)

  /** Where the attributes of the innermost open nest begin. */
  function Base(start: nat, open: seq<Level>): nat {
    if open == [] then start else open[|open| - 1].start + HDRLEN
  }

  /** Every open nest has its header in place, behind the attributes before it and the old message. */
  predicate Nested(b: seq<byte>, start: nat, open: seq<Level>)
    decreases |open|
  {
    if open == [] then NLMSG_HDRLEN <= start <= |b| < 0x7fff_0000 && Aligned(start)
    else
      var rest, l := open[..|open| - 1], open[|open| - 1];
      NestedOne(b, Base(start, rest), l) && Nested(b, start, rest)
  }

  predicate NestedOne(b: seq<byte>, base: nat, l: Level) {
    && NLMSG_HDRLEN <= l.start && Aligned(l.start) && l.start + HDRLEN <= |b|
    && U16(b, l.start + 2) == l.typ
    && Holds(b, base, l.start, l.before)
    && |l.message| == l.start && l.message[4..] == b[4..l.start] && U32(l.message, 0) == l.start
  }

  lemma {:induction false} NestedOneFrame(b: seq<byte>, c: seq<byte>, base: nat, l: Level)
    requires 4 <= base && NestedOne(b, base, l) && |c| == |b| && b[4..l.start + HDRLEN] == c[4..l.start + HDRLEN]
    ensures NestedOne(c, base, l)
  {
    var s := l.start;
    SliceSlice(b, 4, s + 4, s + 2 - 4, s + 4 - 4);
    SliceSlice(c, 4, s + 4, s + 2 - 4, s + 4 - 4);
    SameU16(b, s + 2, c, s + 2);
    SliceSlice(b, 4, s + 4, base - 4, s - 4);
    SliceSlice(c, 4, s + 4, base - 4, s - 4);
    HoldsFrame(b, c, base, s, l.before);
    SliceSlice(b, 4, s + 4, 0, s - 4);
    SliceSlice(c, 4, s + 4, 0, s - 4);
  }

  /** The open nests only depend on the bytes before the innermost one's attributes. */
  lemma {:induction false} NestedFrame(b: seq<byte>, c: seq<byte>, start: nat, open: seq<Level>)
    requires Nested(b, start, open) && |c| == |b|
    requires 4 <= Base(start, open) <= |b| && b[4..Base(start, open)] == c[4..Base(start, open)]
    ensures Nested(c, start, open)
    decreases |open|
  {
    if open != [] {
      var rest, l := open[..|open| - 1], open[|open| - 1];
      InnerFrame(b, c, start, rest, l);
      NestedFrame(b, c, start, rest);
    }
  }

  /** One open nest, with the others below it. */
  lemma {:induction false} InnerFrame(b: seq<byte>, c: seq<byte>, start: nat, rest: seq<Level>, l: Level)
    requires Nested(b, start, rest) && NestedOne(b, Base(start, rest), l) && |c| == |b|
    requires b[4..l.start + HDRLEN] == c[4..l.start + HDRLEN]
    ensures NestedOne(c, Base(start, rest), l)
    ensures 4 <= Base(start, rest) <= |b| && b[4..Base(start, rest)] == c[4..Base(start, rest)]
  {
    GoodBounds(b, start, rest);
    NestedOneFrame(b, c, Base(start, rest), l);
    PrefixAgrees(b, c, l.start + HDRLEN, Base(start, rest));
  }

  lemma {:induction false} PrefixAgrees(b: seq<byte>, c: seq<byte>, n: nat, k: nat)
    requires 4 <= k <= n <= |b| == |c| && b[4..n] == c[4..n]
    ensures b[4..k] == c[4..k]
  {
    SliceSlice(b, 4, n, 0, k - 4);
    SliceSlice(c, 4, n, 0, k - 4);
  }

  /** NLA_F_NESTED | type. */
  function NestType(typ: nat): nat {
    if typ < NLA_F_NESTED then NLA_F_NESTED + typ else typ
  }

  /** What mnl_attr_put writes at position t: the length field is 16 bits wide. */
  predicate Written(b: seq<byte>, t: nat, typ: nat, data: seq<byte>) {
    && t + HDRLEN + |data| <= |b|
    && U16(b, t) == (HDRLEN + |data|) % 0x1_0000 && U16(b, t + 2) == typ
    && b[t + HDRLEN..t + HDRLEN + |data|] == data
  }

  /** An attribute that was put is read back exactly when its length fits the 16-bit field. */
  lemma {:induction false} PutExactly(b: seq<byte>, t: nat, typ: nat, data: seq<byte>, end: nat)
    requires Written(b, t, typ, data) && end == t + Align((HDRLEN + |data|) % 0x1_0000) <= |b|
    ensures Parse(b, t, end) == [Attr(typ, data)] <==> HDRLEN + |data| < 0x1_0000
  {
    var n := U16(b, t);
    if HDRLEN + |data| < 0x1_0000 {
      assert HoldsOne(b, t, end, Attr(typ, data));
      assert Holds(b, t, end, [Attr(typ, data)]);
      HoldsParse(b, t, end, [Attr(typ, data)]);
    } else if AttrOk(b, t, end) {
      assert |b[t + HDRLEN..t + n]| != |data|;
      assert Parse(b, t, end)[0].payload == b[t + HDRLEN..t + n];
    }
  }

  /** The whole state as a value: the bytes, the length of the message, and what it is meant to hold. */
  predicate Good(b: seq<byte>, t: nat, start: nat, attrs: seq<Attr>, open: seq<Level>) {
    Aligned(t) && Holds(b, Base(start, open), t, attrs) && Nested(b, start, open)
  }

  lemma {:induction false} GoodBounds(b: seq<byte>, start: nat, open: seq<Level>)
    requires Nested(b, start, open)
    ensures NLMSG_HDRLEN <= start && NLMSG_HDRLEN <= Base(start, open) <= |b| < 0x7fff_0000
    ensures Aligned(start) && Aligned(Base(start, open))
    decreases |open|
  {
    if open != [] {
      GoodBounds(b, start, open[..|open| - 1]);
      assert NestedOne(b, Base(start, open[..|open| - 1]), open[|open| - 1]);
    }
  }

  /** What lies below the length of the message is not touched by adding something behind it. */
  lemma {:induction false} BelowUntouched(b: seq<byte>, c: seq<byte>, start: nat, attrs: seq<Attr>, open: seq<Level>, t: nat)
    requires Good(b, t, start, attrs, open) && |c| == |b| && c[4..t] == b[4..t]
    ensures Holds(c, Base(start, open), t, attrs) && Nested(c, start, open)
  {
    GoodBounds(b, start, open);
    var k := Base(start, open);
    SliceSlice(b, 4, t, k - 4, t - 4);
    SliceSlice(c, 4, t, k - 4, t - 4);
    HoldsFrame(b, c, k, t, attrs);
    SliceSlice(b, 4, t, 0, k - 4);
    SliceSlice(c, 4, t, 0, k - 4);
    NestedFrame(b, c, start, open);
  }

  lemma {:induction false} WrittenHolds(c: seq<byte>, t: nat, a: Attr, end: nat)
    requires Written(c, t, a.typ, a.payload) && HDRLEN + |a.payload| < 0x1_0000
    requires end == t + Align(HDRLEN + |a.payload|) <= |c|
    ensures HoldsOne(c, t, end, a)
  {
  }

  lemma {:induction false} AppendHolds(c: seq<byte>, k: nat, t: nat, attrs: seq<Attr>, a: Attr, end: nat)
    requires Holds(c, k, t, attrs) && Aligned(t)
    requires HDRLEN + |a.payload| < 0x1_0000 && Written(c, t, a.typ, a.payload)
    requires end == t + Align(HDRLEN + |a.payload|) <= |c|
    ensures Holds(c, k, end, attrs + [a]) && Aligned(end)
  {
    AlignSum(t, HDRLEN + |a.payload|);
    WrittenHolds(c, t, a, end);
    HoldsAppend(c, k, t, end, attrs, a);
  }

  lemma {:induction false} AppendGood(b: seq<byte>, c: seq<byte>, t: nat, start: nat, attrs: seq<Attr>, open: seq<Level>, a: Attr, end: nat)
    requires Good(b, t, start, attrs, open) && |c| == |b| && c[4..t] == b[4..t]
    requires HDRLEN + |a.payload| < 0x1_0000 && Written(c, t, a.typ, a.payload)
    requires end == t + Align(HDRLEN + |a.payload|) <= |c|
    ensures Good(c, end, start, attrs + [a], open)
  {
    BelowUntouched(b, c, start, attrs, open, t);
    AppendHolds(c, Base(start, open), t, attrs, a, end);
  }

  lemma {:induction false} StartOne(b: seq<byte>, c: seq<byte>, t: nat, base: nat, l: Level)
    requires NLMSG_HDRLEN <= t && Aligned(t) && t + HDRLEN <= |c| == |b| && c[4..t] == b[4..t] && U32(b, 0) == t
    requires l.start == t && U16(c, t + 2) == l.typ && l.message == b[..t] && Holds(c, base, t, l.before)
    ensures NestedOne(c, base, l)
  {
    SliceSlice(b, 0, t, 0, 4);
    SameU32(b[..t], 0, b, 0);
    SliceSlice(b, 0, t, 4, t);
  }

  lemma {:induction false} StartGood(b: seq<byte>, c: seq<byte>, t: nat, start: nat, attrs: seq<Attr>, open: seq<Level>, l: Level)
    requires Good(b, t, start, attrs, open) && t + HDRLEN <= |c| == |b| && c[4..t] == b[4..t] && U32(b, 0) == t
    requires U16(c, t + 2) == l.typ && l == Level(t, l.typ, attrs, b[..t])
    ensures Good(c, t + HDRLEN, start, [], open + [l])
  {
    BelowUntouched(b, c, start, attrs, open, t);
    StartOne(b, c, t, Base(start, open), l);
    Pushed(c, start, open, l);
    AlignSum(t, HDRLEN);
    assert Holds(c, t + HDRLEN, t + HDRLEN, []);
  }

  lemma {:induction false} Pushed(c: seq<byte>, start: nat, open: seq<Level>, l: Level)
    requires Nested(c, start, open) && NestedOne(c, Base(start, open), l)
    ensures Nested(c, start, open + [l]) && Base(start, open + [l]) == l.start + HDRLEN
  {
    var all := open + [l];
    assert all[..|all| - 1] == open && all[|all| - 1] == l;
  }

  /** What lies below the innermost open nest. */
  lemma {:induction false} OuterUntouched(b: seq<byte>, c: seq<byte>, start: nat, open: seq<Level>)
    requires open != [] && Nested(b, start, open) && |c| == |b|
    requires open[|open| - 1].start <= |b| && 4 <= open[|open| - 1].start
    requires c[4..open[|open| - 1].start] == b[4..open[|open| - 1].start]
    ensures var l, rest := open[|open| - 1], open[..|open| - 1];
            && NLMSG_HDRLEN <= Base(start, rest) <= l.start
            && Holds(c, Base(start, rest), l.start, l.before) && Nested(c, start, rest)
  {
    var l, rest := open[|open| - 1], open[..|open| - 1];
    var s, k := l.start, Base(start, rest);
    GoodBounds(b, start, rest);
    SliceSlice(b, 4, s, k - 4, s - 4);
    SliceSlice(c, 4, s, k - 4, s - 4);
    HoldsFrame(b, c, k, s, l.before);
    SliceSlice(b, 4, s, 0, k - 4);
    SliceSlice(c, 4, s, 0, k - 4);
    NestedFrame(b, c, start, rest);
  }

  /** The innermost open nest lies inside the message. */
  lemma {:induction false} TopNest(b: seq<byte>, t: nat, start: nat, attrs: seq<Attr>, open: seq<Level>)
    requires Good(b, t, start, attrs, open) && open != []
    ensures var l := open[|open| - 1];
            && NLMSG_HDRLEN <= l.start && Aligned(l.start) && l.start + HDRLEN <= t
            && U16(b, l.start + 2) == l.typ && |l.message| == l.start
            && l.message[4..] == b[4..l.start] && U32(l.message, 0) == l.start
  {
    assert NestedOne(b, Base(start, open[..|open| - 1]), open[|open| - 1]);
  }

  lemma {:induction false} EndHolds(b: seq<byte>, c: seq<byte>, k: nat, l: Level, t: nat)
    requires l.start + HDRLEN <= t <= |b| == |c| && U16(b, l.start + 2) == l.typ
    requires t - l.start < 0x1_0000 && U16(c, l.start) == t - l.start && c[l.start + 2..t] == b[l.start + 2..t]
    requires Aligned(l.start) && Aligned(t) && Holds(c, k, l.start, l.before)
    ensures Holds(c, k, t, l.before + [Attr(l.typ, b[l.start + HDRLEN..t])])
  {
    EndOne(b, c, l, t);
    HoldsAppend(c, k, l.start, t, l.before, Attr(l.typ, b[l.start + HDRLEN..t]));
  }

  /** The payload of an ended nest parses to the attributes put inside it. */
  lemma {:induction false} NestParses(b: seq<byte>, t: nat, start: nat, attrs: seq<Attr>, open: seq<Level>)
    requires Good(b, t, start, attrs, open) && open != []
    ensures var s := open[|open| - 1].start + HDRLEN;
            s <= t && Parse(b[s..t], 0, t - s) == attrs
  {
    var s := open[|open| - 1].start + HDRLEN;
    HoldsSlice(b, s, s, t, attrs);
    HoldsParse(b[s..t], 0, t - s, attrs);
  }

  lemma {:induction false} EndOne(b: seq<byte>, c: seq<byte>, l: Level, t: nat)
    requires l.start + HDRLEN <= t <= |b| == |c| && U16(b, l.start + 2) == l.typ
    requires t - l.start < 0x1_0000 && U16(c, l.start) == t - l.start && c[l.start + 2..t] == b[l.start + 2..t]
    requires Aligned(l.start) && Aligned(t)
    ensures HoldsOne(c, l.start, t, Attr(l.typ, b[l.start + HDRLEN..t]))
    ensures t == l.start + Align(HDRLEN + |b[l.start + HDRLEN..t]|)
  {
    var s := l.start;
    AlignSum(s, t - s);
    SliceSlice(b, s + 2, t, 0, 2);
    SliceSlice(c, s + 2, t, 0, 2);
    SameU16(b, s + 2, c, s + 2);
    SliceSlice(b, s + 2, t, 2, t - s - 2);
    SliceSlice(c, s + 2, t, 2, t - s - 2);
  }

  lemma {:induction false} CancelGood(b: seq<byte>, c: seq<byte>, t: nat, start: nat, attrs: seq<Attr>, open: seq<Level>, l: Level)
    requires Good(b, t, start, attrs, open) && open != [] && 4 <= |c| == |b| && l == open[|open| - 1]
    requires U32(c, 0) == l.start && c[4..] == b[4..]
    ensures Good(c, l.start, start, l.before, open[..|open| - 1]) && c[..l.start] == l.message
  {
    TopNest(b, t, start, attrs, open);
    SliceSlice(b, 4, |b|, 0, l.start - 4);
    SliceSlice(c, 4, |c|, 0, l.start - 4);
    OuterUntouched(b, c, start, open);
    SameBytes(c, l.message, l.start);
  }

  /** The length field and the rest make up the message. */
  lemma {:induction false} SameBytes(c: seq<byte>, m: seq<byte>, s: nat)
    requires 4 <= s == |m| <= |c| && c[4..s] == m[4..] && U32(c, 0) == U32(m, 0)
    ensures c[..s] == m
  {
    FieldBytes(c, m);
    forall i | 0 <= i < s
      ensures c[i] == m[i]
    {
      if i >= 4 {
        assert c[i] == c[4..s][i - 4] && m[i] == m[4..][i - 4];
      }
    }
  }

  lemma {:induction false} FieldBytes(c: seq<byte>, m: seq<byte>)
    requires 4 <= |c| && 4 <= |m| && U32(c, 0) == U32(m, 0)
    ensures forall i | 0 <= i < 4 :: c[i] == m[i]
  {
    Halves(U16(c, 0), U16(c, 2), U16(m, 0), U16(m, 2));
    Digits(c[0], c[1], m[0], m[1]);
    Digits(c[2], c[3], m[2], m[3]);
  }

  lemma {:induction false} Digits(a: byte, b: byte, x: byte, y: byte)
    requires a as nat + 256 * b as nat == x as nat + 256 * y as nat
    ensures a == x && b == y
  {
  }

  lemma {:induction false} Halves(a: nat, b: nat, x: nat, y: nat)
    requires a < 0x1_0000 && x < 0x1_0000 && a + 0x1_0000 * b == x + 0x1_0000 * y
    ensures a == x && b == y
  {
  }

  // ----- What each operation does to the bytes -----

  /** mnl_attr_put: the message grows by the aligned length, which was truncated to 16 bits before. */
  predicate PutStep(b: seq<byte>, c: seq<byte>, typ: nat, data: seq<byte>)
    requires 4 <= |b|
  {
    var t := U32(b, 0);
    && |c| == |b| && Written(c, t, typ, data) && U32(c, 0) == t + Align((HDRLEN + |data|) % 0x1_0000) <= |c|
    && 4 <= t && c[4..t] == b[4..t] && c[t + HDRLEN + |data|..] == b[t + HDRLEN + |data|..]
  }

  /** mnl_attr_nest_start. */
  predicate StartStep(b: seq<byte>, c: seq<byte>, typ: nat)
    requires 4 <= |b|
  {
    var t := U32(b, 0);
    && 4 <= t && t + HDRLEN <= |c| == |b| && U32(c, 0) == t + HDRLEN && U16(c, t + 2) == NestType(typ)
    && c[4..t] == b[4..t]
  }

  /** mnl_attr_nest_end for the nest at position at: its length field is 16 bits wide. */
  predicate EndStep(b: seq<byte>, c: seq<byte>, at: nat)
    requires 4 <= |b|
  {
    var t := U32(b, 0);
    && 4 <= at && at + HDRLEN <= t <= |c| == |b| && U32(c, 0) == t && U16(c, at) == (t - at) % 0x1_0000
    && c[4..at] == b[4..at] && c[at + 2..t] == b[at + 2..t]
  }

  /** mnl_attr_nest_cancel: only the length of the message goes back. */
  predicate CancelStep(b: seq<byte>, c: seq<byte>, at: nat)
    requires 4 <= |b|
  {
    |c| == |b| && U32(c, 0) == at && c[4..] == b[4..]
  }

  /** A netlink message in its buffer; its length is the field nlmsg_len at the front. All operations keep
      the length aligned, and those that write at the tail, which is the aligned length, rely on it. */
  class Message {
    const buf: array<byte>

    /** mnl_nlmsg_put_header. */
    constructor (buf: array<byte>)
      requires NLMSG_HDRLEN <= buf.Length
      modifies buf
      ensures this.buf == buf && U32(buf[..], 0) == NLMSG_HDRLEN
      ensures forall i | 4 <= i < NLMSG_HDRLEN :: buf[i] == 0
    {
      this.buf := buf;
      new;
      PutBytes(buf, 0, seq(NLMSG_HDRLEN, _ => 0));
      PutU32(buf, 0, NLMSG_HDRLEN);
    }

    /** mnl_nlmsg_put_extra_header: zeroed room of the given size behind the message. */
    method PutExtraHeader(size: nat) returns (at: nat)
      requires 4 <= buf.Length < 0x7fff_0000 && 4 <= U32(buf[..], 0) && U32(buf[..], 0) + size <= buf.Length
      modifies buf
      ensures at == old(U32(buf[..], 0)) && U32(buf[..], 0) == at + Align(size)
      ensures forall i | at <= i < at + size :: buf[i] == 0
      ensures buf[4..at] == old(buf[..])[4..at]
      ensures Aligned(at) ==> Aligned(U32(buf[..], 0))
    {
      at := U32(buf[..], 0);
      if Aligned(at) {
        AlignSum(at, size);
      }
      PutBytes(buf, at, seq(size, _ => 0));
      PutU32(buf, 0, at + Align(size));
    }

    /** mnl_attr_put. */
    method Put(typ: nat, data: seq<byte>)
      requires 4 <= buf.Length < 0x7fff_0000 && 4 <= U32(buf[..], 0) && Aligned(U32(buf[..], 0)) && typ < 0x1_0000
      requires U32(buf[..], 0) + Align(HDRLEN + |data|) <= buf.Length
      modifies buf
      ensures PutStep(old(buf[..]), buf[..], typ, data)
    {
      var t, n := Align(U32(buf[..], 0)), (HDRLEN + |data|) % 0x1_0000;
      AlignMonotone(n, HDRLEN + |data|);
      PutAttr(t, n, typ, data);
      PutU32(buf, 0, t + Align(n));
    }

    /** The header and the payload of the attribute at offset t. */
    method PutAttr(t: nat, n: nat, typ: nat, data: seq<byte>)
      requires t + HDRLEN + |data| <= buf.Length && n == (HDRLEN + |data|) % 0x1_0000 && typ < 0x1_0000
      modifies buf
      ensures Written(buf[..], t, typ, data)
      ensures forall j | 0 <= j < buf.Length && !(t <= j < t + HDRLEN + |data|) :: buf[j] == old(buf[j])
    {
      PutU16(buf, t + 2, typ);
      PutU16(buf, t, n);
      PutBytes(buf, t + HDRLEN, data);
    }

    /** mnl_attr_put_check: nothing at or behind buflen is ever written. */
    method PutCheck(buflen: nat, typ: nat, data: seq<byte>) returns (ok: bool)
      requires 4 <= buf.Length < 0x7fff_0000 && 4 <= U32(buf[..], 0) && Aligned(U32(buf[..], 0))
      requires typ < 0x1_0000 && buflen <= buf.Length
      modifies buf
      ensures ok <==> old(U32(buf[..], 0)) + HDRLEN + Align(|data|) <= buflen
      ensures if ok then PutStep(old(buf[..]), buf[..], typ, data) && U32(buf[..], 0) <= buflen
              else buf[..] == old(buf[..])
      ensures buf[buflen..] == old(buf[buflen..])
    {
      AlignSum(HDRLEN, |data|);
      if U32(buf[..], 0) + HDRLEN + Align(|data|) > buflen {
        return false;
      }
      ghost var t := U32(buf[..], 0);
      AlignMonotone((HDRLEN + |data|) % 0x1_0000, HDRLEN + |data|);
      Put(typ, data);
      ghost var b, k := old(buf[..]), t + HDRLEN + |data|;
      SliceSlice(b, k, |b|, buflen - k, |b| - k);
      SliceSlice(buf[..], k, |b|, buflen - k, |b| - k);
      return true;
    }

    /** mnl_attr_nest_start. */
    method NestStart(typ: nat) returns (at: nat)
      requires 4 <= buf.Length < 0x7fff_0000 && 4 <= U32(buf[..], 0) && Aligned(U32(buf[..], 0)) && typ < 0x1_0000
      requires U32(buf[..], 0) + HDRLEN <= buf.Length
      modifies buf
      ensures at == old(U32(buf[..], 0)) && StartStep(old(buf[..]), buf[..], typ)
    {
      at := Align(U32(buf[..], 0));
      PutU16(buf, at + 2, NestType(typ));
      ghost var c := buf[..];
      PutU32(buf, 0, at + HDRLEN);
      SameU16(buf[..], at + 2, c, at + 2);
    }

    /** mnl_attr_nest_end. */
    method NestEnd(at: nat)
      requires 4 <= buf.Length && 4 <= at && at + HDRLEN <= U32(buf[..], 0) <= buf.Length && Aligned(U32(buf[..], 0))
      modifies buf
      ensures EndStep(old(buf[..]), buf[..], at)
    {
      ghost var b := buf[..];
      PutU16(buf, at, (Align(U32(buf[..], 0)) - at) % 0x1_0000);
      SameU32(buf[..], 0, b, 0);
    }

    /** mnl_attr_nest_cancel. */
    method NestCancel(at: nat)
      requires 4 <= buf.Length && at <= U32(buf[..], 0) && Aligned(U32(buf[..], 0))
      modifies buf
      ensures CancelStep(old(buf[..]), buf[..], at)
    {
      PutU32(buf, 0, U32(buf[..], 0) - (Align(U32(buf[..], 0)) - at));
    }

    /** mnl_attr_parse. */
    method ParseAll(offset: nat, cb: Attr -> int) returns (visited: seq<Attr>, ret: int)
      requires 4 <= buf.Length && Align(U32(buf[..], 0)) <= buf.Length
      ensures (visited, ret) == Visit(Parse(buf[..], NLMSG_HDRLEN + Align(offset), Align(U32(buf[..], 0))), cb, 1)
    {
      visited, ret := ForEach(buf, NLMSG_HDRLEN + Align(offset), Align(U32(buf[..], 0)), cb);
    }

    /** mnl_attr_parse_nested, for the attribute at position at. */
    method ParseNested(at: nat, cb: Attr -> int) returns (visited: seq<Attr>, ret: int)
      requires at + HDRLEN <= buf.Length && HDRLEN <= U16(buf[..], at) && at + U16(buf[..], at) <= buf.Length
      ensures (visited, ret) == Visit(Parse(buf[..], at + HDRLEN, at + U16(buf[..], at)), cb, 1)
    {
      visited, ret := ForEach(buf, at + HDRLEN, at + U16(buf[..], at), cb);
    }
  }

  // ----- Any sequence of operations -----

  datatype Op = Put(typ: nat, data: seq<byte>) | Start(typ: nat) | End | Cancel

  /** The operation, applied to the innermost open nest where it needs one, takes b to c; lengths fit their
      16-bit fields. */
  predicate Did(b: seq<byte>, c: seq<byte>, open: seq<Level>, op: Op)
    requires 4 <= |b|
  {
    match op
    case Put(typ, data) => HDRLEN + |data| < 0x1_0000 && PutStep(b, c, typ, data)
    case Start(typ) => StartStep(b, c, typ)
    case End => open != [] && U32(b, 0) < open[|open| - 1].start + 0x1_0000 && EndStep(b, c, open[|open| - 1].start)
    case Cancel => open != [] && CancelStep(b, c, open[|open| - 1].start)
  }

  /** What the message holds after it. */
  function Next(b: seq<byte>, attrs: seq<Attr>, open: seq<Level>, op: Op): (seq<Attr>, seq<Level>)
    requires 4 <= |b| && U32(b, 0) <= |b|
    requires (op.End? || op.Cancel?) ==> open != [] && open[|open| - 1].start + HDRLEN <= U32(b, 0)
  {
    var t := U32(b, 0);
    match op
    case Put(typ, data) => (attrs + [Attr(typ, data)], open)
    case Start(typ) => ([], open + [Level(t, NestType(typ), attrs, b[..t])])
    case End =>
      var l := open[|open| - 1];
      (l.before + [Attr(l.typ, b[l.start + HDRLEN..t])], open[..|open| - 1])
    case Cancel => (open[|open| - 1].before, open[..|open| - 1])
  }

  lemma {:induction false} EndParts(b: seq<byte>, c: seq<byte>, t: nat, start: nat, open: seq<Level>, l: Level)
    requires Nested(b, start, open) && open != [] && l == open[|open| - 1]
    requires t == U32(b, 0) && EndStep(b, c, l.start) && t < l.start + 0x1_0000
    requires Aligned(l.start) && Aligned(t) && U16(b, l.start + 2) == l.typ
    ensures var rest := open[..|open| - 1];
            && NLMSG_HDRLEN <= Base(start, rest) <= t && Nested(c, start, rest)
            && Holds(c, Base(start, rest), t, l.before + [Attr(l.typ, b[l.start + HDRLEN..t])])
  {
    OuterUntouched(b, c, start, open);
    EndHolds(b, c, Base(start, open[..|open| - 1]), l, t);
  }

  /** Every operation keeps the message well-formed. */
  lemma {:induction false} StepGood(b: seq<byte>, c: seq<byte>, start: nat, attrs: seq<Attr>, open: seq<Level>, op: Op, a: seq<Attr>, o: seq<Level>)
    requires 4 <= |b| && U32(b, 0) <= |b| && Good(b, U32(b, 0), start, attrs, open) && Did(b, c, open, op)
    requires (op.End? || op.Cancel?) ==> open[|open| - 1].start + HDRLEN <= U32(b, 0)
    requires (a, o) == Next(b, attrs, open, op)
    ensures 4 <= |c| && Good(c, U32(c, 0), start, a, o)
  {
    match op
    case Put(typ, data) => PutGood(b, c, start, attrs, open, typ, data);
    case Start(typ) => NestGood(b, c, start, attrs, open, typ);
    case End => EndStepGood(b, c, start, attrs, open, a, o);
    case Cancel => UndoGood(b, c, start, attrs, open, open[|open| - 1]);
  }

  lemma {:induction false} EndStepGood(b: seq<byte>, c: seq<byte>, start: nat, attrs: seq<Attr>, open: seq<Level>, a: seq<Attr>, o: seq<Level>)
    requires 4 <= |b| && U32(b, 0) <= |b| && Good(b, U32(b, 0), start, attrs, open) && Did(b, c, open, End)
    requires open[|open| - 1].start + HDRLEN <= U32(b, 0) && (a, o) == Next(b, attrs, open, End)
    ensures 4 <= |c| && Good(c, U32(c, 0), start, a, o)
  {
    var l := open[|open| - 1];
    assert a == l.before + [Attr(l.typ, b[l.start + HDRLEN..U32(b, 0)])] && o == open[..|open| - 1];
    EndGood(b, c, start, attrs, open, l);
  }

  lemma {:induction false} UndoGood(b: seq<byte>, c: seq<byte>, start: nat, attrs: seq<Attr>, open: seq<Level>, l: Level)
    requires 4 <= |b| && Good(b, U32(b, 0), start, attrs, open) && open != [] && l == open[|open| - 1]
    requires CancelStep(b, c, l.start)
    ensures l.start + HDRLEN <= U32(b, 0)
    ensures Good(c, U32(c, 0), start, l.before, open[..|open| - 1])
  {
    TopNest(b, U32(b, 0), start, attrs, open);
    CancelGood(b, c, U32(b, 0), start, attrs, open, l);
  }

  lemma {:induction false} PutGood(b: seq<byte>, c: seq<byte>, start: nat, attrs: seq<Attr>, open: seq<Level>, typ: nat, data: seq<byte>)
    requires 4 <= |b| && Good(b, U32(b, 0), start, attrs, open)
    requires HDRLEN + |data| < 0x1_0000 && PutStep(b, c, typ, data)
    ensures Good(c, U32(c, 0), start, attrs + [Attr(typ, data)], open)
  {
    var t := U32(b, 0);
    PutEnd(b, c, typ, data);
    AppendGood(b, c, t, start, attrs, open, Attr(typ, data), U32(c, 0));
  }

  lemma {:induction false} PutEnd(b: seq<byte>, c: seq<byte>, typ: nat, data: seq<byte>)
    requires 4 <= |b| && HDRLEN + |data| < 0x1_0000 && PutStep(b, c, typ, data)
    ensures U32(c, 0) == U32(b, 0) + Align(HDRLEN + |data|) <= |c|
  {
    assert (HDRLEN + |data|) % 0x1_0000 == HDRLEN + |data|;
  }

  lemma {:induction false} NestGood(b: seq<byte>, c: seq<byte>, start: nat, attrs: seq<Attr>, open: seq<Level>, typ: nat)
    requires 4 <= |b| && Good(b, U32(b, 0), start, attrs, open) && StartStep(b, c, typ)
    ensures Good(c, U32(c, 0), start, [], open + [Level(U32(b, 0), NestType(typ), attrs, b[..U32(b, 0)])])
  {
    var t := U32(b, 0);
    StartGood(b, c, t, start, attrs, open, Level(t, NestType(typ), attrs, b[..t]));
  }

  lemma {:induction false} EndGood(b: seq<byte>, c: seq<byte>, start: nat, attrs: seq<Attr>, open: seq<Level>, l: Level)
    requires 4 <= |b| && Good(b, U32(b, 0), start, attrs, open) && open != [] && l == open[|open| - 1]
    requires U32(b, 0) < l.start + 0x1_0000 && EndStep(b, c, l.start)
    ensures l.start + HDRLEN <= U32(b, 0)
    ensures Good(c, U32(c, 0), start, l.before + [Attr(l.typ, b[l.start + HDRLEN..U32(b, 0)])], open[..|open| - 1])
  {
    var t := U32(b, 0);
    TopNest(b, t, start, attrs, open);
    EndParts(b, c, t, start, open, l);
  }

  /** The states of the buffer, one more than there are operations. */
  predicate Ran(bs: seq<seq<byte>>, attrs: seq<Attr>, open: seq<Level>, ops: seq<Op>, a: seq<Attr>, o: seq<Level>)
    decreases |ops|
  {
    && |bs| == |ops| + 1 && NLMSG_HDRLEN <= |bs[0]| && U32(bs[0], 0) <= |bs[0]|
    && if ops == [] then a == attrs && o == open
       else
         && Did(bs[0], bs[1], open, ops[0])
         && ((ops[0].End? || ops[0].Cancel?) ==> open[|open| - 1].start + HDRLEN <= U32(bs[0], 0))
         && var (x, y) := Next(bs[0], attrs, open, ops[0]);
            Ran(bs[1..], x, y, ops[1..], a, o)
  }

  lemma {:induction false} RunGood(bs: seq<seq<byte>>, start: nat, attrs: seq<Attr>, open: seq<Level>, ops: seq<Op>, a: seq<Attr>, o: seq<Level>)
    requires Ran(bs, attrs, open, ops, a, o) && Good(bs[0], U32(bs[0], 0), start, attrs, open)
    ensures var c := bs[|bs| - 1];
            4 <= |c| && Good(c, U32(c, 0), start, a, o)
    decreases |ops|
  {
    if ops != [] {
      var (x, y) := Next(bs[0], attrs, open, ops[0]);
      StepGood(bs[0], bs[1], start, attrs, open, ops[0], x, y);
      RunGood(bs[1..], start, x, y, ops[1..], a, o);
    }
  }

  /** After headers and any sequence of puts and nests, ended or cancelled, parsing from the end of the headers
      visits exactly the attributes of the finished message, in order. */
  lemma {:induction false} RunParses(bs: seq<seq<byte>>, start: nat, ops: seq<Op>, a: seq<Attr>)
    requires |bs| > 0 && NLMSG_HDRLEN <= start <= |bs[0]| < 0x7fff_0000 && Aligned(start) && U32(bs[0], 0) == start
    requires Ran(bs, [], [], ops, a, [])
    ensures var c := bs[|bs| - 1];
            4 <= |c| && U32(c, 0) <= |c| && Align(U32(c, 0)) == U32(c, 0) && Parse(c, start, U32(c, 0)) == a
  {
    assert Good(bs[0], start, start, [], []);
    RunGood(bs, start, [], [], ops, a, []);
    var c := bs[|bs| - 1];
    HoldsParse(c, start, U32(c, 0), a);
  }

  /** Cancelling a nest restores the message to what it was, byte for byte; ending it makes one attribute
      whose payload parses to what was put inside. */
  lemma {:induction false} NestsExact(b: seq<byte>, c: seq<byte>, start: nat, attrs: seq<Attr>, open: seq<Level>)
    requires 4 <= |b| && Good(b, U32(b, 0), start, attrs, open) && open != []
    ensures var l := open[|open| - 1];
            && (Did(b, c, open, Cancel) ==> l.start <= |c| && c[..l.start] == l.message)
            && l.start + HDRLEN <= U32(b, 0) <= |b|
            && var inner := b[l.start + HDRLEN..U32(b, 0)];
               Parse(inner, 0, |inner|) == attrs
  {
    NestReads(b, U32(b, 0), start, attrs, open);
    if Did(b, c, open, Cancel) {
      CancelRestores(b, c, U32(b, 0), start, attrs, open);
    }
  }

  lemma {:induction false} NestReads(b: seq<byte>, t: nat, start: nat, attrs: seq<Attr>, open: seq<Level>)
    requires Good(b, t, start, attrs, open) && open != []
    ensures var s := open[|open| - 1].start + HDRLEN;
            s <= t <= |b| && Parse(b[s..t], 0, |b[s..t]|) == attrs
  {
    var s := open[|open| - 1].start + HDRLEN;
    NestParses(b, t, start, attrs, open);
    assert |b[s..t]| == t - s;
  }

  lemma {:induction false} CancelRestores(b: seq<byte>, c: seq<byte>, t: nat, start: nat, attrs: seq<Attr>, open: seq<Level>)
    requires 4 <= |b| && Good(b, t, start, attrs, open) && open != [] && Did(b, c, open, Cancel)
    ensures var l := open[|open| - 1]; l.start <= |c| && c[..l.start] == l.message
  {
    CancelGood(b, c, t, start, attrs, open, open[|open| - 1]);
  }
}
