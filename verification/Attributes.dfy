/** Type-length-value attributes in a netlink message: put, nest and parse (attr.c, nlmsg.c). */
module Attributes {
  import opened Bytes

  const HDRLEN: nat := 4          // MNL_ATTR_HDRLEN
  const NLMSG_HDRLEN: nat := 16   // MNL_NLMSG_HDRLEN
  const NLA_F_NESTED: nat := 0x8000

  datatype Attr = Attr(typ: nat, payload: seq<byte>)

  /** mnl_attr_ok for the attribute at position i of a buffer that ends at end. */
  predicate AttrOk(b: seq<byte>, i: nat, end: nat)
    requires end <= |b|
  {
    i + HDRLEN <= end && HDRLEN <= U16(b, i) && i + U16(b, i) <= end
  }

  /** The attributes that an iteration from i to end visits. */
  function Parse(b: seq<byte>, i: nat, end: nat): seq<Attr>
    requires end <= |b|
    decreases if i <= end then end - i + 1 else 0
  {
    if AttrOk(b, i, end)
    then [Attr(U16(b, i + 2), b[i + HDRLEN..i + U16(b, i)])] + Parse(b, i + Align(U16(b, i)), end)
    else []
  }

  /** The bytes from i to j hold exactly these attributes, whatever the padding. */
  predicate Holds(b: seq<byte>, i: nat, j: nat, attrs: seq<Attr>)
    decreases |attrs|
  {
    && i <= j <= |b|
    && if attrs == [] then i == j
       else
         && HoldsOne(b, i, j, attrs[0])
         && Holds(b, i + Align(HDRLEN + |attrs[0].payload|), j, attrs[1..])
  }

  predicate HoldsOne(b: seq<byte>, i: nat, j: nat, a: Attr) {
    var n := HDRLEN + |a.payload|;
    && i + n <= j <= |b|
    && n < 0x1_0000 && U16(b, i) == n && U16(b, i + 2) == a.typ
    && b[i + HDRLEN..i + n] == a.payload
  }

  /** Parsing gives back exactly the attributes that were put, in order. */
  lemma {:induction false} HoldsParse(b: seq<byte>, i: nat, j: nat, attrs: seq<Attr>)
    requires Holds(b, i, j, attrs)
    ensures Parse(b, i, j) == attrs
    decreases |attrs|
  {
    if attrs != [] {
      HoldsParse(b, i + Align(HDRLEN + |attrs[0].payload|), j, attrs[1..]);
      assert attrs == [attrs[0]] + attrs[1..];
    }
  }

  /** Only the bytes from i to j matter. */
  lemma {:induction false} HoldsFrame(b: seq<byte>, c: seq<byte>, i: nat, j: nat, attrs: seq<Attr>)
    requires Holds(b, i, j, attrs) && j <= |c| && b[i..j] == c[i..j]
    ensures Holds(c, i, j, attrs)
    decreases |attrs|
  {
    if attrs != [] {
      var n := HDRLEN + |attrs[0].payload|;
      FrameOne(b, c, i, j, attrs[0]);
      var k := i + Align(n);
      assert b[k..j] == b[i..j][k - i..] && c[k..j] == c[i..j][k - i..];
      HoldsFrame(b, c, k, j, attrs[1..]);
    }
  }

  lemma {:induction false} FrameOne(b: seq<byte>, c: seq<byte>, i: nat, j: nat, a: Attr)
    requires HoldsOne(b, i, j, a) && j <= |c| && b[i..j] == c[i..j]
    ensures HoldsOne(c, i, j, a)
  {
    var n := HDRLEN + |a.payload|;
    SliceSlice(b, i, j, 0, 2);
    SliceSlice(c, i, j, 0, 2);
    SliceSlice(b, i, j, 2, 4);
    SliceSlice(c, i, j, 2, 4);
    SliceSlice(b, i, j, 4, n);
    SliceSlice(c, i, j, 4, n);
    SameU16(b, i, c, i);
    SameU16(b, i + 2, c, i + 2);
  }

  lemma {:induction false} HoldsAppend(b: seq<byte>, i: nat, j: nat, k: nat, attrs: seq<Attr>, a: Attr)
    requires Holds(b, i, j, attrs) && j <= k <= |b| && HoldsOne(b, j, k, a) && k == j + Align(HDRLEN + |a.payload|)
    ensures Holds(b, i, k, attrs + [a])
    decreases |attrs|
  {
    if attrs == [] {
      assert (attrs + [a])[1..] == [];
    } else {
      HoldsAppend(b, i + Align(HDRLEN + |attrs[0].payload|), j, k, attrs[1..], a);
      assert (attrs + [a])[1..] == attrs[1..] + [a];
    }
  }

  /** The attributes of a nest, cut out of the message. */
  lemma {:induction false} HoldsSlice(b: seq<byte>, s: nat, i: nat, j: nat, attrs: seq<Attr>)
    requires s <= i && Holds(b, i, j, attrs)
    ensures Holds(b[s..j], i - s, j - s, attrs)
    decreases |attrs|
  {
    if attrs != [] {
      SliceOne(b, s, i, j, attrs[0]);
      HoldsSlice(b, s, i + Align(HDRLEN + |attrs[0].payload|), j, attrs[1..]);
    }
  }

  lemma {:induction false} SliceOne(b: seq<byte>, s: nat, i: nat, j: nat, a: Attr)
    requires s <= i && HoldsOne(b, i, j, a)
    ensures HoldsOne(b[s..j], i - s, j - s, a)
  {
    var n, c, p := HDRLEN + |a.payload|, b[s..j], i - s;
    SliceSlice(b, s, j, p, p + 2);
    SliceSlice(b, s, j, p + 2, p + 4);
    SliceSlice(b, s, j, p + 4, p + n);
    SameU16(c, p, b, i);
    SameU16(c, p + 2, b, i + 2);
  }

  // ----- Any bytes -----

  /** A header and all the bytes that it announces lie before end; the padding need not. */
  predicate Complete(b: seq<byte>, i: nat, end: nat)
    requires end <= |b|
  {
    i + 4 <= end && 4 <= U16(b, i) && i + U16(b, i) <= end
  }

  /** The positions at which an iteration finds attributes: each follows the last one, padded to four bytes, and the first
      incomplete one ends the iteration. */
  predicate Chain(b: seq<byte>, i: nat, end: nat, ps: seq<nat>)
    requires end <= |b|
    decreases |ps|
  {
    if ps == [] then !Complete(b, i, end)
    else ps[0] == i && Complete(b, i, end) && Chain(b, i + Align(U16(b, i)), end, ps[1..])
  }

  /** The attribute that starts at p, with all its bytes before end. */
  predicate ReadAt(b: seq<byte>, end: nat, p: nat, a: Attr)
    requires end <= |b|
  {
    Complete(b, p, end) && a == Attr(U16(b, p + 2), b[p + 4..p + U16(b, p)])
  }

  predicate AllRead(b: seq<byte>, end: nat, ps: seq<nat>, attrs: seq<Attr>)
    requires end <= |b|
  {
    |attrs| == |ps| && forall k | 0 <= k < |ps| :: ReadAt(b, end, ps[k], attrs[k])
  }

  lemma {:induction false} ReadMore(b: seq<byte>, end: nat, p: nat, a: Attr, ps: seq<nat>, attrs: seq<Attr>)
    requires end <= |b| && ReadAt(b, end, p, a) && AllRead(b, end, ps, attrs)
    ensures AllRead(b, end, [p] + ps, [a] + attrs)
  {
  }

  /** Whatever the bytes are, parsing finds the attributes at these positions. */
  lemma {:induction false} ParseExactly(b: seq<byte>, i: nat, end: nat) returns (ps: seq<nat>)
    requires end <= |b|
    ensures Chain(b, i, end, ps) && AllRead(b, end, ps, Parse(b, i, end))
    decreases if i <= end then end - i + 1 else 0
  {
    if AttrOk(b, i, end) {
      var rest := ParseExactly(b, i + Align(U16(b, i)), end);
      ps := [i] + rest;
      assert ps[1..] == rest;
      ReadMore(b, end, i, Attr(U16(b, i + 2), b[i + 4..i + U16(b, i)]), rest, Parse(b, i + Align(U16(b, i)), end));
    } else {
      ps := [];
    }
  }

  // ----- Callbacks -----

  /** What a run of a callback over attributes visits and returns: it stops at the first result <= 0. */
  function Visit(attrs: seq<Attr>, cb: Attr -> int, ret: int): (seq<Attr>, int) {
    if attrs == [] then ([], ret)
    else if cb(attrs[0]) <= 0 then ([attrs[0]], cb(attrs[0]))
    else
      var (v, r) := Visit(attrs[1..], cb, cb(attrs[0]));
      ([attrs[0]] + v, r)
  }

  /** The visited attributes are a prefix; the result is positive exactly when everything was visited. */
  lemma {:induction false} VisitPrefix(attrs: seq<Attr>, cb: Attr -> int, ret: int)
    requires ret > 0
    ensures var (v, r) := Visit(attrs, cb, ret);
            && v <= attrs
            && (forall i | 0 <= i < |v| - 1 :: cb(v[i]) > 0)
            && (if r > 0 then v == attrs else v != [] && r == cb(v[|v| - 1]))
  {
    if attrs != [] {
      var a, rest := attrs[0], attrs[1..];
      assert attrs == [a] + rest;
      if cb(a) > 0 {
        VisitPrefix(rest, cb, cb(a));
        var (v, r) := Visit(rest, cb, cb(a));
        VisitMore(a, v, rest, cb);
        assert Visit(attrs, cb, ret) == ([a] + v, r);
      } else {
        assert Visit(attrs, cb, ret) == ([a], cb(a));
      }
    }
  }

  lemma {:induction false} VisitMore(a: Attr, v: seq<Attr>, rest: seq<Attr>, cb: Attr -> int)
    requires v <= rest && cb(a) > 0 && forall i | 0 <= i < |v| - 1 :: cb(v[i]) > 0
    ensures [a] + v <= [a] + rest
    ensures forall i | 0 <= i < |[a] + v| - 1 :: cb(([a] + v)[i]) > 0
    ensures v != [] ==> ([a] + v)[|[a] + v| - 1] == v[|v| - 1]
  {
    assert rest == v + rest[|v|..];
    assert [a] + rest == ([a] + v) + rest[|v|..];
    var w := [a] + v;
    forall i | 0 <= i < |w| - 1
      ensures cb(w[i]) > 0
    {
      assert w[i] == if i == 0 then a else v[i - 1];
    }
  }

  /** The iteration of mnl_attr_parse and mnl_attr_parse_nested over any bytes. */
  method ForEach(buf: array<byte>, start: nat, end: nat, cb: Attr -> int) returns (visited: seq<Attr>, ret: int)
    requires end <= buf.Length
    ensures visited == Visit(Parse(buf[..], start, end), cb, 1).0
    ensures ret == Visit(Parse(buf[..], start, end), cb, 1).1
  {
    var i := start;
    visited, ret := [], 1;
    ghost var all := Visit(Parse(buf[..], start, end), cb, 1);
    JoinedEmpty(all);
    while AttrOk(buf[..], i, end)
      invariant all == Joined(visited, Visit(Parse(buf[..], i, end), cb, ret)) && ret > 0
      decreases if i <= end then end - i + 1 else 0
    {
      var next, attr := AttrAt(buf, i, end);
      VisitStep(Parse(buf[..], i, end), cb, ret, visited);
      ret := cb(attr);
      visited := visited + [attr];
      if ret <= 0 {
        return;
      }
      i := next;
    }
    VisitEnds(Parse(buf[..], i, end), cb, ret, visited);
  }

  /** A run that goes on from what was visited before. */
  function Joined(v: seq<Attr>, r: (seq<Attr>, int)): (seq<Attr>, int) {
    (v + r.0, r.1)
  }

  lemma {:induction false} JoinedEmpty(r: (seq<Attr>, int))
    ensures Joined([], r) == r
  {
    assert [] + r.0 == r.0;
  }

  lemma {:induction false} VisitEnds(todo: seq<Attr>, cb: Attr -> int, ret: int, visited: seq<Attr>)
    requires todo == []
    ensures Joined(visited, Visit(todo, cb, ret)) == (visited, ret)
  {
    assert visited + [] == visited;
  }

  lemma {:induction false} VisitStep(todo: seq<Attr>, cb: Attr -> int, ret: int, visited: seq<Attr>)
    requires todo != []
    ensures Joined(visited, Visit(todo, cb, ret)) ==
            if cb(todo[0]) <= 0 then (visited + [todo[0]], cb(todo[0]))
            else Joined(visited + [todo[0]], Visit(todo[1..], cb, cb(todo[0])))
  {
    var v := Visit(todo[1..], cb, cb(todo[0])).0;
    assert visited + ([todo[0]] + v) == (visited + [todo[0]]) + v;
  }

  /** mnl_attr_get_type (without the mask), mnl_attr_get_len, mnl_attr_get_payload and mnl_attr_next. */
  method AttrAt(buf: array<byte>, i: nat, end: nat) returns (next: nat, attr: Attr)
    requires end <= buf.Length && AttrOk(buf[..], i, end)
    ensures next > i
    ensures var todo := Parse(buf[..], i, end);
            todo != [] && todo[0] == attr && todo[1..] == Parse(buf[..], next, end)
  {
    var n := U16(buf[..], i);
    attr := Attr(U16(buf[..], i + 2), buf[i + HDRLEN..i + n]);
    next := i + Align(n);
    ParseStep(buf[..], i, end, attr);
  }

  lemma {:induction false} ParseStep(b: seq<byte>, i: nat, end: nat, a: Attr)
    requires end <= |b| && AttrOk(b, i, end) && a == Attr(U16(b, i + 2), b[i + HDRLEN..i + U16(b, i)])
    ensures var todo := Parse(b, i, end);
            todo != [] && todo[0] == a && todo[1..] == Parse(b, i + Align(U16(b, i)), end)
  {
  }
}
