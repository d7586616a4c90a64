/** Several netlink messages in one buffer: the batch (nlmsg.c) and the loop that hands its messages to
    callbacks (callback.c). */
module Batches {
  import opened Wrappers
  import opened Bytes

  const NLMSG_HDRLEN: nat := 16
  const NLMSG_MIN_TYPE: nat := 16

  type Msg = seq<byte>

  /** A complete, aligned message that fits a batch. */
  predicate Fits(m: Msg, limit: nat) {
    NLMSG_HDRLEN <= |m| <= limit && U32(m, 0) == |m| && Aligned(|m|)
  }

  predicate AllFit(ms: seq<Msg>, limit: nat) {
    forall i | 0 <= i < |ms| :: Fits(ms[i], limit)
  }

  function Concat(ms: seq<Msg>): seq<byte> {
    if ms == [] then [] else Concat(ms[..|ms| - 1]) + ms[|ms| - 1]
  }

  function Opt(m: Option<Msg>): seq<Msg> {
    if m.Some? then [m.value] else []
  }

  /** A batch in a buffer of twice the limit. put, sent and pending follow the messages: all that were put and
      not dropped, those in batches that were sent, and those in the present batch; extra is the message that
      was written behind the batch and not committed to it. */
  class Batch {
    const buf: array<byte>
    const limit: nat
    var buflen: nat
    var cur: nat
    var overflow: bool
    ghost var put: seq<Msg>
    ghost var sent: seq<Msg>
    ghost var pending: seq<Msg>
    ghost var extra: Option<Msg>

    ghost predicate Valid()
      reads this, buf
    {
      && 2 * limit <= buf.Length && limit < 0x4000_0000
      && buflen == cur <= limit
      && buf[..buflen] == Concat(pending) && AllFit(pending, limit)
      && put == sent + pending + Opt(extra)
      && (extra.Some? ==> Fits(extra.value, limit) && buf[cur..cur + |extra.value|] == extra.value)
      && (overflow ==> extra.Some? && buflen + |extra.value| > limit)
    }

    /** mnl_nlmsg_batch_start. */
    constructor (buf: array<byte>, limit: nat)
      requires 2 * limit <= buf.Length && limit < 0x4000_0000
      ensures Valid() && this.buf == buf && this.limit == limit
      ensures put == [] && sent == [] && pending == [] && extra == None && !overflow
    {
      this.buf, this.limit := buf, limit;
      buflen, cur, overflow := 0, 0, false;
      put, sent, pending, extra := [], [], [], None;
    }

    /** The caller puts a message at mnl_nlmsg_batch_current. */
    method Write(m: Msg)
      requires Valid() && extra == None && Fits(m, limit)
      modifies this, buf
      ensures Valid() && extra == Some(m) && put == old(put) + [m]
      ensures sent == old(sent) && pending == old(pending) && !overflow
    {
      ghost var b := buf[..];
      PutBytes(buf, cur, m);
      assert buf[..buflen] == b[..buflen];
      extra, put := Some(m), put + [m];
      assert sent + pending + [] == sent + pending;
    }

    /** mnl_nlmsg_batch_next: commit the message that was written, if it fits. */
    method Next() returns (ok: bool)
      requires Valid() && extra.Some? && !overflow
      modifies this
      ensures Valid() && put == old(put) && sent == old(sent)
      ensures ok <==> old(buflen) + |old(extra).value| <= limit
      ensures if ok then pending == old(pending) + [old(extra).value] && extra == None
              else pending == old(pending) && extra == old(extra) && overflow
    {
      CurrentLength(buf[..], cur, extra.value);
      if buflen + U32(buf[..], cur) > limit {
        overflow := true;
        return false;
      }
      Committed(buf[..], buflen, pending, extra.value);
      cur := buflen + U32(buf[..], cur);
      buflen := cur;
      pending, extra := pending + [extra.value], None;
      ListShift(sent, old(pending), old(extra).value);
      return true;
    }

    /** What mnl_nlmsg_batch_head and mnl_nlmsg_batch_size describe: the batch that is sent. */
    method Flush() returns (bytes: seq<byte>)
      requires Valid()
      ensures bytes == Concat(pending) && |bytes| <= limit
    {
      bytes := buf[..buflen];
    }

    /** mnl_nlmsg_batch_reset, after the batch was sent: the message that did not fit moves to the front. A
        message that was written but not put before mnl_nlmsg_batch_next is dropped, and nothing else. */
    method Reset()
      requires Valid()
      modifies this, buf
      ensures Valid() && sent == old(sent) + old(pending) && extra == None && !overflow
      ensures pending == if old(overflow) then Opt(old(extra)) else []
      ensures old(put) == put + if old(overflow) then [] else Opt(old(extra))
    {
      ghost var m, over := extra, overflow;
      if overflow {
        CurrentLength(buf[..], cur, extra.value);
        var n := U32(buf[..], cur);
        PutBytes(buf, 0, buf[cur..cur + n]);
        buflen := n;
        cur := buflen;
        overflow := false;
        assert buf[..n] == extra.value;
        ConcatOne(extra.value);
      } else {
        buflen := 0;
        cur := 0;
      }
      sent, pending, extra := sent + pending, if over then Opt(extra) else [], None;
      put := sent + pending;
      assert old(put) == sent + Opt(m) && put + [] == put;
      assert put == sent + pending + Opt(extra);
    }
  }

  /** The length field of the message at the current position. */
  lemma {:induction false} CurrentLength(b: seq<byte>, at: nat, m: Msg)
    requires 4 <= |m| && at + |m| <= |b| && b[at..at + |m|] == m && U32(m, 0) == |m|
    ensures U32(b, at) == |m|
  {
    SliceSlice(b, at, at + |m|, 0, 4);
    SameU32(b, at, m, 0);
  }

  lemma {:induction false} Committed(b: seq<byte>, n: nat, ms: seq<Msg>, m: Msg)
    requires n + |m| <= |b| && b[..n] == Concat(ms) && b[n..n + |m|] == m
    ensures b[..n + |m|] == Concat(ms + [m])
  {
    assert (ms + [m])[..|ms|] == ms;
    assert b[..n + |m|] == b[..n] + b[n..n + |m|];
  }

  lemma {:induction false} ConcatOne(m: Msg)
    ensures Concat([m]) == m
  {
    assert [m][..0] == [];
  }

  lemma {:induction false} ListShift(a: seq<Msg>, b: seq<Msg>, m: Msg)
    ensures a + b + [m] == a + (b + [m]) + []
  {
  }

  // ----- Walking over a buffer -----

  /** The cast of an unsigned length to int. */
  function IntOf(n: nat): int
    requires n < 0x1_0000_0000
  {
    if n < 0x8000_0000 then n else n - 0x1_0000_0000
  }

  /** mnl_nlmsg_ok for the message at position i, with len bytes left. */
  predicate MsgOk(b: seq<byte>, i: nat, len: int)
    requires len >= NLMSG_HDRLEN ==> i + 4 <= |b|
  {
    len >= NLMSG_HDRLEN && U32(b, i) >= NLMSG_HDRLEN && IntOf(U32(b, i)) <= len
  }

  /** mnl_nlmsg_ok admits exactly the messages that lie inside the buffer, unless the length field is too
      large for an int: then it admits a message of any such length. */
  lemma {:induction false} MsgOkExactly(b: seq<byte>, i: nat)
    requires i + NLMSG_HDRLEN <= |b| < 0x8000_0000
    ensures MsgOk(b, i, |b| - i) <==>
            U32(b, i) >= 0x8000_0000 || (NLMSG_HDRLEN <= U32(b, i) && i + U32(b, i) <= |b|)
  {
  }

  /** No header that the walk reaches has a length that is too large for an int. */
  predicate Sane(b: seq<byte>, i: nat)
    decreases if i <= |b| then |b| - i + 1 else 0
  {
    i + NLMSG_HDRLEN <= |b| ==>
      && U32(b, i) < 0x8000_0000
      && (NLMSG_HDRLEN <= U32(b, i) && i + U32(b, i) <= |b| ==> Sane(b, i + Align(U32(b, i))))
  }

  /** The messages that the walk visits. */
  function Messages(b: seq<byte>, i: nat): seq<Msg>
    decreases if i <= |b| then |b| - i + 1 else 0
  {
    if i + NLMSG_HDRLEN <= |b| && NLMSG_HDRLEN <= U32(b, i) && i + U32(b, i) <= |b|
    then [b[i..i + U32(b, i)]] + Messages(b, i + Align(U32(b, i)))
    else []
  }

  /** A batch is walked message by message. */
  lemma {:induction false} BatchMessages(ms: seq<Msg>, limit: nat, b: seq<byte>, i: nat)
    requires AllFit(ms, limit) && limit < 0x8000_0000 && i <= |b| && b[i..] == Joined(ms)
    ensures Messages(b, i) == ms && Sane(b, i)
    decreases |ms|
  {
    if ms == [] {
      assert |b[i..]| == 0;
    } else {
      var m := ms[0];
      HeadOfBatch(b, i, m, Joined(ms[1..]));
      CurrentLength(b, i, m);
      BatchMessages(ms[1..], limit, b, i + |m|);
      MessagesStep(b, i, m);
      assert ms == [m] + ms[1..];
    }
  }

  lemma {:induction false} HeadOfBatch(b: seq<byte>, i: nat, m: Msg, rest: seq<byte>)
    requires i <= |b| && b[i..] == m + rest
    ensures i + |m| <= |b| && b[i..i + |m|] == m && b[i + |m|..] == rest
  {
    assert |b| - i == |m| + |rest|;
    assert b[i..i + |m|] == b[i..][..|m|];
    assert b[i + |m|..] == b[i..][|m|..];
  }

  /** Concatenation from the front. */
  function Joined(ms: seq<Msg>): seq<byte> {
    if ms == [] then [] else ms[0] + Joined(ms[1..])
  }

  lemma {:induction false} JoinedIsConcat(ms: seq<Msg>)
    ensures Joined(ms) == Concat(ms)
  {
    if ms != [] {
      var front, last := ms[..|ms| - 1], ms[|ms| - 1];
      JoinedIsConcat(front);
      JoinedSnoc(front, last);
      assert front + [last] == ms;
    }
  }

  lemma {:induction false} JoinedSnoc(ms: seq<Msg>, m: Msg)
    ensures Joined(ms + [m]) == Joined(ms) + m
  {
    if ms == [] {
      assert [m][1..] == [] && ms + [m] == [m];
      assert Joined([m]) == m + [];
    } else {
      JoinedSnoc(ms[1..], m);
      assert (ms + [m])[1..] == ms[1..] + [m];
      assert (ms + [m])[0] == ms[0];
    }
  }

  // ----- Callbacks -----

  /** The arguments of __mnl_cb_run besides the buffer. ctl is the array of handlers for control messages. */
  datatype Context = Context(seqno: nat, portid: nat, data: Option<Msg -> int>, ctl: seq<Option<Msg -> int>>)

  predicate PortidOk(m: Msg, portid: nat)
    requires NLMSG_HDRLEN <= |m|
  {
    U32(m, 12) != 0 && portid != 0 ==> U32(m, 12) == portid
  }

  predicate SeqOk(m: Msg, seqno: nat)
    requires NLMSG_HDRLEN <= |m|
  {
    U32(m, 8) != 0 && seqno != 0 ==> U32(m, 8) == seqno
  }

  /** The default handlers for NLMSG_NOOP, NLMSG_ERROR, NLMSG_DONE and NLMSG_OVERRUN. */
  function Default(m: Msg, typ: nat): Option<int>
    requires NLMSG_HDRLEN <= |m|
  {
    if typ == 1 || typ == 4 then Some(1)
    else if typ == 2 then Some(if |m| < 36 || U32(m, 16) != 0 then -1 else 0)
    else if typ == 3 then Some(0)
    else None
  }

  /** What the handler for a message returns, if there is one. */
  function Reply(c: Context, m: Msg): Option<int>
    requires NLMSG_HDRLEN <= |m|
  {
    var typ := U16(m, 4);
    if typ >= NLMSG_MIN_TYPE then (if c.data.Some? then Some(c.data.value(m)) else None)
    else if typ < |c.ctl| then (if c.ctl[typ].Some? then Some(c.ctl[typ].value(m)) else None)
    else Default(m, typ)
  }

  predicate Headed(ms: seq<Msg>) {
    forall i | 0 <= i < |ms| :: NLMSG_HDRLEN <= |ms[i]|
  }

  /** The messages that were handled and the result: the run stops at a message from a wrong source or out
      of sequence, and at the first result <= 0. */
  function Dispatch(c: Context, ms: seq<Msg>, ret: int): (seq<Msg>, int)
    requires Headed(ms)
  {
    if ms == [] then ([], ret)
    else
      var m := ms[0];
      if !PortidOk(m, c.portid) || !SeqOk(m, c.seqno) then ([], -1)
      else
        var r := Reply(c, m);
        if r.Some? && r.value <= 0 then ([m], r.value)
        else
          var (v, s) := Dispatch(c, ms[1..], if r.Some? then r.value else ret);
          ([m] + v, s)
  }

  predicate GoesOn(c: Context, m: Msg)
    requires NLMSG_HDRLEN <= |m|
  {
    PortidOk(m, c.portid) && SeqOk(m, c.seqno) && (Reply(c, m).Some? ==> Reply(c, m).value > 0)
  }

  /** The handled messages are a prefix of the batch; a positive result means the whole batch. */
  lemma {:induction false} DispatchPrefix(c: Context, ms: seq<Msg>, ret: int)
    requires Headed(ms) && ret > 0
    ensures var (v, r) := Dispatch(c, ms, ret);
            && |v| <= |ms| && ms[..|v|] == v
            && (r > 0 ==> v == ms)
            && (forall i | 0 <= i < |v| - 1 :: GoesOn(c, ms[i]))
  {
    if ms != [] {
      var m := ms[0];
      if GoesOn(c, m) {
        var next := if Reply(c, m).Some? then Reply(c, m).value else ret;
        DispatchPrefix(c, ms[1..], next);
        var (v, r) := Dispatch(c, ms[1..], next);
        assert Dispatch(c, ms, ret) == ([m] + v, r);
        PrefixGrows(ms, v);
        forall i | 0 <= i < |v|
          ensures GoesOn(c, ms[i])
        {
          assert i > 0 ==> ms[i] == ms[1..][i - 1];
        }
      }
    }
  }

  lemma {:induction false} PrefixGrows(ms: seq<Msg>, v: seq<Msg>)
    requires ms != [] && |v| <= |ms| - 1 && ms[1..][..|v|] == v
    ensures ms[..|v| + 1] == [ms[0]] + v
    ensures v == ms[1..] ==> [ms[0]] + v == ms
  {
  }

  lemma {:induction false} MessagesHeaded(b: seq<byte>, i: nat)
    ensures Headed(Messages(b, i))
    decreases if i <= |b| then |b| - i + 1 else 0
  {
    if i + NLMSG_HDRLEN <= |b| && NLMSG_HDRLEN <= U32(b, i) && i + U32(b, i) <= |b| {
      MessagesHeaded(b, i + Align(U32(b, i)));
    }
  }

  /** The handling of one message inside the loop; none means that no handler exists. */
  method Handle(c: Context, m: Msg) returns (r: Option<int>)
    requires NLMSG_HDRLEN <= |m|
    ensures r == Reply(c, m)
  {
    var typ := U16(m, 4);
    if typ >= NLMSG_MIN_TYPE {
      if c.data.Some? {
        return Some(c.data.value(m));
      }
      return None;
    } else if typ < |c.ctl| {
      if c.ctl[typ].Some? {
        return Some(c.ctl[typ].value(m));
      }
      return None;
    }
    return Default(m, typ);
  }

  /** __mnl_cb_run. */
  method CbRun(b: seq<byte>, c: Context) returns (handled: seq<Msg>, ret: int)
    requires |b| < 0x7fff_fff0 && Sane(b, 0)
    ensures Headed(Messages(b, 0)) && handled == Dispatch(c, Messages(b, 0), 1).0
    ensures ret == Dispatch(c, Messages(b, 0), 1).1
  {
    MessagesHeaded(b, 0);
    var i, len: int := 0, |b|;
    handled, ret := [], 1;
    ghost var todo := Messages(b, 0);
    ghost var all := Dispatch(c, todo, 1);
    assert [] + all.0 == all.0;
    while MsgOk(b, i, len)
      invariant 0 <= i && len == |b| - i && Sane(b, i) && ret > 0
      invariant todo == Messages(b, i) && Headed(todo)
      invariant all == Onto(handled, Dispatch(c, todo, ret))
      decreases if i <= |b| then |b| - i + 1 else 0
    {
      var m, next, rest := Fetch(b, i, len, todo);
      var stop;
      stop, handled, ret := Turn(c, m, handled, ret, todo, rest);
      if stop {
        return;
      }
      len := len - (next - i);
      i := next;
      todo := rest;
    }
    assert handled + [] == handled;
  }

  /** The message at the present position. */
  method Fetch(b: seq<byte>, i: nat, len: int, ghost todo: seq<Msg>) returns (m: Msg, next: nat, ghost rest: seq<Msg>)
    requires len == |b| - i && |b| < 0x8000_0000 && MsgOk(b, i, len) && Sane(b, i)
    requires todo == Messages(b, i) && Headed(todo)
    ensures i < next && i < |b| && Sane(b, next) && rest == Messages(b, next) && Headed(rest)
    ensures todo != [] && todo[0] == m && todo[1..] == rest
  {
    WalkStep(b, i, len);
    m := b[i..i + U32(b, i)];
    next := i + Align(|m|);
    rest := todo[1..];
    forall k | 0 <= k < |rest|
      ensures NLMSG_HDRLEN <= |rest[k]|
    {
      assert rest[k] == todo[k + 1];
    }
  }

  /** The body of the loop: the checks and the handler of one message. */
  method Turn(c: Context, m: Msg, handled: seq<Msg>, ret: int, ghost todo: seq<Msg>, ghost rest: seq<Msg>) returns (stop: bool, now: seq<Msg>, r: int)
    requires ret > 0 && Headed(todo) && Headed(rest) && todo != [] && todo[0] == m && rest == todo[1..]
    ensures if stop then Onto(handled, Dispatch(c, todo, ret)) == (now, r)
            else r > 0 && Onto(handled, Dispatch(c, todo, ret)) == Onto(now, Dispatch(c, rest, r))
  {
    DispatchStep(c, todo, ret, handled);
    if !PortidOk(m, c.portid) {
      return true, handled, -1;
    }
    if !SeqOk(m, c.seqno) {
      return true, handled, -1;
    }
    var a := Handle(c, m);
    now, r := handled + [m], ret;
    if a.Some? {
      r := a.value;
    }
    stop := r <= 0;
  }

  /** A run that goes on after the messages v. */
  function Onto(v: seq<Msg>, d: (seq<Msg>, int)): (seq<Msg>, int) {
    (v + d.0, d.1)
  }

  lemma {:induction false} MessagesStep(b: seq<byte>, i: nat, m: Msg)
    requires i + NLMSG_HDRLEN <= |b| && NLMSG_HDRLEN <= U32(b, i) && i + U32(b, i) <= |b|
    requires m == b[i..i + U32(b, i)]
    ensures Messages(b, i) == [m] + Messages(b, i + Align(U32(b, i)))
    ensures Messages(b, i)[0] == m && Messages(b, i)[1..] == Messages(b, i + Align(U32(b, i)))
  {
  }

  lemma {:induction false} WalkStep(b: seq<byte>, i: nat, len: int)
    requires len == |b| - i && |b| < 0x8000_0000 && MsgOk(b, i, len) && Sane(b, i)
    ensures NLMSG_HDRLEN <= U32(b, i) && i + U32(b, i) <= |b|
    ensures var m := b[i..i + U32(b, i)];
            && Sane(b, i + Align(|m|)) && Messages(b, i) != []
            && Messages(b, i)[0] == m && Messages(b, i)[1..] == Messages(b, i + Align(|m|))
  {
    MessagesStep(b, i, b[i..i + U32(b, i)]);
  }

  lemma {:induction false} DispatchStep(c: Context, todo: seq<Msg>, ret: int, handled: seq<Msg>)
    requires Headed(todo) && todo != []
    ensures var m := todo[0];
            var r := Reply(c, m);
            Onto(handled, Dispatch(c, todo, ret)) ==
            if !PortidOk(m, c.portid) || !SeqOk(m, c.seqno) then (handled, -1)
            else if r.Some? && r.value <= 0 then (handled + [m], r.value)
            else Onto(handled + [m], Dispatch(c, todo[1..], if r.Some? then r.value else ret))
  {
    var r := Reply(c, todo[0]);
    var rest := Dispatch(c, todo[1..], if r.Some? then r.value else ret);
    assert handled + ([todo[0]] + rest.0) == (handled + [todo[0]]) + rest.0;
    assert handled + [] == handled;
  }

  // ----- What each kind of message does -----

  /** Source and sequence number are the expected ones, or not set on one of the sides. */
  predicate Expected(c: Context, m: Msg)
    requires NLMSG_HDRLEN <= |m|
  {
    && (U32(m, 12) == 0 || c.portid == 0 || U32(m, 12) == c.portid)
    && (U32(m, 8) == 0 || c.seqno == 0 || U32(m, 8) == c.seqno)
  }

  /** The last result of a handler, or ret if none was called. */
  function LastReply(c: Context, ms: seq<Msg>, ret: int): int
    requires Headed(ms)
  {
    if ms == [] then ret
    else
      var r := Reply(c, ms[|ms| - 1]);
      if r.Some? then r.value else LastReply(c, ms[..|ms| - 1], ret)
  }

  lemma {:induction false} LastReplyTail(c: Context, ms: seq<Msg>, ret: int)
    requires Headed(ms) && ms != []
    ensures LastReply(c, ms, ret) == LastReply(c, ms[1..], if Reply(c, ms[0]).Some? then Reply(c, ms[0]).value else ret)
  {
    if |ms| > 1 {
      var front := ms[..|ms| - 1];
      LastReplyTail(c, front, ret);
      assert ms[1..][..|ms| - 2] == front[1..];
    } else {
      assert ms[..0] == [] && ms[1..] == [];
    }
  }

  /** Messages that let the run go on are handled, and the run comes to the next one with the last result. */
  lemma {:induction false} ComesTo(c: Context, ms: seq<Msg>, ret: int, k: nat)
    requires Headed(ms) && k <= |ms| && forall i | 0 <= i < k :: GoesOn(c, ms[i])
    ensures Dispatch(c, ms, ret) == Onto(ms[..k], Dispatch(c, ms[k..], LastReply(c, ms[..k], ret)))
  {
    if k == 0 {
      assert ms[0..] == ms && [] + Dispatch(c, ms, ret).0 == Dispatch(c, ms, ret).0;
    } else {
      var next := if Reply(c, ms[0]).Some? then Reply(c, ms[0]).value else ret;
      ComesTo(c, ms[1..], next, k - 1);
      LastReplyTail(c, ms[..k], ret);
      assert ms[..k][1..] == ms[1..][..k - 1] && ms[1..][k - 1..] == ms[k..];
      Joins(ms, k, Dispatch(c, ms[k..], LastReply(c, ms[..k], ret)).0);
    }
  }

  lemma {:induction false} Joins(ms: seq<Msg>, k: nat, v: seq<Msg>)
    requires 0 < k <= |ms|
    ensures ms[..k] + v == [ms[0]] + (ms[1..][..k - 1] + v)
  {
  }

  /** The run comes to message k, which stops it, or leaves it at the result r. */
  predicate At(c: Context, ms: seq<Msg>, ret: int, k: nat, stops: bool, r: int)
    requires Headed(ms) && k < |ms|
  {
    Dispatch(c, ms, ret) == if stops then (ms[..k + 1], r) else Onto(ms[..k + 1], Dispatch(c, ms[k + 1..], r))
  }

  lemma {:induction false} AtMessage(c: Context, ms: seq<Msg>, ret: int, k: nat)
    requires Headed(ms) && k < |ms| && Expected(c, ms[k]) && forall i | 0 <= i < k :: GoesOn(c, ms[i])
    ensures var r := Reply(c, ms[k]);
            At(c, ms, ret, k, r.Some? && r.value <= 0, if r.Some? then r.value else LastReply(c, ms[..k], ret))
  {
    var r, last := Reply(c, ms[k]), LastReply(c, ms[..k], ret);
    ComesTo(c, ms, ret, k);
    DispatchStep(c, ms[k..], last, ms[..k]);
    assert ms[k..][0] == ms[k] && ms[k..][1..] == ms[k + 1..] && ms[..k] + [ms[k]] == ms[..k + 1];
  }

  /** A run stops with -1 before the first message that is not expected. */
  lemma {:induction false} UnexpectedStops(c: Context, ms: seq<Msg>, ret: int, k: nat)
    requires Headed(ms) && k < |ms| && !Expected(c, ms[k]) && forall i | 0 <= i < k :: GoesOn(c, ms[i])
    ensures Dispatch(c, ms, ret) == (ms[..k], -1)
  {
    ComesTo(c, ms, ret, k);
    assert ms[..k] + [] == ms[..k];
  }

  /** Control messages beyond the given array are taken by the default handlers: a NOOP (1) and an OVERRUN (4) set the
      result to 1 and the run goes on, a DONE (3) ends it with 0, an ERROR (2) ends it with 0 if it is complete and
      reports no error, and with -1 otherwise; other types are passed over, and the result stays. */
  lemma {:induction false} ControlMessages(c: Context, ms: seq<Msg>, ret: int, k: nat)
    requires Headed(ms) && k < |ms| && Expected(c, ms[k]) && forall i | 0 <= i < k :: GoesOn(c, ms[i])
    requires |c.ctl| <= U16(ms[k], 4) < 16
    ensures var m, typ := ms[k], U16(ms[k], 4);
            && (typ == 1 || typ == 4 ==> At(c, ms, ret, k, false, 1))
            && (typ == 3 ==> At(c, ms, ret, k, true, 0))
            && (typ == 2 && 36 <= |m| && U32(m, 16) == 0 ==> At(c, ms, ret, k, true, 0))
            && (typ == 2 && (|m| < 36 || U32(m, 16) != 0) ==> At(c, ms, ret, k, true, -1))
            && (typ == 0 || typ > 4 ==> At(c, ms, ret, k, false, LastReply(c, ms[..k], ret)))
  {
    AtMessage(c, ms, ret, k);
  }

  /** Every other message goes to the one handler for data or to the entry of the array for its type: a result of at most
      zero ends the run, any other one is kept; without a handler the message is passed over. */
  lemma {:induction false} HandledMessages(c: Context, ms: seq<Msg>, ret: int, k: nat)
    requires Headed(ms) && k < |ms| && Expected(c, ms[k]) && forall i | 0 <= i < k :: GoesOn(c, ms[i])
    requires 16 <= U16(ms[k], 4) || U16(ms[k], 4) < |c.ctl|
    ensures var m, typ := ms[k], U16(ms[k], 4);
            var h := if 16 <= typ then c.data else c.ctl[typ];
            && (h.Some? ==> At(c, ms, ret, k, h.value(m) <= 0, h.value(m)))
            && (h == None ==> At(c, ms, ret, k, false, LastReply(c, ms[..k], ret)))
  {
    AtMessage(c, ms, ret, k);
  }

  /** A batch that was sent is handled message by message, in order, until a handler says stop. */
  lemma {:induction false} BatchDelivered(ms: seq<Msg>, limit: nat, c: Context)
    requires AllFit(ms, limit) && limit < 0x8000_0000
    ensures Headed(ms) && Sane(Concat(ms), 0) && Messages(Concat(ms), 0) == ms
    ensures var (v, r) := Dispatch(c, Messages(Concat(ms), 0), 1);
            |v| <= |ms| && ms[..|v|] == v && (r > 0 ==> v == ms)
  {
    JoinedIsConcat(ms);
    assert Concat(ms)[0..] == Concat(ms);
    BatchMessages(ms, limit, Concat(ms), 0);
    DispatchPrefix(c, ms, 1);
  }
}
