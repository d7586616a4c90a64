/** The queue of pending timers (timer_queue.c): a singly linked list sorted by timeout. */
module TimerQueue {
  // ----- Queues as values -----

  /** A queued timer and its timeout in microseconds. */
  datatype Entry<T> = Entry(id: T, at: int)

  /** The first position whose timeout is later than at. */
  function Position<T>(q: seq<Entry<T>>, at: int): (k: nat)
    ensures k <= |q|
    ensures forall i | 0 <= i < k :: q[i].at <= at
    ensures k < |q| ==> at < q[k].at
  {
    if q == [] || at < q[0].at then 0 else 1 + Position(q[1..], at)
  }

  function Insert<T>(q: seq<Entry<T>>, e: Entry<T>): seq<Entry<T>> {
    var k := Position(q, e.at);
    q[..k] + [e] + q[k..]
  }

  predicate Sorted<T>(q: seq<Entry<T>>) {
    forall i, j | 0 <= i < j < |q| :: q[i].at <= q[j].at
  }

  predicate Distinct<T(==)>(q: seq<Entry<T>>) {
    forall i, j | 0 <= i < j < |q| :: q[i].id != q[j].id
  }

  /** In a sorted queue the timers that are due are exactly those before the position of now. */
  lemma {:induction false} DueExactly<T>(q: seq<Entry<T>>, now: int, i: nat)
    requires Sorted(q) && i < |q|
    ensures q[i].at <= now <==> i < Position(q, now)
  {
    var k := Position(q, now);
    if k < i {
      assert q[k].at <= q[i].at;
    }
  }

  lemma {:induction false} InsertAt<T>(q: seq<Entry<T>>, e: Entry<T>, i: nat)
    requires i <= |q|
    ensures var k := Position(q, e.at);
            Insert(q, e)[i] == if i < k then q[i] else if i == k then e else q[i - 1]
  {
  }

  /** Inserting keeps the queue sorted, and a new timer waits behind all that are due at the same time. */
  lemma {:induction false} InsertSorted<T>(q: seq<Entry<T>>, e: Entry<T>)
    requires Sorted(q)
    ensures Sorted(Insert(q, e)) && Insert(q, e)[Position(q, e.at)] == e
    ensures forall i | Position(q, e.at) < i <= |q| :: e.at < Insert(q, e)[i].at
  {
    var k, r := Position(q, e.at), Insert(q, e);
    forall i | k < i <= |q|
      ensures e.at < r[i].at
    {
      InsertAt(q, e, i);
      assert q[k].at <= q[i - 1].at;
    }
    forall i, j | 0 <= i < j <= |q|
      ensures r[i].at <= r[j].at
    {
      InsertAt(q, e, i);
      InsertAt(q, e, j);
    }
    InsertAt(q, e, k);
  }

  /** Inserting adds the new timer and nothing else. */
  lemma {:induction false} InsertAdds<T>(q: seq<Entry<T>>, e: Entry<T>)
    ensures multiset(Insert(q, e)) == multiset(q) + multiset{e}
  {
    var k := Position(q, e.at);
    assert q == q[..k] + q[k..];
  }

  lemma {:induction false} InsertDistinct<T>(q: seq<Entry<T>>, e: Entry<T>)
    requires Distinct(q) && forall i | 0 <= i < |q| :: q[i].id != e.id
    ensures Distinct(Insert(q, e))
  {
    var k, r := Position(q, e.at), Insert(q, e);
    forall i, j | 0 <= i < j < |r|
      ensures r[i].id != r[j].id
    {
      assert i < k ==> r[i] == q[i];
      assert j < k ==> r[j] == q[j];
      assert i > k ==> r[i] == q[i - 1];
      assert j > k ==> r[j] == q[j - 1];
    }
  }

  /** What a timer's handler does; Rearm queues its own timer again after msec. */
  datatype Handler = Missing | Once | Rearm(msec: int)

  /** The queue after the handlers of the expired timers have run in order; clock[i] is what the i-th
      handler reads as the present time. */
  function Run<T>(expired: seq<Entry<T>>, q: seq<Entry<T>>, handlers: seq<Handler>, clock: seq<int>): seq<Entry<T>>
    requires |expired| == |handlers| == |clock|
    decreases |expired|
  {
    if expired == [] then q
    else
      var h := handlers[0];
      var next := if h.Rearm? then Insert(q, Entry(expired[0].id, clock[0] + 1000 * h.msec)) else q;
      Run(expired[1..], next, handlers[1..], clock[1..])
  }

  /** Handlers that re-arm only their own timer keep the queue sorted and free of duplicates, however the
      clock advances. */
  lemma {:induction false} RunKeepsOrder<T>(expired: seq<Entry<T>>, q: seq<Entry<T>>, handlers: seq<Handler>, clock: seq<int>)
    requires |expired| == |handlers| == |clock|
    requires Sorted(q) && Distinct(expired + q)
    ensures Sorted(Run(expired, q, handlers, clock)) && Distinct(Run(expired, q, handlers, clock))
    decreases |expired|
  {
    if expired != [] {
      var e := Entry(expired[0].id, clock[0] + if handlers[0].Rearm? then 1000 * handlers[0].msec else 0);
      TailDistinct(expired, q);
      if handlers[0].Rearm? {
        InsertSorted(q, e);
        InsertDistinct(q, e);
        RearmedDistinct(expired, q, e);
        RunKeepsOrder(expired[1..], Insert(q, e), handlers[1..], clock[1..]);
      } else {
        RunKeepsOrder(expired[1..], q, handlers[1..], clock[1..]);
      }
    } else {
      assert expired + q == q;
    }
  }

  lemma {:induction false} TailDistinct<T>(expired: seq<Entry<T>>, q: seq<Entry<T>>)
    requires expired != [] && Distinct(expired + q)
    ensures Distinct(expired[1..] + q) && Distinct(q)
    ensures forall i | 0 <= i < |q| :: q[i].id != expired[0].id
  {
    var all := expired + q;
    assert expired[1..] + q == all[1..];
    assert all[0] == expired[0];
    assert forall i | 0 <= i < |q| :: q[i] == all[|expired| + i];
    forall i, j | 0 <= i < j < |all[1..]|
      ensures all[1..][i].id != all[1..][j].id
    {
      assert all[1..][i] == all[i + 1] && all[1..][j] == all[j + 1];
    }
    forall i, j | 0 <= i < j < |q|
      ensures q[i].id != q[j].id
    {
      assert all[|expired| + i] == q[i] && all[|expired| + j] == q[j];
    }
  }

  lemma {:induction false} RearmedDistinct<T>(expired: seq<Entry<T>>, q: seq<Entry<T>>, e: Entry<T>)
    requires expired != [] && e.id == expired[0].id && Distinct(expired + q) && Distinct(Insert(q, e))
    ensures Distinct(expired[1..] + Insert(q, e))
  {
    var all, r, k := expired + q, expired[1..] + Insert(q, e), Position(q, e.at);
    var n := |expired| - 1;
    assert all[0] == expired[0];
    forall i, j | 0 <= i < j < |r|
      ensures r[i].id != r[j].id
    {
      if i < n {
        assert r[i] == all[i + 1];
        if j < n {
          assert r[j] == all[j + 1];
        } else {
          var m := j - n;
          assert r[j] == Insert(q, e)[m];
          assert m < k ==> Insert(q, e)[m] == all[n + 1 + m];
          assert m > k ==> Insert(q, e)[m] == all[n + m];
        }
      } else {
        assert r[i] == Insert(q, e)[i - n] && r[j] == Insert(q, e)[j - n];
      }
    }
  }

  lemma {:induction false} InsertLater<T>(q: seq<Entry<T>>, e: Entry<T>, now: int)
    requires now < e.at && forall i | 0 <= i < |q| :: now < q[i].at
    ensures forall i | 0 <= i <= |q| :: now < Insert(q, e)[i].at
  {
    forall i | 0 <= i <= |q|
      ensures now < Insert(q, e)[i].at
    {
      InsertAt(q, e, i);
    }
  }

  /** Nothing that was due at now is left, except timers that handlers re-armed into the past. */
  lemma {:induction false} RunLeavesFuture<T>(expired: seq<Entry<T>>, q: seq<Entry<T>>, handlers: seq<Handler>, clock: seq<int>, now: int)
    requires |expired| == |handlers| == |clock|
    requires forall i | 0 <= i < |q| :: now < q[i].at
    requires forall i | 0 <= i < |clock| :: handlers[i].Rearm? ==> now < clock[i] + 1000 * handlers[i].msec
    ensures forall e | e in Run(expired, q, handlers, clock) :: now < e.at
    decreases |expired|
  {
    if expired != [] {
      var h := handlers[0];
      var e := Entry(expired[0].id, clock[0] + if h.Rearm? then 1000 * h.msec else 0);
      if h.Rearm? {
        InsertLater(q, e, now);
      }
      RunLeavesFuture(expired[1..], if h.Rearm? then Insert(q, e) else q, handlers[1..], clock[1..], now);
    } else {
      forall e | e in q ensures now < e.at {
        var i :| 0 <= i < |q| && q[i] == e;
      }
    }
  }

  /** The entry that the i-th handler queues. */
  predicate QueuedBy<T(==)>(e: Entry<T>, expired: seq<Entry<T>>, handlers: seq<Handler>, clock: seq<int>, i: nat)
    requires i < |expired| == |handlers| == |clock|
  {
    handlers[i].Rearm? && e.id == expired[i].id && e.at == clock[i] + 1000 * handlers[i].msec
  }

  lemma {:induction false} QueuedLater<T>(e: Entry<T>, expired: seq<Entry<T>>, handlers: seq<Handler>, clock: seq<int>)
    requires |expired| == |handlers| == |clock| > 0
    ensures (exists i | 0 <= i < |expired| :: QueuedBy(e, expired, handlers, clock, i)) <==>
            QueuedBy(e, expired, handlers, clock, 0)
            || exists i | 0 <= i < |expired[1..]| :: QueuedBy(e, expired[1..], handlers[1..], clock[1..], i)
  {
    if i :| 0 <= i < |expired| && QueuedBy(e, expired, handlers, clock, i) {
      assert i > 0 ==> QueuedBy(e, expired[1..], handlers[1..], clock[1..], i - 1);
    }
    if i :| 0 <= i < |expired[1..]| && QueuedBy(e, expired[1..], handlers[1..], clock[1..], i) {
      assert QueuedBy(e, expired, handlers, clock, i + 1);
    }
  }

  lemma {:induction false} InsertHas<T>(q: seq<Entry<T>>, x: Entry<T>, e: Entry<T>)
    ensures e in Insert(q, x) <==> e in q || e == x
  {
    InsertAdds(q, x);
    assert e in Insert(q, x) <==> e in multiset(Insert(q, x));
  }

  lemma {:induction false} RunOneHas<T>(e: Entry<T>, expired: seq<Entry<T>>, q: seq<Entry<T>>, handlers: seq<Handler>, clock: seq<int>)
    requires |expired| == |handlers| == |clock| > 0
    ensures e in RunOne(q, expired[0].id, handlers[0], clock[0]) <==> e in q || QueuedBy(e, expired, handlers, clock, 0)
  {
    if handlers[0].Rearm? {
      InsertHas(q, Entry(expired[0].id, clock[0] + 1000 * handlers[0].msec), e);
    }
  }

  /** After the handlers have run, the queue holds what it held before, untouched, and each timer whose handler re-armed it,
      msec after the handler's own reading of the clock; no other expired timer is queued. */
  lemma {:induction false} RunQueuesExactly<T>(expired: seq<Entry<T>>, q: seq<Entry<T>>, handlers: seq<Handler>, clock: seq<int>, e: Entry<T>)
    requires |expired| == |handlers| == |clock|
    ensures e in Run(expired, q, handlers, clock) <==>
            e in q || exists i | 0 <= i < |expired| :: QueuedBy(e, expired, handlers, clock, i)
    decreases |expired|
  {
    if expired != [] {
      QueuedLater(e, expired, handlers, clock);
      RunOneHas(e, expired, q, handlers, clock);
      RunQueuesExactly(expired[1..], RunOne(q, expired[0].id, handlers[0], clock[0]), handlers[1..], clock[1..], e);
    }
  }

  /** What timer_timeout leaves: the timers that are not due, with their timeouts, and the re-armed ones. */
  lemma {:induction false} TimedOutExactly<T>(q: seq<Entry<T>>, now: int, handlers: seq<Handler>, clock: seq<int>, e: Entry<T>)
    requires Sorted(q) && |handlers| == |clock| == Position(q, now)
    ensures var due := q[..Position(q, now)];
            e in Run(due, q[Position(q, now)..], handlers, clock) <==>
            (e in q && now < e.at) || exists i | 0 <= i < |due| :: QueuedBy(e, due, handlers, clock, i)
  {
    var k := Position(q, now);
    RunQueuesExactly(q[..k], q[k..], handlers, clock, e);
    if e in q && now < e.at {
      var i :| 0 <= i < |q| && q[i] == e;
      assert q[k..][i - k] == e;
    }
    if e in q[k..] {
      var i :| k <= i < |q| && q[i] == e;
      DueExactly(q, now, i);
    }
  }

  // ----- Time -----

  /** C division and remainder truncate toward zero. */
  function DivC(a: int, b: int): int
    requires b > 0
  {
    if a >= 0 then a / b else -(-a / b)
  }

  function ModC(a: int, b: int): int
    requires b > 0
  {
    a - b * DivC(a, b)
  }

  datatype Time = Time(sec: int, usec: int)

  function Micros(t: Time): int {
    1000000 * t.sec + t.usec
  }

  predicate Normal(t: Time) {
    0 <= t.usec < 1000000
  }

  /** The timeout that timer_add_msec computes. */
  function Later(now: Time, msec: int): Time {
    var usec := now.usec + msec * 1000;
    Time(now.sec + DivC(usec, 1000000), ModC(usec, 1000000))
  }

  /** The timeout is exactly msec after now; its fields are normal again exactly when the truncated
      remainder is not negative. */
  lemma {:induction false} LaterExact(now: Time, msec: int)
    requires Normal(now)
    ensures Micros(Later(now, msec)) == Micros(now) + 1000 * msec
    ensures Normal(Later(now, msec)) <==> now.usec + 1000 * msec >= 0 || (now.usec + 1000 * msec) % 1000000 == 0
  {
    var u := now.usec + 1000 * msec;
    if u < 0 {
      var v := -u;
      assert v == 1000000 * (v / 1000000) + v % 1000000;
      assert ModC(u, 1000000) == -(v % 1000000);
      NegMod(v);
    }
  }

  lemma {:induction false} LaterMicros(now: Time, msec: int)
    ensures Micros(Later(now, msec)) == Micros(now) + 1000 * msec
  {
  }

  lemma {:induction false} NegMod(v: int)
    requires v >= 0
    ensures (-v) % 1000000 == 0 <==> v % 1000000 == 0
  {
    var q, r := v / 1000000, v % 1000000;
    assert -v == 1000000 * (-q) + -r;
    if r == 0 {
      assert -v == 1000000 * (-q);
    } else {
      assert -v == 1000000 * (-q - 1) + (1000000 - r);
    }
  }

  /** The remaining time that timer_age_queue reports. */
  function Remaining(head: Time, now: Time): Time {
    var usec := head.usec - now.usec;
    if usec < 0 then Time(head.sec - now.sec - 1, usec + 1000000) else Time(head.sec - now.sec, usec)
  }

  lemma {:induction false} RemainingExact(head: Time, now: Time)
    requires Normal(head) && Normal(now)
    ensures Micros(Remaining(head, now)) == Micros(head) - Micros(now)
    ensures Normal(Remaining(head, now))
    ensures Remaining(head, now).sec >= 0 <==> Micros(now) <= Micros(head)
  {
  }

  // ----- The linked list -----

  class Timer {
    var timeout: Time
    const handler: Handler
    var used: bool
    var next: Timer?

    constructor (handler: Handler)
      ensures this.handler == handler && !used && next == null
    {
      this.handler := handler;
      timeout := Time(0, 0);
      used, next := false, null;
    }
  }

  predicate Linked(q: seq<Timer>, head: Timer?)
    reads q
  {
    && head == (if q == [] then null else q[0])
    && (forall i {:trigger q[i].next} | 0 <= i < |q| :: q[i].next == if i + 1 < |q| then q[i + 1] else null)
    && forall i, j | 0 <= i < j < |q| :: q[i] != q[j]
  }

  function Entries(q: seq<Timer>): (r: seq<Entry<Timer>>)
    reads q
    ensures |r| == |q| && forall i | 0 <= i < |q| :: r[i] == Entry(q[i], Micros(q[i].timeout))
  {
    seq(|q|, i requires 0 <= i < |q| reads q => Entry(q[i], Micros(q[i].timeout)))
  }

  /** The queue without its timer t. */
  function Without<T(==)>(q: seq<Entry<T>>, t: T): seq<Entry<T>> {
    if q == [] then [] else if q[0].id == t then q[1..] else [q[0]] + Without(q[1..], t)
  }

  lemma {:induction false} WithoutAt<T>(q: seq<Entry<T>>, t: T, i: nat)
    requires i <= |q| && (forall j | 0 <= j < i :: q[j].id != t) && (i < |q| ==> q[i].id == t)
    ensures Without(q, t) == if i < |q| then q[..i] + q[i + 1..] else q
  {
    if i > 0 {
      WithoutAt(q[1..], t, i - 1);
    }
  }

  lemma {:induction false} SortedWithout<T>(q: seq<Entry<T>>, i: nat)
    requires Sorted(q) && i < |q|
    ensures Sorted(q[..i] + q[i + 1..])
  {
    var r := q[..i] + q[i + 1..];
    forall j, k | 0 <= j < k < |r|
      ensures r[j].at <= r[k].at
    {
      assert r[j] == q[if j < i then j else j + 1] && r[k] == q[if k < i then k else k + 1];
    }
  }

  lemma {:induction false} SortedAround<T>(q: seq<Entry<T>>, t: T)
    requires Sorted(q)
    ensures Sorted(Without(q, t))
  {
    var i := FirstOf(q, t);
    WithoutAt(q, t, i);
    if i < |q| {
      SortedWithout(q, i);
    }
  }

  function FirstOf<T(==)>(q: seq<Entry<T>>, t: T): (i: nat)
    ensures i <= |q| && (forall j | 0 <= j < i :: q[j].id != t) && (i < |q| ==> q[i].id == t)
  {
    if q == [] || q[0].id == t then 0 else 1 + FirstOf(q[1..], t)
  }

  lemma {:induction false} MembersWithout(q: seq<Timer>, i: nat)
    requires i < |q| && forall j, k | 0 <= j < k < |q| :: q[j] != q[k]
    ensures forall u :: u in q[..i] + q[i + 1..] <==> u in q && u != q[i]
  {
  }

  lemma {:induction false} PositionIs<T>(q: seq<Entry<T>>, at: int, k: nat)
    requires k <= |q| && (forall i | 0 <= i < k :: q[i].at <= at) && (k < |q| ==> at < q[k].at)
    ensures Position(q, at) == k
  {
  }

  lemma {:induction false} Inserted<T>(q: seq<Entry<T>>, e: Entry<T>) returns (r: seq<Entry<T>>)
    requires Sorted(q)
    ensures r == Insert(q, e) && Sorted(r)
  {
    InsertSorted(q, e);
    r := Insert(q, e);
  }

  lemma {:induction false} WithoutAbsent<T>(q: seq<Entry<T>>, t: T)
    requires forall i | 0 <= i < |q| :: q[i].id != t
    ensures Without(q, t) == q
  {
    WithoutAt(q, t, |q|);
  }

  /** The queue without t does not depend on the timeout of t. */
  lemma {:induction false} WithoutChanged<T>(q: seq<Entry<T>>, r: seq<Entry<T>>, t: T)
    requires |q| == |r| && Distinct(q)
    requires forall i | 0 <= i < |q| :: q[i].id == r[i].id && (q[i].id == t || q[i] == r[i])
    ensures Without(q, t) == Without(r, t)
  {
    var i := FirstOf(q, t);
    WithoutAt(q, t, i);
    WithoutAt(r, t, i);
    var x, y := Without(q, t), Without(r, t);
    forall j | 0 <= j < |x|
      ensures x[j] == y[j]
    {
      assert x[j] == q[if j < i then j else j + 1] && y[j] == r[if j < i then j else j + 1];
    }
  }

  lemma {:induction false} LinkedEntries<T>(q: seq<Entry<T>>, e: Entry<T>, k: nat, r: seq<Entry<T>>)
    requires k == Position(q, e.at) && |r| == |q| + 1
    requires forall i {:trigger r[i]} | 0 <= i < |r| :: r[i] == if i < k then q[i] else if i == k then e else q[i - 1]
    ensures r == Insert(q, e)
  {
    forall i | 0 <= i < |r|
      ensures r[i] == Insert(q, e)[i]
    {
      InsertAt(q, e, i);
    }
  }

  lemma {:induction false} MembersWith(q: seq<Timer>, k: nat, t: Timer)
    requires k <= |q|
    ensures forall u :: u in q[..k] + [t] + q[k..] <==> u in q || u == t
  {
    assert q == q[..k] + q[k..];
  }

  class TimerQueue {
    var TQ: Timer?
    ghost var queue: seq<Timer>
    ghost var known: set<Timer>

    /** The list is acyclic and sorted, and used marks exactly the queued timers. */
    ghost predicate Valid()
      reads this, known, queue
    {
      && (forall t | t in queue :: t in known)
      && Linked(queue, TQ)
      && Sorted(Entries(queue))
      && forall t | t in known :: t.used <==> t in queue
    }

    constructor ()
      ensures Valid() && queue == [] && known == {}
    {
      TQ := null;
      queue, known := [], {};
    }

    /** The walk along the list to t. */
    method Find(t: Timer) returns (prev: Timer?, curr: Timer?, ghost i: nat)
      requires Linked(queue, TQ)
      ensures i <= |queue| && t !in queue[..i]
      ensures curr == (if i < |queue| then queue[i] else null)
      ensures prev == (if i > 0 then queue[i - 1] else null)
      ensures curr == null || curr == t
    {
      prev, curr, i := null, TQ, 0;
      while curr != null
        invariant 0 <= i <= |queue| && t !in queue[..i]
        invariant curr == (if i < |queue| then queue[i] else null)
        invariant prev == (if i > 0 then queue[i - 1] else null)
        decreases |queue| - i
      {
        if curr == t {
          return;
        }
        prev, curr := curr, curr.next;
        i := i + 1;
      }
    }

    /** Take t, the i-th timer, out of the list. */
    method Unlink(prev: Timer?, t: Timer, ghost i: nat)
      requires Linked(queue, TQ) && i < |queue| && t == queue[i]
      requires prev == (if i > 0 then queue[i - 1] else null)
      modifies this, queue
      ensures queue == old(queue)[..i] + old(queue)[i + 1..]
      ensures Linked(queue, TQ) && known == old(known)
      ensures forall u | u in old(queue) :: u.timeout == old(u.timeout) && u.used == old(u.used)
    {
      ghost var was := queue;
      assert t.next == if i + 1 < |was| then was[i + 1] else null;
      assert forall x | 0 <= x < |was| :: was[x].next == if x + 1 < |was| then was[x + 1] else null;
      if prev == null {
        TQ := t.next;
      } else {
        prev.next := t.next;
      }
      t.next := null;
      queue := was[..i] + was[i + 1..];
      forall j | 0 <= j < |queue|
        ensures queue[j].next == if j + 1 < |queue| then queue[j + 1] else null
      {
        var x := if j < i then j else j + 1;
        assert queue[j] == was[x] && was[x] != t;
        assert x + 1 == i ==> was[x] == prev;
        assert x + 1 != i ==> was[x] != prev && was[x].next == old(was[x].next);
        assert j + 1 < |queue| ==> queue[j + 1] == was[if j + 1 < i then j + 1 else j + 2];
      }
      forall j, k | 0 <= j < k < |queue|
        ensures queue[j] != queue[k]
      {
        assert queue[j] == if j < i then was[j] else was[j + 1];
        assert queue[k] == if k < i then was[k] else was[k + 1];
      }
    }

    /** Valid, but for the timeout of t, which may have been changed while t is queued. */
    ghost predicate Around(t: Timer)
      reads this, known, queue
    {
      && (forall u | u in queue :: u in known)
      && Linked(queue, TQ)
      && Sorted(Without(Entries(queue), t))
      && forall u | u in known :: u.used <==> u in queue
    }

    lemma {:induction false} ValidIsAround(t: Timer)
      requires Valid()
      ensures Around(t)
    {
      SortedAround(Entries(queue), t);
    }

    /** The same, but for the flag of t as well. */
    ghost predicate ValidBut(t: Timer)
      reads this, known, queue
    {
      && (forall u | u in queue :: u in known)
      && Linked(queue, TQ)
      && Sorted(Without(Entries(queue), t))
      && forall u | u in known && u != t :: u.used <==> u in queue
    }

    /** The part of timer_remove after the walk has found t. */
    method Remove(prev: Timer?, t: Timer, ghost i: nat)
      requires ValidBut(t) && !t.used && i < |queue| && t == queue[i]
      requires prev == (if i > 0 then queue[i - 1] else null)
      modifies this, queue
      ensures Valid() && known == old(known) && t !in queue && !t.used
      ensures Entries(queue) == old(Entries(queue))[..i] + old(Entries(queue))[i + 1..]
      ensures forall u | u in old(queue) :: u.timeout == old(u.timeout)
    {
      ghost var was, q := Entries(queue), queue;
      WithoutAt(was, t, i);
      MembersWithout(q, i);
      UnlinkEntry(prev, t, i);
      assert Entries(queue) == Without(was, t);
      forall u | u in known
        ensures u.used <==> u in queue
      {
        assert u in queue <==> u in q && u != t;
      }
    }

    method UnlinkEntry(prev: Timer?, t: Timer, ghost i: nat)
      requires Linked(queue, TQ) && i < |queue| && t == queue[i]
      requires prev == (if i > 0 then queue[i - 1] else null)
      modifies this, queue
      ensures queue == old(queue)[..i] + old(queue)[i + 1..]
      ensures Entries(queue) == old(Entries(queue))[..i] + old(Entries(queue))[i + 1..]
      ensures Linked(queue, TQ) && known == old(known)
      ensures forall u | u in old(queue) :: u.timeout == old(u.timeout) && u.used == old(u.used)
    {
      ghost var was := Entries(queue);
      Unlink(prev, t, i);
      assert Entries(queue) == was[..i] + was[i + 1..];
    }

    method ClearUsed(t: Timer)
      requires Around(t) && t in known
      modifies t
      ensures ValidBut(t) && !t.used && t.timeout == old(t.timeout)
    {
      t.used := false;
      assert Entries(queue) == old(Entries(queue));
    }

    /** timer_remove. */
    method TimerRemove(t: Timer) returns (r: int)
      requires Around(t) && t in known
      modifies this, known
      ensures Valid() && known == old(known) && t !in queue && !t.used
      ensures r == (if t in old(queue) then 0 else -1)
      ensures Entries(queue) == Without(old(Entries(queue)), t)
      ensures t.timeout == old(t.timeout)
    {
      ghost var was := Entries(queue);
      ClearUsed(t);
      assert Entries(queue) == was;
      var prev, curr, i := Find(t);
      WithoutAt(was, t, i);
      if curr == null {
        return -1;
      }
      Remove(prev, t, i);
      return 0;
    }

    /** The walk along the list to the place of a new timeout. */
    method FindPlace(at: Time) returns (prev: Timer?, curr: Timer?, ghost k: nat)
      requires Linked(queue, TQ)
      ensures k == Position(Entries(queue), Micros(at))
      ensures curr == (if k < |queue| then queue[k] else null)
      ensures prev == (if k > 0 then queue[k - 1] else null)
    {
      prev, curr, k := null, TQ, 0;
      while curr != null
        invariant 0 <= k <= |queue|
        invariant curr == (if k < |queue| then queue[k] else null)
        invariant prev == (if k > 0 then queue[k - 1] else null)
        invariant forall i | 0 <= i < k :: Entries(queue)[i].at <= Micros(at)
        decreases |queue| - k
      {
        if Micros(at) - Micros(curr.timeout) < 0 {
          break;
        }
        prev, curr := curr, curr.next;
        k := k + 1;
      }
      PositionIs(Entries(queue), Micros(at), k);
    }

    /** Put t between prev and curr. */
    method Link(prev: Timer?, curr: Timer?, t: Timer, ghost k: nat)
      requires Linked(queue, TQ) && k <= |queue| && t !in queue
      requires curr == (if k < |queue| then queue[k] else null)
      requires prev == (if k > 0 then queue[k - 1] else null)
      modifies this, t, queue
      ensures queue == old(queue)[..k] + [t] + old(queue)[k..]
      ensures forall i | 0 <= i < |queue| ::
                queue[i] == if i < k then old(queue)[i] else if i == k then t else old(queue)[i - 1]
      ensures Linked(queue, TQ) && known == old(known)
      ensures forall u | u in old(queue) || u == t :: u.timeout == old(u.timeout) && u.used == old(u.used)
    {
      ghost var was := queue;
      t.next := curr;
      if prev == null {
        TQ := t;
      } else {
        prev.next := t;
      }
      queue := was[..k] + [t] + was[k..];
      forall j | 0 <= j < |queue|
        ensures queue[j].next == if j + 1 < |queue| then queue[j + 1] else null
      {
        if j != k {
          var x := if j < k then j else j - 1;
          assert queue[j] == was[x];
          assert x + 1 == k ==> was[x] == prev;
          assert x + 1 != k ==> was[x] != prev && was[x].next == old(was[x].next);
        }
      }
      forall i, j | 0 <= i < j < |queue|
        ensures queue[i] != queue[j]
      {
        assert i != k ==> queue[i] == was[if i < k then i else i - 1];
        assert j != k ==> queue[j] == was[if j < k then j else j - 1];
      }
    }

    method LinkEntry(prev: Timer?, curr: Timer?, t: Timer, ghost k: nat, ghost e: Entry<Timer>)
      requires Linked(queue, TQ) && t !in queue
      requires e == Entry(t, Micros(t.timeout)) && k == Position(Entries(queue), e.at)
      requires curr == (if k < |queue| then queue[k] else null)
      requires prev == (if k > 0 then queue[k - 1] else null)
      modifies this, t, queue
      ensures forall u :: u in queue <==> u in old(queue) || u == t
      ensures Entries(queue) == Insert(old(Entries(queue)), e)
      ensures Linked(queue, TQ) && known == old(known)
      ensures forall u | u in old(queue) || u == t :: u.timeout == old(u.timeout) && u.used == old(u.used)
    {
      ghost var was := Entries(queue);
      ghost var q := queue;
      Link(prev, curr, t, k);
      MembersWith(q, k, t);
      LinkedEntries(was, e, k, Entries(queue));
    }

    /** The part of timer_add that follows the removal of a queued timer. */
    method Enqueue(t: Timer)
      requires Valid() && t !in queue && !t.used
      modifies this, known, t
      ensures Valid() && known == old(known) + {t}
      ensures Entries(queue) == Insert(old(Entries(queue)), Entry(t, Micros(t.timeout)))
      ensures t.timeout == old(t.timeout)
    {
      ghost var e, was, q := Entry(t, Micros(t.timeout)), Entries(queue), queue;
      ghost var r := Inserted(was, e);
      var prev, curr, k := FindPlace(t.timeout);
      LinkEntry(prev, curr, t, k, e);
      MarkUsed(t, q, r);
    }

    method MarkUsed(t: Timer, ghost was: seq<Timer>, ghost r: seq<Entry<Timer>>)
      requires forall u :: u in queue <==> u in was || u == t
      requires forall u | u in was :: u in known
      requires Linked(queue, TQ) && Entries(queue) == r && Sorted(r)
      requires forall u | u in known && u != t :: u.used <==> u in was
      modifies `known, t`used
      ensures Valid() && known == old(known) + {t} && Entries(queue) == r
    {
      t.used := true;
      known := known + {t};
      assert Entries(queue) == old(Entries(queue));
    }

    /** timer_add; a timer without a handler ends the program before anything changes. */
    method TimerAdd(t: Timer) returns (ok: bool)
      requires Around(t) && (t in known || (!t.used && t !in queue))
      modifies this, known, t
      ensures ok <==> !t.handler.Missing?
      ensures !ok ==> unchanged(this) && unchanged(t)
      ensures ok ==> Valid() && known == old(known) + {t}
      ensures ok ==> Entries(queue) == Insert(Without(old(Entries(queue)), t), Entry(t, Micros(t.timeout)))
      ensures t.timeout == old(t.timeout)
    {
      if t.handler.Missing? {
        return false;
      }
      ghost var was := Entries(queue);
      if t.used {
        var _ := TimerRemove(t);
      } else {
        WithoutAbsent(was, t);
      }
      Enqueue(t);
      return true;
    }

    /** The first part of timer_add_msec: a queued timer may get a new timeout; timer_add takes it out first. */
    method SetTimeout(t: Timer, msec: int, present: Time)
      requires Valid()
      modifies t`timeout
      ensures t.timeout == Later(present, msec) && Micros(t.timeout) == Micros(present) + 1000 * msec
      ensures Around(t) && Without(Entries(queue), t) == Without(old(Entries(queue)), t)
    {
      LaterMicros(present, msec);
      ValidIsAround(t);
      ghost var was := Entries(queue);
      var usec := present.usec + msec * 1000;
      t.timeout := Time(present.sec + DivC(usec, 1000000), ModC(usec, 1000000));
      WithoutChanged(was, Entries(queue), t);
    }

    /** timer_add_msec: present is what the clock shows, w the queue without t. */
    method TimerAddMsec(t: Timer, msec: int, present: Time, ghost w: seq<Entry<Timer>>) returns (ok: bool)
      requires Valid() && (t in known || (!t.used && t !in queue)) && w == Without(Entries(queue), t)
      modifies this, known, t
      ensures ok <==> !t.handler.Missing?
      ensures ok ==> Valid() && known == old(known) + {t}
      ensures ok ==> Entries(queue) == Insert(w, Entry(t, Micros(present) + 1000 * msec))
    {
      ghost var e := Entry(t, Micros(present) + 1000 * msec);
      SetTimeout(t, msec, present);
      ok := TimerAddEntry(t, w, e);
    }

    /** timer_add, for a queue that is w without t. */
    method TimerAddEntry(t: Timer, ghost w: seq<Entry<Timer>>, ghost e: Entry<Timer>) returns (ok: bool)
      requires Around(t) && (t in known || (!t.used && t !in queue))
      requires w == Without(Entries(queue), t) && e == Entry(t, Micros(t.timeout))
      modifies this, known, t
      ensures ok <==> !t.handler.Missing?
      ensures ok ==> Valid() && known == old(known) + {t} && Entries(queue) == Insert(w, e)
    {
      ok := TimerAdd(t);
    }

    /** The walk over the expired timers. */
    method FindExpired(now: Time) returns (prev: Timer?, rest: Timer?, ghost k: nat)
      requires Linked(queue, TQ)
      ensures k == Position(Entries(queue), Micros(now))
      ensures rest == (if k < |queue| then queue[k] else null)
      ensures prev == (if k > 0 then queue[k - 1] else null)
    {
      prev, rest, k := null, TQ, 0;
      while rest != null
        invariant 0 <= k <= |queue|
        invariant rest == (if k < |queue| then queue[k] else null)
        invariant prev == (if k > 0 then queue[k - 1] else null)
        invariant forall i | 0 <= i < k :: Entries(queue)[i].at <= Micros(now)
        decreases |queue| - k
      {
        if Micros(rest.timeout) - Micros(now) > 0 {
          break;
        }
        prev, rest := rest, rest.next;
        k := k + 1;
      }
      PositionIs(Entries(queue), Micros(now), k);
    }

    /** Decouple the first k timers from the rest of the queue. */
    method Cut(prev: Timer?, rest: Timer?, ghost k: nat) returns (expired: Timer?, ghost ex: seq<Timer>)
      requires Linked(queue, TQ) && 0 < k <= |queue|
      requires rest == (if k < |queue| then queue[k] else null) && prev == queue[k - 1]
      modifies this, queue
      ensures ex == old(queue)[..k] && queue == old(queue)[k..]
      ensures Linked(ex, expired) && Linked(queue, TQ) && known == old(known)
      ensures forall u | u in old(queue) :: u.timeout == old(u.timeout) && u.used == old(u.used)
    {
      ghost var was := queue;
      expired, TQ := TQ, rest;
      prev.next := null;
      ex, queue := was[..k], was[k..];
      forall i | 0 <= i < |ex|
        ensures ex[i].next == if i + 1 < |ex| then ex[i + 1] else null
      {
        assert i + 1 < k ==> was[i] != prev && was[i].next == old(was[i].next);
      }
      forall i | 0 <= i < |queue|
        ensures queue[i].next == if i + 1 < |queue| then queue[i + 1] else null
      {
        assert queue[i] == was[k + i] && was[k + i] != prev && was[k + i].next == old(was[k + i].next);
      }
    }

    method CutEntries(prev: Timer?, rest: Timer?, ghost k: nat) returns (expired: Timer?, ghost ex: seq<Timer>)
      requires Linked(queue, TQ) && 0 < k <= |queue| && Sorted(Entries(queue))
      requires rest == (if k < |queue| then queue[k] else null) && prev == queue[k - 1]
      modifies this, queue
      ensures ex == old(queue)[..k] && Entries(queue) == old(Entries(queue))[k..] && Sorted(Entries(queue))
      ensures Linked(ex, expired) && Linked(queue, TQ) && known == old(known)
      ensures forall u :: u in old(queue) <==> u in ex || u in queue
      ensures forall u | u in ex :: u !in queue
      ensures forall u | u in old(queue) :: u.timeout == old(u.timeout) && u.used == old(u.used)
    {
      ghost var was := Entries(queue);
      SplitSorted(was, k);
      SplitMembers(queue, k);
      expired, ex := Cut(prev, rest, k);
      assert Entries(queue) == was[k..];
    }

    /** The same, seen from the queue: the expired timers leave it but keep their flag. */
    method Decouple(prev: Timer?, rest: Timer?, ghost k: nat) returns (expired: Timer?, ghost ex: seq<Timer>)
      requires Valid() && 0 < k <= |queue|
      requires rest == (if k < |queue| then queue[k] else null) && prev == queue[k - 1]
      modifies this, queue
      ensures Valid() && known == old(known) - Set(ex)
      ensures ex == old(queue)[..k] && Entries(queue) == old(Entries(queue))[k..]
      ensures Linked(ex, expired) && Set(ex) <= old(known)
      ensures forall u | u in old(queue) :: u.timeout == old(u.timeout)
    {
      expired, ex := CutEntries(prev, rest, k);
      known := known - Set(ex);
    }

    /** The first half of timer_timeout. */
    method TakeExpired(now: Time) returns (expired: Timer?, ghost ex: seq<Timer>, ghost k: nat)
      requires Valid()
      modifies this, queue
      ensures Valid() && known == old(known) - Set(ex)
      ensures k == Position(old(Entries(queue)), Micros(now))
      ensures ex == old(queue)[..k] && Entries(queue) == old(Entries(queue))[k..]
      ensures Linked(ex, expired) && Set(ex) <= old(known)
      ensures forall u | u in old(queue) :: u.timeout == old(u.timeout)
    {
      var prev, rest;
      prev, rest, k := FindExpired(now);
      if prev == null {
        expired, ex := null, [];
      } else {
        expired, ex := Decouple(prev, rest, k);
      }
    }

    method Release(t: Timer)
      requires Valid() && t !in known
      modifies `known, t`used
      ensures Valid() && known == old(known) + {t} && !t.used && Entries(queue) == old(Entries(queue))
    {
      t.used := false;
      known := known + {t};
      assert Entries(queue) == old(Entries(queue));
    }

    /** An expired timer loses its flag and its handler runs; r is the queue that this must leave. */
    method Expire(t: Timer, present: Time, ghost r: seq<Entry<Timer>>)
      requires Valid() && t !in known && !t.handler.Missing?
      requires r == RunOne(Entries(queue), t, t.handler, Micros(present))
      modifies this, known, t
      ensures Valid() && known == old(known) + {t} && Entries(queue) == r
    {
      Release(t);
      if t.handler.Rearm? {
        Rearmed(t, t.handler.msec, present, r);
      }
    }

    /** A handler queues its own, released timer again. */
    method Rearmed(t: Timer, msec: int, present: Time, ghost r: seq<Entry<Timer>>)
      requires Valid() && t in known && !t.used && !t.handler.Missing?
      requires r == Insert(Entries(queue), Entry(t, Micros(present) + 1000 * msec))
      modifies this, known
      ensures Valid() && known == old(known) && Entries(queue) == r
    {
      WithoutAbsent(Entries(queue), t);
      var _ := TimerAddMsec(t, msec, present, Entries(queue));
    }

    ghost predicate Waiting(rest: seq<Timer>)
      reads this
    {
      forall t | t in rest :: t !in known && !t.handler.Missing?
    }

    /** The same for the head of the decoupled list rest. */
    method ExpireHead(head: Timer, ghost rest: seq<Timer>, present: Time) returns (next: Timer?)
      requires Valid() && Linked(rest, head) && rest != [] && Waiting(rest)
      modifies this, known, head
      ensures Valid() && known == old(known) + {head} && Linked(rest[1..], next) && Waiting(rest[1..])
      ensures Entries(queue) == RunOne(old(Entries(queue)), head, head.handler, Micros(present))
    {
      next := head.next;
      TailLinked(rest, head);
      assert forall i | 0 <= i < |rest[1..]| :: rest[1..][i] != head && rest[1..][i] !in known;
      Expire(head, present, RunOne(Entries(queue), head, head.handler, Micros(present)));
    }

    /** The second half of timer_timeout: the handlers of the decoupled timers run in order. */
    method RunHandlers(head: Timer?, ghost ex: seq<Timer>, ghost es: seq<Entry<Timer>>, clock: seq<Time>)
      requires Valid() && Linked(ex, head) && Same(ex, es) && |clock| >= |ex|
      requires Waiting(ex)
      modifies this, known, ex
      ensures Valid() && known == old(known) + Set(ex)
      ensures Entries(queue) == Run(es, old(Entries(queue)), Handlers(ex), Readings(clock[..|ex|]))
    {
      var expired, i := head, 0;
      ghost var rest, out := ex, Run(es, Entries(queue), Handlers(ex), Readings(clock[..|ex|]));
      while expired != null
        invariant 0 <= i <= |ex| && rest == ex[i..] && Linked(rest, expired)
        invariant Valid() && known == old(known) + Set(ex[..i])
        invariant Waiting(rest)
        invariant RunFrom(es, Entries(queue), ex, clock, i) == out
        decreases |rest|
      {
        RunFromStep(es, Entries(queue), ex, clock, i);
        SetStep(ex, i);
        expired := ExpireHead(expired, rest, clock[i]);
        rest := rest[1..];
        i := i + 1;
      }
      assert ex[..i] == ex;
    }

    /** timer_timeout: clock[i] is what the i-th handler sees as the present. */
    method TimerTimeout(now: Time, clock: seq<Time>) returns (ghost ran: seq<Timer>)
      requires Valid() && |clock| >= |queue| && forall t | t in queue :: !t.handler.Missing?
      modifies this, known
      ensures Valid() && known == old(known)
      ensures var q, k := old(Entries(queue)), Position(old(Entries(queue)), Micros(now));
              && ran == old(queue)[..k]
              && Entries(queue) == Run(q[..k], q[k..], Handlers(ran), Readings(clock[..k]))
    {
      ghost var was := Entries(queue);
      var expired, ex, k := TakeExpired(now);
      RunHandlers(expired, ex, was[..k], clock);
      ran := ex;
    }

    /** timer_age_queue: run what is due and report the time until the next timeout, if there is one. */
    method TimerAgeQueue(now: Time, clock: seq<Time>) returns (remaining: Time, any: bool)
      requires Valid() && |clock| >= |queue| && forall t | t in queue :: !t.handler.Missing?
      modifies this, known
      ensures Valid() && known == old(known)
      ensures var q, k := old(Entries(queue)), Position(old(Entries(queue)), Micros(now));
              Entries(queue) == Run(q[..k], q[k..], Handlers(old(queue)[..k]), Readings(clock[..k]))
      ensures any <==> queue != []
      ensures any ==> remaining == Remaining(queue[0].timeout, now)
    {
      ghost var ran := TimerTimeout(now, clock);
      if TQ == null {
        return Time(0, 0), false;
      }
      var usec := TQ.timeout.usec - now.usec;
      var sec := TQ.timeout.sec - now.sec;
      if usec < 0 {
        usec := usec + 1000000;
        sec := sec - 1;
      }
      return Time(sec, usec), true;
    }
  }

  predicate Same<T(==)>(ts: seq<T>, es: seq<Entry<T>>) {
    |ts| == |es| && forall i | 0 <= i < |ts| :: es[i].id == ts[i]
  }

  /** What is still to run after the first i handlers. */
  ghost function RunFrom(es: seq<Entry<Timer>>, q: seq<Entry<Timer>>, ex: seq<Timer>, clock: seq<Time>, i: nat): seq<Entry<Timer>>
    requires i <= |es| == |ex| <= |clock|
  {
    Run(es[i..], q, Handlers(ex)[i..], Readings(clock[..|ex|])[i..])
  }

  lemma {:induction false} RunFromStep(es: seq<Entry<Timer>>, q: seq<Entry<Timer>>, ex: seq<Timer>, clock: seq<Time>, i: nat)
    requires i < |es| == |ex| <= |clock| && Same(ex, es)
    ensures RunFrom(es, q, ex, clock, i) ==
            RunFrom(es, RunOne(q, ex[i], ex[i].handler, Micros(clock[i])), ex, clock, i + 1)
  {
    RunStep(es, q, Handlers(ex), Readings(clock[..|ex|]), i);
  }

  lemma {:induction false} TailLinked(q: seq<Timer>, head: Timer)
    requires Linked(q, head) && q != []
    ensures Linked(q[1..], head.next)
  {
    var r := q[1..];
    forall i | 0 <= i < |r|
      ensures r[i].next == if i + 1 < |r| then r[i + 1] else null
    {
      assert q[i + 1].next == if i + 2 < |q| then q[i + 2] else null;
    }
    assert q[0].next == if 1 < |q| then q[1] else null;
  }

  lemma {:induction false} SetStep(s: seq<Timer>, i: nat)
    requires i < |s| && forall j, k | 0 <= j < k < |s| :: s[j] != s[k]
    ensures Set(s[..i + 1]) == Set(s[..i]) + {s[i]}
    ensures s[i..][1..] == s[i + 1..] && s[i] == s[i..][0] && s[i] !in s[i + 1..]
  {
    assert s[..i + 1] == s[..i] + [s[i]];
  }

  function RunOne<T>(q: seq<Entry<T>>, t: T, h: Handler, present: int): seq<Entry<T>> {
    if h.Rearm? then Insert(q, Entry(t, present + 1000 * h.msec)) else q
  }

  function Handlers(ts: seq<Timer>): (r: seq<Handler>)
    ensures |r| == |ts| && forall i | 0 <= i < |ts| :: r[i] == ts[i].handler
  {
    seq(|ts|, i requires 0 <= i < |ts| => ts[i].handler)
  }

  function Readings(ts: seq<Time>): (r: seq<int>)
    ensures |r| == |ts| && forall i | 0 <= i < |ts| :: r[i] == Micros(ts[i])
  {
    seq(|ts|, i requires 0 <= i < |ts| => Micros(ts[i]))
  }

  lemma {:induction false} RunStep<T>(expired: seq<Entry<T>>, q: seq<Entry<T>>, hs: seq<Handler>, cs: seq<int>, i: nat)
    requires |expired| == |hs| == |cs| && i < |expired|
    ensures Run(expired[i..], q, hs[i..], cs[i..]) ==
            Run(expired[i + 1..], RunOne(q, expired[i].id, hs[i], cs[i]), hs[i + 1..], cs[i + 1..])
  {
    assert expired[i..][1..] == expired[i + 1..] && hs[i..][1..] == hs[i + 1..] && cs[i..][1..] == cs[i + 1..];
  }

  ghost function Set(s: seq<Timer>): set<Timer> {
    set t | t in s
  }

  lemma {:induction false} SplitSorted<T>(q: seq<Entry<T>>, k: nat)
    requires Sorted(q) && k <= |q|
    ensures Sorted(q[k..])
  {
    forall i, j | 0 <= i < j < |q[k..]|
      ensures q[k..][i].at <= q[k..][j].at
    {
      assert q[k..][i] == q[k + i] && q[k..][j] == q[k + j];
    }
  }

  lemma {:induction false} SplitMembers(q: seq<Timer>, k: nat)
    requires k <= |q| && forall i, j | 0 <= i < j < |q| :: q[i] != q[j]
    ensures forall u :: u in q <==> u in q[..k] || u in q[k..]
    ensures forall u | u in q[..k] :: u !in q[k..]
  {
    assert q == q[..k] + q[k..];
    forall u | u in q[..k]
      ensures u !in q[k..]
    {
      var i :| 0 <= i < k && q[i] == u;
      assert forall j | 0 <= j < |q| - k :: q[k..][j] == q[k + j];
    }
  }
}
