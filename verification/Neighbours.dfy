/** The neighbour table, refreshed by heartbeats and aged by ticks (heart_beat.c). */
module Neighbours {
  import opened Wrappers
  import opened Hypercube
  import opened Metric
  import opened Allocation

  /** N_INACT of labels.h; ListedExactly holds for every limit of at least one. */
  const N_INACT: int := 1

  predicate Unique(s: seq<Neighbour>) {
    forall i, j | 0 <= i < j < |s| :: s[i].addr != s[j].addr
  }

  /** Position of the entry with this address, or the length of the table. */
  function IndexAt(s: seq<Neighbour>, a: Host): (i: nat)
    ensures i <= |s| && (forall j | 0 <= j < i :: s[j].addr != a) && (i < |s| ==> s[i].addr == a)
  {
    if s == [] || s[0].addr == a then 0 else 1 + IndexAt(s[1..], a)
  }

  /** The inactivity counter after a tick; None means that the entry goes. */
  function Older(limit: int, count: int): Option<int> {
    if count == 0 then Some(-1)
    else if count == -1 then Some(1)
    else if 0 < count < limit then Some(count + 1)
    else if count >= limit then None
    else Some(count)
  }

  /** The table after a tick. */
  function Aged(limit: int, s: seq<Neighbour>): seq<Neighbour> {
    if s == [] then []
    else
      var c := Older(limit, s[|s| - 1].count);
      Aged(limit, s[..|s| - 1]) + if c.Some? then [s[|s| - 1].(count := c.value)] else []
  }

  /** The spaces that a tick recovers: those of removed successors, in table order. */
  function Regained(own: Host, limit: int, s: seq<Neighbour>): seq<Space> {
    if s == [] then []
    else
      var n := s[|s| - 1];
      Regained(own, limit, s[..|s| - 1]) + Given(own, limit, n)
  }

  /** The heartbeats that refresh the table. */
  predicate Heeds(own: Host, settled: bool, sec: Option<Host>, hb: Beat) {
    Reacts(own, settled, sec, hb) == Listen
  }

  /** The table after a heartbeat that is heeded. */
  function Refreshed(s: seq<Neighbour>, hb: Beat): seq<Neighbour> {
    var i := IndexAt(s, hb.addr);
    if i < |s| then s[i := s[i].(count := 0, mask := hb.mask)]
    else s + [Neighbour(hb.addr, hb.mask, hb.maskIni, 0)]
  }

  /** The daemon's neighbour table and recovered list; secAddr is its secondary address if it has one. */
  class HeartBeat {
    const primAddr: Host
    const primAddrFlag: bool
    const limit: int
    var secAddr: Option<Host>
    var neighTable: seq<Neighbour>
    var rcvdAddr: seq<Space>

    constructor (own: Host, settled: bool, limit: int)
      ensures primAddr == own && primAddrFlag == settled && this.limit == limit
      ensures secAddr == None && neighTable == [] && rcvdAddr == []
    {
      primAddr, primAddrFlag, this.limit := own, settled, limit;
      secAddr, neighTable, rcvdAddr := None, [], [];
    }

    /** find_neighbor. */
    method FindNeighbor(a: Host) returns (i: nat)
      ensures i == IndexAt(neighTable, a)
    {
      i := 0;
      while i < |neighTable| && neighTable[i].addr != a
        invariant 0 <= i <= |neighTable|
        invariant forall j | 0 <= j < i :: neighTable[j].addr != a
      {
        i := i + 1;
      }
    }

    /** process_hb without the merge and fragmentation detectors; the result says whether it goes on to look for
        a secondary space next to the sender (chk_sec_addr1). */
    method ProcessHb(hb: Beat) returns (seek: bool)
      modifies `neighTable
      ensures neighTable ==
              if Heeds(primAddr, primAddrFlag, secAddr, hb) then Refreshed(old(neighTable), hb) else old(neighTable)
      ensures seek <==> Reacts(primAddr, primAddrFlag, secAddr, hb) == Seek
      ensures var was, own, near := old(neighTable), hb.addr == primAddr || Some(hb.addr) == secAddr,
                                    Dist(primAddr, hb.addr) == 1 || (secAddr.Some? && Dist(secAddr.value, hb.addr) == 1);
              && (!own && (near || !primAddrFlag) && !Lists(was, hb.addr) ==>
                    neighTable == was + [Neighbour(hb.addr, hb.mask, hb.maskIni, 0)])
              && (!own && (near || !primAddrFlag) && Lists(was, hb.addr) ==>
                    exists i | 0 <= i < |was| ::
                      && was[i].addr == hb.addr
                      && neighTable == was[i := Neighbour(hb.addr, hb.mask, was[i].maskIni, 0)])
              && (own || (!near && primAddrFlag) ==> neighTable == was)
              && (seek <==> !own && !near && primAddrFlag && secAddr == None
                            && Dist(primAddr, hb.src) != 1 && (hb.sec == None || Dist(primAddr, hb.sec.value) != 1))
    {
      seek := false;
      if hb.addr == primAddr || Some(hb.addr) == secAddr {
        return;
      }
      if Dist(primAddr, hb.addr) != 1 && primAddrFlag {
        if secAddr == None {
          seek := Dist(primAddr, hb.src) != 1 && (hb.sec == None || Dist(primAddr, hb.sec.value) != 1);
          return;
        } else if Dist(secAddr.value, hb.addr) != 1 {
          return;
        }
      }
      var i := FindNeighbor(hb.addr);
      if i == |neighTable| {
        neighTable := neighTable + [Neighbour(hb.addr, hb.mask, hb.maskIni, 0)];
      } else {
        neighTable := neighTable[i := neighTable[i].(count := 0, mask := hb.mask)];
      }
    }

    /** delete_neighbor: unlink the first entry with this address. */
    method DeleteNeighbor(a: Host)
      modifies `neighTable
      ensures var i := IndexAt(old(neighTable), a);
              neighTable == if i < |old(neighTable)| then old(neighTable)[..i] + old(neighTable)[i + 1..] else old(neighTable)
    {
      var i := FindNeighbor(a);
      if i < |neighTable| {
        neighTable := neighTable[..i] + neighTable[i + 1..];
      }
    }

    /** check_neighbors: the walk visits every entry once although it unlinks some on the way. */
    method CheckNeighbors()
      requires Unique(neighTable)
      modifies this
      ensures neighTable == Aged(limit, old(neighTable))
      ensures rcvdAddr == old(rcvdAddr) + Regained(primAddr, limit, old(neighTable))
    {
      var walk := neighTable;
      for i := 0 to |walk|
        invariant neighTable == Aged(limit, walk[..i]) + walk[i..]
        invariant rcvdAddr == old(rcvdAddr) + Regained(primAddr, limit, walk[..i])
      {
        var at := |neighTable| - (|walk| - i);
        WalkTurn(primAddr, limit, walk, i, neighTable, at, old(rcvdAddr), rcvdAddr);
        CheckNeighbor(walk[i], at);
      }
      assert walk[..|walk|] == walk;
    }

    /** One turn of the walk, at the entry it. */
    method CheckNeighbor(it: Neighbour, at: nat)
      requires at < |neighTable| && neighTable[at] == it && IndexAt(neighTable, it.addr) == at
      modifies this
      ensures neighTable == Turned(limit, old(neighTable), at)
      ensures rcvdAddr == old(rcvdAddr) + Given(primAddr, limit, it)
    {
      if it.count == 0 {
        neighTable := neighTable[at := it.(count := -1)];
      } else if it.count == -1 {
        neighTable := neighTable[at := it.(count := 1)];
      } else if it.count > 0 && it.count < limit {
        neighTable := neighTable[at := it.(count := it.count + 1)];
      } else if it.count >= limit {
        if Successor(primAddr, it.addr) {
          rcvdAddr := rcvdAddr + [Space(it.addr, it.maskIni)];
        }
        DeleteNeighbor(it.addr);
      }
    }
  }

  /** The table after one turn of the walk. */
  function Turned(limit: int, table: seq<Neighbour>, at: nat): seq<Neighbour>
    requires at < |table|
  {
    var c := Older(limit, table[at].count);
    if c.Some? then table[at := table[at].(count := c.value)] else table[..at] + table[at + 1..]
  }

  function Given(own: Host, limit: int, n: Neighbour): seq<Space> {
    if Older(limit, n.count) == None then Regain(own, Space(n.addr, n.maskIni)) else []
  }

  lemma {:induction false} AgedStep(own: Host, limit: int, s: seq<Neighbour>, i: nat)
    requires i < |s|
    ensures var c := Older(limit, s[i].count);
            && Aged(limit, s[..i + 1]) == Aged(limit, s[..i]) + (if c.Some? then [s[i].(count := c.value)] else [])
            && Regained(own, limit, s[..i + 1]) ==
               Regained(own, limit, s[..i]) + Given(own, limit, s[i])
  {
    assert s[..i + 1][..i] == s[..i];
  }

  /** What one turn of the walk leaves in the table. */
  lemma {:induction false} AgedTurn(limit: int, walk: seq<Neighbour>, i: nat, table: seq<Neighbour>, at: nat)
    requires Unique(walk) && i < |walk|
    requires table == Aged(limit, walk[..i]) + walk[i..] && at == |table| - (|walk| - i)
    ensures at < |table| && IndexAt(table, walk[i].addr) == at
    ensures table[at] == walk[i]
    ensures Turned(limit, table, at) == Aged(limit, walk[..i + 1]) + walk[i + 1..]
  {
    var a, c, rest := Aged(limit, walk[..i]), Older(limit, walk[i].count), walk[i + 1..];
    DeletedAt(limit, walk, i);
    assert walk[..i + 1][..i] == walk[..i];
    assert table == a + [walk[i]] + rest;
    Middle(a, walk[i], rest, if c.Some? then walk[i].(count := c.value) else walk[i]);
  }

  /** The same for the recovered list as well. */
  lemma {:induction false} WalkTurn(own: Host, limit: int, walk: seq<Neighbour>, i: nat, table: seq<Neighbour>, at: nat, was: seq<Space>, rcvd: seq<Space>)
    requires Unique(walk) && i < |walk|
    requires table == Aged(limit, walk[..i]) + walk[i..] && at == |table| - (|walk| - i)
    requires rcvd == was + Regained(own, limit, walk[..i])
    ensures at < |table| && IndexAt(table, walk[i].addr) == at && table[at] == walk[i]
    ensures Turned(limit, table, at) == Aged(limit, walk[..i + 1]) + walk[i + 1..]
    ensures rcvd + Given(own, limit, walk[i]) == was + Regained(own, limit, walk[..i + 1])
  {
    AgedStep(own, limit, walk, i);
    AgedTurn(limit, walk, i, table, at);
    Append(was, Regained(own, limit, walk[..i]), Given(own, limit, walk[i]));
  }

  lemma {:induction false} Append<T>(a: seq<T>, b: seq<T>, c: seq<T>)
    ensures (a + b) + c == a + (b + c)
  {
  }

  lemma {:induction false} Middle(a: seq<Neighbour>, x: Neighbour, rest: seq<Neighbour>, y: Neighbour)
    ensures var t := a + [x] + rest;
            t[|a| := y] == a + [y] + rest && t[..|a|] + t[|a| + 1..] == a + rest && t[|a|] == x
  {
  }

  /** What the table holds of an address after a tick. */
  lemma {:induction false} AgedHolds(limit: int, s: seq<Neighbour>, n: Neighbour)
    ensures n in Aged(limit, s) <==> exists i :: 0 <= i < |s| && Older(limit, s[i].count) == Some(n.count) && s[i].(count := n.count) == n
  {
    if s != [] {
      var t, l := s[..|s| - 1], s[|s| - 1];
      AgedHolds(limit, t, n);
      assert forall i | 0 <= i < |t| :: t[i] == s[i];
      if i :| 0 <= i < |s| && Older(limit, s[i].count) == Some(n.count) && s[i].(count := n.count) == n {
        assert i < |t| ==> t[i] == s[i];
      }
    }
  }

  lemma {:induction false} AgedApart(limit: int, s: seq<Neighbour>, a: Host)
    requires forall i | 0 <= i < |s| :: s[i].addr != a
    ensures forall i | 0 <= i < |Aged(limit, s)| :: Aged(limit, s)[i].addr != a
  {
    if s != [] {
      AgedApart(limit, s[..|s| - 1], a);
    }
  }

  lemma {:induction false} AgedUnique(limit: int, s: seq<Neighbour>)
    requires Unique(s)
    ensures Unique(Aged(limit, s))
  {
    if s != [] {
      AgedUnique(limit, s[..|s| - 1]);
      AgedApart(limit, s[..|s| - 1], s[|s| - 1].addr);
    }
  }

  /** Deleting an entry of the walk deletes that entry and no other. */
  lemma {:induction false} DeletedAt(limit: int, walk: seq<Neighbour>, i: nat)
    requires Unique(walk) && i < |walk|
    ensures IndexAt(Aged(limit, walk[..i]) + walk[i..], walk[i].addr) == |Aged(limit, walk[..i])|
  {
    AgedApart(limit, walk[..i], walk[i].addr);
    var t := Aged(limit, walk[..i]) + walk[i..];
    assert t[|Aged(limit, walk[..i])|] == walk[i];
    FirstIndex(t, walk[i].addr, |Aged(limit, walk[..i])|);
  }

  lemma {:induction false} FirstIndex(s: seq<Neighbour>, a: Host, i: nat)
    requires i < |s| && s[i].addr == a && forall j | 0 <= j < i :: s[j].addr != a
    ensures IndexAt(s, a) == i
  {
  }

  // ----- Runs of heartbeats and ticks -----

  /** A heartbeat, heard while the daemon has the given secondary address, or a tick. */
  datatype Event = HB(hb: Beat, sec: Option<Host>) | Tick

  /** The table after a run, latest event last. */
  function After(own: Host, settled: bool, limit: int, run: seq<Event>): seq<Neighbour> {
    if run == [] then []
    else
      var s := After(own, settled, limit, run[..|run| - 1]);
      match run[|run| - 1]
      case HB(hb, sec) => if Heeds(own, settled, sec, hb) then Refreshed(s, hb) else s
      case Tick => Aged(limit, s)
  }

  /** How many ticks ago the last heeded heartbeat of this address came, if there was one. */
  function Silence(own: Host, settled: bool, run: seq<Event>, a: Host): Option<nat> {
    if run == [] then None
    else
      var before := Silence(own, settled, run[..|run| - 1], a);
      match run[|run| - 1]
      case HB(hb, sec) => if hb.addr == a && Heeds(own, settled, sec, hb) then Some(0) else before
      case Tick => if before.Some? then Some(before.value + 1) else None
  }

  /** The inactivity counter that belongs to a number of ticks. */
  function CountFor(ticks: nat): int {
    if ticks == 0 then 0 else if ticks == 1 then -1 else ticks - 1
  }

  predicate Lists(s: seq<Neighbour>, a: Host) {
    exists i | 0 <= i < |s| :: s[i].addr == a
  }

  /** The table is what the silences say. */
  predicate Tracks(s: seq<Neighbour>, own: Host, settled: bool, limit: int, run: seq<Event>) {
    && Unique(s)
    && (forall i | 0 <= i < |s| ::
          var t := Silence(own, settled, run, s[i].addr);
          t.Some? && t.value < limit + 2 && s[i].count == CountFor(t.value))
  }

  lemma {:induction false} RefreshKeeps(s: seq<Neighbour>, own: Host, settled: bool, limit: int, run: seq<Event>, hb: Beat, sec: Option<Host>)
    requires limit >= 1
    requires run != [] && run[|run| - 1] == HB(hb, sec) && Heeds(own, settled, sec, hb)
    requires Tracks(s, own, settled, limit, run[..|run| - 1])
    ensures Tracks(Refreshed(s, hb), own, settled, limit, run)
  {
    var r := Refreshed(s, hb);
    forall i | 0 <= i < |r|
      ensures var t := Silence(own, settled, run, r[i].addr);
              t.Some? && t.value < limit + 2 && r[i].count == CountFor(t.value)
    {
      if r[i].addr != hb.addr {
        assert r[i] == s[i];
      }
    }
  }

  lemma {:induction false} TickKeeps(s: seq<Neighbour>, own: Host, settled: bool, limit: int, run: seq<Event>)
    requires limit >= 1
    requires run != [] && run[|run| - 1] == Tick && Tracks(s, own, settled, limit, run[..|run| - 1])
    ensures Tracks(Aged(limit, s), own, settled, limit, run)
  {
    AgedUnique(limit, s);
    var r := Aged(limit, s);
    forall i | 0 <= i < |r|
      ensures var t := Silence(own, settled, run, r[i].addr);
              t.Some? && t.value < limit + 2 && r[i].count == CountFor(t.value)
    {
      AgedHolds(limit, s, r[i]);
      assert r[i] in r;
      var j :| 0 <= j < |s| && Older(limit, s[j].count) == Some(r[i].count) && s[j].(count := r[i].count) == r[i];
      assert s[j].addr == r[i].addr;
    }
  }

  lemma {:induction false} RunTracks(own: Host, settled: bool, limit: int, run: seq<Event>)
    requires limit >= 1
    ensures Tracks(After(own, settled, limit, run), own, settled, limit, run)
  {
    if run != [] {
      var before := run[..|run| - 1];
      var s := After(own, settled, limit, before);
      RunTracks(own, settled, limit, before);
      match run[|run| - 1]
      case HB(hb, sec) =>
        if Heeds(own, settled, sec, hb) {
          RefreshKeeps(s, own, settled, limit, run, hb, sec);
        }
      case Tick => TickKeeps(s, own, settled, limit, run);
    }
  }

  lemma {:induction false} RefreshLists(s: seq<Neighbour>, hb: Beat, a: Host)
    ensures Lists(Refreshed(s, hb), a) <==> Lists(s, a) || a == hb.addr
  {
    var r := Refreshed(s, hb);
    if i :| 0 <= i < |s| && s[i].addr == a {
      assert r[i].addr == a;
    }
    if a == hb.addr {
      assert r[IndexAt(s, hb.addr)].addr == a;
    }
  }

  /** A tick keeps an entry exactly when its counter allows it. */
  lemma {:induction false} TickLists(limit: int, s: seq<Neighbour>, a: Host)
    requires Unique(s)
    ensures Lists(Aged(limit, s), a) <==> exists i | 0 <= i < |s| :: s[i].addr == a && Older(limit, s[i].count).Some?
  {
    if i :| 0 <= i < |s| && s[i].addr == a && Older(limit, s[i].count).Some? {
      var n := s[i].(count := Older(limit, s[i].count).value);
      AgedHolds(limit, s, n);
      assert n in Aged(limit, s);
      var j :| 0 <= j < |Aged(limit, s)| && Aged(limit, s)[j] == n;
    }
    if j :| 0 <= j < |Aged(limit, s)| && Aged(limit, s)[j].addr == a {
      AgedHolds(limit, s, Aged(limit, s)[j]);
      assert Aged(limit, s)[j] in Aged(limit, s);
    }
  }

  /** An address is listed exactly while fewer than limit + 2 ticks have passed since its last heeded
      heartbeat; and its going touches no other entry. */
  lemma {:induction false} ListedExactly(own: Host, settled: bool, limit: int, run: seq<Event>, a: Host)
    requires limit >= 1
    ensures var t := Silence(own, settled, run, a);
            Lists(After(own, settled, limit, run), a) <==> t.Some? && t.value < limit + 2
  {
    RunTracks(own, settled, limit, run);
    if run != [] {
      var before := run[..|run| - 1];
      var s := After(own, settled, limit, before);
      ListedExactly(own, settled, limit, before, a);
      RunTracks(own, settled, limit, before);
      match run[|run| - 1]
      case HB(hb, sec) => RefreshLists(s, hb, a);
      case Tick =>
        TickLists(limit, s, a);
        TickedOut(s, own, settled, limit, before, a);
    }
  }

  /** With the limit of the program, an entry goes at the third tick in a row without a heartbeat. */
  lemma {:induction false} GoneAtThirdTick(own: Host, settled: bool, run: seq<Event>, a: Host)
    ensures var t := Silence(own, settled, run, a);
            Lists(After(own, settled, N_INACT, run), a) <==> t.Some? && t.value < 3
  {
    ListedExactly(own, settled, N_INACT, run, a);
  }

  /** At a tick an entry stays exactly when its silence was shorter than limit + 1. */
  lemma {:induction false} TickedOut(s: seq<Neighbour>, own: Host, settled: bool, limit: int, before: seq<Event>, a: Host)
    requires limit >= 1
    requires Tracks(s, own, settled, limit, before)
    requires var t := Silence(own, settled, before, a); Lists(s, a) <==> t.Some? && t.value < limit + 2
    ensures var t := Silence(own, settled, before, a);
            (exists i | 0 <= i < |s| :: s[i].addr == a && Older(limit, s[i].count).Some?) <==> t.Some? && t.value < limit + 1
  {
    var t := Silence(own, settled, before, a);
    if t.Some? && t.value < limit + 2 {
      var i :| 0 <= i < |s| && s[i].addr == a;
      assert s[i].count == CountFor(t.value);
    }
  }

  // ----- Which masks are listed -----

  /** The last heeded heartbeat of this address. */
  function LastBeat(own: Host, settled: bool, run: seq<Event>, a: Host): Option<Beat> {
    if run == [] then None
    else
      var before := LastBeat(own, settled, run[..|run| - 1], a);
      match run[|run| - 1]
      case HB(hb, sec) => if hb.addr == a && Heeds(own, settled, sec, hb) then Some(hb) else before
      case Tick => before
  }

  /** The heeded heartbeat that broke the last silence of at least limit + 2 ticks, or was the first. */
  function FirstBeat(own: Host, settled: bool, limit: int, run: seq<Event>, a: Host): Option<Beat> {
    if run == [] then None
    else
      var init := run[..|run| - 1];
      var before, t := FirstBeat(own, settled, limit, init, a), Silence(own, settled, init, a);
      match run[|run| - 1]
      case HB(hb, sec) =>
        if hb.addr == a && Heeds(own, settled, sec, hb) && !(t.Some? && t.value < limit + 2) then Some(hb) else before
      case Tick => before
  }

  /** Both heartbeats were heard and heeded. */
  predicate HeardIn(own: Host, settled: bool, run: seq<Event>, a: Host, b: Beat) {
    b.addr == a && exists j | 0 <= j < |run| :: run[j].HB? && run[j].hb == b && Heeds(own, settled, run[j].sec, b)
  }

  lemma {:induction false} HeardLater(own: Host, settled: bool, run: seq<Event>, a: Host, b: Beat)
    requires run != [] && HeardIn(own, settled, run[..|run| - 1], a, b)
    ensures HeardIn(own, settled, run, a, b)
  {
    var before := run[..|run| - 1];
    var j :| 0 <= j < |before| && before[j].HB? && before[j].hb == b && Heeds(own, settled, before[j].sec, b);
    assert run[j] == before[j];
  }

  lemma {:induction false} FirstIsHeard(own: Host, settled: bool, limit: int, run: seq<Event>, a: Host)
    ensures var b := FirstBeat(own, settled, limit, run, a);
            b.Some? ==> HeardIn(own, settled, run, a, b.value)
  {
    if run != [] {
      var b := FirstBeat(own, settled, limit, run[..|run| - 1], a);
      FirstIsHeard(own, settled, limit, run[..|run| - 1], a);
      if b.Some? {
        HeardLater(own, settled, run, a, b.value);
      }
    }
  }

  /** The masks of the entry are those of the heartbeats. */
  predicate MaskedBy(n: Neighbour, first: Option<Beat>, last: Option<Beat>) {
    first.Some? && last.Some? && n.maskIni == first.value.maskIni && n.mask == last.value.mask
  }

  predicate AllMasked(s: seq<Neighbour>, own: Host, settled: bool, limit: int, run: seq<Event>) {
    forall i | 0 <= i < |s| ::
      MaskedBy(s[i], FirstBeat(own, settled, limit, run, s[i].addr), LastBeat(own, settled, run, s[i].addr))
  }

  lemma {:induction false} RefreshMasks(s: seq<Neighbour>, own: Host, settled: bool, limit: int, run: seq<Event>, hb: Beat, sec: Option<Host>)
    requires run != [] && run[|run| - 1] == HB(hb, sec) && Heeds(own, settled, sec, hb)
    requires var before := run[..|run| - 1];
             && Unique(s) && AllMasked(s, own, settled, limit, before)
             && (Lists(s, hb.addr) <==> var t := Silence(own, settled, before, hb.addr); t.Some? && t.value < limit + 2)
    ensures AllMasked(Refreshed(s, hb), own, settled, limit, run)
  {
    var r, k := Refreshed(s, hb), IndexAt(s, hb.addr);
    forall i | 0 <= i < |r|
      ensures MaskedBy(r[i], FirstBeat(own, settled, limit, run, r[i].addr), LastBeat(own, settled, run, r[i].addr))
    {
      if r[i].addr != hb.addr {
        assert r[i] == s[i];
      } else if k < |s| {
        assert s[k].addr == hb.addr;
      } else {
        assert !Lists(s, hb.addr);
      }
    }
  }

  lemma {:induction false} TickMasks(s: seq<Neighbour>, own: Host, settled: bool, limit: int, run: seq<Event>)
    requires run != [] && run[|run| - 1] == Tick && AllMasked(s, own, settled, limit, run[..|run| - 1])
    ensures AllMasked(Aged(limit, s), own, settled, limit, run)
  {
    var r := Aged(limit, s);
    forall i | 0 <= i < |r|
      ensures MaskedBy(r[i], FirstBeat(own, settled, limit, run, r[i].addr), LastBeat(own, settled, run, r[i].addr))
    {
      AgedHolds(limit, s, r[i]);
      assert r[i] in r;
      var j :| 0 <= j < |s| && Older(limit, s[j].count) == Some(r[i].count) && s[j].(count := r[i].count) == r[i];
      assert s[j].addr == r[i].addr;
    }
  }

  /** Over any run of heartbeats and ticks, a listed entry has the initial mask of the heartbeat that listed it, and the
      mask of the last one that was heeded. */
  lemma {:induction false} MasksAreHeard(own: Host, settled: bool, limit: int, run: seq<Event>)
    requires limit >= 1
    ensures AllMasked(After(own, settled, limit, run), own, settled, limit, run)
  {
    if run != [] {
      var before := run[..|run| - 1];
      var s := After(own, settled, limit, before);
      MasksAreHeard(own, settled, limit, before);
      match run[|run| - 1]
      case HB(hb, sec) =>
        if Heeds(own, settled, sec, hb) {
          ListedExactly(own, settled, limit, before, hb.addr);
          RunTracks(own, settled, limit, before);
          RefreshMasks(s, own, settled, limit, run, hb, sec);
        } else {
          forall i | 0 <= i < |s|
            ensures MaskedBy(s[i], FirstBeat(own, settled, limit, run, s[i].addr), LastBeat(own, settled, run, s[i].addr))
          {
          }
        }
      case Tick => TickMasks(s, own, settled, limit, run);
    }
  }

  // ----- What a tick recovers -----

  /** A removed hypercube neighbour is recovered exactly when it lies in the daemon's own initial space as a
      child split off in the first three words, or when it lies outside, and the bits of the initial mask from
      the differing one to the end of its word are all zero; with an initial mask of at most 16 there is no
      neighbour of the second kind. */
  lemma {:induction false} RecoveredExactly(own: Host, maskIni: nat, k: nat)
    requires Shaped(own, maskIni) && maskIni <= 63 && (maskIni > 0 ==> own[maskIni - 1]) && k < 64
    ensures Successor(own, Flip(own, k)) <==>
            if k >= maskIni then k < 48 else forall i | k <= i < 16 * (k / 16) + 16 :: !own[i]
    ensures maskIni <= 16 ==> (Successor(own, Flip(own, k)) <==> maskIni <= k < 48)
  {
    if k == 63 {
      SuccessorExact(own, 63);
    } else if k >= maskIni {
      ChildIsSuccessor(own, maskIni, k);
    } else {
      NonChildIsSuccessor(own, maskIni, k);
    }
  }

  /** A tick recovers each removed successor once, and nothing else. */
  lemma {:induction false} RegainedExactly(own: Host, limit: int, s: seq<Neighbour>, e: Space)
    requires Unique(s)
    ensures multiset(Regained(own, limit, s))[e] ==
            if exists i | 0 <= i < |s| ::
                 Older(limit, s[i].count) == None && Successor(own, s[i].addr) && e == Space(s[i].addr, s[i].maskIni)
            then 1 else 0
  {
    if s != [] {
      var t, l := s[..|s| - 1], s[|s| - 1];
      RegainedExactly(own, limit, t, e);
      assert forall i | 0 <= i < |t| :: t[i] == s[i];
      if Older(limit, l.count) == None && Successor(own, l.addr) && e == Space(l.addr, l.maskIni) {
        assert s[|s| - 1] == l;
        assert forall i | 0 <= i < |t| :: t[i].addr != l.addr;
      } else if i :| 0 <= i < |s| && Older(limit, s[i].count) == None && Successor(own, s[i].addr) && e == Space(s[i].addr, s[i].maskIni) {
        assert t[i] == s[i];
      }
    }
  }
}
