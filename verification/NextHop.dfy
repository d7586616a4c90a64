/** The next-hop choice of send_to_next_neighbor (pkt_handle.c). */
module NextHop {
  import opened Wrappers
  import opened Hypercube
  import opened Metric
  import AddressWords

  const MAX_NEIGHBORS: nat := 128
  const NEIGHBORS_BEFORE_PARENT: nat := 2

  datatype Neighbour = Neighbour(addr: AddressWords.Addr, mask: nat, available: bool)

  type Table = ns: seq<Neighbour> | |ns| <= 128 && forall i | 0 <= i < |ns| :: ns[i].mask <= 64

  /** Packets for the rendezvous service are measured on the neighbour's own prefix only. */
  function Distance(n: Neighbour, dst: AddressWords.Addr, rv: bool): nat
    requires n.mask <= 64
  {
    var a, b := AddressWords.HostOf(dst), AddressWords.HostOf(n.addr);
    if rv then Diff(a, b, 0, n.mask) else Dist(a, b)
  }

  predicate Owns(n: Neighbour, dst: AddressWords.Addr) {
    Covers(Space(AddressWords.HostOf(n.addr), n.mask), AddressWords.HostOf(dst))
  }

  /** Neighbour i may still be tried. */
  predicate Free(ns: seq<Neighbour>, v: seq<bool>, i: nat)
    requires |ns| <= |v|
  {
    i < |ns| && ns[i].available && !v[i]
  }

  predicate AllVisited(ns: seq<Neighbour>, v: seq<bool>)
    requires |ns| <= |v|
  {
    forall i | 0 <= i < |ns| :: !Free(ns, v, i)
  }

  /** j is as near as any free neighbour, and among the nearest it is the last one that owns the
      destination after the first nearest, or else the first nearest itself. */
  predicate Nearest(ns: Table, v: seq<bool>, dst: AddressWords.Addr, rv: bool, upto: nat, j: nat)
    requires |ns| <= |v| && upto <= |ns|
  {
    && j < upto && Free(ns, v, j)
    && (forall i | 0 <= i < upto && Free(ns, v, i) :: Distance(ns[j], dst, rv) <= Distance(ns[i], dst, rv))
    && (forall i | j < i < upto && Free(ns, v, i) && Distance(ns[i], dst, rv) == Distance(ns[j], dst, rv) ::
          !Owns(ns[i], dst))
    && (Owns(ns[j], dst) || forall i | 0 <= i < j && Free(ns, v, i) :: Distance(ns[i], dst, rv) > Distance(ns[j], dst, rv))
  }

  predicate FirstFree(ns: seq<Neighbour>, v: seq<bool>, j: nat)
    requires |ns| <= |v|
  {
    Free(ns, v, j) && forall i | 0 <= i < j :: !Free(ns, v, i)
  }

  /** The neighbour that the selection yields. */
  predicate Selected(ns: Table, v: seq<bool>, count: nat, dst: AddressWords.Addr, rv: bool, j: nat)
    requires |ns| <= |v|
  {
    if count < NEIGHBORS_BEFORE_PARENT then Nearest(ns, v, dst, rv, |ns|, j) else FirstFree(ns, v, j)
  }

  /** The selection is a function of the table and the bitmap. */
  lemma {:induction false} SelectionUnique(ns: Table, v: seq<bool>, count: nat, dst: AddressWords.Addr, rv: bool, i: nat, j: nat)
    requires |ns| <= |v| && Selected(ns, v, count, dst, rv, i) && Selected(ns, v, count, dst, rv, j)
    ensures i == j
  {
  }

  // ----- The choice, bit by bit -----

  /** Positions among the first m host bits where the neighbour differs from the destination. */
  function Off(n: Neighbour, dst: AddressWords.Addr, m: nat): set<nat>
    requires m <= 64
  {
    Differing(AddressWords.HostOf(dst), AddressWords.HostOf(n.addr), m)
  }

  lemma {:induction false} DistanceCounts(n: Neighbour, dst: AddressWords.Addr, rv: bool)
    requires n.mask <= 64
    ensures Distance(n, dst, rv) == |Off(n, dst, if rv then n.mask else 64)|
    ensures rv ==> (Owns(n, dst) <==> |Off(n, dst, n.mask)| == 0)
  {
    var a, b := AddressWords.HostOf(dst), AddressWords.HostOf(n.addr);
    DiffCounts(a, b, if rv then n.mask else 64);
    MaskedDistance(a, b, n.mask);
  }

  /** While few packets of the route came back, a packet for the rendezvous service goes to the last free neighbour whose
      space contains the destination if there is one, and otherwise to the first of the free neighbours that differ from
      it in the fewest of the bits under their own masks. */
  lemma {:induction false} RendezvousChoice(ns: Table, v: seq<bool>, count: nat, dst: AddressWords.Addr, j: nat)
    requires |ns| <= |v| && count < 2 && Selected(ns, v, count, dst, true, j)
    ensures j < |ns| && ns[j].available && !v[j]
    ensures (exists i | 0 <= i < |ns| :: ns[i].available && !v[i] && Owns(ns[i], dst)) ==> Owns(ns[j], dst)
    ensures forall i | j < i < |ns| && ns[i].available && !v[i] :: !Owns(ns[i], dst)
    ensures forall i | 0 <= i < |ns| && ns[i].available && !v[i] ::
              && |Off(ns[j], dst, ns[j].mask)| <= |Off(ns[i], dst, ns[i].mask)|
              && (i < j && !Owns(ns[j], dst) ==> |Off(ns[j], dst, ns[j].mask)| < |Off(ns[i], dst, ns[i].mask)|)
  {
    DistanceCounts(ns[j], dst, true);
    forall i | 0 <= i < |ns| && ns[i].available && !v[i]
      ensures |Off(ns[j], dst, ns[j].mask)| <= |Off(ns[i], dst, ns[i].mask)|
      ensures i < j && !Owns(ns[j], dst) ==> |Off(ns[j], dst, ns[j].mask)| < |Off(ns[i], dst, ns[i].mask)|
      ensures Owns(ns[i], dst) ==> Owns(ns[j], dst) && i <= j
    {
      DistanceCounts(ns[i], dst, true);
      assert Free(ns, v, i);
    }
  }

  /** Any other packet goes to a free neighbour that differs from the destination in the fewest host bits: to the last
      such neighbour whose space contains the destination if there is one, and otherwise to the first. */
  lemma {:induction false} OrdinaryChoice(ns: Table, v: seq<bool>, count: nat, dst: AddressWords.Addr, j: nat)
    requires |ns| <= |v| && count < 2 && Selected(ns, v, count, dst, false, j)
    ensures j < |ns| && ns[j].available && !v[j]
    ensures forall i | 0 <= i < |ns| && ns[i].available && !v[i] :: |Off(ns[j], dst, 64)| <= |Off(ns[i], dst, 64)|
    ensures forall i | 0 <= i < |ns| && ns[i].available && !v[i] && |Off(ns[i], dst, 64)| == |Off(ns[j], dst, 64)| ::
              if Owns(ns[j], dst) then i <= j || !Owns(ns[i], dst) else j <= i && !Owns(ns[i], dst)
  {
    DistanceCounts(ns[j], dst, false);
    forall i | 0 <= i < |ns| && ns[i].available && !v[i]
      ensures |Off(ns[j], dst, 64)| <= |Off(ns[i], dst, 64)|
      ensures |Off(ns[i], dst, 64)| == |Off(ns[j], dst, 64)| ==>
                if Owns(ns[j], dst) then i <= j || !Owns(ns[i], dst) else j <= i && !Owns(ns[i], dst)
    {
      DistanceCounts(ns[i], dst, false);
      assert Free(ns, v, i);
    }
  }

  lemma {:induction false} FewestOff(ns: Table, v: seq<bool>, count: nat, dst: AddressWords.Addr, rv: bool, j: nat)
    requires |ns| <= |v| && count < 2 && Selected(ns, v, count, dst, rv, j)
    ensures j < |ns| && ns[j].available && !v[j]
    ensures forall i | 0 <= i < |ns| && ns[i].available && !v[i] ::
              if rv then |Off(ns[j], dst, ns[j].mask)| <= |Off(ns[i], dst, ns[i].mask)|
              else |Off(ns[j], dst, 64)| <= |Off(ns[i], dst, 64)|
  {
    if rv {
      RendezvousChoice(ns, v, count, dst, j);
    } else {
      OrdinaryChoice(ns, v, count, dst, j);
    }
  }

  /** When packets came back twice, the parent, the first entry, is next if it is free, and then the others in table
      order. */
  lemma {:induction false} LaterChoice(ns: Table, v: seq<bool>, count: nat, dst: AddressWords.Addr, rv: bool, j: nat)
    requires |ns| <= |v| && count >= 2 && Selected(ns, v, count, dst, rv, j)
    ensures j < |ns| && ns[j].available && !v[j]
    ensures forall i | 0 <= i < j :: !ns[i].available || v[i]
  {
    forall i | 0 <= i < j
      ensures !ns[i].available || v[i]
    {
      assert !Free(ns, v, i);
    }
  }

  // ----- The memory of a route -----

  function IndexOf(ns: seq<Neighbour>, a: AddressWords.Addr): (i: nat)
    ensures i <= |ns| && (forall k | 0 <= k < i :: ns[k].addr != a) && (i < |ns| ==> ns[i].addr == a)
  {
    if ns == [] || ns[0].addr == a then 0 else 1 + IndexOf(ns[1..], a)
  }

  /** What is remembered about one route. */
  datatype Memory = Memory(visited: seq<bool>, count: nat)

  /** The neighbour that the packet came from counts as visited. */
  function Noted(m: Memory, ns: Table, from: AddressWords.Addr): Memory
    requires |m.visited| == MAX_NEIGHBORS
  {
    var i := IndexOf(ns, from);
    if i < |ns| then Memory(m.visited[i := true], (m.count + 1) % 0x1_0000_0000) else m
  }

  class RouteInfo {
    const visitedBitmap: array<bool>
    var count: nat

    ghost predicate Valid()
      reads this
    {
      visitedBitmap.Length == MAX_NEIGHBORS
    }

    ghost function State(): Memory
      reads this, visitedBitmap
    {
      Memory(visitedBitmap[..], count)
    }

    constructor ()
      ensures Valid() && fresh(visitedBitmap)
      ensures State() == Memory(seq(MAX_NEIGHBORS, _ => false), 0)
    {
      visitedBitmap := new bool[MAX_NEIGHBORS](_ => false);
      count := 0;
    }

    /** clear_vb: the visits are forgotten, the count is not. */
    method ClearVb()
      requires Valid()
      modifies visitedBitmap
      ensures State() == Memory(seq(MAX_NEIGHBORS, _ => false), old(count))
    {
      for i := 0 to MAX_NEIGHBORS
        invariant forall j | 0 <= j < i :: !visitedBitmap[j]
      {
        visitedBitmap[i] := false;
      }
    }

    method NoteFrom(ns: Table, from: AddressWords.Addr)
      requires Valid()
      modifies this, visitedBitmap
      ensures State() == old(Noted(State(), ns, from))
    {
      var i := 0;
      while i < |ns| && ns[i].addr != from
        invariant 0 <= i <= |ns|
        invariant forall k | 0 <= k < i :: ns[k].addr != from
      {
        i := i + 1;
      }
      FoundAt(ns, from, i);
      if i < |ns| {
        visitedBitmap[i] := true;
        count := (count + 1) % 0x1_0000_0000;
      }
    }

    /** Measure one neighbour as the selection does. */
    method Measure(n: Neighbour, dst: AddressWords.Addr, rv: bool) returns (d: nat)
      requires n.mask <= 64
      ensures d == Distance(n, dst, rv)
      ensures d == |Off(n, dst, if rv then n.mask else 64)|
    {
      DistanceCounts(n, dst, rv);
      if rv {
        d := AddressWords.DistWMask(dst, n.addr, n.mask);
      } else {
        d := AddressWords.DistOf(dst, n.addr);
      }
    }

    method Closest(ns: Table, dst: AddressWords.Addr, rv: bool) returns (idx: int)
      requires Valid()
      ensures idx == -1 ==> AllVisited(ns, visitedBitmap[..])
      ensures idx != -1 ==> 0 <= idx && Nearest(ns, visitedBitmap[..], dst, rv, |ns|, idx)
      ensures idx != -1 ==>
                forall i | 0 <= i < |ns| && ns[i].available && !visitedBitmap[i] ::
                  if rv then |Off(ns[idx], dst, ns[idx].mask)| <= |Off(ns[i], dst, ns[i].mask)|
                  else |Off(ns[idx], dst, 64)| <= |Off(ns[i], dst, 64)|
    {
      idx := -1;
      var best := 10000;
      ghost var v := visitedBitmap[..];
      for i := 0 to |ns|
        invariant idx == -1 ==> best == 10000 && forall k | 0 <= k < i :: !Free(ns, v, k)
        invariant idx != -1 ==> 0 <= idx && Nearest(ns, v, dst, rv, i, idx) && best == Distance(ns[idx], dst, rv)
      {
        if !visitedBitmap[i] && ns[i].available {
          var d := Measure(ns[i], dst, rv);
          DistanceBound(ns[i], dst, rv);
          var c := AddressWords.CheckAddrSpace(dst, ns[i].addr, ns[i].mask);
          assert Free(ns, v, i);
          if idx == -1 {
            FirstCandidate(ns, v, dst, rv, i);
          } else if Beats(ns, dst, rv, i, idx) {
            Replaced(ns, v, dst, rv, i, idx);
          } else {
            Kept(ns, v, dst, rv, i, idx);
          }
          if d < best || (d == best && c == 0) {
            idx := i;
            best := d;
          }
        } else if idx != -1 {
          Kept(ns, v, dst, rv, i, idx);
        }
      }
      if idx != -1 {
        FewestOff(ns, v, 0, dst, rv, idx);
      }
    }

    method NextAvailable(ns: Table) returns (idx: int)
      requires Valid()
      ensures idx == -1 <==> AllVisited(ns, visitedBitmap[..])
      ensures idx != -1 ==> 0 <= idx && FirstFree(ns, visitedBitmap[..], idx)
    {
      idx := -1;
      for i := 0 to |ns|
        invariant forall k | 0 <= k < i :: !Free(ns, visitedBitmap[..], k)
      {
        if !visitedBitmap[i] && ns[i].available {
          assert Free(ns, visitedBitmap[..], i);
          return i;
        }
      }
    }

    /** The choice among the free neighbours. */
    method Choose(ns: Table, dst: AddressWords.Addr, rv: bool) returns (idx: nat)
      requires Valid() && !AllVisited(ns, visitedBitmap[..])
      ensures Selected(ns, visitedBitmap[..], count, dst, rv, idx)
      ensures idx < |ns| && ns[idx].available && !visitedBitmap[idx]
      ensures count < 2 ==>
                forall i | 0 <= i < |ns| && ns[i].available && !visitedBitmap[i] ::
                  if rv then |Off(ns[idx], dst, ns[idx].mask)| <= |Off(ns[i], dst, ns[i].mask)|
                  else |Off(ns[idx], dst, 64)| <= |Off(ns[i], dst, 64)|
    {
      var k;
      if count < NEIGHBORS_BEFORE_PARENT {
        k := Closest(ns, dst, rv);
      } else if !visitedBitmap[0] && ns[0].available {
        k := 0;
      } else {
        k := NextAvailable(ns);
      }
      idx := k;
    }

    /** The selection part of send_to_next_neighbor: None sends the packet back where it came from. The
        branch that reports a missing next hop cannot be reached. */
    method SendToNextNeighbor(ns: Table, from: AddressWords.Addr, dst: AddressWords.Addr, rv: bool) returns (nh: Option<nat>)
      requires Valid()
      modifies this, visitedBitmap
      ensures var m := old(Noted(State(), ns, from));
              if AllVisited(ns, m.visited) then nh == None && State() == m
              else nh.Some? && Selected(ns, m.visited, m.count, dst, rv, nh.value)
                   && State() == Memory(m.visited[nh.value := true], m.count)
      ensures nh.Some? ==> nh.value < |ns| && ns[nh.value].available && !IsFirst(ns, from, nh.value)
                           && !old(visitedBitmap[nh.value]) && visitedBitmap[nh.value]
      ensures nh == None ==> forall i | 0 <= i < |ns| && ns[i].available :: visitedBitmap[i]
      ensures nh.Some? && count < 2 ==>
                forall i | 0 <= i < |ns| && ns[i].available && !visitedBitmap[i] ::
                  if rv then |Off(ns[nh.value], dst, ns[nh.value].mask)| <= |Off(ns[i], dst, ns[i].mask)|
                  else |Off(ns[nh.value], dst, 64)| <= |Off(ns[i], dst, 64)|
    {
      NoteFrom(ns, from);
      ghost var v := visitedBitmap[..];
      var allVisited := true;
      for i := 0 to |ns|
        invariant allVisited <==> forall k | 0 <= k < i :: !Free(ns, v, k)
      {
        assert Free(ns, v, i) <==> ns[i].available && !visitedBitmap[i];
        if ns[i].available && !visitedBitmap[i] {
          allVisited := false;
        }
      }
      if allVisited {
        forall i | 0 <= i < |ns| && ns[i].available
          ensures visitedBitmap[i]
        {
          assert !Free(ns, v, i);
        }
        return None;
      }
      var idx := Choose(ns, dst, rv);
      FirstIs(ns, from, idx);
      visitedBitmap[idx] := true;
      nh := Some(idx);
    }
  }

  lemma {:induction false} FoundAt(ns: seq<Neighbour>, a: AddressWords.Addr, i: nat)
    requires i <= |ns| && (forall k | 0 <= k < i :: ns[k].addr != a) && (i < |ns| ==> ns[i].addr == a)
    ensures IndexOf(ns, a) == i
  {
  }

  lemma {:induction false} DiffBound(a: Host, b: Host, lo: nat, hi: nat)
    requires lo <= hi <= 64
    ensures Diff(a, b, lo, hi) <= hi - lo
    decreases hi
  {
    if lo < hi {
      DiffBound(a, b, lo, hi - 1);
    }
  }

  /** The sentinel 10000 is larger than any distance. */
  lemma {:induction false} DistanceBound(n: Neighbour, dst: AddressWords.Addr, rv: bool)
    requires n.mask <= 64
    ensures Distance(n, dst, rv) <= 64
  {
    DiffBound(AddressWords.HostOf(dst), AddressWords.HostOf(n.addr), 0, n.mask);
    DiffBound(AddressWords.HostOf(dst), AddressWords.HostOf(n.addr), 0, 64);
  }

  /** Whether neighbour i takes the place of idx. */
  predicate Beats(ns: Table, dst: AddressWords.Addr, rv: bool, i: nat, idx: nat)
    requires i < |ns| && idx < |ns|
  {
    var d, best := Distance(ns[i], dst, rv), Distance(ns[idx], dst, rv);
    d < best || (d == best && Owns(ns[i], dst))
  }

  lemma {:induction false} FirstCandidate(ns: Table, v: seq<bool>, dst: AddressWords.Addr, rv: bool, i: nat)
    requires |ns| <= |v| && i < |ns| && Free(ns, v, i) && forall k | 0 <= k < i :: !Free(ns, v, k)
    ensures Nearest(ns, v, dst, rv, i + 1, i)
  {
  }

  lemma {:induction false} Replaced(ns: Table, v: seq<bool>, dst: AddressWords.Addr, rv: bool, i: nat, idx: nat)
    requires |ns| <= |v| && i < |ns| && Free(ns, v, i)
    requires Nearest(ns, v, dst, rv, i, idx) && Beats(ns, dst, rv, i, idx)
    ensures Nearest(ns, v, dst, rv, i + 1, i)
  {
    var d, best := Distance(ns[i], dst, rv), Distance(ns[idx], dst, rv);
    forall k | 0 <= k < i && Free(ns, v, k)
      ensures Distance(ns[k], dst, rv) >= best
    {
    }
    assert d < best || Owns(ns[i], dst);
    NowNearest(ns, v, dst, rv, i, best, d);
  }

  lemma {:induction false} NowNearest(ns: Table, v: seq<bool>, dst: AddressWords.Addr, rv: bool, i: nat, best: nat, d: nat)
    requires |ns| <= |v| && i < |ns| && Free(ns, v, i)
    requires forall k | 0 <= k < i && Free(ns, v, k) :: Distance(ns[k], dst, rv) >= best
    requires d == Distance(ns[i], dst, rv) <= best && (d < best || Owns(ns[i], dst))
    ensures Nearest(ns, v, dst, rv, i + 1, i)
  {
    assert forall k | 0 <= k < i + 1 && Free(ns, v, k) :: d <= Distance(ns[k], dst, rv);
    assert Owns(ns[i], dst) || forall k | 0 <= k < i && Free(ns, v, k) :: Distance(ns[k], dst, rv) > d;
  }

  lemma {:induction false} Kept(ns: Table, v: seq<bool>, dst: AddressWords.Addr, rv: bool, i: nat, idx: nat)
    requires |ns| <= |v| && i < |ns|
    requires Nearest(ns, v, dst, rv, i, idx) && (Free(ns, v, i) ==> !Beats(ns, dst, rv, i, idx))
    ensures Nearest(ns, v, dst, rv, i + 1, idx)
  {
    var best := Distance(ns[idx], dst, rv);
    forall k | 0 <= k < i + 1 && Free(ns, v, k)
      ensures best <= Distance(ns[k], dst, rv)
      ensures k > idx && Distance(ns[k], dst, rv) == best ==> !Owns(ns[k], dst)
    {
      if k == i {
        NotBeaten(ns, dst, rv, i, idx);
      }
    }
  }

  lemma {:induction false} NotBeaten(ns: Table, dst: AddressWords.Addr, rv: bool, i: nat, idx: nat)
    requires i < |ns| && idx < |ns| && !Beats(ns, dst, rv, i, idx)
    ensures Distance(ns[idx], dst, rv) <= Distance(ns[i], dst, rv)
    ensures Distance(ns[i], dst, rv) == Distance(ns[idx], dst, rv) ==> !Owns(ns[i], dst)
  {
  }

  // ----- Between two clearings of the bitmap -----

  /** A packet for the route, and where it came from. */
  datatype Arrival = Arrival(from: AddressWords.Addr, dst: AddressWords.Addr, rv: bool)

  /** The packets were forwarded one after the other to the neighbours hops, with the memory going from m
      to the last one. */
  ghost predicate Forwarded(ns: Table, m: Memory, arrivals: seq<Arrival>, hops: seq<nat>)
    requires |m.visited| == MAX_NEIGHBORS
    decreases |arrivals|
  {
    if arrivals == [] then hops == []
    else
      var a, k := arrivals[0], Noted(m, ns, arrivals[0].from);
      hops != [] && Selected(ns, k.visited, k.count, a.dst, a.rv, hops[0]) && hops[0] < MAX_NEIGHBORS
      && Forwarded(ns, Memory(k.visited[hops[0] := true], k.count), arrivals[1..], hops[1..])
  }

  function CountFree(ns: seq<Neighbour>, v: seq<bool>, upto: nat): (n: nat)
    requires |ns| <= |v| && upto <= |ns|
    ensures n <= upto
  {
    if upto == 0 then 0 else CountFree(ns, v, upto - 1) + if Free(ns, v, upto - 1) then 1 else 0
  }

  lemma {:induction false} MarkingCounts(ns: seq<Neighbour>, v: seq<bool>, j: nat, upto: nat)
    requires |ns| <= |v| && upto <= |ns| && j < |v|
    ensures CountFree(ns, v[j := true], upto) ==
            CountFree(ns, v, upto) - if j < upto && Free(ns, v, j) then 1 else 0
  {
    if upto > 0 {
      MarkingCounts(ns, v, j, upto - 1);
    }
  }

  /** Between two clearings, no neighbour is tried twice, and a route is forwarded at most once for each
      available neighbour. */
  lemma {:induction false} ForwardingsBounded(ns: Table, m: Memory, arrivals: seq<Arrival>, hops: seq<nat>)
    requires |m.visited| == MAX_NEIGHBORS && Forwarded(ns, m, arrivals, hops)
    ensures |arrivals| == |hops| <= CountFree(ns, m.visited, |ns|) <= |ns|
    ensures forall i | 0 <= i < |hops| :: Free(ns, m.visited, hops[i])
    ensures forall i, j | 0 <= i < j < |hops| :: hops[i] != hops[j]
    decreases |arrivals|
  {
    if arrivals != [] {
      var k := Noted(m, ns, arrivals[0].from);
      var v := k.visited[hops[0] := true];
      ForwardingsBounded(ns, Memory(v, k.count), arrivals[1..], hops[1..]);
      MarkingCounts(ns, k.visited, hops[0], |ns|);
      var f := IndexOf(ns, arrivals[0].from);
      if f < |ns| {
        MarkingCounts(ns, m.visited, f, |ns|);
      }
      forall i | 1 <= i < |hops|
        ensures Free(ns, m.visited, hops[i]) && hops[i] != hops[0]
      {
        assert hops[1..][i - 1] == hops[i];
        assert Free(ns, v, hops[i]);
      }
      DistinctFront(hops);
    }
  }

  lemma {:induction false} DistinctFront(s: seq<nat>)
    requires s != [] && (forall i | 1 <= i < |s| :: s[i] != s[0])
    requires forall i, j | 0 <= i < j < |s[1..]| :: s[1..][i] != s[1..][j]
    ensures forall i, j | 0 <= i < j < |s| :: s[i] != s[j]
  {
    forall i, j | 0 <= i < j < |s|
      ensures s[i] != s[j]
    {
      if i > 0 {
        assert s[1..][i - 1] == s[i] && s[1..][j - 1] == s[j];
      }
    }
  }

  /** The memory after the packets. */
  function Remembered(ns: Table, m: Memory, arrivals: seq<Arrival>, hops: seq<nat>): (k: Memory)
    requires |m.visited| == MAX_NEIGHBORS && |arrivals| == |hops| && forall j | 0 <= j < |hops| :: hops[j] < MAX_NEIGHBORS
    ensures |k.visited| == MAX_NEIGHBORS
  {
    if arrivals == [] then m
    else
      var last := |arrivals| - 1;
      var k := Noted(Remembered(ns, m, arrivals[..last], hops[..last]), ns, arrivals[last].from);
      Memory(k.visited[hops[last] := true], k.count)
  }

  /** The neighbour i is the first entry with the address. */
  predicate IsFirst(ns: seq<Neighbour>, a: AddressWords.Addr, i: nat) {
    i < |ns| && ns[i].addr == a && forall k | 0 <= k < i :: ns[k].addr != a
  }

  lemma {:induction false} FirstIs(ns: seq<Neighbour>, a: AddressWords.Addr, i: nat)
    ensures IsFirst(ns, a, i) <==> i < |ns| && IndexOf(ns, a) == i
  {
    if IsFirst(ns, a, i) {
      FoundAt(ns, a, i);
    }
  }

  predicate Known(ns: seq<Neighbour>, a: AddressWords.Addr) {
    exists i | 0 <= i < |ns| :: ns[i].addr == a
  }

  /** How many of the packets came from listed neighbours. */
  function CameBack(ns: seq<Neighbour>, arrivals: seq<Arrival>): nat {
    if arrivals == [] then 0
    else CameBack(ns, arrivals[..|arrivals| - 1]) + if Known(ns, arrivals[|arrivals| - 1].from) then 1 else 0
  }

  /** A neighbour is marked exactly if it was before, or was chosen, or sent one of the packets. */
  lemma {:induction false} MarkedExactly(ns: Table, m: Memory, arrivals: seq<Arrival>, hops: seq<nat>, i: nat)
    requires |m.visited| == MAX_NEIGHBORS && |arrivals| == |hops| && forall j | 0 <= j < |hops| :: hops[j] < MAX_NEIGHBORS
    requires i < MAX_NEIGHBORS
    ensures Remembered(ns, m, arrivals, hops).visited[i] <==>
            m.visited[i] || i in hops || exists a | a in arrivals :: IsFirst(ns, a.from, i)
  {
    if arrivals != [] {
      var last := |arrivals| - 1;
      var a := arrivals[last];
      MarkedExactly(ns, m, arrivals[..last], hops[..last], i);
      FirstIs(ns, a.from, i);
      assert arrivals == arrivals[..last] + [a] && hops == hops[..last] + [hops[last]];
    }
  }

  /** The count is the number of packets from listed neighbours, as an unsigned int. */
  lemma {:induction false} CountExactly(ns: Table, m: Memory, arrivals: seq<Arrival>, hops: seq<nat>)
    requires |m.visited| == MAX_NEIGHBORS && |arrivals| == |hops| && forall j | 0 <= j < |hops| :: hops[j] < MAX_NEIGHBORS
    requires m.count < 0x1_0000_0000
    ensures Remembered(ns, m, arrivals, hops).count == (m.count + CameBack(ns, arrivals)) % 0x1_0000_0000
  {
    if arrivals != [] {
      var last := |arrivals| - 1;
      CountExactly(ns, m, arrivals[..last], hops[..last]);
      NotedCount(Remembered(ns, m, arrivals[..last], hops[..last]), ns, arrivals[last].from, m.count + CameBack(ns, arrivals[..last]));
    }
  }

  lemma {:induction false} NotedCount(m: Memory, ns: Table, from: AddressWords.Addr, n: nat)
    requires |m.visited| == MAX_NEIGHBORS && m.count == n % 0x1_0000_0000
    ensures Noted(m, ns, from).count == (n + if Known(ns, from) then 1 else 0) % 0x1_0000_0000
  {
    assert IndexOf(ns, from) < |ns| <==> Known(ns, from);
  }
}
