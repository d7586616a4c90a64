/** Which daemon answers for a rendezvous destination (rv_route in pkt_handle.c). */
module Rendezvous {
  import opened Wrappers
  import opened Hypercube
  import opened Allocation
  import opened AllocationRun
  import opened AllocationResults
  import opened AllocationDiscipline
  import opened AllocationCollisions
  import AddressWords

  predicate Recovered(n: Node, h: Host) {
    exists e | e in n.rcvd :: Covers(e, h)
  }

  /** rv_route returns RV_DROP: the daemon processes the packet itself. */
  predicate Processes(n: Node, h: Host) {
    || Covers(Own(n), h)
    || (if n.sec.Some? then Covers(n.sec.value, h) else Recovered(n, h))
  }

  datatype Entry = Entry(addr: AddressWords.Addr, mask: nat)

  function SpaceOf(e: Entry): Space {
    Space(AddressWords.HostOf(e.addr), e.mask)
  }

  /** The decision of rv_route, over the word form of the addresses. */
  method RvRoute(dst: AddressWords.Addr, prim: Entry, rcvd: seq<Entry>, sec: Option<Entry>) returns (drop: bool)
    requires prim.mask <= 64 && (forall e | e in rcvd :: e.mask <= 64) && (sec.Some? ==> sec.value.mask <= 64)
    ensures forall n: Node, h: Host ::
              Own(n) == SpaceOf(prim) && h == AddressWords.HostOf(dst) &&
              n.rcvd == SpacesOf(rcvd) && n.sec == (if sec.Some? then Some(SpaceOf(sec.value)) else None)
              ==> drop == Processes(n, h)
  {
    var r := AddressWords.CheckAddrSpace(dst, prim.addr, prim.mask);
    if r != 0 {
      var i := 0;
      var found := false;
      while i < |rcvd| && !found
        invariant 0 <= i <= |rcvd|
        invariant found <==> exists j | 0 <= j < i :: Covers(SpaceOf(rcvd[j]), AddressWords.HostOf(dst))
      {
        var c := AddressWords.CheckAddrSpace(dst, rcvd[i].addr, rcvd[i].mask);
        found := c == 0;
        i := i + 1;
      }
      RecoveredIs(rcvd, AddressWords.HostOf(dst), i, found);
      if !found && sec == None {
        return false;
      }
      if sec.Some? {
        var s := AddressWords.CheckAddrSpace(dst, sec.value.addr, sec.value.mask);
        if s != 0 {
          return false;
        }
      }
    }
    return true;
  }

  function SpacesOf(s: seq<Entry>): (r: seq<Space>)
    ensures |r| == |s| && forall i | 0 <= i < |s| :: r[i] == SpaceOf(s[i])
  {
    if s == [] then [] else [SpaceOf(s[0])] + SpacesOf(s[1..])
  }

  lemma {:induction false} RecoveredIs(rcvd: seq<Entry>, h: Host, i: nat, found: bool)
    requires i <= |rcvd| && (i == |rcvd| || found)
    requires found <==> exists j | 0 <= j < i :: Covers(SpaceOf(rcvd[j]), h)
    ensures forall n: Node | n.rcvd == SpacesOf(rcvd) :: Recovered(n, h) == found
  {
    forall n: Node | n.rcvd == SpacesOf(rcvd)
      ensures Recovered(n, h) == found
    {
      RecoveredAt(rcvd, h, n);
    }
  }

  lemma {:induction false} RecoveredAt(rcvd: seq<Entry>, h: Host, n: Node)
    requires n.rcvd == SpacesOf(rcvd)
    ensures Recovered(n, h) <==> exists j | 0 <= j < |rcvd| :: Covers(SpaceOf(rcvd[j]), h)
  {
    if j :| 0 <= j < |rcvd| && Covers(SpaceOf(rcvd[j]), h) {
      assert n.rcvd[j] in n.rcvd;
    }
    if e :| e in n.rcvd && Covers(e, h) {
      var j :| 0 <= j < |n.rcvd| && n.rcvd[j] == e;
      assert Covers(SpaceOf(rcvd[j]), h);
    }
  }

  // ----- One owner for every destination -----

  function Servers(t: Net, h: Host): nat {
    (if Processes(t.val.node, h) then 1 else 0) + ServersAll(t.kids, h)
  }

  function ServersAll(kids: seq<Net>, h: Host): nat {
    if kids == [] then 0 else Servers(kids[0], h) + ServersAll(kids[1..], h)
  }

  /** The destination is owned through the recovered list alone, and rv_route does not look there. */
  predicate Hidden(n: Node, h: Host) {
    n.sec.Some? && Recovered(n, h) && !Covers(Own(n), h) && !Covers(n.sec.value, h)
  }

  predicate HiddenIn(t: Net, h: Host) {
    Hidden(t.val.node, h) || exists k | k in t.kids :: HiddenIn(k, h)
  }

  /** A daemon that owns h at most once processes for h exactly when it owns h and does not hide it. */
  lemma {:induction false} ProcessesWhatItHolds(n: Node, h: Host)
    requires Holds(At(h), n) <= 1
    ensures (if Processes(n, h) then 1 else 0) + (if Hidden(n, h) then 1 else 0) == Holds(At(h), n)
  {
    SumPositive(n.rcvd, h);
    if n.sec.Some? {
      assert Sum(At(h), [n.sec.value]) == Value(At(h), n.sec.value);
    }
  }

  lemma {:induction false} ServersAreLive(t: Net, h: Host)
    requires Live(At(h), t) <= 1
    ensures Servers(t, h) + (if HiddenIn(t, h) then 1 else 0) == Live(At(h), t)
  {
    ProcessesWhatItHolds(t.val.node, h);
    ServersAllLive(t.kids, h);
  }

  lemma {:induction false} ServersAllLive(kids: seq<Net>, h: Host)
    requires LiveAll(At(h), kids) <= 1
    ensures ServersAll(kids, h) + (if exists k | k in kids :: HiddenIn(k, h) then 1 else 0) == LiveAll(At(h), kids)
  {
    if kids != [] {
      ServersAreLive(kids[0], h);
      ServersAllLive(kids[1..], h);
      assert kids == [kids[0]] + kids[1..];
      assert (exists k | k in kids :: HiddenIn(k, h)) <==> HiddenIn(kids[0], h) || exists k | k in kids[1..] :: HiddenIn(k, h);
    }
  }

  /** After every safe run a destination is processed at exactly one daemon, if its space is not in limbo and no
      daemon with a secondary address owns it through its recovered list alone; otherwise at none. */
  lemma {:induction false} UniqueRendezvousOwner(run: seq<Step>, h: Host)
    requires Possible(Founder(), run) && SafeRun(Founder(), run)
    ensures var t := After(Founder(), run);
            Servers(t, h) == if InLimbo(At(h), t) == 0 && !HiddenIn(t, h) then 1 else 0
    ensures NoSecondary(After(Founder(), run)) ==> !HiddenIn(After(Founder(), run), h)
  {
    RunPartitionsHypercube(run);
    var t := After(Founder(), run);
    assert Live(At(h), t) + InLimbo(At(h), t) == 1;
    ServersAreLive(t, h);
    if NoSecondary(t) {
      PlainHidesNothing(t, h);
    }
  }

  lemma {:induction false} PlainHidesNothing(t: Net, h: Host)
    requires NoSecondary(t)
    ensures !HiddenIn(t, h)
  {
    forall k | k in t.kids
      ensures !HiddenIn(k, h)
    {
      PlainHidesNothing(k, h);
    }
  }

  /** With a secondary address, rv_route answers for what the daemon owns exactly when the destination
      is not owned through the recovered list alone. */
  lemma {:induction false} SecondaryHidesRecovered(n: Node, h: Host)
    requires n.sec.Some?
    ensures (Processes(n, h) <==> Holds(At(h), n) > 0) <==>
            (Recovered(n, h) ==> Covers(Own(n), h) || Covers(n.sec.value, h))
  {
    SumPositive(n.rcvd, h);
    SumPositive(SecOf(n), h);
    assert n.sec.value in SecOf(n);
  }

  // ----- A destination that nobody processes -----

  /** The founder with a secondary space has recovered its child's space. */
  function Blind(r: Host): Net {
    Tree(Cell(Node(r, 2, 0, [Buddy(r, 0)], None, Some(Buddy(r, 1))), [], [], Answered(r)), [])
  }

  lemma {:induction false} ReachBlind(rules: set<Rule>, r: Host)
    requires Shaped(r, 0)
    ensures Reaches(rules, Newcomer(Space(r, 0)), Blind(r))
  {
    var t, o := Newcomer(Space(r, 0)), Buddy(r, 0);
    var c := Cell(Node(r, 2, 0, [], None, Some(Buddy(r, 1))), [], [], Answered(r));
    var gone := [Limbo(o, Departed)];
    ReachHeld(rules, r);
    assert Without([Middle(r)], 0) == [] && [] + gone == gone && Without(gone, 0) == [] && [] + [o] == [o];
    AtTop(rules, t, c, [Middle(r)], Leave(0), c.(limbo := gone), []);
    ChildIsSuccessor(r, 0, 0);
    AtTop(rules, t, c.(limbo := gone), [], Expire(0), Blind(r).val, []);
  }

  /** A run by the rules after which a destination is in no limbo and is processed by nobody. */
  lemma {:induction false} UnservedDestination() returns (run: seq<Step>)
    ensures Possible(Founder(), run) && DisciplinedRun(AllRules(), Founder(), run)
    ensures var t, h := After(Founder(), run), Flip(ROOT, 0);
            InLimbo(At(h), t) == 0 && Servers(t, h) == 0
  {
    ReachBlind(AllRules(), ROOT);
    BlindServes(ROOT);
    run :| Possible(Founder(), run) && DisciplinedRun(AllRules(), Founder(), run) && After(Founder(), run) == Blind(ROOT);
  }

  lemma {:induction false} BlindServes(r: Host)
    ensures InLimbo(At(Flip(r, 0)), Blind(r)) == 0 && Servers(Blind(r), Flip(r, 0)) == 0
  {
    assert r[0] != Flip(r, 0)[0] && Flip(r, 1)[0] == r[0];
  }
}
