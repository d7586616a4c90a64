/** The neighbour table of heart_beat.c does what the heartbeat and ageing steps of the allocation runs say: process_hb is
    Hb, and check_neighbors is one Forget or Expire for every entry that goes. */
module HeartBeatSteps {
  import opened Wrappers
  import opened Hypercube
  import opened Metric
  import opened Allocation
  import opened AllocationRun
  import opened AllocationResults
  import N = Neighbours

  /** The address is next to the daemon inside its initial space: a child's. */
  predicate Within(init: Space, a: Host) {
    Dist(init.addr, a) == 1 && Covers(init, a)
  }

  /** The places of children. */
  ghost function Inside(init: Space): iset<Host> {
    iset a: Host | Within(init, a)
  }

  /** The spaces of the listed neighbours outside a set of places. */
  function Others(inner: iset<Host>, s: seq<Neighbour>): seq<Space> {
    if s == [] then []
    else
      Others(inner, s[..|s| - 1]) + Other(inner, s[|s| - 1])
  }

  function Other(inner: iset<Host>, n: Neighbour): seq<Space> {
    if n.addr in inner then [] else [Space(n.addr, n.maskIni)]
  }

  /** The initial masks of listed children are the ones that belong to their places. */
  predicate TrueMasks(n: Node, s: seq<Neighbour>) {
    forall i | 0 <= i < |s| :: Within(Init(n), s[i].addr) ==> Child(n, Space(s[i].addr, s[i].maskIni))
  }

  /** The table says the same as the cell of the allocation run. */
  ghost predicate Mirrors(c: Cell, s: seq<Neighbour>) {
    N.Unique(s) && TrueMasks(c.node, s) && c.link.heard == Others(Inside(Init(c.node)), s)
  }

  // ----- Heartbeats -----

  /** What a daemon hears of its children is true. */
  lemma {:induction false} GenuineIsTrue(t: Net, path: seq<nat>, b: Beat)
    requires Inv(t) && OnPath(t, path) && SentIn(t, b)
    requires var n := SubtreeAt(t, path).val.node;
             ReactionOf(n, b) == Listen && Within(Init(n), b.addr)
    ensures Child(SubtreeAt(t, path).val.node, Space(b.addr, b.maskIni))
    ensures exists k | k in SubtreeAt(t, path).kids :: Space(b.addr, b.maskIni) == Init(k.val.node)
  {
    var k := InnerNeighbourIsChild(t, path, b);
    SubtreeInv(t, path);
    assert Space(b.addr, b.maskIni) == Init(k.val.node);
  }

  lemma {:induction false} OthersSnoc(inner: iset<Host>, s: seq<Neighbour>, n: Neighbour)
    ensures Others(inner, s + [n]) == Others(inner, s) + Other(inner, n)
  {
    assert (s + [n])[..|s|] == s;
  }

  lemma {:induction false} OthersConcat(inner: iset<Host>, s: seq<Neighbour>, u: seq<Neighbour>)
    ensures Others(inner, s + u) == Others(inner, s) + Others(inner, u)
  {
    if u == [] {
      assert s + u == s;
    } else {
      var v, n := u[..|u| - 1], u[|u| - 1];
      OthersConcat(inner, s, v);
      OthersMore(inner, s, v, n);
      assert u == v + [n];
    }
  }

  lemma {:induction false} OthersMore(inner: iset<Host>, s: seq<Neighbour>, v: seq<Neighbour>, n: Neighbour)
    requires Others(inner, s + v) == Others(inner, s) + Others(inner, v)
    ensures Others(inner, s + (v + [n])) == Others(inner, s) + Others(inner, v + [n])
  {
    var a, b, o := Others(inner, s), Others(inner, v), Other(inner, n);
    OthersSnoc(inner, s + v, n);
    OthersSnoc(inner, v, n);
    Chained(a, b, o);
    assert s + (v + [n]) == (s + v) + [n];
  }

  lemma {:induction false} Chained(a: seq<Space>, b: seq<Space>, o: seq<Space>)
    ensures (a + b) + o == a + (b + o)
  {
  }

  /** Counters and present masks do not matter. */
  lemma {:induction false} OthersSame(inner: iset<Host>, s: seq<Neighbour>, u: seq<Neighbour>)
    requires |s| == |u| && forall i | 0 <= i < |s| :: s[i].addr == u[i].addr && s[i].maskIni == u[i].maskIni
    ensures Others(inner, s) == Others(inner, u)
  {
    if s != [] {
      OthersSame(inner, s[..|s| - 1], u[..|u| - 1]);
    }
  }

  lemma {:induction false} OthersHave(inner: iset<Host>, s: seq<Neighbour>, i: nat)
    requires i < |s| && s[i].addr !in inner
    ensures Space(s[i].addr, s[i].maskIni) in Others(inner, s)
  {
    var t := s[..|s| - 1];
    if i < |t| {
      OthersHave(inner, t, i);
    } else {
      assert Other(inner, s[i]) == [Space(s[i].addr, s[i].maskIni)];
    }
  }

  lemma {:induction false} OthersFrom(inner: iset<Host>, s: seq<Neighbour>, e: Space) returns (i: nat)
    requires e in Others(inner, s)
    ensures i < |s| && s[i].addr == e.addr && s[i].maskIni == e.mask
  {
    var t := s[..|s| - 1];
    if e in Others(inner, t) {
      i := OthersFrom(inner, t, e);
    } else {
      i := |t|;
      assert e in Other(inner, s[i]);
    }
  }

  lemma {:induction false} OthersLists(inner: iset<Host>, s: seq<Neighbour>, a: Host)
    requires a !in inner
    ensures Listed(Others(inner, s), a) <==> N.Lists(s, a)
  {
    ListedIff(Others(inner, s), a);
    if i :| 0 <= i < |s| && s[i].addr == a {
      OthersHave(inner, s, i);
    }
    if e :| e in Others(inner, s) && e.addr == a {
      var i := OthersFrom(inner, s, e);
    }
  }

  lemma {:induction false} OthersRefreshed(inner: iset<Host>, s: seq<Neighbour>, b: Beat)
    ensures Others(inner, N.Refreshed(s, b)) ==
            if b.addr in inner || Listed(Others(inner, s), b.addr) then Others(inner, s)
            else Others(inner, s) + [Space(b.addr, b.maskIni)]
  {
    var i, r := N.IndexAt(s, b.addr), N.Refreshed(s, b);
    if b.addr !in inner {
      OthersLists(inner, s, b.addr);
    }
    if i < |s| {
      OthersSame(inner, s, r);
      assert N.Lists(s, b.addr);
    } else {
      OthersSnoc(inner, s, Neighbour(b.addr, b.mask, b.maskIni, 0));
      assert !N.Lists(s, b.addr);
    }
  }

  lemma {:induction false} RefreshedUnique(s: seq<Neighbour>, b: Beat)
    requires N.Unique(s)
    ensures N.Unique(N.Refreshed(s, b))
  {
  }

  lemma {:induction false} RefreshedTrue(n: Node, s: seq<Neighbour>, b: Beat)
    requires TrueMasks(n, s) && (Within(Init(n), b.addr) ==> Child(n, Space(b.addr, b.maskIni)))
    ensures TrueMasks(n, N.Refreshed(s, b))
  {
    var r := N.Refreshed(s, b);
    forall i | 0 <= i < |r| && Within(Init(n), r[i].addr)
      ensures Child(n, Space(r[i].addr, r[i].maskIni))
    {
      if i < |s| {
        assert r[i].addr == s[i].addr && r[i].maskIni == s[i].maskIni;
      } else {
        assert r[i] == Neighbour(b.addr, b.mask, b.maskIni, 0);
      }
    }
  }

  lemma {:induction false} HbHears(c: Cell, b: Beat)
    ensures HbStep(c, b).node == c.node
    ensures HbStep(c, b).link.heard ==
            if ReactionOf(c.node, b) != Listen || Within(Init(c.node), b.addr) || Listed(c.link.heard, b.addr)
            then c.link.heard else c.link.heard + [Space(b.addr, b.maskIni)]
  {
    assert Within(Init(c.node), b.addr) == Inner(c.node, b.addr);
  }

  /** process_hb lists what the step Hb lists, and changes no initial mask. */
  lemma {:induction false} BeatStep(c: Cell, s: seq<Neighbour>, b: Beat)
    requires Mirrors(c, s)
    requires ReactionOf(c.node, b) == Listen && Within(Init(c.node), b.addr) ==> Child(c.node, Space(b.addr, b.maskIni))
    ensures Mirrors(HbStep(c, b), if N.Heeds(c.node.addr, true, SecAddr(c.node), b) then N.Refreshed(s, b) else s)
  {
    HbHears(c, b);
    if N.Heeds(c.node.addr, true, SecAddr(c.node), b) {
      OthersRefreshed(Inside(Init(c.node)), s, b);
      RefreshedUnique(s, b);
      RefreshedTrue(c.node, s, b);
    }
  }

  /** In a network, a genuine heartbeat does to the table what it does to the cell. */
  lemma {:induction false} GenuineBeatStep(t: Net, path: seq<nat>, b: Beat, s: seq<Neighbour>)
    requires Inv(t) && OnPath(t, path) && SentIn(t, b) && Mirrors(SubtreeAt(t, path).val, s)
    ensures var c := SubtreeAt(t, path).val;
            Mirrors(HbStep(c, b), if N.Heeds(c.node.addr, true, SecAddr(c.node), b) then N.Refreshed(s, b) else s)
  {
    var c := SubtreeAt(t, path).val;
    if ReactionOf(c.node, b) == Listen && Within(Init(c.node), b.addr) {
      GenuineIsTrue(t, path, b);
    }
    BeatStep(c, s, b);
  }

  lemma {:induction false} OtherKeepsCell(c: Cell, kids: seq<Net>, ev: Event)
    requires LocalEnabled(c, kids, ev) && !ev.Hb? && !ev.Forget? && !ev.Expire? && !ev.San?
    ensures var d := Local(c, kids, ev).val;
            d.node.addr == c.node.addr && d.node.maskIni == c.node.maskIni && d.link.heard == c.link.heard
  {
  }

  /** Events that have nothing to do with the table leave the agreement alone. */
  lemma {:induction false} OtherStep(c: Cell, kids: seq<Net>, ev: Event, s: seq<Neighbour>)
    requires LocalEnabled(c, kids, ev) && !ev.Hb? && !ev.Forget? && !ev.Expire? && !ev.San? && Mirrors(c, s)
    ensures Mirrors(Local(c, kids, ev).val, s)
  {
    var d := Local(c, kids, ev).val;
    OtherKeepsCell(c, kids, ev);
    StaysTrue(c.node, d.node, s, s);
  }

  lemma {:induction false} SanKeepsInit(c: Cell, i: nat, mask: nat)
    requires i < |c.link.saps|
    ensures var d := SanStep(c, i, mask);
            d.node.addr == c.node.addr && d.node.maskIni == c.node.maskIni
            && d.link.heard == c.link.heard + [Space(c.link.saps[i].to, mask)]
  {
  }

  /** process_san1 lists the sender, unconditionally; the table agrees again if the sender was not listed before. */
  lemma {:induction false} SanListsSender(c: Cell, i: nat, mask: nat, s: seq<Neighbour>)
    requires i < |c.link.saps| && !Within(Init(c.node), c.link.saps[i].to) && !N.Lists(s, c.link.saps[i].to)
    requires Mirrors(c, s)
    ensures Mirrors(SanStep(c, i, mask), s + [Neighbour(c.link.saps[i].to, mask, mask, 0)])
  {
    var d, n := SanStep(c, i, mask), Neighbour(c.link.saps[i].to, mask, mask, 0);
    SanKeepsInit(c, i, mask);
    OthersSnoc(Inside(Init(c.node)), s, n);
    forall j | 0 <= j < |s + [n]| && Within(Init(d.node), (s + [n])[j].addr)
      ensures Child(d.node, Space((s + [n])[j].addr, (s + [n])[j].maskIni))
    {
      assert j < |s| && (s + [n])[j] == s[j];
    }
  }

  // ----- One entry is aged -----

  lemma {:induction false} UniqueCut(s: seq<Neighbour>, at: nat)
    requires N.Unique(s) && at < |s|
    ensures N.Unique(s[..at] + s[at + 1..])
    ensures forall x | x in s[..at] + s[at + 1..] :: x in s && x.addr != s[at].addr
  {
    var u := s[..at] + s[at + 1..];
    assert forall i | 0 <= i < |u| :: u[i] == s[if i < at then i else i + 1];
  }

  lemma {:induction false} OthersApart(inner: iset<Host>, s: seq<Neighbour>, a: Host)
    requires forall i | 0 <= i < |s| :: s[i].addr != a
    ensures forall x | x in Others(inner, s) :: x.addr != a
  {
    forall x | x in Others(inner, s)
      ensures x.addr != a
    {
      var i := OthersFrom(inner, s, x);
    }
  }

  lemma {:induction false} OthersAround(inner: iset<Host>, a: seq<Neighbour>, n: Neighbour, b: seq<Neighbour>)
    ensures Others(inner, a + b) == Others(inner, a) + Others(inner, b)
    ensures Others(inner, a + [n] + b) == Others(inner, a) + Other(inner, n) + Others(inner, b)
  {
    OthersConcat(inner, a, b);
    OthersConcat(inner, a + [n], b);
    OthersSnoc(inner, a, n);
  }

  lemma {:induction false} OthersCut(inner: iset<Host>, s: seq<Neighbour>, at: nat)
    requires N.Unique(s) && at < |s|
    ensures var u := s[..at] + s[at + 1..];
            Others(inner, u) == if s[at].addr in inner then Others(inner, s) else Unlist(Others(inner, s), s[at].addr)
    ensures s[at].addr !in inner ==>
              var i := |Others(inner, s[..at])|;
              i < |Others(inner, s)| && Others(inner, s)[i] == Space(s[at].addr, s[at].maskIni)
  {
    var a, n, b := s[..at], s[at], s[at + 1..];
    assert s == a + [n] + b;
    OthersAround(inner, a, n, b);
    if n.addr in inner {
      assert Others(inner, a) + [] == Others(inner, a);
    } else {
      OthersApart(inner, a, n.addr);
      UnlistsFirst(Others(inner, a), Space(n.addr, n.maskIni), Others(inner, b));
    }
  }

  /** An entry that stays changes nothing else. */
  lemma {:induction false} StaysTurn(c: Cell, s: seq<Neighbour>, limit: int, at: nat)
    requires Mirrors(c, s) && at < |s| && N.Older(limit, s[at].count).Some?
    ensures Mirrors(c, N.Turned(limit, s, at)) && N.Given(c.node.addr, limit, s[at]) == []
  {
    OthersSame(Inside(Init(c.node)), s, N.Turned(limit, s, at));
  }

  /** An entry that goes and is no child's: the step Forget. */
  lemma {:induction false} ForgetTurn(c: Cell, s: seq<Neighbour>, limit: int, at: nat) returns (i: nat)
    requires Mirrors(c, s) && at < |s| && N.Older(limit, s[at].count) == None && !Within(Init(c.node), s[at].addr)
    ensures i < |c.link.heard| && c.link.heard[i] == Space(s[at].addr, s[at].maskIni)
    ensures Mirrors(ForgetStep(c, i), N.Turned(limit, s, at))
    ensures ForgetStep(c, i).node == c.node.(rcvd := c.node.rcvd + N.Given(c.node.addr, limit, s[at]))
  {
    i := |Others(Inside(Init(c.node)), s[..at])|;
    OthersCut(Inside(Init(c.node)), s, at);
    UniqueCut(s, at);
    StaysTrue(c.node, ForgetStep(c, i).node, s, N.Turned(limit, s, at));
  }

  lemma {:induction false} StaysTrue(n: Node, k: Node, s: seq<Neighbour>, u: seq<Neighbour>)
    requires TrueMasks(n, s) && Init(n) == Init(k) && forall x | x in u :: x in s
    ensures TrueMasks(k, u)
  {
    forall i | 0 <= i < |u| && Within(Init(k), u[i].addr)
      ensures Child(k, Space(u[i].addr, u[i].maskIni))
    {
      assert u[i] in u;
      var j :| 0 <= j < |s| && s[j] == u[i];
    }
  }

  /** An entry that goes and is a child's that left: the step Expire. What is recovered is the space that the child's
      entry in limbo says, its initial space. */
  lemma {:induction false} ExpireTurn(c: Cell, s: seq<Neighbour>, limit: int, at: nat, i: nat)
    requires Mirrors(c, s) && at < |s| && N.Older(limit, s[at].count) == None && Within(Init(c.node), s[at].addr)
    requires i < |c.limbo| && Child(c.node, c.limbo[i].space) && c.limbo[i].space.addr == s[at].addr
    ensures Mirrors(ExpireStep(c, i), N.Turned(limit, s, at))
    ensures N.Given(c.node.addr, limit, s[at]) == Regain(c.node.addr, c.limbo[i].space)
    ensures ExpireStep(c, i).node == c.node.(rcvd := c.node.rcvd + N.Given(c.node.addr, limit, s[at]))
  {
    SameBuddy(c.node, Space(s[at].addr, s[at].maskIni), c.limbo[i].space);
    OthersCut(Inside(Init(c.node)), s, at);
    UniqueCut(s, at);
    StaysTrue(c.node, ExpireStep(c, i).node, s, N.Turned(limit, s, at));
    assert c.node.rcvd + [] == c.node.rcvd;
  }

  // ----- A tick -----

  predicate CanDo(c: Cell, kids: seq<Net>, evs: seq<Event>)
    decreases evs
  {
    evs == [] || (LocalEnabled(c, kids, evs[0]) && CanDo(Local(c, kids, evs[0]).val, kids, evs[1..]))
  }

  /** The cell after events that leave the children alone. */
  function Did(c: Cell, kids: seq<Net>, evs: seq<Event>): Cell
    requires CanDo(c, kids, evs)
    decreases evs
  {
    if evs == [] then c else Did(Local(c, kids, evs[0]).val, kids, evs[1..])
  }

  lemma {:induction false} DidMore(c: Cell, kids: seq<Net>, evs: seq<Event>, ev: Event)
    requires CanDo(c, kids, evs) && LocalEnabled(Did(c, kids, evs), kids, ev)
    ensures CanDo(c, kids, evs + [ev]) && Did(c, kids, evs + [ev]) == Local(Did(c, kids, evs), kids, ev).val
    decreases evs
  {
    if evs == [] {
      assert [ev][1..] == [];
    } else {
      DidMore(Local(c, kids, evs[0]).val, kids, evs[1..], ev);
      assert (evs + [ev])[1..] == evs[1..] + [ev];
    }
  }

  predicate Left(c: Cell, a: Host) {
    exists l | l in c.limbo :: l.why == Departed && l.space.addr == a && Child(c.node, l.space)
  }

  /** A child's entry is aged out only after the child left. */
  predicate GoneHaveLeft(c: Cell, s: seq<Neighbour>, limit: int, from: nat) {
    forall k | from <= k < |s| :: N.Older(limit, s[k].count) == None && Within(Init(c.node), s[k].addr) ==> Left(c, s[k].addr)
  }

  lemma {:induction false} LeftStays(c: Cell, i: nat, a: Host)
    requires i < |c.limbo| && c.limbo[i].space.addr != a && Left(c, a)
    ensures Left(ExpireStep(c, i), a)
  {
    var l :| l in c.limbo && l.why == Departed && l.space.addr == a && Child(c.node, l.space);
    var j :| 0 <= j < |c.limbo| && c.limbo[j] == l;
    var d := ExpireStep(c, i);
    assert d.limbo[if d.limbo == Without(c.limbo, i) && j > i then j - 1 else j] == l;
  }

  /** What one turn of the walk over the table s, at its entry k and position at of the present table, leaves to the
      next one. */
  ghost predicate Turn(c: Cell, d: Cell, s: seq<Neighbour>, limit: int, k: nat, table: seq<Neighbour>, at: nat)
    requires at < |table| && k < |s|
  {
    && Mirrors(d, N.Turned(limit, table, at)) && Init(d.node) == Init(c.node)
    && d.node == c.node.(rcvd := c.node.rcvd + N.Given(c.node.addr, limit, s[k]))
    && GoneHaveLeft(d, s, limit, k + 1)
  }

  lemma {:induction false} GoneForget(c: Cell, i: nat, s: seq<Neighbour>, limit: int, k: nat)
    requires GoneHaveLeft(c, s, limit, k) && i < |c.link.heard|
    ensures GoneHaveLeft(ForgetStep(c, i), s, limit, k + 1)
  {
    var d := ForgetStep(c, i);
    assert d.limbo == c.limbo;
    forall j | k + 1 <= j < |s| && N.Older(limit, s[j].count) == None && Within(Init(d.node), s[j].addr)
      ensures Left(d, s[j].addr)
    {
      assert Left(c, s[j].addr);
    }
  }

  lemma {:induction false} GoneExpire(c: Cell, i: nat, s: seq<Neighbour>, limit: int, k: nat)
    requires N.Unique(s) && GoneHaveLeft(c, s, limit, k) && k < |s| && i < |c.limbo| && c.limbo[i].space.addr == s[k].addr
    ensures GoneHaveLeft(ExpireStep(c, i), s, limit, k + 1)
  {
    forall j | k + 1 <= j < |s| && N.Older(limit, s[j].count) == None && Within(Init(c.node), s[j].addr)
      ensures Left(ExpireStep(c, i), s[j].addr)
    {
      LeftStays(c, i, s[j].addr);
    }
  }

  lemma {:induction false} LeftWhere(c: Cell, a: Host) returns (i: nat)
    requires Left(c, a)
    ensures i < |c.limbo| && c.limbo[i].why == Departed && c.limbo[i].space.addr == a && Child(c.node, c.limbo[i].space)
  {
    var l :| l in c.limbo && l.why == Departed && l.space.addr == a && Child(c.node, l.space);
    i :| 0 <= i < |c.limbo| && c.limbo[i] == l;
  }

  lemma {:induction false} OneDone(c: Cell, kids: seq<Net>, ev: Event)
    requires LocalEnabled(c, kids, ev)
    ensures CanDo(c, kids, [ev]) && Did(c, kids, [ev]) == Local(c, kids, ev).val
  {
    assert [ev][1..] == [];
  }

  lemma {:induction false} ForgetOn(c: Cell, kids: seq<Net>, s: seq<Neighbour>, limit: int, k: nat, table: seq<Neighbour>, at: nat)
    returns (ev: Event)
    requires Mirrors(c, table) && at < |table| && k < |s| && table[at] == s[k] && GoneHaveLeft(c, s, limit, k)
    requires N.Older(limit, s[k].count) == None && !Within(Init(c.node), s[k].addr)
    ensures LocalEnabled(c, kids, ev) && Turn(c, Local(c, kids, ev).val, s, limit, k, table, at)
  {
    var i := ForgetTurn(c, table, limit, at);
    ev := Forget(i);
    GoneForget(c, i, s, limit, k);
  }

  lemma {:induction false} ExpireOn(c: Cell, kids: seq<Net>, s: seq<Neighbour>, limit: int, k: nat, table: seq<Neighbour>, at: nat)
    returns (ev: Event)
    requires Mirrors(c, table) && at < |table| && k < |s| && table[at] == s[k] && N.Unique(s) && GoneHaveLeft(c, s, limit, k)
    requires N.Older(limit, s[k].count) == None && Within(Init(c.node), s[k].addr)
    ensures LocalEnabled(c, kids, ev) && Turn(c, Local(c, kids, ev).val, s, limit, k, table, at)
  {
    var i := LeftWhere(c, s[k].addr);
    ExpireTurn(c, table, limit, at, i);
    ev := Expire(i);
    GoneExpire(c, i, s, limit, k);
  }

  lemma {:induction false} StayOn(c: Cell, s: seq<Neighbour>, limit: int, k: nat, table: seq<Neighbour>, at: nat)
    requires Mirrors(c, table) && at < |table| && k < |s| && table[at] == s[k] && GoneHaveLeft(c, s, limit, k)
    requires N.Older(limit, s[k].count).Some?
    ensures Turn(c, c, s, limit, k, table, at)
  {
    StaysTurn(c, table, limit, at);
    assert c.node.rcvd + [] == c.node.rcvd;
  }

  lemma {:induction false} WalkOn(c: Cell, kids: seq<Net>, s: seq<Neighbour>, limit: int, k: nat, table: seq<Neighbour>, at: nat)
    returns (evs: seq<Event>)
    requires Mirrors(c, table) && at < |table| && k < |s| && table[at] == s[k]
    requires N.Unique(s) && GoneHaveLeft(c, s, limit, k)
    ensures |evs| <= 1 && CanDo(c, kids, evs) && Turn(c, Did(c, kids, evs), s, limit, k, table, at)
  {
    evs := [];
    if N.Older(limit, s[k].count).Some? {
      StayOn(c, s, limit, k, table, at);
    } else {
      var ev;
      if Within(Init(c.node), s[k].addr) {
        ev := ExpireOn(c, kids, s, limit, k, table, at);
      } else {
        ev := ForgetOn(c, kids, s, limit, k, table, at);
      }
      OneDone(c, kids, ev);
      evs := [ev];
    }
  }

  /** The walk has come to the entry k. */
  ghost predicate Walked(c: Cell, d: Cell, s: seq<Neighbour>, limit: int, k: nat)
    requires k <= |s|
  {
    && Mirrors(d, N.Aged(limit, s[..k]) + s[k..]) && Init(d.node) == Init(c.node)
    && d.node == c.node.(rcvd := c.node.rcvd + N.Regained(c.node.addr, limit, s[..k]))
    && GoneHaveLeft(d, s, limit, k)
  }

  lemma {:induction false} WalkStep(c: Cell, d: Cell, kids: seq<Net>, s: seq<Neighbour>, limit: int, k: nat) returns (evs: seq<Event>)
    requires N.Unique(s) && k < |s| && Walked(c, d, s, limit, k)
    ensures |evs| <= 1 && CanDo(d, kids, evs) && Walked(c, Did(d, kids, evs), s, limit, k + 1)
  {
    var table := N.Aged(limit, s[..k]) + s[k..];
    var at := |table| - (|s| - k);
    N.WalkTurn(c.node.addr, limit, s, k, table, at, c.node.rcvd, d.node.rcvd);
    evs := WalkOn(d, kids, s, limit, k, table, at);
  }

  lemma {:induction false} Joined(c: Cell, kids: seq<Net>, evs: seq<Event>, more: seq<Event>)
    requires CanDo(c, kids, evs) && |more| <= 1 && CanDo(Did(c, kids, evs), kids, more)
    ensures CanDo(c, kids, evs + more) && Did(c, kids, evs + more) == Did(Did(c, kids, evs), kids, more)
  {
    if more == [] {
      assert evs + more == evs;
    } else {
      assert more == [more[0]];
      DidMore(c, kids, evs, more[0]);
      OneDone(Did(c, kids, evs), kids, more[0]);
    }
  }

  lemma {:induction false} WalkTo(c: Cell, kids: seq<Net>, s: seq<Neighbour>, limit: int, k: nat) returns (evs: seq<Event>)
    requires Mirrors(c, s) && GoneHaveLeft(c, s, limit, 0) && k <= |s|
    ensures CanDo(c, kids, evs) && Walked(c, Did(c, kids, evs), s, limit, k)
  {
    if k == 0 {
      evs := [];
      assert N.Aged(limit, s[..0]) + s[0..] == s;
      assert c.node.rcvd + [] == c.node.rcvd;
    } else {
      evs := WalkTo(c, kids, s, limit, k - 1);
      var more := WalkStep(c, Did(c, kids, evs), kids, s, limit, k - 1);
      Joined(c, kids, evs, more);
      evs := evs + more;
    }
  }

  /** check_neighbors at a daemon of an allocation run: there are steps Forget and Expire, one for each entry that goes,
      that leave the cell in agreement with the aged table and recover the same spaces. */
  lemma {:induction false} TickSteps(c: Cell, kids: seq<Net>, s: seq<Neighbour>, limit: int) returns (evs: seq<Event>)
    requires Mirrors(c, s) && GoneHaveLeft(c, s, limit, 0)
    ensures CanDo(c, kids, evs)
    ensures var d := Did(c, kids, evs);
            && Mirrors(d, N.Aged(limit, s))
            && d.node == c.node.(rcvd := c.node.rcvd + N.Regained(c.node.addr, limit, s))
  {
    evs := WalkTo(c, kids, s, limit, |s|);
    assert s[..|s|] == s && N.Aged(limit, s) + s[|s|..] == N.Aged(limit, s);
  }

  // ----- Whole runs at one daemon -----

  /** All heeded heartbeats from the place e tell e's own mask. */
  predicate Honest(own: Host, run: seq<N.Event>, e: Space) {
    forall j | 0 <= j < |run| :: run[j].HB? && run[j].hb.addr == e.addr && N.Heeds(own, true, run[j].sec, run[j].hb) ==>
                                   run[j].hb.maskIni == e.mask
  }

  /** After any run in which a child's heartbeats were honest, the tick that takes its entry out recovers exactly the
      child's initial space if it is a successor, and nothing otherwise; no other tick recovers anything for it. */
  lemma {:induction false} ChildRegained(own: Host, limit: int, run: seq<N.Event>, e: Space, i: nat)
    requires limit >= 1 && Honest(own, run, e)
    requires i < |N.After(own, true, limit, run)| && N.After(own, true, limit, run)[i].addr == e.addr
    ensures var n := N.After(own, true, limit, run)[i];
            && Space(n.addr, n.maskIni) == e
            && N.Given(own, limit, n) == if N.Older(limit, n.count) == None then Regain(own, e) else []
  {
    N.MasksAreHeard(own, true, limit, run);
    N.FirstIsHeard(own, true, limit, run, e.addr);
    var n := N.After(own, true, limit, run)[i];
    var b := N.FirstBeat(own, true, limit, run, e.addr).value;
    assert N.MaskedBy(n, N.FirstBeat(own, true, limit, run, n.addr), N.LastBeat(own, true, run, n.addr));
    var j :| 0 <= j < |run| && run[j].HB? && run[j].hb == b && N.Heeds(own, true, run[j].sec, b);
  }
}
