/** Five rules, each one checked before an event, that together make every run of the allocation safe. */
module AllocationDiscipline {
  import opened Wrappers
  import opened Hypercube
  import opened Metric
  import opened Allocation
  import opened AllocationRun
  import opened AllocationResults

  datatype Rule =
    | OneOffer          // a PAR is answered only while no offer is outstanding
    | OfferOrProposal   // nor is it while a SAP is outstanding, and no SAP is sent while an offer is
    | FreshBuddy        // the next buddy is not offered if it is the recovered space that was offered once
    | HoldStill         // the secondary space is not given up while an offer is outstanding
    | ShallowMask       // a daemon whose initial mask exceeds 16 ages out no neighbour but its children

  predicate Obeys(r: Rule, c: Cell, ev: Event) {
    match r
    case OneOffer => ev == Par ==> c.offers == []
    case OfferOrProposal =>
      && (ev == Par ==> c.link.saps == [])
      && (ev.Hb? && SapOf(c, ev.b).Some? ==> c.offers == [])
    case FreshBuddy =>
      ev == Par && c.node.mask < 64 ==> c.node.offered != Some(Flip(c.node.addr, c.node.mask))
    case HoldStill => ev == Release ==> c.offers == []
    case ShallowMask => ev.Forget? ==> c.node.maskIni <= 16
  }

  predicate LocalDisciplined(rules: set<Rule>, c: Cell, ev: Event) {
    forall r | r in rules :: Obeys(r, c, ev)
  }

  function AllRules(): set<Rule> {
    {OneOffer, OfferOrProposal, FreshBuddy, HoldStill, ShallowMask}
  }

  predicate Disciplined(rules: set<Rule>, t: Net, path: seq<nat>, ev: Event)
    decreases path
  {
    if path == [] then LocalDisciplined(rules, t.val, ev)
    else path[0] < |t.kids| && Disciplined(rules, t.kids[path[0]], path[1..], ev)
  }

  predicate DisciplinedRun(rules: set<Rule>, t: Net, run: seq<Step>)
    requires Possible(t, run)
    decreases run
  {
    run == [] || (Disciplined(rules, t, run[0].path, run[0].ev) &&
                  DisciplinedRun(rules, Apply(t, run[0].path, run[0].ev), run[1..]))
  }

  /** At most one offer is outstanding, none beside a SAP, and all that is outstanding is current. */
  predicate OrderlyCell(c: Cell) {
    && |c.offers| <= 1
    && (c.offers != [] ==> c.link.saps == [])
    && (forall o | o in c.offers :: PanCurrent(c.node, o))
    && (forall s | s in c.link.saps :: SanCurrent(c, s.space))
  }

  predicate Orderly(t: Net) {
    OrderlyCell(t.val) && forall k | k in t.kids :: Orderly(k)
  }

  /** What a daemon proposes is current at that moment. */
  lemma {:induction false} SapIsCurrent(c: Cell, b: Beat)
    requires NodeOk(c.node) && SapOf(c, b).Some?
    ensures Child(c.node, SapOf(c, b).value) && SanCurrent(c, SapOf(c, b).value)
  {
    SapIsChild(c.node, c.link.avai, b.addr, SapOf(c, b).value);
  }

  /** So is an offer that follows the rules. */
  lemma {:induction false} ParIsCurrent(c: Cell)
    requires LocalDisciplined(AllRules(), c, Par)
    ensures OrderlyCell(ParStep(c))
  {
    assert Obeys(OneOffer, c, Par) && Obeys(OfferOrProposal, c, Par) && Obeys(FreshBuddy, c, Par);
    var n := c.node;
    if n.rcvd != [] {
      Listing(n.rcvd, |n.rcvd| - 1);
    }
  }

  lemma {:induction false} PanKeepsOrder(c: Cell, i: nat)
    requires OrderlyCell(c) && i < |c.offers|
    ensures OrderlyCell(PanStep(c, i))
  {
  }

  lemma {:induction false} ExpireKeepsOrder(c: Cell, i: nat)
    requires OrderlyCell(c) && i < |c.limbo| && c.limbo[i].why == Departed
    ensures OrderlyCell(ExpireStep(c, i))
  {
    var d := ExpireStep(c, i);
    ListedGrows(c.node.rcvd, c.limbo[i].space);
    forall s | s in c.link.saps
      ensures SanCurrent(d, s.space)
    {
      LeakedStays(c.limbo, d.limbo, i, s.space);
    }
  }

  /** Limbo entries other than i stay. */
  lemma {:induction false} LeakedStays(s: seq<Limbo>, u: seq<Limbo>, i: nat, o: Space)
    requires i < |s| && s[i] != Limbo(o, Leaked)
    requires u == Without(s, i) || (|u| == |s| && forall j | 0 <= j < |s| && j != i :: u[j] == s[j])
    ensures Limbo(o, Leaked) in s ==> Limbo(o, Leaked) in u
  {
    if Limbo(o, Leaked) in s {
      var k := LeakedAt(s, o);
      assert u[if u == Without(s, i) && k > i then k - 1 else k] == s[k];
    }
  }

  /** A SAN leaves every other outstanding proposal current: its space stays where it is, or it becomes the
      secondary space, or it leaks. */
  lemma {:induction false} SanKeepsCurrent(c: Cell, i: nat, mask: nat, s: Space)
    requires NodeOk(c.node) && i < |c.link.saps| && Child(c.node, c.link.saps[i].space)
    requires Child(c.node, s) && SanCurrent(c, s)
    ensures SanCurrent(SanStep(c, i, mask), s)
  {
    var n, o, d := c.node, c.link.saps[i].space, SanStep(c, i, mask);
    if s != o {
      if s.addr == o.addr {
        SameBuddy(n, s, o);
      }
      UnlistOther(n.rcvd, o.addr, s.addr);
      if Limbo(s, Leaked) in c.limbo && LeakedAt(c.limbo, o) < |c.limbo| {
        LeakedStays(c.limbo, Reclaimed(c.limbo, o), LeakedAt(c.limbo, o), s);
      }
      if s in Dropped(n, o) {
        LostHas(Dropped(n, o), s);
      }
      if n.mask < s.mask < o.mask {
        assert Skipped(n, o)[s.mask - 1 - n.mask] == s;
      }
      DistFlip(n.addr, o.mask - 1);
    }
  }

  lemma {:induction false} LostHas(s: seq<Space>, e: Space)
    requires e in s
    ensures Limbo(e, Leaked) in Lost(s)
  {
    var k :| 0 <= k < |s| && s[k] == e;
    assert Lost(s)[k] == Limbo(e, Leaked);
  }

  lemma {:induction false} UnlistOther(s: seq<Space>, a: Host, b: Host)
    requires a != b
    ensures Listed(s, b) ==> Listed(Unlist(s, a), b)
  {
    if Listed(s, b) {
      var k, i := IndexOf(s, b), IndexOf(s, a);
      var u := Unlist(s, a);
      assert u[if i < |s| && k > i then k - 1 else k] == s[k];
      ListedIff(u, b);
    }
  }

  lemma {:induction false} SanKeepsOrder(c: Cell, kids: seq<Net>, i: nat, mask: nat)
    requires LocalOk(c, kids) && OrderlyCell(c) && i < |c.link.saps|
    ensures OrderlyCell(SanStep(c, i, mask))
  {
    assert c.link.saps[i] in c.link.saps;
    WithoutMembers(c.link.saps, i);
    forall s | s in SanStep(c, i, mask).link.saps
      ensures SanCurrent(SanStep(c, i, mask), s.space)
    {
      SanKeepsCurrent(c, i, mask, s.space);
    }
  }

  lemma {:induction false} ReleaseKeepsOrder(c: Cell, kids: seq<Net>)
    requires LocalOk(c, kids) && OrderlyCell(c) && c.node.sec.Some? && c.offers == []
    ensures OrderlyCell(c.(node := SecRelease(c.node)))
  {
    var d := c.(node := SecRelease(c.node));
    forall s | s in c.link.saps
      ensures SanCurrent(d, s.space)
    {
      ReleaseKeepsCurrent(c, kids, s.space);
    }
  }

  lemma {:induction false} ReleaseKeepsCurrent(c: Cell, kids: seq<Net>, o: Space)
    requires LocalOk(c, kids) && c.node.sec.Some? && SanCurrent(c, o)
    ensures SanCurrent(c.(node := SecRelease(c.node)), o)
  {
    var n, e := c.node, c.node.sec.value;
    ListedGrows(n.rcvd, e);
    ListedIff(n.rcvd + [e], e.addr);
    assert e in n.rcvd + [e];
  }

  lemma {:induction false} HbKeepsOrder(c: Cell, kids: seq<Net>, b: Beat)
    requires LocalOk(c, kids) && OrderlyCell(c) && Obeys(OfferOrProposal, c, Hb(b))
    ensures OrderlyCell(HbStep(c, b))
  {
    if SapOf(c, b).Some? {
      SapIsCurrent(c, b);
    }
  }

  /** Events that touch neither what is outstanding nor what it refers to. */
  lemma {:induction false} OthersKeepOrder(c: Cell, kids: seq<Net>, ev: Event)
    requires OrderlyCell(c) && LocalEnabled(c, kids, ev) && LocalSafe(c, ev)
    requires ev.Withdraw? || ev.Panc? || ev.Leave? || ev.Forget? || ev.SanTimer? || ev.Unanswered?
    ensures OrderlyCell(Local(c, kids, ev).val)
  {
    match ev
    case Panc(i) =>
      forall s | s in c.link.saps
        ensures SanCurrent(Local(c, kids, ev).val, s.space)
      {
        LeakedStays(c.limbo, Without(c.limbo, i), i, s.space);
      }
    case Forget(i) => assert c.node.rcvd + [] == c.node.rcvd;
    case Unanswered(i) => WithoutMembers(c.link.saps, i);
    case _ =>
  }

  lemma {:induction false} LocalKeepsOrder(c: Cell, kids: seq<Net>, ev: Event)
    requires LocalOk(c, kids) && OrderlyCell(c) && LocalEnabled(c, kids, ev) && LocalSafe(c, ev)
    requires LocalDisciplined(AllRules(), c, ev)
    ensures OrderlyCell(Local(c, kids, ev).val)
  {
    match ev
    case Par => ParIsCurrent(c);
    case Pan(i) => PanKeepsOrder(c, i);
    case Expire(i) => ExpireKeepsOrder(c, i);
    case Hb(b) => HbKeepsOrder(c, kids, b);
    case San(i, mask) => SanKeepsOrder(c, kids, i, mask);
    case Release =>
      assert Obeys(HoldStill, c, ev);
      ReleaseKeepsOrder(c, kids);
    case _ => OthersKeepOrder(c, kids, ev);
  }

  lemma {:induction false} LocalDisciplineSafe(c: Cell, kids: seq<Net>, ev: Event)
    requires LocalOk(c, kids) && Headed(c.node) && OrderlyCell(c)
    requires LocalEnabled(c, kids, ev) && LocalDisciplined(AllRules(), c, ev)
    ensures LocalSafe(c, ev)
  {
    match ev
    case Pan(i) => assert c.offers[i] in c.offers;
    case San(i, mask) => assert c.link.saps[i] in c.link.saps;
    case Forget(i) =>
      assert Obeys(ShallowMask, c, ev);
      ShallowForget(c, kids, i);
    case _ =>
  }

  lemma {:induction false} KidsKeepOrder(c: Cell, kids: seq<Net>, ev: Event)
    requires LocalEnabled(c, kids, ev) && forall k | k in kids :: Orderly(k)
    ensures forall k | k in Local(c, kids, ev).kids :: Orderly(k)
  {
    match ev
    case Leave(i) => WithoutMembers(kids, i);
    case Panc(i) => assert Orderly(Newcomer(c.limbo[i].space));
    case _ =>
  }

  lemma {:induction false} DisciplineKeepsOrder(t: Net, path: seq<nat>, ev: Event)
    requires Ok(t) && Headed(t.val.node) && Orderly(t)
    requires Enabled(t, path, ev) && Disciplined(AllRules(), t, path, ev)
    ensures Safe(t, path, ev) && Orderly(Apply(t, path, ev))
    decreases path
  {
    if path == [] {
      LocalDisciplineSafe(t.val, t.kids, ev);
      LocalKeepsOrder(t.val, t.kids, ev);
      KidsKeepOrder(t.val, t.kids, ev);
    } else {
      assert t.kids[path[0]] in t.kids;
      KidHeaded(t.val, t.kids, t.kids[path[0]]);
      DisciplineKeepsOrder(t.kids[path[0]], path[1..], ev);
    }
  }

  /** A run that follows the rules is safe: every PAN and SAN is current, and only children are recovered. */
  lemma {:induction false} DisciplineIsSafe(t: Net, run: seq<Step>)
    requires Ok(t) && Headed(t.val.node) && Orderly(t) && Possible(t, run) && DisciplinedRun(AllRules(), t, run)
    ensures SafeRun(t, run)
    decreases run
  {
    if run != [] {
      DisciplinedStep(t, run[0].path, run[0].ev);
      DisciplineIsSafe(Apply(t, run[0].path, run[0].ev), run[1..]);
    }
  }

  lemma {:induction false} DisciplinedStep(t: Net, path: seq<nat>, ev: Event)
    requires Ok(t) && Headed(t.val.node) && Orderly(t)
    requires Enabled(t, path, ev) && Disciplined(AllRules(), t, path, ev)
    ensures var u := Apply(t, path, ev);
            Safe(t, path, ev) && Ok(u) && Headed(u.val.node) && Orderly(u)
  {
    DisciplineKeepsOrder(t, path, ev);
    ApplyKeepsOk(t, path, ev);
  }

  /** Disciplined runs from the founder, with secondary addresses, keep all the properties of safe runs. */
  lemma {:induction false} DisciplinedRunPartitions(run: seq<Step>)
    requires Possible(Founder(), run) && DisciplinedRun(AllRules(), Founder(), run)
    ensures SafeRun(Founder(), run)
    ensures forall h :: Live(At(h), After(Founder(), run)) + InLimbo(At(h), After(Founder(), run)) == 1
    ensures forall a :: Addresses(After(Founder(), run))[a] <= 1
  {
    assert Orderly(Founder());
    DisciplineIsSafe(Founder(), run);
    RunPartitionsHypercube(run);
    RunKeepsAddressesDistinct(run);
  }
}
