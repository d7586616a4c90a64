/** Reachable networks in which a mask gets as far as the root's bit: one that does not survive being
    detached, and three kinds that do not survive a merge. */
module MaskLimit {
  import opened Hypercube
  import opened Allocation
  import opened AllocationRun
  import opened AllocationResults
  import opened AllocationDiscipline
  import opened AllocationCollisions
  import opened Relabelling
  import opened RelabelledTree
  import F = FragmentationRun
  import opened MergeNode
  import opened MergeTree
  import opened MergeReact
  import opened MergeRun
  import opened MergeNetworks
  import opened MergeFit
  import opened MergeResults
  import opened MergeLoss

  lemma {:induction false} ReachedIsInv(t: Net)
    requires Reaches(AllRules(), Founder(), t)
    ensures Inv(t) && t.val.node.maskIni == 0
  {
    var run :| Possible(Founder(), run) && DisciplinedRun(AllRules(), Founder(), run) && After(Founder(), run) == t;
    assert Orderly(Founder());
    DisciplineIsSafe(Founder(), run);
    FounderInv();
    RunKeepsInv(Founder(), run);
  }

  // ----- Detaching -----

  /** A child of the founder that has split its space down to a single address. */
  function Split(r: Host): Net {
    Tree(Plain(Flip(r, 0), 64, 1), Row(Flip(r, 0), 1, 63))
  }

  lemma {:induction false} ReachSplit(rules: set<Rule>, r: Host)
    ensures Reaches(rules, Newcomer(Space(r, 0)), Tree(Plain(r, 1, 0), [Split(r)]))
  {
    var t, a := Comb(r, 1), Flip(r, 0);
    ReachComb(rules, r, 1);
    assert t.kids == [Newcomer(Buddy(r, 0))] && [0][1..] == [];
    assert PutAt(t, [0], Tree(Plain(a, 1, 1), [])) == t;
    JoinInARow(rules, Newcomer(Space(r, 0)), t, [0], a, 1, 1, 63);
    assert PutAt(t, [0], Split(r)) == Tree(Plain(r, 1, 0), [Split(r)]);
  }

  lemma {:induction false} SplitPlain(r: Host)
    ensures NoSecondary(Split(r))
  {
    var k := Split(r);
    forall l | l in k.kids
      ensures NoSecondary(l)
    {
    }
  }

  /** A run by the rules leads to a network with a child whose subtree, after a complete FAR/FAN flood, does
      not partition the hypercube. */
  lemma {:induction false} DetachingFails(red: nat, was: nat)
    returns (run: seq<Step>, t: Net, w: F.Wave, fars: seq<F.Step>)
    ensures Possible(Founder(), run) && DisciplinedRun(AllRules(), Founder(), run)
    ensures After(Founder(), run).kids == [t] && Inv(t) && Above(1, t) && t.val.node.maskIni == 1
    ensures F.Detached(t, w) && NodeAbove(1, t.val.node)
    ensures F.Possible(F.Break(w, red), fars) && !F.CanGoOn(F.After(F.Break(w, red), fars))
    ensures F.Relabelled(ToNet(Detach(1), t), F.After(F.Break(w, red), fars), red)
    ensures !Partitions(Claims(ToNet(Detach(1), t)), Space(Zeros(64), 0)) && !Inv(ToNet(Detach(1), t))
  {
    var r := ROOT;
    var u := Tree(Plain(r, 1, 0), [Split(r)]);
    ReachSplit(AllRules(), r);
    ReachedIsInv(u);
    t := Split(r);
    KidInv(u, t);
    SplitPlain(r);
    w, fars := FloodFails(t, red, was);
    run :| Possible(Founder(), run) && DisciplinedRun(AllRules(), Founder(), run) && After(Founder(), run) == u;
  }

  lemma {:induction false} FloodFails(t: Net, red: nat, was: nat) returns (w: F.Wave, fars: seq<F.Step>)
    requires Inv(t) && NoSecondary(t) && t.val.node.maskIni == 1 && t.val.node.mask == 64
    ensures Above(1, t) && F.Detached(t, w) && NodeAbove(1, t.val.node)
    ensures F.Possible(F.Break(w, red), fars) && !F.CanGoOn(F.After(F.Break(w, red), fars))
    ensures F.Relabelled(ToNet(Detach(1), t), F.After(F.Break(w, red), fars), red)
    ensures !Partitions(Claims(ToNet(Detach(1), t)), Space(Zeros(64), 0)) && !Inv(ToNet(Detach(1), t))
  {
    OkAbove(1, t);
    w := F.CanDetach(t, was);
    fars := F.FloodCompletes(t, w, red);
    F.FloodTerminates(t, w, red, fars);
    F.FloodMakesNetwork(t, w, red, fars);
    assert Own(t.val.node) in Claims(t);
  }

  // ----- Merging -----

  /** The receiver is the founder's first child; the founder has 62 more. */
  function Crowd(r: Host): Up {
    FromBelow(Comb(r, 63), 0, 0, [])
  }

  function Proposer(r: Host, red: nat): Merger {
    Merger(NewNode(Space(r, 0)), [], red, false, 0, r)
  }

  function Crowded(r: Host, red: nat): Scene {
    SceneOf(r, Proposer(r, red).node, Comb(r, 63).kids[0].val.node, red)
  }

  lemma {:induction false} CombShallow(r: Host)
    ensures Shallow(Comb(r, 63))
  {
    var t := Comb(r, 63);
    forall k | k in t.kids
      ensures Shallow(k)
    {
    }
  }

  lemma {:induction false} CrowdParts(r: Host)
    ensures |Crowd(r).kids| == 62
    ensures forall i | 0 <= i < 62 :: Crowd(r).kids[i].kids == []
  {
    var ts := Without(Comb(r, 63).kids, 0);
    forall i | 0 <= i < 62
      ensures Crowd(r).kids[i].kids == []
    {
      assert ts[i] == Newcomer(Buddy(r, i + 1));
    }
  }

  /** The merge is feasible and has no room. */
  lemma {:induction false} NoRoom(r: Host, red: nat)
    ensures var c, t := Crowded(r, red), Comb(r, 63).kids[0];
            Feasible(c, t, [Crowd(r)]) && !RoomFor(c, t, [Crowd(r)])
  {
    var c, t := Crowded(r, red), Comb(r, 63).kids[0];
    CrowdParts(r);
    assert t == Newcomer(Buddy(r, 0));
    assert FirstGrant(c, t.val.node) == 2;
    assert [Crowd(r)][0] == Crowd(r);
    forall i | 0 <= i < 62
      ensures Narrow(2 + i + 1, Crowd(r).kids[i])
    {
    }
  }

  /** A single founder merges with the network: one complete run of it. */
  lemma {:induction false} CrowdMerges(r: Host, red: nat, was: nat) returns (w: Surge, run: seq<Delivery>)
    requires forall j | 0 <= j < 64 :: r[j] == (j == 63)
    requires Inv(Comb(r, 63)) && red != was
    ensures var c, t := Crowded(r, red), Comb(r, 63).kids[0];
            && ReceiverIdle(c, t, [Crowd(r)], w, [])
            && CanRun(r, Start(Proposer(r, red), w), run) && !CanGoOn(Reached(r, Start(Proposer(r, red), w), run))
  {
    var rec, m, c := Comb(r, 63), Proposer(r, red), Crowded(r, red);
    var t, ups := rec.kids[0], [Crowd(r)];
    CombShallow(r);
    assert [0][1..] == [];
    assert Reroot(rec, [0], [0], []) == (t, ups);
    w := MergeCanStart(rec, [0], [0], c, was);
    RerootOk(rec, [0], [0], []);
    NoRoom(r, red);
    CanMerge(r, m.node, t, ups, red);
    StartsOnCourse(c, m.node, t, ups, m, w);
    run := Completes(c, m.node, t, ups, Start(m, w));
  }

  /** A run by the rules leads to a network with 64 members; when its first child receives a merge, a complete
      run of that ends with an address given twice. */
  lemma {:induction false} MergingFails(red: nat, was: nat)
    returns (join: seq<Step>, rec: Net, w: Surge, run: seq<Delivery>, lost: bool, a: Host)
    requires red != was
    ensures Possible(Founder(), join) && DisciplinedRun(AllRules(), Founder(), join) && After(Founder(), join) == rec
    ensures OnPath(rec, [0])
    ensures var (t, ups) := Reroot(rec, [0], [0], []);
            var m := Proposer(ROOT, red);
            var c := SceneOf(ROOT, m.node, t.val.node, red);
            && ReceiverIdle(c, t, ups, w, []) && CanRun(ROOT, Start(m, w), run)
            && Above(c.mf, t) && Finished(c, m.node, t, ups, lost, Reached(ROOT, Start(m, w), run))
            && Addresses(Union(Founder(), [], c, t, ups, lost))[a] >= 2
  {
    var r := ROOT;
    rec := Comb(r, 63);
    forall j | 0 <= j < 64 ensures r[j] == (j == 63) {
      RootBits(j);
    }
    ReachComb(AllRules(), r, 63);
    ReachedIsInv(rec);
    w, run := CrowdMerges(r, red, was);
    lost, a := CrowdDoubles(r, red, w, run);
    join :| Possible(Founder(), join) && DisciplinedRun(AllRules(), Founder(), join) && After(Founder(), join) == rec;
    CrowdIs(r);
  }

  lemma {:induction false} CrowdIs(r: Host)
    ensures OnPath(Comb(r, 63), [0]) && Reroot(Comb(r, 63), [0], [0], []) == (Comb(r, 63).kids[0], [Crowd(r)])
  {
    assert [0][1..] == [];
  }

  lemma {:induction false} CrowdDoubles(r: Host, red: nat, w: Surge, run: seq<Delivery>) returns (lost: bool, a: Host)
    requires r == ROOT && (forall j | 0 <= j < 64 :: r[j] == (j == 63)) && Inv(Comb(r, 63))
    requires var c, t, m := Crowded(r, red), Comb(r, 63).kids[0], Proposer(r, red);
             && ReceiverIdle(c, t, [Crowd(r)], w, [])
             && CanRun(r, Start(m, w), run) && !CanGoOn(Reached(r, Start(m, w), run))
    ensures var c, t, m := Crowded(r, red), Comb(r, 63).kids[0], Proposer(r, red);
            && Above(c.mf, t) && Finished(c, m.node, t, [Crowd(r)], lost, Reached(r, Start(m, w), run))
            && Addresses(Union(Founder(), [], c, t, [Crowd(r)], lost))[a] >= 2
  {
    var t, m := Comb(r, 63).kids[0], Proposer(r, red);
    FounderInv();
    CombShallow(r);
    CrowdIs(r);
    RerootOk(Comb(r, 63), [0], [0], []);
    NoRoom(r, red);
    lost := MergeOf(r, Founder(), [], t, [Crowd(r)], m, w, run);
    a :| Addresses(Union(Founder(), [], Crowded(r, red), t, [Crowd(r)], lost))[a] > 1;
  }

  // ----- A proposer that has split its space too often -----

  /** A founder with a child, seen from the founder. */
  function Two(r: Host): Net {
    Comb(r, 1)
  }

  function Splitter(r: Host, k: nat, red: nat): Merger
    requires k <= 64
  {
    Merger(Comb(r, k).val.node, [], red, false, 0, r)
  }

  lemma {:induction false} TwoIsShallow(r: Host)
    ensures Shallow(Two(r)) && |Two(r).kids| == 1 && Two(r).kids[0] == Newcomer(Buddy(r, 0))
  {
    var t := Two(r);
    forall k | k in t.kids
      ensures Shallow(k)
    {
    }
  }

  /** The child's bit has no place behind a proposed mask of 62; from 63 on there is none for the receiver. */
  lemma {:induction false} NoPlace(r: Host, k: nat, red: nat)
    requires 62 <= k <= 64
    ensures var c := SceneOf(r, Splitter(r, k, red).node, Two(r).val.node, red);
            c.s == k && !(c.s <= 62 && Placed(G(c), Two(r)))
  {
    TwoIsShallow(r);
    var t := Two(r);
    assert t.kids[0] in t.kids;
  }

  lemma {:induction false} SplitterMerges(r: Host, k: nat, red: nat, was: nat) returns (w: Surge, run: seq<Delivery>)
    requires forall j | 0 <= j < 64 :: r[j] == (j == 63)
    requires 62 <= k <= 64 && red != was && Inv(Comb(r, k)) && Inv(Two(r))
    ensures var c, m := SceneOf(r, Splitter(r, k, red).node, Two(r).val.node, red), Splitter(r, k, red);
            && ReceiverIdle(c, Two(r), [], w, [])
            && CanRun(r, Start(m, w), run) && !CanGoOn(Reached(r, Start(m, w), run))
  {
    var t, m := Two(r), Splitter(r, k, red);
    var c := SceneOf(r, m.node, t.val.node, red);
    TwoIsShallow(r);
    assert Reroot(t, [], [], []) == (t, []);
    w := MergeCanStart(t, [], [], c, was);
    CanMerge(r, m.node, t, [], red);
    StartsOnCourse(c, m.node, t, [], m, w);
    run := Completes(c, m.node, t, [], Start(m, w));
  }

  /** Runs by the rules lead to a founder with 62, 63 or 64 children and to a founder with one child. When the
      first proposes a merge to the second, nothing lies above the receiver, but a complete run ends with an
      address given twice. */
  lemma {:induction false} DeepProposalFails(k: nat, red: nat, was: nat)
    returns (w: Surge, run: seq<Delivery>, lost: bool, a: Host)
    requires 62 <= k <= 64 && red != was
    ensures Reaches(AllRules(), Founder(), Comb(ROOT, k)) && Reaches(AllRules(), Founder(), Two(ROOT))
    ensures var m, t := Splitter(ROOT, k, red), Two(ROOT);
            var c := SceneOf(ROOT, m.node, t.val.node, red);
            && ReceiverIdle(c, t, [], w, []) && CanRun(ROOT, Start(m, w), run)
            && Above(c.mf, t) && Finished(c, m.node, t, [], lost, Reached(ROOT, Start(m, w), run))
            && Addresses(Union(Comb(ROOT, k), [], c, t, [], lost))[a] >= 2
  {
    var r := ROOT;
    forall j | 0 <= j < 64 ensures r[j] == (j == 63) {
      RootBits(j);
    }
    ReachComb(AllRules(), r, k);
    ReachComb(AllRules(), r, 1);
    ReachedIsInv(Comb(r, k));
    ReachedIsInv(Two(r));
    w, run := SplitterMerges(r, k, red, was);
    lost, a := SplitterDoubles(r, k, red, w, run);
  }

  lemma {:induction false} SplitterDoubles(r: Host, k: nat, red: nat, w: Surge, run: seq<Delivery>) returns (lost: bool, a: Host)
    requires (forall j | 0 <= j < 64 :: r[j] == (j == 63)) && 62 <= k <= 64 && Inv(Comb(r, k)) && Inv(Two(r))
    requires var c, m := SceneOf(r, Splitter(r, k, red).node, Two(r).val.node, red), Splitter(r, k, red);
             && ReceiverIdle(c, Two(r), [], w, [])
             && CanRun(r, Start(m, w), run) && !CanGoOn(Reached(r, Start(m, w), run))
    ensures var c, m := SceneOf(r, Splitter(r, k, red).node, Two(r).val.node, red), Splitter(r, k, red);
            && Above(c.mf, Two(r)) && Finished(c, m.node, Two(r), [], lost, Reached(r, Start(m, w), run))
            && Addresses(Union(Comb(r, k), [], c, Two(r), [], lost))[a] >= 2
  {
    var t, m := Two(r), Splitter(r, k, red);
    TwoIsShallow(r);
    NoPlace(r, k, red);
    lost := MergeOf(r, Comb(r, k), [], t, [], m, w, run);
    a :| Addresses(Union(Comb(r, k), [], SceneOf(r, m.node, t.val.node, red), t, [], lost))[a] > 1;
  }

  // ----- The default address -----

  /** Host address of the daemon split off at bits 60, 62 and 63. */
  lemma {:induction false} DefaultBits()
    ensures Flip(Flip(Flip(ROOT, 60), 62), 63) == Default()
  {
    var x := Flip(Flip(Flip(ROOT, 60), 62), 63);
    forall i | 0 <= i < 64
      ensures x[i] == Default()[i]
    {
      RootBits(i);
    }
  }

  /** A network by the rules in which a daemon has the address that daemons use while they wait for the answer to
      a merge: with masks of 64, dir_default is not reserved. */
  lemma {:induction false} DefaultIsTaken() returns (run: seq<Step>)
    ensures Possible(Founder(), run) && DisciplinedRun(AllRules(), Founder(), run)
    ensures Addresses(After(Founder(), run))[Default()] >= 1
  {
    var t := ReachDefault(AllRules(), ROOT);
    DefaultBits();
    run :| Possible(Founder(), run) && DisciplinedRun(AllRules(), Founder(), run) && After(Founder(), run) == t;
  }

  lemma {:induction false} ReachDefault(rules: set<Rule>, r: Host) returns (t: Net)
    ensures Reaches(rules, Newcomer(Space(r, 0)), t)
    ensures Addresses(t)[Flip(Flip(Flip(r, 60), 62), 63)] >= 1
  {
    var a, b := Flip(r, 60), Flip(Flip(r, 60), 62);
    var s, t0 := Newcomer(Space(r, 0)), Comb(r, 61);
    ReachComb(rules, r, 61);
    assert t0.kids[60] == Tree(Plain(a, 61, 61), []) && [60][1..] == [];
    assert PutAt(t0, [60], Tree(Plain(a, 61, 61), [])) == t0;
    JoinInARow(rules, s, t0, [60], a, 61, 61, 2);
    var k := Tree(Plain(a, 63, 61), Row(a, 61, 2));
    var t1 := PutAt(t0, [60], k);
    assert k.kids[1] == Tree(Plain(b, 63, 63), []);
    t := ReachBelow(rules, s, t0, k, t1, b);
  }

  lemma {:induction false} ReachBelow(rules: set<Rule>, s: Net, t0: Net, k: Net, t1: Net, b: Host) returns (t: Net)
    requires OnPath(t0, [60]) && t1 == PutAt(t0, [60], k) && Reaches(rules, s, t1)
    requires |k.kids| == 2 && k.kids[1] == Tree(Plain(b, 63, 63), [])
    ensures Reaches(rules, s, t) && Addresses(t)[Flip(b, 63)] >= 1
  {
    var p := [60, 1];
    assert p[1..] == [1] && [1][1..] == [] && [60][1..] == [];
    PutTwice(t0, [60], k, k);
    assert t1.kids[60] == k;
    assert OnPath(t1, p) && SubtreeAt(t1, p) == k.kids[1];
    PutSame(t1, p);
    JoinInARow(rules, s, t1, p, b, 63, 63, 1);
    var u := Tree(Plain(b, 64, 63), Row(b, 63, 1));
    t := PutAt(t1, p, u);
    RowGives(u, b);
    PutAddresses(t1, p, u, Flip(b, 63));
  }

  lemma {:induction false} RowGives(u: Net, b: Host)
    requires u.kids == Row(b, 63, 1)
    ensures Addresses(u)[Flip(b, 63)] >= 1
  {
    assert u.kids[0] == Newcomer(Buddy(b, 63));
    OwnAddress(u.kids[0]);
    KidAddress(u, 0, Flip(b, 63));
  }

  lemma {:induction false} PutSame(t: Net, path: seq<nat>)
    requires OnPath(t, path)
    ensures PutAt(t, path, SubtreeAt(t, path)) == t
    decreases path
  {
    if path != [] {
      PutSame(t.kids[path[0]], path[1..]);
    }
  }
}
