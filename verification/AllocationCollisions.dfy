/** For each rule of AllocationDiscipline, a run of the code that breaks only this rule and in which two
    daemons come to own one address. */
module AllocationCollisions {
  import opened Wrappers
  import opened Hypercube
  import opened Metric
  import opened Allocation
  import opened AllocationRun
  import opened AllocationResults
  import opened AllocationDiscipline

  /** A run from t to u that follows the rules. */
  ghost predicate Reaches(rules: set<Rule>, t: Net, u: Net) {
    exists run :: Possible(t, run) && DisciplinedRun(rules, t, run) && After(t, run) == u
  }

  lemma {:induction false} ReachesSelf(rules: set<Rule>, t: Net)
    ensures Reaches(rules, t, t)
  {
    assert Possible(t, []) && DisciplinedRun(rules, t, []) && After(t, []) == t;
  }

  lemma {:induction false} RunOnward(rules: set<Rule>, t: Net, run: seq<Step>, s: Step)
    requires Possible(t, run) && DisciplinedRun(rules, t, run)
    requires var m := After(t, run);
             Enabled(m, s.path, s.ev) && Genuine(m, s.ev) && Disciplined(rules, m, s.path, s.ev)
    ensures Possible(t, run + [s]) && DisciplinedRun(rules, t, run + [s])
    ensures After(t, run + [s]) == Apply(After(t, run), s.path, s.ev)
    decreases run
  {
    var all := run + [s];
    if run == [] {
      assert all[0] == s && all[1..] == [];
      assert Possible(Apply(t, s.path, s.ev), []) && DisciplinedRun(rules, Apply(t, s.path, s.ev), []);
    } else {
      assert all[0] == run[0] && all[1..] == run[1..] + [s];
      RunOnward(rules, Apply(t, run[0].path, run[0].ev), run[1..], s);
    }
  }

  // ----- One event at the daemon that a path leads to -----

  lemma {:induction false} ApplyPuts(rules: set<Rule>, t: Net, path: seq<nat>, ev: Event)
    requires OnPath(t, path)
    requires var s := SubtreeAt(t, path);
             LocalEnabled(s.val, s.kids, ev) && LocalDisciplined(rules, s.val, ev)
    ensures Enabled(t, path, ev) && Disciplined(rules, t, path, ev)
    ensures var s := SubtreeAt(t, path);
            Apply(t, path, ev) == PutAt(t, path, Local(s.val, s.kids, ev))
    decreases path
  {
    if path != [] {
      ApplyPuts(rules, t.kids[path[0]], path[1..], ev);
    }
  }

  /** The event takes the subtree at the path from Tree(c, kids) to u. */
  lemma {:induction false} Onward(rules: set<Rule>, t0: Net, t: Net, path: seq<nat>, c: Cell, kids: seq<Net>, ev: Event, u: Net)
    requires OnPath(t, path) && Reaches(rules, t0, PutAt(t, path, Tree(c, kids)))
    requires LocalEnabled(c, kids, ev) && LocalDisciplined(rules, c, ev) && Local(c, kids, ev) == u
    requires Genuine(PutAt(t, path, Tree(c, kids)), ev)
    ensures Reaches(rules, t0, PutAt(t, path, u))
  {
    var m := PutAt(t, path, Tree(c, kids));
    PutTwice(t, path, Tree(c, kids), u);
    ApplyPuts(rules, m, path, ev);
    var run :| Possible(t0, run) && DisciplinedRun(rules, t0, run) && After(t0, run) == m;
    RunOnward(rules, t0, run, Step(path, ev));
  }

  /** The same at the top. */
  lemma {:induction false} AtTop(rules: set<Rule>, t0: Net, c: Cell, kids: seq<Net>, ev: Event, d: Cell, more: seq<Net>)
    requires Reaches(rules, t0, Tree(c, kids))
    requires LocalEnabled(c, kids, ev) && LocalDisciplined(rules, c, ev) && Local(c, kids, ev) == Tree(d, more)
    requires Genuine(Tree(c, kids), ev)
    ensures Reaches(rules, t0, Tree(d, more))
  {
    Onward(rules, t0, Tree(c, kids), [], c, kids, ev, Tree(d, more));
  }

  // ----- Newcomers join -----

  function Plain(a: Host, mask: nat, maskIni: nat): Cell {
    Cell(Node(a, mask, maskIni, [], None, None), [], [], Unlinked())
  }

  function Buddy(a: Host, m: nat): Space
    requires m < 64
  {
    Space(Flip(a, m), m + 1)
  }

  /** A daemon whose next buddy is free answers a PAR, hears the PAN and confirms it. */
  lemma {:induction false} Joins(rules: set<Rule>, t0: Net, t: Net, path: seq<nat>, c: Cell, kids: seq<Net>)
    requires OnPath(t, path) && Reaches(rules, t0, PutAt(t, path, Tree(c, kids)))
    requires c.node.mask < 64 && c.node.rcvd == [] && c.limbo == [] && c.offers == [] && c.link.saps == []
    requires c.node.offered != Some(Flip(c.node.addr, c.node.mask))
    ensures Reaches(rules, t0, PutAt(t, path, Tree(c.(node := c.node.(mask := c.node.mask + 1)),
                                                   kids + [Newcomer(Buddy(c.node.addr, c.node.mask))])))
  {
    var n, o := c.node, Buddy(c.node.addr, c.node.mask);
    var c1 := c.(offers := [o]);
    assert [] + [o] == [o];
    Onward(rules, t0, t, path, c, kids, Par, Tree(c1, kids));
    Chosen(rules, t0, t, path, c1, kids, o);
  }

  /** The only offer is chosen and confirmed. */
  lemma {:induction false} Chosen(rules: set<Rule>, t0: Net, t: Net, path: seq<nat>, c: Cell, kids: seq<Net>, o: Space)
    requires OnPath(t, path) && Reaches(rules, t0, PutAt(t, path, Tree(c, kids)))
    requires c.offers == [o] && c.limbo == []
    ensures Reaches(rules, t0, PutAt(t, path, Tree(c.(node := PancCommit(c.node, o.addr), offers := []), kids + [Newcomer(o)])))
  {
    var c2 := c.(node := PancCommit(c.node, o.addr), limbo := [Limbo(o, Granted)], offers := []);
    assert [] + [Limbo(o, Granted)] == [Limbo(o, Granted)] && Without([o], 0) == [];
    Onward(rules, t0, t, path, c, kids, Pan(0), Tree(c2, kids));
    assert Without([Limbo(o, Granted)], 0) == [];
    Onward(rules, t0, t, path, c2, kids, Panc(0), Tree(c2.(limbo := []), kids + [Newcomer(o)]));
  }

  /** The daemons that join in a row. */
  function Row(a: Host, m: nat, count: nat): (r: seq<Net>)
    requires m + count <= 64
    ensures |r| == count && forall i | 0 <= i < count :: r[i] == Newcomer(Buddy(a, m + i))
  {
    if count == 0 then [] else Row(a, m, count - 1) + [Newcomer(Buddy(a, m + count - 1))]
  }

  lemma {:induction false} JoinInARow(rules: set<Rule>, t0: Net, t: Net, path: seq<nat>, a: Host, m: nat, maskIni: nat, count: nat)
    requires OnPath(t, path) && Reaches(rules, t0, PutAt(t, path, Tree(Plain(a, m, maskIni), [])))
    requires m + count <= 64
    ensures Reaches(rules, t0, PutAt(t, path, Tree(Plain(a, m + count, maskIni), Row(a, m, count))))
  {
    if count > 0 {
      JoinInARow(rules, t0, t, path, a, m, maskIni, count - 1);
      Joins(rules, t0, t, path, Plain(a, m + count - 1, maskIni), Row(a, m, count - 1));
    }
  }

  /** The founder after count newcomers have joined it. */
  function Comb(r: Host, count: nat): Net
    requires count <= 64
  {
    Tree(Plain(r, count, 0), Row(r, 0, count))
  }

  lemma {:induction false} ReachComb(rules: set<Rule>, r: Host, count: nat)
    requires count <= 64
    ensures Reaches(rules, Newcomer(Space(r, 0)), Comb(r, count))
  {
    var t := Newcomer(Space(r, 0));
    ReachesSelf(rules, t);
    JoinInARow(rules, t, t, [], r, 0, 0, count);
  }

  // ----- Two offers at a time -----

  function Twins(r: Host): Net {
    Tree(Plain(r, 2, 0), [Newcomer(Buddy(r, 0)), Newcomer(Buddy(r, 0))])
  }

  lemma {:induction false} ReachTwoOffers(rules: set<Rule>, r: Host)
    requires OneOffer !in rules
    ensures var o := Buddy(r, 0);
            Reaches(rules, Newcomer(Space(r, 0)), Tree(Plain(r, 0, 0).(offers := [o, o]), []))
  {
    var t, o := Newcomer(Space(r, 0)), Buddy(r, 0);
    var c := Plain(r, 0, 0);
    ReachesSelf(rules, t);
    assert [] + [o] == [o] && [o] + [o] == [o, o];
    AtTop(rules, t, c, [], Par, c.(offers := [o]), []);
    AtTop(rules, t, c.(offers := [o]), [], Par, c.(offers := [o, o]), []);
  }

  lemma {:induction false} ReachOneGranted(rules: set<Rule>, r: Host)
    requires OneOffer !in rules
    ensures var o := Buddy(r, 0);
            Reaches(rules, Newcomer(Space(r, 0)),
                    Tree(Plain(r, 1, 0).(offers := [o], limbo := [Limbo(o, Granted)]), []))
  {
    var t, o := Newcomer(Space(r, 0)), Buddy(r, 0);
    var g := Limbo(o, Granted);
    ReachTwoOffers(rules, r);
    assert [] + [g] == [g] && Without([o, o], 0) == [o];
    AtTop(rules, t, Plain(r, 0, 0).(offers := [o, o]), [], Pan(0), Plain(r, 1, 0).(offers := [o], limbo := [g]), []);
  }

  lemma {:induction false} ReachFirstTwin(rules: set<Rule>, r: Host)
    requires OneOffer !in rules
    ensures Reaches(rules, Newcomer(Space(r, 0)), Tree(Plain(r, 1, 0).(offers := [Buddy(r, 0)]), [Newcomer(Buddy(r, 0))]))
  {
    var o := Buddy(r, 0);
    var g, k := Limbo(o, Granted), Newcomer(o);
    ReachOneGranted(rules, r);
    assert Without([g], 0) == [] && [] + [k] == [k];
    AtTop(rules, Newcomer(Space(r, 0)), Plain(r, 1, 0).(offers := [o], limbo := [g]), [], Panc(0),
          Plain(r, 1, 0).(offers := [o]), [k]);
  }

  lemma {:induction false} ReachTwins(rules: set<Rule>, r: Host)
    requires OneOffer !in rules
    ensures Reaches(rules, Newcomer(Space(r, 0)), Twins(r))
  {
    var o, d := Buddy(r, 0), Plain(r, 1, 0).(offers := [Buddy(r, 0)]);
    ReachFirstTwin(rules, r);
    assert [Newcomer(o)] + [Newcomer(o)] == Twins(r).kids;
    Chosen(rules, Newcomer(Space(r, 0)), Tree(d, [Newcomer(o)]), [], d, [Newcomer(o)], o);
  }

  // ----- A heartbeat from a grandchild -----

  /** The founder, its first child, and that child's first child. */
  function Pair(r: Host): Net {
    Tree(Plain(r, 1, 0), [Middle(r)])
  }

  function Middle(r: Host): Net {
    Tree(Plain(Flip(r, 0), 2, 1), [Newcomer(Buddy(Flip(r, 0), 1))])
  }

  lemma {:induction false} ReachPair(rules: set<Rule>, r: Host)
    ensures Reaches(rules, Newcomer(Space(r, 0)), Pair(r))
  {
    ReachComb(rules, r, 1);
    var t, a := Comb(r, 1), Flip(r, 0);
    assert t.kids == [Newcomer(Buddy(r, 0))] && [] + [Newcomer(Buddy(a, 1))] == [Newcomer(Buddy(a, 1))];
    assert PutAt(t, [0], Tree(Plain(a, 1, 1), [])) == t;
    Joins(rules, Newcomer(Space(r, 0)), t, [0], Plain(a, 1, 1), []);
    assert [0][1..] == [];
    assert [Newcomer(Buddy(r, 0))][0 := Middle(r)] == [Middle(r)];
  }

  /** The heartbeat of the grandchild. */
  function Call(r: Host): Beat {
    var b := Flip(Flip(r, 0), 1);
    Beat(b, b, None, 2, 2)
  }

  lemma {:induction false} CallIsSent(r: Host, c: Cell, more: seq<Net>)
    ensures Genuine(Tree(c, [Middle(r)] + more), Hb(Call(r)))
  {
    var t := Tree(c, [Middle(r)] + more);
    var k := Newcomer(Buddy(Flip(r, 0), 1));
    assert Sends(k.val.node, Call(r)) && k in Middle(r).kids;
    assert t.kids[0] == Middle(r) && Middle(r) in t.kids;
  }

  lemma {:induction false} TwoFlips(r: Host)
    ensures Dist(r, Call(r).addr) == 2
  {
    var a, b := Flip(r, 0), Call(r).addr;
    DiffFlip(a, r, 1, 0, 64);
    DistFlip(r, 0);
    DistIsMetric(r, b, r);
  }

  /** The grandchild is next to the founder's second buddy, and two steps away from the founder. */
  lemma {:induction false} CallFacts(r: Host)
    requires Shaped(r, 0)
    ensures Dist(r, Call(r).addr) == 2
    ensures Dist(Flip(r, 1), Call(r).addr) == 1 && Dist(Flip(r, 1), r) == 1 && r[1 := true] == Flip(r, 1)
  {
    TwoFlips(r);
    DistFlip(r, 1);
    assert Call(r).addr == Flip(Flip(r, 1), 0);
    DistFlip(Flip(r, 1), 0);
  }

  /** The founder proposes its second buddy to the grandchild: the next one, or a recovered one. */
  lemma {:induction false} CallAnswered(r: Host, c: Cell)
    requires Shaped(r, 0) && c.node.addr == r && c.node.sec == None && c.link.avai
    requires (c.node.mask == 1 && c.node.rcvd == []) || c.node.rcvd == [Buddy(r, 1)]
    ensures SapOf(c, Call(r)) == Some(Buddy(r, 1))
  {
    var n, b := c.node, Call(r).addr;
    CallFacts(r);
    assert ReactionOf(n, Call(r)) == Seek;
    if n.rcvd == [] {
      assert FirstNear(n.rcvd, b) == 0;
      assert SapBit(n, true, b, 1) == Some(Buddy(r, 1));
    } else {
      assert FirstNear(n.rcvd, b) == 0;
    }
  }

  // ----- An offer and a proposal at the same time -----

  function Waiting(r: Host): Link {
    Link(false, [Sap(Buddy(r, 1), Call(r).src)], [])
  }

  function Answered(r: Host): Link {
    Link(true, [], [Space(Call(r).src, 2)])
  }

  lemma {:induction false} ReachProposal(rules: set<Rule>, r: Host)
    requires Shaped(r, 0)
    ensures Reaches(rules, Newcomer(Space(r, 0)), Tree(Plain(r, 1, 0).(link := Waiting(r)), [Middle(r)]))
  {
    var c := Plain(r, 1, 0);
    ReachPair(rules, r);
    CallAnswered(r, c);
    CallIsSent(r, c, []);
    assert [Middle(r)] + [] == [Middle(r)] && [] + Waiting(r).saps == Waiting(r).saps;
    AtTop(rules, Newcomer(Space(r, 0)), c, [Middle(r)], Hb(Call(r)), c.(link := Waiting(r)), [Middle(r)]);
  }

  lemma {:induction false} ReachGranted(rules: set<Rule>, r: Host)
    requires Shaped(r, 0) && OfferOrProposal !in rules
    ensures Reaches(rules, Newcomer(Space(r, 0)),
                    Tree(Plain(r, 2, 0).(link := Waiting(r)), [Middle(r), Newcomer(Buddy(r, 1))]))
  {
    var t, o := Newcomer(Space(r, 0)), Buddy(r, 1);
    var c := Plain(r, 1, 0).(link := Waiting(r));
    ReachProposal(rules, r);
    assert [] + [o] == [o] && [Middle(r)] + [Newcomer(o)] == [Middle(r), Newcomer(o)];
    AtTop(rules, t, c, [Middle(r)], Par, c.(offers := [o]), [Middle(r)]);
    Chosen(rules, t, Tree(c, [Middle(r)]), [], c.(offers := [o]), [Middle(r)], o);
  }

  /** The PAN comes between the SAP and the SAN. */
  lemma {:induction false} ReachTaken(rules: set<Rule>, r: Host)
    requires Shaped(r, 0) && OfferOrProposal !in rules
    ensures var o := Buddy(r, 1);
            Reaches(rules, Newcomer(Space(r, 0)),
                    Tree(Cell(Node(r, 2, 0, [], None, Some(o)), [], [], Answered(r)), [Middle(r), Newcomer(o)]))
  {
    var o, d := Buddy(r, 1), Plain(r, 2, 0).(link := Waiting(r));
    ReachGranted(rules, r);
    assert Without(Waiting(r).saps, 0) == [] && [] + [Space(Call(r).src, 2)] == Answered(r).heard;
    assert Reclaimed([], o) + Lost(Dropped(d.node, o)) == [];
    AtTop(rules, Newcomer(Space(r, 0)), d, [Middle(r), Newcomer(o)], San(0, 2),
          Cell(Node(r, 2, 0, [], None, Some(o)), [], [], Answered(r)), [Middle(r), Newcomer(o)]);
  }

  // ----- A release before the PAN -----

  lemma {:induction false} ReachHeld(rules: set<Rule>, r: Host)
    requires Shaped(r, 0)
    ensures Reaches(rules, Newcomer(Space(r, 0)),
                    Tree(Cell(Node(r, 2, 0, [], None, Some(Buddy(r, 1))), [], [], Answered(r)), [Middle(r)]))
  {
    var t, o := Newcomer(Space(r, 0)), Buddy(r, 1);
    var c := Plain(r, 1, 0).(link := Waiting(r));
    ReachProposal(rules, r);
    DistFlip(r, 1);
    assert Without(Waiting(r).saps, 0) == [] && [] + [Space(Call(r).src, 2)] == Answered(r).heard;
    assert Reclaimed([], o) + Lost(Dropped(c.node, o)) == [];
    AtTop(rules, t, c, [Middle(r)], San(0, 2),
          Cell(Node(r, 2, 0, [], None, Some(o)), [], [], Answered(r)), [Middle(r)]);
  }

  lemma {:induction false} ReachReleased(rules: set<Rule>, r: Host)
    requires Shaped(r, 0) && HoldStill !in rules
    ensures Reaches(rules, Newcomer(Space(r, 0)),
                    Tree(Plain(r, 2, 0).(link := Answered(r)), [Middle(r), Newcomer(Buddy(r, 2))]))
  {
    var t, p := Newcomer(Space(r, 0)), Buddy(r, 2);
    var c := Cell(Node(r, 2, 0, [], None, Some(Buddy(r, 1))), [], [], Answered(r));
    ReachHeld(rules, r);
    assert [] + [p] == [p] && [Middle(r)] + [Newcomer(p)] == [Middle(r), Newcomer(p)];
    AtTop(rules, t, c, [Middle(r)], Par, c.(offers := [p]), [Middle(r)]);
    var d := Plain(r, 1, 0).(link := Answered(r), offers := [p]);
    AtTop(rules, t, c.(offers := [p]), [Middle(r)], Release, d, [Middle(r)]);
    Chosen(rules, t, Tree(d, [Middle(r)]), [], d, [Middle(r)], p);
  }

  // ----- The recovered space that was offered once -----

  /** The second child leaves and its space is recovered. */
  lemma {:induction false} ReachRecovered(rules: set<Rule>, r: Host)
    requires Shaped(r, 0)
    ensures Reaches(rules, Newcomer(Space(r, 0)),
                    Tree(Cell(Node(r, 2, 0, [Buddy(r, 1)], None, None), [], [], Unlinked()), [Middle(r)]))
  {
    var t, o := Newcomer(Space(r, 0)), Buddy(r, 1);
    var gone := [Limbo(o, Departed)];
    ReachPair(rules, r);
    Joins(rules, t, Pair(r), [], Plain(r, 1, 0), [Middle(r)]);
    var kids := [Middle(r)] + [Newcomer(o)];
    assert Without(kids, 1) == [Middle(r)] && [] + gone == gone && Without(gone, 0) == [] && [] + [o] == [o];
    AtTop(rules, t, Plain(r, 2, 0), kids, Leave(1), Plain(r, 2, 0).(limbo := gone), [Middle(r)]);
    ChildIsSuccessor(r, 0, 1);
    AtTop(rules, t, Plain(r, 2, 0).(limbo := gone), [Middle(r)], Expire(0),
          Cell(Node(r, 2, 0, [o], None, None), [], [], Unlinked()), [Middle(r)]);
  }

  /** It is offered and declined. */
  lemma {:induction false} ReachDeclined(rules: set<Rule>, r: Host)
    requires Shaped(r, 0)
    ensures var o := Buddy(r, 1);
            Reaches(rules, Newcomer(Space(r, 0)),
                    Tree(Cell(Node(r, 2, 0, [o], Some(o.addr), None), [], [], Unlinked()), [Middle(r)]))
  {
    var t, o := Newcomer(Space(r, 0)), Buddy(r, 1);
    var c := Cell(Node(r, 2, 0, [o], None, None), [], [], Unlinked());
    var d := c.(node := c.node.(offered := Some(o.addr)));
    ReachRecovered(rules, r);
    assert [] + [o] == [o] && Without([o], 0) == [];
    FreshWhenNone(rules, c);
    AtTop(rules, t, c, [Middle(r)], Par, d.(offers := [o]), [Middle(r)]);
    AtTop(rules, t, d.(offers := [o]), [Middle(r)], Withdraw(0), d, [Middle(r)]);
  }

  /** It is then proposed to the grandchild. */
  lemma {:induction false} ReachOfferedOnce(rules: set<Rule>, r: Host)
    requires Shaped(r, 0)
    ensures var o := Buddy(r, 1);
            Reaches(rules, Newcomer(Space(r, 0)),
                    Tree(Cell(Node(r, 2, 0, [o], Some(o.addr), None), [], [], Waiting(r)), [Middle(r)]))
  {
    var o := Buddy(r, 1);
    var d := Cell(Node(r, 2, 0, [o], Some(o.addr), None), [], [], Unlinked());
    ReachDeclined(rules, r);
    CallAnswered(r, d);
    CallIsSent(r, d, []);
    assert [Middle(r)] + [] == [Middle(r)] && [] + Waiting(r).saps == Waiting(r).saps;
    AtTop(rules, Newcomer(Space(r, 0)), d, [Middle(r)], Hb(Call(r)), d.(link := Waiting(r)), [Middle(r)]);
  }

  lemma {:induction false} FreshWhenNone(rules: set<Rule>, c: Cell)
    requires c.offers == [] && c.link.saps == [] && c.node.offered == None
    ensures LocalDisciplined(rules, c, Par)
  {
  }

  /** It becomes the secondary space and is given up by rolling the mask back. */
  lemma {:induction false} ReachRolledBack(rules: set<Rule>, r: Host)
    requires Shaped(r, 0)
    ensures var o := Buddy(r, 1);
            Reaches(rules, Newcomer(Space(r, 0)),
                    Tree(Cell(Node(r, 1, 0, [], Some(o.addr), None), [], [], Answered(r)), [Middle(r)]))
  {
    var t, o := Newcomer(Space(r, 0)), Buddy(r, 1);
    var c := Cell(Node(r, 2, 0, [o], Some(o.addr), None), [], [], Waiting(r));
    var d := Cell(Node(r, 2, 0, [], Some(o.addr), Some(o)), [], [], Answered(r));
    ReachOfferedOnce(rules, r);
    TakenBack(r, c, d);
    AtTop(rules, t, c, [Middle(r)], San(0, 2), d, [Middle(r)]);
    AtTop(rules, t, d, [Middle(r)], Release, d.(node := Node(r, 1, 0, [], Some(o.addr), None)), [Middle(r)]);
  }

  /** It is then granted like a fresh buddy, without leaving the daemon's own space. */
  lemma {:induction false} ReachStale(rules: set<Rule>, r: Host)
    requires Shaped(r, 0) && FreshBuddy !in rules
    ensures var o := Buddy(r, 1);
            Reaches(rules, Newcomer(Space(r, 0)),
                    Tree(Cell(Node(r, 1, 0, [], Some(o.addr), None), [], [], Answered(r)), [Middle(r), Newcomer(o)]))
  {
    var t, o := Newcomer(Space(r, 0)), Buddy(r, 1);
    var e := Cell(Node(r, 1, 0, [], Some(o.addr), None), [], [], Answered(r));
    ReachRolledBack(rules, r);
    assert [] + [o] == [o] && [Middle(r)] + [Newcomer(o)] == [Middle(r), Newcomer(o)];
    AtTop(rules, t, e, [Middle(r)], Par, e.(offers := [o]), [Middle(r)]);
    Chosen(rules, t, Tree(e, [Middle(r)]), [], e.(offers := [o]), [Middle(r)], o);
  }

  lemma {:induction false} TakenBack(r: Host, c: Cell, d: Cell)
    requires var o := Buddy(r, 1);
             && c == Cell(Node(r, 2, 0, [o], Some(o.addr), None), [], [], Waiting(r))
             && d == Cell(Node(r, 2, 0, [], Some(o.addr), Some(o)), [], [], Answered(r))
    ensures SanStep(c, 0, 2) == d
  {
    var o := Buddy(r, 1);
    assert Without(Waiting(r).saps, 0) == [] && [] + [Space(Call(r).src, 2)] == Answered(r).heard;
    assert Unlist([o], o.addr) == [];
    assert Reclaimed([], o) + Lost(Dropped(c.node, o)) == [];
  }

  // ----- A neighbour that is not a child -----

  /** The child at bit 15 of a founder with 17 children; it gets a child, the distant neighbour. */
  function Fifteenth(r: Host, mask: nat, rcvd: seq<Space>, limbo: seq<Limbo>, kids: seq<Net>): Net {
    Tree(Cell(Node(Flip(r, 15), mask, 16, rcvd, None, None), limbo, [], Unlinked()), kids)
  }

  function Distant(r: Host): Space {
    Buddy(Flip(r, 15), 16)
  }

  /** The child at bit 16, which lists or recovers the distant neighbour. */
  function Sixteenth(r: Host, rcvd: seq<Space>, heard: seq<Space>): Net {
    Tree(Cell(Node(Flip(r, 16), 17, 17, rcvd, None, None), [], [], Link(true, [], heard)), [])
  }

  function Deep(r: Host, k: Net, l: Net): Net {
    Tree(Plain(r, 17, 0), Row(r, 0, 17)[15 := k][16 := l])
  }

  lemma {:induction false} DeepParts(r: Host, k: Net, l: Net, m: Net)
    ensures OnPath(Deep(r, k, l), [15]) && OnPath(Deep(r, k, l), [16])
    ensures PutAt(Deep(r, k, l), [15], m) == Deep(r, m, l)
    ensures PutAt(Deep(r, k, l), [16], m) == Deep(r, k, m)
  {
    assert [15][1..] == [] && [16][1..] == [];
    var s := Row(r, 0, 17);
    assert s[15 := k][16 := l][15 := m] == s[15 := m][16 := l];
    assert s[15 := k][16 := l][16 := m] == s[15 := k][16 := m];
  }

  lemma {:induction false} ReachDeep(rules: set<Rule>, r: Host)
    ensures Reaches(rules, Newcomer(Space(r, 0)), Deep(r, Fifteenth(r, 17, [], [], [Newcomer(Distant(r))]), Sixteenth(r, [], [])))
  {
    ReachComb(rules, r, 17);
    var s := Row(r, 0, 17);
    var k, l := Fifteenth(r, 16, [], [], []), Sixteenth(r, [], []);
    assert s[15] == k && s[16] == l;
    assert s[15 := k][16 := l] == s;
    DeepParts(r, k, l, k);
    Joins(rules, Newcomer(Space(r, 0)), Deep(r, k, l), [15], k.val, []);
    assert [] + [Newcomer(Distant(r))] == [Newcomer(Distant(r))];
    DeepParts(r, k, l, Fifteenth(r, 17, [], [], [Newcomer(Distant(r))]));
  }

  lemma {:induction false} DistantFacts(r: Host)
    requires Shaped(r, 0)
    ensures var d, x := Flip(r, 16), Distant(r).addr;
            && x == Flip(d, 15) && Dist(d, x) == 1 && Successor(d, x) && !Covers(Space(d, 17), x)
            && Successor(Flip(r, 15), x)
  {
    var d, x := Flip(r, 16), Distant(r).addr;
    assert x == Flip(d, 15);
    DistFlip(d, 15);
    SuccessorExact(d, 15);
    SuccessorExact(Flip(r, 15), 16);
    assert d[15] != x[15];
  }

  /** The child at bit 16 hears the distant neighbour's heartbeat. */
  lemma {:induction false} ReachListed(rules: set<Rule>, r: Host)
    requires Shaped(r, 0)
    ensures Reaches(rules, Newcomer(Space(r, 0)), Deep(r, Fifteenth(r, 17, [], [], [Newcomer(Distant(r))]), Sixteenth(r, [], [Distant(r)])))
  {
    var k, l, x := Fifteenth(r, 17, [], [], [Newcomer(Distant(r))]), Sixteenth(r, [], []), Distant(r);
    var b := Beat(x.addr, x.addr, None, 17, 17);
    ReachDeep(rules, r);
    DistantFacts(r);
    DeepParts(r, k, l, l);
    assert [] + [x] == [x];
    assert SentIn(k, b) by {
      assert Sends(Newcomer(x).val.node, b) && Newcomer(x) in k.kids;
    }
    assert Deep(r, k, l).kids[15] == k && k in Deep(r, k, l).kids;
    Onward(rules, Newcomer(Space(r, 0)), Deep(r, k, l), [16], l.val, [], Hb(b), Sixteenth(r, [], [x]));
    DeepParts(r, k, l, Sixteenth(r, [], [x]));
  }

  /** The distant neighbour leaves, and its parent recovers its space. */
  lemma {:induction false} ReachParted(rules: set<Rule>, r: Host)
    requires Shaped(r, 0)
    ensures Reaches(rules, Newcomer(Space(r, 0)), Deep(r, Fifteenth(r, 17, [Distant(r)], [], []), Sixteenth(r, [], [Distant(r)])))
  {
    var t, x := Newcomer(Space(r, 0)), Distant(r);
    var k0, l := Fifteenth(r, 17, [], [], [Newcomer(x)]), Sixteenth(r, [], [x]);
    var k1, k2 := Fifteenth(r, 17, [], [Limbo(x, Departed)], []), Fifteenth(r, 17, [x], [], []);
    ReachListed(rules, r);
    DistantFacts(r);
    assert Without([Newcomer(x)], 0) == [] && [] + [Limbo(x, Departed)] == [Limbo(x, Departed)];
    assert [] + [x] == [x] && Without([Limbo(x, Departed)], 0) == [];
    DeepParts(r, k0, l, k0);
    Onward(rules, t, Deep(r, k0, l), [15], k0.val, k0.kids, Leave(0), k1);
    DeepParts(r, k0, l, k1);
    Onward(rules, t, Deep(r, k0, l), [15], k1.val, [], Expire(0), k2);
    DeepParts(r, k0, l, k2);
  }

  /** So does the child at bit 16. */
  lemma {:induction false} ReachDoubled(rules: set<Rule>, r: Host)
    requires Shaped(r, 0) && ShallowMask !in rules
    ensures Reaches(rules, Newcomer(Space(r, 0)), Deep(r, Fifteenth(r, 17, [Distant(r)], [], []), Sixteenth(r, [Distant(r)], [])))
  {
    var x := Distant(r);
    var k, l := Fifteenth(r, 17, [x], [], []), Sixteenth(r, [], [x]);
    ReachParted(rules, r);
    DeepParts(r, k, l, l);
    ForgetDistant(r);
    Onward(rules, Newcomer(Space(r, 0)), Deep(r, k, l), [16], l.val, [], Forget(0), Sixteenth(r, [x], []));
    DeepParts(r, k, l, Sixteenth(r, [x], []));
  }

  lemma {:induction false} ForgetDistant(r: Host)
    requires Shaped(r, 0)
    ensures ForgetStep(Sixteenth(r, [], [Distant(r)]).val, 0) == Sixteenth(r, [Distant(r)], []).val
  {
    DistantFacts(r);
    assert Unlist([Distant(r)], Distant(r).addr) == [] && [] + [Distant(r)] == [Distant(r)];
  }

  // ----- Every rule is needed -----

  lemma {:induction false} LiveMember(v: Measure, kids: seq<Net>, i: nat)
    requires i < |kids|
    ensures Live(v, kids[i]) <= LiveAll(v, kids)
  {
    if i > 0 {
      LiveMember(v, kids[1..], i - 1);
    }
  }

  lemma {:induction false} LiveTwo(v: Measure, kids: seq<Net>, i: nat, j: nat)
    requires i < j < |kids|
    ensures Live(v, kids[i]) + Live(v, kids[j]) <= LiveAll(v, kids)
  {
    if i == 0 {
      LiveMember(v, kids[1..], j - 1);
    } else {
      LiveTwo(v, kids[1..], i - 1, j - 1);
    }
  }

  lemma {:induction false} NewcomerLives(o: Space)
    ensures Live(At(o.addr), Newcomer(o)) >= 1
  {
    assert Covers(o, o.addr);
  }

  /** An address with two owners. */
  predicate Doubled(t: Net, h: Host) {
    Live(At(h), t) >= 2
  }

  /** A newcomer inside what its parent holds. */
  lemma {:induction false} InsideParent(c: Cell, k: Net, o: Space)
    requires Holds(At(o.addr), c.node) >= 1
    ensures Doubled(Tree(c, [k, Newcomer(o)]), o.addr)
  {
    NewcomerLives(o);
    LiveMember(At(o.addr), [k, Newcomer(o)], 1);
  }

  lemma {:induction false} TwinsDouble(r: Host)
    ensures Doubled(Twins(r), Flip(r, 0)) && Addresses(Twins(r))[Flip(r, 0)] >= 2
  {
    var k := Newcomer(Buddy(r, 0));
    NewcomerLives(Buddy(r, 0));
    LiveTwo(At(Flip(r, 0)), [k, k], 0, 1);
    assert [k, k][1..] == [k];
    assert AddressesAll([k]) == Addresses(k) + AddressesAll([]);
  }

  lemma {:induction false} DeepDoubles(r: Host)
    ensures Doubled(Deep(r, Fifteenth(r, 17, [Distant(r)], [], []), Sixteenth(r, [Distant(r)], [])), Distant(r).addr)
  {
    var k, l, x := Fifteenth(r, 17, [Distant(r)], [], []), Sixteenth(r, [Distant(r)], []), Distant(r);
    var t := Deep(r, k, l);
    assert Covers(x, x.addr);
    assert Sum(At(x.addr), [x]) == 1;
    assert t.kids[15] == k && t.kids[16] == l;
    LiveTwo(At(x.addr), t.kids, 15, 16);
  }

  /** The address that gets two owners when a rule is broken: two newcomers; the newcomer and the holder of
      the secondary space; the newcomer and its parent; the same; the parent and a distant neighbour. */
  function Contested(r: Host, rule: Rule): Host {
    match rule
    case OneOffer => Flip(r, 0)
    case OfferOrProposal => Flip(r, 1)
    case FreshBuddy => Flip(r, 1)
    case HoldStill => Flip(r, 2)
    case ShallowMask => Flip(Flip(r, 15), 16)
  }

  lemma {:induction false} Collision(r: Host, rule: Rule, rules: set<Rule>) returns (u: Net)
    requires Shaped(r, 0) && rule !in rules
    ensures Reaches(rules, Newcomer(Space(r, 0)), u) && Doubled(u, Contested(r, rule))
  {
    var k := Middle(r);
    match rule
    case OneOffer =>
      ReachTwins(rules, r);
      TwinsDouble(r);
      u := Twins(r);
    case OfferOrProposal =>
      ReachTaken(rules, r);
      var o := Buddy(r, 1);
      u := Tree(Cell(Node(r, 2, 0, [], None, Some(o)), [], [], Answered(r)), [k, Newcomer(o)]);
      assert Covers(o, o.addr) && SecOf(u.val.node)[0] == o;
      InsideParent(u.val, k, o);
    case FreshBuddy =>
      ReachStale(rules, r);
      var o := Buddy(r, 1);
      u := Tree(Cell(Node(r, 1, 0, [], Some(o.addr), None), [], [], Answered(r)), [k, Newcomer(o)]);
      assert Covers(Own(u.val.node), o.addr);
      InsideParent(u.val, k, o);
    case HoldStill =>
      ReachReleased(rules, r);
      var p := Buddy(r, 2);
      u := Tree(Plain(r, 2, 0).(link := Answered(r)), [k, Newcomer(p)]);
      assert Covers(Own(u.val.node), p.addr);
      InsideParent(u.val, k, p);
    case ShallowMask =>
      ReachDoubled(rules, r);
      DeepDoubles(r);
      u := Deep(r, Fifteenth(r, 17, [Distant(r)], [], []), Sixteenth(r, [Distant(r)], []));
  }

  /** No rule can be left out: a run from the founder that follows all the others gives an address two owners. */
  lemma {:induction false} EveryRuleIsNeeded(rule: Rule) returns (run: seq<Step>)
    ensures Possible(Founder(), run) && DisciplinedRun(AllRules() - {rule}, Founder(), run)
    ensures Live(At(Contested(ROOT, rule)), After(Founder(), run)) >= 2
  {
    var u := Collision(ROOT, rule, AllRules() - {rule});
    run :| Possible(Founder(), run) && DisciplinedRun(AllRules() - {rule}, Founder(), run) && After(Founder(), run) == u;
  }

  /** Two PARs answered before either PAN arrives give one address to two members. */
  lemma {:induction false} TwoOutstandingOffersCollide() returns (run: seq<Step>)
    ensures Possible(Founder(), run) && DisciplinedRun(AllRules() - {OneOffer}, Founder(), run)
    ensures Addresses(After(Founder(), run))[Flip(ROOT, 0)] >= 2
  {
    ReachTwins(AllRules() - {OneOffer}, ROOT);
    TwinsDouble(ROOT);
    run :| Possible(Founder(), run) && DisciplinedRun(AllRules() - {OneOffer}, Founder(), run)
           && After(Founder(), run) == Twins(ROOT);
  }

  /** rcvd_offered is never reset. Even with one offer outstanding at a time, a daemon that offered a
      recovered space, took it as its secondary space and rolled its mask back, then grants that space
      to a newcomer without giving it up: the newcomer's address stays inside the parent's space. */
  lemma {:induction false} StaleRecoveredOfferCollides() returns (run: seq<Step>)
    ensures Possible(Founder(), run) && DisciplinedRun(AllRules() - {FreshBuddy}, Founder(), run)
    ensures Live(At(Flip(ROOT, 1)), After(Founder(), run)) >= 2
  {
    run := EveryRuleIsNeeded(FreshBuddy);
  }
}
