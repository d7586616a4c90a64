/** How the place of a child that left is offered and filled again. */
module AllocationReuse {
  import opened Wrappers
  import opened Hypercube
  import opened Allocation
  import opened AllocationRun

  lemma {:induction false} AtPath(t: Net, path: seq<nat>, ev: Event)
    requires OnPath(t, path) && LocalEnabled(SubtreeAt(t, path).val, SubtreeAt(t, path).kids, ev)
    ensures Enabled(t, path, ev) && OnPath(Apply(t, path, ev), path)
    ensures SubtreeAt(Apply(t, path, ev), path) == Local(SubtreeAt(t, path).val, SubtreeAt(t, path).kids, ev)
    decreases path
  {
    if path != [] {
      AtPath(t.kids[path[0]], path[1..], ev);
    }
  }

  /** A run and one more event at the daemon that the path leads to. */
  lemma {:induction false} OneMore(t: Net, run: seq<Step>, path: seq<nat>, ev: Event)
    requires Possible(t, run) && OnPath(After(t, run), path) && !ev.Hb?
    requires LocalEnabled(SubtreeAt(After(t, run), path).val, SubtreeAt(After(t, run), path).kids, ev)
    ensures Possible(t, run + [Step(path, ev)]) && OnPath(After(t, run + [Step(path, ev)]), path)
    ensures var s := SubtreeAt(After(t, run), path);
            SubtreeAt(After(t, run + [Step(path, ev)]), path) == Local(s.val, s.kids, ev)
    decreases run
  {
    var all := run + [Step(path, ev)];
    if run == [] {
      AtPath(t, path, ev);
      assert all[1..] == [];
    } else {
      OneMore(Apply(t, run[0].path, run[0].ev), run[1..], path, ev);
      assert all[1..] == run[1..] + [Step(path, ev)];
    }
  }

  lemma {:induction false} OkAt(t: Net, path: seq<nat>)
    requires Ok(t) && OnPath(t, path)
    ensures Ok(SubtreeAt(t, path))
    decreases path
  {
    if path != [] {
      assert t.kids[path[0]] in t.kids;
      OkAt(t.kids[path[0]], path[1..]);
    }
  }

  /** The parent of a departed child that is not aged out yet; it never offered a recovered space. */
  predicate Bereft(c: Cell, i: nat) {
    i < |c.limbo| && c.limbo[i].why == Departed && c.limbo[i].space.mask <= 48 && c.node.offered == None
  }

  /** The parent after the ageing and a PAR. */
  function Reoffered(c: Cell, i: nat): Cell
    requires i < |c.limbo|
  {
    var e := c.limbo[i].space;
    c.(node := c.node.(rcvd := c.node.rcvd + [e], offered := Some(e.addr)),
       limbo := Without(c.limbo, i), offers := c.offers + [e])
  }

  lemma {:induction false} ExpiredAndOffered(c: Cell, kids: seq<Net>, i: nat)
    requires LocalOk(c, kids) && Bereft(c, i)
    ensures ParStep(ExpireStep(c, i)) == Reoffered(c, i)
  {
    assert c.limbo[i] in c.limbo;
    ChildIsSuccessor(c.node.addr, c.node.maskIni, c.limbo[i].space.mask - 1);
    OffersLastRecovered(ExpireStep(c, i).node, c.node.rcvd, c.limbo[i].space);
  }

  /** Anywhere in a network: when a departed child's entry is aged out and then a PAR arrives at its parent, which never
      offered a recovered space, the departed child's space is offered and no other. */
  lemma {:induction false} DepartedIsOffered(t: Net, path: seq<nat>, i: nat)
    requires Ok(t) && OnPath(t, path) && Bereft(SubtreeAt(t, path).val, i)
    ensures var run := [Step(path, Expire(i)), Step(path, Par)];
            && Possible(t, run) && OnPath(After(t, run), path)
            && SubtreeAt(After(t, run), path) == Tree(Reoffered(SubtreeAt(t, path).val, i), SubtreeAt(t, path).kids)
  {
    var c, kids := SubtreeAt(t, path).val, SubtreeAt(t, path).kids;
    OkAt(t, path);
    ExpiredAndOffered(c, kids, i);
    OneMore(t, [], path, Expire(i));
    assert [] + [Step(path, Expire(i))] == [Step(path, Expire(i))];
    OneMore(t, [Step(path, Expire(i))], path, Par);
    assert [Step(path, Expire(i))] + [Step(path, Par)] == [Step(path, Expire(i)), Step(path, Par)];
  }

  /** The newcomer takes that offer: the recovered list is as it was, and the newcomer is a child with exactly the
      departed child's space. */
  lemma {:induction false} DepartedIsReplaced(t: Net, path: seq<nat>, i: nat) returns (run: seq<Step>)
    requires Ok(t) && OnPath(t, path) && Bereft(SubtreeAt(t, path).val, i)
    requires !Listed(SubtreeAt(t, path).val.node.rcvd, SubtreeAt(t, path).val.limbo[i].space.addr)
    ensures Possible(t, run) && OnPath(After(t, run), path)
    ensures var s, u := SubtreeAt(t, path), SubtreeAt(After(t, run), path);
            && u.val == s.val.(node := s.val.node.(offered := Some(s.val.limbo[i].space.addr)), limbo := Without(s.val.limbo, i))
            && u.kids == s.kids + [Newcomer(s.val.limbo[i].space)]
  {
    var c := SubtreeAt(t, path).val;
    run := [Step(path, Expire(i)), Step(path, Par)];
    DepartedIsOffered(t, path, i);
    TakesReoffered(c, i);
    OneMore(t, run, path, Pan(|c.offers|));
    run := run + [Step(path, Pan(|c.offers|))];
    OneMore(t, run, path, Panc(|c.limbo| - 1));
    run := run + [Step(path, Panc(|c.limbo| - 1))];
  }

  lemma {:induction false} TakesReoffered(c: Cell, i: nat)
    requires i < |c.limbo| && !Listed(c.node.rcvd, c.limbo[i].space.addr)
    ensures PanStep(Reoffered(c, i), |c.offers|) ==
            c.(node := c.node.(offered := Some(c.limbo[i].space.addr)),
               limbo := Without(c.limbo, i) + [Limbo(c.limbo[i].space, Granted)])
    ensures Without(Without(c.limbo, i) + [Limbo(c.limbo[i].space, Granted)], |c.limbo| - 1) == Without(c.limbo, i)
  {
    var e := c.limbo[i].space;
    UnlistLast(c.node.rcvd, e);
    assert Without(c.offers + [e], |c.offers|) == c.offers;
  }

  lemma {:induction false} UnlistLast(s: seq<Space>, e: Space)
    requires !Listed(s, e.addr)
    ensures Unlist(s + [e], e.addr) == s
  {
    IndexOfUnique(s + [e], e.addr, |s|);
  }
}
