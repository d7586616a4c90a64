/** What the ledgers of AllocationRun mean for the whole network. */
module AllocationResults {
  import opened Hypercube
  import opened Metric
  import opened Allocation
  import opened AllocationRun

  /** What the daemons of the network own, without limbo. */
  function Live(v: Measure, t: Net): nat {
    Holds(v, t.val.node) + LiveAll(v, t.kids)
  }

  function LiveAll(v: Measure, kids: seq<Net>): nat {
    if kids == [] then 0 else Live(v, kids[0]) + LiveAll(v, kids[1..])
  }

  function InLimbo(v: Measure, t: Net): nat {
    Sum(v, Spaces(t.val.limbo)) + InLimboAll(v, t.kids)
  }

  function InLimboAll(v: Measure, kids: seq<Net>): nat {
    if kids == [] then 0 else InLimbo(v, kids[0]) + InLimboAll(v, kids[1..])
  }

  lemma {:induction false} TotalConserved(v: Measure, t: Net)
    requires Balanced(v, t)
    ensures Live(v, t) + InLimbo(v, t) == Value(v, Init(t.val.node))
  {
    TotalAll(v, t.kids);
  }

  lemma {:induction false} TotalAll(v: Measure, kids: seq<Net>)
    requires forall k | k in kids :: Balanced(v, k)
    ensures LiveAll(v, kids) + InLimboAll(v, kids) == Sum(v, Inits(kids))
  {
    if kids != [] {
      assert kids[0] in kids;
      TotalConserved(v, kids[0]);
      TotalAll(v, kids[1..]);
      assert Inits(kids)[1..] == Inits(kids[1..]);
    }
  }

  /** In a network with exact ledgers over the whole hypercube, every host address is owned by exactly one
      daemon or waits in exactly one limbo. */
  lemma {:induction false} InvPartitions(t: Net, h: Host)
    requires Inv(t) && t.val.node.maskIni == 0
    ensures Live(At(h), t) + InLimbo(At(h), t) == 1
    ensures Live(Volume, t) + InLimbo(Volume, t) == Pow2(64)
  {
    assert Balanced(At(h), t) && Balanced(Volume, t);
    TotalConserved(At(h), t);
    TotalConserved(Volume, t);
    assert Covers(Init(t.val.node), h);
  }

  /** After any safe run of the network that is so, and the sizes of all spaces add up to the hypercube. */
  lemma {:induction false} RunPartitionsHypercube(run: seq<Step>)
    requires Possible(Founder(), run) && SafeRun(Founder(), run)
    ensures var t := After(Founder(), run);
            && Inv(t)
            && (forall h :: Live(At(h), t) + InLimbo(At(h), t) == 1)
            && Live(Volume, t) + InLimbo(Volume, t) == Pow2(64)
  {
    FounderInv();
    RunKeepsInv(Founder(), run);
    var t := After(Founder(), run);
    InvPartitions(t, ROOT);
    forall h
      ensures Live(At(h), t) + InLimbo(At(h), t) == 1
    {
      InvPartitions(t, h);
    }
  }

  // ----- Distinct addresses -----

  function Addresses(t: Net): multiset<Host> {
    multiset{t.val.node.addr} + AddressesAll(t.kids)
  }

  function AddressesAll(kids: seq<Net>): multiset<Host> {
    if kids == [] then multiset{} else Addresses(kids[0]) + AddressesAll(kids[1..])
  }

  /** A daemon owns its own address, so it cannot have it twice in the network. */
  lemma {:induction false} AddressesAreOwned(t: Net, a: Host)
    ensures Addresses(t)[a] <= Live(At(a), t)
  {
    assert Covers(Own(t.val.node), t.val.node.addr);
    AddressesAllOwned(t.kids, a);
  }

  lemma {:induction false} AddressesAllOwned(kids: seq<Net>, a: Host)
    ensures AddressesAll(kids)[a] <= LiveAll(At(a), kids)
  {
    if kids != [] {
      AddressesAreOwned(kids[0], a);
      AddressesAllOwned(kids[1..], a);
    }
  }

  /** Every tree link joins two addresses at distance one. */
  predicate LinksAdjacent(t: Net) {
    forall k | k in t.kids :: Dist(k.val.node.addr, t.val.node.addr) == 1 && LinksAdjacent(k)
  }

  lemma {:induction false} OkLinksAdjacent(t: Net)
    requires Ok(t)
    ensures LinksAdjacent(t)
  {
    forall k | k in t.kids
      ensures Dist(k.val.node.addr, t.val.node.addr) == 1 && LinksAdjacent(k)
    {
      DistFlip(t.val.node.addr, k.val.node.maskIni - 1);
      OkLinksAdjacent(k);
    }
  }

  /** After any safe run, no two members share an address and every child is next to its parent. */
  lemma {:induction false} RunKeepsAddressesDistinct(run: seq<Step>)
    requires Possible(Founder(), run) && SafeRun(Founder(), run)
    ensures var t := After(Founder(), run);
            (forall a :: Addresses(t)[a] <= 1) && LinksAdjacent(t)
  {
    RunPartitionsHypercube(run);
    var t := After(Founder(), run);
    OkLinksAdjacent(t);
    forall a
      ensures Addresses(t)[a] <= 1
    {
      AddressesAreOwned(t, a);
      assert Live(At(a), t) + InLimbo(At(a), t) == 1;
    }
  }

  // ----- Whose heartbeats a daemon hears from its own initial space -----

  lemma {:induction false} SenderHolds(n: Node, b: Beat)
    requires NodeOk(n) && Sends(n, b)
    ensures Covers(Init(n), b.addr) && Holds(At(b.addr), n) >= 1
  {
    if b.addr == n.addr {
      assert Covers(Own(n), n.addr);
    } else {
      assert Child(n, n.sec.value) && Covers(n.sec.value, b.addr) && SecOf(n)[0] == n.sec.value;
    }
  }

  lemma {:induction false} SentInside(t: Net, b: Beat)
    requires Ok(t) && SentIn(t, b)
    ensures Covers(Init(t.val.node), b.addr)
  {
    if Sends(t.val.node, b) {
      SenderHolds(t.val.node, b);
    } else {
      var k :| k in t.kids && SentIn(k, b);
      SentInside(k, b);
      assert Child(t.val.node, Init(k.val.node));
    }
  }

  lemma {:induction false} InitsNest(t: Net, path: seq<nat>, h: Host)
    requires Ok(t) && OnPath(t, path) && Covers(Init(SubtreeAt(t, path).val.node), h)
    ensures Covers(Init(t.val.node), h)
    decreases path
  {
    if path != [] {
      var k := t.kids[path[0]];
      assert k in t.kids && Child(t.val.node, Init(k.val.node));
      InitsNest(k, path[1..], h);
    }
  }

  /** A heartbeat for an address in a daemon's initial space comes from that daemon's subtree. */
  lemma {:induction false} SentBelow(t: Net, path: seq<nat>, b: Beat)
    requires Inv(t) && OnPath(t, path) && SentIn(t, b) && Covers(Init(SubtreeAt(t, path).val.node), b.addr)
    ensures SentIn(SubtreeAt(t, path), b)
    decreases path
  {
    if path != [] {
      var i, v := path[0], At(b.addr);
      var k := t.kids[i];
      KidInv(t, k);
      InitsNest(k, path[1..], b.addr);
      assert Balanced(v, t);
      assert Inits(t.kids)[i] == Init(k.val.node);
      SumMember(v, Inits(t.kids), i);
      if Sends(t.val.node, b) {
        SenderHolds(t.val.node, b);
        assert false;
      } else {
        SentByKid(t, i, b);
        SentBelow(k, path[1..], b);
      }
    }
  }

  lemma {:induction false} SentByKid(t: Net, i: nat, b: Beat)
    requires Inv(t) && i < |t.kids| && Covers(Init(t.kids[i].val.node), b.addr)
    requires exists k | k in t.kids :: SentIn(k, b)
    ensures SentIn(t.kids[i], b)
  {
    var k :| k in t.kids && SentIn(k, b);
    var j :| 0 <= j < |t.kids| && t.kids[j] == k;
    SentInside(k, b);
    assert Ledger(At(b.addr), t.val, t.kids) by {
      assert Balanced(At(b.addr), t);
    }
    OneKidCovers(t.val, t.kids, i, j, b.addr);
  }

  lemma {:induction false} OneKidCovers(c: Cell, kids: seq<Net>, i: nat, j: nat, h: Host)
    requires i < |kids| && j < |kids| && Ledger(At(h), c, kids)
    requires Covers(Init(kids[i].val.node), h) && Covers(Init(kids[j].val.node), h)
    ensures i == j
  {
    var s := Inits(kids);
    assert s[i] == Init(kids[i].val.node) && s[j] == Init(kids[j].val.node);
    if i != j {
      SumTwo(At(h), s, if i < j then i else j, if i < j then j else i);
    }
  }

  lemma {:induction false} SentElsewhere(n: Node, l: Net, b: Beat)
    requires Ok(l) && Child(n, Init(l.val.node)) && SentIn(l, b)
    ensures b.addr != n.addr
  {
    SentInside(l, b);
    assert b.addr[l.val.node.maskIni - 1] == l.val.node.addr[l.val.node.maskIni - 1];
  }

  lemma {:induction false} KidsSendElsewhere(t: Net, b: Beat)
    requires Ok(t)
    ensures forall l | l in t.kids && SentIn(l, b) :: b.addr != t.val.node.addr
  {
    forall l | l in t.kids && SentIn(l, b)
      ensures b.addr != t.val.node.addr
    {
      SentElsewhere(t.val.node, l, b);
    }
  }

  /** In a network with exact ledgers, the heartbeats that a daemon hears from distance one inside its own
      initial space are its children's, for their primary addresses. */
  lemma {:induction false} InnerNeighbourIsChild(t: Net, path: seq<nat>, b: Beat) returns (k: Net)
    requires Inv(t) && OnPath(t, path) && SentIn(t, b)
    requires Inner(SubtreeAt(t, path).val.node, b.addr) && !Sends(SubtreeAt(t, path).val.node, b)
    ensures k in SubtreeAt(t, path).kids && Sends(k.val.node, b) && b.addr == k.val.node.addr
  {
    SubtreeInv(t, path);
    SentBelow(t, path, b);
    var s := SubtreeAt(t, path);
    k :| k in s.kids && SentIn(k, b);
    SentInside(k, b);
    DistOne(s.val.node.addr, b.addr);
    var i :| 0 <= i < 64 && b.addr == Flip(s.val.node.addr, i);
    var e := Init(k.val.node);
    assert Child(s.val.node, e) && b.addr[e.mask - 1] == e.addr[e.mask - 1];
    KidsSendElsewhere(k, b);
  }

  // ----- No space is missing exactly when nothing is in limbo -----

  predicate NoLimbo(t: Net) {
    && t.val.limbo == []
    && forall k | k in t.kids :: NoLimbo(k)
  }

  lemma {:induction false} LimboFree(t: Net, v: Measure)
    requires NoLimbo(t)
    ensures InLimbo(v, t) == 0
  {
    LimboFreeAll(t.kids, v);
  }

  lemma {:induction false} LimboFreeAll(kids: seq<Net>, v: Measure)
    requires forall k | k in kids :: NoLimbo(k)
    ensures InLimboAll(v, kids) == 0
  {
    if kids != [] {
      assert kids[0] in kids;
      LimboFree(kids[0], v);
      LimboFreeAll(kids[1..], v);
    }
  }

  lemma {:induction false} LimboWitness(t: Net) returns (h: Host)
    requires !NoLimbo(t)
    ensures InLimbo(At(h), t) > 0
  {
    if t.val.limbo != [] {
      h := t.val.limbo[0].space.addr;
      assert Covers(t.val.limbo[0].space, h);
      SumMember(At(h), Spaces(t.val.limbo), 0);
    } else {
      h := LimboWitnessAll(t.kids);
    }
  }

  lemma {:induction false} LimboWitnessAll(kids: seq<Net>) returns (h: Host)
    requires exists k | k in kids :: !NoLimbo(k)
    ensures InLimboAll(At(h), kids) > 0
  {
    if !NoLimbo(kids[0]) {
      h := LimboWitness(kids[0]);
    } else {
      h := LimboWitnessAll(kids[1..]);
    }
  }

  /** The daemons' own and recovered spaces partition the hypercube exactly when nothing is in limbo. */
  lemma {:induction false} LivePartitionExact(run: seq<Step>)
    requires Possible(Founder(), run) && SafeRun(Founder(), run)
    ensures var t := After(Founder(), run);
            (forall h :: Live(At(h), t) == 1) <==> NoLimbo(t)
  {
    RunPartitionsHypercube(run);
    LiveExact(After(Founder(), run));
  }

  lemma {:induction false} LiveExact(t: Net)
    requires forall h :: Live(At(h), t) + InLimbo(At(h), t) == 1
    ensures (forall h :: Live(At(h), t) == 1) <==> NoLimbo(t)
  {
    if NoLimbo(t) {
      forall h
        ensures Live(At(h), t) == 1
      {
        LimboFree(t, At(h));
        assert Live(At(h), t) + InLimbo(At(h), t) == 1;
      }
    } else {
      var h := LimboWitness(t);
      assert Live(At(h), t) + InLimbo(At(h), t) == 1;
    }
  }
}
