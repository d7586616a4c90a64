/** Which packets a daemon sends when a MAR1 or MAR2 reaches it in a network whose neighbours are exactly
    its tree links. */
module MergeFlood {
  import opened Wrappers
  import opened Hypercube
  import opened Metric
  import opened Embedding
  import opened FragmentationRun
  import opened MergeNode

  /** The packets for one address, in the order in which they were sent. */
  function Select(ps: seq<Packet>, a: Host): seq<Packet> {
    if ps == [] then []
    else Select(ps[..|ps| - 1], a) + if ps[|ps| - 1].dst == a then [ps[|ps| - 1]] else []
  }

  lemma {:induction false} SelectSnoc(ps: seq<Packet>, p: Packet, a: Host)
    ensures Select(ps + [p], a) == Select(ps, a) + if p.dst == a then [p] else []
  {
    assert (ps + [p])[..|ps|] == ps;
  }

  predicate IsRoot(r: Host) {
    forall j | 0 <= j < 64 :: r[j] == (j == 63)
  }

  // ----- The loop of process_mar1 -----

  predicate Skips(c: Turn, e: Host) {
    e == c.sender && !c.monitor
  }

  function Down(c: Turn, e: Host): Packet {
    Packet(MAR1, c.p.src, c.own, e, c.p.mask, c.p.red, c.mf)
  }

  function BuddyPacket(c: Turn, mask: nat, e: Host, aux5: Host): Packet {
    Packet(MAR2, aux5, c.own, e, (mask + 1) % 256, c.p.red, 0)
  }

  lemma {:induction false} CountSnoc(s: seq<Host>, a: Host)
    requires s != []
    ensures multiset(s)[a] == multiset(s[..|s| - 1])[a] + if s[|s| - 1] == a then 1 else 0
  {
    assert s == s[..|s| - 1] + [s[|s| - 1]];
  }

  /** Every neighbour farther from the root gets one MAR1 for each of its entries. */
  lemma {:induction false} WalkDown(c: Turn, w: Walk, s: seq<Host>, a: Host)
    requires !Skips(c, a) && Farther(c, a) && w.mars == []
    ensures Select(Mar1Walk(c, w, s).mars, a) == Copies(multiset(s)[a], Down(c, a))
  {
    if s != [] {
      var t, e := s[..|s| - 1], s[|s| - 1];
      WalkDown(c, w, t, a);
      CountSnoc(s, a);
      var x := Mar1Walk(c, w, t);
      if !Skips(c, e) {
        if Farther(c, e) {
          SelectSnoc(x.mars, Down(c, e), a);
        } else {
          BuddyElsewhere(c, x, e, a, Mezcla(c.root, c.p.src, c.p.mask, c.mf, x.aux5));
        }
      }
    }
  }

  lemma {:induction false} BuddyElsewhere(c: Turn, x: Walk, e: Host, a: Host, aux5: Host)
    requires e != a
    ensures Select(GrantBuddy(c, x, e, aux5).mars, a) == Select(x.mars, a)
  {
    SelectSnoc(x.mars, BuddyPacket(c, x.mask, e, aux5), a);
  }

  /** While the parent, a, has not come up, the mask and the address for it are untouched; then both
      change once, the address to next. */
  predicate UpOnce(c: Turn, w: Walk, next: Host, a: Host, n: nat, x: Walk) {
    && (n == 0 ==> x.mask == w.mask && x.aux5 == w.aux5 && Select(x.mars, a) == [])
    && (n == 1 ==> x.mask == (w.mask + 1) % 256 && Select(x.mars, a) == [BuddyPacket(c, w.mask, a, next)])
  }

  /** Packets for others change nothing for a. */
  lemma {:induction false} TurnOther(c: Turn, w: Walk, next: Host, x: Walk, e: Host, a: Host, n: nat)
    requires UpOnce(c, w, next, a, n, x) && e != a
    ensures UpOnce(c, w, next, a, n, SendDown(c, x, e))
  {
    SelectSnoc(x.mars, Down(c, e), a);
  }

  lemma {:induction false} TurnParent(c: Turn, w: Walk, next: Host, x: Walk, a: Host)
    requires UpOnce(c, w, next, a, 0, x)
    ensures UpOnce(c, w, next, a, 1, GrantBuddy(c, x, a, next))
  {
    SelectSnoc(x.mars, BuddyPacket(c, x.mask, a, next), a);
  }

  lemma {:induction false} TurnUp(c: Turn, w: Walk, next: Host, x: Walk, e: Host, a: Host, n: nat)
    requires next == Mezcla(c.root, c.p.src, c.p.mask, c.mf, w.aux5)
    requires UpOnce(c, w, next, a, n, x) && n <= 1 && !Skips(c, a) && !Farther(c, a)
    requires Skips(c, e) || Farther(c, e) || (e == a && n == 0)
    ensures UpOnce(c, w, next, a, n + if e == a then 1 else 0, Mar1Turn(c, x, e))
  {
    if !Skips(c, e) {
      if Farther(c, e) {
        TurnOther(c, w, next, x, e, a, n);
      } else {
        TurnParent(c, w, next, x, a);
      }
    }
  }

  lemma {:induction false} WalkUp(c: Turn, w: Walk, next: Host, s: seq<Host>, a: Host)
    requires next == Mezcla(c.root, c.p.src, c.p.mask, c.mf, w.aux5)
    requires w.mars == [] && !Skips(c, a) && !Farther(c, a) && multiset(s)[a] <= 1
    requires forall i | 0 <= i < |s| :: Skips(c, s[i]) || Farther(c, s[i]) || s[i] == a
    ensures UpOnce(c, w, next, a, multiset(s)[a], Mar1Walk(c, w, s))
  {
    if s != [] {
      var t: seq<Host>, e: Host := s[..|s| - 1], s[|s| - 1];
      CountSnoc(s, a);
      WalkUp(c, w, next, t, a);
      TurnUp(c, w, next, Mar1Walk(c, w, t), e, a, multiset(t)[a]);
    }
  }

  lemma {:induction false} WalkNoUp(c: Turn, w: Walk, s: seq<Host>)
    requires forall i | 0 <= i < |s| :: Skips(c, s[i]) || Farther(c, s[i])
    ensures Mar1Walk(c, w, s).mask == w.mask
  {
    if s != [] {
      WalkNoUp(c, w, s[..|s| - 1]);
    }
  }

  /** Nothing is sent exactly when every neighbour is the sender. */
  lemma {:induction false} WalkSilent(c: Turn, w: Walk, s: seq<Host>)
    requires w.mars == []
    ensures Mar1Walk(c, w, s).mars == [] <==> forall i | 0 <= i < |s| :: Skips(c, s[i])
  {
    if s != [] {
      var t, e := s[..|s| - 1], s[|s| - 1];
      WalkSilent(c, w, t);
      assert forall i | 0 <= i < |t| :: t[i] == s[i];
    }
  }

  // ----- The loop of process_mar2 -----

  /** The neighbours other than the sender, in table order. */
  function Others(s: seq<Host>, p: Host): seq<Host> {
    if s == [] then [] else Others(s[..|s| - 1], p) + if s[|s| - 1] == p then [] else [s[|s| - 1]]
  }

  /** One MAR2 for each of them, with growing masks. */
  function Grants(own: Host, addr: Host, mask: nat, red: nat, s: seq<Host>): (r: seq<Packet>)
    ensures |r| == |s|
    ensures forall i | 0 <= i < |s| :: r[i] == Packet(MAR2, addr, own, s[i], mask + i + 1, red, 0)
  {
    if s == [] then []
    else Grants(own, addr, mask, red, s[..|s| - 1])
         + [Packet(MAR2, addr, own, s[|s| - 1], mask + |s|, red, 0)]
  }

  predicate Granting(own: Host, addr: Host, p: Packet, mask: nat, o: seq<Host>, x: Walk) {
    x.mars == Grants(own, addr, mask, p.red, o) && x.mask == mask + |o|
  }

  lemma {:induction false} TurnGrants(own: Host, addr: Host, p: Packet, mask: nat, o: seq<Host>, x: Walk, e: Host)
    requires Granting(own, addr, p, mask, o, x) && mask + |o| < 255
    ensures Granting(own, addr, p, mask, if e == p.prim then o else o + [e], Mar2Turn(own, addr, p, x, e))
  {
    if e != p.prim {
      var y := Mar2Turn(own, addr, p, x, e);
      assert y.mask == x.mask + 1;
      assert y.mars == x.mars + [Packet(MAR2, addr, own, e, x.mask + 1, p.red, 0)];
      GrantsSnoc(own, addr, mask, p.red, o, e);
    }
  }

  lemma {:induction false} GrantsSnoc(own: Host, addr: Host, mask: nat, red: nat, o: seq<Host>, e: Host)
    ensures Grants(own, addr, mask, red, o + [e]) ==
            Grants(own, addr, mask, red, o) + [Packet(MAR2, addr, own, e, mask + |o| + 1, red, 0)]
  {
    assert (o + [e])[..|o|] == o;
  }

  lemma {:induction false} WalkGrants(own: Host, addr: Host, p: Packet, w: Walk, s: seq<Host>)
    requires w.mars == [] && w.mask + |s| <= 255
    ensures Granting(own, addr, p, w.mask, Others(s, p.prim), Mar2Walk(own, addr, p, w, s))
    ensures |Others(s, p.prim)| <= |s|
  {
    if s != [] {
      var t := s[..|s| - 1];
      WalkGrants(own, addr, p, w, t);
      TurnGrants(own, addr, p, w.mask, Others(t, p.prim), Mar2Walk(own, addr, p, w, t), s[|s| - 1]);
    }
  }

  lemma {:induction false} SelectNone(ps: seq<Packet>, a: Host)
    requires forall i | 0 <= i < |ps| :: ps[i].dst != a
    ensures Select(ps, a) == []
  {
    if ps != [] {
      SelectNone(ps[..|ps| - 1], a);
    }
  }

  lemma {:induction false} SelectOne(ps: seq<Packet>, i: nat)
    requires i < |ps| && forall j | 0 <= j < |ps| && j != i :: ps[j].dst != ps[i].dst
    ensures Select(ps, ps[i].dst) == [ps[i]]
  {
    var last := |ps| - 1;
    if i == last {
      SelectNone(ps[..last], ps[i].dst);
    } else {
      assert ps[..last][i] == ps[i];
      SelectOne(ps[..last], i);
    }
  }

  // ----- Distances to the root decide who is below -----

  lemma {:induction false} ChildIsFarther(r: Host, a: Host, k: nat)
    requires IsRoot(r) && k < 63
    ensures !a[k] ==> Dist(r, a) < Dist(r, Flip(a, k))
    ensures a[k] ==> Dist(r, Flip(a, k)) < Dist(r, a)
  {
    DiffSymmetric(r, a, 0, 64);
    DiffSymmetric(r, Flip(a, k), 0, 64);
    DiffFlip(a, r, k, 0, 64);
  }

  // ----- Any table -----

  /** The neighbours in the table that get a MAR: all but the one that is passed over, if there is one. */
  function Asked(skip: Option<Host>, s: seq<Host>): seq<Host> {
    if s == [] then []
    else Asked(skip, s[..|s| - 1]) + if Some(s[|s| - 1]) == skip then [] else [s[|s| - 1]]
  }

  /** The packet for a neighbour of process_mar1: a MAR1 if and only if the neighbour is farther from the root. */
  predicate ProperMar(c: Turn, q: Packet, e: Host) {
    && q.dst == e && q.prim == c.own && q.red == c.p.red
    && (if Dist(c.root, c.own) < Dist(c.root, e) then q.kind == MAR1 && q.src == c.p.src && q.mask == c.p.mask && q.shift == c.mf
        else q.kind == MAR2 && q.shift == 0)
  }

  lemma {:induction false} ProperTurn(c: Turn, w: Walk, e: Host)
    requires e != c.sender || c.monitor
    ensures var x := Mar1Turn(c, w, e); |x.mars| == |w.mars| + 1 && x.mars[..|w.mars|] == w.mars && ProperMar(c, x.mars[|w.mars|], e)
  {
  }

  /** process_mar1 sends to every neighbour in table order, whatever the table holds. */
  lemma {:induction false} MarsInOrder(c: Turn, w: Walk, s: seq<Host>)
    requires w.mars == []
    ensures var x, a := Mar1Walk(c, w, s), Asked(if c.monitor then None else Some(c.sender), s);
            |x.mars| == |a| && forall k | 0 <= k < |a| :: ProperMar(c, x.mars[k], a[k])
  {
    if s != [] {
      var t, e := s[..|s| - 1], s[|s| - 1];
      MarsInOrder(c, w, t);
      var x := Mar1Walk(c, w, t);
      if e != c.sender || c.monitor {
        ProperTurn(c, x, e);
        var y := Mar1Turn(c, x, e);
        forall k | 0 <= k < |x.mars|
          ensures y.mars[k] == x.mars[k]
        {
          assert y.mars[..|x.mars|][k] == x.mars[k];
        }
      }
    }
  }

  predicate ProperGrant(own: Host, addr: Host, p: Packet, mask: nat, q: Packet, e: Host) {
    q == Packet(MAR2, addr, own, e, mask % 256, p.red, 0)
  }

  lemma {:induction false} GrantTurn(own: Host, addr: Host, p: Packet, w: Walk, e: Host, mask: nat)
    requires e != p.prim && w.mask == mask % 256
    ensures var x := Mar2Turn(own, addr, p, w, e);
            && x.mask == (mask + 1) % 256 && |x.mars| == |w.mars| + 1
            && (forall k | 0 <= k < |w.mars| :: x.mars[k] == w.mars[k])
            && ProperGrant(own, addr, p, mask + 1, x.mars[|w.mars|], e)
  {
    assert (mask % 256 + 1) % 256 == (mask + 1) % 256;
  }

  /** The neighbours a have been granted the masks after the given one. */
  predicate Granted(own: Host, addr: Host, p: Packet, mask: nat, x: Walk, a: seq<Host>) {
    && |x.mars| == |a| && x.mask == (mask + |a|) % 256
    && forall k | 0 <= k < |a| :: ProperGrant(own, addr, p, mask + k + 1, x.mars[k], a[k])
  }

  lemma {:induction false} GrantedMore(own: Host, addr: Host, p: Packet, mask: nat, w: Walk, a: seq<Host>, e: Host)
    requires Granted(own, addr, p, mask, w, a) && e != p.prim
    ensures Granted(own, addr, p, mask, Mar2Turn(own, addr, p, w, e), a + [e])
  {
    GrantTurn(own, addr, p, w, e, mask + |a|);
  }

  /** process_mar2 grants its neighbours successive masks, in table order. */
  lemma {:induction false} GrantsInOrder(own: Host, addr: Host, p: Packet, w: Walk, s: seq<Host>)
    requires w.mars == [] && w.mask < 256
    ensures Granted(own, addr, p, w.mask, Mar2Walk(own, addr, p, w, s), Asked(Some(p.prim), s))
  {
    if s != [] {
      var t, e := s[..|s| - 1], s[|s| - 1];
      GrantsInOrder(own, addr, p, w, t);
      if e != p.prim {
        GrantedMore(own, addr, p, w.mask, Mar2Walk(own, addr, p, w, t), Asked(Some(p.prim), t), e);
      } else {
        assert Asked(Some(p.prim), t) + [] == Asked(Some(p.prim), t);
      }
    }
  }
}
