/** What the guards of antop_process_pkt keep out, and what they are worth when packets are duplicated or overheard
    by daemons that they were not meant for. */
module MergeGuards {
  import opened Wrappers
  import opened Hypercube
  import opened Embedding
  import opened MergeNode
  import opened MergeFlood
  import opened MergeReact

  // ----- One packet -----

  /** A daemon ignores the MARs of its own network, the MAR1s for other addresses and the MANs of other networks;
      a daemon that waits under the default address gives its proposal up when it hears a MAR1 of its own
      network. */
  lemma {:induction false} GuardsExact(root: Host, m: Merger, p: Packet)
    ensures p.kind == MAR2 && p.red == m.red ==> Process(root, m, p) == (m, [], None)
    ensures p.kind == MAR1 && p.red == m.red && m.node.addr != Default() ==> Process(root, m, p) == (m, [], None)
    ensures p.kind == MAR1 && p.red == m.red && m.node.addr == Default() ==>
              Process(root, m, p) == (m.(node := m.node.(addr := m.aux), busy := false), [], None)
    ensures p.kind == MAR1 && p.red != m.red && p.dst != m.node.addr ==> Process(root, m, p) == (m, [], None)
    ensures p.kind in {MAN1, MAN2} && p.red != m.red ==> Process(root, m, p) == (m, [], None)
  {
  }

  /** It answers exactly the MARs of other networks that are for it, and then belongs to the sender's network. */
  lemma {:induction false} AnsweredExactly(root: Host, m: Merger, p: Packet)
    ensures var (r, mars, man) := Process(root, m, p);
            && (man.Some? <==> p.red != m.red && ((p.kind == MAR1 && p.dst == m.node.addr) || p.kind == MAR2))
            && (man.Some? ==> r.red == p.red && man.value.dst == p.prim && man.value.red == p.red)
            && (man == None ==> mars == [] && r.red == m.red && r.table == m.table)
  {
  }

  /** The answer to a MAR1 goes to the address in the packet and carries the daemon's old address, except from a receiver
      without neighbours, which has moved before it answers. The answer to a MAR2 carries the mask after all grants. */
  lemma {:induction false} AnswerFields(root: Host, m: Merger, p: Packet)
    ensures var (r, mars, man) := HearMar1(root, m, p);
            man == Packet(MAN1, p.src, if p.prim == Default() && m.table == [] then r.node.addr else m.node.addr,
                          p.prim, p.mask, p.red, 0)
    ensures var (r, mars, man) := HearMar2(m, p);
            man == Packet(MAN2, p.src, m.node.addr, p.prim, r.node.mask, p.red, 0)
  {
    if p.prim == Default() && m.table == [] {
      assert Mar1Table(m, p) == [];
    } else {
      Mar1Answer(root, m, p);
    }
  }

  lemma {:induction false} Mar1Answer(root: Host, m: Merger, p: Packet)
    requires !(p.prim == Default() && m.table == [])
    ensures HearMar1(root, m, p).2 == Man1(m.node.addr, p)
  {
    var k := Masked(m, p);
    if p.prim == Default() && Mar1Loops(m, p) {
      var w0 := Walk([], k.table, k.node.mask, k.node.addr);
      WalkKeepsIfSilent(TurnOf(root, m, p), w0, k.table);
    }
  }

  /** A loop that sends nothing deletes nothing. */
  lemma {:induction false} WalkKeepsIfSilent(c: Turn, w: Walk, s: seq<Host>)
    requires w.mars == []
    ensures var x := Mar1Walk(c, w, s); x.mars == [] ==> x == w
  {
    if s != [] {
      WalkKeepsIfSilent(c, w, s[..|s| - 1]);
    }
  }

  /** An answer that comes to a daemon that does not wait changes nothing. */
  lemma {:induction false} AnswersOnce(root: Host, m: Merger, p: Packet)
    requires p.kind in {MAN1, MAN2} && !m.busy
    ensures Process(root, m, p) == (m, [], None)
  {
  }

  // ----- Packets that are duplicated or overheard -----

  /** A daemon, how many MARs it has answered, and how often it has stopped waiting for its new address or taken it
      at once. */
  datatype Post = Post(member: Merger, heard: nat, moves: nat)

  /** The daemons, and all packets that were ever sent: each may reach any daemon any number of times. */
  datatype Field = Field(posts: seq<Post>, air: set<Packet>)

  predicate Relabels(was: Merger, now: Merger, man: Option<Packet>) {
    !now.busy && (was.busy || man.Some?)
  }

  function Overhear(root: Host, s: Post, p: Packet): Post {
    var (m, mars, man) := Process(root, s.member, p);
    Post(m, s.heard + (if man.Some? then 1 else 0), s.moves + if Relabels(s.member, m, man) then 1 else 0)
  }

  /** The packets that the daemon sends when it hears p. */
  function Replies(root: Host, m: Merger, p: Packet): set<Packet> {
    var (_, mars, man) := Process(root, m, p);
    (set q | q in mars) + if man.Some? then {man.value} else {}
  }

  datatype Reception = Reception(at: nat, p: Packet)

  predicate CanHear(f: Field, e: Reception) {
    e.at < |f.posts| && e.p in f.air
  }

  function Hear(root: Host, f: Field, e: Reception): Field
    requires CanHear(f, e)
  {
    var s := f.posts[e.at];
    Field(f.posts[e.at := Overhear(root, s, e.p)], f.air + Replies(root, s.member, e.p))
  }

  predicate CanHappen(root: Host, f: Field, run: seq<Reception>)
    decreases run
  {
    run == [] || (CanHear(f, run[0]) && CanHappen(root, Hear(root, f, run[0]), run[1..]))
  }

  function Happened(root: Host, f: Field, run: seq<Reception>): Field
    requires CanHappen(root, f, run)
    decreases run
  {
    if run == [] then f else Happened(root, Hear(root, f, run[0]), run[1..])
  }

  /** A packet of the merge into network red; MAR2 and MAN2 carry an address with the root's bit. */
  predicate Belongs(red: nat, p: Packet) {
    p.red == red && (p.kind in {MAR2, MAN2} ==> p.src[63])
  }

  /** A daemon is at the default address only while it waits, and it has another address to go back to. */
  predicate Waits(m: Merger) {
    m.node.addr == Default() ==> m.busy && m.aux != Default()
  }

  /** How far a daemon that was as was has come. In the proposer's network nobody answers, and only who waited moves;
      elsewhere a daemon is as it was until it answers, and then waits at its old address until it moves. */
  predicate Course(red: nat, was: Merger, s: Post) {
    && Waits(s.member)
    && (if was.red == red then
          && s.heard == 0 && s.member.red == red
          && (if s.moves == 0 then s.member == was else s.moves == 1 && was.busy && !s.member.busy)
        else if s.heard == 0 then s.member == was && s.moves == 0
        else
          && s.heard == 1 && s.member.red == red
          && (if s.member.busy then s.moves == 0 && s.member.node.addr == was.node.addr else s.moves == 1))
  }

  /** The daemons, that were as ms before the merge, and the packets. */
  predicate OnCourse(red: nat, ms: seq<Merger>, f: Field) {
    && |f.posts| == |ms|
    && (forall i | 0 <= i < |ms| :: Course(red, ms[i], f.posts[i]))
    && (forall p | p in f.air :: Belongs(red, p))
  }

  // ----- New addresses have the root's bit -----

  lemma {:induction false} MezclaHasRoot(root: Host, src: Host, s: nat, mf: nat, a: Host)
    requires IsRoot(root)
    ensures Mezcla(root, src, s, mf, a)[63]
  {
    if mf >= 1 {
      ShiftedAt(false, s, root, AddressWords.Shifted(true, mf - 1, root, a), 63);
    } else {
      ShiftedAt(false, s + 1, root, a, 63);
    }
  }

  lemma {:induction false} SettleHasRoot(root: Host, m: Merger, p: Packet)
    requires IsRoot(root)
    ensures Settle(root, m, p).node.addr[63] && !Settle(root, m, p).busy
    ensures Settle(root, m, p).red == m.red && Settle(root, m, p).aux == m.aux
  {
    MezclaHasRoot(root, p.src, p.mask, m.mf, m.node.addr);
  }

  lemma {:induction false} BuddyHasRoot(src: Host, mask: nat)
    requires src[63]
    ensures BuddyOf(src, mask)[63]
  {
  }

  predicate AllBelong(red: nat, ps: seq<Packet>) {
    forall i | 0 <= i < |ps| :: Belongs(red, ps[i])
  }

  lemma {:induction false} Mar1WalkBelongs(c: Turn, w: Walk, s: seq<Host>)
    requires IsRoot(c.root) && w.mars == []
    ensures AllBelong(c.p.red, Mar1Walk(c, w, s).mars)
  {
    if s != [] {
      var x, e := Mar1Walk(c, w, s[..|s| - 1]), s[|s| - 1];
      Mar1WalkBelongs(c, w, s[..|s| - 1]);
      var next := Mezcla(c.root, c.p.src, c.p.mask, c.mf, x.aux5);
      MezclaHasRoot(c.root, c.p.src, c.p.mask, c.mf, x.aux5);
      TurnBelongs(c, x, e, next);
    }
  }

  lemma {:induction false} TurnBelongs(c: Turn, x: Walk, e: Host, next: Host)
    requires AllBelong(c.p.red, x.mars) && next[63]
    ensures AllBelong(c.p.red, SendDown(c, x, e).mars) && AllBelong(c.p.red, GrantBuddy(c, x, e, next).mars)
  {
  }

  lemma {:induction false} Mar2WalkBelongs(own: Host, addr: Host, p: Packet, w: Walk, s: seq<Host>)
    requires addr[63] && w.mars == []
    ensures AllBelong(p.red, Mar2Walk(own, addr, p, w, s).mars)
  {
    if s != [] {
      Mar2WalkBelongs(own, addr, p, w, s[..|s| - 1]);
    }
  }

  // ----- One reception -----

  /** What an accepted MAR leaves: the daemon waits, or it has taken its address. */
  predicate Took(red: nat, r: Merger, mars: seq<Packet>, man: Packet) {
    && r.red == red && Belongs(red, man) && AllBelong(red, mars)
    && (r.busy <==> mars != [])
    && (!r.busy ==> r.node.addr[63])
  }

  lemma {:induction false} Mar1Takes(root: Host, m: Merger, p: Packet)
    requires IsRoot(root) && p.kind == MAR1
    ensures var (r, mars, man) := HearMar1(root, m, p);
            && Took(p.red, r, mars, man) && r.aux == m.aux
            && (r.busy ==> r.node.addr == m.node.addr)
  {
    var k := Masked(m, p);
    var w0 := Walk([], k.table, k.node.mask, k.node.addr);
    Mar1WalkBelongs(TurnOf(root, m, p), w0, k.table);
    var w := if Mar1Loops(m, p) then Mar1Walk(TurnOf(root, m, p), w0, k.table) else w0;
    var r := k.(node := k.node.(mask := w.mask), table := w.table);
    assert AllBelong(p.red, w.mars);
    SettleHasRoot(root, r, p);
  }

  lemma {:induction false} Mar2Takes(m: Merger, p: Packet)
    requires p.kind == MAR2 && p.src[63]
    ensures var (r, mars, man) := HearMar2(m, p);
            && Took(p.red, r, mars, man) && r.aux == m.aux
            && (r.busy ==> r.node.addr == m.node.addr)
  {
    BuddyHasRoot(p.src, p.mask);
    Mar2WalkBelongs(m.node.addr, BuddyOf(p.src, p.mask), p, Walk([], m.table, p.mask, BuddyOf(p.src, p.mask)), m.table);
  }

  lemma {:induction false} ReceptionKeeps(root: Host, red: nat, was: Merger, s: Post, p: Packet)
    requires IsRoot(root) && Course(red, was, s) && Belongs(red, p)
    ensures Course(red, was, Overhear(root, s, p))
    ensures forall q | q in Replies(root, s.member, p) :: Belongs(red, q)
  {
    var m := s.member;
    GuardsExact(root, m, p);
    AnsweredExactly(root, m, p);
    match p.kind
    case MAR1 => Mar1Takes(root, m, p);
    case MAR2 => Mar2Takes(m, p);
    case MAN1 => SettleHasRoot(root, m, p);
    case MAN2 =>
  }

  lemma {:induction false} HearKeepsCourse(root: Host, red: nat, ms: seq<Merger>, f: Field, e: Reception)
    requires IsRoot(root) && OnCourse(red, ms, f) && CanHear(f, e)
    ensures OnCourse(red, ms, Hear(root, f, e))
  {
    ReceptionKeeps(root, red, ms[e.at], f.posts[e.at], e.p);
  }

  lemma {:induction false} RunKeepsCourse(root: Host, red: nat, ms: seq<Merger>, f: Field, run: seq<Reception>)
    requires IsRoot(root) && OnCourse(red, ms, f) && CanHappen(root, f, run)
    ensures OnCourse(red, ms, Happened(root, f, run))
    decreases run
  {
    if run != [] {
      HearKeepsCourse(root, red, ms, f, run[0]);
      RunKeepsCourse(root, red, ms, Hear(root, f, run[0]), run[1..]);
    }
  }

  function Members(ps: seq<Post>): (r: seq<Merger>)
    ensures |r| == |ps| && forall i | 0 <= i < |ps| :: r[i] == ps[i].member
  {
    if ps == [] then [] else [ps[0].member] + Members(ps[1..])
  }

  /** Before a merge into network red nobody has answered or moved, and only a waiting proposer is at the default
      address. */
  predicate Before(red: nat, f: Field) {
    && (forall i | 0 <= i < |f.posts| :: f.posts[i].heard == 0 && f.posts[i].moves == 0 && Waits(f.posts[i].member))
    && (forall p | p in f.air :: Belongs(red, p))
  }

  /** However often the packets of one merge arrive, and whichever daemons hear them, every daemon answers at most one
      MAR and takes at most one new address. In the proposer's network nobody answers and only a daemon that waited
      changes at all; elsewhere a daemon changes only by answering, and keeps its address until it moves. */
  lemma {:induction false} AtMostOnce(root: Host, red: nat, f: Field, run: seq<Reception>)
    requires IsRoot(root) && Before(red, f) && CanHappen(root, f, run)
    ensures |Happened(root, f, run).posts| == |f.posts|
    ensures forall i | 0 <= i < |f.posts| ::
              var was, r := f.posts[i].member, Happened(root, f, run).posts[i];
              && r.heard <= 1 && r.moves <= 1
              && (was.red == red ==> r.heard == 0 && (was.busy || r.member == was))
              && (was.red != red && r.heard == 0 ==> r.member == was && r.moves == 0)
              && (r.moves == 0 ==> r.member.node.addr == was.node.addr)
              && (r.heard == 1 ==> r.member.red == red && (r.moves == 1 <==> !r.member.busy))
  {
    RunKeepsCourse(root, red, Members(f.posts), f, run);
  }
}
