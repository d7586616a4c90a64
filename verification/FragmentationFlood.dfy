/** How one daemon starts a network of its own (fragmentacion) and how it reacts to FAR and FAN packets
    (process_far, process_fan). Functions on Member specify the methods of Station. */
module FragmentationFlood {
  import opened Wrappers
  import opened Hypercube
  import opened Allocation
  import opened Relabelling

  /** The globals that the flood reads and writes; the neighbour table holds addresses. */
  datatype Member = Member(
    node: Node,
    table: seq<Host>,     // neigh_table
    red: nat,             // red_numero
    busy: bool)           // flag_fragmentacion

  /** A FAR packet: the sender's old and new address, the shift and the new network number. */
  datatype Far = Far(src: Host, prim: Host, mask: nat, red: nat)

  /** Copies of one packet, one for each destination. */
  datatype Sends<M> = Sends(msg: M, dsts: seq<Host>)

  predicate ForwardsTo(own: Host, far: Far, e: Host) {
    e != far.prim && e != own && e != far.src
  }

  /** The neighbours that process_far forwards to, in table order. */
  function Targets(own: Host, far: Far, s: seq<Host>): seq<Host> {
    if s == [] then []
    else (if ForwardsTo(own, far, s[0]) then [s[0]] else []) + Targets(own, far, s[1..])
  }

  /** The neighbours that process_far keeps. */
  function Kept(own: Host, far: Far, s: seq<Host>): seq<Host> {
    if s == [] then []
    else (if !ForwardsTo(own, far, s[0]) && s[0] != far.src then [s[0]] else []) + Kept(own, far, s[1..])
  }

  /** fragmentacion: shift by the initial mask, tell every neighbour, forget them all. */
  function Started(m: Member, red: nat): (Member, Sends<Far>)
    requires NodeAbove(m.node.maskIni, m.node)
  {
    var n := ToNode(Detach(m.node.maskIni), m.node);
    (Member(n, [], red, true), Sends(Far(m.node.addr, n.addr, m.node.maskIni, red), m.table))
  }

  /** process_far: shift by the mask in the packet and forward it to everyone below. */
  function Heard(m: Member, far: Far): (Member, Sends<Far>)
    requires NodeAbove(far.mask, m.node)
  {
    var n := ToNode(Detach(far.mask), m.node);
    var all := m.table + [far.prim];
    var loop := m.node.mask != m.node.maskIni;
    var dsts := if loop then Targets(n.addr, far, all) else [];
    (Member(n, if loop then Kept(n.addr, far, all) else all, far.red, dsts != []),
     Sends(Far(m.node.addr, n.addr, far.mask, far.red), dsts))
  }

  /** Heard, from what the forwarding loop found and left. */
  lemma {:induction false} HeardParts(m: Member, far: Far, n: Node, table: seq<Host>, dsts: seq<Host>)
    requires NodeAbove(far.mask, m.node) && n == ToNode(Detach(far.mask), m.node)
    requires m.node.mask != m.node.maskIni ==>
               dsts == Targets(n.addr, far, m.table + [far.prim]) && table == Kept(n.addr, far, m.table + [far.prim])
    requires m.node.mask == m.node.maskIni ==> dsts == [] && table == m.table + [far.prim]
    ensures Heard(m, far) == (Member(n, table, far.red, dsts != []), Sends(Far(m.node.addr, n.addr, far.mask, far.red), dsts))
  {
  }

  /** The neighbour table without its first entry for this address. */
  function Deleted(s: seq<Host>, a: Host): (r: seq<Host>)
    ensures a !in s ==> r == s
  {
    if s == [] then [] else if s[0] == a then s[1..] else [s[0]] + Deleted(s[1..], a)
  }

  lemma {:induction false} DeletedMiddle(kept: seq<Host>, a: Host, rest: seq<Host>)
    requires a !in kept
    ensures Deleted(kept + [a] + rest, a) == kept + rest
  {
    if kept == [] {
      assert (kept + [a] + rest)[1..] == kept + rest;
    } else {
      DeletedMiddle(kept[1..], a, rest);
      assert (kept + [a] + rest)[1..] == kept[1..] + [a] + rest;
      assert [kept[0]] + (kept[1..] + rest) == kept + rest;
    }
  }

  lemma {:induction false} TargetsStep(own: Host, far: Far, s: seq<Host>, i: nat)
    requires i < |s|
    ensures Targets(own, far, s[..i + 1]) ==
            Targets(own, far, s[..i]) + if ForwardsTo(own, far, s[i]) then [s[i]] else []
    ensures Kept(own, far, s[..i + 1]) ==
            Kept(own, far, s[..i]) + if !ForwardsTo(own, far, s[i]) && s[i] != far.src then [s[i]] else []
  {
    if i > 0 {
      TargetsStep(own, far, s[1..], i - 1);
      assert s[..i + 1][1..] == s[1..][..i] && s[..i][1..] == s[1..][..i - 1];
    } else {
      assert s[..1] == [s[0]] && s[..1][1..] == [];
    }
  }

  lemma {:induction false} KeptMembers(own: Host, far: Far, s: seq<Host>)
    ensures forall e | e in Kept(own, far, s) :: e in s && !ForwardsTo(own, far, e) && e != far.src
  {
    if s != [] {
      KeptMembers(own, far, s[1..]);
    }
  }

  /** What one turn of the forwarding loop leaves in the table. */
  lemma {:induction false} ForwardStep(own: Host, far: Far, walk: seq<Host>, i: nat)
    requires i < |walk|
    ensures var table := Kept(own, far, walk[..i]) + walk[i..];
            var next := Kept(own, far, walk[..i + 1]) + walk[i + 1..];
            (if ForwardsTo(own, far, walk[i]) || walk[i] == far.src then Deleted(table, walk[i]) else table) == next
    ensures Targets(own, far, walk[..i + 1]) ==
            Targets(own, far, walk[..i]) + if ForwardsTo(own, far, walk[i]) then [walk[i]] else []
  {
    var kept, e := Kept(own, far, walk[..i]), walk[i];
    TargetsStep(own, far, walk, i);
    KeptMembers(own, far, walk[..i]);
    assert walk[i..] == [e] + walk[i + 1..];
    Appended(kept, e, walk[i + 1..]);
    if ForwardsTo(own, far, e) || e == far.src {
      DeletedMiddle(kept, e, walk[i + 1..]);
    }
  }

  lemma {:induction false} Appended(a: seq<Host>, e: Host, b: seq<Host>)
    ensures a + ([e] + b) == a + [e] + b && (a + []) + b == a + b
  {
  }

  /** The part of a daemon that takes part in a fragmentation, without secondary address. */
  class Station {
    var primAddr: Host
    var primMask: nat
    var primMaskInicial: nat
    var rcvd: seq<Space>
    var rcvdOffered: Option<Host>
    var neighTable: seq<Host>
    var redNumero: nat
    var flagFragmentacion: bool
    var neighborToRoot: Host

    ghost function State(): Member
      reads this
    {
      Member(Node(primAddr, primMask, primMaskInicial, rcvd, rcvdOffered, None),
             neighTable, redNumero, flagFragmentacion)
    }

    /** delete_neighbor: unlink the first entry with this address. */
    method DeleteNeighbor(a: Host)
      modifies `neighTable
      ensures neighTable == Deleted(old(neighTable), a)
    {
      var i := 0;
      while i < |neighTable|
        invariant 0 <= i <= |neighTable| && neighTable == old(neighTable)
        invariant a !in neighTable[..i]
      {
        if neighTable[i] == a {
          DeletedMiddle(neighTable[..i], a, neighTable[i + 1..]);
          assert neighTable == neighTable[..i] + [a] + neighTable[i + 1..];
          neighTable := neighTable[..i] + neighTable[i + 1..];
          return;
        }
        i := i + 1;
      }
    }

    /** The loop over the recovered entries in fragmentacion and process_far. */
    method ShiftRecovered(m0: nat)
      requires forall e | e in rcvd :: m0 <= e.mask
      modifies `rcvd
      ensures rcvd == ToSpaces(Detach(m0), old(rcvd))
    {
      for i := 0 to |rcvd|
        invariant |rcvd| == |old(rcvd)|
        invariant forall j | 0 <= j < |rcvd| ::
          rcvd[j] == if j < i then ToSpace(Detach(m0), old(rcvd)[j]) else old(rcvd)[j]
      {
        assert rcvd[i] in old(rcvd);
        rcvd := rcvd[i := Space(To(Detach(m0), rcvd[i].addr), rcvd[i].mask - m0)];
      }
    }

    /** fragmentacion: this daemon lost its parent and becomes the root of a network of its own. */
    method Fragmentacion(mac: nat) returns (fars: Sends<Far>)
      requires NodeAbove(primMaskInicial, State().node)
      modifies this
      ensures (State(), fars) == Started(old(State()), mac)
      ensures neighTable == [] && fars.dsts == old(neighTable)
      ensures flagFragmentacion && redNumero == mac && rcvdOffered == old(rcvdOffered)
    {
      flagFragmentacion := true;
      redNumero := mac;
      var aux2 := primAddr;
      primAddr := To(Detach(primMaskInicial), primAddr);
      primMask := primMask - primMaskInicial;
      ShiftRecovered(primMaskInicial);
      var dsts := TellAll();
      fars := Sends(Far(aux2, primAddr, primMaskInicial, redNumero), dsts);
      primMaskInicial := 0;
    }

    /** The loop of fragmentacion over the neighbour table. */
    method TellAll() returns (dsts: seq<Host>)
      modifies `neighTable
      ensures dsts == old(neighTable) && neighTable == []
    {
      var walk := neighTable;
      dsts := [];
      for i := 0 to |walk|
        invariant neighTable == walk[i..] && dsts == walk[..i]
      {
        dsts := dsts + [walk[i]];
        assert walk[i..][0] == walk[i];
        DeleteNeighbor(walk[i]);
      }
    }

    /** process_far. */
    method ProcessFar(far: Far) returns (fan: Host, fars: Sends<Far>)
      requires NodeAbove(far.mask, State().node)
      modifies this
      ensures (State(), fars) == Heard(old(State()), far)
      ensures fan == far.prim && neighborToRoot == far.prim
      ensures redNumero == far.red && rcvdOffered == old(rcvdOffered) && flagFragmentacion == (fars.dsts != [])
    {
      ghost var was, n := State(), ToNode(Detach(far.mask), State().node);
      assert far.mask <= primMaskInicial <= primMask;
      var flag := false;
      var auxPrimMaskInicial, aux3 := primMaskInicial, primAddr;
      fan := far.prim;
      TakeFar(far);
      var dsts := [];
      if primMask != auxPrimMaskInicial {
        dsts := ForwardFar(far);
        flag := dsts != [];
      }
      fars := Sends(Far(aux3, primAddr, primMaskInicial, redNumero), dsts);
      primMask := primMask - far.mask;
      primMaskInicial := auxPrimMaskInicial - far.mask;
      if !flag {
        flagFragmentacion := false;
      }
      assert State().node == n;
      HeardParts(was, far, n, neighTable, dsts);
    }

    /** The first assignments of process_far. */
    method TakeFar(far: Far)
      requires forall e | e in rcvd :: far.mask <= e.mask
      modifies this
      ensures flagFragmentacion && primMaskInicial == far.mask && primMask == old(primMask)
      ensures neighTable == old(neighTable) + [far.prim] && neighborToRoot == far.prim && redNumero == far.red
      ensures primAddr == To(Detach(far.mask), old(primAddr)) && rcvd == ToSpaces(Detach(far.mask), old(rcvd))
      ensures rcvdOffered == old(rcvdOffered)
    {
      flagFragmentacion := true;
      primMaskInicial := far.mask;
      neighTable := neighTable + [far.prim];
      neighborToRoot := far.prim;
      redNumero := far.red;
      primAddr := To(Detach(far.mask), primAddr);
      ShiftRecovered(far.mask);
    }

    /** The loop of process_far over the neighbour table. */
    method ForwardFar(far: Far) returns (dsts: seq<Host>)
      requires neighborToRoot == far.prim
      modifies `neighTable
      ensures dsts == Targets(primAddr, far, old(neighTable))
      ensures neighTable == Kept(primAddr, far, old(neighTable))
    {
      var walk := neighTable;
      dsts := [];
      for i := 0 to |walk|
        invariant dsts == Targets(primAddr, far, walk[..i])
        invariant neighTable == Kept(primAddr, far, walk[..i]) + walk[i..]
      {
        ForwardStep(primAddr, far, walk, i);
        if neighborToRoot != walk[i] && primAddr != walk[i] && far.src != walk[i] {
          dsts := dsts + [walk[i]];
          DeleteNeighbor(walk[i]);
        } else if far.src == walk[i] {
          DeleteNeighbor(walk[i]);
        }
      }
      assert walk[..|walk|] == walk;
    }

    /** process_fan. */
    method ProcessFan()
      modifies `flagFragmentacion
      ensures State() == old(State()).(busy := false)
    {
      if flagFragmentacion {
        flagFragmentacion := false;
      }
    }
  }
}
