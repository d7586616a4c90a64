/** Handing out address space (hcb_address.c), recovering it (heart_beat.c) and holding a
    secondary space (secondary.c), for one daemon. Functions on Node specify the methods of Daemon. */
module Allocation {
  import opened Wrappers
  import opened Hypercube
  import opened Metric

  /** The globals of one daemon that decide which space it holds.
      The masks are unsigned chars, hence the arithmetic modulo 256. */
  datatype Node = Node(
    addr: Host,               // prim_addr
    mask: nat,                // prim_mask
    maskIni: nat,             // prim_mask_inicial
    rcvd: seq<Space>,         // rcvd_addr
    offered: Option<Host>,    // rcvd_offered
    sec: Option<Space>)       // sec_addr, sec_mask when sec_addr_flag is set

  function NewNode(s: Space): Node {
    Node(s.addr, s.mask, s.mask, [], None, None)
  }

  function Own(n: Node): Space {
    Space(n.addr, n.mask)
  }

  function Init(n: Node): Space {
    Space(n.addr, n.maskIni)
  }

  function SecOf(n: Node): seq<Space> {
    if n.sec.Some? then [n.sec.value] else []
  }

  /** Position of the first entry of the recovered list with this address, or its length. */
  function IndexOf(s: seq<Space>, a: Host): (i: nat)
    ensures i <= |s|
    ensures forall j | 0 <= j < i :: s[j].addr != a
    ensures i < |s| ==> s[i].addr == a
  {
    if s == [] || s[0].addr == a then 0 else 1 + IndexOf(s[1..], a)
  }

  predicate Listed(s: seq<Space>, a: Host) {
    IndexOf(s, a) < |s|
  }

  /** The recovered list without its first entry for this address. */
  function Unlist(s: seq<Space>, a: Host): seq<Space> {
    if Listed(s, a) then s[..IndexOf(s, a)] + s[IndexOf(s, a) + 1..] else s
  }

  /** Answer to a PAR: the last recovered space if none was ever offered, else the next buddy. */
  function PapOffer(n: Node): (Node, Option<Space>) {
    if n.rcvd != [] && n.offered == None then
      var last := n.rcvd[|n.rcvd| - 1];
      (n.(offered := Some(last.addr)), Some(last))
    else if n.mask >= 64 then (n, None)
    else (n, Some(Space(Flip(n.addr, n.mask), n.mask + 1)))
  }

  /** Reaction to a PAN for the chosen address. */
  function PancCommit(n: Node, chosen: Host): Node {
    if n.offered != Some(chosen) then n.(mask := (n.mask + 1) % 256)
    else n.(rcvd := Unlist(n.rcvd, chosen))
  }

  /** Reaction to a SAN: the daemon takes o as its own secondary space. */
  function SanAccept(n: Node, o: Space): Node {
    n.(sec := Some(o),
       mask := if n.mask < o.mask && Dist(o.addr, n.addr) == 1 then o.mask else n.mask,
       rcvd := Unlist(n.rcvd, o.addr))
  }

  /** Giving the secondary space up: roll the mask back, or list the space as recovered. */
  function SecRelease(n: Node): Node {
    if n.sec == None then n
    else if n.mask == n.sec.value.mask then n.(sec := None, mask := (n.mask - 1) % 256)
    else n.(sec := None, rcvd := n.rcvd + [n.sec.value])
  }

  /** check_succesor, for addresses that differ in at most one 16-bit word: the first differing bit d
      is zero here, and every later bit of its word is zero in both. */
  predicate SuccessorAt(own: Host, nb: Host, d: nat) {
    && d < 64
    && !own[d] && nb[d]
    && (forall i | 0 <= i < 64 && i / 16 != d / 16 :: own[i] == nb[i])
    && (forall i | 16 * (d / 16) <= i < d :: own[i] == nb[i])
    && (forall i | d < i < 16 * (d / 16) + 16 :: !own[i] && !nb[i])
  }

  predicate Successor(own: Host, nb: Host) {
    exists d | 0 <= d < 64 :: SuccessorAt(own, nb, d)
  }

  /** Only a neighbour at distance one is ever taken for a successor. */
  lemma {:induction false} SuccessorIsAdjacent(own: Host, nb: Host) returns (k: nat)
    requires Successor(own, nb)
    ensures k < 64 && nb == Flip(own, k) && Dist(own, nb) == 1
    ensures forall i | k <= i < 16 * (k / 16) + 16 :: !own[i]
  {
    k :| 0 <= k < 64 && SuccessorAt(own, nb, k);
    var x := Flip(own, k);
    forall i | 0 <= i < 64
      ensures nb[i] == x[i]
    {
    }
    DistFlip(own, k);
  }

  /** What check_neighbors adds to the recovered list when it unlinks an entry. */
  function Regain(own: Host, e: Space): seq<Space> {
    if Successor(own, e.addr) then [e] else []
  }

  /** At distance one, check_succesor tells exactly: the differing bit is zero here and so is the
      rest of its word. */
  lemma {:induction false} SuccessorExact(own: Host, k: nat)
    requires k < 64
    ensures Successor(own, Flip(own, k)) <==>
            !own[k] && forall i | k < i < 16 * (k / 16) + 16 :: !own[i]
  {
    var nb := Flip(own, k);
    if Successor(own, nb) {
      var d :| 0 <= d < 64 && SuccessorAt(own, nb, d);
      assert d == k;
    }
    if !own[k] && forall i | k < i < 16 * (k / 16) + 16 :: !own[i] {
      assert SuccessorAt(own, nb, k);
    }
  }

  /** For a daemon whose address is zero below its initial mask, a child at bit k is recognised as a
      successor exactly when k is not in the last word, where the root's bit gets in the way. */
  lemma {:induction false} ChildIsSuccessor(own: Host, maskIni: nat, k: nat)
    requires Shaped(own, maskIni) && maskIni <= k < 63
    ensures Successor(own, Flip(own, k)) <==> k < 48
  {
    SuccessorExact(own, k);
    if k >= 48 {
      assert own[63];
    }
  }

  /** For a neighbour that is not a child (bit k lies inside the initial mask) of a daemon other than
      the root, check_succesor answers wrongly exactly when every bit from k to the end of k's word is
      zero; with an initial mask of at most 16 that never happens. */
  lemma {:induction false} NonChildIsSuccessor(own: Host, maskIni: nat, k: nat)
    requires Shaped(own, maskIni) && k < maskIni <= 63 && own[maskIni - 1]
    ensures Successor(own, Flip(own, k)) <==> forall i | k <= i < 16 * (k / 16) + 16 :: !own[i]
    ensures maskIni <= 16 ==> !Successor(own, Flip(own, k))
  {
    SuccessorExact(own, k);
    if maskIni <= 16 {
      assert k / 16 == 0;
      assert k <= maskIni - 1 < 16;
    }
  }

  /** A heartbeat: the address it is for, the sender's primary address, its secondary address if it has one, the
      mask that belongs to addr, and the sender's initial mask. */
  datatype Beat = Beat(addr: Host, src: Host, sec: Option<Host>, mask: nat, maskIni: nat)

  /** An entry of the neighbour table; the masks are the neighbour's, as its heartbeats told them. */
  datatype Neighbour = Neighbour(addr: Host, mask: nat, maskIni: nat, count: int)

  datatype Reaction = Ignore | Listen | Seek

  /** How process_hb takes a heartbeat: a neighbour of one of the daemon's addresses is listed (anybody is, while
      the daemon has not settled on a primary address), and a daemon without secondary address looks for a space
      next to any other one. */
  function Reacts(own: Host, settled: bool, sec: Option<Host>, b: Beat): Reaction {
    if b.addr == own || Some(b.addr) == sec then Ignore
    else if Dist(own, b.addr) == 1 || !settled then Listen
    else if sec.Some? then if Dist(sec.value, b.addr) == 1 then Listen else Ignore
    else if Dist(own, b.src) != 1 && (b.sec == None || Dist(own, b.sec.value) != 1) then Seek
    else Ignore
  }

  function SecAddr(n: Node): Option<Host> {
    if n.sec.Some? then Some(n.sec.value.addr) else None
  }

  /** The prefix of Unlist under any measure. */
  lemma {:induction false} UnlistSum(v: Measure, s: seq<Space>, a: Host)
    ensures Listed(s, a) ==> Sum(v, Unlist(s, a)) + Value(v, s[IndexOf(s, a)]) == Sum(v, s)
    ensures !Listed(s, a) ==> Unlist(s, a) == s
  {
    if Listed(s, a) {
      SumRemove(v, s, IndexOf(s, a));
    }
  }

  lemma {:induction false} ListedIff(s: seq<Space>, a: Host)
    ensures Listed(s, a) <==> exists e | e in s :: e.addr == a
  {
    if e :| e in s && e.addr == a {
      var j :| 0 <= j < |s| && s[j] == e;
    }
    if Listed(s, a) {
      assert s[IndexOf(s, a)] in s;
    }
  }

  lemma {:induction false} ListedGrows(s: seq<Space>, e: Space)
    ensures forall a | Listed(s, a) :: Listed(s + [e], a)
  {
    forall a | Listed(s, a)
      ensures Listed(s + [e], a)
    {
      ListedIff(s, a);
      var f :| f in s && f.addr == a;
      assert f in s + [e];
      ListedIff(s + [e], a);
    }
  }

  /** Only the first entry with the address is taken out, and the others keep their order. */
  lemma {:induction false} UnlistsFirst(a: seq<Space>, e: Space, b: seq<Space>)
    requires forall x | x in a :: x.addr != e.addr
    ensures Unlist(a + [e] + b, e.addr) == a + b && (a + [e] + b)[|a|] == e
  {
    var s := a + [e] + b;
    forall j | 0 <= j < |a|
      ensures s[j].addr != e.addr
    {
      assert a[j] in a;
    }
    IndexOfUnique(s, e.addr, |a|);
  }

  /** One ANTop daemon. The linked lists rcvd_addr and neigh_table are the fields rcvd and neighTable. */
  class Daemon {
    var primAddr: Host
    var primMask: nat
    var primMaskInicial: nat
    var rcvd: seq<Space>
    var rcvdOffered: Option<Host>
    var secAddr: Host
    var secMask: nat
    var secAddrFlag: bool
    var flagAddrAvai: bool
    var linkedTo: Option<Host>          // addr_node_secondary_link
    var neighTable: seq<Neighbour>

    ghost function State(): Node
      reads this
    {
      Node(primAddr, primMask, primMaskInicial, rcvd, rcvdOffered,
           if secAddrFlag then Some(Space(secAddr, secMask)) else None)
    }

    constructor ()
      ensures State() == NewNode(Space(ROOT, 0))
      ensures flagAddrAvai && linkedTo == None && neighTable == []
    {
      primAddr, primMask, primMaskInicial := ROOT, 0, 0;
      rcvd, rcvdOffered := [], None;
      secAddr, secMask, secAddrFlag := Zeros(64), 0, false;
      flagAddrAvai, linkedTo, neighTable := true, None, [];
    }

    /** send_pap: propose a space to a newcomer. */
    method SendPap() returns (offer: Option<Space>)
      modifies `rcvdOffered
      ensures (State(), offer) == PapOffer(old(State()))
      ensures rcvd != [] && old(rcvdOffered) == None ==>
                offer == Some(rcvd[|rcvd| - 1]) && rcvdOffered == Some(rcvd[|rcvd| - 1].addr)
      ensures rcvd == [] || old(rcvdOffered).Some? ==>
                rcvdOffered == old(rcvdOffered) && (offer == None <==> primMask >= DIM)
    {
      if rcvd != [] && rcvdOffered == None {
        var i := 0;
        while i + 1 != |rcvd|
          invariant i < |rcvd|
        {
          i := i + 1;
        }
        offer := Some(rcvd[i]);
        rcvdOffered := Some(rcvd[i].addr);
      } else if primMask >= DIM {
        offer := None;
      } else {
        offer := Some(Space(primAddr[primMask := !primAddr[primMask]], primMask + 1));
      }
    }

    /** del_rcvd_addr_table: unlink the first recovered entry with this address. */
    method DelRcvdAddrTable(addr: Host) returns (found: bool)
      modifies `rcvd
      ensures rcvd == Unlist(old(rcvd), addr) && found == Listed(old(rcvd), addr)
    {
      var i := 0;
      while i < |rcvd|
        invariant 0 <= i <= |rcvd|
        invariant rcvd == old(rcvd)
        invariant forall j | 0 <= j < i :: rcvd[j].addr != addr
      {
        if rcvd[i].addr == addr {
          IndexOfUnique(rcvd, addr, i);
          rcvd := rcvd[..i] + rcvd[i + 1..];
          return true;
        }
        i := i + 1;
      }
      return false;
    }

    /** send_panc: the newcomer chose this address. */
    method SendPanc(chosen: Host)
      modifies `primMask, `rcvd
      ensures State() == PancCommit(old(State()), chosen)
      ensures if rcvdOffered == Some(chosen) then primMask == old(primMask) && rcvd == Unlist(old(rcvd), chosen)
              else primMask == (old(primMask) + 1) % 256 && rcvd == old(rcvd)
    {
      if rcvdOffered == None || (rcvdOffered != None && chosen != rcvdOffered.value) {
        primMask := (primMask + 1) % 256;
      } else if chosen == rcvdOffered.value {
        var _ := DelRcvdAddrTable(rcvdOffered.value);
      }
    }

    /** recover_addr_space: append a space to the recovered list. */
    method RecoverAddrSpace(neigh: Space)
      modifies `rcvd
      ensures rcvd == old(rcvd) + [neigh]
    {
      rcvd := rcvd + [neigh];
    }

    /** send_sap1: propose to a neighbour a link through a secondary space of this daemon. */
    method SendSap1(sec: Space) returns (sap: Option<Space>)
      modifies `flagAddrAvai
      ensures sap == (if old(flagAddrAvai) && Dist(sec.addr, primAddr) == 1 then Some(sec) else None)
      ensures flagAddrAvai == (old(flagAddrAvai) && sap == None)
    {
      if !flagAddrAvai || Dist(sec.addr, primAddr) != 1 {
        return None;
      }
      flagAddrAvai := false;
      return Some(sec);
    }

    /** chk_sec_addr1: look for a space of this daemon next to the given neighbour. */
    method ChkSecAddr1(neigh: Host) returns (sap: Option<Space>)
      modifies `flagAddrAvai
      ensures sap == SapFor(old(State()), old(flagAddrAvai), neigh)
      ensures flagAddrAvai == (old(flagAddrAvai) && sap == None)
      ensures old(flagAddrAvai) && !secAddrFlag && NearNone(rcvd, neigh) ==>
                LeastBetween(primAddr, neigh, primMask, sap)
    {
      sap := None;
      if !secAddrFlag {
        ProposesLeast(State(), neigh);
        var i := 0;
        while i < |rcvd|
          invariant 0 <= i <= |rcvd|
          invariant FirstNear(rcvd, neigh) == i + FirstNear(rcvd[i..], neigh)
        {
          if Dist(rcvd[i].addr, neigh) == 1 {
            sap := SendSap1(rcvd[i]);
            return;
          }
          i := i + 1;
        }
        if primMask >= DIM {
          return;
        }
        sap := ProposeBuddy(neigh);
      }
    }

    /** The second half of chk_sec_addr1: a buddy next to the neighbour. */
    method ProposeBuddy(neigh: Host) returns (sap: Option<Space>)
      requires primMask < DIM
      modifies `flagAddrAvai
      ensures sap == SapBit(State(), old(flagAddrAvai), neigh, primMask)
      ensures flagAddrAvai == (old(flagAddrAvai) && sap == None)
    {
      sap := None;
      var j := primMask;
      var avai := flagAddrAvai;
      while j < DIM
        invariant primMask <= j <= DIM
        invariant sap == None ==> flagAddrAvai == avai
        invariant sap != None ==> !flagAddrAvai && avai
        invariant sap == None ==> SapBit(State(), avai, neigh, primMask) == SapBit(State(), avai, neigh, j)
        invariant sap != None ==> sap == SapBit(State(), avai, neigh, primMask)
      {
        if Dist(primAddr[j := true], neigh) == 1 {
          var r := SendSap1(Space(primAddr[j := true], j + 1));
          if r != None {
            sap := r;
          }
        }
        j := j + 1;
      }
    }

    /** process_san1: the neighbour accepted; this daemon now also holds the secondary space, and lists the
        sender, with the mask in the packet, without looking whether it is listed already. */
    method ProcessSan1(addr: Host, mask: nat, from: Host, theirs: nat)
      modifies this
      ensures State() == SanAccept(old(State()), Space(addr, mask))
      ensures flagAddrAvai && linkedTo == Some(from)
      ensures secAddrFlag && secAddr == addr && secMask == mask && rcvd == Unlist(old(rcvd), addr)
      ensures primMask == if old(primMask) < mask && Dist(addr, primAddr) == 1 then mask else old(primMask)
      ensures neighTable == old(neighTable) + [Neighbour(from, theirs, theirs, 0)]
    {
      TakeSecondary(addr, mask, Dist(addr, primAddr) == 1);
      var _ := DelRcvdAddrTable(addr);
      neighTable := neighTable + [Neighbour(from, theirs, theirs, 0)];
      linkedTo := Some(from);
    }

    /** The assignments at the start of process_san1. */
    method TakeSecondary(addr: Host, mask: nat, near: bool)
      modifies `secAddrFlag, `flagAddrAvai, `secAddr, `secMask, `primMask
      ensures State() == old(State()).(sec := Some(Space(addr, mask)),
                                       mask := if old(primMask) < mask && near then mask else old(primMask))
      ensures flagAddrAvai
    {
      secAddrFlag, flagAddrAvai := true, true;
      secAddr, secMask := addr, mask;
      if primMask < mask && near {
        primMask := mask;
      }
    }

    /** check_neigh_of_secondary_address: release the secondary space once its link is gone. */
    method CheckNeighOfSecondaryAddress()
      modifies this
      ensures neighTable == old(neighTable) && flagAddrAvai == old(flagAddrAvai)
      ensures State() ==
              (if old(secAddrFlag) &&
                  !(Dist(old(secAddr), old(primAddr)) == 1 &&
                    exists i | 0 <= i < |neighTable| ::
                      Some(neighTable[i].addr) == old(linkedTo) && Dist(old(secAddr), neighTable[i].addr) == 1)
               then SecRelease(old(State())) else old(State()))
    {
      if secAddrFlag {
        var flag := false;
        if Dist(secAddr, primAddr) == 1 {
          flag := LinkListed();
        }
        if !flag {
          Release();
        }
      }
    }

    /** Whether the neighbour at the other end of the secondary link is listed. */
    method LinkListed() returns (flag: bool)
      ensures flag <==> exists i | 0 <= i < |neighTable| ::
                          Some(neighTable[i].addr) == linkedTo && Dist(secAddr, neighTable[i].addr) == 1
    {
      flag := false;
      for i := 0 to |neighTable|
        invariant flag <==> exists k | 0 <= k < i ::
                              Some(neighTable[k].addr) == linkedTo && Dist(secAddr, neighTable[k].addr) == 1
      {
        if Some(neighTable[i].addr) == linkedTo && Dist(secAddr, neighTable[i].addr) == 1 {
          flag := true;
        }
      }
    }

    /** Both ways of giving the secondary space back. */
    method Release()
      requires secAddrFlag
      modifies this
      ensures neighTable == old(neighTable) && flagAddrAvai == old(flagAddrAvai)
      ensures State() == SecRelease(old(State())) && !secAddrFlag && linkedTo == None
      ensures if old(primMask) == old(secMask) then primMask == (old(primMask) - 1) % 256 && rcvd == old(rcvd)
              else primMask == old(primMask) && rcvd == old(rcvd) + [Space(old(secAddr), old(secMask))]
    {
      var sec := Space(secAddr, secMask);
      secAddrFlag, secAddr, linkedTo := false, Zeros(64), None;
      if primMask == secMask {
        primMask := (primMask - 1) % 256;
        secMask := 0;
      } else {
        secMask := 0;
        RecoverAddrSpace(sec);
      }
    }
  }

  /** The selection in get_prim_addr: of the offers received, the first one with the largest space. */
  method ChooseOffer(paps: seq<Space>) returns (maskIndex: nat)
    requires paps != []
    ensures maskIndex < |paps|
    ensures forall k | 0 <= k < |paps| :: paps[maskIndex].mask <= paps[k].mask
    ensures forall k | 0 <= k < maskIndex :: paps[maskIndex].mask < paps[k].mask
  {
    maskIndex := 0;
    var maskMin := paps[0].mask;
    for k := 1 to |paps|
      invariant maskIndex < k && maskMin == paps[maskIndex].mask
      invariant forall j | 0 <= j < k :: maskMin <= paps[j].mask
      invariant forall j | 0 <= j < maskIndex :: maskMin < paps[j].mask
    {
      if paps[k].mask < maskMin {
        maskMin := paps[k].mask;
        maskIndex := k;
      }
    }
  }

  lemma {:induction false} IndexOfUnique(s: seq<Space>, a: Host, i: nat)
    requires i < |s| && s[i].addr == a && forall j | 0 <= j < i :: s[j].addr != a
    ensures IndexOf(s, a) == i
  {
    if s[0].addr != a {
      IndexOfUnique(s[1..], a, i - 1);
    }
  }

  /** Index of the first recovered space next to the neighbour, or the length of the list. */
  function FirstNear(s: seq<Space>, neigh: Host): (i: nat)
    ensures i <= |s|
    ensures forall j | 0 <= j < i :: Dist(s[j].addr, neigh) != 1
    ensures i < |s| ==> Dist(s[i].addr, neigh) == 1
  {
    if s == [] then 0
    else if Dist(s[0].addr, neigh) == 1 then 0
    else
      var i := FirstNear(s[1..], neigh);
      assert forall j | 1 <= j < 1 + i :: s[j] == s[1..][j - 1];
      1 + i
  }

  /** The first free bit from j on whose buddy lies next to the neighbour. */
  function SapBit(n: Node, avai: bool, neigh: Host, j: nat): Option<Space>
    decreases 64 - j
  {
    if j >= 64 then None
    else if avai && Dist(n.addr[j := true], neigh) == 1 && Dist(n.addr[j := true], n.addr) == 1
    then Some(Space(n.addr[j := true], j + 1))
    else SapBit(n, avai, neigh, j + 1)
  }

  /** The secondary space a daemon proposes when it hears from a neighbour that is not adjacent. */
  function SapFor(n: Node, avai: bool, neigh: Host): Option<Space> {
    if n.sec.Some? then None
    else
      var i := FirstNear(n.rcvd, neigh);
      if i < |n.rcvd| then
        if avai && Dist(n.rcvd[i].addr, n.addr) == 1 then Some(n.rcvd[i]) else None
      else if n.mask >= 64 then None
      else SapBit(n, avai, neigh, n.mask)
  }

  // ----- What is offered to a newcomer -----

  /** A daemon that never offered a recovered space offers the one that was recovered last, and remembers it. */
  lemma {:induction false} OffersLastRecovered(n: Node, s: seq<Space>, e: Space)
    requires n.rcvd == s + [e] && n.offered == None
    ensures PapOffer(n) == (n.(offered := Some(e.addr)), Some(e))
  {
  }

  /** Otherwise it offers the next buddy while it has one, and remembers nothing. */
  lemma {:induction false} OffersNextBuddy(n: Node)
    requires n.rcvd == [] || n.offered.Some?
    ensures PapOffer(n).0 == n
    ensures PapOffer(n).1 == None <==> n.mask >= 64
    ensures n.mask < 64 ==>
              var o := PapOffer(n).1.value;
              o.mask == n.mask + 1 && o.addr[n.mask] != n.addr[n.mask] && Dist(o.addr, n.addr) == 1
  {
    if n.mask < 64 {
      DistFlip(n.addr, n.mask);
    }
  }

  // ----- What is proposed to a neighbour -----

  /** Setting bit j gives an address next to the neighbour and next to the daemon itself. */
  predicate Between(own: Host, neigh: Host, j: nat)
    requires j < 64
  {
    Dist(own[j := true], neigh) == 1 && Dist(own[j := true], own) == 1
  }

  /** r is the buddy of the least bit from k on that lies between the two. */
  predicate LeastBetween(own: Host, neigh: Host, k: nat, r: Option<Space>) {
    match r
    case None => forall j | k <= j < 64 :: !Between(own, neigh, j)
    case Some(o) =>
      && k < o.mask <= 64 && o.addr == own[o.mask - 1 := true] && Between(own, neigh, o.mask - 1)
      && forall j | k <= j < o.mask - 1 :: !Between(own, neigh, j)
  }

  lemma {:induction false} SapBitStep(n: Node, neigh: Host, k: nat)
    requires k < 64
    ensures SapBit(n, true, neigh, k) ==
            if Between(n.addr, neigh, k) then Some(Space(n.addr[k := true], k + 1)) else SapBit(n, true, neigh, k + 1)
  {
  }

  lemma {:induction false} LeastStep(own: Host, neigh: Host, k: nat, r: Option<Space>)
    requires k < 64 && LeastBetween(own, neigh, k + 1, r) && !Between(own, neigh, k)
    ensures LeastBetween(own, neigh, k, r)
  {
  }

  lemma {:induction false} FirstBetween(n: Node, neigh: Host, k: nat)
    requires k <= 64
    ensures LeastBetween(n.addr, neigh, k, SapBit(n, true, neigh, k))
    decreases 64 - k
  {
    if k < 64 {
      SapBitStep(n, neigh, k);
      if !Between(n.addr, neigh, k) {
        FirstBetween(n, neigh, k + 1);
        LeastStep(n.addr, neigh, k, SapBit(n, true, neigh, k + 1));
      }
    }
  }

  predicate NearNone(s: seq<Space>, neigh: Host) {
    forall i | 0 <= i < |s| :: Dist(s[i].addr, neigh) != 1
  }

  /** Without a recovered space next to the neighbour, a daemon that may propose proposes the buddy of its least free bit
      that lies between the two, and nothing exactly if there is no such bit. */
  lemma {:induction false} ProposesLeastBuddy(n: Node, neigh: Host)
    requires n.sec == None && NearNone(n.rcvd, neigh)
    ensures LeastBetween(n.addr, neigh, n.mask, SapFor(n, true, neigh))
  {
    if n.mask < 64 {
      FirstBetween(n, neigh, n.mask);
    }
  }

  lemma {:induction false} ProposesLeast(n: Node, neigh: Host)
    ensures n.sec == None && NearNone(n.rcvd, neigh) ==> LeastBetween(n.addr, neigh, n.mask, SapFor(n, true, neigh))
  {
    if n.sec == None && NearNone(n.rcvd, neigh) {
      ProposesLeastBuddy(n, neigh);
    }
  }

  /** The first recovered space next to the neighbour goes before all buddies, even if it cannot be proposed because it
      is not next to the daemon itself. */
  lemma {:induction false} ProposesFirstRecovered(n: Node, neigh: Host, i: nat)
    requires n.sec == None && i < |n.rcvd|
    requires Dist(n.rcvd[i].addr, neigh) == 1 && NearNone(n.rcvd[..i], neigh)
    ensures SapFor(n, true, neigh) == if Dist(n.rcvd[i].addr, n.addr) == 1 then Some(n.rcvd[i]) else None
  {
    assert forall k | 0 <= k < i :: n.rcvd[..i][k] == n.rcvd[k];
    var k := FirstNear(n.rcvd, neigh);
    assert k == i;
  }

  /** Nothing is proposed with a secondary address, or while a proposal is outstanding. */
  lemma {:induction false} ProposesOnlyWhenFree(n: Node, avai: bool, neigh: Host)
    requires n.sec.Some? || !avai
    ensures SapFor(n, avai, neigh) == None
  {
    if !avai {
      NoBit(n, neigh, n.mask);
    }
  }

  lemma {:induction false} NoBit(n: Node, neigh: Host, j: nat)
    ensures SapBit(n, false, neigh, j) == None
    decreases 64 - j
  {
    if j < 64 {
      NoBit(n, neigh, j + 1);
    }
  }
}
