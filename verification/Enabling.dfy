/** The main router's half of an enable: what it proposes to the leaf, and the record it makes of
    the leaf's reply. Everything here is computed from the snapshot a change request read. */
module Enabling {
  import opened Wrappers
  import opened Mesh
  import opened MtuMath
  import LeafConfig

  const BACKHAUL_MACSEC := "macsec"
  const LOOPBACK := "lo"

  /** What the administrator asked for; an empty parent or a zero MTU leaves the choice open. */
  datatype Ask = Ask(parent: string, mtu: int, mode: string)

  /** What the main router finds while it prepares the request. */
  datatype Local = Local(
    routeDev: Option<string>, wanif: string, secys: Option<set<string>>, probeOk: bool,
    nic: Option<Nic>, nonce: Option<string>, publicKey: Option<Bytes>)

  /** The record to store, still without the leaf's part, and the request sent for it. */
  datatype Offer = Offer(next: LeafMACsec, request: LeafConfig.Request, localMTU: int)

  function RequestedMode(mode: string): Mode {
    if mode == BACKHAUL_MACSEC then MACsec else WireGuard
  }

  function StoredName(mode: Mode): string {
    if mode.WireGuard? then BACKHAUL_WIREGUARD else ""
  }

  // ---- Ports ----

  predicate PortUsed(leaves: seq<LeafRouter>, port: int) {
    exists i :: 0 <= i < |leaves| && leaves[i].macsec.Some? && leaves[i].macsec.value.port == port
  }

  function FirstFree(leaves: seq<LeafRouter>, from: int): (r: Option<int>)
    requires from <= MAIN_PORT_LAST + 1
    ensures r.Some? ==> from <= r.value <= MAIN_PORT_LAST && !PortUsed(leaves, r.value)
    ensures r.Some? ==> forall p :: from <= p < r.value ==> PortUsed(leaves, p)
    ensures r.None? ==> forall p :: from <= p <= MAIN_PORT_LAST ==> PortUsed(leaves, p)
    decreases MAIN_PORT_LAST + 1 - from
  {
    if from > MAIN_PORT_LAST then None
    else if PortUsed(leaves, from) then FirstFree(leaves, from + 1)
    else Some(from)
  }

  /** The least free port, or None exactly when 2..65000 are all taken. */
  method AllocateMACsecPort(leaves: seq<LeafRouter>) returns (r: Option<int>)
    ensures r.Some? ==> MAIN_PORT_FIRST <= r.value <= MAIN_PORT_LAST && !PortUsed(leaves, r.value)
    ensures r.Some? ==> forall p :: MAIN_PORT_FIRST <= p < r.value ==> PortUsed(leaves, p)
    ensures r.None? <==> forall p :: MAIN_PORT_FIRST <= p <= MAIN_PORT_LAST ==> PortUsed(leaves, p)
    ensures r == FirstFree(leaves, MAIN_PORT_FIRST)
  {
    var used := UsedPorts(leaves);
    var port := MAIN_PORT_FIRST;
    while port <= MAIN_PORT_LAST
      invariant MAIN_PORT_FIRST <= port <= MAIN_PORT_LAST + 1
      invariant forall p :: MAIN_PORT_FIRST <= p < port ==> PortUsed(leaves, p)
      invariant FirstFree(leaves, port) == FirstFree(leaves, MAIN_PORT_FIRST)
    {
      if port !in used {
        return Some(port);
      }
      port := port + 1;
    }
    r := None;
  }

  method UsedPorts(leaves: seq<LeafRouter>) returns (used: set<int>)
    ensures forall p :: p != 0 ==> (p in used <==> PortUsed(leaves, p))
  {
    used := {};
    for i := 0 to |leaves|
      invariant forall p :: p != 0 ==> (p in used <==> PortUsed(leaves[..i], p))
    {
      var macsec := leaves[i].macsec;
      assert leaves[..i + 1] == leaves[..i] + [leaves[i]];
      forall p | p != 0
        ensures PortUsed(leaves[..i + 1], p) <==> PortUsed(leaves[..i], p) || (macsec.Some? && macsec.value.port == p)
      {
        UsedSnoc(leaves[..i], leaves[i], p);
      }
      if macsec.Some? && macsec.value.port != 0 {
        used := used + {macsec.value.port};
      }
    }
    assert leaves[..|leaves|] == leaves;
  }

  lemma UsedSnoc(leaves: seq<LeafRouter>, leaf: LeafRouter, p: int)
    ensures PortUsed(leaves + [leaf], p) <==> PortUsed(leaves, p) || (leaf.macsec.Some? && leaf.macsec.value.port == p)
  {
    var all := leaves + [leaf];
    if PortUsed(leaves, p) {
      var i :| 0 <= i < |leaves| && leaves[i].macsec.Some? && leaves[i].macsec.value.port == p;
      assert all[i] == leaves[i];
    }
    assert all[|leaves|] == leaf;
  }

  /** A record keeps its port; a new one gets the least that no leaf of the snapshot holds. */
  function PortFor(leaf: LeafRouter, leaves: seq<LeafRouter>): Option<int> {
    if leaf.macsec.Some? && ValidMACsecPort(leaf.macsec.value.port) && leaf.macsec.value.port >= MAIN_PORT_FIRST
    then Some(leaf.macsec.value.port)
    else FirstFree(leaves, MAIN_PORT_FIRST)
  }

  // ---- Offer and reply ----

  function ParentFor(leaf: LeafRouter, requested: string, l: Local): Option<string> {
    var stored := if requested == "" && leaf.macsec.Some? then leaf.macsec.value.parent else requested;
    if stored == "" && l.routeDev.None? then None
    else
      var parent := if stored == "" then l.routeDev.value else stored;
      if !ValidIface(parent) then None
      else if parent == l.wanif || parent == BRIDGE_IFACE || parent == LOOPBACK then None
      else if l.secys.Some? && parent in l.secys.value then None
      else Some(parent)
  }

  predicate JumboKept(leaf: LeafRouter) {
    leaf.macsec.Some? && leaf.macsec.value.enabled && leaf.macsec.value.jumbo
  }

  /** Re-enabling in the same mode continues the association: its nonce and measured underlay stay. */
  predicate SameAssociation(leaf: LeafRouter, mode: Mode) {
    && leaf.macsec.Some? && leaf.macsec.value.enabled && leaf.macsec.value.keyNonce != ""
    && StoredMode(leaf.macsec.value.mode) == mode
  }

  function LocalMTU(leaf: LeafRouter, requested: int, nic: Nic): int {
    var capable := if JumboKept(leaf) then ParentCapableMTU(nic) else CapableMTU(ETHERNET_MTU);
    if requested != 0 then Min(requested, capable) else capable
  }

  function Prepare(leaf: LeafRouter, leaves: seq<LeafRouter>, ask: Ask, l: Local): Option<Offer> {
    var mode := RequestedMode(ask.mode);
    var wg := mode.WireGuard?;
    var parent := ParentFor(leaf, ask.parent, l);
    if ask.mtu != 0 && !(MIN_LINK_MTU <= ask.mtu <= ETHERNET_MTU) then None
    else if |leaf.apiToken| < MIN_SECRET_LEN || parent.None? || !l.probeOk || l.nic.None? then None
    else if LocalMTU(leaf, ask.mtu, l.nic.value) < MIN_LINK_MTU then None
    else
      var same := SameAssociation(leaf, mode);
      var port := PortFor(leaf, leaves);
      if (!same && l.nonce.None?) || port.None? || (wg && !ValidWGPort(port.value)) then None
      else
        var nonce := if same then leaf.macsec.value.keyNonce else l.nonce.value;
        var underlay := if same then leaf.macsec.value.underlayMTU else 0;
        var local := LocalMTU(leaf, ask.mtu, l.nic.value);
        if !LeafConfig.KeysDerivable(leaf.apiToken, nonce) || (wg && l.publicKey.None?) then None
        else
          var next := LeafMACsec(true, StoredName(mode), port.value, nonce, parent.value,
                                 0, underlay, JumboKept(leaf), [], []);
          Some(Offer(next,
                     LeafConfig.Request(leaf.apiToken, true, nonce, if wg then 0 else local, next.mode,
                                        if wg then next.port else 0, if wg then underlay else 0, next.jumbo,
                                        if wg then l.publicKey.value else []),
                     local))
  }

  /** The record made of the leaf's reply, or None for an error or an unusable reply. */
  function Finish(o: Offer, reply: Option<LeafConfig.Reply>): Option<LeafMACsec> {
    if reply.None? || reply.value.version != LeafConfig.PROTOCOL_VERSION || |reply.value.bridgeMAC| != 6 then None
    else if StoredMode(o.next.mode).WireGuard? then
      if |reply.value.leafPublicKey| != 32 then None
      else Some(o.next.(leafMAC := reply.value.bridgeMAC, leafPublicKey := reply.value.leafPublicKey,
                        linkMTU := WGInnerMTU(MeshUnderlay(o.next.jumbo, o.next.underlayMTU))))
    else
      match MACsecLinkMTU(o.localMTU, reply.value.maxMTU)
      case None => None
      case Some(mtu) => Some(o.next.(leafMAC := reply.value.bridgeMAC, linkMTU := mtu))
  }

  /** The port this leaf's association gets. */
  predicate PortGiven(leaf: LeafRouter, leaves: seq<LeafRouter>, port: int) {
    if leaf.macsec.Some? && 2 <= leaf.macsec.value.port <= 65534 then port == leaf.macsec.value.port
    else 2 <= port <= 65000 && !PortUsed(leaves, port) && forall p :: 2 <= p < port ==> PortUsed(leaves, p)
  }

  /** The interface: the one asked for, else the one in use, else the one on the route to the leaf. It must
      be a plausible link of its own. */
  predicate ParentGiven(leaf: LeafRouter, ask: Ask, l: Local, parent: string) {
    && Some(parent) == (if ask.parent != "" then Some(ask.parent)
                        else if leaf.macsec.Some? && leaf.macsec.value.parent != "" then Some(leaf.macsec.value.parent)
                        else l.routeDev)
    && ValidIface(parent) && parent !in {l.wanif, "br0", "lo"} && !(l.secys.Some? && parent in l.secys.value)
  }

  /** The size the main router offers: the largest that fits into the interface - an ordinary one unless
      jumbo frames are on -, and no larger than asked for. */
  predicate SizeGiven(leaf: LeafRouter, ask: Ask, nic: Nic, mtu: int) {
    var room := if JumboOn(leaf) then Max(nic.mtu, nic.maxMTU) else 1500;
    && 1280 <= mtu <= 1500 && mtu + 32 <= room && (ask.mtu != 0 ==> mtu <= ask.mtu)
    && (mtu == 1500 || mtu + 32 == room || mtu == ask.mtu)
  }

  predicate JumboOn(leaf: LeafRouter) {
    leaf.macsec.Some? && leaf.macsec.value.enabled && leaf.macsec.value.jumbo
  }

  /** What an administrator's request for a leaf leads to: in the mode asked for, under the nonce of the
      association that goes on, with its measured underlay, or else under a new nonce. The request says
      the same to the leaf. */
  predicate OfferFor(leaf: LeafRouter, leaves: seq<LeafRouter>, ask: Ask, l: Local, o: Offer) {
    var macsec, r := ask.mode == "macsec", o.next;
    var goesOn := leaf.macsec.Some? && leaf.macsec.value.enabled && leaf.macsec.value.keyNonce != ""
                  && (macsec <==> leaf.macsec.value.mode != "wireguard");
    && (ask.mtu == 0 || 1280 <= ask.mtu <= 1500) && l.probeOk && l.nic.Some?
    && ParentGiven(leaf, ask, l, r.parent) && SizeGiven(leaf, ask, l.nic.value, o.localMTU) && PortGiven(leaf, leaves, r.port)
    && (if goesOn then r.keyNonce == leaf.macsec.value.keyNonce && r.underlayMTU == leaf.macsec.value.underlayMTU
        else l.nonce == Some(r.keyNonce) && r.underlayMTU == 0)
    && LeafConfig.KeysDerivable(leaf.apiToken, r.keyNonce) && (macsec || (r.port <= 254 && l.publicKey.Some?))
    && r == LeafMACsec(true, if macsec then "" else "wireguard", r.port, r.keyNonce, r.parent, 0, r.underlayMTU, JumboOn(leaf), [], [])
    && var q := LeafConfig.Request(leaf.apiToken, true, r.keyNonce, 0, r.mode, 0, 0, r.jumbo, []);
       o.request == if macsec then q.(peerMTU := o.localMTU)
                    else q.(port := r.port, underlayMTU := r.underlayMTU, mainPublicKey := l.publicKey.value)
  }

  /** An offer is made exactly if there is such a one, and it is that one. */
  lemma PreparedExactly(leaf: LeafRouter, leaves: seq<LeafRouter>, ask: Ask, l: Local, o: Offer)
    ensures Prepare(leaf, leaves, ask, l) == Some(o) <==> OfferFor(leaf, leaves, ask, l, o)
  {
    if Prepare(leaf, leaves, ask, l) == Some(o) {
      OfferMade(leaf, leaves, ask, l);
    } else if OfferFor(leaf, leaves, ask, l, o) {
      OnePort(leaf, leaves, o.next.port);
      if Prepare(leaf, leaves, ask, l).Some? {
        OfferMade(leaf, leaves, ask, l);
        OneOffer(leaf, leaves, ask, l, o, Prepare(leaf, leaves, ask, l).value);
      }
    }
  }

  /** This is the offer, or there is none. */
  ghost predicate OfferIs(leaf: LeafRouter, leaves: seq<LeafRouter>, ask: Ask, l: Local, r: Option<Offer>) {
    if r.Some? then OfferFor(leaf, leaves, ask, l, r.value) else forall o :: !OfferFor(leaf, leaves, ask, l, o)
  }

  lemma OfferOrNone(leaf: LeafRouter, leaves: seq<LeafRouter>, ask: Ask, l: Local)
    ensures OfferIs(leaf, leaves, ask, l, Prepare(leaf, leaves, ask, l))
  {
    forall o {
      PreparedExactly(leaf, leaves, ask, l, o);
    }
  }

  lemma OnePort(leaf: LeafRouter, leaves: seq<LeafRouter>, port: int)
    requires PortGiven(leaf, leaves, port)
    ensures PortFor(leaf, leaves) == Some(port)
  {
    if !PortUsed(leaves, port) {
      assert port <= MAIN_PORT_LAST ==> FirstFree(leaves, MAIN_PORT_FIRST).Some?;
    }
  }

  lemma OfferMade(leaf: LeafRouter, leaves: seq<LeafRouter>, ask: Ask, l: Local)
    requires Prepare(leaf, leaves, ask, l).Some?
    ensures OfferFor(leaf, leaves, ask, l, Prepare(leaf, leaves, ask, l).value)
  {
  }

  lemma OneOffer(leaf: LeafRouter, leaves: seq<LeafRouter>, ask: Ask, l: Local, o: Offer, o': Offer)
    requires OfferFor(leaf, leaves, ask, l, o) && OfferFor(leaf, leaves, ask, l, o')
    ensures o == o'
  {
    OnePort(leaf, leaves, o.next.port);
    OnePort(leaf, leaves, o'.next.port);
  }

  /** A record is what was asked for: in that mode, over that interface, no larger than that. */
  predicate AsAsked(r: LeafMACsec, ask: Ask) {
    && r.enabled && (StoredMode(r.mode).MACsec? <==> ask.mode == "macsec") && (ask.parent != "" ==> r.parent == ask.parent)
    && (ask.mode == "macsec" && ask.mtu != 0 ==> r.linkMTU <= ask.mtu)
  }

  /** What the record takes from the reply: the leaf's address and key, and with MACsec the size that suits
      both ends; over WireGuard the size is the largest frame that fits the underlay. */
  predicate RecordFor(o: Offer, reply: LeafConfig.Reply, r: LeafMACsec) {
    var wg, room := o.next.mode == "wireguard", if o.next.jumbo then Max(o.next.underlayMTU, 1500) else 1500;
    && reply.version == 1 && |reply.bridgeMAC| == 6 && (wg ==> |reply.leafPublicKey| == 32)
    && r == o.next.(leafMAC := reply.bridgeMAC, linkMTU := r.linkMTU,
                    leafPublicKey := if wg then reply.leafPublicKey else o.next.leafPublicKey)
    && r.linkMTU <= 1500
    && if wg then r.linkMTU + 110 <= room && (r.linkMTU == 1500 || r.linkMTU + 110 == room)
       else 1280 <= r.linkMTU <= Min(o.localMTU, reply.maxMTU) && r.linkMTU in {1500, o.localMTU, reply.maxMTU}
  }

  lemma FinishedExactly(o: Offer, reply: Option<LeafConfig.Reply>, r: LeafMACsec)
    ensures Finish(o, reply) == Some(r) <==> reply.Some? && RecordFor(o, reply.value, r)
  {
  }

  /** From the administrator's request to the record. */
  lemma RecordAsAsked(leaf: LeafRouter, leaves: seq<LeafRouter>, ask: Ask, l: Local, reply: Option<LeafConfig.Reply>)
    requires EnableLeaf(leaf, leaves, ask, l, reply).Some?
    ensures AsAsked(EnableLeaf(leaf, leaves, ask, l, reply).value, ask)
  {
    var o := Prepare(leaf, leaves, ask, l).value;
    PreparedExactly(leaf, leaves, ask, l, o);
    FinishedExactly(o, reply, EnableLeaf(leaf, leaves, ask, l, reply).value);
  }

  function EnableLeaf(leaf: LeafRouter, leaves: seq<LeafRouter>, ask: Ask, l: Local, reply: Option<LeafConfig.Reply>):
    Option<LeafMACsec>
  {
    match Prepare(leaf, leaves, ask, l)
    case None => None
    case Some(o) => Finish(o, reply)
  }

  /** The record is filled in field by field as the checks pass. */
  method EnableLeafMACsec(leaf: LeafRouter, leaves: seq<LeafRouter>, ask: Ask, l: Local)
    returns (r: Option<Offer>)
    ensures r == Prepare(leaf, leaves, ask, l)
    ensures OfferIs(leaf, leaves, ask, l, r)
  {
    OfferOrNone(leaf, leaves, ask, l);
    var mode := RequestedMode(ask.mode);
    if ask.mtu != 0 && (ask.mtu < MIN_LINK_MTU || ask.mtu > ETHERNET_MTU) {
      return None;
    }
    if |leaf.apiToken| < MIN_SECRET_LEN {
      return None;
    }
    var parent := ParentFor(leaf, ask.parent, l);
    if parent.None? || !l.probeOk || l.nic.None? {
      return None;
    }
    var jumbo := leaf.macsec.Some? && leaf.macsec.value.enabled && leaf.macsec.value.jumbo;
    var localMTU := CapableMTU(ETHERNET_MTU);
    if jumbo {
      localMTU := ParentCapableMTU(l.nic.value);
    }
    if ask.mtu != 0 && ask.mtu < localMTU {
      localMTU := ask.mtu;
    }
    if localMTU < MIN_LINK_MTU {
      return None;
    }
    var next := LeafMACsec(true, "", 0, "", parent.value, 0, 0, jumbo, [], []);
    if mode.WireGuard? {
      next := next.(mode := BACKHAUL_WIREGUARD);
    }
    if SameAssociation(leaf, mode) {
      next := next.(keyNonce := leaf.macsec.value.keyNonce, underlayMTU := leaf.macsec.value.underlayMTU);
    } else if l.nonce.None? {
      return None;
    } else {
      next := next.(keyNonce := l.nonce.value);
    }
    if leaf.macsec.Some? && ValidMACsecPort(leaf.macsec.value.port) && leaf.macsec.value.port >= MAIN_PORT_FIRST {
      next := next.(port := leaf.macsec.value.port);
    } else {
      var port := AllocateMACsecPort(leaves);
      if !port.Some? {
        return None;
      }
      next := next.(port := port.value);
    }
    if mode.WireGuard? && !ValidWGPort(next.port) {
      return None;
    }
    if !LeafConfig.KeysDerivable(leaf.apiToken, next.keyNonce) {
      return None;
    }
    var request := LeafConfig.Request(leaf.apiToken, true, next.keyNonce, localMTU, next.mode, 0, 0, next.jumbo, []);
    if mode.WireGuard? {
      if l.publicKey.None? {
        return None;
      }
      request := request.(peerMTU := 0, port := next.port, underlayMTU := next.underlayMTU,
                          mainPublicKey := l.publicKey.value);
    }
    r := Some(Offer(next, request, localMTU));
  }

  // ---- Pushes: a new measurement or a jumbo switch for a running association ----

  datatype Push = MTUTest(underlay: int) | Jumbo(jumbo: bool, nic: Option<Nic>)

  function Pushed(r: LeafMACsec, p: Push): LeafMACsec {
    var wg := StoredMode(r.mode).WireGuard?;
    match p
    case MTUTest(underlay) =>
      r.(underlayMTU := underlay,
         linkMTU := if wg then WGInnerMTU(MeshUnderlay(r.jumbo, underlay))
                    else EffectiveLinkMTU(r.mode, r.jumbo, underlay, CapableMTU(underlay)))
    case Jumbo(jumbo, nic) =>
      if r.jumbo == jumbo then r else
      r.(jumbo := jumbo, underlayMTU := 0,
         linkMTU := if wg then WGInnerMTU(MeshUnderlay(jumbo, 0))
                    else if jumbo && nic.Some? then ParentCapableMTU(nic.value)
                    else CapableMTU(ETHERNET_MTU))
  }

  /** A push changes sizes and the jumbo flag and nothing else: a test stores what was measured, a switch
      the new flag and no measurement; and the link MTU is the largest frame that fits - over WireGuard
      into the underlay, under MACsec into what was measured, or into the interface at either end. */
  predicate PushedTo(r: LeafMACsec, p: Push, q: LeafMACsec) {
    if p.Jumbo? && p.jumbo == r.jumbo then q == r
    else
      && q == r.(underlayMTU := q.underlayMTU, jumbo := q.jumbo, linkMTU := q.linkMTU)
      && q.underlayMTU == (if p.MTUTest? then p.underlay else 0) && q.jumbo == (if p.Jumbo? then p.jumbo else r.jumbo)
      && var room := if r.mode == "wireguard" then (if q.jumbo then Max(q.underlayMTU, 1500) else 1500) - 110
                     else if p.MTUTest? then (if q.jumbo then p.underlay else Min(p.underlay, 1500)) - 32
                     else if p.jumbo && p.nic.Some? then Max(p.nic.value.mtu, p.nic.value.maxMTU) - 32
                     else 1468;
         q.linkMTU <= room && q.linkMTU <= 1500 && (q.linkMTU == room || q.linkMTU == 1500)
  }

  lemma PushedExactly(r: LeafMACsec, p: Push, q: LeafMACsec)
    ensures q == Pushed(r, p) <==> PushedTo(r, p, q)
  {
  }

  /** The request that tells the leaf about `next`. */
  function PushRequest(token: string, next: LeafMACsec, publicKey: Bytes): LeafConfig.Request {
    var wg := StoredMode(next.mode).WireGuard?;
    LeafConfig.Request(token, true, next.keyNonce, if wg then 0 else next.linkMTU, next.mode,
                       if wg then next.port else 0, if wg then next.underlayMTU else 0, next.jumbo,
                       if wg then publicKey else [])
  }
}
