/** What both ends hold after an enable or a push, and which packets fit the tunnels they set up. */
module Agreement {
  import opened Wrappers
  import opened Mesh
  import opened MtuMath
  import opened LeafConfig
  import opened Enabling
  import Codec

  /** The two records describe the same association with the same sizes. */
  predicate Agree(main: LeafMACsec, leaf: LeafSide) {
    && main.enabled && leaf.enabled
    && main.keyNonce == leaf.keyNonce && main.mode == leaf.mode
    && main.jumbo == leaf.jumbo && main.linkMTU == leaf.linkMTU
    && (StoredMode(main.mode).WireGuard? ==> main.port == leaf.port && main.underlayMTU == leaf.underlayMTU)
  }

  predicate InRange(r: LeafMACsec) {
    (if StoredMode(r.mode).WireGuard? then ETHERNET_MTU - WG_OVERHEAD - VXLAN_OVERHEAD else MIN_LINK_MTU)
    <= r.linkMTU <= ETHERNET_MTU
  }

  /** Whatever either end finds, once the leaf has accepted the main router's offer the main router
      can only refuse the reply over a malformed MAC or public key, never over sizes; and the two
      records then agree, with a link MTU in range. */
  lemma EnableAgreement(h: Codec.Hmac, n: Node, id: nat, leaf: LeafRouter, leaves: seq<LeafRouter>, ask: Ask, l: Local, f: Facts)
    requires Prepare(leaf, leaves, ask, l).Some?
    requires var req := Prepare(leaf, leaves, ask, l).value.request;
             id in n.admitted && TokenOk(req, f) && EnableReply(req, f).Success?
    ensures var o := Prepare(leaf, leaves, ask, l).value;
            var reply := EnableReply(o.request, f).value;
            var after := Step(h, n, Peer(id, o.request, f)).cfg;
            && (EnableLeaf(leaf, leaves, ask, l, Some(reply)).Some?
                <==> |reply.bridgeMAC| == 6 && (StoredMode(after.mode).WireGuard? ==> |reply.leafPublicKey| == 32))
            && (EnableLeaf(leaf, leaves, ask, l, Some(reply)).Some? ==>
                  var r := EnableLeaf(leaf, leaves, ask, l, Some(reply)).value;
                  && Agree(r, after) && InRange(r)
                  && r.leafMAC == reply.bridgeMAC
                  && (StoredMode(r.mode).WireGuard? ==> l.publicKey.Some? && after.mainPublicKey == l.publicKey.value
                                                        && r.leafPublicKey == f.publicKey.value))
  {
    var o := Prepare(leaf, leaves, ask, l).value;
    assert StoredMode(o.request.mode) == RequestedMode(ask.mode);
    assert ModeName(o.request) == o.next.mode;
  }

  /** The main router never re-sends a nonce in the other mode: unless a newly drawn nonce repeats
      the stored one, an offer with the stored nonce has the stored mode. */
  lemma OfferKeepsMode(leaf: LeafRouter, leaves: seq<LeafRouter>, ask: Ask, l: Local)
    requires Prepare(leaf, leaves, ask, l).Some? && leaf.macsec.Some?
    requires l.nonce != Some(leaf.macsec.value.keyNonce)
    ensures var req := Prepare(leaf, leaves, ask, l).value.request;
            req.keyNonce == leaf.macsec.value.keyNonce
            <==> SameAssociation(leaf, StoredMode(req.mode))
  {
    assert StoredMode(StoredName(RequestedMode(ask.mode))) == RequestedMode(ask.mode);
  }

  // ---- Pushes ----

  /** The largest MACsec link MTU a leaf offers. */
  function LeafMaxMTU(jumbo: bool, nic: Nic): int {
    if jumbo then ParentCapableMTU(nic) else CapableMTU(ETHERNET_MTU)
  }

  /** A leaf that can answer at all accepts a push exactly if the association's port and what is pushed are in
      range: no push is refused for lack of something that its mode asks for. */
  lemma PushAccepted(r: LeafMACsec, p: Push, token: string, key: Bytes, f: Facts)
    requires (r.mode == "" || r.mode == BACKHAUL_WIREGUARD) && f.token == Some(token) && KeysDerivable(token, r.keyNonce)
    requires f.probeOk && f.uplink.Some? && f.bridgeMAC.Some? && f.publicKey.Some? && |key| == 32
    ensures var q := Pushed(r, p);
            EnableReply(PushRequest(token, q, key), f).Success?
            <==> if r.mode == BACKHAUL_WIREGUARD then 2 <= r.port <= 254 && (q.underlayMTU == 0 || 1500 <= q.underlayMTU <= 9000)
                 else 1280 <= q.linkMTU <= 1500 && LeafMaxMTU(q.jumbo, f.uplink.value) >= 1280
  {
  }

  /** The main router ignores the reply to a push. The ends still agree, unless it is a MACsec
      push that asks for more than the leaf's own maximum: then, and only then, the leaf settles
      on a smaller link MTU than the main router stores. */
  lemma PushAgreement(h: Codec.Hmac, n: Node, id: nat, r: LeafMACsec, p: Push, token: string, key: Bytes, f: Facts)
    requires r.enabled && (r.mode == "" || r.mode == BACKHAUL_WIREGUARD) && (p.Jumbo? ==> p.jumbo != r.jumbo)
    requires id in n.admitted && TokenOk(PushRequest(token, Pushed(r, p), key), f)
    requires EnableReply(PushRequest(token, Pushed(r, p), key), f).Success?
    ensures Agree(Pushed(r, p), Step(h, n, Peer(id, PushRequest(token, Pushed(r, p), key), f)).cfg)
            <==> (StoredMode(r.mode).MACsec? ==> Pushed(r, p).linkMTU <= LeafMaxMTU(Pushed(r, p).jumbo, f.uplink.value))
    ensures StoredMode(r.mode).WireGuard? ==> Step(h, n, Peer(id, PushRequest(token, Pushed(r, p), key), f)).cfg.mainPublicKey == key
  {
    var q := Pushed(r, p);
    assert ModeName(PushRequest(token, q, key)) == q.mode;
  }

  /** Without jumbo frames the condition always holds: every push leaves the ends agreed. */
  lemma PlainPushAgrees(h: Codec.Hmac, n: Node, id: nat, r: LeafMACsec, p: Push, token: string, key: Bytes, f: Facts)
    requires r.enabled && (r.mode == "" || r.mode == BACKHAUL_WIREGUARD) && (p.Jumbo? ==> p.jumbo != r.jumbo)
    requires id in n.admitted && TokenOk(PushRequest(token, Pushed(r, p), key), f)
    requires EnableReply(PushRequest(token, Pushed(r, p), key), f).Success?
    requires !Pushed(r, p).jumbo
    requires p.MTUTest? ==> p.underlay >= ETHERNET_MTU
    ensures Agree(Pushed(r, p), Step(h, n, Peer(id, PushRequest(token, Pushed(r, p), key), f)).cfg)
  {
    PushAgreement(h, n, id, r, p, token, key, f);
  }

  const NONCE: string := seq(NONCE_HEX_LEN, _ => '0')
  const TOKEN: string := seq(MIN_SECRET_LEN, _ => 't')

  /** Switching jumbo frames on with a jumbo card at the main router and a plain one at the leaf
      leaves them with 1500 against 1468. */
  lemma JumboPushDisagrees(h: Codec.Hmac, id: nat)
    ensures var r := LeafMACsec(true, "", 2, NONCE, "lan0", 1468, 0, false, Zeros(6), []);
            var p := Jumbo(true, Some(Nic(1500, 9000)));
            var f := Facts(Some(TOKEN), true, Some(Nic(1500, 1500)), Some(Zeros(6)), None, 0);
            var n := Node(OFF, true, None, None, [], map[], {id});
            var after := Step(h, n, Peer(id, PushRequest(TOKEN, Pushed(r, p), []), f)).cfg;
            && EnableReply(PushRequest(TOKEN, Pushed(r, p), []), f).Success?
            && Pushed(r, p).linkMTU == 1500 && after.linkMTU == 1468
  {
    var r := LeafMACsec(true, "", 2, NONCE, "lan0", 1468, 0, false, Zeros(6), []);
    var p := Jumbo(true, Some(Nic(1500, 9000)));
    var f := Facts(Some(TOKEN), true, Some(Nic(1500, 1500)), Some(Zeros(6)), None, 0);
    var req := PushRequest(TOKEN, Pushed(r, p), []);
    assert KeysDerivable(TOKEN, req.keyNonce);
  }

  // ---- Sizes on the main router's one WireGuard device ----

  predicate IsWGLeaf(leaf: LeafRouter) {
    leaf.macsec.Some? && leaf.macsec.value.enabled && StoredMode(leaf.macsec.value.mode).WireGuard?
  }

  function Underlay(leaf: LeafRouter): (u: int)
    requires leaf.macsec.Some?
    ensures u >= ETHERNET_MTU
  {
    MeshUnderlay(leaf.macsec.value.jumbo, leaf.macsec.value.underlayMTU)
  }

  /** The MTU of the main router's WireGuard device: with WireGuard leaves it is the largest whose
      packets, sealed, fit every leaf's underlay; without any it is 0. */
  predicate SharedMTU(leaves: seq<LeafRouter>, mtu: int) {
    && (forall i :: 0 <= i < |leaves| && IsWGLeaf(leaves[i]) ==> mtu + WG_OVERHEAD <= Underlay(leaves[i]))
    && (mtu != 0 ==> exists i :: 0 <= i < |leaves| && IsWGLeaf(leaves[i]) && mtu + WG_OVERHEAD == Underlay(leaves[i]))
    && (mtu == 0 <==> forall i :: 0 <= i < |leaves| ==> !IsWGLeaf(leaves[i]))
  }

  method WGMainMTU(leaves: seq<LeafRouter>) returns (mtu: int)
    ensures SharedMTU(leaves, mtu)
  {
    mtu := 0;
    for i := 0 to |leaves|
      invariant forall j :: 0 <= j < i && IsWGLeaf(leaves[j]) ==> mtu + WG_OVERHEAD <= Underlay(leaves[j])
      invariant mtu != 0 ==> exists j :: 0 <= j < i && IsWGLeaf(leaves[j]) && mtu + WG_OVERHEAD == Underlay(leaves[j])
      invariant mtu == 0 <==> forall j :: 0 <= j < i ==> !IsWGLeaf(leaves[j])
    {
      if IsWGLeaf(leaves[i]) {
        var m := Underlay(leaves[i]) - WG_OVERHEAD;
        if mtu == 0 || m < mtu {
          mtu := m;
        }
      }
    }
  }

  /** One leaf's full frame, encapsulated and sealed, fits that leaf's underlay. */
  lemma InnerFitsUnderlay(jumbo: bool, underlay: int)
    ensures var u := MeshUnderlay(jumbo, underlay);
            WGInnerMTU(u) + VXLAN_OVERHEAD + WG_OVERHEAD <= u && MIN_LINK_MTU <= WGInnerMTU(u) <= ETHERNET_MTU
  {
  }

  /** Every leaf's tunnel packets fit the shared WireGuard device. */
  predicate TunnelsFit(leaves: seq<LeafRouter>, mtu: int) {
    forall i :: 0 <= i < |leaves| && IsWGLeaf(leaves[i]) ==> WGInnerMTU(Underlay(leaves[i])) + VXLAN_OVERHEAD <= mtu
  }

  /** All leaves' full-size tunnel packets pass the shared device unfragmented exactly when no
      leaf's underlay exceeds another's, counted up to the 1610 bytes a full frame needs. */
  lemma TunnelsFitCondition(leaves: seq<LeafRouter>, mtu: int)
    requires mtu != 0
    requires forall i :: 0 <= i < |leaves| && IsWGLeaf(leaves[i]) ==> mtu + WG_OVERHEAD <= Underlay(leaves[i])
    requires exists i :: 0 <= i < |leaves| && IsWGLeaf(leaves[i]) && mtu + WG_OVERHEAD == Underlay(leaves[i])
    ensures TunnelsFit(leaves, mtu)
            <==> forall i, j :: 0 <= i < |leaves| && 0 <= j < |leaves| && IsWGLeaf(leaves[i]) && IsWGLeaf(leaves[j]) ==>
                                  Min(Underlay(leaves[i]), ETHERNET_MTU + VXLAN_OVERHEAD + WG_OVERHEAD) <= Underlay(leaves[j])
  {
    var least :| 0 <= least < |leaves| && IsWGLeaf(leaves[least]) && mtu + WG_OVERHEAD == Underlay(leaves[least]);
    assert forall i :: 0 <= i < |leaves| && IsWGLeaf(leaves[i]) ==>
        (WGInnerMTU(Underlay(leaves[i])) + VXLAN_OVERHEAD <= mtu
         <==> Min(Underlay(leaves[i]), ETHERNET_MTU + VXLAN_OVERHEAD + WG_OVERHEAD) <= Underlay(leaves[least]));
    if TunnelsFit(leaves, mtu) {
      forall i, j | 0 <= i < |leaves| && 0 <= j < |leaves| && IsWGLeaf(leaves[i]) && IsWGLeaf(leaves[j])
        ensures Min(Underlay(leaves[i]), ETHERNET_MTU + VXLAN_OVERHEAD + WG_OVERHEAD) <= Underlay(leaves[j])
      {
        assert Underlay(leaves[least]) <= Underlay(leaves[j]);
      }
    }
  }

  /** A jumbo leaf beside a plain one: the jumbo leaf's 1550-byte tunnel packets meet a device of
      1440 bytes. */
  lemma MixedLeavesDoNotFit()
    ensures var wg := LeafMACsec(true, BACKHAUL_WIREGUARD, 2, NONCE, "lan0", 1390, 0, false, Zeros(6), Zeros(32));
            var plain := LeafRouter(TOKEN, "192.168.2.2", "ca", Some(wg), false);
            var jumbo := LeafRouter(TOKEN, "192.168.2.3", "ca",
                                    Some(wg.(port := 3, jumbo := true, underlayMTU := 9000, linkMTU := 1500)), false);
            !TunnelsFit([plain, jumbo], Underlay(plain) - WG_OVERHEAD)
  {
    var wg := LeafMACsec(true, BACKHAUL_WIREGUARD, 2, NONCE, "lan0", 1390, 0, false, Zeros(6), Zeros(32));
    var plain := LeafRouter(TOKEN, "192.168.2.2", "ca", Some(wg), false);
    var jumbo := LeafRouter(TOKEN, "192.168.2.3", "ca",
                            Some(wg.(port := 3, jumbo := true, underlayMTU := 9000, linkMTU := 1500)), false);
    var leaves := [plain, jumbo];
    assert IsWGLeaf(leaves[1]) && WGInnerMTU(Underlay(leaves[1])) + VXLAN_OVERHEAD == 1550;
  }
}
