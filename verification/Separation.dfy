/** What the main router's ports are for: in every configuration it can reach, different leaves never
    share an identifier, an address or a device. */
module Separation {
  import opened Wrappers
  import opened Mesh
  import opened MainConfig
  import LinkSystem
  import MeshBridge
  import Mka
  import Names

  /** After any interleaving of change requests with leaf PUTs and DELETEs: the secure channel
      identifiers of two leaves differ, whatever their parents' MAC addresses, and so do the underlay
      and tunnel addresses and the tunnel ports; WireGuard leaves' addresses end in one byte. */
  lemma LeavesSeparated(es: seq<Event>, i: nat, j: nat, mac: Bytes, mac': Bytes)
    requires var leaves := Run(EMPTY, es).leaves;
             i < j < |leaves| && leaves[i].macsec.Some? && leaves[j].macsec.Some?
    requires |mac| == 6 && |mac'| == 6
    ensures var leaves := Run(EMPTY, es).leaves;
            var a, b := leaves[i].macsec.value, leaves[j].macsec.value;
            && a.enabled && b.enabled
            && Mka.SCI(mac, a.port).Some? && Mka.SCI(mac', b.port).Some?
            && Mka.SCI(mac, a.port) != Mka.SCI(mac', b.port)
            && Names.UnderlayIP(a.port) != Names.UnderlayIP(b.port)
            && Names.TunnelIP(a.port) != Names.TunnelIP(b.port)
            && Names.VXLANMain(a.port) != Names.VXLANMain(b.port)
            && (StoredMode(a.mode).WireGuard? ==> a.port <= WG_MAX_PORT)
  {
    ReachableSound(es);
    var leaves := Run(EMPTY, es).leaves;
    var p, q := leaves[i].macsec.value.port, leaves[j].macsec.value.port;
    assert p != q;
    if Mka.SCI(mac, p) == Mka.SCI(mac', q) {
      Mka.SCIInjective(mac, p, mac', q);
    }
    if Names.UnderlayIP(p) == Names.UnderlayIP(q) || Names.TunnelIP(p) == Names.TunnelIP(q)
       || Names.VXLANMain(p) == Names.VXLANMain(q) {
      Names.NamesInjective(p, q);
    }
  }

  /** The two ends of a link never share an identifier either: a leaf uses port 1, which no stored
      association has; and the main router's own tunnel addresses are no leaf's. */
  lemma EndsSeparated(es: seq<Event>, i: nat, mac: Bytes, mac': Bytes)
    requires var leaves := Run(EMPTY, es).leaves;
             i < |leaves| && leaves[i].macsec.Some?
    requires |mac| == 6 && |mac'| == 6
    ensures var a := Run(EMPTY, es).leaves[i].macsec.value;
            && a.port > LEAF_PORT && Mka.SCI(mac, a.port) != Mka.SCI(mac', LEAF_PORT)
            && Names.UnderlayIP(a.port) != Names.UnderlayIP(Names.MAIN_SIDE)
            && Names.TunnelIP(a.port) != Names.TunnelIP(Names.MAIN_SIDE)
  {
    ReachableSound(es);
    var p := Run(EMPTY, es).leaves[i].macsec.value.port;
    if Mka.SCI(mac, p) == Mka.SCI(mac', LEAF_PORT) {
      Mka.SCIInjective(mac, p, mac', LEAF_PORT);
    }
    if Names.UnderlayIP(p) == Names.UnderlayIP(1) || Names.TunnelIP(p) == Names.TunnelIP(1) {
      Names.NamesInjective(p, 1);
    }
  }

  /** What a main pass reports as the member of one leaf's link: for WireGuard the tunnel port of its
      port; for MACsec a listed device with its interface and identifier; nothing while there is none. */
  predicate Reports(leaf: LeafRouter, mac: Bytes, secys: seq<LinkSystem.SecYLink>, st: MeshBridge.Status) {
    && leaf.macsec.Some? && leaf.macsec.value.port >= 0
    && (st.member != "" ==>
          if StoredMode(leaf.macsec.value.mode).WireGuard? then st.member == Names.VXLANMain(leaf.macsec.value.port)
          else exists k :: 0 <= k < |secys| && secys[k].name == st.member && secys[k].parent == leaf.macsec.value.parent
                           && Mka.SCI(mac, leaf.macsec.value.port) == Some(secys[k].sci))
  }

  /** The plugin's own names, which MACsec devices never have. */
  ghost predicate OwnNames(reserved: set<string>, secys: seq<LinkSystem.SecYLink>) {
    && MESH_BRIDGE in reserved && (forall port: nat :: ValidWGPort(port) ==> Names.VXLANMain(port) in reserved)
    && (forall k :: 0 <= k < |secys| ==> secys[k].name !in reserved)
    && (forall a, b :: 0 <= a < b < |secys| ==> secys[a].name != secys[b].name)
  }

  /** The links that a main pass reports, each from its own leaf of a reachable configuration, have
      distinct members, none of them the bridge: what the bridge of secured links relies on. */
  lemma MembersDistinct(es: seq<Event>, links: seq<MeshBridge.Status>, from: seq<nat>, macs: seq<Bytes>,
                        secys: seq<LinkSystem.SecYLink>, reserved: set<string>)
    requires |links| == |from| == |macs| && OwnNames(reserved, secys)
    requires forall i, j :: 0 <= i < j < |from| ==> from[i] < from[j]
    requires forall i :: 0 <= i < |from| && MeshBridge.Enabled(links[i]) ==>
               from[i] < |Run(EMPTY, es).leaves| && Reports(Run(EMPTY, es).leaves[from[i]], macs[i], secys, links[i])
    ensures MeshBridge.DistinctMembers(links)
  {
    ReachableSound(es);
    var leaves := Run(EMPTY, es).leaves;
    forall i | 0 <= i < |links| && MeshBridge.Enabled(links[i])
      ensures links[i].member != MESH_BRIDGE
    {
      var cfg := leaves[from[i]].macsec.value;
      assert Names.VXLANMain(cfg.port)[3] == 'v' && MESH_BRIDGE[3] == 'b';
    }
    forall i, j | 0 <= i < j < |links| && MeshBridge.Enabled(links[i]) && MeshBridge.Enabled(links[j]) && links[i].member != ""
      ensures links[i].member != links[j].member
    {
      DifferentMembers(leaves[from[i]], leaves[from[j]], macs[i], macs[j], secys, reserved, links[i], links[j]);
    }
  }

  lemma DifferentMembers(a: LeafRouter, b: LeafRouter, mac: Bytes, mac': Bytes, secys: seq<LinkSystem.SecYLink>,
                         reserved: set<string>, s: MeshBridge.Status, t: MeshBridge.Status)
    requires Reports(a, mac, secys, s) && Reports(b, mac', secys, t) && OwnNames(reserved, secys)
    requires PortRange(a.macsec.value) && PortRange(b.macsec.value) && a.macsec.value.port != b.macsec.value.port
    requires s.member != ""
    ensures s.member != t.member
  {
    var p, q := a.macsec.value, b.macsec.value;
    assert ValidWGPort(p.port) ==> Names.VXLANMain(p.port) in reserved;
    assert ValidWGPort(q.port) ==> Names.VXLANMain(q.port) in reserved;
    if s.member == t.member {
      if StoredMode(p.mode).WireGuard? && StoredMode(q.mode).WireGuard? {
        Names.NamesInjective(p.port, q.port);
      } else if StoredMode(p.mode).MACsec? && StoredMode(q.mode).MACsec? {
        var k :| 0 <= k < |secys| && secys[k].name == s.member && Mka.SCI(mac, p.port) == Some(secys[k].sci);
        var l :| 0 <= l < |secys| && secys[l].name == t.member && Mka.SCI(mac', q.port) == Some(secys[l].sci);
        assert k == l;
        Mka.SCIInjective(mac, p.port, mac', q.port);
      }
    }
  }
}
