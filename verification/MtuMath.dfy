/** Encapsulation arithmetic that both ends of a backhaul compute. */
module MtuMath {
  import opened Wrappers
  import opened Mesh

  /** Link MTU of an interface and the largest MTU its driver reports (0 if unknown). */
  datatype Nic = Nic(mtu: int, maxMTU: int)

  function CapableMTU(parentMax: int): int { Min(parentMax - MACSEC_OVERHEAD, ETHERNET_MTU) }

  function ParentCapableMTU(nic: Nic): int { CapableMTU(Max(nic.maxMTU, nic.mtu)) }

  function WGCapableUnderlay(nic: Nic): int { Min(Max(nic.maxMTU, nic.mtu), JUMBO_MTU) }

  /** The MACsec link MTU two capable sizes settle on, or None below the minimum. */
  function MACsecLinkMTU(local: int, peer: int): Option<int> {
    var mtu := Min(Min(local, peer), ETHERNET_MTU);
    if mtu < MIN_LINK_MTU then None else Some(mtu)
  }

  function UnderlayOrDefault(mtu: int): int { Max(mtu, ETHERNET_MTU) }

  function MeshUnderlay(jumbo: bool, mtu: int): int {
    if jumbo then UnderlayOrDefault(mtu) else ETHERNET_MTU
  }

  function WGInnerMTU(underlay: int): int {
    Min(underlay - WG_OVERHEAD - VXLAN_OVERHEAD, ETHERNET_MTU)
  }

  function EffectiveLinkMTU(mode: string, jumbo: bool, underlay: int, linkMTU: int): int {
    if StoredMode(mode).WireGuard? then WGInnerMTU(MeshUnderlay(jumbo, underlay))
    else if !jumbo then Min(CapableMTU(ETHERNET_MTU), linkMTU)
    else linkMTU
  }
}
