/** The stock result types, and a fact about logs. */
module Wrappers {
  datatype Option<+T> = None | Some(value: T)

  datatype Result<+T, +E> = Success(value: T) | Failure(error: E)

  lemma LongerStill<T>(a: seq<T>, b: seq<T>, c: seq<T>)
    requires a <= b <= c
    ensures a <= c
  {
  }
}

/** Constants and configuration records shared by both ends of a backhaul.
    Times are in milliseconds, sizes in bytes. */
module Mesh {
  import opened Wrappers

  type byte = b: int | 0 <= b < 0x100
  type Bytes = seq<byte>

  const ETHERNET_MTU := 1500
  const JUMBO_MTU := 9000
  const MACSEC_OVERHEAD := 32
  const WANT_PARENT := ETHERNET_MTU + MACSEC_OVERHEAD
  const MIN_LINK_MTU := 1280
  const WG_OVERHEAD := 60
  const VXLAN_OVERHEAD := 50
  const MIN_SAVED_MTU := 576

  const LEAF_PORT := 1
  const MAIN_PORT_FIRST := 2
  const MAIN_PORT_LAST := 65000
  const WG_MAX_PORT := 254
  const MIN_SECRET_LEN := 32
  const NONCE_HEX_LEN := 64

  const CONFIRM_TIMEOUT := 180_000
  const APPLY_DELAY := 2_000
  const ACK_WINDOW := 30_000
  const NO_PEER_AFTER := 60_000
  const MKA_RESTART := 30_000

  const BACKHAUL_WIREGUARD := "wireguard"
  const BRIDGE_IFACE := "br0"
  const WG_IFACE := "wgmesh"
  const VXLAN_LEAF := "mshvx0"
  const MESH_BRIDGE := "mshbr0"

  /** The mode a stored or requested record stands for: every string other than
      the WireGuard one means MACsec. */
  datatype Mode = MACsec | WireGuard

  function StoredMode(mode: string): Mode {
    if mode == BACKHAUL_WIREGUARD then WireGuard else MACsec
  }

  /** What the main router stores for one leaf. */
  datatype LeafMACsec = LeafMACsec(
    enabled: bool, mode: string, port: int, keyNonce: string, parent: string,
    linkMTU: int, underlayMTU: int, jumbo: bool, leafMAC: Bytes, leafPublicKey: Bytes)

  /** One paired leaf router in the main router's configuration. */
  datatype LeafRouter = LeafRouter(
    apiToken: string, ip: string, tlsCA: string, macsec: Option<LeafMACsec>, pending: bool)

  /** What a leaf stores about its own association; `enabledAt` is in seconds. */
  datatype LeafSide = LeafSide(
    enabled: bool, mode: string, confirmed: bool, keyNonce: string, linkMTU: int,
    underlayMTU: int, jumbo: bool, port: int, mainPublicKey: Bytes, enabledAt: int)

  /** The zero record that disabling writes. */
  const OFF := LeafSide(false, "", false, "", 0, 0, false, 0, [], 0)

  predicate ValidWGPort(port: int) { MAIN_PORT_FIRST <= port <= WG_MAX_PORT }

  predicate ValidMACsecPort(port: int) { 1 <= port <= 65534 }

  predicate IsLetter(c: char) { 'a' <= c <= 'z' || 'A' <= c <= 'Z' }

  predicate IsIfaceChar(c: char) {
    IsLetter(c) || '0' <= c <= '9' || c == '_' || c == '.' || c == '-'
  }

  /** Interface names the plugin accepts: a letter, then up to 14 more characters. */
  predicate ValidIface(name: string) {
    && 1 <= |name| <= 15
    && IsLetter(name[0])
    && forall i :: 0 <= i < |name| ==> IsIfaceChar(name[i])
  }

  /** The limits and times of the protocol, in bytes and milliseconds. */
  lemma Limits()
    ensures (ETHERNET_MTU, JUMBO_MTU, MIN_LINK_MTU, MIN_SAVED_MTU, WANT_PARENT) == (1500, 9000, 1280, 576, 1532)
    ensures (MACSEC_OVERHEAD, WG_OVERHEAD, VXLAN_OVERHEAD) == (32, 60, 50)
    ensures (LEAF_PORT, MAIN_PORT_FIRST, MAIN_PORT_LAST, WG_MAX_PORT) == (1, 2, 65000, 254)
    ensures (MIN_SECRET_LEN, NONCE_HEX_LEN) == (32, 64)
    ensures (CONFIRM_TIMEOUT, APPLY_DELAY, ACK_WINDOW, NO_PEER_AFTER, MKA_RESTART) == (180_000, 2_000, 30_000, 60_000, 30_000)
  {
  }

  /** Names are taken as they are or refused: by their first character, by the others, and by length. */
  lemma IfaceNames(name: string, c: char)
    ensures ValidIface("br0") && ValidIface("mshvx254") && ValidIface("eth0.100-a_B")
    ensures !ValidIface("") && !ValidIface("0eth") && !ValidIface("_x") && !ValidIface("eth 0") && !ValidIface("a/b")
    ensures ValidIface(name) ==>
              (ValidIface(name + [c]) <==> |name| < 15 && (IsLetter(c) || '0' <= c <= '9' || c in {'_', '.', '-'}))
    ensures ValidIface("a") && ValidIface("z") && ValidIface("A") && ValidIface("Z")
    ensures !ValidIface("@") && !ValidIface("[") && !ValidIface("`") && !ValidIface("{")
  {
    assert "eth 0"[3] == ' ' && "a/b"[1] == '/';
    if ValidIface(name) {
      var more := name + [c];
      assert more[|name|] == c && forall i :: 0 <= i < |name| ==> more[i] == name[i];
    }
  }

  function Min(a: int, b: int): int { if a <= b then a else b }

  function Max(a: int, b: int): int { if a <= b then b else a }

  function Zeros(n: nat): (z: Bytes)
    ensures |z| == n
  {
    seq(n, _ => 0)
  }
}
