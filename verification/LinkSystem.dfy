/** The kernel's network devices as the plugin sees and changes them. Every call may fail for
    reasons of its own; `history` keeps the device table after each primitive call. */
module LinkSystem {
  import opened Wrappers
  import opened Mesh
  import opened MtuMath

  datatype Security = Security(adminUp: bool, encrypt: bool, protect: bool, replay: bool, validate: string)
  {
    predicate Secure() { encrypt && protect && replay && validate == "strict" }

    predicate Forwarding() { adminUp && Secure() }
  }

  datatype PeerConf = PeerConf(psk: string, endpoint: string)

  /** A WireGuard device: peers, the peer that owns each allowed address (an address belongs to
      one peer at a time), and the routes through the device with their source addresses. */
  datatype WGState = WGState(peers: map<Bytes, PeerConf>, allowed: map<string, Bytes>, routes: map<string, string>)

  datatype Kind =
    | Plain
    | SecY(parent: string, sci: nat, security: Security)
    | WGDev(wg: WGState)
    | VXDev(vni: int, local: string, remote: string)
    | BridgeDev

  /** It was brought up; it has the router's WireGuard key and port. */
  datatype Flag = AdminUp | Keyed

  /** A device; `routes` are the IPv4 host routes through it, `addrs` its IPv4 addresses. */
  datatype Port = Port(
    kind: Kind, master: string, isolated: bool, nic: Nic, mac: Bytes, routes: set<string>, addrs: set<string>,
    flags: set<Flag>)

  type Kernel = map<string, Port>

  /** One MACsec device as listed. */
  datatype SecYLink = SecYLink(name: string, parent: string, master: string, sci: nat, security: Security)

  /** What happens to participants' processes. */
  datatype ProcessEvent =
    | Started(parent: string, port: int, priority: int, cak: Bytes, ckn: Bytes)
    | Stopped(parent: string, port: int)

  datatype Deletion = Deletion(name: string, port: Port)

  /** A call that failed although its object exists: a lookup, the listing of the MACsec devices that
      there are, or a deletion. */
  datatype Lapse = NotFound(name: string) | NotListed(names: set<string>) | NotDeleted(name: string)

  predicate LapseOn(l: Lapse, name: string) {
    match l
    case NotFound(n) => n == name
    case NotListed(names) => name in names
    case NotDeleted(n) => n == name
  }

  /** One of these calls failed for this device. */
  predicate Lapsed(ls: seq<Lapse>, name: string) {
    exists i :: 0 <= i < |ls| && LapseOn(ls[i], name)
  }

  lemma LapsedSplit(a: seq<Lapse>, b: seq<Lapse>, name: string)
    ensures Lapsed(a + b, name) <==> Lapsed(a, name) || Lapsed(b, name)
  {
    if Lapsed(a, name) {
      var i :| 0 <= i < |a| && LapseOn(a[i], name);
      assert (a + b)[i] == a[i];
    } else if Lapsed(b, name) {
      var i :| 0 <= i < |b| && LapseOn(b[i], name);
      assert (a + b)[|a| + i] == b[i];
    }
  }

  function SecYNames(k: Kernel): set<string> {
    set n | n in k && k[n].kind.SecY?
  }

  function Enslaved(k: Kernel, name: string, master: string): Kernel
    requires name in k
  {
    var p := k[name];
    k[name := p.(master := master, isolated := p.isolated && master == p.master)]
  }

  function Deleted(k: Kernel, name: string): Kernel {
    if name in k && k[name].kind.BridgeDev? then
      map n | n in k && n != name :: if k[n].master == name then k[n].(master := "", isolated := false) else k[n]
    else k - {name}
  }

  /** A MACsec device that is still there, or was replaced by one outside every bridge. */
  predicate SameSecY(p: Port, q: Port)
    requires p.kind.SecY?
  {
    q.kind.SecY? && (q.master == "" || (q.master == p.master && q.kind.parent == p.kind.parent && q.kind.sci == p.kind.sci))
  }

  /** From `a` to `b` only MACsec devices changed, and none of them joined a bridge. This is what
      MKA participants do on their own, and what deleting MACsec devices does. */
  predicate Quiet(reserved: set<string>, a: Kernel, b: Kernel) {
    && (forall n :: n in b && n !in a ==> b[n].kind.SecY? && b[n].master == "" && n !in reserved)
    && (forall n :: n in b && n in a ==> if a[n].kind.SecY? then SameSecY(a[n], b[n]) else b[n] == a[n])
    && (forall n :: n in a && !a[n].kind.SecY? ==> n in b)
  }

  lemma QuietTransitive(r: set<string>, a: Kernel, b: Kernel, c: Kernel)
    requires Quiet(r, a, b) && Quiet(r, b, c)
    ensures Quiet(r, a, c)
  {
  }

  /** From `a` to `b` no device joined a bridge, and those still on one play the same part there. */
  predicate Calm(a: Kernel, b: Kernel) {
    forall n :: n in b && b[n].master != "" ==>
      && n in a && a[n].master == b[n].master && a[n].kind.SecY? == b[n].kind.SecY?
      && (b[n].kind.SecY? ==> a[n].kind.parent == b[n].kind.parent)
  }

  lemma CalmTransitive(a: Kernel, b: Kernel, c: Kernel)
    requires Calm(a, b) && Calm(b, c)
    ensures Calm(a, c)
  {
  }

  lemma QuietIsCalm(r: set<string>, a: Kernel, b: Kernel)
    requires Quiet(r, a, b)
    ensures Calm(a, b)
  {
  }

  /** Deleting a listed MACsec device is quiet and leaves the other listed ones as they are. */
  lemma DeleteQuiet(r: set<string>, a: Kernel, k: Kernel, link: SecYLink)
    requires Quiet(r, a, k) && Listed(k, link)
    ensures Quiet(r, a, Deleted(k, link.name))
    ensures forall l: SecYLink :: Listed(k, l) && l.name != link.name ==> Listed(Deleted(k, link.name), l)
    ensures Deleted(k, link.name) == k - {link.name}
  {
  }

  predicate Named(links: seq<SecYLink>, name: string) {
    exists i :: 0 <= i < |links| && links[i].name == name
  }

  /** One of the links from index `i` on has this name. */
  predicate NamedFrom(links: seq<SecYLink>, i: nat, name: string) {
    exists j :: i <= j < |links| && links[j].name == name
  }

  lemma NamedSnoc(links: seq<SecYLink>, link: SecYLink)
    ensures forall n :: Named(links + [link], n) <==> Named(links, n) || n == link.name
  {
    var more := links + [link];
    forall n | Named(links, n) || n == link.name
      ensures Named(more, n)
    {
      if Named(links, n) {
        var i :| 0 <= i < |links| && links[i].name == n;
        assert more[i].name == n;
      } else {
        assert more[|links|].name == n;
      }
    }
  }

  predicate Lists(k: Kernel, links: seq<SecYLink>) {
    && (forall i :: 0 <= i < |links| ==> Listed(k, links[i]))
    && (forall n :: n in k && k[n].kind.SecY? ==> Named(links, n))
    && (forall i, j :: 0 <= i < j < |links| ==> links[i].name != links[j].name)
  }

  predicate Listed(k: Kernel, l: SecYLink) {
    && l.name in k && k[l.name].kind == SecY(l.parent, l.sci, l.security)
    && k[l.name].master == l.master
  }

  /** `wg set <dev> peer <pub> preshared-key <psk> allowed-ips <ip> endpoint <endpoint>`: the peer's
      only allowed address becomes `ip`, which any other peer loses. */
  function WithPeer(wg: WGState, pub: Bytes, conf: PeerConf, ip: string): WGState {
    var others := map a | a in wg.allowed && wg.allowed[a] != pub :: wg.allowed[a];
    WGState(wg.peers[pub := conf], others[ip := pub], wg.routes)
  }

  function WithoutPeer(wg: WGState, pub: Bytes): WGState {
    WGState(wg.peers - {pub}, map a | a in wg.allowed && wg.allowed[a] != pub :: wg.allowed[a], wg.routes)
  }

  function WithRoute(wg: WGState, dst: string, src: string): WGState {
    wg.(routes := wg.routes[dst := src])
  }

  predicate HasWG(k: Kernel) {
    WG_IFACE in k && k[WG_IFACE].kind.WGDev?
  }

  function SetWG(k: Kernel, wg: WGState): Kernel
    requires HasWG(k)
  {
    k[WG_IFACE := k[WG_IFACE].(kind := WGDev(wg))]
  }

  class Sys {
    var k: Kernel
    const reserved: set<string>
    /** Lookups, listings and deletions work, and so does taking a device off its bridge. */
    const steady: bool
    /** So do all other commands, on devices that are there. */
    const works: bool
    ghost var history: seq<Kernel>
    /** Every deletion asked for, with the device as it was. */
    ghost var deletions: seq<Deletion>
    /** Every failed lookup, listing and deletion of something that exists. */
    ghost var lapses: seq<Lapse>
    ghost var processes: seq<ProcessEvent>

    ghost predicate Valid()
      reads this
    {
      && |history| > 0 && history[|history| - 1] == k && (works ==> steady)
      // The plugin's own device names and the uplink are never MACsec devices.
      && forall n :: n in reserved && n in k ==> !k[n].kind.SecY?
    }

    constructor (k: Kernel, reserved: set<string>, steady: bool, works: bool)
      requires works ==> steady
      requires forall n :: n in reserved && n in k ==> !k[n].kind.SecY?
      ensures Valid() && this.k == k && this.reserved == reserved && history == [k] && deletions == []
      ensures this.steady == steady && this.works == works && lapses == [] && processes == []
    {
      this.k, this.reserved, this.steady, this.works := k, reserved, steady, works;
      history, deletions, lapses, processes := [k], [], [], [];
    }

    /** Looks a device up; may fail although it exists. */
    method LinkInfo(name: string) returns (r: Option<Port>)
      modifies this`lapses
      ensures old(Valid()) ==> Valid()
      ensures r.Some? ==> name in k && r.value == k[name]
      ensures steady && name in k ==> r.Some?
      ensures lapses == if name in k && r.None? then old(lapses) + [NotFound(name)] else old(lapses)
    {
      var up: bool := *;
      r := if (up || steady) && name in k then Some(k[name]) else None;
      if name in k && r.None? {
        lapses := lapses + [NotFound(name)];
      }
    }

    /** Lists the MACsec devices. Participants may have created or removed some since the last call. */
    method Links() returns (r: Option<seq<SecYLink>>)
      requires Valid()
      modifies this`k, this`history, this`lapses
      ensures Valid() && history == old(history) + [k] && Quiet(reserved, old(k), k)
      ensures r.Some? ==> Lists(k, r.value)
      ensures steady ==> r.Some?
      ensures lapses == if r.None? then old(lapses) + [NotListed(SecYNames(k))] else old(lapses)
    {
      var drifted: Kernel := *;
      k := if Quiet(reserved, k, drifted) then drifted else k;
      history := history + [k];
      var up: bool := *;
      if !up && !steady {
        lapses := lapses + [NotListed(SecYNames(k))];
        return None;
      }
      var links := SecYs();
      r := Some(links);
    }

    method SecYs() returns (links: seq<SecYLink>)
      ensures Lists(k, links)
    {
      var names := set n | n in k && k[n].kind.SecY?;
      links := [];
      while names != {}
        invariant names <= k.Keys && forall n :: n in names ==> k[n].kind.SecY?
        invariant forall i :: 0 <= i < |links| ==> Listed(k, links[i]) && links[i].name !in names
        invariant forall n :: n in k && k[n].kind.SecY? && n !in names ==> Named(links, n)
        invariant forall i, j :: 0 <= i < j < |links| ==> links[i].name != links[j].name
        decreases names
      {
        var n :| n in names;
        var p := k[n];
        var link := SecYLink(n, p.kind.parent, p.master, p.kind.sci, p.kind.security);
        NamedSnoc(links, link);
        links := links + [link];
        names := names - {n};
      }
    }

    /** `ip link set dev <name> master <master>`, or nomaster for the empty string. */
    method SetMaster(name: string, master: string) returns (ok: bool)
      requires Valid()
      modifies this`k, this`history
      ensures Valid() && history == old(history) + [k]
      ensures ok ==> name in old(k)
      ensures steady && name in old(k) && master == "" ==> ok
      ensures works && name in old(k) ==> ok
      ensures k == if ok then Enslaved(old(k), name, master) else old(k)
    {
      ok := *;
      ok := (ok || works || (steady && master == "")) && name in k;
      if ok {
        k := Enslaved(k, name, master);
      }
      history := history + [k];
    }

    /** `bridge link set dev <name> isolated on`: works for bridge ports. */
    method SetIsolated(name: string) returns (ok: bool)
      requires Valid()
      modifies this`k, this`history
      ensures Valid() && history == old(history) + [k]
      ensures ok ==> name in old(k) && old(k)[name].master != ""
      ensures works && name in old(k) && old(k)[name].master != "" ==> ok
      ensures k == if ok then old(k)[name := old(k)[name].(isolated := true)] else old(k)
    {
      ok := *;
      ok := (ok || works) && name in k && k[name].master != "";
      if ok {
        k := k[name := k[name].(isolated := true)];
      }
      history := history + [k];
    }

    /** `ip link del dev <name>`. */
    method DeleteLink(name: string) returns (ok: bool)
      requires Valid()
      modifies this`k, this`history, this`deletions, this`lapses
      ensures Valid() && history == old(history) + [k]
      ensures ok ==> name in old(k)
      ensures steady && name in old(k) ==> ok
      ensures lapses == if name in old(k) && !ok then old(lapses) + [NotDeleted(name)] else old(lapses)
      ensures k == if ok then Deleted(old(k), name) else old(k)
      ensures deletions == if name in old(k) then old(deletions) + [Deletion(name, old(k)[name])] else old(deletions)
    {
      if name in k {
        deletions := deletions + [Deletion(name, k[name])];
      }
      ok := *;
      ok := (ok || steady) && name in k;
      if ok {
        k := Deleted(k, name);
      } else if name in k {
        lapses := lapses + [NotDeleted(name)];
      }
      history := history + [k];
    }

    /** `ip link add <name> type ...`: fails when the name is taken. */
    method AddLink(name: string, kind: Kind) returns (ok: bool)
      requires Valid() && !kind.SecY?
      modifies this`k, this`history
      ensures Valid() && history == old(history) + [k]
      ensures ok ==> name !in old(k)
      ensures works && name !in old(k) ==> ok
      ensures k == if ok then old(k)[name := Port(kind, "", false, Nic(ETHERNET_MTU, 0), [], {}, {}, {})] else old(k)
    {
      ok := *;
      ok := (ok || works) && name !in k;
      if ok {
        k := k[name := Port(kind, "", false, Nic(ETHERNET_MTU, 0), [], {}, {}, {})];
      }
      history := history + [k];
    }

    /** `ip link add <name> address <mac> type bridge`. */
    method AddBridge(name: string, mac: Bytes) returns (ok: bool)
      requires Valid()
      modifies this`k, this`history
      ensures Valid() && history == old(history) + [k]
      ensures ok ==> name !in old(k)
      ensures works && name !in old(k) ==> ok
      ensures k == if ok then old(k)[name := Port(BridgeDev, "", false, Nic(ETHERNET_MTU, 0), mac, {}, {}, {})] else old(k)
    {
      ok := *;
      ok := (ok || works) && name !in k;
      if ok {
        k := k[name := Port(BridgeDev, "", false, Nic(ETHERNET_MTU, 0), mac, {}, {}, {})];
      }
      history := history + [k];
    }

    method SetMTU(name: string, mtu: int) returns (ok: bool)
      requires Valid()
      modifies this`k, this`history
      ensures Valid() && history == old(history) + [k]
      ensures ok ==> name in old(k)
      ensures works && name in old(k) ==> ok
      ensures k == if ok then old(k)[name := old(k)[name].(nic := Nic(mtu, old(k)[name].nic.maxMTU))] else old(k)
    {
      ok := *;
      ok := (ok || works) && name in k;
      if ok {
        k := k[name := k[name].(nic := Nic(mtu, k[name].nic.maxMTU))];
      }
      history := history + [k];
    }

    method WGSetPeer(pub: Bytes, conf: PeerConf, ip: string) returns (ok: bool)
      requires Valid()
      modifies this`k, this`history
      ensures Valid() && history == old(history) + [k]
      ensures ok ==> HasWG(old(k))
      ensures works && HasWG(old(k)) ==> ok
      ensures k == if ok then SetWG(old(k), WithPeer(old(k)[WG_IFACE].kind.wg, pub, conf, ip)) else old(k)
    {
      ok := *;
      ok := (ok || works) && HasWG(k);
      if ok {
        k := SetWG(k, WithPeer(k[WG_IFACE].kind.wg, pub, conf, ip));
      }
      history := history + [k];
    }

    method WGRemovePeer(pub: Bytes) returns (ok: bool)
      requires Valid()
      modifies this`k, this`history
      ensures Valid() && history == old(history) + [k]
      ensures ok ==> HasWG(old(k))
      ensures works && HasWG(old(k)) ==> ok
      ensures k == if ok then SetWG(old(k), WithoutPeer(old(k)[WG_IFACE].kind.wg, pub)) else old(k)
    {
      ok := *;
      ok := (ok || works) && HasWG(k);
      if ok {
        k := SetWG(k, WithoutPeer(k[WG_IFACE].kind.wg, pub));
      }
      history := history + [k];
    }

    method WGRoute(dst: string, src: string) returns (ok: bool)
      requires Valid()
      modifies this`k, this`history
      ensures Valid() && history == old(history) + [k]
      ensures ok ==> HasWG(old(k))
      ensures works && HasWG(old(k)) ==> ok
      ensures k == if ok then SetWG(old(k), WithRoute(old(k)[WG_IFACE].kind.wg, dst, src)) else old(k)
    {
      ok := *;
      ok := (ok || works) && HasWG(k);
      if ok {
        k := SetWG(k, WithRoute(k[WG_IFACE].kind.wg, dst, src));
      }
      history := history + [k];
    }

    /** The host routes through a device. */
    method Routes(dev: string) returns (r: Option<set<string>>)
      ensures r.Some? ==> dev in k && r.value == k[dev].routes
      ensures steady && dev in k ==> r.Some?
    {
      var up: bool := *;
      r := if (up || steady) && dev in k then Some(k[dev].routes) else None;
    }

    /** `ip route replace <dst>/32 dev <dev> src <local>`. */
    method AddHostRoute(dev: string, dst: string) returns (ok: bool)
      requires Valid()
      modifies this`k, this`history
      ensures Valid() && history == old(history) + [k]
      ensures ok ==> dev in old(k)
      ensures works && dev in old(k) ==> ok
      ensures k == if ok then old(k)[dev := old(k)[dev].(routes := old(k)[dev].routes + {dst})] else old(k)
    {
      ok := *;
      ok := (ok || works) && dev in k;
      if ok {
        k := k[dev := k[dev].(routes := k[dev].routes + {dst})];
      }
      history := history + [k];
    }

    /** `ip addr replace <ip>/32 dev <dev>`. */
    method AddAddr(dev: string, ip: string) returns (ok: bool)
      requires Valid()
      modifies this`k, this`history
      ensures Valid() && history == old(history) + [k]
      ensures ok ==> dev in old(k)
      ensures works && dev in old(k) ==> ok
      ensures k == if ok then old(k)[dev := old(k)[dev].(addrs := old(k)[dev].addrs + {ip})] else old(k)
    {
      ok := *;
      ok := (ok || works) && dev in k;
      if ok {
        k := k[dev := k[dev].(addrs := k[dev].addrs + {ip})];
      }
      history := history + [k];
    }

    method SetFlag(dev: string, flag: Flag) returns (ok: bool)
      requires Valid()
      modifies this`k, this`history
      ensures Valid() && history == old(history) + [k]
      ensures ok ==> dev in old(k)
      ensures works && dev in old(k) ==> ok
      ensures k == if ok then old(k)[dev := old(k)[dev].(flags := old(k)[dev].flags + {flag})] else old(k)
    {
      ok := *;
      ok := (ok || works) && dev in k;
      if ok {
        k := k[dev := k[dev].(flags := k[dev].flags + {flag})];
      }
      history := history + [k];
    }

    /** `ip link set dev <dev> up`. */
    method SetUp(dev: string) returns (ok: bool)
      requires Valid()
      modifies this`k, this`history
      ensures Valid() && history == old(history) + [k]
      ensures ok ==> dev in old(k)
      ensures works && dev in old(k) ==> ok
      ensures k == if ok then old(k)[dev := old(k)[dev].(flags := old(k)[dev].flags + {AdminUp})] else old(k)
    {
      ok := SetFlag(dev, AdminUp);
    }

    /** `wg set <dev> private-key <file> listen-port <port>`. */
    method WGSetKey(dev: string) returns (ok: bool)
      requires Valid()
      modifies this`k, this`history
      ensures Valid() && history == old(history) + [k]
      ensures ok ==> dev in old(k)
      ensures works && dev in old(k) ==> ok
      ensures k == if ok then old(k)[dev := old(k)[dev].(flags := old(k)[dev].flags + {Keyed})] else old(k)
    {
      ok := SetFlag(dev, Keyed);
    }

    /** Starts a participant's process. */
    method StartMKA(parent: string, port: int, priority: int, cak: Bytes, ckn: Bytes) returns (ok: bool)
      modifies this`processes
      ensures works ==> ok
      ensures processes == old(processes) + if ok then [Started(parent, port, priority, cak, ckn)] else []
    {
      ok := *;
      ok := ok || works;
      if ok {
        processes := processes + [Started(parent, port, priority, cak, ckn)];
      }
    }

    method StopProcess(parent: string, port: int)
      modifies this`processes
      ensures processes == old(processes) + [Stopped(parent, port)]
    {
      processes := processes + [Stopped(parent, port)];
    }

    /** `wg show <dev> peers`. */
    method WGPeers() returns (r: Option<set<Bytes>>)
      ensures r.Some? ==> HasWG(k) && r.value == k[WG_IFACE].kind.wg.peers.Keys
      ensures steady && HasWG(k) ==> r.Some?
    {
      var up: bool := *;
      r := if (up || steady) && HasWG(k) then Some(k[WG_IFACE].kind.wg.peers.Keys) else None;
    }

    /** Names of the VXLAN devices. */
    method VXLinks() returns (r: Option<set<string>>)
      ensures r.Some? ==> r.value == set n | n in k && k[n].kind.VXDev?
      ensures steady ==> r.Some?
    {
      var up: bool := *;
      r := if up || steady then Some(set n | n in k && k[n].kind.VXDev?) else None;
    }

    /** Writing or reading a file of the plugin: it may fail and leaves the device table alone. */
    method Cmd() returns (ok: bool)
      ensures works ==> ok
    {
      ok := *;
      ok := ok || works;
    }
  }
}
