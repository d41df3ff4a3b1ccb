/** The WireGuard and VXLAN devices of the backhaul and the cache that avoids re-applying what is
    already set. */
module WireGuard {
  import opened Wrappers
  import opened Mesh
  import opened MtuMath
  import opened LinkSystem
  import opened Names
  import opened PeerCache

  datatype Key = WGIface | Peer(pub: Bytes) | Underlay(dev: string, port: int)

  datatype Value = Text(text: string) | Setting(t: Tuple)

  predicate Cached(applied: map<Key, Value>, key: Key, text: string) {
    key in applied && applied[key] == Text(text)
  }

  /** Every cached peer is in the kernel as cached. */
  ghost predicate AllPresent(applied: map<Key, Value>, wg: WGState) {
    forall pub :: Peer(pub) in applied ==> applied[Peer(pub)].Setting? && Present(wg, pub, applied[Peer(pub)].t)
  }

  /** Soundness while the device exists; if it was removed from outside, nothing is claimed until
      it is made again. */
  ghost predicate CacheOk(applied: map<Key, Value>, k: Kernel) {
    HasWG(k) ==> AllPresent(applied, k[WG_IFACE].kind.wg)
  }

  /** The leaf's tunnel port exists only while the WireGuard device does. */
  predicate VxNeedsWg(k: Kernel) {
    (VXLAN_LEAF in k ==> HasWG(k)) && WGKind(k)
  }

  /** A device may get more addresses, routes and flags. */
  lemma GrownPort(k: Kernel, dev: string, p: Port)
    requires dev in k && p.kind == k[dev].kind && p.master == k[dev].master
    requires k[dev].addrs <= p.addrs && k[dev].routes <= p.routes && k[dev].flags <= p.flags
    ensures CalmStep(k, k[dev := p]) && SameWG(k, k[dev := p]) && OtherKinds(k, k[dev := p])
  {
  }

  /** The device comes up outside every bridge. */
  lemma NewWGIface(k: Kernel, p: Port)
    requires WG_IFACE !in k && WGKind(k) && p.kind.WGDev? && p.master == ""
    ensures var k' := k[WG_IFACE := p]; CalmStep(k, k') && HasWG(k') && OtherKinds(k, k')
  {
  }

  /** Settings of the WireGuard device change nothing else. */
  lemma WGSettingCalm(k: Kernel, v: WGState, wg: WGState)
    requires HasWG(k)
    ensures CalmStep(k, SetWG(k, wg)) && OtherKinds(k, SetWG(k, wg)) && HasWG(SetWG(k, wg))
    ensures SetWG(SetWG(k, v), wg) == SetWG(k, wg)
  {
  }

  /** A calm change that keeps the tunnel port on top of the WireGuard device. */
  predicate CalmStep(a: Kernel, b: Kernel) {
    Calm(a, b) && (WGKind(a) ==> WGKind(b)) && (VxNeedsWg(a) ==> VxNeedsWg(b))
  }

  predicate AllCalm(a: Kernel, history: seq<Kernel>, from: nat) {
    forall i :: from <= i < |history| ==> CalmStep(a, history[i])
  }

  lemma CalmStepTransitive(a: Kernel, b: Kernel, c: Kernel)
    requires CalmStep(a, b) && CalmStep(b, c)
    ensures CalmStep(a, c)
  {
    CalmTransitive(a, b, c);
  }

  /** Calm steps in a row are calm: first those of `before`, then those of `history`. */
  lemma CalmLater(a: Kernel, b: Kernel, first: seq<Kernel>, before: seq<Kernel>, history: seq<Kernel>)
    requires first <= before <= history && CalmStep(a, b)
    requires AllCalm(a, before, |first|) && AllCalm(b, history, |before|)
    ensures first <= history && AllCalm(a, history, |first|)
    ensures |before| < |history| ==> CalmStep(a, history[|history| - 1])
  {
    forall i | |first| <= i < |history| ensures CalmStep(a, history[i]) {
      if i < |before| {
        assert before[i] == history[i];
      } else {
        CalmStepTransitive(a, b, history[i]);
      }
    }
  }

  // ---- Peer settings ----

  function CacheAfter(applied: map<Key, Value>, pub: Bytes, t: Tuple, o: Outcome): map<Key, Value> {
    if o.Done? then applied[Peer(pub) := Setting(t)] else applied
  }

  /** A peer step leaves the other entries alone. */
  lemma OtherEntries(before: map<Key, Value>, applied: map<Key, Value>, pub: Bytes, t: Tuple, o: Outcome)
    ensures var after := CacheAfter(applied, pub, t, o);
            && (forall key, text :: Cached(applied, key, text) && !key.Peer? ==> Cached(after, key, text))
            && (SamePeers(applied, before) ==> SamePeersBut(pub, after, before))
  {
  }

  /** No other cached peer has the tunnel address of this setting. */
  ghost predicate AddressFree(applied: map<Key, Value>, pub: Bytes, t: Tuple) {
    forall other :: other != pub && Peer(other) in applied && applied[Peer(other)].Setting? ==>
      applied[Peer(other)].t.tunnelIP != t.tunnelIP
  }

  /** When a peer step keeps the cache sound: nothing reached the kernel; or no other cached peer
      loses its address and, if the route could not be set, the peer was not cached with another
      secret, endpoint or address. */
  ghost predicate Keeps(applied: map<Key, Value>, pub: Bytes, t: Tuple, o: Outcome) {
    match o
    case Skipped => true
    case SetFailed => true
    case RouteFailed =>
      && AddressFree(applied, pub, t)
      && (Peer(pub) in applied && applied[Peer(pub)].Setting? ==>
            applied[Peer(pub)].t == t.(local := applied[Peer(pub)].t.local))
    case Done => AddressFree(applied, pub, t)
  }

  /** The cache is sound after a peer step exactly when `Keeps` holds before it. */
  lemma PeerStepSound(applied: map<Key, Value>, wg: WGState, pub: Bytes, t: Tuple, o: Outcome)
    requires AllPresent(applied, wg)
    ensures AllPresent(CacheAfter(applied, pub, t, o), WGAfter(wg, pub, t, o)) <==> Keeps(applied, pub, t, o)
  {
    var applied', wg' := CacheAfter(applied, pub, t, o), WGAfter(wg, pub, t, o);
    if o.RouteFailed? || o.Done? {
      if Keeps(applied, pub, t, o) {
        forall p | Peer(p) in applied' ensures applied'[Peer(p)].Setting? && Present(wg', p, applied'[Peer(p)].t) {
          assert Peer(p) in applied || p == pub;
        }
      } else if !AddressFree(applied, pub, t) {
        var other :| other != pub && Peer(other) in applied && applied[Peer(other)].Setting?
                     && applied[Peer(other)].t.tunnelIP == t.tunnelIP;
        assert applied'[Peer(other)] == applied[Peer(other)];
        assert wg'.allowed[t.tunnelIP] == pub;
        assert !Present(wg', other, applied'[Peer(other)].t);
      } else {
        assert !Present(wg', pub, applied'[Peer(pub)].t);
      }
    }
  }

  // ---- The cache as a run ----

  function WGOf(k: Kernel): Option<WGState> {
    if HasWG(k) then Some(k[WG_IFACE].kind.wg) else None
  }

  /** The peer entries of the cache are these. */
  ghost predicate Mirrors(applied: map<Key, Value>, cache: map<Bytes, Tuple>) {
    forall pub :: (Peer(pub) in applied <==> pub in cache) && (pub in cache ==> applied[Peer(pub)] == Setting(cache[pub]))
  }

  /** Cache and device are where the changes lead. */
  ghost predicate Tracking(applied: map<Key, Value>, start: View, changes: seq<Change>, wg: Option<WGState>) {
    && start.cache == map[] && LegalRun(start, changes)
    && Mirrors(applied, Run(start, changes).cache) && wg == Run(start, changes).wg
  }

  ghost predicate SamePeers(a: map<Key, Value>, b: map<Key, Value>) {
    forall pub :: (Peer(pub) in a <==> Peer(pub) in b) && (Peer(pub) in a ==> a[Peer(pub)] == b[Peer(pub)])
  }

  ghost predicate SamePeersBut(pub: Bytes, a: map<Key, Value>, b: map<Key, Value>) {
    forall p :: p != pub ==> (Peer(p) in a <==> Peer(p) in b) && (Peer(p) in a ==> a[Peer(p)] == b[Peer(p)])
  }

  /** The changes of one leaf's turn: perhaps the device is made, perhaps the peer step is reached. */
  predicate LeafTurn(cs: seq<Change>, pub: Bytes, t: Tuple) {
    || cs == [] || cs == [Made]
    || (|cs| == 1 && PeerStep(cs[0], pub, t))
    || (|cs| == 2 && cs[0] == Made && PeerStep(cs[1], pub, t))
  }

  predicate PeerStep(c: Change, pub: Bytes, t: Tuple) {
    c.Step? && c.pub == pub && c.t == t
  }

  class Backhaul {
    const sys: Sys
    var applied: map<Key, Value>
    /** Every change of cached peers and WireGuard device so far. */
    ghost var changes: seq<Change>
    ghost const start: View

    constructor (sys: Sys)
      ensures this.sys == sys && applied == map[] && changes == [] && Tracks()
    {
      this.sys, applied, changes := sys, map[], [];
      start := View(map[], WGOf(sys.k));
    }

    ghost predicate Valid()
      reads this, sys
    {
      sys.Valid()
    }

    /** Cache and device are where the logged changes lead from an empty cache. */
    ghost predicate Tracks()
      reads this, sys
    {
      Tracking(applied, start, changes, WGOf(sys.k))
    }

    /** Which cached peers are in the kernel, exactly: those not spoiled since they were last set. */
    ghost predicate Exact()
      reads this, sys
    {
      HasWG(sys.k) ==>
        forall pub :: Peer(pub) in applied ==>
          && applied[Peer(pub)].Setting?
          && (Present(sys.k[WG_IFACE].kind.wg, pub, applied[Peer(pub)].t)
              <==> !Spoiled(changes, pub, applied[Peer(pub)].t))
    }

    lemma ExactIfDetermined()
      requires Tracks() && Determined(changes)
      ensures Exact()
    {
      if HasWG(sys.k) {
        forall pub | Peer(pub) in applied
          ensures applied[Peer(pub)].Setting?
          ensures Present(sys.k[WG_IFACE].kind.wg, pub, applied[Peer(pub)].t) <==> !Spoiled(changes, pub, applied[Peer(pub)].t)
        {
          PresentExactly(start, changes, pub);
        }
      }
    }

    /** Logs one change. */
    ghost method Log(c: Change)
      modifies this`changes
      ensures changes == old(changes) + [c]
      ensures Run(start, changes) == Next(Run(start, old(changes)), c)
      ensures LegalRun(start, changes) <==> LegalRun(start, old(changes)) && Legal(Run(start, old(changes)), c)
    {
      RunSnoc(start, changes, c);
      changes := changes + [c];
    }

    /** The address and the host route towards the other end. */
    method SetUnderlay(dev: string, local: string, peer: string) returns (ok: bool)
      requires Valid()
      modifies sys`k, sys`history
      ensures Valid() && old(sys.history) <= sys.history && AllCalm(old(sys.k), sys.history, |old(sys.history)|)
      ensures CalmStep(old(sys.k), sys.k) && SameWG(old(sys.k), sys.k) && OtherKinds(old(sys.k), sys.k)
      ensures ok ==> Grounded(sys.k, dev, local, peer)
      ensures sys.works && dev in old(sys.k) ==> ok
    {
      ghost var a := sys.k;
      ok := sys.AddAddr(dev, local);
      if ok {
        GrownPort(a, dev, sys.k[dev]);
        ok := sys.AddHostRoute(dev, peer);
        assert sys.k == a[dev := sys.k[dev]];
        GrownPort(a, dev, sys.k[dev]);
      }
    }

    /** Whether this is cached; a cached route that is found lost is forgotten instead. */
    method StillSet(key: Key, value: string, dev: string, peer: string) returns (cached: bool, ghost listed: bool)
      requires Valid() && key.Underlay?
      modifies this`applied
      ensures SameElsewhere(key, old(applied), applied) && (cached <==> key in applied && applied[key] == Text(value))
      ensures !cached && key in old(applied) && old(applied)[key] == Text(value) ==>
                listed && dev in sys.k && peer !in sys.k[dev].routes
      ensures cached && listed ==> dev in sys.k && peer in sys.k[dev].routes
      ensures cached ==> applied == old(applied)
      ensures sys.steady && dev in sys.k ==> listed
      ensures old(Tracks()) ==> Tracks()
    {
      cached, listed := key in applied && applied[key] == Text(value), true;
      if cached {
        var routes := sys.Routes(dev);
        listed := routes.Some?;
        if routes.Some? && peer !in routes.value {
          applied := applied - {key};
          cached := false;
        }
      }
    }

    /** Sets address and host route towards the other end, once. A host route found lost forces it
        to be set again, so on success the route is there unless the routes could not be listed. */
    method EnsureUnderlay(key: Key, value: string, dev: string, local: string, peer: string) returns (ok: bool, ghost listed: bool)
      requires Valid() && key.Underlay?
      modifies this`applied, sys`k, sys`history
      ensures Valid() && old(sys.history) <= sys.history && AllCalm(old(sys.k), sys.history, |old(sys.history)|)
      ensures CalmStep(old(sys.k), sys.k) && SameWG(old(sys.k), sys.k) && SameElsewhere(key, old(applied), applied)
      ensures OtherKinds(old(sys.k), sys.k)
      ensures ok ==> key in applied && applied[key] == Text(value)
      ensures ok && listed ==> dev in sys.k && peer in sys.k[dev].routes
      ensures ok && !Cached(old(applied), key, value) ==> Grounded(sys.k, dev, local, peer)
      ensures sys.works && dev in old(sys.k) ==> ok
      // What is applied and still there is left alone.
      ensures Cached(old(applied), key, value) && dev in old(sys.k) && peer in old(sys.k)[dev].routes ==>
                ok && sys.k == old(sys.k) && applied == old(applied)
      ensures !ok ==> key !in applied || applied[key] != Text(value)
      ensures sys.steady && dev in old(sys.k) ==> listed
      ensures old(Tracks()) ==> Tracks()
    {
      ok, listed := StillSet(key, value, dev, peer);
      if !ok {
        ok := SetUnderlay(dev, local, peer);
        if ok {
          applied := applied[key := Text(value)];
        }
      }
    }

    /** Forgets what was applied to an earlier device. */
    method ForgetDevice()
      modifies this`applied, this`changes
      ensures (forall pub :: Peer(pub) !in applied) && WGIface !in applied && SameUnderlays(old(applied), applied)
      ensures changes == old(changes) + [Made]
      ensures Run(start, changes) == Next(Run(start, old(changes)), Made)
      ensures LegalRun(start, changes) <==> LegalRun(start, old(changes)) && Run(start, old(changes)).wg.None?
    {
      applied := map key | key in applied && !key.WGIface? && !key.Peer? :: applied[key];
      Log(Made);
    }

    /** Makes the device if it is missing, which forgets what was applied to an earlier one. */
    method MakeWGIface() returns (ok: bool)
      requires Valid() && WGKind(sys.k)
      modifies this`applied, this`changes, sys`k, sys`history, sys`lapses
      ensures Valid() && old(sys.history) <= sys.history && old(sys.lapses) <= sys.lapses && AllCalm(old(sys.k), sys.history, |old(sys.history)|)
      ensures CalmStep(old(sys.k), sys.k) && (CacheOk(old(applied), old(sys.k)) ==> CacheOk(applied, sys.k))
      ensures (ok ==> HasWG(sys.k)) && OtherKinds(old(sys.k), sys.k)
      ensures old(Tracks()) ==> Tracks()
      ensures changes == old(changes) + (if !HasWG(old(sys.k)) && HasWG(sys.k) then [Made] else [])
      ensures HasWG(old(sys.k)) ==> sys.k == old(sys.k) && applied == old(applied)
      ensures sys.works ==> ok
      ensures !HasWG(old(sys.k)) && HasWG(sys.k) ==> WGIface !in applied && forall pub :: Peer(pub) !in applied
      ensures SameUnderlays(old(applied), applied)
      ensures FewerPeers(applied, old(applied))
    {
      var there := sys.LinkInfo(WG_IFACE);
      ok := there.Some?;
      if there.None? {
        ok := sys.AddLink(WG_IFACE, WGDev(WGState(map[], map[], map[])));
        if ok {
          NewWGIface(old(sys.k), sys.k[WG_IFACE]);
          ForgetDevice();
        }
      }
    }

    /** Sets private key, port and address once. */
    method ConfigureWGIface(local: string) returns (ok: bool)
      requires Valid()
      modifies this`applied, sys`k, sys`history
      ensures Valid() && old(sys.history) <= sys.history && AllCalm(old(sys.k), sys.history, |old(sys.history)|)
      ensures CalmStep(old(sys.k), sys.k) && SameWG(old(sys.k), sys.k) && OtherKinds(old(sys.k), sys.k)
      ensures ok && !Cached(old(applied), WGIface, local) ==>
                WG_IFACE in sys.k && local in sys.k[WG_IFACE].addrs && Keyed in sys.k[WG_IFACE].flags
      ensures Cached(old(applied), WGIface, local) ==> ok && sys.k == old(sys.k) && applied == old(applied)
      ensures sys.works && WG_IFACE in old(sys.k) ==> ok
      ensures ok ==> WGIface in applied && applied[WGIface] == Text(local)
      ensures SameElsewhere(WGIface, old(applied), applied)
      ensures old(Tracks()) ==> Tracks()
    {
      if WGIface in applied && applied[WGIface] == Text(local) {
        return true;
      }
      ok := KeyAndAddress(local);
      if ok {
        applied := applied[WGIface := Text(local)];
      }
    }

    method KeyAndAddress(local: string) returns (ok: bool)
      requires Valid()
      modifies sys`k, sys`history
      ensures Valid() && old(sys.history) <= sys.history && AllCalm(old(sys.k), sys.history, |old(sys.history)|)
      ensures CalmStep(old(sys.k), sys.k) && SameWG(old(sys.k), sys.k) && OtherKinds(old(sys.k), sys.k)
      ensures ok ==> WG_IFACE in sys.k && local in sys.k[WG_IFACE].addrs && Keyed in sys.k[WG_IFACE].flags
      ensures sys.works && WG_IFACE in old(sys.k) ==> ok
    {
      ok := sys.WGSetKey(WG_IFACE);
      if ok {
        ok := sys.AddAddr(WG_IFACE, local);
      }
    }

    /** Corrects the MTU of a device, as far as possible, and brings it up. */
    method Tune(name: string, mtu: int) returns (ok: bool)
      requires Valid()
      modifies sys`k, sys`history, sys`lapses
      ensures Valid() && old(sys.history) <= sys.history && old(sys.lapses) <= sys.lapses && AllCalm(old(sys.k), sys.history, |old(sys.history)|)
      ensures CalmStep(old(sys.k), sys.k) && SameWG(old(sys.k), sys.k) && OtherKinds(old(sys.k), sys.k)
      ensures OnlyAt(name, old(sys.k), sys.k) && (name in sys.k <==> name in old(sys.k))
      ensures (ok ==> IsUp(sys.k, name)) && (sys.works && name in old(sys.k) ==> ok && HasMTU(sys.k, name, mtu))
    {
      FixMTU(name, mtu);
      ghost var middle, h := sys.k, sys.history;
      ok := sys.SetUp(name);
      if ok {
        GrownPort(middle, name, middle[name].(flags := middle[name].flags + {AdminUp}));
      }
      CalmStepTransitive(old(sys.k), middle, sys.k);
    }

    method FixMTU(name: string, mtu: int)
      requires Valid()
      modifies sys`k, sys`history, sys`lapses
      ensures Valid() && old(sys.history) <= sys.history && old(sys.lapses) <= sys.lapses && AllCalm(old(sys.k), sys.history, |old(sys.history)|)
      ensures CalmStep(old(sys.k), sys.k) && SameWG(old(sys.k), sys.k) && OtherKinds(old(sys.k), sys.k)
      ensures OnlyAt(name, old(sys.k), sys.k) && (name in sys.k <==> name in old(sys.k))
      ensures sys.works && name in old(sys.k) ==> HasMTU(sys.k, name, mtu)
    {
      var info := sys.LinkInfo(name);
      if info.Some? && info.value.nic.mtu != mtu {
        var _ := sys.SetMTU(name, mtu);
      }
    }

    /** The device, its key, port and address, and its MTU. On success every cached peer is present,
        even if the device had been removed from outside. */
    method EnsureWGIface(local: string, mtu: int) returns (ok: bool)
      requires Valid() && WGKind(sys.k)
      modifies this`applied, this`changes, sys`k, sys`history, sys`lapses
      ensures Valid() && old(sys.history) <= sys.history && old(sys.lapses) <= sys.lapses && AllCalm(old(sys.k), sys.history, |old(sys.history)|)
      ensures CalmStep(old(sys.k), sys.k) && (CacheOk(old(applied), old(sys.k)) ==> CacheOk(applied, sys.k))
      ensures ok ==> HasWG(sys.k) && WGIface in applied && applied[WGIface] == Text(local)
      ensures (old(Tracks()) ==> Tracks()) && OtherKinds(old(sys.k), sys.k)
      ensures changes == old(changes) + (if !HasWG(old(sys.k)) && HasWG(sys.k) then [Made] else [])
      ensures HasWG(old(sys.k)) ==> HasWG(sys.k) && sys.k[WG_IFACE].kind == old(sys.k)[WG_IFACE].kind
      ensures FewerPeers(applied, old(applied)) && SameUnderlays(old(applied), applied)
      ensures HasWG(old(sys.k)) ==> SamePeers(applied, old(applied))
      ensures sys.works ==> ok && HasMTU(sys.k, WG_IFACE, mtu)
      ensures ok && (!HasWG(old(sys.k)) || !Cached(old(applied), WGIface, local)) ==>
                local in sys.k[WG_IFACE].addrs && Keyed in sys.k[WG_IFACE].flags
      ensures ok ==> IsUp(sys.k, WG_IFACE)
    {
      ok := MakeWGIface();
      if !ok {
        return;
      }
      ghost var k1, h1 := sys.k, sys.history;
      ok := SetUpWGIface(local, mtu);
      CalmLater(old(sys.k), k1, old(sys.history), h1, sys.history);
      CalmStepTransitive(old(sys.k), k1, sys.k);
    }

    /** Key, port, address and MTU of the device. */
    method SetUpWGIface(local: string, mtu: int) returns (ok: bool)
      requires Valid() && HasWG(sys.k)
      modifies this`applied, sys`k, sys`history, sys`lapses
      ensures Valid() && old(sys.history) <= sys.history && old(sys.lapses) <= sys.lapses && AllCalm(old(sys.k), sys.history, |old(sys.history)|)
      ensures CalmStep(old(sys.k), sys.k) && SameWG(old(sys.k), sys.k) && OtherKinds(old(sys.k), sys.k)
      ensures ok ==> WGIface in applied && applied[WGIface] == Text(local)
      ensures SameElsewhere(WGIface, old(applied), applied) && (old(Tracks()) ==> Tracks())
      ensures ok && !Cached(old(applied), WGIface, local) ==> local in sys.k[WG_IFACE].addrs && Keyed in sys.k[WG_IFACE].flags
      ensures ok ==> IsUp(sys.k, WG_IFACE)
      ensures sys.works ==> ok && HasMTU(sys.k, WG_IFACE, mtu)
    {
      ok := ConfigureWGIface(local);
      if !ok {
        return;
      }
      ghost var middle, h := sys.k, sys.history;
      ok := Tune(WG_IFACE, mtu);
      CalmLater(old(sys.k), middle, old(sys.history), h, sys.history);
      CalmStepTransitive(old(sys.k), middle, sys.k);
    }

    /** The two commands of a peer setting. */
    method SetPeer(pub: Bytes, t: Tuple) returns (ok: bool, ghost o: Outcome)
      requires Valid() && WGKind(sys.k)
      modifies sys`k, sys`history
      ensures Valid() && old(sys.history) <= sys.history && AllCalm(old(sys.k), sys.history, |old(sys.history)|)
      ensures CalmStep(old(sys.k), sys.k) && OtherKinds(old(sys.k), sys.k) && !o.Skipped? && (ok <==> o.Done?)
      ensures HasWG(sys.k) == HasWG(old(sys.k)) && (!o.SetFailed? ==> HasWG(sys.k))
      ensures sys.works && HasWG(sys.k) ==> ok
      ensures sys.k == if HasWG(sys.k) then SetWG(old(sys.k), WGAfter(old(sys.k)[WG_IFACE].kind.wg, pub, t, o)) else old(sys.k)
    {
      if HasWG(sys.k) {
        var wg := sys.k[WG_IFACE].kind.wg;
        WGSettingCalm(sys.k, wg, WGAfter(wg, pub, t, RouteFailed));
        WGSettingCalm(sys.k, WGAfter(wg, pub, t, RouteFailed), WGAfter(wg, pub, t, Done));
      }
      var done := sys.WGSetPeer(pub, PeerConf(t.psk, t.endpoint), t.tunnelIP);
      if !done {
        return false, SetFailed;
      }
      var route := sys.WGRoute(t.tunnelIP, t.local);
      if !route {
        return false, RouteFailed;
      }
      return true, Done;
    }

    /** The peer setting, unless it is cached. */
    method ApplyPeer(pub: Bytes, t: Tuple) returns (ok: bool, ghost o: Outcome)
      requires Valid() && WGKind(sys.k)
      modifies this`applied, this`changes, sys`k, sys`history
      ensures Valid() && old(sys.history) <= sys.history && AllCalm(old(sys.k), sys.history, |old(sys.history)|)
      ensures CalmStep(old(sys.k), sys.k) && OtherKinds(old(sys.k), sys.k) && HasWG(old(sys.k)) == HasWG(sys.k)
      ensures HasWG(sys.k) ==> sys.k[WG_IFACE].nic == old(sys.k)[WG_IFACE].nic
      ensures (ok <==> Completed(o)) && (o.RouteFailed? || o.Done? ==> HasWG(sys.k)) && (sys.works && HasWG(sys.k) ==> ok)
      ensures o.Skipped? <==> Peer(pub) in old(applied) && old(applied)[Peer(pub)] == Setting(t)
      ensures applied == CacheAfter(old(applied), pub, t, o)
      ensures HasWG(sys.k) ==> sys.k[WG_IFACE].kind.wg == WGAfter(old(sys.k)[WG_IFACE].kind.wg, pub, t, o)
      ensures changes == old(changes) + [Step(pub, t, o)] && (old(Tracks()) ==> Tracks())
    {
      if Peer(pub) in applied && applied[Peer(pub)] == Setting(t) {
        ok, o := true, Skipped;
      } else {
        ok, o := SetPeer(pub, t);
        if ok {
          applied := applied[Peer(pub) := Setting(t)];
        }
      }
      Log(Step(pub, t, o));
    }

    /** Sets one peer and its route, once. The cache stays sound exactly when `Keeps` says so; on
        success this peer is in the kernel as asked for. */
    method EnsureWGPeer(pub: Bytes, t: Tuple) returns (ok: bool, ghost o: Outcome)
      requires Valid() && WGKind(sys.k)
      modifies this`applied, this`changes, sys`k, sys`history
      ensures Valid() && old(sys.history) <= sys.history && AllCalm(old(sys.k), sys.history, |old(sys.history)|)
      ensures CalmStep(old(sys.k), sys.k) && OtherKinds(old(sys.k), sys.k) && HasWG(old(sys.k)) == HasWG(sys.k)
      ensures HasWG(sys.k) ==> sys.k[WG_IFACE].nic == old(sys.k)[WG_IFACE].nic
      ensures changes == old(changes) + [Step(pub, t, o)] && (old(Tracks()) ==> Tracks())
      ensures (ok <==> o.Skipped? || o.Done?) && (o.RouteFailed? || o.Done? ==> HasWG(sys.k))
      ensures sys.works && HasWG(sys.k) ==> ok
      ensures o.Skipped? <==> Peer(pub) in old(applied) && old(applied)[Peer(pub)] == Setting(t)
      ensures applied == CacheAfter(old(applied), pub, t, o)
      ensures HasWG(sys.k) ==> sys.k[WG_IFACE].kind.wg == WGAfter(old(sys.k)[WG_IFACE].kind.wg, pub, t, o)
      ensures CacheOk(old(applied), old(sys.k)) ==>
                (CacheOk(applied, sys.k) <==> !HasWG(sys.k) || Keeps(old(applied), pub, t, o))
      ensures HasWG(sys.k) && (o.Done? || (o.Skipped? && CacheOk(old(applied), old(sys.k)))) ==>
                Present(sys.k[WG_IFACE].kind.wg, pub, t)
    {
      ok, o := ApplyPeer(pub, t);
      if HasWG(sys.k) && CacheOk(old(applied), old(sys.k)) {
        PeerStepSound(old(applied), old(sys.k)[WG_IFACE].kind.wg, pub, t, o);
      }
    }

    /** The tunnel port, if there is no device of that name; one that is there is left as it is. */
    method MakeVXLAN(name: string, kind: Kind) returns (ok: bool)
      requires Valid() && WGKind(sys.k) && HasWG(sys.k) && name != WG_IFACE && kind.VXDev?
      modifies sys`k, sys`history, sys`lapses
      ensures Valid() && old(sys.history) <= sys.history && old(sys.lapses) <= sys.lapses && AllCalm(old(sys.k), sys.history, |old(sys.history)|)
      ensures CalmStep(old(sys.k), sys.k) && SameWG(old(sys.k), sys.k)
      ensures (ok ==> name in sys.k) && Tunnelled(old(sys.k), sys.k, name, kind) && Grows(old(sys.k), sys.k)
      ensures OnlyAt(name, old(sys.k), sys.k) && (sys.works ==> ok)
    {
      var there := sys.LinkInfo(name);
      ok := there.Some?;
      if there.None? {
        ok := sys.AddLink(name, kind);
      }
    }

    method EnsureVXLAN(name: string, kind: Kind, mtu: int) returns (ok: bool)
      requires Valid() && WGKind(sys.k) && HasWG(sys.k) && name != WG_IFACE && kind.VXDev?
      modifies sys`k, sys`history, sys`lapses
      ensures Valid() && old(sys.history) <= sys.history && old(sys.lapses) <= sys.lapses && AllCalm(old(sys.k), sys.history, |old(sys.history)|)
      ensures CalmStep(old(sys.k), sys.k) && SameWG(old(sys.k), sys.k)
      ensures (ok ==> name in sys.k) && Tunnelled(old(sys.k), sys.k, name, kind) && Grows(old(sys.k), sys.k)
      ensures OnlyAt(name, old(sys.k), sys.k) && (sys.works ==> ok && HasMTU(sys.k, name, mtu)) && (ok ==> IsUp(sys.k, name))
    {
      ok := MakeVXLAN(name, kind);
      if !ok {
        return;
      }
      ghost var middle, h := sys.k, sys.history;
      ok := Tune(name, mtu);
      CalmLater(old(sys.k), middle, old(sys.history), h, sys.history);
      CalmStepTransitive(old(sys.k), middle, sys.k);
    }

    /** Underlay address and WireGuard device. */
    method Ground(key: Key, value: string, dev: string, local: string, far: string, tunnelIP: string, mtu: int) returns (ok: bool)
      requires Valid() && WGKind(sys.k) && key.Underlay?
      modifies this`applied, this`changes, sys`k, sys`history, sys`lapses
      ensures Valid() && old(sys.history) <= sys.history && old(sys.lapses) <= sys.lapses && AllCalm(old(sys.k), sys.history, |old(sys.history)|)
      ensures CalmStep(old(sys.k), sys.k) && WGKind(sys.k) && (ok ==> HasWG(sys.k)) && OtherKinds(old(sys.k), sys.k)
      ensures old(Tracks()) ==> Tracks()
      ensures changes == old(changes) + (if !HasWG(old(sys.k)) && HasWG(sys.k) then [Made] else [])
      ensures HasWG(old(sys.k)) ==> HasWG(sys.k)
      ensures CacheOk(old(applied), old(sys.k)) ==> CacheOk(applied, sys.k)
      ensures FewerPeers(applied, old(applied)) && (HasWG(old(sys.k)) ==> SamePeers(applied, old(applied)))
      ensures ok ==> Cached(applied, key, value) && Cached(applied, WGIface, tunnelIP)
      ensures ok && !Cached(old(applied), key, value) ==> Grounded(sys.k, dev, local, far)
      ensures ok && sys.steady && dev in old(sys.k) ==> dev in sys.k && far in sys.k[dev].routes
      ensures ok && (!HasWG(old(sys.k)) || !Cached(old(applied), WGIface, tunnelIP)) ==>
                tunnelIP in sys.k[WG_IFACE].addrs && Keyed in sys.k[WG_IFACE].flags
      ensures ok ==> IsUp(sys.k, WG_IFACE)
      ensures sys.works && dev in old(sys.k) ==> ok && HasMTU(sys.k, WG_IFACE, mtu)
    {
      ghost var listed;
      ok, listed := EnsureUnderlay(key, value, dev, local, far);
      if ok {
        ghost var k1, h1 := sys.k, sys.history;
        ok := EnsureWGIface(tunnelIP, mtu);
        CalmLater(old(sys.k), k1, old(sys.history), h1, sys.history);
        CalmStepTransitive(old(sys.k), k1, sys.k);
      }
    }

    /** Peer and tunnel port. Whether or not it succeeds, the peer entries of the cache are those after
        a peer step with outcome `o`, and the cache stays sound exactly when `Keeps` says so. */
    method Overlay(pub: Bytes, t: Tuple, name: string, kind: Kind, inner: int) returns (ok: bool, ghost o: Outcome)
      requires Valid() && WGKind(sys.k) && HasWG(sys.k) && name != WG_IFACE && kind.VXDev?
      modifies this`applied, this`changes, sys`k, sys`history, sys`lapses
      ensures Valid() && old(sys.history) <= sys.history && old(sys.lapses) <= sys.lapses && AllCalm(old(sys.k), sys.history, |old(sys.history)|)
      ensures CalmStep(old(sys.k), sys.k) && WGKind(sys.k) && HasWG(sys.k) && Tunnelled(old(sys.k), sys.k, name, kind)
      ensures applied == CacheAfter(old(applied), pub, t, o)
      ensures changes == old(changes) + [Step(pub, t, o)] && (old(Tracks()) ==> Tracks())
      ensures CacheOk(old(applied), old(sys.k)) ==> (CacheOk(applied, sys.k) <==> Keeps(old(applied), pub, t, o))
      ensures ok ==> Completed(o) && name in sys.k && IsUp(sys.k, name)
      ensures Completed(o) ==> Peer(pub) in applied && applied[Peer(pub)] == Setting(t)
      ensures Completed(o) && CacheOk(old(applied), old(sys.k)) ==> Present(sys.k[WG_IFACE].kind.wg, pub, t)
      ensures Grows(old(sys.k), sys.k) && sys.k[WG_IFACE].nic == old(sys.k)[WG_IFACE].nic
      ensures SameBut(name, old(sys.k), sys.k) && (sys.works ==> ok && HasMTU(sys.k, name, inner))
    {
      ok, o := EnsureWGPeer(pub, t);
      if ok {
        ghost var k1, h1 := sys.k, sys.history;
        ok := EnsureVXLAN(name, kind, inner);
        CalmLater(old(sys.k), k1, old(sys.history), h1, sys.history);
        CalmStepTransitive(old(sys.k), k1, sys.k);
      }
    }

    /** The main router's side of one leaf's link; `wgMTU` suits every leaf. `o` is how far the peer
        step got, or None if it was not reached. Success means that the step completed; a failure may
        still have changed the peer, as `o` tells. */
    method MainWGLeaf(cfg: LeafMACsec, wgMTU: int) returns (ok: bool, ghost o: Option<Outcome>)
      requires Valid() && WGKind(sys.k)
      modifies this`applied, this`changes, sys`k, sys`history, sys`lapses
      ensures Valid() && old(sys.history) <= sys.history && old(sys.lapses) <= sys.lapses && AllCalm(old(sys.k), sys.history, |old(sys.history)|)
      ensures CalmStep(old(sys.k), sys.k) && WGKind(sys.k)
      ensures old(Tracks()) ==> Tracks()
      ensures changes == old(changes) + (if !HasWG(old(sys.k)) && HasWG(sys.k) then [Made] else [])
                         + (if o.Some? then [Step(cfg.leafPublicKey, MainTuple(cfg), o.value)] else [])
      ensures HasWG(old(sys.k)) || o.Some? ==> HasWG(sys.k)
      ensures o.Some? ==> ValidWGPort(cfg.port) && |cfg.leafPublicKey| == 32
      ensures ok ==> o.Some? && Completed(o.value) && VXLANMain(cfg.port) in sys.k
                     && IsUp(sys.k, VXLANMain(cfg.port)) && IsUp(sys.k, WG_IFACE)
      // Its tunnel port is the one of this port, unless another was there under that name.
      ensures ok ==> Tunnelled(old(sys.k), sys.k, VXLANMain(cfg.port), MainVX(cfg.port)) && MainLinked(cfg)
      // The ground it stands on, unless that was there before; and with every command working, all of it.
      ensures ok && !Cached(old(applied), Underlay(cfg.parent, cfg.port), "set") ==>
                Grounded(sys.k, cfg.parent, UnderlayIP(MAIN_SIDE), UnderlayIP(cfg.port))
      ensures ok && sys.steady && cfg.parent in old(sys.k) ==>
                cfg.parent in sys.k && UnderlayIP(cfg.port) in sys.k[cfg.parent].routes
      ensures ValidWGPort(cfg.port) ==> SameBut(VXLANMain(cfg.port), old(sys.k), sys.k)
      ensures Grows(old(sys.k), sys.k) && (HasWG(old(sys.k)) ==> SamePeersBut(cfg.leafPublicKey, applied, old(applied)))
      ensures o.Some? && Completed(o.value) ==>
                Peer(cfg.leafPublicKey) in applied && applied[Peer(cfg.leafPublicKey)] == Setting(MainTuple(cfg))
      ensures !ValidWGPort(cfg.port) ==> sys.k == old(sys.k)
      ensures sys.works && cfg.parent in old(sys.k) && ValidWGPort(cfg.port) && |cfg.leafPublicKey| == 32 ==>
                ok && HasMTU(sys.k, WG_IFACE, wgMTU)
                && HasMTU(sys.k, VXLANMain(cfg.port), WGInnerMTU(MeshUnderlay(cfg.jumbo, cfg.underlayMTU)))
      // With nothing spoiled before, the cache is unsound afterwards only through this peer step.
      ensures CacheOk(old(applied), old(sys.k)) && (o.None? || AddressFree(old(applied), cfg.leafPublicKey, MainTuple(cfg)))
              && (o.Some? ==> !o.value.RouteFailed?) ==>
                CacheOk(applied, sys.k)
      ensures CacheOk(old(applied), old(sys.k)) && o.Some? && Completed(o.value) ==>
                Present(sys.k[WG_IFACE].kind.wg, cfg.leafPublicKey, MainTuple(cfg))
    {
      ok, o := false, None;
      var keysOk := sys.Cmd();
      if !ValidWGPort(cfg.port) || |cfg.leafPublicKey| != 32 || !keysOk {
        return;
      }
      ok := Ground(Underlay(cfg.parent, cfg.port), "set", cfg.parent, UnderlayIP(MAIN_SIDE), UnderlayIP(cfg.port), TunnelIP(MAIN_SIDE), wgMTU);
      if ok {
        VXLANNotWG(cfg.port);
        ghost var k1, h1, c1 := sys.k, sys.history, applied;
        ghost var out;
        ok, out := Overlay(cfg.leafPublicKey, MainTuple(cfg), VXLANMain(cfg.port), MainVX(cfg.port), WGInnerMTU(MeshUnderlay(cfg.jumbo, cfg.underlayMTU)));
        o := Some(out);
        TunnelledLater(old(sys.k), k1, sys.k, VXLANMain(cfg.port), MainVX(cfg.port));
        OtherEntries(old(applied), c1, cfg.leafPublicKey, MainTuple(cfg), out);
        CalmLater(old(sys.k), k1, old(sys.history), h1, sys.history);
        CalmStepTransitive(old(sys.k), k1, sys.k);
      }
    }

    /** The leaf's side of its link, but for the bridge. `o` is how far the peer step got, if it was
        reached. */
    method LeafTunnel(wanif: string, cfg: LeafSide) returns (ok: bool, ghost o: Option<Outcome>)
      requires Valid() && WGKind(sys.k) && ValidWGPort(cfg.port)
      modifies this`applied, this`changes, sys`k, sys`history, sys`lapses
      ensures Valid() && old(sys.history) <= sys.history && old(sys.lapses) <= sys.lapses && AllCalm(old(sys.k), sys.history, |old(sys.history)|)
      ensures CalmStep(old(sys.k), sys.k) && WGKind(sys.k) && (old(Tracks()) ==> Tracks())
      ensures changes == old(changes) + (if !HasWG(old(sys.k)) && HasWG(sys.k) then [Made] else [])
                         + (if o.Some? then [Step(cfg.mainPublicKey, LeafPortTuple(cfg.port), o.value)] else [])
      ensures ok ==> HasWG(sys.k) && VXLAN_LEAF in sys.k && LeafLinked(old(sys.k), wanif, cfg)
                     && IsUp(sys.k, VXLAN_LEAF) && IsUp(sys.k, WG_IFACE)
      ensures ok && !Cached(old(applied), Underlay(wanif, 0), UnderlayIP(cfg.port)) ==>
                Grounded(sys.k, wanif, UnderlayIP(cfg.port), UnderlayIP(MAIN_SIDE))
      ensures ok && sys.steady && wanif in old(sys.k) ==>
                wanif in sys.k && UnderlayIP(MAIN_SIDE) in sys.k[wanif].routes
      ensures SameBut(VXLAN_LEAF, old(sys.k), sys.k)
      ensures sys.works && wanif in old(sys.k) ==>
                var underlay := MeshUnderlay(cfg.jumbo, cfg.underlayMTU);
                ok && HasMTU(sys.k, WG_IFACE, underlay - WG_OVERHEAD) && HasMTU(sys.k, VXLAN_LEAF, WGInnerMTU(underlay))
    {
      o := None;
      var underlay := MeshUnderlay(cfg.jumbo, cfg.underlayMTU);
      var local := UnderlayIP(cfg.port);
      ok := Ground(Underlay(wanif, 0), local, wanif, local, UnderlayIP(MAIN_SIDE), TunnelIP(cfg.port), underlay - WG_OVERHEAD);
      if ok {
        ghost var k1, h1 := sys.k, sys.history;
        ghost var out;
        ok, out := Overlay(cfg.mainPublicKey, LeafPortTuple(cfg.port), VXLAN_LEAF, LeafVX(cfg.port), WGInnerMTU(underlay));
        o := Some(out);
        CalmLater(old(sys.k), k1, old(sys.history), h1, sys.history);
        CalmStepTransitive(old(sys.k), k1, sys.k);
      }
    }

    /** The main router's addresses and a leaf's peer setting are cached. */
    ghost predicate MainLinked(cfg: LeafMACsec)
      reads this
    {
      && Cached(applied, Underlay(cfg.parent, cfg.port), "set") && Cached(applied, WGIface, TunnelIP(MAIN_SIDE))
      && Peer(cfg.leafPublicKey) in applied && applied[Peer(cfg.leafPublicKey)] == Setting(MainTuple(cfg))
    }

    /** Addresses and peer setting of an association are cached, and its tunnel port made unless one was
        there. */
    ghost predicate LeafLinked(a: Kernel, wanif: string, cfg: LeafSide)
      reads this, sys
    {
      && ValidWGPort(cfg.port) && Cached(applied, Underlay(wanif, 0), UnderlayIP(cfg.port))
      && Cached(applied, WGIface, TunnelIP(cfg.port))
      && Tunnelled(a, sys.k, VXLAN_LEAF, LeafVX(cfg.port))
      && Peer(cfg.mainPublicKey) in applied && applied[Peer(cfg.mainPublicKey)] == Setting(LeafPortTuple(cfg.port))
    }

    /** After a main pass: drops peers and VXLAN devices that are not wanted any more and, with no
        peer left, everything. If the peers could be listed, only wanted ones of them stay cached. */
    method CleanupMainWG(desiredPeers: set<Bytes>, desiredVX: set<string>) returns (ghost listed: bool)
      requires Valid() && WGKind(sys.k)
      modifies this`applied, this`changes, sys`k, sys`history, sys`deletions, sys`lapses
      ensures Valid() && old(sys.history) <= sys.history && old(sys.lapses) <= sys.lapses && OnlyCalm(old(sys.k), sys.history, |old(sys.history)|)
      ensures WGKind(sys.k)
      ensures old(changes) <= changes && OnlyForgets(changes[|old(changes)|..]) && (old(Tracks()) ==> Tracks())
      ensures CacheOk(old(applied), old(sys.k)) ==> CacheOk(applied, sys.k)
      ensures desiredPeers == {} ==> applied == map[]
      ensures FewerPeers(applied, old(applied))
      ensures listed && HasWG(old(sys.k)) && PeersKnown(old(applied), old(sys.k)) ==>
                forall pub :: Peer(pub) in applied ==> pub in desiredPeers
      ensures PeersKnown(old(applied), old(sys.k)) ==> PeersKnown(applied, sys.k)
      ensures sys.steady && HasWG(old(sys.k)) ==> listed
      // What is wanted stays as it is; with every command working nothing else of the backhaul does.
      ensures desiredPeers != {} ==>
                && PrunedWG(old(sys.k), sys.k, desiredPeers)
                && (sys.works && HasWG(sys.k) ==> sys.k[WG_IFACE].kind.wg.peers.Keys <= desiredPeers)
                && (forall pub :: pub in desiredPeers && Peer(pub) in old(applied) ==> Peer(pub) in applied)
      ensures sys.steady ==> NoStrayVX(sys.k, desiredVX) && (desiredPeers == {} ==> WG_IFACE !in sys.k)
      ensures ShrunkElsewhere(old(sys.k), sys.k, desiredVX)
    {
      listed := RemovePeers(desiredPeers);
      ghost var middle, h := sys.k, sys.history;
      RemoveVXLANs(desiredVX);
      OnlyCalmLater(old(sys.k), middle, old(sys.history), h, sys.history);
      if desiredPeers == {} {
        middle, h := sys.k, sys.history;
        RemoveAll();
        OnlyCalmLater(old(sys.k), middle, old(sys.history), h, sys.history);
      }
    }

    /** With no peer wanted: no device, and an empty cache. */
    method RemoveAll()
      requires Valid() && WGKind(sys.k)
      modifies this`applied, this`changes, sys`k, sys`history, sys`deletions, sys`lapses
      ensures Valid() && old(sys.history) <= sys.history && old(sys.lapses) <= sys.lapses && OnlyCalm(old(sys.k), sys.history, |old(sys.history)|)
      ensures WGKind(sys.k) && applied == map[] && (sys.steady ==> WG_IFACE !in sys.k)
      ensures sys.k == if WG_IFACE in sys.k then old(sys.k) else old(sys.k) - {WG_IFACE}
      ensures old(changes) <= changes && OnlyForgets(changes[|old(changes)|..]) && (old(Tracks()) ==> Tracks())
    {
      RemoveWGIface();
      Clear();
    }

    /** Forgets everything. */
    method Clear()
      modifies this`applied, this`changes
      ensures applied == map[] && changes == old(changes) + [Cleared] && (old(Tracks()) ==> Tracks())
    {
      applied := map[];
      Log(Cleared);
    }

    method RemoveWGIface()
      requires Valid() && WGKind(sys.k)
      modifies this`changes, sys`k, sys`history, sys`deletions, sys`lapses
      ensures Valid() && old(sys.history) <= sys.history && old(sys.lapses) <= sys.lapses
      ensures sys.k == if WG_IFACE in sys.k then old(sys.k) else old(sys.k) - {WG_IFACE}
      ensures Removal(WG_IFACE, old(sys.k), sys.k, sys.history, |old(sys.history)|, sys.lapses[|old(sys.lapses)|..])
      ensures sys.steady ==> sys.lapses == old(sys.lapses)
      ensures old(changes) <= changes && OnlyForgets(changes[|old(changes)|..]) && (old(Tracks()) ==> Tracks())
      ensures CacheOk(applied, old(sys.k)) ==> CacheOk(applied, sys.k)
    {
      var there := sys.LinkInfo(WG_IFACE);
      if there.Some? {
        var ok := sys.DeleteLink(WG_IFACE);
        if ok {
          Log(Gone);
        }
      }
      OneLapse(old(sys.lapses), sys.lapses, WG_IFACE);
    }

    method RemoveTunnelPort()
      requires Valid() && WGKind(sys.k)
      modifies sys`k, sys`history, sys`deletions, sys`lapses
      ensures Valid() && old(sys.history) <= sys.history && old(sys.lapses) <= sys.lapses
      ensures sys.k == if VXLAN_LEAF in sys.k then old(sys.k) else old(sys.k) - {VXLAN_LEAF}
      ensures Removal(VXLAN_LEAF, old(sys.k), sys.k, sys.history, |old(sys.history)|, sys.lapses[|old(sys.lapses)|..])
      ensures sys.steady ==> sys.lapses == old(sys.lapses)
      ensures old(Tracks()) ==> Tracks()
    {
      var there := sys.LinkInfo(VXLAN_LEAF);
      if there.Some? {
        var _ := sys.DeleteLink(VXLAN_LEAF);
      }
      OneLapse(old(sys.lapses), sys.lapses, VXLAN_LEAF);
    }

    method RemovePeers(desired: set<Bytes>) returns (ghost listed: bool)
      requires Valid() && WGKind(sys.k)
      modifies this`applied, this`changes, sys`k, sys`history
      ensures Valid() && old(sys.history) <= sys.history && OnlyCalm(old(sys.k), sys.history, |old(sys.history)|)
      ensures Calm(old(sys.k), sys.k) && WGKind(sys.k) && HasWG(sys.k) == HasWG(old(sys.k))
      ensures old(changes) <= changes && OnlyForgets(changes[|old(changes)|..]) && (old(Tracks()) ==> Tracks())
      ensures CacheOk(old(applied), old(sys.k)) ==> CacheOk(applied, sys.k)
      ensures FewerPeers(applied, old(applied))
      ensures listed && HasWG(old(sys.k)) && PeersKnown(old(applied), old(sys.k)) ==>
                forall pub :: Peer(pub) in applied ==> pub in desired
      ensures PeersKnown(old(applied), old(sys.k)) ==> PeersKnown(applied, sys.k)
      ensures sys.steady && HasWG(old(sys.k)) ==> listed
      // Wanted peers stay as they are, in the cache too; with every command working the others go.
      ensures PrunedWG(old(sys.k), sys.k, desired) && OnlyAt(WG_IFACE, old(sys.k), sys.k)
      ensures forall pub :: pub in desired && Peer(pub) in old(applied) ==> Peer(pub) in applied
      ensures sys.works && HasWG(sys.k) ==> sys.k[WG_IFACE].kind.wg.peers.Keys <= desired
    {
      var peers := sys.WGPeers();
      listed := peers.Some?;
      if peers.None? {
        return;
      }
      var todo := peers.value - desired;
      while todo != {}
        invariant Valid() && old(sys.history) <= sys.history && OnlyCalm(old(sys.k), sys.history, |old(sys.history)|)
        invariant Calm(old(sys.k), sys.k) && WGKind(sys.k) && HasWG(sys.k)
        invariant old(changes) <= changes && OnlyForgets(changes[|old(changes)|..]) && (old(Tracks()) ==> Tracks())
        invariant CacheOk(old(applied), old(sys.k)) ==> CacheOk(applied, sys.k)
        invariant FewerPeers(applied, old(applied))
        invariant PeersKnown(old(applied), old(sys.k)) ==> PeersKnown(applied, sys.k)
        invariant forall pub :: Peer(pub) in applied && pub in peers.value ==> pub in desired || pub in todo
        invariant PrunedWG(old(sys.k), sys.k, desired) && OnlyAt(WG_IFACE, old(sys.k), sys.k)
        invariant forall pub :: pub in desired && Peer(pub) in old(applied) ==> Peer(pub) in applied
        invariant sys.works ==> forall pub :: pub in sys.k[WG_IFACE].kind.wg.peers ==> pub in desired || pub in todo
        decreases todo
      {
        var pub :| pub in todo;
        RemovePeer(pub, old(sys.k), |old(sys.history)|);
        todo := todo - {pub};
      }
    }

    method RemoveKernelPeer(pub: Bytes, ghost a: Kernel, ghost from: nat) returns (removed: bool)
      requires Valid() && WGKind(sys.k) && HasWG(sys.k)
      requires Calm(a, sys.k) && from <= |sys.history| && OnlyCalm(a, sys.history, from)
      modifies sys`k, sys`history
      ensures Valid() && old(sys.history) <= sys.history && OnlyCalm(a, sys.history, from)
      ensures Calm(a, sys.k) && WGKind(sys.k) && HasWG(sys.k)
      ensures sys.k[WG_IFACE].kind.wg == if removed then WithoutPeer(old(sys.k)[WG_IFACE].kind.wg, pub) else old(sys.k)[WG_IFACE].kind.wg
      ensures (sys.works ==> removed) && OnlyAt(WG_IFACE, old(sys.k), sys.k)
    {
      removed := sys.WGRemovePeer(pub);
    }

    /** Removes one unwanted peer, as far as possible, and forgets it. */
    method RemovePeer(pub: Bytes, ghost a: Kernel, ghost from: nat)
      requires Valid() && WGKind(sys.k) && HasWG(sys.k)
      requires Calm(a, sys.k) && from <= |sys.history| && OnlyCalm(a, sys.history, from)
      modifies this`applied, this`changes, sys`k, sys`history
      ensures Valid() && old(sys.history) <= sys.history && OnlyCalm(a, sys.history, from)
      ensures Calm(a, sys.k) && WGKind(sys.k) && HasWG(sys.k)
      ensures applied == old(applied) - {Peer(pub)}
      ensures exists removed :: changes == old(changes) + [Forgot(pub, removed)]
      ensures old(Tracks()) ==> Tracks()
      ensures PrunedOne(old(sys.k)[WG_IFACE].kind.wg, sys.k[WG_IFACE].kind.wg, pub)
      ensures OnlyAt(WG_IFACE, old(sys.k), sys.k) && (sys.works ==> pub !in sys.k[WG_IFACE].kind.wg.peers)
      ensures CacheOk(old(applied), old(sys.k)) ==> CacheOk(applied, sys.k)
      ensures PeersKnown(old(applied), old(sys.k)) ==> PeersKnown(applied, sys.k)
    {
      PeerRemoved(applied, sys.k[WG_IFACE].kind.wg, pub);
      var removed := RemoveKernelPeer(pub, a, from);
      applied := applied - {Peer(pub)};
      Log(Forgot(pub, removed));
    }

    method RemoveVXLANs(desired: set<string>)
      requires Valid() && WGKind(sys.k)
      modifies sys`k, sys`history, sys`deletions, sys`lapses
      ensures Valid() && old(sys.history) <= sys.history && old(sys.lapses) <= sys.lapses && OnlyCalm(old(sys.k), sys.history, |old(sys.history)|)
      ensures Calm(old(sys.k), sys.k) && WGKind(sys.k) && SameWG(old(sys.k), sys.k)
      ensures Shrunk(old(sys.k), sys.k, desired) && (sys.steady ==> NoStrayVX(sys.k, desired))
    {
      var names := sys.VXLinks();
      if names.None? {
        return;
      }
      var todo := set n | n in names.value && HasVXPrefix(n) && n !in desired;
      while todo != {}
        invariant todo <= names.value - desired && forall n :: n in todo ==> HasVXPrefix(n)
        invariant Valid() && old(sys.history) <= sys.history && old(sys.lapses) <= sys.lapses && OnlyCalm(old(sys.k), sys.history, |old(sys.history)|)
        invariant Shrunk(old(sys.k), sys.k, desired)
        invariant sys.steady ==> forall n :: n in sys.k && sys.k[n].kind.VXDev? && HasVXPrefix(n) ==> n in desired || n in todo
        decreases todo
      {
        var n :| n in todo;
        RemoveVXLAN(n, desired, old(sys.k), |old(sys.history)|);
        todo := todo - {n};
      }
    }

    method RemoveVXLAN(name: string, ghost desired: set<string>, ghost a: Kernel, ghost from: nat)
      requires Valid() && WGKind(a) && Shrunk(a, sys.k, desired) && name !in desired && HasVXPrefix(name)
      requires name in a && a[name].kind.VXDev? && from <= |sys.history| && OnlyCalm(a, sys.history, from)
      modifies sys`k, sys`history, sys`deletions, sys`lapses
      ensures Valid() && old(sys.history) <= sys.history && old(sys.lapses) <= sys.lapses
      ensures Shrunk(a, sys.k, desired) && OnlyCalm(a, sys.history, from)
      ensures (sys.steady ==> name !in sys.k) && forall n :: n in sys.k ==> n in old(sys.k)
    {
      var _ := sys.DeleteLink(name);
    }

    /** The leaf's way out of WireGuard: tunnel port first, then the device, then the cache. What is
        still there afterwards is what could not be looked up or deleted. */
    method TeardownWG()
      requires Valid() && WGKind(sys.k)
      modifies this`applied, this`changes, sys`k, sys`history, sys`deletions, sys`lapses
      ensures Valid() && old(sys.history) <= sys.history && old(sys.lapses) <= sys.lapses && OnlyCalm(old(sys.k), sys.history, |old(sys.history)|)
      ensures Calm(old(sys.k), sys.k) && WGKind(sys.k) && applied == map[] && (old(Tracks()) ==> Tracks())
      ensures forall n :: n in sys.k <==> n in old(sys.k) && (n in {VXLAN_LEAF, WG_IFACE} ==> Lapsed(sys.lapses[|old(sys.lapses)|..], n))
      ensures forall n :: n in sys.k ==> sys.k[n] == old(sys.k)[n]
      ensures forall n :: Lapsed(sys.lapses[|old(sys.lapses)|..], n) ==> n in {VXLAN_LEAF, WG_IFACE}
      ensures sys.lapses == old(sys.lapses) ==> AllCalm(old(sys.k), sys.history, |old(sys.history)|)
      ensures sys.steady ==> sys.lapses == old(sys.lapses)
      ensures old(changes) <= changes && OnlyForgets(changes[|old(changes)|..])
    {
      RemoveTunnelPort();
      ghost var middle, h, l := sys.k, |sys.history|, sys.lapses;
      RemoveWGIface();
      Clear();
      RemovedBoth(old(sys.k), middle, sys.k, sys.history, |old(sys.history)|, h);
      LapsedParts(old(sys.lapses), l, sys.lapses);
    }
  }

  /** From `a` to `b` devices only went, and none but unwanted VXLAN devices of the backhaul. */
  predicate Shrunk(a: Kernel, b: Kernel, desired: set<string>) {
    && (forall n :: n in b ==> n in a && b[n] == a[n])
    && (forall n :: n in a && (!a[n].kind.VXDev? || n in desired || !HasVXPrefix(n)) ==> n in b)
  }

  /** The same of all devices but WireGuard's. */
  predicate ShrunkElsewhere(a: Kernel, b: Kernel, desired: set<string>) {
    && (forall n :: n in b && n != WG_IFACE ==> n in a && b[n] == a[n])
    && (forall n :: n in a && n != WG_IFACE && (!a[n].kind.VXDev? || n in desired || !HasVXPrefix(n)) ==> n in b)
  }

  /** Every VXLAN device of the backhaul is wanted. */
  predicate NoStrayVX(k: Kernel, desired: set<string>) {
    forall n :: n in k && k[n].kind.VXDev? && HasVXPrefix(n) ==> n in desired
  }

  lemma TunnelPortsHavePrefix(port: nat)
    ensures HasVXPrefix(VXLANMain(port)) && HasVXPrefix(VXLAN_LEAF)
  {
  }

  /** From `a` to `b` at most this peer went, with its addresses. */
  predicate PrunedOne(a: WGState, b: WGState, pub: Bytes) {
    b == a || b == WithoutPeer(a, pub)
  }

  /** From `a` to `b` only unwanted peers went, with their addresses. */
  predicate Pruned(a: WGState, b: WGState, wanted: set<Bytes>) {
    && b.routes == a.routes
    && (forall p :: p in b.peers ==> p in a.peers && b.peers[p] == a.peers[p])
    && (forall p :: p in a.peers && p in wanted ==> p in b.peers)
    && (forall ip :: ip in b.allowed ==> ip in a.allowed && b.allowed[ip] == a.allowed[ip])
    && (forall ip :: ip in a.allowed && a.allowed[ip] in wanted ==> ip in b.allowed)
  }

  predicate PrunedWG(a: Kernel, b: Kernel, wanted: set<Bytes>) {
    HasWG(a) ==> HasWG(b) && Pruned(a[WG_IFACE].kind.wg, b[WG_IFACE].kind.wg, wanted)
  }

  /** Forgetting a peer, removed or not, leaves the others as present and as known as they were. */
  lemma PeerRemoved(applied: map<Key, Value>, wg: WGState, pub: Bytes)
    ensures AllPresent(applied, wg) ==>
              AllPresent(applied - {Peer(pub)}, wg) && AllPresent(applied - {Peer(pub)}, WithoutPeer(wg, pub))
    ensures (forall p :: Peer(p) in applied ==> p in wg.peers) ==>
              forall p :: Peer(p) in applied - {Peer(pub)} ==> p in wg.peers && p in WithoutPeer(wg, pub).peers
  {
  }

  /** One device was asked to go. It is gone unless the lookup or the deletion failed; every table since
      index `from` is one of the two. */
  ghost predicate Removal(name: string, a: Kernel, b: Kernel, history: seq<Kernel>, from: nat, ls: seq<Lapse>) {
    && (name in b <==> Lapsed(ls, name)) && (Lapsed(ls, name) ==> name in a)
    && (forall n :: Lapsed(ls, n) ==> n == name) && (name !in b ==> ls == [])
    && (forall i :: from <= i < |history| ==> history[i] == b)
  }

  lemma LapsedParts(a: seq<Lapse>, b: seq<Lapse>, c: seq<Lapse>)
    requires a <= b <= c
    ensures forall n :: Lapsed(c[|a|..], n) <==> Lapsed(b[|a|..], n) || Lapsed(c[|b|..], n)
    ensures c == a ==> b == a
  {
    assert c[|a|..] == b[|a|..] + c[|b|..];
    forall n ensures Lapsed(c[|a|..], n) <==> Lapsed(b[|a|..], n) || Lapsed(c[|b|..], n) {
      LapsedSplit(b[|a|..], c[|b|..], n);
    }
  }

  lemma OneLapse(before: seq<Lapse>, after: seq<Lapse>, name: string)
    requires after == before || after == before + [NotFound(name)] || after == before + [NotDeleted(name)]
    ensures forall n :: Lapsed(after[|before|..], n) <==> n == name && after != before
  {
    var ls := after[|before|..];
    if after != before {
      assert ls == [NotFound(name)] || ls == [NotDeleted(name)];
      assert LapseOn(ls[0], name);
    }
  }

  /** Both are gone one after the other, the tunnel port first. */
  lemma RemovedBoth(a: Kernel, b: Kernel, c: Kernel, history: seq<Kernel>, from: nat, middle: nat)
    requires from <= middle <= |history| && WGKind(a)
    requires b == a || b == a - {VXLAN_LEAF}
    requires c == b || c == b - {WG_IFACE}
    requires forall i :: from <= i < middle ==> history[i] == b
    requires forall i :: middle <= i < |history| ==> history[i] == c
    ensures OnlyCalm(a, history, from) && Calm(a, c) && WGKind(c)
    ensures VXLAN_LEAF !in b ==> AllCalm(a, history, from)
  {
  }

  /** Every cached peer is at least a peer of the device. */
  ghost predicate PeersKnown(applied: map<Key, Value>, k: Kernel) {
    HasWG(k) ==> forall pub :: Peer(pub) in applied ==> pub in k[WG_IFACE].kind.wg.peers
  }

  /** Every cached peer setting was cached before. */
  ghost predicate FewerPeers(a: map<Key, Value>, b: map<Key, Value>) {
    forall pub :: Peer(pub) in a ==> Peer(pub) in b && a[Peer(pub)] == b[Peer(pub)]
  }

  /** The peer setting a leaf's record asks for. */
  function MainTuple(cfg: LeafMACsec): Tuple { PortTuple(Max(cfg.port, 0)) }

  /** A leaf's tunnel address is free exactly when no other peer is cached for its port. */
  lemma DistinctPortsAddressFree(applied: map<Key, Value>, ports: map<Bytes, nat>, pub: Bytes, cfg: LeafMACsec)
    requires forall p :: Peer(p) in applied ==> p in ports && applied[Peer(p)] == Setting(PortTuple(ports[p]))
    requires ValidWGPort(cfg.port)
    ensures AddressFree(applied, pub, MainTuple(cfg))
            <==> forall p :: p != pub && Peer(p) in applied ==> ports[p] != cfg.port
  {
    forall p | p != pub && Peer(p) in applied && applied[Peer(p)].t.tunnelIP == MainTuple(cfg).tunnelIP
      ensures ports[p] == cfg.port
    {
      PortTupleInjective(ports[p], cfg.port);
    }
  }

  lemma VXLANNotWG(port: nat)
    ensures VXLANMain(port) != WG_IFACE
  {
    assert VXLANMain(port)[0] == 'm' && WG_IFACE[0] == 'w';
  }

  /** The tunnel port of a leaf's link on the main router, and that on the leaf. */
  function MainVX(port: nat): Kind { VXDev(port, TunnelIP(MAIN_SIDE), TunnelIP(port)) }

  function LeafVX(port: nat): Kind { VXDev(port, TunnelIP(port), TunnelIP(MAIN_SIDE)) }

  /** For every port the settings of the two ends meet: each end's peer has one secret and, as its tunnel
      address, the other end's own; each end sends to the underlay address that the other one sets; and
      the tunnel ports have one identifier, each at the far end of the other, inside the tunnel. */
  lemma SettingsMeet(port: nat)
    ensures var m, l := PortTuple(port), LeafPortTuple(port);
            && m.psk == l.psk && m.tunnelIP == l.local == TunnelIP(port) && l.tunnelIP == m.local == TunnelIP(MAIN_SIDE)
            && m.endpoint == UnderlayIP(port) && l.endpoint == UnderlayIP(MAIN_SIDE)
            && var v, w := MainVX(port), LeafVX(port);
               v.vni == w.vni && v.remote == w.local == m.tunnelIP && w.remote == v.local == l.tunnelIP
  {
  }

  /** The same of what the two ends hold once their links came up: what one end has cached for its peer is
      what the other end has cached for itself. */
  lemma EndsMeet(main: Backhaul, cfg: LeafMACsec, leaf: Backhaul, a: Kernel, wanif: string, side: LeafSide)
    requires main.MainLinked(cfg) && leaf.LeafLinked(a, wanif, side) && side.port == cfg.port
    ensures var m, l := main.applied[Peer(cfg.leafPublicKey)].t, leaf.applied[Peer(side.mainPublicKey)].t;
            && m.psk == l.psk && m.local == l.tunnelIP && l.local == m.tunnelIP
            && Cached(leaf.applied, Underlay(wanif, 0), m.endpoint) && Cached(leaf.applied, WGIface, m.tunnelIP)
            && Cached(main.applied, WGIface, l.tunnelIP)
  {
    SettingsMeet(cfg.port);
  }

  /** From `a` to `b` a device that was there stayed what it was, and if it is new it is of this kind. */
  predicate Tunnelled(a: Kernel, b: Kernel, name: string, kind: Kind) {
    && (name in a ==> name in b && b[name].kind == a[name].kind)
    && (name !in a && name in b ==> b[name].kind == kind)
  }

  /** A tunnel port made once the ground is there. */
  lemma TunnelledLater(a: Kernel, b: Kernel, c: Kernel, name: string, kind: Kind)
    requires OtherKinds(a, b) && Tunnelled(b, c, name, kind) && Grows(b, c) && SameBut(name, b, c) && name != WG_IFACE
    ensures Tunnelled(a, c, name, kind) && Grows(a, c) && SameBut(name, a, c)
  {
  }

  /** After a leaf's link came up, its tunnel port is that of the association exactly if none of another
      port had been left there. */
  lemma TunnelExactly(a: Kernel, b: Kernel, port: nat)
    requires Tunnelled(a, b, VXLAN_LEAF, LeafVX(port)) && VXLAN_LEAF in b
    ensures b[VXLAN_LEAF].kind == LeafVX(port) <==> VXLAN_LEAF !in a || a[VXLAN_LEAF].kind == LeafVX(port)
  {
  }

  /** Without a teardown no pass ever replaces it, whatever ports the associations have that follow. */
  lemma {:induction false} TunnelStays(ks: seq<Kernel>, ports: seq<nat>)
    requires |ks| == |ports| + 1 && VXLAN_LEAF in ks[0]
    requires forall i :: 0 <= i < |ports| ==> Tunnelled(ks[i], ks[i + 1], VXLAN_LEAF, LeafVX(ports[i]))
    ensures var last := ks[|ports|]; VXLAN_LEAF in last && last[VXLAN_LEAF].kind == ks[0][VXLAN_LEAF].kind
    decreases |ports|
  {
    if ports != [] {
      var n := |ports| - 1;
      TunnelStays(ks[..|ks| - 1], ports[..n]);
      assert Tunnelled(ks[n], ks[n + 1], VXLAN_LEAF, LeafVX(ports[n]));
    }
  }

  /** It happens: an association replaced by one of another port, with no teardown in between. The second
      pass finds the tunnel port of the first one and leaves it. */
  lemma StaleTunnelExample(k: Kernel, m: nat, n: nat)
    requires VXLAN_LEAF !in k && m != n
    ensures var k1 := k[VXLAN_LEAF := Port(LeafVX(m), "", false, Nic(ETHERNET_MTU, 0), [], {}, {}, {})];
            && Tunnelled(k, k1, VXLAN_LEAF, LeafVX(m)) && k1[VXLAN_LEAF].kind == LeafVX(m)
            && Tunnelled(k1, k1, VXLAN_LEAF, LeafVX(n)) && k1[VXLAN_LEAF].kind != LeafVX(n)
  {
  }

  predicate IsUp(k: Kernel, name: string) {
    name in k && AdminUp in k[name].flags
  }

  /** No device, address or host route went, and none was taken down. */
  predicate Grows(a: Kernel, b: Kernel) {
    forall n :: n in a ==> n in b && a[n].addrs <= b[n].addrs && a[n].routes <= b[n].routes && a[n].flags <= b[n].flags
  }

  /** The device has this address and a host route to that one. */
  predicate Grounded(k: Kernel, dev: string, local: string, far: string) {
    dev in k && local in k[dev].addrs && far in k[dev].routes
  }

  predicate HasMTU(k: Kernel, name: string, mtu: int) {
    name in k && k[name].nic.mtu == mtu
  }

  /** The same devices but for WireGuard's, each what it was. */
  predicate OtherKinds(a: Kernel, b: Kernel) {
    && Grows(a, b)
    && (forall n :: n in a && n != WG_IFACE ==> n in b && b[n].kind == a[n].kind)
    && (forall n :: n in b && n != WG_IFACE ==> n in a)
  }

  predicate HasVXPrefix(name: string) { "mshvx" <= name }

  /** The names of the two devices are used by nothing else. */
  predicate WGKind(k: Kernel) {
    && (WG_IFACE in k ==> k[WG_IFACE].kind.WGDev?)
    && (VXLAN_LEAF in k ==> k[VXLAN_LEAF].kind.VXDev?)
  }

  predicate OnlyCalm(a: Kernel, history: seq<Kernel>, from: nat) {
    forall i :: from <= i < |history| ==> Calm(a, history[i]) && (WGKind(a) ==> WGKind(history[i]))
  }

  lemma OnlyCalmLater(a: Kernel, b: Kernel, first: seq<Kernel>, before: seq<Kernel>, history: seq<Kernel>)
    requires first <= before <= history && Calm(a, b) && (WGKind(a) ==> WGKind(b))
    requires OnlyCalm(a, before, |first|) && OnlyCalm(b, history, |before|)
    ensures first <= history && OnlyCalm(a, history, |first|)
    ensures |before| < |history| ==> Calm(a, history[|history| - 1])
  {
    forall i | |first| <= i < |history| ensures Calm(a, history[i]) && (WGKind(a) ==> WGKind(history[i])) {
      if i < |before| {
        assert before[i] == history[i];
      } else {
        CalmTransitive(a, b, history[i]);
      }
    }
  }

  /** The WireGuard device is the same in both tables. */
  predicate SameWG(a: Kernel, b: Kernel) {
    HasWG(a) == HasWG(b) && (HasWG(a) ==> a[WG_IFACE].kind == b[WG_IFACE].kind)
  }

  /** The same devices but for WireGuard's and this one, each what it was. */
  ghost predicate SameBut(name: string, a: Kernel, b: Kernel) {
    forall n :: n != WG_IFACE && n != name ==> (n in a <==> n in b) && (n in a ==> b[n].kind == a[n].kind)
  }

  /** The tables agree on every other device. */
  ghost predicate OnlyAt(name: string, a: Kernel, b: Kernel) {
    forall n :: n != name ==> (n in a <==> n in b) && (n in a ==> b[n] == a[n])
  }

  ghost predicate SameUnderlays(a: map<Key, Value>, b: map<Key, Value>) {
    forall key: Key :: key.Underlay? ==> (key in a <==> key in b) && (key in a ==> a[key] == b[key])
  }

  ghost predicate SameElsewhere(key: Key, a: map<Key, Value>, b: map<Key, Value>) {
    forall other :: other != key ==> (other in a <==> other in b) && (other in a ==> a[other] == b[other])
  }
}
