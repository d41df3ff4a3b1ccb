/** The main router's WireGuard links over whole runs of passes: each pass brings up the link of every
    leaf whose interface is there, and then forgets the peers that are not wanted any more. */
module MainTunnels {
  import opened Wrappers
  import opened Mesh
  import opened LinkSystem
  import opened PeerCache
  import opened WireGuard
  import Agreement
  import MainConfig
  import Names

  /** WireGuard leaves have different ports, as in every configuration the main router can reach. */
  predicate DistinctPorts(leaves: seq<LeafRouter>) {
    forall i, j :: 0 <= i < j < |leaves| && Agreement.IsWGLeaf(leaves[i]) && Agreement.IsWGLeaf(leaves[j]) ==>
                     leaves[i].macsec.value.port != leaves[j].macsec.value.port
  }

  lemma ReachableDistinct(es: seq<MainConfig.Event>)
    ensures DistinctPorts(MainConfig.Run(MainConfig.EMPTY, es).leaves)
  {
    MainConfig.ReachableSound(es);
  }

  /** The step of one of the first `n` leaves. */
  predicate FromLeaf(leaves: seq<LeafRouter>, n: nat, c: Change)
    requires n <= |leaves|
  {
    exists i :: 0 <= i < n && Agreement.IsWGLeaf(leaves[i]) && ValidWGPort(leaves[i].macsec.value.port)
                && PeerStep(c, leaves[i].macsec.value.leafPublicKey, MainTuple(leaves[i].macsec.value))
  }

  /** What a pass did: perhaps it made the device, then the peer steps it reached, then the cleanup;
      the peers it wanted - those of the leaves whose interface it found -, and whether those of the
      device could be listed. */
  datatype Pass = Pass(
    made: seq<Change>, steps: seq<Change>, tail: seq<Change>, found: set<nat>, wanted: set<Bytes>, listed: bool)

  predicate OverWireGuard(leaf: LeafRouter) {
    leaf.macsec.Some? && leaf.macsec.value.enabled && leaf.macsec.value.mode == "wireguard"
  }

  /** These are leaves with WireGuard links, and these are their peers and tunnel ports. */
  predicate Wishes(leaves: seq<LeafRouter>, found: set<nat>, wanted: set<Bytes>, vx: set<string>) {
    && (forall i :: i in found ==> 0 <= i < |leaves| && Agreement.IsWGLeaf(leaves[i]) && OverWireGuard(leaves[i]))
    && wanted == (set i | i in found :: leaves[i].macsec.value.leafPublicKey)
    && vx == (set i | i in found :: Names.VXLANMain(Max(leaves[i].macsec.value.port, 0)))
  }

  /** A leaf's record can be acted on. */
  predicate Usable(leaf: LeafRouter, k: Kernel) {
    Agreement.IsWGLeaf(leaf) ==>
      ValidWGPort(leaf.macsec.value.port) && |leaf.macsec.value.leafPublicKey| == 32 && leaf.macsec.value.parent in k
  }

  predicate DistinctKeys(leaves: seq<LeafRouter>) {
    forall i, j :: 0 <= i < j < |leaves| && Agreement.IsWGLeaf(leaves[i]) && Agreement.IsWGLeaf(leaves[j]) ==>
                     leaves[i].macsec.value.leafPublicKey != leaves[j].macsec.value.leafPublicKey
  }

  predicate AllUsable(leaves: seq<LeafRouter>, k: Kernel) {
    DistinctKeys(leaves) && forall i :: 0 <= i < |leaves| ==> Usable(leaves[i], k)
  }

  /** A leaf's link is up: its peer setting is cached and its tunnel port there. */
  ghost predicate LinkedUp(cfg: LeafMACsec, applied: map<Key, Value>, k: Kernel) {
    && Peer(cfg.leafPublicKey) in applied && applied[Peer(cfg.leafPublicKey)] == Setting(MainTuple(cfg))
    && Names.VXLANMain(Max(cfg.port, 0)) in k
  }

  /** So are those of all of the first `n` leaves, over the one device with this MTU. */
  ghost predicate AllUp(leaves: seq<LeafRouter>, n: nat, found: set<nat>, applied: map<Key, Value>, k: Kernel, mtu: int)
    requires n <= |leaves|
  {
    forall i :: 0 <= i < n && Agreement.IsWGLeaf(leaves[i]) ==>
      i in found && LinkedUp(leaves[i].macsec.value, applied, k) && HasMTU(k, WG_IFACE, mtu) && HasWG(k)
  }

  lemma UpLater(leaves: seq<LeafRouter>, n: nat, found: set<nat>, a: map<Key, Value>, k: Kernel, mtu: int,
                found': set<nat>, a': map<Key, Value>, k': Kernel)
    requires n < |leaves| && AllUp(leaves, n, found, a, k, mtu) && DistinctKeys(leaves) && found <= found'
    requires Agreement.IsWGLeaf(leaves[n]) && Grows(k, k')
    requires HasWG(k) ==> SamePeersBut(leaves[n].macsec.value.leafPublicKey, a', a)
    requires n in found' && LinkedUp(leaves[n].macsec.value, a', k') && HasMTU(k', WG_IFACE, mtu) && HasWG(k')
    ensures AllUp(leaves, n + 1, found', a', k', mtu)
  {
    forall i | 0 <= i < n && Agreement.IsWGLeaf(leaves[i])
      ensures i in found' && LinkedUp(leaves[i].macsec.value, a', k')
    {
      assert LinkedUp(leaves[i].macsec.value, a, k) && HasWG(k);
    }
  }

  /** The leaves found are all with WireGuard links. */
  predicate AllFound(leaves: seq<LeafRouter>, found: set<nat>) {
    forall i :: 0 <= i < |leaves| && OverWireGuard(leaves[i]) ==> i in found
  }

  /** A pass with every command working brings up every link, removes whatever else there is, and is
      smooth. */
  ghost predicate Converged(p: Pass, leaves: seq<LeafRouter>, applied: map<Key, Value>, k: Kernel) {
    && Smooth(p) && AllFound(leaves, p.found)
    && (forall i :: 0 <= i < |leaves| && Agreement.IsWGLeaf(leaves[i]) ==> LinkedUp(leaves[i].macsec.value, applied, k))
    && (if p.found == {} then WG_IFACE !in k else HasWG(k) && k[WG_IFACE].kind.wg.peers.Keys <= p.wanted)
    && NoStrayVX(k, set i | 0 <= i < |leaves| && Agreement.IsWGLeaf(leaves[i]) :: Names.VXLANMain(Max(leaves[i].macsec.value.port, 0)))
  }

  ghost predicate PassOk(p: Pass, leaves: seq<LeafRouter>, before: seq<Change>, after: seq<Change>) {
    && after == before + p.made + p.steps + p.tail
    && (p.made == [] || p.made == [Made]) && OnlyForgets(p.tail)
    && (forall i :: 0 <= i < |p.steps| ==> FromLeaf(leaves, |leaves|, p.steps[i]) && p.steps[i].pub in p.wanted)
    && (forall i :: i in p.found ==> 0 <= i < |leaves| && Agreement.IsWGLeaf(leaves[i]))
    && p.wanted == (set i | i in p.found :: leaves[i].macsec.value.leafPublicKey)
    && (forall pub :: pub in p.wanted ==>
          exists i :: 0 <= i < |leaves| && Agreement.IsWGLeaf(leaves[i]) && leaves[i].macsec.value.leafPublicKey == pub)
  }

  /** Every wanted peer's step was reached, every reached one completed, and the peers were listed. */
  predicate Smooth(p: Pass) {
    && AllComplete(p.steps) && (forall pub :: pub in p.wanted ==> About(p.steps, pub))
    && (p.listed || p.wanted == {})
  }

  /** The changes and wishes after the first `n` leaves. */
  ghost predicate Raised(leaves: seq<LeafRouter>, n: nat, made: seq<Change>, steps: seq<Change>, wanted: set<Bytes>, k: Kernel)
    requires n <= |leaves|
  {
    && (made == [] || (made == [Made] && HasWG(k))) && (steps != [] ==> HasWG(k)) && DistinctAddresses(steps)
    && (forall i :: 0 <= i < |steps| ==> FromLeaf(leaves, n, steps[i]) && steps[i].pub in wanted)
    && (forall pub :: pub in wanted ==>
          exists i :: 0 <= i < n && Agreement.IsWGLeaf(leaves[i]) && leaves[i].macsec.value.leafPublicKey == pub)
  }

  function PeerSteps(cfg: LeafMACsec, o: Option<Outcome>): seq<Change> {
    if o.Some? then [Step(cfg.leafPublicKey, MainTuple(cfg), o.value)] else []
  }

  function FirstMade(first: bool): seq<Change> {
    if first then [Made] else []
  }

  lemma FromLeafLater(leaves: seq<LeafRouter>, n: nat, c: Change)
    requires n < |leaves| && FromLeaf(leaves, n, c)
    ensures FromLeaf(leaves, n + 1, c)
  {
  }

  lemma RaisedSkip(leaves: seq<LeafRouter>, n: nat, made: seq<Change>, steps: seq<Change>, wanted: set<Bytes>, k: Kernel)
    requires n < |leaves| && Raised(leaves, n, made, steps, wanted, k)
    ensures Raised(leaves, n + 1, made, steps, wanted, k)
  {
    forall i | 0 <= i < |steps| ensures FromLeaf(leaves, n + 1, steps[i]) {
      FromLeafLater(leaves, n, steps[i]);
    }
  }

  lemma RaisedNext(leaves: seq<LeafRouter>, n: nat, made: seq<Change>, steps: seq<Change>, wanted: set<Bytes>,
                   k: Kernel, k': Kernel, found: bool, first: bool, o: Option<Outcome>)
    requires n < |leaves| && Raised(leaves, n, made, steps, wanted, k) && DistinctPorts(leaves)
    requires Agreement.IsWGLeaf(leaves[n]) && first == (!HasWG(k) && HasWG(k'))
    requires HasWG(k) || o.Some? ==> HasWG(k')
    requires o.Some? ==> found && ValidWGPort(leaves[n].macsec.value.port)
    ensures var cfg := leaves[n].macsec.value;
            var made', steps' := if first then [Made] else made, steps + PeerSteps(cfg, o);
            Raised(leaves, n + 1, made', steps', if found then wanted + {cfg.leafPublicKey} else wanted, k')
  {
    var cfg := leaves[n].macsec.value;
    RaisedSkip(leaves, n, made, steps, wanted, k);
    if o.Some? {
      StepsDistinct(leaves, n, steps, Step(cfg.leafPublicKey, MainTuple(cfg), o.value));
    } else {
      assert steps + PeerSteps(cfg, o) == steps;
    }
  }

  /** The changes of one more leaf's turn, in order: the device is made before any step. */
  lemma TurnAppended(before: seq<Change>, made: seq<Change>, steps: seq<Change>, first: bool, more: seq<Change>)
    requires first ==> made == [] && steps == []
    ensures before + ((if first then [Made] else made) + (steps + more)) == before + (made + steps) + FirstMade(first) + more
  {
  }

  lemma StepsDistinct(leaves: seq<LeafRouter>, n: nat, steps: seq<Change>, c: Change)
    requires DistinctPorts(leaves) && n < |leaves| && DistinctAddresses(steps)
    requires forall i :: 0 <= i < |steps| ==> FromLeaf(leaves, n, steps[i])
    requires Agreement.IsWGLeaf(leaves[n]) && ValidWGPort(leaves[n].macsec.value.port)
    requires PeerStep(c, leaves[n].macsec.value.leafPublicKey, MainTuple(leaves[n].macsec.value))
    ensures DistinctAddresses(steps + [c])
    ensures forall i :: 0 <= i < |steps + [c]| ==> FromLeaf(leaves, n + 1, (steps + [c])[i])
  {
    forall i | 0 <= i < |steps|
      ensures steps[i].t.tunnelIP != c.t.tunnelIP && FromLeaf(leaves, n + 1, steps[i])
    {
      var l :| 0 <= l < n && Agreement.IsWGLeaf(leaves[l]) && ValidWGPort(leaves[l].macsec.value.port)
               && PeerStep(steps[i], leaves[l].macsec.value.leafPublicKey, MainTuple(leaves[l].macsec.value));
      if steps[i].t.tunnelIP == c.t.tunnelIP {
        PortTupleInjective(leaves[l].macsec.value.port, leaves[n].macsec.value.port);
      }
    }
  }

  /** One more peer step known to be of a port. */
  lemma OfPortsMore(cs: seq<Change>, more: seq<Change>)
    requires OfPorts(cs)
    requires forall i :: 0 <= i < |more| && more[i].Step? ==> exists port: nat :: more[i].t == PortTuple(port)
    ensures OfPorts(cs + more)
  {
    var all := cs + more;
    forall i | 0 <= i < |all| && all[i].Step?
      ensures exists port: nat :: all[i].t == PortTuple(port)
    {
      if i < |cs| {
        assert all[i] == cs[i];
      } else {
        assert all[i] == more[i - |cs|];
      }
    }
  }

  lemma PassDone(leaves: seq<LeafRouter>, before: seq<Change>, p: Pass, vx: set<string>, k: Kernel, after: seq<Change>)
    requires Raised(leaves, |leaves|, p.made, p.steps, p.wanted, k) && OnlyForgets(p.tail)
    requires OfPorts(before) && after == before + (p.made + p.steps) + p.tail
    requires Wishes(leaves, p.found, p.wanted, vx)
    ensures PassOk(p, leaves, before, after) && OfPorts(after)
    ensures Smooth(p) && p.wanted != {} ==> HasWG(k)
  {
    assert after == before + p.made + p.steps + p.tail;
    forall i | 0 <= i < |p.steps|
      ensures exists port: nat :: p.steps[i].t == PortTuple(port)
    {
      assert FromLeaf(leaves, |leaves|, p.steps[i]);
    }
    OfPortsMore(before, p.made);
    OfPortsMore(before + p.made, p.steps);
    OfPortsMore(before + p.made + p.steps, p.tail);
    if Smooth(p) && p.wanted != {} {
      var pub :| pub in p.wanted;
      assert About(p.steps, pub);
    }
  }

  /** If no peer is wanted, raising the links cached none. */
  lemma NothingWanted(v: View, cs: seq<Change>, p: Pass, leaves: seq<LeafRouter>, k: Kernel)
    requires Raised(leaves, |leaves|, p.made, p.steps, p.wanted, k)
    ensures p.wanted == {} ==> Run(v, cs + (p.made + p.steps)).cache.Keys <= Run(v, cs).cache.Keys
  {
    if |p.steps| > 0 {
      assert p.steps[0].pub in p.wanted;
    } else {
      if p.made == [] {
        assert cs + (p.made + p.steps) == cs;
      } else {
        assert cs + (p.made + p.steps) == cs + [Made];
        RunSnoc(v, cs, Made);
      }
    }
  }

  /** A smooth pass leaves nothing spoiled. */
  lemma SmoothPass(v: View, cs: seq<Change>, p: Pass)
    requires LegalRun(v, cs + p.made + p.steps + p.tail) && Unspoiled(v, cs)
    requires p.made == [] || p.made == [Made]
    requires OnlyForgets(p.tail) && DistinctAddresses(p.steps) && Smooth(p)
    requires forall pub :: pub in Run(v, cs + p.made + p.steps + p.tail).cache ==> pub in p.wanted
    ensures Unspoiled(v, cs + p.made + p.steps + p.tail)
  {
    if p.made == [] {
      assert cs + p.made == cs;
    } else {
      RunSnoc(v, cs, Made);
    }
    CompletePass(v, cs + p.made, p.steps, p.tail);
  }

  predicate AllReached(steps: seq<Change>, wanted: set<Bytes>) {
    forall pub :: pub in wanted ==> About(steps, pub)
  }

  lemma ReachedMore(steps: seq<Change>, wanted: set<Bytes>, c: Change)
    requires c.Step? && AllReached(steps, wanted) && AllComplete(steps) && Completed(c.o)
    ensures AllReached(steps + [c], wanted + {c.pub}) && AllComplete(steps + [c])
  {
    var more := steps + [c];
    forall pub | pub in wanted + {c.pub} ensures About(more, pub) {
      if pub in wanted {
        var i :| 0 <= i < |steps| && steps[i].Step? && steps[i].pub == pub;
        assert more[i] == steps[i];
      } else {
        assert more[|steps|] == c;
      }
    }
  }

  lemma WishesMore(leaves: seq<LeafRouter>, i: nat, found: set<nat>, wanted: set<Bytes>, vx: set<string>, there: bool)
    requires i < |leaves| && Agreement.IsWGLeaf(leaves[i]) && Wishes(leaves, found, wanted, vx)
    ensures var cfg := leaves[i].macsec.value;
            there ==> Wishes(leaves, found + {i}, wanted + {cfg.leafPublicKey}, vx + {Names.VXLANMain(Max(cfg.port, 0))})
  {
  }

  lemma FoundWanted(leaves: seq<LeafRouter>, found: set<nat>, wanted: set<Bytes>, vx: set<string>)
    requires Wishes(leaves, found, wanted, vx)
    ensures found == {} <==> wanted == {}
  {
    if found != {} {
      var i :| i in found;
      assert leaves[i].macsec.value.leafPublicKey in wanted;
    }
  }

  /** What a cleanup leaves of kernel and cache. */
  ghost predicate Cleaned(a: Kernel, b: Kernel, cache: map<Key, Value>, applied: map<Key, Value>, wanted: set<Bytes>,
                          vx: set<string>, steady: bool, works: bool) {
    && (wanted != {} ==>
          && PrunedWG(a, b, wanted) && (works && HasWG(b) ==> b[WG_IFACE].kind.wg.peers.Keys <= wanted)
          && (forall pub :: pub in wanted && Peer(pub) in cache ==> Peer(pub) in applied && applied[Peer(pub)] == cache[Peer(pub)]))
    && (steady ==> NoStrayVX(b, vx) && (wanted == {} ==> WG_IFACE !in b))
    && ShrunkElsewhere(a, b, vx)
  }

  lemma PassConverged(p: Pass, leaves: seq<LeafRouter>, a: map<Key, Value>, k: Kernel, mtu: int, vx: set<string>,
                      a': map<Key, Value>, k': Kernel)
    requires Wishes(leaves, p.found, p.wanted, vx) && AllUp(leaves, |leaves|, p.found, a, k, mtu)
    requires AllComplete(p.steps) && AllReached(p.steps, p.wanted) && (p.wanted != {} && HasWG(k) ==> p.listed)
    requires Cleaned(k, k', a, a', p.wanted, vx, true, true)
    ensures Converged(p, leaves, a', k')
  {
    forall i | 0 <= i < |leaves| && Agreement.IsWGLeaf(leaves[i])
      ensures LinkedUp(leaves[i].macsec.value, a', k')
    {
      var cfg := leaves[i].macsec.value;
      assert i in p.found && LinkedUp(cfg, a, k);
      assert cfg.leafPublicKey in p.wanted && Names.VXLANMain(Max(cfg.port, 0)) in vx;
      VXLANNotWG(Max(cfg.port, 0));
    }
    FoundWanted(leaves, p.found, p.wanted, vx);
    if p.found != {} {
      var i :| i in p.found;
      assert HasWG(k);
    }
  }

  class Tunnels {
    const wg: Backhaul
    var wgSeen: bool
    /** Every pass so far was smooth. */
    ghost var smooth: bool

    ghost predicate Valid()
      reads this, wg, wg.sys
    {
      && wg.Valid() && WGKind(wg.sys.k) && wg.Tracks() && OfPorts(wg.changes)
      && (!wgSeen ==> forall pub :: Peer(pub) !in wg.applied)
      && (smooth ==> Unspoiled(wg.start, wg.changes))
    }

    constructor (wg: Backhaul)
      requires wg.Valid() && WGKind(wg.sys.k) && wg.Tracks() && wg.changes == [] && wg.applied == map[]
      ensures Valid() && smooth && !wgSeen && this.wg == wg
    {
      this.wg, wgSeen, smooth := wg, false, true;
    }

    /** The exact statement holds whatever happened; and if every pass was smooth, all cached peers
        are in the kernel. */
    lemma CacheExact()
      requires Valid()
      ensures wg.Exact() && (smooth ==> CacheOk(wg.applied, wg.sys.k))
    {
      OfPortsDetermined(wg.changes);
      wg.ExactIfDetermined();
      if HasWG(wg.sys.k) {
        SoundExactly(wg.start, wg.changes);
      }
    }

    /** One leaf's link. A leaf whose interface is not there is not wanted this time. */
    method RaiseOne(cfg: LeafMACsec, mtu: int) returns (found: bool, ghost made: bool, ghost o: Option<Outcome>)
      requires wg.Valid() && WGKind(wg.sys.k) && wg.Tracks()
      modifies wg, wg.sys
      ensures wg.Valid() && WGKind(wg.sys.k) && wg.Tracks()
      ensures made == (!HasWG(old(wg.sys.k)) && HasWG(wg.sys.k))
      ensures HasWG(old(wg.sys.k)) || o.Some? ==> HasWG(wg.sys.k)
      ensures o.Some? ==> found && ValidWGPort(cfg.port)
      ensures wg.changes == old(wg.changes) + FirstMade(made) + PeerSteps(cfg, o)
      ensures (found ==> cfg.parent in old(wg.sys.k)) && (wg.sys.steady && cfg.parent in old(wg.sys.k) ==> found)
      ensures Grows(old(wg.sys.k), wg.sys.k)
      ensures HasWG(old(wg.sys.k)) ==> SamePeersBut(cfg.leafPublicKey, wg.applied, old(wg.applied))
      ensures wg.sys.works && found && ValidWGPort(cfg.port) && |cfg.leafPublicKey| == 32 ==>
                o.Some? && Completed(o.value) && LinkedUp(cfg, wg.applied, wg.sys.k) && HasMTU(wg.sys.k, WG_IFACE, mtu)
    {
      var info := wg.sys.LinkInfo(cfg.parent);
      found, made, o := info.Some?, false, None;
      if found {
        ghost var k := wg.sys.k;
        var ok;
        ok, o := wg.MainWGLeaf(cfg, mtu);
        made := !HasWG(k) && HasWG(wg.sys.k);
      }
    }

    /** The turn of leaf `i` in a pass that began with `before`. */
    method RaiseNext(leaves: seq<LeafRouter>, i: nat, wanted: set<Bytes>, vx: set<string>, ghost before: seq<Change>,
                     ghost made: seq<Change>, ghost steps: seq<Change>, ghost found: set<nat>, mtu: int, ghost k: Kernel)
      returns (wanted': set<Bytes>, vx': set<string>, ghost made': seq<Change>, ghost steps': seq<Change>, ghost found': set<nat>)
      requires wg.Valid() && WGKind(wg.sys.k) && wg.Tracks() && DistinctPorts(leaves) && i < |leaves|
      requires wg.changes == before + (made + steps) && Raised(leaves, i, made, steps, wanted, wg.sys.k)
      requires Wishes(leaves, found, wanted, vx) && Grows(k, wg.sys.k)
      requires wg.sys.works && AllUsable(leaves, k) ==>
                 AllUp(leaves, i, found, wg.applied, wg.sys.k, mtu) && AllComplete(steps) && AllReached(steps, wanted)
      modifies wg, wg.sys
      ensures wg.Valid() && WGKind(wg.sys.k) && wg.Tracks()
      ensures wg.changes == before + (made' + steps') && Raised(leaves, i + 1, made', steps', wanted', wg.sys.k)
      ensures Wishes(leaves, found', wanted', vx') && Grows(k, wg.sys.k)
      ensures wg.sys.works && AllUsable(leaves, k) ==>
                AllUp(leaves, i + 1, found', wg.applied, wg.sys.k, mtu) && AllComplete(steps') && AllReached(steps', wanted')
    {
      if !Agreement.IsWGLeaf(leaves[i]) {
        RaisedSkip(leaves, i, made, steps, wanted, wg.sys.k);
        return wanted, vx, made, steps, found;
      }
      var cfg := leaves[i].macsec.value;
      var there;
      ghost var first, o;
      ghost var k1, a1 := wg.sys.k, wg.applied;
      there, first, o := RaiseOne(cfg, mtu);
      RaisedNext(leaves, i, made, steps, wanted, k1, wg.sys.k, there, first, o);
      TurnAppended(before, made, steps, first, PeerSteps(cfg, o));
      wanted' := if there then wanted + {cfg.leafPublicKey} else wanted;
      vx' := if there then vx + {Names.VXLANMain(Max(cfg.port, 0))} else vx;
      made' := if first then [Made] else made;
      steps' := steps + PeerSteps(cfg, o);
      found' := if there then found + {i} else found;
      WishesMore(leaves, i, found, wanted, vx, there);
      if wg.sys.works && AllUsable(leaves, k) {
        assert Usable(leaves[i], k);
        UpLater(leaves, i, found, a1, k1, mtu, found', wg.applied, wg.sys.k);
        ReachedMore(steps, wanted, Step(cfg.leafPublicKey, MainTuple(cfg), o.value));
      }
    }

    /** The links of all leaves. */
    method RaiseAll(leaves: seq<LeafRouter>) returns (wanted: set<Bytes>, vx: set<string>, ghost p: Pass, ghost mtu: int)
      requires wg.Valid() && WGKind(wg.sys.k) && wg.Tracks() && DistinctPorts(leaves)
      modifies wg, wg.sys
      ensures wg.Valid() && WGKind(wg.sys.k) && wg.Tracks()
      ensures wg.changes == old(wg.changes) + (p.made + p.steps)
      ensures Raised(leaves, |leaves|, p.made, p.steps, wanted, wg.sys.k) && p == Pass(p.made, p.steps, [], p.found, wanted, false)
      ensures Wishes(leaves, p.found, wanted, vx) && Agreement.SharedMTU(leaves, mtu)
      ensures wg.sys.works && AllUsable(leaves, old(wg.sys.k)) ==>
                && AllUp(leaves, |leaves|, p.found, wg.applied, wg.sys.k, mtu)
                && AllComplete(p.steps) && AllReached(p.steps, wanted)
    {
      var size := Agreement.WGMainMTU(leaves);
      mtu := size;
      wanted, vx := {}, {};
      ghost var made: seq<Change>, steps: seq<Change>, found: set<nat> := [], [], {};
      for i := 0 to |leaves|
        invariant wg.Valid() && WGKind(wg.sys.k) && wg.Tracks()
        invariant wg.changes == old(wg.changes) + (made + steps) && Raised(leaves, i, made, steps, wanted, wg.sys.k)
        invariant Wishes(leaves, found, wanted, vx) && Grows(old(wg.sys.k), wg.sys.k)
        invariant wg.sys.works && AllUsable(leaves, old(wg.sys.k)) ==>
                    AllUp(leaves, i, found, wg.applied, wg.sys.k, size) && AllComplete(steps) && AllReached(steps, wanted)
      {
        wanted, vx, made, steps, found := RaiseNext(leaves, i, wanted, vx, old(wg.changes), made, steps, found, size, old(wg.sys.k));
      }
      p := Pass(made, steps, [], found, wanted, false);
    }

    /** The cleanup, whenever peers are wanted or were in the last pass. */
    method Clean(wanted: set<Bytes>, vx: set<string>, ghost p: Pass) returns (ghost q: Pass)
      requires wg.Valid() && WGKind(wg.sys.k) && wg.Tracks()
      requires !wgSeen && wanted == {} ==> forall pub :: Peer(pub) !in wg.applied
      requires p.wanted == wanted && p.tail == []
      modifies this`wgSeen, wg, wg.sys
      ensures wg.Valid() && WGKind(wg.sys.k) && wg.Tracks()
      ensures q == p.(tail := q.tail, listed := q.listed) && OnlyForgets(q.tail) && wg.changes == old(wg.changes) + q.tail
      ensures !wgSeen ==> forall pub :: Peer(pub) !in wg.applied
      ensures (q.listed && HasWG(old(wg.sys.k))) || wanted == {} ==> forall pub :: Peer(pub) in wg.applied ==> pub in wanted
      ensures wgSeen <==> wanted != {}
      ensures wanted != {} && wg.sys.steady && HasWG(old(wg.sys.k)) ==> q.listed
      ensures if wanted == {} && !old(wgSeen) then wg.sys.k == old(wg.sys.k) && wg.applied == old(wg.applied)
              else Cleaned(old(wg.sys.k), wg.sys.k, old(wg.applied), wg.applied, wanted, vx, wg.sys.steady, wg.sys.works)
    {
      q := p;
      if wanted != {} || wgSeen {
        if HasWG(wg.sys.k) {
          CachedKnown(wg.start, wg.changes);
        }
        ghost var middle := wg.changes;
        ghost var listed := wg.CleanupMainWG(wanted, vx);
        q := p.(tail := wg.changes[|middle|..], listed := listed);
      }
      wgSeen := wanted != {};
    }

    /** All links, then the cleanup. */
    method Sweep(leaves: seq<LeafRouter>) returns (ghost p: Pass)
      requires Valid() && DistinctPorts(leaves)
      modifies this`wgSeen, wg, wg.sys
      ensures wg.Valid() && WGKind(wg.sys.k) && wg.Tracks() && OfPorts(wg.changes)
      ensures !wgSeen ==> forall pub :: Peer(pub) !in wg.applied
      ensures PassOk(p, leaves, old(wg.changes), wg.changes) && DistinctAddresses(p.steps)
      ensures Smooth(p) ==> forall pub :: Peer(pub) in wg.applied ==> pub in p.wanted
      ensures p.listed && p.steps != [] ==> forall pub :: Peer(pub) in wg.applied ==> pub in p.wanted
      ensures wg.sys.works && AllUsable(leaves, old(wg.sys.k)) && (p.found != {} || old(wgSeen)) ==>
                Converged(p, leaves, wg.applied, wg.sys.k)
    {
      var wanted, vx;
      ghost var mtu;
      wanted, vx, p, mtu := RaiseAll(leaves);
      ghost var k, a := wg.sys.k, wg.applied;
      NothingWanted(wg.start, old(wg.changes), p, leaves, k);
      p := Clean(wanted, vx, p);
      PassDone(leaves, old(wg.changes), p, vx, k, wg.changes);
      FoundWanted(leaves, p.found, wanted, vx);
      if wg.sys.works && AllUsable(leaves, old(wg.sys.k)) && (p.found != {} || old(wgSeen)) {
        PassConverged(p, leaves, a, k, mtu, vx, wg.applied, wg.sys.k);
      }
    }

    /** The work of one pass. */
    method Work(leaves: seq<LeafRouter>) returns (ghost p: Pass)
      requires Valid() && DistinctPorts(leaves)
      modifies this, wg, wg.sys
      ensures Valid() && PassOk(p, leaves, old(wg.changes), wg.changes)
      ensures smooth <==> old(smooth) && Smooth(p)
      ensures p.listed && p.steps != [] ==> forall pub :: Peer(pub) in wg.applied ==> pub in p.wanted
      ensures wg.sys.works && AllUsable(leaves, old(wg.sys.k)) && (p.found != {} || old(wgSeen)) ==>
                Converged(p, leaves, wg.applied, wg.sys.k)
    {
      p := Sweep(leaves);
      smooth := smooth && Smooth(p);
      if smooth {
        SmoothPass(wg.start, old(wg.changes), p);
      }
    }

    /** One pass. Whatever failed, the cache is exact afterwards; with smooth passes only, it is sound. */
    method Reconcile(leaves: seq<LeafRouter>) returns (ghost p: Pass)
      requires Valid() && DistinctPorts(leaves)
      modifies this, wg, wg.sys
      ensures Valid() && PassOk(p, leaves, old(wg.changes), wg.changes)
      ensures smooth <==> old(smooth) && Smooth(p)
      ensures wg.Exact() && (smooth ==> CacheOk(wg.applied, wg.sys.k))
      ensures p.listed && p.steps != [] ==> forall pub :: Peer(pub) in wg.applied ==> pub in p.wanted
      // With every command working all links come up and nothing else of the backhaul stays.
      ensures wg.sys.works && AllUsable(leaves, old(wg.sys.k)) && (p.found != {} || old(wgSeen)) ==>
                Converged(p, leaves, wg.applied, wg.sys.k)
    {
      p := Work(leaves);
      CacheExact();
    }

    /** Somebody else removes the WireGuard device. */
    method LoseDevice()
      requires Valid()
      modifies wg`changes, wg.sys
      ensures Valid() && old(wg.changes) <= wg.changes && wg.applied == old(wg.applied)
    {
      ghost var before := wg.changes;
      wg.RemoveWGIface();
      ghost var tail := wg.changes[|before|..];
      assert wg.changes == before + tail;
      OfPortsMore(before, tail);
      if smooth {
        ForgettingKeepsUnspoiled(wg.start, before, tail);
      }
    }

    /** Any run: passes over configurations with distinct ports, the device lost in between. After
        every pass the cache is exact; if all passes were smooth, every cached peer is in the kernel. */
    method Run(rounds: seq<(seq<LeafRouter>, bool)>) returns (ghost passes: seq<Pass>)
      requires Valid() && smooth
      requires forall i :: 0 <= i < |rounds| ==> DistinctPorts(rounds[i].0)
      modifies this, wg, wg.sys
      ensures Valid() && wg.Exact() && |passes| == |rounds|
      ensures (forall i :: 0 <= i < |passes| ==> Smooth(passes[i])) ==> CacheOk(wg.applied, wg.sys.k)
    {
      passes := [];
      CacheExact();
      for i := 0 to |rounds|
        invariant Valid() && wg.Exact() && |passes| == i
        invariant smooth || exists j :: 0 <= j < i && !Smooth(passes[j])
        invariant smooth ==> CacheOk(wg.applied, wg.sys.k)
      {
        if rounds[i].1 {
          LoseDevice();
        }
        ghost var p := Reconcile(rounds[i].0);
        ghost var before := passes;
        passes := passes + [p];
        if !smooth {
          if Smooth(p) {
            var j :| 0 <= j < i && !Smooth(before[j]);
            assert !Smooth(passes[j]);
          } else {
            assert passes[i] == p;
          }
        }
      }
    }
  }
}
