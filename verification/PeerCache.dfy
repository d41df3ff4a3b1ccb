/** The cache of applied peer settings against the kernel, over whole runs: which cached peers are in
    the kernel as cached after any sequence of peer steps, removals, and losses and re-creations of
    the WireGuard device. */
module PeerCache {
  import opened Wrappers
  import opened Mesh
  import opened LinkSystem
  import opened Names

  /** What one peer setting consists of. */
  datatype Tuple = Tuple(psk: string, tunnelIP: string, endpoint: string, local: string)

  /** The kernel has the peer with exactly this setting, route included. */
  predicate Present(wg: WGState, pub: Bytes, t: Tuple) {
    && pub in wg.peers && wg.peers[pub] == PeerConf(t.psk, t.endpoint)
    && t.tunnelIP in wg.allowed && wg.allowed[t.tunnelIP] == pub
    && t.tunnelIP in wg.routes && wg.routes[t.tunnelIP] == t.local
  }

  /** How far a peer step got: skipped as cached, or up to the peer, the route, or the end. */
  datatype Outcome = Skipped | SetFailed | RouteFailed | Done

  predicate Completed(o: Outcome) { o.Skipped? || o.Done? }

  function WGAfter(wg: WGState, pub: Bytes, t: Tuple, o: Outcome): WGState {
    match o
    case Skipped => wg
    case SetFailed => wg
    case RouteFailed => WithPeer(wg, pub, PeerConf(t.psk, t.endpoint), t.tunnelIP)
    case Done => WithRoute(WithPeer(wg, pub, PeerConf(t.psk, t.endpoint), t.tunnelIP), t.tunnelIP, t.local)
  }

  /** The cached peers, and the device if there is one. */
  datatype View = View(cache: map<Bytes, Tuple>, wg: Option<WGState>)

  /** What happens to either: a peer step; the device made, which forgets its peers, or gone; an
      unwanted peer forgotten and perhaps removed; everything forgotten. */
  datatype Change =
    | Step(pub: Bytes, t: Tuple, o: Outcome)
    | Made
    | Gone
    | Forgot(pub: Bytes, removed: bool)
    | Cleared

  function Next(v: View, c: Change): View {
    match c
    case Step(pub, t, o) =>
      View(if o.Done? then v.cache[pub := t] else v.cache,
           if v.wg.Some? then Some(WGAfter(v.wg.value, pub, t, o)) else None)
    case Made => View(map[], Some(WGState(map[], map[], map[])))
    case Gone => v.(wg := None)
    case Forgot(pub, removed) =>
      View(v.cache - {pub}, if v.wg.Some? && removed then Some(WithoutPeer(v.wg.value, pub)) else v.wg)
    case Cleared => v.(cache := map[])
  }

  /** A step is skipped exactly when it is cached, and commands work only on a device that exists. */
  predicate Legal(v: View, c: Change) {
    match c
    case Step(pub, t, o) =>
      (o.Skipped? <==> pub in v.cache && v.cache[pub] == t) && (o.RouteFailed? || o.Done? ==> v.wg.Some?)
    case Made => v.wg.None?
    case Gone => v.wg.Some?
    case Forgot(_, removed) => removed ==> v.wg.Some?
    case Cleared => true
  }

  function Run(v: View, cs: seq<Change>): View {
    if cs == [] then v else Next(Run(v, cs[..|cs| - 1]), cs[|cs| - 1])
  }

  predicate LegalRun(v: View, cs: seq<Change>) {
    cs == [] || (LegalRun(v, cs[..|cs| - 1]) && Legal(Run(v, cs[..|cs| - 1]), cs[|cs| - 1]))
  }

  lemma RunSnoc(v: View, cs: seq<Change>, c: Change)
    ensures Run(v, cs + [c]) == Next(Run(v, cs), c)
    ensures LegalRun(v, cs + [c]) <==> LegalRun(v, cs) && Legal(Run(v, cs), c)
  {
    assert (cs + [c])[..|cs|] == cs;
  }

  // ---- Which cached peers are present ----

  /** Settings that agree in secret, address and endpoint agree altogether. */
  predicate Determined(cs: seq<Change>) {
    forall i, j :: 0 <= i < |cs| && 0 <= j < |cs| && cs[i].Step? && cs[j].Step? ==>
      (cs[i].t.psk == cs[j].t.psk && cs[i].t.tunnelIP == cs[j].t.tunnelIP && cs[i].t.endpoint == cs[j].t.endpoint
       ==> cs[i].t == cs[j].t)
  }

  /** A change that reached the kernel and gave this peer another setting, or its address to another peer. */
  predicate Spoils(c: Change, pub: Bytes, t: Tuple) {
    && c.Step? && (c.o.RouteFailed? || c.o.Done?)
    && (if c.pub == pub then c.t != t else c.t.tunnelIP == t.tunnelIP)
  }

  /** This happened since the setting was last completed. */
  predicate Spoiled(cs: seq<Change>, pub: Bytes, t: Tuple) {
    && cs != [] && cs[|cs| - 1] != Step(pub, t, Done)
    && (Spoils(cs[|cs| - 1], pub, t) || Spoiled(cs[..|cs| - 1], pub, t))
  }

  lemma SpoiledSnoc(cs: seq<Change>, c: Change, pub: Bytes, t: Tuple)
    ensures Spoiled(cs + [c], pub, t) <==> c != Step(pub, t, Done) && (Spoils(c, pub, t) || Spoiled(cs, pub, t))
  {
    assert (cs + [c])[..|cs|] == cs;
  }

  lemma {:induction false} CachedWasSet(v: View, cs: seq<Change>, pub: Bytes) returns (i: nat)
    requires v.cache == map[] && pub in Run(v, cs).cache
    ensures i < |cs| && cs[i] == Step(pub, Run(v, cs).cache[pub], Done)
  {
    var n := |cs| - 1;
    if cs[n].Step? && cs[n].o.Done? && cs[n].pub == pub {
      i := n;
    } else {
      i := CachedWasSet(v, cs[..n], pub);
    }
  }

  /** The main result, over every run of legal changes from an empty cache and any device: a cached
      peer is in the kernel exactly as cached, if and only if it was not spoiled since its setting
      was last completed. */
  lemma {:induction false} PresentExactly(v: View, cs: seq<Change>, pub: Bytes)
    requires v.cache == map[] && LegalRun(v, cs) && Determined(cs)
    requires pub in Run(v, cs).cache && Run(v, cs).wg.Some?
    ensures Present(Run(v, cs).wg.value, pub, Run(v, cs).cache[pub]) <==> !Spoiled(cs, pub, Run(v, cs).cache[pub])
  {
    var n, t := |cs| - 1, Run(v, cs).cache[pub];
    var v1, c := Run(v, cs[..n]), cs[n];
    if c == Step(pub, t, Done) {
      return;
    }
    PresentExactly(v, cs[..n], pub);
    if c.Step? && (c.o.RouteFailed? || c.o.Done?) {
      if c.pub == pub {
        var i := CachedWasSet(v, cs, pub);
        assert cs[i].t == t && c.t != t;
        assert !Present(Run(v, cs).wg.value, pub, t);
      } else {
        assert Run(v, cs).wg.value.allowed[c.t.tunnelIP] == c.pub;
      }
    }
  }

  /** Every cached peer is in the kernel as cached, while there is a device. */
  ghost predicate Sound(v: View) {
    v.wg.Some? ==> forall pub :: pub in v.cache ==> Present(v.wg.value, pub, v.cache[pub])
  }

  ghost predicate Unspoiled(v: View, cs: seq<Change>) {
    forall pub :: pub in Run(v, cs).cache ==> !Spoiled(cs, pub, Run(v, cs).cache[pub])
  }

  /** So a run leaves the cache sound exactly when nothing cached is spoiled. */
  lemma SoundExactly(v: View, cs: seq<Change>)
    requires v.cache == map[] && LegalRun(v, cs) && Determined(cs) && Run(v, cs).wg.Some?
    ensures Sound(Run(v, cs)) <==> Unspoiled(v, cs)
  {
    forall pub | pub in Run(v, cs).cache
      ensures Present(Run(v, cs).wg.value, pub, Run(v, cs).cache[pub]) <==> !Spoiled(cs, pub, Run(v, cs).cache[pub])
    {
      PresentExactly(v, cs, pub);
    }
  }

  /** A cached peer is at least a peer of the device. */
  lemma {:induction false} CachedKnown(v: View, cs: seq<Change>)
    requires v.cache == map[] && LegalRun(v, cs) && Run(v, cs).wg.Some?
    ensures forall pub :: pub in Run(v, cs).cache ==> pub in Run(v, cs).wg.value.peers
    decreases |cs|
  {
    if cs != [] && !cs[|cs| - 1].Made? {
      CachedKnown(v, cs[..|cs| - 1]);
    }
  }

  // ---- One pass over all wanted peers ----

  predicate AllComplete(steps: seq<Change>) {
    forall i :: 0 <= i < |steps| ==> steps[i].Step? && Completed(steps[i].o)
  }

  /** No two steps are about the same address. */
  predicate DistinctAddresses(steps: seq<Change>) {
    forall i, j :: 0 <= i < j < |steps| && steps[i].Step? && steps[j].Step? ==> steps[i].t.tunnelIP != steps[j].t.tunnelIP
  }

  predicate About(steps: seq<Change>, pub: Bytes) {
    exists i :: 0 <= i < |steps| && steps[i].Step? && steps[i].pub == pub
  }

  predicate HasAddress(steps: seq<Change>, ip: string) {
    exists i :: 0 <= i < |steps| && steps[i].Step? && steps[i].t.tunnelIP == ip
  }

  /** After completed steps, a peer that was among them is cached and unspoiled; any other is cached
      as it was, and unspoiled unless a step had its address. */
  predicate Settled(v: View, cs: seq<Change>, steps: seq<Change>, pub: Bytes) {
    var before, after := Run(v, cs).cache, Run(v, cs + steps).cache;
    if About(steps, pub) then
      pub in after && !Spoiled(cs + steps, pub, after[pub]) && HasAddress(steps, after[pub].tunnelIP)
    else
      && (pub in after <==> pub in before) && (pub in after ==> after[pub] == before[pub])
      && (pub in after && !HasAddress(steps, after[pub].tunnelIP) ==> !Spoiled(cs + steps, pub, after[pub]))
  }

  lemma SettledNext(v: View, cs: seq<Change>, before: seq<Change>, s: Change, pub: Bytes)
    requires Settled(v, cs, before, pub) && s.Step? && Completed(s.o) && !HasAddress(before, s.t.tunnelIP)
    requires Legal(Run(v, cs + before), s)
    ensures Settled(v, cs, before + [s], pub)
  {
    assert cs + (before + [s]) == (cs + before) + [s];
    RunSnoc(v, cs + before, s);
    AboutSnoc(before, s, pub);
    var after := Run(v, cs + (before + [s])).cache;
    if pub in after {
      SpoiledSnoc(cs + before, s, pub, after[pub]);
      AddressSnoc(before, s, after[pub].tunnelIP);
    }
  }

  lemma DistinctFront(before: seq<Change>, s: Change)
    requires AllComplete(before + [s]) && DistinctAddresses(before + [s])
    ensures AllComplete(before) && DistinctAddresses(before)
    ensures s.Step? && Completed(s.o) && !HasAddress(before, s.t.tunnelIP)
  {
    var steps := before + [s];
    assert steps[|before|] == s && forall i :: 0 <= i < |before| ==> steps[i] == before[i];
  }

  lemma {:induction false} CompleteSteps(v: View, cs: seq<Change>, steps: seq<Change>, pub: Bytes)
    requires LegalRun(v, cs + steps) && Unspoiled(v, cs)
    requires AllComplete(steps) && DistinctAddresses(steps)
    ensures Settled(v, cs, steps, pub)
    decreases |steps|
  {
    if steps == [] {
      assert cs + steps == cs;
    } else {
      var before, s := steps[..|steps| - 1], steps[|steps| - 1];
      assert cs + steps == (cs + before) + [s] && steps == before + [s];
      DistinctFront(before, s);
      RunSnoc(v, cs + before, s);
      CompleteSteps(v, cs, before, pub);
      SettledNext(v, cs, before, s, pub);
    }
  }

  lemma AboutSnoc(steps: seq<Change>, s: Change, pub: Bytes)
    ensures About(steps + [s], pub) <==> About(steps, pub) || (s.Step? && s.pub == pub)
  {
    var all := steps + [s];
    assert all[|steps|] == s && forall i :: 0 <= i < |steps| ==> all[i] == steps[i];
  }

  lemma AddressSnoc(steps: seq<Change>, s: Change, ip: string)
    ensures HasAddress(steps + [s], ip) <==> HasAddress(steps, ip) || (s.Step? && s.t.tunnelIP == ip)
  {
    var all := steps + [s];
    assert all[|steps|] == s && forall i :: 0 <= i < |steps| ==> all[i] == steps[i];
  }

  /** What comes after the steps of a pass: nothing but forgetting. */
  predicate OnlyForgets(tail: seq<Change>) {
    forall i :: 0 <= i < |tail| ==> !tail[i].Step? && !tail[i].Made?
  }

  lemma {:induction false} ForgettingSpoilsNothing(v: View, cs: seq<Change>, tail: seq<Change>, pub: Bytes)
    requires OnlyForgets(tail) && pub in Run(v, cs + tail).cache
    ensures pub in Run(v, cs).cache && Run(v, cs + tail).cache[pub] == Run(v, cs).cache[pub]
    ensures Spoiled(cs + tail, pub, Run(v, cs + tail).cache[pub]) <==> Spoiled(cs, pub, Run(v, cs).cache[pub])
    decreases |tail|
  {
    if tail == [] {
      assert cs + tail == cs;
    } else {
      var n := |tail| - 1;
      assert cs + tail == (cs + tail[..n]) + [tail[n]];
      RunSnoc(v, cs + tail[..n], tail[n]);
      ForgettingSpoilsNothing(v, cs, tail[..n], pub);
      SpoiledSnoc(cs + tail[..n], tail[n], pub, Run(v, cs + tail).cache[pub]);
    }
  }

  lemma ForgettingKeepsUnspoiled(v: View, cs: seq<Change>, tail: seq<Change>)
    requires OnlyForgets(tail) && Unspoiled(v, cs)
    ensures Unspoiled(v, cs + tail)
  {
    forall pub | pub in Run(v, cs + tail).cache
      ensures !Spoiled(cs + tail, pub, Run(v, cs + tail).cache[pub])
    {
      ForgettingSpoilsNothing(v, cs, tail, pub);
    }
  }

  lemma {:induction false} LegalPrefix(v: View, a: seq<Change>, b: seq<Change>)
    requires LegalRun(v, a + b)
    ensures LegalRun(v, a)
    decreases |b|
  {
    if b == [] {
      assert a + b == a;
    } else {
      assert (a + b)[..|a + b| - 1] == a + b[..|b| - 1];
      LegalPrefix(v, a, b[..|b| - 1]);
    }
  }

  /** A pass whose every peer step completes, and that afterwards knows no other peers, leaves nothing
      spoiled - even when it moved addresses from one peer to another. */
  lemma CompletePass(v: View, cs: seq<Change>, steps: seq<Change>, tail: seq<Change>)
    requires LegalRun(v, cs + steps + tail) && Unspoiled(v, cs)
    requires AllComplete(steps) && DistinctAddresses(steps) && OnlyForgets(tail)
    requires forall pub :: pub in Run(v, cs + steps + tail).cache ==> About(steps, pub)
    ensures Unspoiled(v, cs + steps + tail)
  {
    LegalPrefix(v, cs + steps, tail);
    forall pub | pub in Run(v, cs + steps + tail).cache
      ensures !Spoiled(cs + steps + tail, pub, Run(v, cs + steps + tail).cache[pub])
    {
      ForgettingSpoilsNothing(v, cs + steps, tail, pub);
      CompleteSteps(v, cs, steps, pub);
    }
  }

  // ---- The failing cases exist ----

  lemma Unroll(v: View, cs: seq<Change>)
    requires cs != []
    ensures Run(v, cs) == Next(Run(v, cs[..|cs| - 1]), cs[|cs| - 1])
    ensures LegalRun(v, cs) <==> LegalRun(v, cs[..|cs| - 1]) && Legal(Run(v, cs[..|cs| - 1]), cs[|cs| - 1])
  {
  }

  const NOTHING := View(map[], None)

  /** A route that fails after the peer was changed: the old setting is still cached, so asking for it
      again is skipped, and it is not in the kernel. */
  lemma FailedRouteExample(pub: Bytes, t: Tuple, t': Tuple)
    requires t.endpoint != t'.endpoint
    ensures var cs := [Made, Step(pub, t, Done), Step(pub, t', RouteFailed), Step(pub, t, Skipped)];
            var v := Run(NOTHING, cs);
            LegalRun(NOTHING, cs) && v.cache == map[pub := t] && v.wg.Some? && !Present(v.wg.value, pub, t)
  {
    var cs := [Made, Step(pub, t, Done), Step(pub, t', RouteFailed), Step(pub, t, Skipped)];
    assert cs[..3] == [Made, Step(pub, t, Done), Step(pub, t', RouteFailed)];
    assert cs[..3][..2] == [Made, Step(pub, t, Done)] && cs[..3][..2][..1] == [Made] && [Made][..0] == [];
    Unroll(NOTHING, [Made]);
    Unroll(NOTHING, cs[..3][..2]);
    Unroll(NOTHING, cs[..3]);
    Unroll(NOTHING, cs);
  }

  /** A port given to another leaf, with every command succeeding: the former peer stays cached with an
      address it has lost, until it is forgotten; if listing the peers fails, it is not. */
  lemma PortReuseExample(former: Bytes, newer: Bytes, t: Tuple)
    requires former != newer
    ensures var cs := [Made, Step(former, t, Done), Step(newer, t, Done)];
            var v := Run(NOTHING, cs);
            && LegalRun(NOTHING, cs) && v.wg.Some?
            && former in v.cache && v.cache[former] == t && !Present(v.wg.value, former, t)
            && Legal(v, Step(former, t, Skipped))
            && Sound(Next(v, Forgot(former, true)))
  {
    var cs := [Made, Step(former, t, Done), Step(newer, t, Done)];
    assert cs[..2] == [Made, Step(former, t, Done)] && cs[..2][..1] == [Made] && [Made][..0] == [];
    Unroll(NOTHING, [Made]);
    Unroll(NOTHING, cs[..2]);
    Unroll(NOTHING, cs);
  }

  /** Two leaves that exchange ports, both still wanted, when the second peer command fails: every route
      command and the listing work, and yet the second peer is cached with an address it has lost. */
  lemma ExchangedPortsExample(p: Bytes, q: Bytes, a: Tuple, b: Tuple)
    requires p != q && a.tunnelIP != b.tunnelIP
    ensures var cs := [Made, Step(p, a, Done), Step(q, b, Done), Step(p, b, Done), Step(q, a, SetFailed)];
            var v := Run(NOTHING, cs);
            && LegalRun(NOTHING, cs) && v.wg.Some?
            && q in v.cache && v.cache[q] == b && !Present(v.wg.value, q, b)
  {
    var cs := [Made, Step(p, a, Done), Step(q, b, Done), Step(p, b, Done), Step(q, a, SetFailed)];
    var c4, c3, c2 := cs[..4], cs[..3], cs[..2];
    assert c4[..3] == c3 && c3[..2] == c2 && c2[..1] == [Made] && [Made][..0] == [];
    Unroll(NOTHING, [Made]);
    Unroll(NOTHING, c2);
    Unroll(NOTHING, c3);
    Unroll(NOTHING, c4);
    Unroll(NOTHING, cs);
  }

  // ---- The settings of the main router ----

  /** The setting of the leaf with this port. */
  function PortTuple(port: nat): Tuple {
    Tuple("psk-" + Decimal(port), TunnelIP(port), UnderlayIP(port), TunnelIP(MAIN_SIDE))
  }

  /** Each of secret, address and endpoint determines the port, and so the setting. */
  lemma PortTupleInjective(m: nat, n: nat)
    requires PortTuple(m).psk == PortTuple(n).psk || PortTuple(m).tunnelIP == PortTuple(n).tunnelIP
             || PortTuple(m).endpoint == PortTuple(n).endpoint
    ensures m == n
  {
    if PortTuple(m).psk == PortTuple(n).psk {
      Suffix("psk-", Decimal(m), Decimal(n));
      DecimalInjective(m, n);
    } else {
      NamesInjective(m, n);
    }
  }

  ghost predicate OfPorts(cs: seq<Change>) {
    forall i :: 0 <= i < |cs| && cs[i].Step? ==> exists port: nat :: cs[i].t == PortTuple(port)
  }

  lemma OfPortsDetermined(cs: seq<Change>)
    requires OfPorts(cs)
    ensures Determined(cs)
  {
    forall i, j | 0 <= i < |cs| && 0 <= j < |cs| && cs[i].Step? && cs[j].Step? && cs[i].t.psk == cs[j].t.psk
      ensures cs[i].t == cs[j].t
    {
      var m: nat :| cs[i].t == PortTuple(m);
      var n: nat :| cs[j].t == PortTuple(n);
      PortTupleInjective(m, n);
    }
  }

  // ---- The setting of a leaf ----

  /** The setting of the main router on the leaf of this port: all leaves use the main router's
      addresses, so any two of these settings compete for one tunnel address. */
  function LeafPortTuple(port: nat): Tuple {
    Tuple("psk-" + Decimal(port), TunnelIP(MAIN_SIDE), UnderlayIP(MAIN_SIDE), TunnelIP(port))
  }

  ghost predicate OfLeaf(cs: seq<Change>) {
    forall i :: 0 <= i < |cs| && cs[i].Step? ==> exists port: nat :: cs[i].t == LeafPortTuple(port)
  }

  lemma OfLeafDetermined(cs: seq<Change>)
    requires OfLeaf(cs)
    ensures Determined(cs)
  {
    forall i, j | 0 <= i < |cs| && 0 <= j < |cs| && cs[i].Step? && cs[j].Step? && cs[i].t.psk == cs[j].t.psk
      ensures cs[i].t == cs[j].t
    {
      var m: nat :| cs[i].t == LeafPortTuple(m);
      var n: nat :| cs[j].t == LeafPortTuple(n);
      Suffix("psk-", Decimal(m), Decimal(n));
      DecimalInjective(m, n);
    }
  }

  lemma OfLeafForgets(cs: seq<Change>, more: seq<Change>)
    requires OfLeaf(cs) && cs <= more && OnlyForgets(more[|cs|..])
    ensures OfLeaf(more)
  {
    forall i | 0 <= i < |more| && more[i].Step?
      ensures exists port: nat :: more[i].t == LeafPortTuple(port)
    {
      if i < |cs| {
        assert more[i] == cs[i];
      }
    }
  }

  /** One more turn of a leaf. */
  lemma OfLeafTurn(cs: seq<Change>, made: bool, pub: Bytes, port: nat, o: Option<Outcome>)
    requires OfLeaf(cs)
    ensures OfLeaf(cs + (if made then [Made] else []) + (if o.Some? then [Step(pub, LeafPortTuple(port), o.value)] else []))
  {
  }

  /** A leaf whose main router changes its key and then takes up the former one again: the former entry
      is still cached, so the peer is not set and stays without its address; after a teardown it is set. */
  lemma ReturnedKeyExample(p: Bytes, q: Bytes, m: nat, n: nat)
    requires p != q
    ensures var t := LeafPortTuple(m);
            var cs := [Made, Step(p, t, Done), Step(q, LeafPortTuple(n), Done)];
            var v := Run(NOTHING, cs);
            && LegalRun(NOTHING, cs) && v.wg.Some? && Legal(v, Step(p, t, Skipped)) && !Present(v.wg.value, p, t)
            && var torn := Next(Next(v, Gone), Cleared);
               var again := Next(Next(torn, Made), Step(p, t, Done));
               Legal(v, Gone) && Legal(torn, Made) && Legal(Next(torn, Made), Step(p, t, Done)) && Present(again.wg.value, p, t)
  {
    var cs := [Made, Step(p, LeafPortTuple(m), Done), Step(q, LeafPortTuple(n), Done)];
    assert cs[..2] == [Made, Step(p, LeafPortTuple(m), Done)] && cs[..2][..1] == [Made] && [Made][..0] == [];
    Unroll(NOTHING, [Made]);
    Unroll(NOTHING, cs[..2]);
    Unroll(NOTHING, cs);
  }
}
