/** The reconcile pass of a leaf: guard, unbridge, bring up the encrypted link, bridge it, and
    confirm or revert the association. Handlers interleave with it at every lock it takes. */
module LeafRuntime {
  import opened Wrappers
  import opened Mesh
  import opened LinkSystem
  import opened LeafConfig
  import opened Mka
  import opened WireGuard
  import PeerCache
  import opened LeafNode
  import opened MtuMath
  import opened Names
  import Codec

  /** The raw uplink is a port of the bridge. */
  predicate Joined(k: Kernel, wanif: string) {
    wanif in k && k[wanif].master == BRIDGE_IFACE
  }

  /** An encrypted port: a MACsec device on the uplink, or the tunnel port. */
  predicate Encrypted(k: Kernel, wanif: string, n: string)
    requires n in k
  {
    n == VXLAN_LEAF || (k[n].kind.SecY? && k[n].kind.parent == wanif)
  }

  /** The bridge never holds both the raw uplink and an encrypted port. */
  predicate Exclusive(k: Kernel, wanif: string) {
    Joined(k, wanif) ==> forall n :: n in k && Encrypted(k, wanif, n) ==> k[n].master != BRIDGE_IFACE
  }

  /** A change that does not join the uplink and keeps exclusiveness and, if `v`, the tunnel port on
      top of the WireGuard device. */
  predicate KeepStep(wanif: string, v: bool, a: Kernel, b: Kernel) {
    && (Joined(b, wanif) ==> Joined(a, wanif))
    && (Exclusive(a, wanif) ==> Exclusive(b, wanif))
    && (WGKind(a) ==> WGKind(b))
    && (v && VxNeedsWg(a) ==> VxNeedsWg(b))
  }

  predicate AllKept(wanif: string, v: bool, a: Kernel, history: seq<Kernel>, from: nat) {
    forall i :: from <= i < |history| ==> KeepStep(wanif, v, a, history[i])
  }

  lemma CalmKeeps(wanif: string, a: Kernel, b: Kernel)
    requires Calm(a, b)
    ensures (Joined(b, wanif) ==> Joined(a, wanif)) && (Exclusive(a, wanif) ==> Exclusive(b, wanif))
  {
  }

  lemma QuietKeeps(wanif: string, r: set<string>, a: Kernel, history: seq<Kernel>, from: nat)
    requires AllQuiet(r, a, history, from) && {VXLAN_LEAF, WG_IFACE} <= r
    requires forall n :: n in r && n in a ==> !a[n].kind.SecY?
    ensures AllKept(wanif, true, a, history, from)
  {
    forall i | from <= i < |history| ensures KeepStep(wanif, true, a, history[i]) {
      QuietIsCalm(r, a, history[i]);
      CalmKeeps(wanif, a, history[i]);
      assert VXLAN_LEAF in r && WG_IFACE in r;
    }
  }

  lemma CalmAllKeeps(wanif: string, a: Kernel, history: seq<Kernel>, from: nat)
    requires AllCalm(a, history, from)
    ensures AllKept(wanif, true, a, history, from)
  {
    forall i | from <= i < |history| ensures KeepStep(wanif, true, a, history[i]) {
      CalmKeeps(wanif, a, history[i]);
    }
  }

  /** Kept in a row is kept: first the steps of `before`, then those of `history`. */
  lemma KeptLater(wanif: string, v: bool, a: Kernel, b: Kernel, first: seq<Kernel>, before: seq<Kernel>, history: seq<Kernel>)
    requires first <= before <= history && KeepStep(wanif, v, a, b)
    requires AllKept(wanif, v, a, before, |first|) && AllKept(wanif, v, b, history, |before|)
    ensures first <= history && AllKept(wanif, v, a, history, |first|)
    ensures |before| < |history| ==> KeepStep(wanif, v, a, history[|history| - 1])
  {
    forall i | |first| <= i < |history| ensures KeepStep(wanif, v, a, history[i]) {
      if i < |before| {
        assert before[i] == history[i];
      }
    }
  }

  /** Quiet steps after kept ones. */
  lemma KeptThenQuiet(wanif: string, r: set<string>, a: Kernel, b: Kernel, c: Kernel, first: seq<Kernel>, before: seq<Kernel>, history: seq<Kernel>)
    requires first <= before <= history && KeepStep(wanif, true, a, b) && AllKept(wanif, true, a, before, |first|)
    requires Quiet(r, b, c) && AllQuiet(r, b, history, |before|) && {VXLAN_LEAF, WG_IFACE} <= r
    requires forall n :: n in r && n in b ==> !b[n].kind.SecY?
    ensures KeepStep(wanif, true, a, c) && first <= history && AllKept(wanif, true, a, history, |first|)
  {
    QuietKeepsOne(wanif, r, b, c);
    QuietKeeps(wanif, r, b, history, |before|);
    KeptLater(wanif, true, a, b, first, before, history);
  }

  /** Calm steps after kept ones. */
  lemma KeptThenCalm(wanif: string, v: bool, a: Kernel, b: Kernel, c: Kernel, first: seq<Kernel>, before: seq<Kernel>, history: seq<Kernel>)
    requires first <= before <= history && KeepStep(wanif, true, a, b) && AllKept(wanif, true, a, before, |first|)
    requires Calm(b, c) && (WGKind(b) ==> WGKind(c)) && OnlyCalm(b, history, |before|)
    requires v ==> CalmStep(b, c) && AllCalm(b, history, |before|)
    ensures KeepStep(wanif, v, a, c) && first <= history && AllKept(wanif, v, a, history, |first|)
  {
    CalmKeepsAll(wanif, b, history, |before|);
    CalmKeeps(wanif, b, c);
    KeptWeaker(wanif, v, a, b, before, |first|);
    KeptLater(wanif, v, a, b, first, before, history);
  }

  /** The tunnel port and the WireGuard device are what they were. */
  predicate TunnelKept(a: Kernel, b: Kernel) {
    && WGOf(a) == WGOf(b) && (VXLAN_LEAF in a <==> VXLAN_LEAF in b) && (WG_IFACE in a <==> WG_IFACE in b)
    && (VXLAN_LEAF in a ==> b[VXLAN_LEAF].kind == a[VXLAN_LEAF].kind)
  }

  lemma QuietTunnel(r: set<string>, a: Kernel, b: Kernel)
    requires Quiet(r, a, b) && {VXLAN_LEAF, WG_IFACE} <= r
    requires forall n :: n in r && n in a ==> !a[n].kind.SecY?
    ensures TunnelKept(a, b)
  {
    assert VXLAN_LEAF in r && WG_IFACE in r;
  }

  lemma LapsesFrom(a: seq<Lapse>, b: seq<Lapse>, from: nat)
    requires a <= b && from <= |a|
    ensures b[from..] == a[from..] + b[|a|..] && b[from..|a|] == a[from..]
  {
  }

  lemma FaultsJoin(faults: seq<Lapse>, l0: seq<Lapse>, l1: seq<Lapse>, l2: seq<Lapse>)
    requires l0 <= l1 <= l2
    ensures l0 <= l2 && faults + l1[|l0|..] + l2[|l1|..] == faults + l2[|l0|..]
  {
  }

  /** Failures of the first part of a pass, and all those of its second. */
  lemma BothAmong(first: seq<Lapse>, l0: seq<Lapse>, l1: seq<Lapse>, l2: seq<Lapse>)
    requires l0 <= l1 <= l2 && forall l :: l in first ==> l in l1[|l0|..]
    ensures forall l :: l in first || l in l2[|l1|..] ==> l in l2[|l0|..]
  {
    assert l2[|l0|..] == l1[|l0|..] + l2[|l1|..];
  }

  // ---- Deleting the uplink's devices ----

  /** From `q` to `k` the uplink's devices other than the one to keep were deleted, as far as the calls
      that failed (`ls`) allow. */
  ghost predicate Purged(q: Kernel, k: Kernel, ls: seq<Lapse>, wanif: string, keep: Option<nat>) {
    && (forall n :: n in k <==> n in q && (Other(q[n], wanif, keep) ==> Lapsed(ls, n)))
    && (forall n :: n in k ==> k[n] == q[n])
    && (forall n :: Lapsed(ls, n) ==> n in q && q[n].kind.SecY?)
  }

  /** The same, with the links from index `i` on still to come. */
  ghost predicate Purging(q: Kernel, k: Kernel, ls: seq<Lapse>, links: seq<SecYLink>, i: nat, wanif: string, keep: Option<nat>) {
    && Lists(q, links)
    && (forall n :: n in k ==> n in q && k[n] == q[n])
    && (forall n :: n in q && !Other(q[n], wanif, keep) ==> n in k)
    && (forall j :: i <= j < |links| ==> links[j].name in k && !Lapsed(ls, links[j].name))
    && (forall n :: n in k && Other(q[n], wanif, keep) ==> Lapsed(ls, n) || NamedFrom(links, i, n))
    && (forall n :: Lapsed(ls, n) ==> n in k && Other(q[n], wanif, keep))
  }

  lemma PurgingStart(q: Kernel, links: seq<SecYLink>, wanif: string, keep: Option<nat>)
    requires Lists(q, links)
    ensures Purging(q, q, [], links, 0, wanif, keep)
  {
    NoLapses();
    forall n | n in q && Other(q[n], wanif, keep)
      ensures NamedFrom(links, 0, n)
    {
      assert Named(links, n);
    }
  }

  lemma PurgingEnd(q: Kernel, k: Kernel, ls: seq<Lapse>, links: seq<SecYLink>, wanif: string, keep: Option<nat>)
    requires Purging(q, k, ls, links, |links|, wanif, keep)
    ensures Purged(q, k, ls, wanif, keep)
  {
    assert forall n :: !NamedFrom(links, |links|, n);
  }

  lemma PurgingNext(q: Kernel, k: Kernel, ls: seq<Lapse>, links: seq<SecYLink>, i: nat, wanif: string, keep: Option<nat>, deleted: bool)
    requires i < |links| && Purging(q, k, ls, links, i, wanif, keep)
    ensures var name := links[i].name;
            if !Doomed(links[i], wanif, keep) then Purging(q, k, ls, links, i + 1, wanif, keep)
            else if deleted then Purging(q, k - {name}, ls, links, i + 1, wanif, keep)
            else Purging(q, k, ls + [NotDeleted(name)], links, i + 1, wanif, keep)
  {
    assert Listed(q, links[i]);
    assert forall n :: NamedFrom(links, i, n) ==> n == links[i].name || NamedFrom(links, i + 1, n);
    if Doomed(links[i], wanif, keep) {
      if deleted {
        PurgingDeleted(q, k, ls, links, i, wanif, keep);
      } else {
        PurgingFailed(q, k, ls, links, i, wanif, keep);
      }
    }
  }

  lemma PurgingDeleted(q: Kernel, k: Kernel, ls: seq<Lapse>, links: seq<SecYLink>, i: nat, wanif: string, keep: Option<nat>)
    requires i < |links| && Purging(q, k, ls, links, i, wanif, keep) && Listed(q, links[i]) && Doomed(links[i], wanif, keep)
    requires forall n :: NamedFrom(links, i, n) ==> n == links[i].name || NamedFrom(links, i + 1, n)
    ensures Purging(q, k - {links[i].name}, ls, links, i + 1, wanif, keep)
  {
  }

  lemma PurgingFailed(q: Kernel, k: Kernel, ls: seq<Lapse>, links: seq<SecYLink>, i: nat, wanif: string, keep: Option<nat>)
    requires i < |links| && Purging(q, k, ls, links, i, wanif, keep) && Listed(q, links[i]) && Doomed(links[i], wanif, keep)
    requires forall n :: NamedFrom(links, i, n) ==> n == links[i].name || NamedFrom(links, i + 1, n)
    ensures Purging(q, k, ls + [NotDeleted(links[i].name)], links, i + 1, wanif, keep)
  {
    var name := links[i].name;
    assert LapseOn([NotDeleted(name)][0], name);
    forall n ensures Lapsed(ls + [NotDeleted(name)], n) <==> Lapsed(ls, n) || n == name {
      LapsedSplit(ls, [NotDeleted(name)], n);
    }
  }

  /** If the devices cannot be listed, all of them stay. */
  lemma UnlistedStay(q: Kernel, ls: seq<Lapse>, wanif: string)
    requires ls == [NotListed(SecYNames(q))]
    ensures Purged(q, q, ls, wanif, None)
  {
    assert forall n :: Lapsed(ls, n) <==> LapseOn(ls[0], n);
  }

  lemma NoLapses()
    ensures forall n :: !Lapsed([], n)
  {
  }

  // ---- Tearing down ----

  /** What a teardown leaves of a table: encrypted ports and the WireGuard device only as far as they
      could not be removed. */
  function TornTable(q: Kernel, wanif: string, left: set<string>): Kernel {
    map n | n in q && (n in left || !(Encrypted(q, wanif, n) || n == WG_IFACE)) :: q[n]
  }

  /** And with the uplink put back on the bridge. */
  function AfterTeardown(q: Kernel, wanif: string, left: set<string>, joined: bool): Kernel {
    var k := TornTable(q, wanif, left);
    if joined && wanif in k then Enslaved(k, wanif, BRIDGE_IFACE) else k
  }

  /** The devices of a table for which one of these calls failed. */
  ghost function LeftOf(q: Kernel, ls: seq<Lapse>): set<string> {
    set n | n in q && Lapsed(ls, n)
  }

  lemma TornBoth(q: Kernel, k1: Kernel, k2: Kernel, l1: seq<Lapse>, l2: seq<Lapse>, wanif: string)
    requires Purged(q, k1, l1, wanif, None)
    requires forall n :: n in k2 <==> n in k1 && (n in {VXLAN_LEAF, WG_IFACE} ==> Lapsed(l2, n))
    requires forall n :: n in k2 ==> k2[n] == k1[n]
    requires forall n :: Lapsed(l2, n) ==> n in {VXLAN_LEAF, WG_IFACE}
    requires forall n :: n in {VXLAN_LEAF, WG_IFACE} && n in q ==> !q[n].kind.SecY?
    ensures k2 == TornTable(q, wanif, LeftOf(q, l1 + l2))
  {
    forall n ensures Lapsed(l1 + l2, n) <==> Lapsed(l1, n) || Lapsed(l2, n) {
      LapsedSplit(l1, l2, n);
    }
    forall n | n in q
      ensures n in k2 <==> n in LeftOf(q, l1 + l2) || !(Encrypted(q, wanif, n) || n == WG_IFACE)
    {
      assert n in {VXLAN_LEAF, WG_IFACE} ==> n in k1;
    }
  }

  /** What a teardown did: the tables before and after it, and the one the uplink's devices were listed
      from; which failed calls (`from` up to `to`) were the removals, and how many there were at the
      end; the log position of its leaf-mode check; and whether the uplink was asked to rejoin, and
      did. */
  datatype Teardown = Teardown(
    before: Kernel, listed: Kernel, after: Kernel, from: nat, to: nat, end: nat, roleAt: nat, rejoined: bool, joined: bool)

  /** The contract of a teardown. What it leaves is determined by the table it listed and by the calls
      that failed; the uplink is given back exactly if the router was a leaf at the check, the uplink's
      name is valid, and the bridge was found. */
  ghost predicate TeardownOk(t: Teardown, wanif: string, reserved: set<string>, lapses: seq<Lapse>,
                             h: Codec.Hmac, start: Node, log: seq<Event>) {
    && Quiet(reserved, t.before, t.listed) && t.from <= t.to <= t.end <= |lapses| && t.roleAt <= |log|
    && (ValidIface(wanif) ==>
          t.after == AfterTeardown(t.listed, wanif, LeftOf(t.listed, lapses[t.from..t.to]), t.joined))
    && (t.rejoined <==> ValidIface(wanif) && Run(h, start, log[..t.roleAt]).leafMode
                        && BRIDGE_IFACE in t.after && t.end == t.to)
    && (t.joined ==> t.rejoined) && (wanif in t.listed ==> !Encrypted(t.listed, wanif, wanif))
  }

  /** The teardown put the uplink on the bridge although an encrypted port of it was stuck there. */
  ghost predicate Breaks(t: Teardown, wanif: string, lapses: seq<Lapse>) {
    t.from <= t.to <= |lapses| && t.rejoined && Joined(t.after, wanif) && exists n :: StuckPort(t, wanif, lapses, n)
  }

  predicate Rejoined(torn: Option<Teardown>) {
    torn.Some? && torn.value.rejoined
  }

  /** A teardown stays what it was while calls fail and events happen later. */
  lemma TeardownLater(t: Teardown, wanif: string, reserved: set<string>, l0: seq<Lapse>, l1: seq<Lapse>,
                      h: Codec.Hmac, start: Node, e0: seq<Event>, e1: seq<Event>)
    requires TeardownOk(t, wanif, reserved, l0, h, start, e0) && l0 <= l1 && e0 <= e1
    ensures TeardownOk(t, wanif, reserved, l1, h, start, e1)
  {
    assert l1[t.from..t.to] == l0[t.from..t.to] && e1[..t.roleAt] == e0[..t.roleAt];
  }

  /** These failures are among those since index `from`. */
  predicate Among(some: seq<Lapse>, ls: seq<Lapse>, from: nat)
    requires from <= |ls|
  {
    forall l :: l in some ==> l in ls[from..]
  }

  lemma AmongLater(some: seq<Lapse>, ls: seq<Lapse>, from: nat, later: nat)
    requires from <= later <= |ls| && Among(some, ls, later)
    ensures Among(some, ls, from)
  {
    forall l | l in some ensures l in ls[from..] {
      var i :| 0 <= i < |ls[later..]| && ls[later..][i] == l;
      assert ls[from..][later - from + i] == l;
    }
  }

  /** What became of the uplink when a pass set out to take it off the bridge. */
  datatype Uplink = Unnamed | Unseen | Held | Off

  /** It is off, or its name is no valid one, or it was not there or not found, or the kernel refused; on a
      steady system only the first three can be. */
  ghost predicate UplinkOk(uplink: Uplink, wanif: string, steady: bool, a: Kernel, l0: seq<Lapse>, l1: seq<Lapse>) {
    match uplink
    case Unnamed => !ValidIface(wanif)
    case Unseen => wanif !in a || (!steady && l0 + [NotFound(wanif)] <= l1)
    case Held => wanif in a && a[wanif].master != "" && !steady
    case Off => wanif in a
  }

  /** What a pass finds outside the program and the kernel: whether it can read the record, at its start and
      again when it forgets an association; the pairing token; whether the participant's process has
      exited; whether the peer's last WireGuard handshake is recent. */
  datatype Outside = Outside(readable: bool, reloads: bool, token: Option<string>, exited: bool, recent: bool)

  /** How the link of a pass came up: the uplink, the name of the MACsec device, and whether the tunnel port
      could be looked up. */
  datatype Link = Link(uplink: Uplink, name: string, seen: bool)

  const NO_LINK := Link(Unseen, "", false)

  /** Things at some moment: devices, failed calls so far, participants, and their restarts so far. */
  datatype Scene = Scene(k: Kernel, lapses: seq<Lapse>, procs: map<Id, Running>, restarts: seq<Restart>)

  /** A participant was looked after: it runs unless it was restarted, which happens only, and always, when
      its link has been down too long; and since when it is down is known. */
  ghost predicate Looked(mka: Participants, inst: Instance, mac: Bytes, secured: bool, restarts: seq<Restart>,
                         unsecured: map<Id, int>, restarted: map<Id, int>, clock: int)
    reads mka
  {
    && (if mka.restarts == restarts then RunsOn(mka.procs, inst, mac)
        else !secured && inst.id !in mka.procs && mka.restarts == restarts + [Restart(inst.id, mka.clock)]
             && Overdue(mka.unsecured, restarted, inst.id, mka.clock))
    && (!secured && Overdue(unsecured, restarted, inst.id, clock) ==> inst.id !in mka.procs)
    && (secured <==> inst.id !in mka.unsecured)
  }

  /** What the link of an association came to: how it is secured, what is gone when it is, and what suffices
      for it when every command works. */
  ghost predicate LinkOk(secured: bool, link: Link, cfg: LeafSide, keys: (Bytes, Bytes), mac: Bytes, recent: bool,
                         from: nat, restarts: seq<Restart>, now: Scene, wanif: string, steady: bool, works: bool) {
    if StoredMode(cfg.mode).WireGuard? then
      && now.procs == map[] && (secured ==> recent) && (steady ==> NoOther(now.k, wanif, None))
      && (secured && !link.seen ==> Missed(from, now.lapses, VXLAN_LEAF))
      && (works && ValidWGPort(cfg.port) && |cfg.mainPublicKey| == 32 ==> (secured <==> recent))
    else
      var inst, sci := LeafInstance(wanif, keys), SCI(mac, LEAF_PORT);
      && (secured ==> sci.Some? && ValidInstance(inst) && RunsOn(now.procs, inst, mac) && now.procs.Keys == {LeafId})
      && (steady ==> WG_IFACE !in now.k && (secured ==> NoOther(now.k, wanif, Some(sci.value))))
      && (works && ValidInstance(inst) && sci.Some? && now.restarts == restarts && Protected(now.k, wanif, sci.value) ==> secured)
  }

  /** What a registered pass did: its uplink is off the bridge unless it could not be taken off, or was given
      back; and if nothing was undone, its link came to what it found. */
  ghost predicate LeafDone(p: LeafPass, cfg: LeafSide, derive: (string, string) -> (Bytes, Bytes, Bytes), o: Outside,
                           was: Scene, now: Scene, wanif: string, steady: bool, works: bool) {
    p.registered ==>
      && (p.link.uplink.Unnamed? <==> !ValidIface(wanif))
      && UplinkOk(p.link.uplink, wanif, steady, was.k, was.lapses, now.lapses)
      && (p.link.uplink.Off? && !Rejoined(p.torn) ==> !Joined(now.k, wanif))
      && (p.secured ==> p.link.uplink.Off? && Armable(cfg, o) && p.torn.None?)
      && (p.torn.None? && p.link.uplink.Off? && Armable(cfg, o) ==>
            var keys := derive(o.token.value, cfg.keyNonce);
            LinkOk(p.secured, p.link, cfg, (keys.0, keys.1), was.k[wanif].mac, o.recent, |was.lapses|, was.restarts, now, wanif, steady, works))
  }

  /** Pairing token and nonce are such that keys can be derived. */
  predicate Armable(cfg: LeafSide, o: Outside) {
    o.token.Some? && KeysDerivable(o.token.value, cfg.keyNonce)
  }

  /** A lookup of this device failed between these lengths of the log. */
  predicate Missed(from: nat, ls: seq<Lapse>, name: string) {
    exists i :: from <= i < |ls| && ls[i] == NotFound(name)
  }

  /** The devices of this parent and identifier, of which there are some, forward only protected frames. */
  predicate Protected(q: Kernel, wanif: string, sci: nat) {
    && (exists n :: n in q && IsSecY(q[n], wanif, sci))
    && (forall n :: n in q && IsSecY(q[n], wanif, sci) ==> q[n].kind.security.Forwarding())
  }

  class LeafManager {
    const sys: Sys
    const node: LeafNode
    const mka: Participants
    const wg: Backhaul
    const wanif: string
    var leafActive: bool
    var requiredFlag: bool
    /** Every lookup, listing and deletion that failed inside a teardown so far. */
    ghost var faults: seq<Lapse>

    ghost predicate Wired()
      reads this, sys, mka, wg
    {
      && mka.sys == sys && wg.sys == sys && mka.Valid() && WGKind(sys.k)
      && wg.Tracks() && PeerCache.OfLeaf(wg.changes)
      && {wanif, VXLAN_LEAF, WG_IFACE, BRIDGE_IFACE} <= sys.reserved
      && wanif != VXLAN_LEAF && wanif != WG_IFACE
    }

    /** The safety of the whole run so far, without faults: in every device table a primitive call has
        left, the bridge was exclusive and the tunnel port had its device under it. */
    ghost predicate Valid()
      reads this, sys, mka, wg, node
    {
      && Wired() && node.Valid()
      && (faults == [] ==> AllSafe(wanif, sys.history))
    }

    /** A start of the plugin; the flag file may be there from an earlier life. */
    constructor (sys: Sys, node: LeafNode, mka: Participants, wg: Backhaul, wanif: string, requiredFlag: bool)
      requires mka.sys == sys && wg.sys == sys && mka.Valid() && node.Valid() && wg.Tracks() && wg.changes == []
      requires {wanif, VXLAN_LEAF, WG_IFACE, BRIDGE_IFACE} <= sys.reserved
      requires wanif != VXLAN_LEAF && wanif != WG_IFACE
      requires sys.history == [sys.k] && Exclusive(sys.k, wanif) && VxNeedsWg(sys.k)
      ensures Valid() && faults == [] && !leafActive && this.requiredFlag == requiredFlag
      ensures this.sys == sys && this.node == node && this.mka == mka && this.wg == wg && this.wanif == wanif
    {
      this.sys, this.node, this.mka, this.wg, this.wanif := sys, node, mka, wg, wanif;
      leafActive, this.requiredFlag, faults := false, requiredFlag, [];
    }

    /** Takes the uplink out of its bridge, which fails only if it is not found or not let go. */
    method Unbridge() returns (info: Option<Port>, ghost uplink: Uplink)
      requires sys.Valid()
      modifies sys`k, sys`history, sys`lapses
      ensures sys.Valid() && old(sys.history) <= sys.history && old(sys.lapses) <= sys.lapses
      ensures KeepStep(wanif, true, old(sys.k), sys.k) && AllKept(wanif, true, old(sys.k), sys.history, |old(sys.history)|)
      ensures info.Some? ==> !Joined(sys.k, wanif)
      ensures sys.k.Keys == old(sys.k).Keys && TunnelKept(old(sys.k), sys.k)
      ensures UplinkOk(uplink, wanif, sys.steady, old(sys.k), old(sys.lapses), sys.lapses)
      ensures info.Some? <==> uplink.Off?
      ensures info.Some? ==> wanif in old(sys.k) && info.value == old(sys.k)[wanif]
      ensures sys.k == if info.Some? && info.value.master != "" then Enslaved(old(sys.k), wanif, "") else old(sys.k)
    {
      info := sys.LinkInfo(wanif);
      uplink := if info.Some? then Off else Unseen;
      if info.Some? && info.value.master != "" {
        var ok := sys.SetMaster(wanif, "");
        if !ok {
          info, uplink := None, Held;
        }
      }
    }

    /** Adds an encrypted port to the bridge while the uplink is out of it. */
    method BridgePort(name: string) returns (ok: bool)
      requires sys.Valid() && !Joined(sys.k, wanif) && name != wanif
      modifies sys`k, sys`history
      ensures sys.Valid() && sys.history == old(sys.history) + [sys.k]
      ensures KeepStep(wanif, true, old(sys.k), sys.k)
      ensures (ok ==> name in old(sys.k)) && TunnelKept(old(sys.k), sys.k) && (sys.works && name in old(sys.k) ==> ok)
      ensures sys.k == if ok then Enslaved(old(sys.k), name, BRIDGE_IFACE) else old(sys.k)
    {
      ok := sys.SetMaster(name, BRIDGE_IFACE);
    }

    /** Deletes listed MACsec devices of the uplink, except those with the identifier to keep. Of the
        others those stay whose deletion failed. */
    method DeleteUplinkSecYs(links: seq<SecYLink>, keep: Option<nat>)
      requires sys.Valid() && mka.sys == sys && Lists(sys.k, links)
      modifies sys
      ensures sys.Valid() && old(sys.history) <= sys.history && old(sys.lapses) <= sys.lapses
      ensures Quiet(sys.reserved, old(sys.k), sys.k) && AllQuiet(sys.reserved, old(sys.k), sys.history, |old(sys.history)|)
      ensures Purged(old(sys.k), sys.k, sys.lapses[|old(sys.lapses)|..], wanif, keep)
      ensures sys.steady ==> sys.lapses == old(sys.lapses) && NoOther(sys.k, wanif, keep)
    {
      assert sys.lapses[|old(sys.lapses)|..] == [];
      PurgingStart(sys.k, links, wanif, keep);
      for i := 0 to |links|
        invariant sys.Valid() && old(sys.history) <= sys.history && old(sys.lapses) <= sys.lapses
        invariant Quiet(sys.reserved, old(sys.k), sys.k)
        invariant AllQuiet(sys.reserved, old(sys.k), sys.history, |old(sys.history)|)
        invariant Purging(old(sys.k), sys.k, sys.lapses[|old(sys.lapses)|..], links, i, wanif, keep)
        invariant sys.steady ==> sys.lapses == old(sys.lapses)
      {
        DeleteNext(links, i, keep, old(sys.k), |old(sys.history)|, |old(sys.lapses)|);
      }
      PurgingEnd(old(sys.k), sys.k, sys.lapses[|old(sys.lapses)|..], links, wanif, keep);
      NoLapses();
    }

    /** One of them; `q` is the table they were listed from, `h` and `l` how long the logs were then. */
    method DeleteNext(links: seq<SecYLink>, i: nat, keep: Option<nat>, ghost q: Kernel, ghost h: nat, ghost l: nat)
      requires sys.Valid() && mka.sys == sys && i < |links| && h <= |sys.history| && l <= |sys.lapses|
      requires Quiet(sys.reserved, q, sys.k) && AllQuiet(sys.reserved, q, sys.history, h)
      requires Purging(q, sys.k, sys.lapses[l..], links, i, wanif, keep)
      modifies sys
      ensures sys.Valid() && old(sys.history) <= sys.history && old(sys.lapses) <= sys.lapses
      ensures Quiet(sys.reserved, q, sys.k) && AllQuiet(sys.reserved, q, sys.history, h)
      ensures Purging(q, sys.k, sys.lapses[l..], links, i + 1, wanif, keep) && (sys.steady ==> sys.lapses == old(sys.lapses))
    {
      ghost var k, ls := sys.k, sys.lapses[l..];
      var deleted := true;
      if Doomed(links[i], wanif, keep) {
        deleted := mka.DeleteListed(links[i], q, h);
        assert sys.lapses[l..] == ls + if deleted then [] else [NotDeleted(links[i].name)];
      }
      PurgingNext(q, k, ls, links, i, wanif, keep, deleted);
    }

    /** The last steps for a MACsec link: bridge the device while it forwards only protected frames,
        take it out when it is up without protection. */
    method BridgeSecY(links: seq<SecYLink>, sci: nat) returns (secured: bool, link: Option<SecYLink>)
      requires sys.Valid() && wanif in sys.reserved && !Joined(sys.k, wanif)
      requires forall i :: 0 <= i < |links| && links[i].parent == wanif && links[i].sci == sci ==> Listed(sys.k, links[i])
      modifies sys`k, sys`history, sys`lapses
      ensures sys.Valid() && old(sys.history) <= sys.history && old(sys.lapses) <= sys.lapses
      ensures KeepStep(wanif, true, old(sys.k), sys.k) && AllKept(wanif, true, old(sys.k), sys.history, |old(sys.history)|)
      ensures link.Some? <==> exists i :: 0 <= i < |links| && links[i].parent == wanif && links[i].sci == sci
      ensures link.Some? ==> link.value in links && link.value.parent == wanif && link.value.sci == sci
      ensures secured ==> link.Some? && SecuredPort(sys.k, wanif, sci, link.value.name)
      ensures link.Some? && link.value.security.Forwarding() && !secured ==>
                link.value.master != BRIDGE_IFACE && sys.history == old(sys.history) + [old(sys.k)]
      ensures !secured && (link.None? || link.value.security.Forwarding() || !link.value.security.adminUp || link.value.master != BRIDGE_IFACE) ==>
                sys.k == old(sys.k)
      ensures TunnelKept(old(sys.k), sys.k) && (sys.works && link.Some? && link.value.security.Forwarding() ==> secured)
      ensures forall keep :: NoOther(old(sys.k), wanif, keep) ==> NoOther(sys.k, wanif, keep)
      ensures SameKinds(old(sys.k), sys.k)
      // Without protection it is off the bridge afterwards.
      ensures sys.steady && link.Some? && !link.value.security.Forwarding() && link.value.security.adminUp ==>
                link.value.name in sys.k && sys.k[link.value.name].master != BRIDGE_IFACE
      ensures sys.k != old(sys.k) && !secured ==>
                link.value.name in old(sys.k) && sys.k == Enslaved(old(sys.k), link.value.name, "")
    {
      secured := false;
      link := FindMACsecLink(links, wanif, sci);
      if link.None? {
        return;
      }
      var l := link.value;
      assert Listed(sys.k, l);
      if l.security.Forwarding() {
        secured := true;
        if l.master != BRIDGE_IFACE {
          secured := BridgePort(l.name);
        }
      } else if l.security.adminUp && l.master == BRIDGE_IFACE {
        var _ := sys.SetMaster(l.name, "");
      }
    }

    /** Leaves WireGuard if its device is there; `torn` are the failures of that teardown. */
    method DropWireGuard() returns (ghost torn: seq<Lapse>)
      requires Wired() && !Joined(sys.k, wanif)
      modifies sys, wg
      ensures Wired() && old(sys.history) <= sys.history && old(sys.lapses) <= sys.lapses && !Joined(sys.k, wanif)
      ensures KeepStep(wanif, torn == [], old(sys.k), sys.k)
      ensures AllKept(wanif, torn == [], old(sys.k), sys.history, |old(sys.history)|)
      ensures Among(torn, sys.lapses, |old(sys.lapses)|) && (WG_IFACE !in old(sys.k) ==> torn == [])
      ensures sys.steady ==> NoTunnel(old(sys.k), sys.k)
      ensures wanif in old(sys.k) ==> wanif in sys.k && sys.k[wanif] == old(sys.k)[wanif]
    {
      torn := [];
      var there := sys.LinkInfo(WG_IFACE);
      if there.Some? {
        ghost var before := wg.changes;
        wg.TeardownWG();
        PeerCache.OfLeafForgets(before, wg.changes);
        torn := sys.lapses[|old(sys.lapses)|..];
        NoLapses();
        CalmKeepsAll(wanif, old(sys.k), sys.history, |old(sys.history)|);
        CalmKeeps(wanif, old(sys.k), sys.k);
      }
    }

    /** The leaf's participant, and no other. */
    method Participate(inst: Instance, mac: Bytes, exited: bool) returns (up: bool)
      requires Wired() && inst.id == LeafId && inst.conf.port == LEAF_PORT && !Joined(sys.k, wanif)
      modifies sys, mka
      ensures Wired() && old(sys.history) <= sys.history && old(sys.lapses) <= sys.lapses && !Joined(sys.k, wanif)
      ensures KeepStep(wanif, true, old(sys.k), sys.k) && AllKept(wanif, true, old(sys.k), sys.history, |old(sys.history)|)
      ensures up ==> mka.procs.Keys == {LeafId} && mka.procs[LeafId].conf == inst.conf && SCI(mac, LEAF_PORT).Some?
      ensures up ==> RunsOn(mka.procs, inst, mac) && ValidInstance(inst)
      ensures TunnelKept(old(sys.k), sys.k) && (sys.works ==> (up <==> ValidInstance(inst) && |mac| == 6))
      ensures mka.unsecured == old(mka.unsecured) && mka.restarted == old(mka.restarted) && mka.restarts == old(mka.restarts)
              && mka.clock == old(mka.clock)
    {
      var running, ok := mka.EnsureMKA(inst, mac, exited);
      QuietTunnel(sys.reserved, old(sys.k), sys.k);
      QuietKeeps(wanif, sys.reserved, old(sys.k), sys.history, |old(sys.history)|);
      QuietKeepsOne(wanif, sys.reserved, old(sys.k), sys.k);
      if !ok {
        return false;
      }
      ghost var middle, h := sys.k, sys.history;
      mka.StopAllMKA({LeafId});
      QuietTunnel(sys.reserved, middle, sys.k);
      KeptThenQuiet(wanif, sys.reserved, old(sys.k), middle, sys.k, old(sys.history), h, sys.history);
      up := true;
    }

    /** The MACsec link, from the participant to the bridge port. */
    method RunMACsec(inst: Instance, mac: Bytes, exited: bool)
      returns (secured: bool, ghost torn: seq<Lapse>, ghost name: string)
      requires Wired() && inst.id == LeafId && inst.conf.port == LEAF_PORT && !Joined(sys.k, wanif)
      modifies sys, mka, wg
      ensures Wired() && old(sys.history) <= sys.history && old(sys.lapses) <= sys.lapses
      ensures KeepStep(wanif, torn == [], old(sys.k), sys.k) && AllKept(wanif, torn == [], old(sys.k), sys.history, |old(sys.history)|)
      ensures secured ==> SCI(mac, LEAF_PORT).Some? && SecuredPort(sys.k, wanif, SCI(mac, LEAF_PORT).value, name)
      ensures Among(torn, sys.lapses, |old(sys.lapses)|) && (WG_IFACE !in old(sys.k) ==> torn == [])
      ensures sys.steady ==> NoTunnel(old(sys.k), sys.k)
      ensures secured ==> RunsOn(mka.procs, inst, mac) && mka.procs.Keys == {LeafId} && ValidInstance(inst)
      ensures secured && sys.steady ==> NoOther(sys.k, wanif, Some(SCI(mac, LEAF_PORT).value))
      // With every command working the device decides: when it is there, and alone, it is secured exactly if it
      // is protected; and the participant runs unless its link has been down too long.
      ensures sys.works && ValidInstance(inst) && |mac| == 6 ==>
                && (mka.restarts == old(mka.restarts) && Protected(sys.k, wanif, SCI(mac, LEAF_PORT).value) ==> secured)
                && Looked(mka, inst, mac, secured, old(mka.restarts), old(mka.unsecured), old(mka.restarted), old(mka.clock))
    {
      secured, name := false, "";
      torn := DropWireGuard();
      ghost var k1, h1 := sys.k, sys.history;
      var up := Participate(inst, mac, exited);
      KeptWeaker(wanif, torn == [], k1, sys.k, sys.history, |h1|);
      KeptLater(wanif, torn == [], old(sys.k), k1, old(sys.history), h1, sys.history);
      if !up {
        return;
      }
      ghost var k2, h2 := sys.k, sys.history;
      secured, name := FinishMACsec(SCI(mac, LEAF_PORT).value);
      KeptWeaker(wanif, torn == [], k2, sys.k, sys.history, |h2|);
      KeptLater(wanif, torn == [], old(sys.k), k2, old(sys.history), h2, sys.history);
    }

    /** Lists the MACsec devices. */
    method ListLinks() returns (links: Option<seq<SecYLink>>)
      requires Wired()
      modifies sys`k, sys`history, sys`lapses
      ensures Wired() && old(sys.history) <= sys.history && Quiet(sys.reserved, old(sys.k), sys.k)
      ensures KeepStep(wanif, true, old(sys.k), sys.k) && AllKept(wanif, true, old(sys.k), sys.history, |old(sys.history)|)
      ensures (links.Some? ==> Lists(sys.k, links.value)) && TunnelKept(old(sys.k), sys.k) && (sys.steady ==> links.Some?)
      ensures sys.lapses == if links.None? then old(sys.lapses) + [NotListed(SecYNames(sys.k))] else old(sys.lapses)
    {
      links := sys.Links();
      QuietTunnel(sys.reserved, old(sys.k), sys.k);
      QuietKeepsOne(wanif, sys.reserved, old(sys.k), sys.k);
    }

    /** Lists the MACsec devices and deletes those of the uplink with another identifier. */
    method DropStale(sci: nat) returns (links: Option<seq<SecYLink>>, ghost q: Kernel)
      requires Wired()
      modifies sys
      ensures Wired() && old(sys.history) <= sys.history && old(sys.lapses) <= sys.lapses
      ensures KeepStep(wanif, true, old(sys.k), sys.k) && AllKept(wanif, true, old(sys.k), sys.history, |old(sys.history)|)
      ensures links.Some? ==> forall i :: 0 <= i < |links.value| && links.value[i].parent == wanif && links.value[i].sci == sci ==>
                Listed(sys.k, links.value[i])
      ensures (links.Some? ==> Lists(q, links.value)) && TunnelKept(old(sys.k), sys.k)
      ensures forall n :: n in sys.k ==> n in q && sys.k[n] == q[n]
      ensures forall n :: n in q && IsSecY(q[n], wanif, sci) ==> n in sys.k
      ensures sys.steady ==> links.Some? && NoOther(sys.k, wanif, Some(sci))
    {
      links := ListLinks();
      q := sys.k;
      if links.Some? {
        ghost var k1, h1 := sys.k, sys.history;
        DeleteUplinkSecYs(links.value, Some(sci));
        QuietTunnel(sys.reserved, k1, sys.k);
        KeptThenQuiet(wanif, sys.reserved, old(sys.k), k1, sys.k, old(sys.history), h1, sys.history);
      }
    }

    /** With the participant running: drop stale devices, bridge a protected one, restart a stuck
        participant. */
    method FinishMACsec(sci: nat) returns (secured: bool, ghost name: string)
      requires Wired() && !Joined(sys.k, wanif)
      modifies sys, mka
      ensures Wired() && old(sys.history) <= sys.history && old(sys.lapses) <= sys.lapses
      ensures KeepStep(wanif, true, old(sys.k), sys.k) && AllKept(wanif, true, old(sys.k), sys.history, |old(sys.history)|)
      ensures secured ==> SecuredPort(sys.k, wanif, sci, name) && mka.procs == old(mka.procs)
      ensures TunnelKept(old(sys.k), sys.k) && (secured && sys.steady ==> NoOther(sys.k, wanif, Some(sci)))
      ensures sys.works && mka.restarts == old(mka.restarts) && Protected(sys.k, wanif, sci) ==> secured
      ensures sys.steady ==> mka.Tended(LeafId, secured, old(mka.procs), old(mka.restarts), old(mka.unsecured), old(mka.restarted), old(mka.clock))
    {
      secured, name := false, "";
      var links;
      ghost var q;
      links, q := DropStale(sci);
      if links.None? {
        return;
      }
      ghost var k2, h2 := sys.k, sys.history;
      secured, name := BridgeAndWatch(links.value, sci, q);
      KeptLater(wanif, true, old(sys.k), k2, old(sys.history), h2, sys.history);
    }

    /** Bridges the device or takes it out, and looks after the participant. The links were listed from table
        `q`, of which all but stale devices are still there. */
    method BridgeAndWatch(links: seq<SecYLink>, sci: nat, ghost q: Kernel) returns (secured: bool, ghost name: string)
      requires Wired() && !Joined(sys.k, wanif) && Lists(q, links)
      requires forall n :: n in sys.k ==> n in q && sys.k[n] == q[n]
      requires forall n :: n in q && IsSecY(q[n], wanif, sci) ==> n in sys.k
      requires forall i :: 0 <= i < |links| && links[i].parent == wanif && links[i].sci == sci ==> Listed(sys.k, links[i])
      modifies sys, mka
      ensures Wired() && old(sys.history) <= sys.history && old(sys.lapses) <= sys.lapses
      ensures KeepStep(wanif, true, old(sys.k), sys.k) && AllKept(wanif, true, old(sys.k), sys.history, |old(sys.history)|)
      ensures secured ==> SecuredPort(sys.k, wanif, sci, name) && mka.procs == old(mka.procs)
      ensures TunnelKept(old(sys.k), sys.k) && (secured && NoOther(old(sys.k), wanif, Some(sci)) ==> NoOther(sys.k, wanif, Some(sci)))
      ensures sys.works && mka.restarts == old(mka.restarts) && Protected(sys.k, wanif, sci) ==> secured
      ensures mka.Tended(LeafId, secured, old(mka.procs), old(mka.restarts), old(mka.unsecured), old(mka.restarted), old(mka.clock))
    {
      var link;
      secured, link := BridgeSecY(links, sci);
      FoundProtected(q, old(sys.k), sys.k, links, wanif, sci, link);
      name := if link.Some? then link.value.name else "";
      ghost var k1, h1 := sys.k, sys.history;
      Watch(secured);
      KeptLater(wanif, true, old(sys.k), k1, old(sys.history), h1, sys.history);
    }

    method Watch(secured: bool)
      requires Wired()
      modifies sys, mka
      ensures Wired() && old(sys.history) <= sys.history && old(sys.lapses) <= sys.lapses && (secured ==> sys.k == old(sys.k))
      ensures TunnelKept(old(sys.k), sys.k) && (secured ==> mka.procs == old(mka.procs))
      ensures mka.restarts == old(mka.restarts) ==> sys.k == old(sys.k)
      ensures mka.Tended(LeafId, secured, old(mka.procs), old(mka.restarts), old(mka.unsecured), old(mka.restarted), old(mka.clock))
      ensures KeepStep(wanif, true, old(sys.k), sys.k) && AllKept(wanif, true, old(sys.k), sys.history, |old(sys.history)|)
    {
      mka.Supervise(LeafId, secured);
      QuietTunnel(sys.reserved, old(sys.k), sys.k);
      QuietKeepsOne(wanif, sys.reserved, old(sys.k), sys.k);
      QuietKeeps(wanif, sys.reserved, old(sys.k), sys.history, |old(sys.history)|);
    }

    /** The WireGuard link, from the underlay address to the bridge port. `seen` says whether the
        tunnel port could be looked up; a fresh handshake counts as secured either way. */
    method LeafWG(cfg: LeafSide, recent: bool) returns (ok: bool, secured: bool, ghost seen: bool)
      requires Wired() && !Joined(sys.k, wanif)
      modifies sys, wg
      ensures Wired() && old(sys.history) <= sys.history && old(sys.lapses) <= sys.lapses && (secured ==> ok)
      ensures KeepStep(wanif, true, old(sys.k), sys.k) && AllKept(wanif, true, old(sys.k), sys.history, |old(sys.history)|)
      ensures secured && seen ==> VXLAN_LEAF in sys.k && sys.k[VXLAN_LEAF].master == BRIDGE_IFACE
      ensures ok ==> |cfg.mainPublicKey| == 32 && HasWG(sys.k) && wg.LeafLinked(old(sys.k), wanif, cfg)
      ensures sys.steady && secured ==> seen
      ensures SameBut(VXLAN_LEAF, old(sys.k), sys.k) && (secured ==> recent)
      ensures secured && !seen ==> Missed(|old(sys.lapses)|, sys.lapses, VXLAN_LEAF)
      ensures sys.works && wanif in old(sys.k) && ValidWGPort(cfg.port) && |cfg.mainPublicKey| == 32 ==>
                ok && (secured <==> recent)
    {
      ok, secured, seen := false, false, false;
      var keysOk := sys.Cmd();
      if !ValidWGPort(cfg.port) || |cfg.mainPublicKey| != 32 || !keysOk {
        return;
      }
      ok := RaiseTunnel(cfg);
      if !ok || !recent {
        return;
      }
      ghost var k1, h1, l1 := sys.k, sys.history, sys.lapses;
      ok, seen := BridgeTunnel();
      secured := ok;
      assert !seen ==> sys.lapses[|l1|] == NotFound(VXLAN_LEAF);
      LongerStill(old(sys.lapses), l1, sys.lapses);
      KeptLater(wanif, true, old(sys.k), k1, old(sys.history), h1, sys.history);
    }

    /** Puts the tunnel port on the bridge; one that cannot be looked up counts as being there. */
    method BridgeTunnel() returns (ok: bool, ghost seen: bool)
      requires Wired() && !Joined(sys.k, wanif) && VXLAN_LEAF in sys.k
      modifies sys`k, sys`history, sys`lapses
      ensures Wired() && old(sys.history) <= sys.history && old(sys.lapses) <= sys.lapses
      ensures KeepStep(wanif, true, old(sys.k), sys.k) && AllKept(wanif, true, old(sys.k), sys.history, |old(sys.history)|)
      ensures ok && seen ==> VXLAN_LEAF in sys.k && sys.k[VXLAN_LEAF].master == BRIDGE_IFACE
      ensures (sys.steady ==> seen) && (sys.works ==> ok)
      ensures !seen ==> ok && sys.k == old(sys.k) && sys.lapses == old(sys.lapses) + [NotFound(VXLAN_LEAF)]
      ensures old(sys.k)[VXLAN_LEAF].master == BRIDGE_IFACE ==> ok && sys.k == old(sys.k)
      ensures TunnelKept(old(sys.k), sys.k) && OnlyAt(VXLAN_LEAF, old(sys.k), sys.k)
    {
      var info := sys.LinkInfo(VXLAN_LEAF);
      ok, seen := true, info.Some?;
      if info.Some? && info.value.master != BRIDGE_IFACE {
        ok := BridgePort(VXLAN_LEAF);
      }
    }

    /** Underlay, WireGuard device, peer and tunnel port of a leaf. */
    method RaiseTunnel(cfg: LeafSide) returns (ok: bool)
      requires Wired() && ValidWGPort(cfg.port)
      modifies sys`k, sys`history, sys`lapses, wg
      ensures Wired() && old(sys.history) <= sys.history && old(sys.lapses) <= sys.lapses
      ensures CalmStep(old(sys.k), sys.k) && AllCalm(old(sys.k), sys.history, |old(sys.history)|)
      ensures KeepStep(wanif, true, old(sys.k), sys.k) && AllKept(wanif, true, old(sys.k), sys.history, |old(sys.history)|)
      ensures ok ==> HasWG(sys.k) && VXLAN_LEAF in sys.k && wg.LeafLinked(old(sys.k), wanif, cfg)
      ensures SameBut(VXLAN_LEAF, old(sys.k), sys.k) && (sys.works && wanif in old(sys.k) ==> ok)
    {
      ghost var before := wg.changes;
      ghost var o;
      ok, o := wg.LeafTunnel(wanif, cfg);
      PeerCache.OfLeafTurn(before, !HasWG(old(sys.k)) && HasWG(sys.k), cfg.mainPublicKey, cfg.port, o);
      CalmAllKeeps(wanif, old(sys.k), sys.history, |old(sys.history)|);
      CalmKeeps(wanif, old(sys.k), sys.k);
    }

    /** Leaves MACsec: no participant, no MACsec device on the uplink. Failures are ignored; from the
        table `q` on, those devices stay whose deletion failed at lapse `mid` or later. */
    method DropMACsec(bare: bool) returns (ghost q: Kernel, ghost mid: nat)
      requires Wired()
      modifies sys, mka
      ensures Wired() && old(sys.history) <= sys.history && old(sys.lapses) <= sys.lapses && mka.procs == map[]
      ensures KeepStep(wanif, true, old(sys.k), sys.k) && AllKept(wanif, true, old(sys.k), sys.history, |old(sys.history)|)
      ensures |old(sys.lapses)| <= mid <= |sys.lapses| && Quiet(sys.reserved, old(sys.k), q)
      ensures forall n :: n in sys.reserved && n in q ==> !q[n].kind.SecY?
      ensures (!bare ==> Purged(q, sys.k, sys.lapses[mid..], wanif, None)) && TunnelKept(old(sys.k), sys.k)
      ensures (!bare && sys.steady ==> NoOther(sys.k, wanif, None)) && (wanif in old(sys.k) ==> wanif in sys.k)
      ensures bare ==> q == sys.k && mid == |sys.lapses|
    {
      mka.StopAllMKA({});
      QuietTunnel(sys.reserved, old(sys.k), sys.k);
      QuietKeeps(wanif, sys.reserved, old(sys.k), sys.history, |old(sys.history)|);
      QuietKeepsOne(wanif, sys.reserved, old(sys.k), sys.k);
      q, mid := sys.k, |sys.lapses|;
      if !bare {
        ghost var k1, h1, l1 := sys.k, sys.history, sys.lapses;
        q := ClearUplink();
        LongerStill(old(sys.lapses), l1, sys.lapses);
        QuietTransitive(sys.reserved, old(sys.k), k1, q);
        KeptLater(wanif, true, old(sys.k), k1, old(sys.history), h1, sys.history);
      }
    }

    /** Deletes every MACsec device of the uplink; `q` is the table they were listed from. */
    method ClearUplink() returns (ghost q: Kernel)
      requires Wired()
      modifies sys
      ensures Wired() && old(sys.history) <= sys.history && old(sys.lapses) <= sys.lapses
      ensures KeepStep(wanif, true, old(sys.k), sys.k) && AllKept(wanif, true, old(sys.k), sys.history, |old(sys.history)|)
      ensures Quiet(sys.reserved, old(sys.k), q) && Purged(q, sys.k, sys.lapses[|old(sys.lapses)|..], wanif, None)
      ensures (forall n :: n in sys.reserved && n in q ==> !q[n].kind.SecY?) && TunnelKept(old(sys.k), sys.k)
      ensures (sys.steady ==> NoOther(sys.k, wanif, None)) && (wanif in old(sys.k) ==> wanif in sys.k)
    {
      var links := ListLinks();
      q := sys.k;
      if links.Some? {
        ghost var h1 := sys.history;
        DeleteUplinkSecYs(links.value, None);
        QuietTunnel(sys.reserved, q, sys.k);
        KeptThenQuiet(wanif, sys.reserved, old(sys.k), q, sys.k, old(sys.history), h1, sys.history);
      } else {
        UnlistedStay(q, sys.lapses[|old(sys.lapses)|..], wanif);
      }
    }

    method RunWireGuard(cfg: LeafSide, recent: bool) returns (secured: bool, ghost seen: bool)
      requires Wired() && !Joined(sys.k, wanif)
      modifies sys, mka, wg
      ensures Wired() && old(sys.history) <= sys.history && old(sys.lapses) <= sys.lapses
      ensures KeepStep(wanif, true, old(sys.k), sys.k) && AllKept(wanif, true, old(sys.k), sys.history, |old(sys.history)|)
      ensures secured && seen ==> VXLAN_LEAF in sys.k && sys.k[VXLAN_LEAF].master == BRIDGE_IFACE
      ensures (sys.steady && secured ==> seen) && (secured ==> wg.LeafLinked(old(sys.k), wanif, cfg))
      ensures mka.procs == map[] && (sys.steady ==> NoOther(sys.k, wanif, None)) && (secured ==> recent)
      ensures secured && !seen ==> Missed(|old(sys.lapses)|, sys.lapses, VXLAN_LEAF)
      ensures secured <==> LeafWGId !in mka.unsecured
      ensures sys.works && wanif in old(sys.k) && ValidWGPort(cfg.port) && |cfg.mainPublicKey| == 32 ==> (secured <==> recent)
    {
      ghost var _, _ := DropMACsec(false);
      ghost var k1, h1 := sys.k, sys.history;
      var ok;
      ok, secured, seen := LeafWG(cfg, recent);
      KeptLater(wanif, true, old(sys.k), k1, old(sys.history), h1, sys.history);
      var _ := mka.NoPeerErrorFor(LeafWGId, secured);
    }

    /** Something of an association is still there. */
    ghost predicate Left()
      reads this, mka
    {
      leafActive || requiredFlag || |mka.procs| > 0
    }

    /** Things as they are now. */
    ghost function Present(): Scene
      reads sys, mka
    {
      Scene(sys.k, sys.lapses, mka.procs, mka.restarts)
    }

    /** The part of a pass between its registration and its commit, with all early returns. The
        guard, MTU and MSS steps are modules of their own; none of them touches a bridge. */
    method Bringup(cfg: LeafSide, derive: (string, string) -> (Bytes, Bytes, Bytes), o: Outside)
      returns (secured: bool, ghost torn: seq<Lapse>, ghost link: Link)
      requires Wired() && node.Valid()
      modifies sys, mka, wg, node
      ensures Wired() && node.Valid() && node.clock == old(node.clock)
      ensures old(sys.history) <= sys.history && old(sys.lapses) <= sys.lapses && old(node.log) <= node.log
      ensures KeepStep(wanif, torn == [], old(sys.k), sys.k)
      ensures AllKept(wanif, torn == [], old(sys.k), sys.history, |old(sys.history)|)
      // Only leaving WireGuard for MACsec tears anything down here.
      ensures Among(torn, sys.lapses, |old(sys.lapses)|)
      ensures StoredMode(cfg.mode).WireGuard? || WG_IFACE !in old(sys.k) ==> torn == []
      ensures NoCommit(node.log, |old(node.log)|)
      ensures secured ==> Bridged(cfg, link.name, link.seen || sys.steady, sys.k, wanif)
      ensures secured && StoredMode(cfg.mode).WireGuard? ==> wg.LeafLinked(old(sys.k), wanif, cfg)
      ensures (link.uplink.Unnamed? <==> !ValidIface(wanif))
              && UplinkOk(link.uplink, wanif, sys.steady, old(sys.k), old(sys.lapses), sys.lapses)
      ensures link.uplink.Off? ==> !Joined(sys.k, wanif)
      ensures if link.uplink.Off? && Armable(cfg, o) then
                var keys, mac := derive(o.token.value, cfg.keyNonce), old(sys.k)[wanif].mac;
                Armed(node.log, |old(node.log)|, |node.log|, Codec.CtlKeys(cfg.keyNonce, keys.1, keys.2), mac)
                && LinkOk(secured, link, cfg, (keys.0, keys.1), mac, o.recent, |old(sys.lapses)|, old(mka.restarts), Present(), wanif, sys.steady, sys.works)
              else !secured && node.log == old(node.log)
    {
      secured, torn, link := false, [], NO_LINK;
      if !ValidIface(wanif) {
        link := link.(uplink := Unnamed);
        return;
      }
      var info;
      ghost var uplink;
      info, uplink := Unbridge();
      link := link.(uplink := uplink);
      if info.None? || !o.token.Some? || !KeysDerivable(o.token.value, cfg.keyNonce) {
        return;
      }
      var keys := derive(o.token.value, cfg.keyNonce);
      ghost var k1, h1, l1 := sys.k, sys.history, sys.lapses;
      secured, torn, link := BringLink(cfg, keys, info.value.mac, o);
      LongerStill(old(sys.lapses), l1, sys.lapses);
      AmongLater(torn, sys.lapses, |old(sys.lapses)|, |l1|);
      KeptWeaker(wanif, torn == [], old(sys.k), k1, h1, |old(sys.history)|);
      KeptLater(wanif, torn == [], old(sys.k), k1, old(sys.history), h1, sys.history);
    }

    /** Keys, then the link. */
    method BringLink(cfg: LeafSide, keys: (Bytes, Bytes, Bytes), mac: Bytes, o: Outside)
      returns (secured: bool, ghost torn: seq<Lapse>, ghost link: Link)
      requires Wired() && node.Valid() && !Joined(sys.k, wanif) && wanif in sys.k
      modifies sys, mka, wg, node
      ensures Wired() && node.Valid() && node.clock == old(node.clock)
      ensures old(sys.history) <= sys.history && old(sys.lapses) <= sys.lapses && old(node.log) <= node.log
      ensures KeepStep(wanif, torn == [], old(sys.k), sys.k)
      ensures AllKept(wanif, torn == [], old(sys.k), sys.history, |old(sys.history)|)
      ensures Among(torn, sys.lapses, |old(sys.lapses)|)
      ensures StoredMode(cfg.mode).WireGuard? || WG_IFACE !in old(sys.k) ==> torn == []
      ensures NoCommit(node.log, |old(node.log)|)
      ensures Armed(node.log, |old(node.log)|, |node.log|, Codec.CtlKeys(cfg.keyNonce, keys.1, keys.2), mac)
      ensures secured ==> Bridged(cfg, link.name, link.seen || sys.steady, sys.k, wanif)
      ensures secured && StoredMode(cfg.mode).WireGuard? ==> wg.LeafLinked(old(sys.k), wanif, cfg)
      ensures link.uplink.Off? && LinkOk(secured, link, cfg, (keys.0, keys.1), mac, o.recent, |old(sys.lapses)|, old(mka.restarts), Present(), wanif, sys.steady, sys.works)
    {
      ArmKeys(Codec.CtlKeys(cfg.keyNonce, keys.1, keys.2), mac);
      secured, torn, link := RunMode(cfg, (keys.0, keys.1), mac, o);
    }

    /** Arms the control keys, under their lock. */
    method ArmKeys(keys: Codec.CtlKeys, mac: Bytes)
      requires node.Valid()
      modifies node
      ensures node.Valid() && node.clock == old(node.clock) && old(node.log) <= node.log
      ensures NoCommit(node.log, |old(node.log)|) && Armed(node.log, |old(node.log)|, |node.log|, keys, mac)
    {
      ghost var es := node.Others(Pass);
      OthersNoCommit(node.log, old(node.log), es);
      node.Arm(keys, mac);
    }

    /** The link of the association's mode, with the uplink off the bridge. */
    method RunMode(cfg: LeafSide, keys: (Bytes, Bytes), mac: Bytes, o: Outside)
      returns (secured: bool, ghost torn: seq<Lapse>, ghost link: Link)
      requires Wired() && !Joined(sys.k, wanif) && wanif in sys.k
      modifies sys, mka, wg
      ensures Wired() && old(sys.history) <= sys.history && old(sys.lapses) <= sys.lapses
      ensures KeepStep(wanif, torn == [], old(sys.k), sys.k)
      ensures AllKept(wanif, torn == [], old(sys.k), sys.history, |old(sys.history)|)
      ensures Among(torn, sys.lapses, |old(sys.lapses)|)
      ensures StoredMode(cfg.mode).WireGuard? || WG_IFACE !in old(sys.k) ==> torn == []
      ensures secured ==> Bridged(cfg, link.name, link.seen || sys.steady, sys.k, wanif)
      ensures secured && StoredMode(cfg.mode).WireGuard? ==> wg.LeafLinked(old(sys.k), wanif, cfg)
      ensures link.uplink.Off? && LinkOk(secured, link, cfg, keys, mac, o.recent, |old(sys.lapses)|, old(mka.restarts), Present(), wanif, sys.steady, sys.works)
    {
      torn, link := [], Link(Off, "", false);
      if StoredMode(cfg.mode).WireGuard? {
        ghost var seen;
        secured, seen := RunWireGuard(cfg, o.recent);
        link := link.(seen := seen);
      } else {
        ghost var name;
        secured, torn, name := RunMACsec(LeafInstance(wanif, keys), mac, o.exited);
        link := link.(name := name);
        if secured {
          SCIValue(mac, LEAF_PORT);
        }
      }
    }

    /** Undoes everything and gives the uplink back to the bridge - if the router is a leaf at that
        moment. Every call that fails in it counts as a fault. */
    method TeardownLeaf() returns (ghost t: Teardown)
      requires Valid()
      modifies this, sys, mka, wg, node
      ensures Valid() && !leafActive && node.clock == old(node.clock)
      ensures old(sys.history) <= sys.history && old(sys.lapses) <= sys.lapses
      ensures old(node.log) <= node.log && NoCommit(node.log, |old(node.log)|)
      ensures TeardownOk(t, wanif, sys.reserved, sys.lapses, node.h, node.start, node.log)
      ensures t.before == old(sys.k) && t.after == sys.k && t.end == |sys.lapses| && t.roleAt == |node.log|
      ensures |old(sys.lapses)| <= t.from && faults == old(faults) + sys.lapses[|old(sys.lapses)|..]
      ensures mka.procs == map[] && wg.applied == map[]
      ensures !t.rejoined ==> Unjoined(old(sys.k), sys.history, |old(sys.history)|, wanif)
      ensures Guarded(old(sys.k), sys.history, |old(sys.history)|, wanif, t.rejoined)
      ensures ValidIface(wanif) && wanif in sys.k ==>
                (!Exclusive(sys.k, wanif) <==> Joined(sys.k, wanif) && exists n :: StuckPort(t, wanif, sys.lapses, n))
    {
      ghost var q, from := UndoAll();
      ghost var k1, l1, h1 := sys.k, sys.lapses, sys.history;
      ghost var rejoined, joined := RejoinIfLeaf(q, from);
      LongerStill(old(sys.history), h1, sys.history);
      FaultsJoin(old(faults), old(sys.lapses), l1, sys.lapses);
      Close(sys.lapses[|l1|..]);
      t := Teardown(old(sys.k), q, sys.k, from, |l1|, |sys.lapses|, |node.log|, rejoined, joined);
      TeardownDone(t, k1, l1, wanif, sys.reserved, sys.lapses, node.h, node.start, node.log);
    }

    /** The end of a teardown, which counts its last failures. */
    method Close(ghost more: seq<Lapse>)
      requires Valid()
      modifies this`requiredFlag, this`leafActive, this`faults
      ensures Valid() && !requiredFlag && !leafActive && faults == old(faults) + more
    {
      requiredFlag, leafActive, faults := false, false, faults + more;
    }

    /** The removals as a step of the whole run. */
    method UndoAll() returns (ghost q: Kernel, ghost from: nat)
      requires Valid()
      modifies this`faults, sys, mka, wg
      ensures Valid() && old(sys.history) <= sys.history && old(sys.lapses) <= sys.lapses
      ensures mka.procs == map[] && wg.applied == map[]
      ensures |old(sys.lapses)| <= from <= |sys.lapses| && Quiet(sys.reserved, old(sys.k), q)
      ensures faults == old(faults) + sys.lapses[|old(sys.lapses)|..] && (faults == [] ==> sys.lapses[from..] == [])
      ensures ValidIface(wanif) ==> sys.k == TornTable(q, wanif, LeftOf(q, sys.lapses[from..]))
      ensures Unjoined(old(sys.k), sys.history, |old(sys.history)|, wanif)
      ensures Guarded(old(sys.k), sys.history, |old(sys.history)|, wanif, false)
      ensures forall n :: n in sys.reserved && n in q ==> !q[n].kind.SecY?
    {
      q, from := Undo();
      faults := faults + sys.lapses[|old(sys.lapses)|..];
      if faults == [] {
        assert sys.lapses == old(sys.lapses);
        KeptSafe(wanif, old(sys.history), old(sys.k), sys.history);
      }
    }

    /** Reads whether the router is a leaf, and if so gives the uplink back. */
    method RejoinIfLeaf(ghost q: Kernel, ghost from: nat) returns (ghost rejoined: bool, ghost joined: bool)
      requires Valid() && from <= |sys.lapses|
      requires ValidIface(wanif) ==> sys.k == TornTable(q, wanif, LeftOf(q, sys.lapses[from..]))
      requires faults == [] ==> sys.lapses[from..] == []
      modifies sys, node
      ensures Valid() && node.clock == old(node.clock)
      ensures old(sys.history) <= sys.history && old(sys.lapses) <= sys.lapses
      ensures old(node.log) <= node.log && NoCommit(node.log, |old(node.log)|)
      ensures rejoined <==> ValidIface(wanif) && node.leafMode && BRIDGE_IFACE in sys.k && sys.lapses == old(sys.lapses)
      ensures sys.history == if rejoined then old(sys.history) + [sys.k] else old(sys.history)
      ensures !rejoined ==> sys.k == old(sys.k)
      ensures joined ==> rejoined && wanif in old(sys.k)
      ensures sys.k == if joined then Enslaved(old(sys.k), wanif, BRIDGE_IFACE) else old(sys.k)
    {
      ghost var es := node.Others(Pass);
      OthersNoCommit(node.log, old(node.log), es);
      rejoined, joined := false, false;
      if ValidIface(wanif) && node.leafMode {
        if faults == [] {
          NoLapses();
          TornClean(q, wanif, LeftOf(q, sys.lapses[from..]));
          RejoinSafe(wanif, sys.k);
        }
        rejoined, joined := Rejoin();
      }
    }

    /** Puts the uplink back on the bridge, if the bridge is there. */
    method Rejoin() returns (ghost called: bool, ghost joined: bool)
      requires sys.Valid()
      modifies sys`k, sys`history, sys`lapses
      ensures sys.Valid() && old(sys.lapses) <= sys.lapses
      ensures called <==> BRIDGE_IFACE in sys.k && sys.lapses == old(sys.lapses)
      ensures sys.history == if called then old(sys.history) + [sys.k] else old(sys.history)
      ensures joined ==> called && wanif in old(sys.k)
      ensures sys.k == if joined then Enslaved(old(sys.k), wanif, BRIDGE_IFACE) else old(sys.k)
    {
      called, joined := false, false;
      var bridge := sys.LinkInfo(BRIDGE_IFACE);
      if bridge.Some? {
        var ok := sys.SetMaster(wanif, BRIDGE_IFACE);
        called, joined := true, ok;
      }
    }

    /** Stops participants and deletes MACsec devices, tunnel port and WireGuard device. What stays of
        table `q` is what could not be looked up or deleted, from lapse `from` on. */
    method Undo() returns (ghost q: Kernel, ghost from: nat)
      requires Wired()
      modifies sys, mka, wg
      ensures Wired() && old(sys.history) <= sys.history && old(sys.lapses) <= sys.lapses && mka.procs == map[] && wg.applied == map[]
      ensures KeepStep(wanif, sys.lapses == old(sys.lapses), old(sys.k), sys.k)
      ensures AllKept(wanif, sys.lapses == old(sys.lapses), old(sys.k), sys.history, |old(sys.history)|)
      ensures |old(sys.lapses)| <= from <= |sys.lapses| && Quiet(sys.reserved, old(sys.k), q)
      ensures ValidIface(wanif) ==> sys.k == TornTable(q, wanif, LeftOf(q, sys.lapses[from..]))
      ensures forall n :: n in sys.reserved && n in q ==> !q[n].kind.SecY?
    {
      q, from := DropMACsec(!ValidIface(wanif));
      ghost var k1, h1, l1, before := sys.k, sys.history, sys.lapses, wg.changes;
      wg.TeardownWG();
      PeerCache.OfLeafForgets(before, wg.changes);
      LongerStill(old(sys.lapses), l1, sys.lapses);
      KeptThenCalm(wanif, sys.lapses == old(sys.lapses), old(sys.k), k1, sys.k, old(sys.history), h1, sys.history);
      if ValidIface(wanif) {
        LapsesFrom(l1, sys.lapses, from);
        TornBoth(q, k1, sys.k, l1[from..], sys.lapses[|l1|..], wanif);
      }
    }

    /** The end of a pass that had registered an association: confirm it, wait, or give up on it. The
        pass began with `a` as the last of `from` tables, and with a log of length `since`. */
    method ConfirmOrRevert(cfg: LeafSide, secured: bool, ghost a: Kernel, ghost from: nat, ghost since: nat)
      returns (ghost p: Commit)
      requires Valid() && Since(a, from, since)
      modifies this, sys, mka, wg, node
      ensures Valid() && old(sys.history) <= sys.history && old(sys.lapses) <= sys.lapses && old(node.log) <= node.log
      ensures p.ended >= old(node.clock) && p.from == |old(node.log)|
      ensures CommitOk(p, cfg, secured, node.h, node.start, node.log)
      ensures Guarded(a, sys.history, from, wanif, Rejoined(p.torn)) && Undone(p.torn, since)
      ensures !Rejoined(p.torn) ==> Unjoined(a, sys.history, from, wanif) && (Joined(sys.k, wanif) ==> Joined(old(sys.k), wanif))
      ensures p.torn.Some? ==> faults == old(faults) + sys.lapses[|old(sys.lapses)|..] && p.torn.value.before == old(sys.k)
      ensures p.torn.None? ==> unchanged(sys) && unchanged(wg) && unchanged(mka) && unchanged(this)
    {
      p := Commit(|node.log|, |node.log|, node.clock, None);
      if cfg.confirmed {
        return;
      }
      if !secured {
        var now := node.Now();
        p := p.(ended := now);
        if now - cfg.enabledAt * 1000 < CONFIRM_TIMEOUT {
          return;
        }
      }
      ghost var at, torn := Decide(cfg, secured, a, from, since);
      p := p.(at := at, torn := torn);
    }

    /** So far, from table `a` on, the uplink has not joined and exclusiveness has lasted. */
    ghost predicate Since(a: Kernel, from: nat, since: nat)
      reads this, sys, node
    {
      && since <= |node.log| && 0 < from <= |sys.history| && sys.history[from - 1] == a
      && Guarded(a, sys.history, from, wanif, false) && Unjoined(a, sys.history, from, wanif)
    }

    /** Confirms the association, or gives up on it. */
    method Decide(cfg: LeafSide, secured: bool, ghost a: Kernel, ghost from: nat, ghost since: nat)
      returns (ghost at: nat, ghost torn: Option<Teardown>)
      requires Valid() && Since(a, from, since)
      modifies this, sys, mka, wg, node
      ensures Valid() && old(sys.history) <= sys.history && old(sys.lapses) <= sys.lapses && old(node.log) <= node.log
      ensures |old(node.log)| <= at < |node.log| && node.log[at] == if secured then Confirm(cfg) else Revert(cfg)
      ensures torn.Some? <==> !secured && ClearedAt(node.h, node.start, node.log, at, cfg)
      ensures Guarded(a, sys.history, from, wanif, Rejoined(torn)) && Undone(torn, since)
      ensures !Rejoined(torn) ==> Unjoined(a, sys.history, from, wanif) && (Joined(sys.k, wanif) ==> Joined(old(sys.k), wanif))
      ensures torn.Some? ==> faults == old(faults) + sys.lapses[|old(sys.lapses)|..] && torn.value.before == old(sys.k)
      ensures torn.None? ==> unchanged(sys) && unchanged(wg) && unchanged(mka) && unchanged(this)
    {
      ghost var _ := node.Others(Pass);
      at, torn := |node.log|, None;
      if secured {
        var _ := node.Confirm(cfg);
      } else {
        ghost var log1 := node.log;
        torn := GiveUpSince(cfg, a, from, since);
        LongerStill(old(node.log), log1, node.log);
      }
    }

    /** Gives up on the association, in a pass that began back then. */
    method GiveUpSince(cfg: LeafSide, ghost a: Kernel, ghost from: nat, ghost since: nat) returns (ghost torn: Option<Teardown>)
      requires Valid() && Since(a, from, since)
      modifies this, sys, mka, wg, node
      ensures Valid() && old(sys.history) <= sys.history && old(sys.lapses) <= sys.lapses && old(node.log) <= node.log
      ensures |old(node.log)| < |node.log| && node.log[|old(node.log)|] == Revert(cfg)
      ensures torn.Some? <==> ClearedAt(node.h, node.start, node.log, |old(node.log)|, cfg)
      ensures Guarded(a, sys.history, from, wanif, Rejoined(torn)) && Undone(torn, since)
      ensures !Rejoined(torn) ==> Unjoined(a, sys.history, from, wanif) && (Joined(sys.k, wanif) ==> Joined(old(sys.k), wanif))
      ensures torn.Some? ==> faults == old(faults) + sys.lapses[|old(sys.lapses)|..] && torn.value.before == old(sys.k)
      ensures torn.None? ==> unchanged(sys) && unchanged(wg) && unchanged(mka) && unchanged(this)
    {
      torn := GiveUp(cfg);
      GuardedLater(a, old(sys.k), from, old(sys.history), sys.history, wanif, Rejoined(torn));
    }

    /** A teardown that took place and left things as they are now, its leaf-mode check at log position
        `from` or later. */
    ghost predicate Undone(torn: Option<Teardown>, from: nat)
      reads sys, node
    {
      torn.Some? ==>
        && TeardownOk(torn.value, wanif, sys.reserved, sys.lapses, node.h, node.start, node.log)
        && torn.value.after == sys.k && from <= torn.value.roleAt
    }

    /** Clears the association if it is still the unconfirmed one of the snapshot, and then undoes it. */
    method GiveUp(cfg: LeafSide) returns (ghost torn: Option<Teardown>)
      requires Valid()
      modifies this, sys, mka, wg, node
      ensures Valid() && old(sys.history) <= sys.history && old(sys.lapses) <= sys.lapses && old(node.log) <= node.log
      ensures |old(node.log)| < |node.log| && node.log[|old(node.log)|] == Revert(cfg)
      ensures torn.Some? <==> ClearedAt(node.h, node.start, node.log, |old(node.log)|, cfg)
      ensures Undone(torn, |old(node.log)|) && (torn.Some? ==> torn.value.before == old(sys.k))
      ensures !Rejoined(torn) ==> Unjoined(old(sys.k), sys.history, |old(sys.history)|, wanif) && (Joined(sys.k, wanif) ==> Joined(old(sys.k), wanif))
      ensures Guarded(old(sys.k), sys.history, |old(sys.history)|, wanif, Rejoined(torn))
      ensures torn.Some? ==> faults == old(faults) + sys.lapses[|old(sys.lapses)|..]
      ensures torn.None? ==> unchanged(sys) && unchanged(wg) && unchanged(mka) && unchanged(this)
    {
      torn := None;
      var done := node.Revert(cfg);
      assert node.log[..|old(node.log)|] == old(node.log);
      if done {
        ghost var after := node.log;
        ghost var t := TeardownLeaf();
        assert node.log[|old(node.log)|] == after[|old(node.log)|];
        assert node.log[..|old(node.log)|] == old(node.log);
        torn := Some(t);
      }
    }

    /** A pass that read a disabled record: drop the keys and undo what is left. */
    method ReconcileOff() returns (ghost torn: Option<Teardown>)
      requires Valid()
      modifies this, sys, mka, wg, node
      ensures Valid() && old(sys.history) <= sys.history && old(sys.lapses) <= sys.lapses && old(node.log) <= node.log
      ensures NoCommit(node.log, |old(node.log)|) && node.clock == old(node.clock)
      ensures torn.Some? <==> old(Left())
      ensures Undone(torn, |old(node.log)|) && (torn.Some? ==> torn.value.before == old(sys.k))
      ensures !Rejoined(torn) ==> Unjoined(old(sys.k), sys.history, |old(sys.history)|, wanif)
      ensures Guarded(old(sys.k), sys.history, |old(sys.history)|, wanif, Rejoined(torn))
      ensures torn.Some? ==> faults == old(faults) + sys.lapses[|old(sys.lapses)|..]
      ensures torn.None? ==> unchanged(sys) && faults == old(faults)
      ensures !leafActive && mka.procs == map[] && |old(node.log)| < |node.log| && node.log[|old(node.log)|] == Disarm
    {
      node.Disarm();
      ghost var middle := node.log;
      torn := None;
      if leafActive || requiredFlag || |mka.procs| > 0 {
        ghost var t := TeardownLeaf();
        assert forall i :: 0 <= i < |middle| ==> node.log[i] == middle[i];
        torn := Some(t);
      }
    }

    /** The bring-up as a step of the whole run. */
    method Secure(cfg: LeafSide, derive: (string, string) -> (Bytes, Bytes, Bytes), o: Outside)
      returns (secured: bool, ghost torn: seq<Lapse>, ghost link: Link)
      requires Valid()
      modifies this, sys, mka, wg, node
      ensures Valid() && leafActive && node.clock == old(node.clock)
      ensures old(sys.history) <= sys.history && old(sys.lapses) <= sys.lapses
      ensures old(node.log) <= node.log && NoCommit(node.log, |old(node.log)|)
      ensures Unjoined(old(sys.k), sys.history, |old(sys.history)|, wanif) && (Joined(sys.k, wanif) ==> Joined(old(sys.k), wanif))
      ensures Guarded(old(sys.k), sys.history, |old(sys.history)|, wanif, false)
      ensures faults == old(faults) + torn && Among(torn, sys.lapses, |old(sys.lapses)|)
      ensures StoredMode(cfg.mode).WireGuard? || WG_IFACE !in old(sys.k) ==> torn == []
      ensures secured ==> Bridged(cfg, link.name, link.seen || sys.steady, sys.k, wanif)
      ensures secured && StoredMode(cfg.mode).WireGuard? ==> wg.LeafLinked(old(sys.k), wanif, cfg)
      ensures requiredFlag
      ensures (link.uplink.Unnamed? <==> !ValidIface(wanif))
              && UplinkOk(link.uplink, wanif, sys.steady, old(sys.k), old(sys.lapses), sys.lapses)
      ensures link.uplink.Off? ==> !Joined(sys.k, wanif)
      ensures if link.uplink.Off? && Armable(cfg, o) then
                var keys, mac := derive(o.token.value, cfg.keyNonce), old(sys.k)[wanif].mac;
                Armed(node.log, |old(node.log)|, |node.log|, Codec.CtlKeys(cfg.keyNonce, keys.1, keys.2), mac)
                && LinkOk(secured, link, cfg, (keys.0, keys.1), mac, o.recent, |old(sys.lapses)|, old(mka.restarts), Present(), wanif, sys.steady, sys.works)
              else !secured && node.log == old(node.log)
    {
      leafActive, requiredFlag := true, true;
      secured, torn, link := Bringup(cfg, derive, o);
      faults := faults + torn;
      if faults == [] {
        assert torn == [];
        KeptSafe(wanif, old(sys.history), old(sys.k), sys.history);
      }
    }

    /** The unregistered pass that read a disabled record. */
    method StandDown(now: int) returns (ghost p: LeafPass)
      requires Valid()
      modifies this, sys, mka, wg, node
      ensures Valid() && old(sys.history) <= sys.history && old(sys.lapses) <= sys.lapses && old(node.log) <= node.log
      ensures !p.registered && p.began == now && NoCommit(node.log, |old(node.log)|)
      ensures |old(node.log)| < |node.log| && node.log[|old(node.log)|] == Disarm
      ensures p.torn.Some? <==> old(Left())
      ensures Undone(p.torn, |old(node.log)|)
      ensures !Rejoined(p.torn) ==> Unjoined(old(sys.k), sys.history, |old(sys.history)|, wanif)
      ensures faults == old(faults) + p.first + p.second && p.first == [] && Among(p.second, sys.lapses, |old(sys.lapses)|)
      ensures p.torn.None? ==> p.second == []
      ensures Guarded(old(sys.k), sys.history, |old(sys.history)|, wanif, Rejoined(p.torn))
    {
      ghost var torn := ReconcileOff();
      ghost var second := if torn.Some? then sys.lapses[|old(sys.lapses)|..] else [];
      p := LeafPass(false, now, false, NO_LINK, Commit(0, 0, now, None), torn, [], second);
    }

    /** A pass over a leaf that read `cfg`. */
    method ReconcileLeaf(cfg: LeafSide, derive: (string, string) -> (Bytes, Bytes, Bytes), o: Outside) returns (ghost p: LeafPass)
      requires Valid()
      modifies this, sys, mka, wg, node
      ensures Valid() && old(sys.history) <= sys.history && old(sys.lapses) <= sys.lapses && old(node.log) <= node.log
      ensures p.registered <==> (cfg.enabled
                && (old(leafActive) || cfg.confirmed || p.began - cfg.enabledAt * 1000 >= APPLY_DELAY))
      ensures old(node.clock) <= p.began && (p.registered ==> p.began <= p.commit.ended)
      // The plaintext uplink comes back only for a disabled record, or one this pass itself cleared.
      ensures if !cfg.enabled then p.torn.Some? <==> old(Left())
              else p.torn == (if p.registered then p.commit.torn else None)
      ensures Undone(p.torn, |old(node.log)|)
      ensures !Rejoined(p.torn) ==> Unjoined(old(sys.k), sys.history, |old(sys.history)|, wanif)
      ensures Guarded(old(sys.k), sys.history, |old(sys.history)|, wanif, Rejoined(p.torn))
      // What counts against the safety of the run: the failures of teardowns, and nothing else.
      ensures faults == old(faults) + p.first + p.second && Among(p.first, sys.lapses, |old(sys.lapses)|)
              && Among(p.second, sys.lapses, |old(sys.lapses)|)
      ensures p.torn.None? && (!p.registered || StoredMode(cfg.mode).WireGuard? || WG_IFACE !in old(sys.k)) ==> p.first == [] && p.second == []
      // Whatever way the pass returned early, its commit follows the rules.
      ensures p.registered ==>
                && |old(node.log)| <= p.commit.from <= |node.log|
                && NoCommit(node.log[..p.commit.from], |old(node.log)|)
                && CommitOk(p.commit, cfg, p.secured, node.h, node.start, node.log)
      ensures !p.registered ==> NoCommit(node.log, |old(node.log)|)
      ensures p.registered && p.secured ==> Bridged(cfg, p.link.name, p.link.seen || sys.steady, sys.k, wanif)
      ensures p.registered && p.secured && StoredMode(cfg.mode).WireGuard? ==> wg.LeafLinked(old(sys.k), wanif, cfg)
      ensures p.registered && p.torn.None? ==> leafActive && requiredFlag
      // A registered pass leaves the uplink off the bridge, unless it gave it back or could not take it off;
      // it arms the keys of the association; and what its link came to is determined by what it found.
      ensures LeafDone(p, cfg, derive, o, old(Present()), Present(), wanif, sys.steady, sys.works)
      ensures p.registered ==> KeysArmed(p, cfg, derive, o, old(sys.k), |old(node.log)|)
      ensures !cfg.enabled ==> |old(node.log)| < |node.log| && node.log[|old(node.log)|] == Disarm
      ensures cfg.enabled && !p.registered ==> unchanged(sys) && node.log == old(node.log) && p.torn.None?
    {
      var now := node.Now();
      if !cfg.enabled {
        p := StandDown(now);
      } else if !leafActive && !cfg.confirmed && now - cfg.enabledAt * 1000 < APPLY_DELAY {
        p := LeafPass(false, now, false, NO_LINK, Commit(0, 0, now, None), None, [], []);
      } else {
        p := ReconcileOn(cfg, derive, o, now);
      }
    }

    /** The registered part of a pass: bring the link up, then commit, however the bring-up ended. */
    method ReconcileOn(cfg: LeafSide, derive: (string, string) -> (Bytes, Bytes, Bytes), o: Outside, now: int) returns (ghost p: LeafPass)
      requires Valid() && now <= node.clock
      modifies this, sys, mka, wg, node
      ensures Valid() && old(sys.history) <= sys.history && old(sys.lapses) <= sys.lapses && old(node.log) <= node.log
      ensures p.registered && p.began == now && now <= p.commit.ended && p.torn == p.commit.torn
      ensures Guarded(old(sys.k), sys.history, |old(sys.history)|, wanif, Rejoined(p.torn))
      ensures Undone(p.torn, |old(node.log)|)
      ensures !Rejoined(p.torn) ==> Unjoined(old(sys.k), sys.history, |old(sys.history)|, wanif)
      ensures faults == old(faults) + p.first + p.second && Among(p.first, sys.lapses, |old(sys.lapses)|)
              && Among(p.second, sys.lapses, |old(sys.lapses)|)
      ensures p.torn.None? && (StoredMode(cfg.mode).WireGuard? || WG_IFACE !in old(sys.k)) ==> p.first == [] && p.second == []
      ensures |old(node.log)| <= p.commit.from <= |node.log| && NoCommit(node.log[..p.commit.from], |old(node.log)|)
      ensures CommitOk(p.commit, cfg, p.secured, node.h, node.start, node.log)
      ensures p.secured ==> Bridged(cfg, p.link.name, p.link.seen || sys.steady, sys.k, wanif)
      ensures p.secured && StoredMode(cfg.mode).WireGuard? ==> wg.LeafLinked(old(sys.k), wanif, cfg)
      ensures p.torn.None? ==> leafActive && requiredFlag
      ensures LeafDone(p, cfg, derive, o, old(Present()), Present(), wanif, sys.steady, sys.works) && KeysArmed(p, cfg, derive, o, old(sys.k), |old(node.log)|)
    {
      var secured;
      ghost var torn, link;
      secured, torn, link := Secure(cfg, derive, o);
      ghost var log1, l1, h1 := node.log, sys.lapses, sys.history;
      ghost var c := ConfirmOrRevert(cfg, secured, old(sys.k), |old(sys.history)|, |old(node.log)|);
      LongerStill(old(sys.history), h1, sys.history);
      LongerStill(old(sys.lapses), l1, sys.lapses);
      LongerStill(old(node.log), log1, node.log);
      ghost var second := if c.torn.Some? then sys.lapses[|l1|..] else [];
      BothAmong(torn, old(sys.lapses), l1, sys.lapses);
      p := LeafPass(true, now, secured, link, c, c.torn, torn, second);
    }

    /** The keys of the association were armed before the commit, if the pass got that far. */
    ghost predicate KeysArmed(p: LeafPass, cfg: LeafSide, derive: (string, string) -> (Bytes, Bytes, Bytes), o: Outside,
                              a: Kernel, from: nat)
      reads node
    {
      if p.link.uplink.Off? && Armable(cfg, o) then
        wanif in a &&
        var keys := derive(o.token.value, cfg.keyNonce);
        Armed(node.log, from, p.commit.from, Codec.CtlKeys(cfg.keyNonce, keys.1, keys.2), a[wanif].mac)
      else p.commit.from == from
    }

    /** What a pass of a router that is no leaf does about an association it finds. */
    method LeaveLeafMode(cfg: LeafSide, reloads: bool) returns (ghost torn: Option<Teardown>)
      requires Valid() && !node.leafMode
      modifies this, sys, mka, wg, node
      ensures Valid() && old(sys.history) <= sys.history && old(sys.lapses) <= sys.lapses && old(node.log) <= node.log
      ensures !leafActive && (torn.Some? <==> cfg.enabled || old(leafActive) || old(requiredFlag))
      ensures !Rejoined(torn) ==> Unjoined(old(sys.k), sys.history, |old(sys.history)|, wanif)
      // By the contract of the teardown, the uplink is given back exactly if leaf mode was on again at
      // its check, and so only if it was switched on meanwhile.
      ensures Undone(torn, |old(node.log)|) && (torn.Some? ==> torn.value.before == old(sys.k))
      ensures Rejoined(torn) ==> exists i :: |old(node.log)| <= i < torn.value.roleAt && node.log[i] == SetLeafMode(true)
      ensures Guarded(old(sys.k), sys.history, |old(sys.history)|, wanif, Rejoined(torn))
      ensures torn.Some? ==> faults == old(faults) + sys.lapses[|old(sys.lapses)|..]
      ensures torn.None? ==> unchanged(sys) && faults == old(faults)
      ensures forall i :: |old(node.log)| <= i < |node.log| ==> IsHandler(node.log[i]) || node.log[i].Arm? || node.log[i].Disarm?
                                                                  || (node.log[i].LeaveLeaf? && cfg.enabled)
      // The association is forgotten unless leaf mode was on again at that check.
      ensures Forgets(torn, cfg, reloads, node.h, node.start, node.log)
    {
      torn := None;
      if leafActive || requiredFlag || cfg.enabled {
        ghost var t := TeardownLeaf();
        if t.rejoined {
          assert node.log[..t.roleAt] == node.log;
          ModeSwitched(node, old(node.log), old(node.State()));
        }
        ghost var middle := node.log;
        ForgetAssociation(cfg, reloads);
        assert node.log[..t.roleAt] == middle;
        torn := Some(t);
      }
    }

    /** Clears what is left of the association, if the router is still no leaf. */
    method ForgetAssociation(cfg: LeafSide, loads: bool)
      requires node.Valid()
      modifies node
      ensures node.Valid() && old(node.log) <= node.log
      ensures forall i :: |old(node.log)| <= i < |node.log| ==> IsHandler(node.log[i]) || node.log[i].Arm? || node.log[i].Disarm?
                                                                  || (node.log[i].LeaveLeaf? && cfg.enabled)
      ensures if cfg.enabled && !old(node.leafMode) then
                && |node.log| > |old(node.log)| && node.log[|node.log| - 1] == LeaveLeaf(loads)
                && (loads ==> !node.config.enabled)
              else node.log == old(node.log)
    {
      if cfg.enabled && !node.leafMode {
        ghost var es := node.Others(Pass);
        OthersNoCommit(node.log, old(node.log), es);
        node.LeaveLeaf(loads);
      }
    }

    /** One pass: read the record, see which role the router has, act. Handlers may land anywhere. A
        pass that cannot read the record does nothing. */
    method Reconcile(derive: (string, string) -> (Bytes, Bytes, Bytes), o: Outside) returns (ghost p: AnyPass)
      requires Valid()
      modifies this, sys, mka, wg, node
      ensures Valid() && old(sys.history) <= sys.history && old(sys.lapses) <= sys.lapses && old(node.log) <= node.log
      ensures !p.readable ==> p.torn.None? && unchanged(sys) && faults == old(faults) && NoCommit(node.log, |old(node.log)|)
      ensures p.readable ==> PassOk(p, |old(node.log)|, wanif, sys.reserved, sys.lapses, node.h, node.start, node.log)
      ensures p.torn.Some? ==> p.torn.value.after == sys.k
      // Exclusiveness after every command is lost exactly by a teardown that rejoins beside a stuck port.
      ensures Decided(p.torn, wanif, old(sys.history), sys.history, sys.lapses)
      ensures !Rejoined(p.torn) ==> Unjoined(old(sys.k), sys.history, |old(sys.history)|, wanif)
      ensures faults == old(faults) + p.faults && Among(p.faults, sys.lapses, |old(sys.lapses)|)
      ensures p.torn.None? && (StoredMode(p.snapshot.mode).WireGuard? || WG_IFACE !in old(sys.k)) ==> p.faults == []
      ensures p.readable == o.readable && (p.readable ==>
                if p.asLeaf then
                  LeafActed(p.leaf, p.torn, p.snapshot, old(leafActive), old(Left()), old(sys.k), sys.k, wanif, sys.steady)
                else !p.leaf.registered && Forgets(p.torn, p.snapshot, o.reloads, node.h, node.start, node.log))
    {
      ghost var es := node.Others(Pass);
      OthersNoCommit(node.log, old(node.log), es);
      var readable := o.readable;
      p := AnyPass(readable, |node.log|, |node.log|, OFF, node.leafMode, NO_PASS, None, []);
      if !readable {
        return;
      }
      var cfg := node.config;
      ghost var log1 := node.log;
      ghost var _ := node.Others(Pass);
      ghost var log2 := node.log;
      p := AnyPass(true, |log1|, |log2|, cfg, node.leafMode, NO_PASS, None, []);
      ghost var leaf, torn, failed := Act(cfg, derive, o);
      p := p.(leaf := leaf, torn := torn, faults := failed);
      LongerStill(old(node.log), log1, log2);
      LongerStill(old(node.log), log2, node.log);
      PassDone(p, |old(node.log)|, log1, log2, wanif, sys.reserved, sys.lapses, node.h, node.start, node.log);
    }

    /** What a pass does in the role it found. */
    method Take(cfg: LeafSide, derive: (string, string) -> (Bytes, Bytes, Bytes), o: Outside)
      returns (ghost leaf: LeafPass, ghost torn: Option<Teardown>, ghost failed: seq<Lapse>)
      requires Valid()
      modifies this, sys, mka, wg, node
      ensures Valid() && old(sys.history) <= sys.history && old(sys.lapses) <= sys.lapses && old(node.log) <= node.log
      ensures Undone(torn, |old(node.log)|)
      ensures Guarded(old(sys.k), sys.history, |old(sys.history)|, wanif, Rejoined(torn))
      ensures !Rejoined(torn) ==> Unjoined(old(sys.k), sys.history, |old(sys.history)|, wanif)
      ensures faults == old(faults) + failed && Among(failed, sys.lapses, |old(sys.lapses)|)
      ensures torn.None? && (StoredMode(cfg.mode).WireGuard? || WG_IFACE !in old(sys.k)) ==> failed == []
      ensures old(node.leafMode) && cfg.enabled ==>
                && torn == (if leaf.registered then leaf.commit.torn else None)
                && (leaf.registered ==> CommitOk(leaf.commit, cfg, leaf.secured, node.h, node.start, node.log))
      ensures !old(node.leafMode) && cfg.enabled ==> torn.Some?
      ensures if old(node.leafMode) then LeafActed(leaf, torn, cfg, old(leafActive), old(Left()), old(sys.k), sys.k, wanif, sys.steady)
              else !leaf.registered && Forgets(torn, cfg, o.reloads, node.h, node.start, node.log)
    {
      leaf := NO_PASS;
      if node.leafMode {
        leaf, torn, failed := TakeLeaf(cfg, derive, o);
      } else {
        torn := LeaveLeafMode(cfg, o.reloads);
        failed := if torn.Some? then sys.lapses[|old(sys.lapses)|..] else [];
      }
    }

    method TakeLeaf(cfg: LeafSide, derive: (string, string) -> (Bytes, Bytes, Bytes), o: Outside)
      returns (ghost leaf: LeafPass, ghost torn: Option<Teardown>, ghost failed: seq<Lapse>)
      requires Valid()
      modifies this, sys, mka, wg, node
      ensures Valid() && old(sys.history) <= sys.history && old(sys.lapses) <= sys.lapses && old(node.log) <= node.log
      ensures Undone(torn, |old(node.log)|)
      ensures Guarded(old(sys.k), sys.history, |old(sys.history)|, wanif, Rejoined(torn))
      ensures !Rejoined(torn) ==> Unjoined(old(sys.k), sys.history, |old(sys.history)|, wanif)
      ensures faults == old(faults) + failed && Among(failed, sys.lapses, |old(sys.lapses)|)
      ensures torn.None? && (StoredMode(cfg.mode).WireGuard? || WG_IFACE !in old(sys.k)) ==> failed == []
      ensures cfg.enabled ==>
                && torn == (if leaf.registered then leaf.commit.torn else None)
                && (leaf.registered ==> CommitOk(leaf.commit, cfg, leaf.secured, node.h, node.start, node.log))
      ensures LeafActed(leaf, torn, cfg, old(leafActive), old(Left()), old(sys.k), sys.k, wanif, sys.steady)
    {
      leaf := ReconcileLeaf(cfg, derive, o);
      torn, failed := leaf.torn, leaf.first + leaf.second;
    }

    /** The same, with what it means for exclusiveness. */
    method Act(cfg: LeafSide, derive: (string, string) -> (Bytes, Bytes, Bytes), o: Outside)
      returns (ghost leaf: LeafPass, ghost torn: Option<Teardown>, ghost failed: seq<Lapse>)
      requires Valid()
      modifies this, sys, mka, wg, node
      ensures Valid() && old(sys.history) <= sys.history && old(sys.lapses) <= sys.lapses && old(node.log) <= node.log
      ensures Undone(torn, |old(node.log)|)
      ensures Decided(torn, wanif, old(sys.history), sys.history, sys.lapses)
      ensures !Rejoined(torn) ==> Unjoined(old(sys.k), sys.history, |old(sys.history)|, wanif)
      ensures faults == old(faults) + failed && Among(failed, sys.lapses, |old(sys.lapses)|)
      ensures torn.None? && (StoredMode(cfg.mode).WireGuard? || WG_IFACE !in old(sys.k)) ==> failed == []
      ensures old(node.leafMode) && cfg.enabled ==>
                && torn == (if leaf.registered then leaf.commit.torn else None)
                && (leaf.registered ==> CommitOk(leaf.commit, cfg, leaf.secured, node.h, node.start, node.log))
      ensures !old(node.leafMode) && cfg.enabled ==> torn.Some?
      ensures if old(node.leafMode) then LeafActed(leaf, torn, cfg, old(leafActive), old(Left()), old(sys.k), sys.k, wanif, sys.steady)
              else !leaf.registered && Forgets(torn, cfg, o.reloads, node.h, node.start, node.log)
    {
      leaf, torn, failed := Take(cfg, derive, o);
      BreaksExactly(torn, wanif, sys.reserved, old(sys.k), old(sys.history), sys.history, sys.lapses, node.h, node.start, node.log);
    }

    /** Which cached peers are in the kernel, exactly, at any point of any run of passes: those that were
        not spoiled since they were last set. */
    lemma CacheExact()
      requires Wired()
      ensures wg.Exact()
    {
      PeerCache.OfLeafDetermined(wg.changes);
      wg.ExactIfDetermined();
    }

    /** Any number of passes, with handlers anywhere in between: after every command so far the bridge was
        exclusive, if and only if no teardown gave the uplink back beside a port that it could not remove. */
    method Run(n: nat, derive: (string, string) -> (Bytes, Bytes, Bytes)) returns (ghost ps: seq<AnyPass>)
      requires Valid() && AllExclusive(wanif, sys.history)
      modifies this, sys, mka, wg, node
      ensures Valid() && |ps| == n && wg.Exact()
      ensures AllExclusive(wanif, sys.history) <==> NoneBreaks(ps, wanif, sys.lapses)
    {
      ps := [];
      for i := 0 to n
        invariant Valid() && |ps| == i && Dated(ps, |sys.lapses|)
        invariant AllExclusive(wanif, sys.history) <==> NoneBreaks(ps, wanif, sys.lapses)
      {
        var o: Outside := *;
        ps := Extend(ps, derive, o);
      }
      CacheExact();
    }

    /** One more pass. */
    method Extend(ghost ps: seq<AnyPass>, derive: (string, string) -> (Bytes, Bytes, Bytes), o: Outside) returns (ghost more: seq<AnyPass>)
      requires Valid() && Dated(ps, |sys.lapses|)
      requires AllExclusive(wanif, sys.history) <==> NoneBreaks(ps, wanif, sys.lapses)
      modifies this, sys, mka, wg, node
      ensures Valid() && |more| == |ps| + 1 && Dated(more, |sys.lapses|)
      ensures AllExclusive(wanif, sys.history) <==> NoneBreaks(more, wanif, sys.lapses)
    {
      ghost var p := Reconcile(derive, o);
      RunLonger(ps, p, wanif, old(sys.history), sys.history, old(sys.lapses), sys.lapses);
      more := ps + [p];
    }
  }

  /** What a pass over a leaf did, from table `a` to `b`: it acts on an association that is confirmed, was
      acted on before, or has waited long enough. Then it takes the uplink off the bridge, and what it
      calls secured is bridged; for a disabled record it undoes what is left. */
  ghost predicate LeafActed(leaf: LeafPass, torn: Option<Teardown>, cfg: LeafSide, active: bool, left: bool,
                            a: Kernel, b: Kernel, wanif: string, steady: bool) {
    && (leaf.registered <==> cfg.enabled && (active || cfg.confirmed || leaf.began - cfg.enabledAt * 1000 >= APPLY_DELAY))
    && (leaf.registered && !Rejoined(torn) && steady && ValidIface(wanif) && wanif in a ==> !Joined(b, wanif))
    && (leaf.registered && leaf.secured ==> Bridged(cfg, leaf.link.name, leaf.link.seen || steady, b, wanif))
    && (!cfg.enabled ==> (torn.Some? <==> left))
  }

  /** After its teardown a router that is no leaf forgets the association of its record, and when the record
      can be read then, it is off. */
  ghost predicate Forgets(torn: Option<Teardown>, cfg: LeafSide, reloads: bool, h: Codec.Hmac, start: Node, log: seq<Event>) {
    torn.Some? && cfg.enabled && torn.value.roleAt <= |log| && !Run(h, start, log[..torn.value.roleAt]).leafMode ==>
      && torn.value.roleAt < |log| && log[|log| - 1] == LeaveLeaf(reloads)
      && (reloads ==> !Run(h, start, log).cfg.enabled)
  }

  /** A pass of either role: whether it could read the record, where in the log it read the record and
      its role, and what it did. */
  datatype AnyPass = AnyPass(
    readable: bool, readAt: nat, roleAt: nat, snapshot: LeafSide, asLeaf: bool, leaf: LeafPass,
    torn: Option<Teardown>, faults: seq<Lapse>)

  /** The contract of a pass that read the record, from log position `from` on: the uplink rejoins only
      by a teardown, of a leaf whose record was disabled or which this pass cleared, or of a router out
      of leaf mode - and then by the teardown's own leaf-mode check alone. */
  ghost predicate PassOk(p: AnyPass, from: nat, wanif: string, reserved: set<string>, lapses: seq<Lapse>,
                         h: Codec.Hmac, start: Node, log: seq<Event>) {
    && from <= p.readAt <= p.roleAt <= |log|
    && p.snapshot == Run(h, start, log[..p.readAt]).cfg
    && p.asLeaf == Run(h, start, log[..p.roleAt]).leafMode
    && (p.torn.Some? ==> TeardownOk(p.torn.value, wanif, reserved, lapses, h, start, log) && p.roleAt <= p.torn.value.roleAt)
    && (p.asLeaf && p.snapshot.enabled ==>
          p.torn == (if p.leaf.registered then p.leaf.commit.torn else None)
          && (p.leaf.registered ==> CommitOk(p.leaf.commit, p.snapshot, p.leaf.secured, h, start, log)))
    && (!p.asLeaf && p.snapshot.enabled ==> p.torn.Some?)
  }

  predicate AllExclusive(wanif: string, history: seq<Kernel>) {
    forall i {:trigger Exclusive(history[i], wanif)} :: 0 <= i < |history| ==> Exclusive(history[i], wanif)
  }

  ghost predicate PassBreaks(p: AnyPass, wanif: string, lapses: seq<Lapse>) {
    p.torn.Some? && Breaks(p.torn.value, wanif, lapses)
  }

  /** From the tables `before` on to `history`, exclusiveness lasted exactly if this teardown, if any, did
      not break it. */
  ghost predicate Decided(torn: Option<Teardown>, wanif: string, before: seq<Kernel>, history: seq<Kernel>, lapses: seq<Lapse>) {
    && (AllExclusive(wanif, history)
        <==> AllExclusive(wanif, before) && !(torn.Some? && Breaks(torn.value, wanif, lapses)))
    && (torn.Some? ==> torn.value.from <= torn.value.to <= |lapses|)
  }

  ghost predicate NoneBreaks(ps: seq<AnyPass>, wanif: string, lapses: seq<Lapse>) {
    forall i {:trigger PassBreaks(ps[i], wanif, lapses)} :: 0 <= i < |ps| ==> !PassBreaks(ps[i], wanif, lapses)
  }

  predicate DatedPass(p: AnyPass, n: nat) {
    p.torn.Some? ==> p.torn.value.from <= p.torn.value.to <= n
  }

  predicate Dated(ps: seq<AnyPass>, n: nat) {
    forall i {:trigger DatedPass(ps[i], n)} :: 0 <= i < |ps| ==> DatedPass(ps[i], n)
  }

  /** Calls that fail later do not change what a teardown did. */
  lemma BreaksLater(p: AnyPass, wanif: string, l0: seq<Lapse>, l1: seq<Lapse>)
    requires l0 <= l1 && DatedPass(p, |l0|)
    ensures PassBreaks(p, wanif, l0) <==> PassBreaks(p, wanif, l1)
  {
    if p.torn.Some? {
      var t := p.torn.value;
      assert l1[t.from..t.to] == l0[t.from..t.to];
      if n :| StuckPort(t, wanif, l0, n) {
        assert StuckPort(t, wanif, l1, n);
      }
      if n :| StuckPort(t, wanif, l1, n) {
        assert StuckPort(t, wanif, l0, n);
      }
    }
  }

  lemma BreaksExactly(torn: Option<Teardown>, wanif: string, reserved: set<string>, a: Kernel, before: seq<Kernel>, history: seq<Kernel>,
                      lapses: seq<Lapse>, h: Codec.Hmac, start: Node, log: seq<Event>)
    requires |before| > 0 && before <= history && wanif != WG_IFACE && before[|before| - 1] == a
    requires Guarded(a, history, |before|, wanif, Rejoined(torn))
    requires torn.Some? ==> TeardownOk(torn.value, wanif, reserved, lapses, h, start, log)
                            && torn.value.after == history[|history| - 1]
    ensures Decided(torn, wanif, before, history, lapses)
  {
    var last := |history| - 1;
    if Rejoined(torn) {
      TeardownOutcome(torn.value, wanif, reserved, lapses, h, start, log);
      assert Breaks(torn.value, wanif, lapses) <==> !Exclusive(history[last], wanif);
    }
    if AllExclusive(wanif, before) && !(torn.Some? && Breaks(torn.value, wanif, lapses)) {
      assert Exclusive(before[|before| - 1], wanif);
      forall i | 0 <= i < |history| ensures Exclusive(history[i], wanif) {
        if i < |before| {
          assert Exclusive(before[i], wanif) && history[i] == before[i];
        }
      }
    }
    if AllExclusive(wanif, history) {
      assert Exclusive(history[last], wanif);
      forall i | 0 <= i < |before| ensures Exclusive(before[i], wanif) {
        assert Exclusive(history[i], wanif) && history[i] == before[i];
      }
    }
  }

  lemma RunLonger(ps: seq<AnyPass>, p: AnyPass, wanif: string, h0: seq<Kernel>, h1: seq<Kernel>, l0: seq<Lapse>, l1: seq<Lapse>)
    requires Dated(ps, |l0|) && l0 <= l1 && Decided(p.torn, wanif, h0, h1, l1)
    requires AllExclusive(wanif, h0) <==> NoneBreaks(ps, wanif, l0)
    ensures Dated(ps + [p], |l1|)
    ensures AllExclusive(wanif, h1) <==> NoneBreaks(ps + [p], wanif, l1)
  {
    var more := ps + [p];
    forall i | 0 <= i < |ps|
      ensures DatedPass(more[i], |l1|) && (PassBreaks(ps[i], wanif, l0) <==> PassBreaks(more[i], wanif, l1))
    {
      assert DatedPass(ps[i], |l0|) && more[i] == ps[i];
      BreaksLater(ps[i], wanif, l0, l1);
    }
    assert more[|ps|] == p;
    if NoneBreaks(more, wanif, l1) {
      assert !PassBreaks(more[|ps|], wanif, l1);
      forall i | 0 <= i < |ps| ensures !PassBreaks(ps[i], wanif, l0) {
        assert !PassBreaks(more[i], wanif, l1);
      }
    }
  }

  /** A pass that read record and role after these parts of the log meets its contract. */
  lemma PassDone(p: AnyPass, from: nat, log1: seq<Event>, log2: seq<Event>, wanif: string, reserved: set<string>,
                 lapses: seq<Lapse>, h: Codec.Hmac, start: Node, log: seq<Event>)
    requires from <= |log1| && log1 <= log2 <= log && p.readAt == |log1| && p.roleAt == |log2|
    requires p.snapshot == Run(h, start, log1).cfg && p.asLeaf == Run(h, start, log2).leafMode
    requires p.torn.Some? ==> TeardownOk(p.torn.value, wanif, reserved, lapses, h, start, log) && p.roleAt <= p.torn.value.roleAt
    requires p.asLeaf && p.snapshot.enabled ==>
               p.torn == (if p.leaf.registered then p.leaf.commit.torn else None)
               && (p.leaf.registered ==> CommitOk(p.leaf.commit, p.snapshot, p.leaf.secured, h, start, log))
    requires !p.asLeaf && p.snapshot.enabled ==> p.torn.Some?
    ensures PassOk(p, from, wanif, reserved, lapses, h, start, log)
  {
    assert log[..p.readAt] == log1 && log[..p.roleAt] == log2;
  }

  /** Why a pass gave the plaintext uplink back: it read a disabled record; it cleared an association
      that was still the unconfirmed one it read; or leaf mode was switched on between its role check
      and its teardown. */
  lemma RejoinCauses(p: AnyPass, from: nat, wanif: string, reserved: set<string>, lapses: seq<Lapse>,
                     h: Codec.Hmac, start: Node, log: seq<Event>)
    requires PassOk(p, from, wanif, reserved, lapses, h, start, log) && Rejoined(p.torn)
    ensures || !p.snapshot.enabled
            || (p.asLeaf && p.leaf.registered && ClearedAt(h, start, log, p.leaf.commit.at, p.snapshot))
            || (!p.asLeaf && exists i :: p.roleAt <= i < p.torn.value.roleAt && log[i] == SetLeafMode(true))
  {
    if !p.asLeaf {
      var es := log[p.roleAt..p.torn.value.roleAt];
      assert log[..p.torn.value.roleAt] == log[..p.roleAt] + es;
      RunAppend(h, start, log[..p.roleAt], es);
      var i := ModeRun(h, Run(h, start, log[..p.roleAt]), es);
      assert log[p.roleAt + i] == es[i];
    }
  }

  /** Leaf mode comes on only by being switched on. */
  lemma {:induction false} ModeRun(h: Codec.Hmac, n: Node, es: seq<Event>) returns (i: nat)
    requires !n.leafMode && Run(h, n, es).leafMode
    ensures i < |es| && es[i] == SetLeafMode(true)
    decreases |es|
  {
    if Step(h, n, es[0]).leafMode {
      i := 0;
    } else {
      i := ModeRun(h, Step(h, n, es[0]), es[1..]);
      i := i + 1;
    }
  }

  lemma ModeSwitched(node: LeafNode, before: seq<Event>, was: Node)
    requires node.Valid() && before <= node.log && was == Run(node.h, node.start, before)
    requires !was.leafMode && node.leafMode
    ensures exists i :: |before| <= i < |node.log| && node.log[i] == SetLeafMode(true)
  {
    var es := node.log[|before|..];
    assert node.log == before + es;
    RunAppend(node.h, node.start, before, es);
    var i := ModeRun(node.h, was, es);
    assert node.log[|before| + i] == es[i];
  }

  /** What a pass over a leaf did: whether it got past the grace period, when it began, whether it
      found the link secured (with which port), its commit, its teardown if any, and the failures of
      leaving WireGuard and of that teardown. */
  datatype LeafPass = LeafPass(
    registered: bool, began: int, secured: bool, link: Link, commit: Commit,
    torn: Option<Teardown>, first: seq<Lapse>, second: seq<Lapse>)

  const NO_PASS := LeafPass(false, 0, false, NO_LINK, Commit(0, 0, 0, None), None, [], [])

  predicate AllSafe(wanif: string, history: seq<Kernel>) {
    forall i :: 0 <= i < |history| ==> Exclusive(history[i], wanif) && VxNeedsWg(history[i])
  }

  /** A safe run stays safe through kept steps. */
  lemma KeptSafe(wanif: string, before: seq<Kernel>, a: Kernel, history: seq<Kernel>)
    requires before <= history && |before| > 0 && before[|before| - 1] == a
    requires AllSafe(wanif, before) && AllKept(wanif, true, a, history, |before|)
    ensures AllSafe(wanif, history)
  {
    forall i | 0 <= i < |history| ensures Exclusive(history[i], wanif) && VxNeedsWg(history[i]) {
      if i < |before| {
        assert history[i] == before[i];
      } else {
        assert KeepStep(wanif, true, a, history[i]);
        assert Exclusive(before[|before| - 1], wanif);
      }
    }
  }

  /** The uplink may rejoin once no encrypted port exists. */
  lemma RejoinSafe(wanif: string, k: Kernel)
    requires NoOther(k, wanif, None) && VXLAN_LEAF !in k && WGKind(k) && wanif != VXLAN_LEAF && wanif != WG_IFACE
    ensures wanif in k ==> Exclusive(Enslaved(k, wanif, BRIDGE_IFACE), wanif) && VxNeedsWg(Enslaved(k, wanif, BRIDGE_IFACE))
                           && WGKind(Enslaved(k, wanif, BRIDGE_IFACE))
    ensures Exclusive(k, wanif) && VxNeedsWg(k)
  {
    if wanif in k {
      var b := Enslaved(k, wanif, BRIDGE_IFACE);
      forall n | n in b ensures !Encrypted(b, wanif, n) {
        assert !Other(k[n], wanif, None);
      }
    }
  }

  /** Without a device left over, nothing encrypted and no WireGuard device is there. */
  lemma TornClean(q: Kernel, wanif: string, left: set<string>)
    requires left == {}
    ensures var k := TornTable(q, wanif, left); NoOther(k, wanif, None) && VXLAN_LEAF !in k && WG_IFACE !in k
  {
  }

  /** When a teardown ends with an exclusive bridge, for every table it may find: exactly if the uplink
      is off the bridge afterwards, or no device that it failed to remove was an encrypted port of the
      bridge in the table it listed. */
  lemma TeardownExclusive(q: Kernel, wanif: string, left: set<string>, joined: bool)
    requires wanif in q && !Encrypted(q, wanif, wanif) && wanif != WG_IFACE
    ensures var k := AfterTeardown(q, wanif, left, joined);
            Exclusive(k, wanif)
            <==> !Joined(k, wanif) || forall n :: n in left && n in q && Encrypted(q, wanif, n) ==> q[n].master != BRIDGE_IFACE
  {
    var t, k := TornTable(q, wanif, left), AfterTeardown(q, wanif, left, joined);
    forall n | n in t && n != wanif
      ensures n in k && k[n] == q[n] && Encrypted(k, wanif, n) == Encrypted(q, wanif, n)
    {
    }
    assert wanif in k && !Encrypted(k, wanif, wanif);
    if n :| n in left && n in q && Encrypted(q, wanif, n) && q[n].master == BRIDGE_IFACE {
      assert n in t && n in k && Encrypted(k, wanif, n) && k[n].master == BRIDGE_IFACE;
    }
  }

  /** An encrypted port of the bridge that the teardown found and failed to remove. */
  predicate StuckPort(t: Teardown, wanif: string, lapses: seq<Lapse>, n: string)
    requires t.from <= t.to <= |lapses|
  {
    n in t.listed && Encrypted(t.listed, wanif, n) && t.listed[n].master == BRIDGE_IFACE && Lapsed(lapses[t.from..t.to], n)
  }

  /** A teardown breaks exclusiveness exactly if the uplink ends up on the bridge and some port is stuck. */
  lemma TeardownDecides(t: Teardown, wanif: string, reserved: set<string>, lapses: seq<Lapse>,
                        h: Codec.Hmac, start: Node, log: seq<Event>)
    requires TeardownOk(t, wanif, reserved, lapses, h, start, log) && ValidIface(wanif) && wanif != WG_IFACE
    requires wanif in t.listed && !Encrypted(t.listed, wanif, wanif)
    ensures !Exclusive(t.after, wanif) <==> Joined(t.after, wanif) && exists n :: StuckPort(t, wanif, lapses, n)
  {
    var left := LeftOf(t.listed, lapses[t.from..t.to]);
    TeardownExclusive(t.listed, wanif, left, t.joined);
    if n :| StuckPort(t, wanif, lapses, n) {
      assert n in left;
    }
    if n :| n in left && n in t.listed && Encrypted(t.listed, wanif, n) && t.listed[n].master == BRIDGE_IFACE {
      assert StuckPort(t, wanif, lapses, n);
    }
  }

  /** The same, for an uplink that is there afterwards. */
  lemma TeardownOutcome(t: Teardown, wanif: string, reserved: set<string>, lapses: seq<Lapse>,
                        h: Codec.Hmac, start: Node, log: seq<Event>)
    requires TeardownOk(t, wanif, reserved, lapses, h, start, log)
    requires wanif != WG_IFACE
    ensures ValidIface(wanif) && wanif in t.after ==>
              (!Exclusive(t.after, wanif) <==> Joined(t.after, wanif) && exists n :: StuckPort(t, wanif, lapses, n))
  {
    if ValidIface(wanif) && wanif in t.after {
      assert wanif in t.listed;
      TeardownDecides(t, wanif, reserved, lapses, h, start, log);
    }
  }

  /** A teardown that left `k1` before the rejoin meets its contract. */
  lemma TeardownDone(t: Teardown, k1: Kernel, l1: seq<Lapse>, wanif: string, reserved: set<string>, lapses: seq<Lapse>,
                     h: Codec.Hmac, start: Node, log: seq<Event>)
    requires Quiet(reserved, t.before, t.listed) && t.from <= t.to == |l1| && l1 <= lapses
    requires t.end == |lapses| && t.roleAt == |log|
    requires ValidIface(wanif) ==> k1 == TornTable(t.listed, wanif, LeftOf(t.listed, l1[t.from..]))
    requires t.rejoined <==> ValidIface(wanif) && Run(h, start, log).leafMode && BRIDGE_IFACE in t.after && lapses == l1
    requires (t.joined ==> t.rejoined && wanif in k1) && t.after == if t.joined then Enslaved(k1, wanif, BRIDGE_IFACE) else k1
    requires wanif in reserved && wanif != VXLAN_LEAF && wanif != WG_IFACE
    requires forall n :: n in reserved && n in t.listed ==> !t.listed[n].kind.SecY?
    ensures TeardownOk(t, wanif, reserved, lapses, h, start, log)
    ensures ValidIface(wanif) && wanif in t.after ==>
              (!Exclusive(t.after, wanif) <==> Joined(t.after, wanif) && exists n :: StuckPort(t, wanif, lapses, n))
  {
    assert lapses[t.from..t.to] == l1[t.from..] && log[..|log|] == log;
    TeardownOutcome(t, wanif, reserved, lapses, h, start, log);
  }

  /** In terms of the table before the teardown: if the bridge ends up holding both, then some device it
      failed to remove was an encrypted port of the bridge before. */
  lemma TeardownBlame(t: Teardown, wanif: string, reserved: set<string>, lapses: seq<Lapse>,
                      h: Codec.Hmac, start: Node, log: seq<Event>) returns (n: string)
    requires TeardownOk(t, wanif, reserved, lapses, h, start, log) && ValidIface(wanif) && wanif != WG_IFACE
    requires wanif in t.listed && !Encrypted(t.listed, wanif, wanif) && !Exclusive(t.after, wanif)
    requires VXLAN_LEAF in t.before && VXLAN_LEAF in t.listed ==> !t.before[VXLAN_LEAF].kind.SecY?
    ensures Lapsed(lapses[t.from..t.to], n) && n in t.before && Encrypted(t.before, wanif, n)
            && t.before[n].master == BRIDGE_IFACE
  {
    var left := LeftOf(t.listed, lapses[t.from..t.to]);
    TeardownExclusive(t.listed, wanif, left, t.joined);
    n :| n in left && n in t.listed && Encrypted(t.listed, wanif, n) && t.listed[n].master == BRIDGE_IFACE;
    QuietIsCalm(reserved, t.before, t.listed);
  }

  const UPLINK := "eth0"

  /** A leaf's table with a protected MACsec device on the bridge. */
  const BRIDGED: Kernel := map[
    UPLINK := Port(Plain, "", false, Nic(1500, 0), [], {}, {}, {}),
    BRIDGE_IFACE := Port(BridgeDev, "", false, Nic(1500, 0), [], {}, {}, {}),
    "macsec0" := Port(SecY(UPLINK, 1, Security(true, true, true, true, "strict")), BRIDGE_IFACE, false, Nic(1468, 0), [], {}, {}, {})]

  /** One failed deletion inside a teardown is enough. From this table, by its contract, a teardown in
      leaf mode whose deletion of the MACsec device fails leaves the uplink beside it on the bridge; the
      same teardown without the failure leaves the bridge exclusive. */
  lemma FailedDeletionExample(h: Codec.Hmac, n: Node, fails: bool)
    requires n.leafMode
    ensures var lapses := if fails then [NotDeleted("macsec0")] else [];
            var after := AfterTeardown(BRIDGED, UPLINK, LeftOf(BRIDGED, lapses), true);
            var t := Teardown(BRIDGED, BRIDGED, after, 0, |lapses|, |lapses|, 0, true, true);
            && TeardownOk(t, UPLINK, {UPLINK, BRIDGE_IFACE}, lapses, h, n, [])
            && Exclusive(BRIDGED, UPLINK) && Joined(after, UPLINK) && (Exclusive(after, UPLINK) <==> !fails)
  {
    var lapses := if fails then [NotDeleted("macsec0")] else [];
    NoLapses();
    assert fails ==> LapseOn(lapses[0], "macsec0");
    assert forall m :: Lapsed(lapses, m) <==> fails && m == "macsec0";
    var left := LeftOf(BRIDGED, lapses);
    assert left == if fails then {"macsec0"} else {};
    TeardownExclusive(BRIDGED, UPLINK, left, true);
    assert Encrypted(BRIDGED, UPLINK, "macsec0") && BRIDGED["macsec0"].master == BRIDGE_IFACE;
    assert lapses[0..|lapses|] == lapses;
  }

  /** A pass that saw the router out of leaf mode gives the uplink of a confirmed association back, when
      leaf mode is on again at its teardown's check: this run of events and this pass meet the contract
      of a pass, and the association is still stored and confirmed at the end. */
  lemma ModeFlipExample(h: Codec.Hmac, n: Node)
    requires !n.leafMode && n.cfg.enabled && n.cfg.confirmed
    ensures var log := [SetLeafMode(true)];
            var after := AfterTeardown(BRIDGED, UPLINK, {}, true);
            var t := Teardown(BRIDGED, BRIDGED, after, 0, 0, 0, 1, true, true);
            var p := AnyPass(true, 0, 0, n.cfg, false, NO_PASS, Some(t), []);
            && PassOk(p, 0, UPLINK, {UPLINK, BRIDGE_IFACE}, [], h, n, log)
            && !Joined(BRIDGED, UPLINK) && Joined(after, UPLINK) && Run(h, n, log).cfg == n.cfg
  {
    var log := [SetLeafMode(true)];
    RunSnoc(h, n, [], SetLeafMode(true));
    assert [] + log == log && log[..1] == log && log[..0] == [];
    NoLapses();
    assert LeftOf(BRIDGED, []) == {};
  }

  /** Exclusiveness in `a` lasts from index `from` on, up to the rejoin that comes last, if any. */
  predicate Guarded(a: Kernel, history: seq<Kernel>, from: nat, wanif: string, rejoined: bool) {
    forall i :: from <= i < |history| - (if rejoined then 1 else 0) ==> Exclusive(a, wanif) ==> Exclusive(history[i], wanif)
  }

  lemma GuardedLater(a: Kernel, b: Kernel, from: nat, before: seq<Kernel>, history: seq<Kernel>, wanif: string, rejoined: bool)
    requires 0 < from <= |before| && before <= history && before[from - 1] == a && before[|before| - 1] == b
    requires Guarded(a, before, from, wanif, false) && Guarded(b, history, |before|, wanif, rejoined)
    requires Unjoined(a, before, from, wanif) && (!rejoined ==> Unjoined(b, history, |before|, wanif))
    ensures Guarded(a, history, from, wanif, rejoined) && (!rejoined ==> Unjoined(a, history, from, wanif))
  {
    var n := |history| - if rejoined then 1 else 0;
    assert |before| > from ==> Exclusive(a, wanif) ==> Exclusive(before[|before| - 1], wanif);
    assert |before| > from ==> Joined(before[|before| - 1], wanif) ==> Joined(a, wanif);
    forall i | from <= i < n && Exclusive(a, wanif)
      ensures Exclusive(history[i], wanif)
    {
      if i < |before| {
        assert before[i] == history[i];
      }
    }
    forall i | from <= i < |history| && !rejoined && Joined(history[i], wanif)
      ensures Joined(a, wanif)
    {
      if i < |before| {
        assert before[i] == history[i];
      }
    }
  }

  /** From index `from` on, the uplink was on the bridge only if it was there in `a`. */
  predicate Unjoined(a: Kernel, history: seq<Kernel>, from: nat, wanif: string) {
    forall i :: from <= i < |history| ==> Joined(history[i], wanif) ==> Joined(a, wanif)
  }

  /** How the commit of a pass went: the log length when it began, the position of its commit event
      (if any), the time it read, and the teardown that followed a cleared record. */
  datatype Commit = Commit(from: nat, at: nat, ended: int, torn: Option<Teardown>)

  /** The event at position `i` of the log is a revert that clears what is stored at that point. */
  ghost predicate ClearedAt(h: Codec.Hmac, start: Node, log: seq<Event>, i: nat, snapshot: LeafSide) {
    i < |log| && log[i] == Revert(snapshot) && Clears(Run(h, start, log[..i]), snapshot)
  }

  /** The contract of a commit: nothing for a confirmed snapshot; a confirmation of a secured one;
      a revert of an unsecured one from the deadline on and not before. It clears exactly when the
      stored association is still the unconfirmed one of the snapshot. */
  ghost predicate CommitOk(p: Commit, cfg: LeafSide, secured: bool, h: Codec.Hmac, start: Node, log: seq<Event>) {
    var overdue := p.ended - cfg.enabledAt * 1000 >= CONFIRM_TIMEOUT;
    if cfg.confirmed then NoCommit(log, p.from) && p.torn.None?
    else if secured then p.from <= p.at < |log| && log[p.at] == Confirm(cfg) && p.torn.None?
    else if overdue then
      p.from <= p.at < |log| && log[p.at] == Revert(cfg) && (p.torn.Some? <==> ClearedAt(h, start, log, p.at, cfg))
    else NoCommit(log, p.from) && p.torn.None?
  }

  /** What a pass that calls itself secured has put on the bridge: a protected MACsec device of the
      uplink, or the tunnel port - unless that could not be looked up. */
  predicate Bridged(cfg: LeafSide, name: string, seen: bool, k: Kernel, wanif: string) {
    if StoredMode(cfg.mode).WireGuard? then seen ==> VXLAN_LEAF in k && k[VXLAN_LEAF].master == BRIDGE_IFACE
    else name in k && k[name].kind.SecY? && SecuredPort(k, wanif, k[name].kind.sci, name) && PortOf(k[name].kind.sci) == LEAF_PORT
  }

  /** Between these positions of the log handlers ran, and then keys were armed. */
  ghost predicate Armed(log: seq<Event>, from: nat, to: nat, keys: Codec.CtlKeys, mac: Bytes) {
    && from < to <= |log| && log[to - 1] == Arm(keys, mac)
    && forall i :: from <= i < to - 1 ==> IsHandler(log[i])
  }

  /** Since index `from`, handlers and the arming or dropping of keys, but no commit of a pass. */
  ghost predicate NoCommit(log: seq<Event>, from: nat) {
    forall i :: from <= i < |log| ==> IsHandler(log[i]) || log[i].Arm? || log[i].Disarm?
  }

  lemma OthersNoCommit(log: seq<Event>, before: seq<Event>, es: seq<Event>)
    requires log == before + es && forall e :: e in es ==> Foreign(Pass, e)
    ensures NoCommit(log, |before|) && forall i :: |before| <= i < |log| ==> IsHandler(log[i])
  {
    forall i | |before| <= i < |log| ensures IsHandler(log[i]) {
      assert log[i] == es[i - |before|];
      assert log[i] in es;
    }
  }

  /** What keeps the tunnel port unconditionally keeps it under any condition. */
  lemma KeptWeaker(wanif: string, v: bool, a: Kernel, b: Kernel, history: seq<Kernel>, from: nat)
    requires KeepStep(wanif, true, a, b) && AllKept(wanif, true, a, history, from)
    ensures KeepStep(wanif, v, a, b) && AllKept(wanif, v, a, history, from)
  {
  }

  /** The named device is the uplink's MACsec device of this identifier, protects what it forwards,
      and is a port of the bridge. */
  predicate SecuredPort(k: Kernel, wanif: string, sci: nat, name: string) {
    name in k && IsSecY(k[name], wanif, sci) && k[name].kind.security.Forwarding() && k[name].master == BRIDGE_IFACE
  }

  lemma CalmKeepsAll(wanif: string, a: Kernel, history: seq<Kernel>, from: nat)
    requires OnlyCalm(a, history, from)
    ensures forall i :: from <= i < |history| ==>
              && (Joined(history[i], wanif) ==> Joined(a, wanif))
              && (Exclusive(a, wanif) ==> Exclusive(history[i], wanif))
              && (WGKind(a) ==> WGKind(history[i]))
  {
    forall i | from <= i < |history|
      ensures (Joined(history[i], wanif) ==> Joined(a, wanif)) && (Exclusive(a, wanif) ==> Exclusive(history[i], wanif))
    {
      CalmKeeps(wanif, a, history[i]);
    }
  }

  lemma QuietKeepsOne(wanif: string, r: set<string>, a: Kernel, b: Kernel)
    requires Quiet(r, a, b) && {VXLAN_LEAF, WG_IFACE} <= r
    requires forall n :: n in r && n in a ==> !a[n].kind.SecY?
    ensures KeepStep(wanif, true, a, b)
  {
    QuietIsCalm(r, a, b);
    CalmKeeps(wanif, a, b);
    assert VXLAN_LEAF in r && WG_IFACE in r;
  }

  /** No tunnel port and no WireGuard device is left, if the one stood on the other. */
  predicate NoTunnel(a: Kernel, b: Kernel) {
    WG_IFACE !in b && (VXLAN_LEAF in a && WG_IFACE in a ==> VXLAN_LEAF !in b)
  }

  /** The same devices, each what it was. */
  ghost predicate SameKinds(a: Kernel, b: Kernel) {
    forall n :: (n in a <==> n in b) && (n in a ==> b[n].kind == a[n].kind)
  }

  /** The device that was picked from a listing forwards, if all candidates do that are there now. */
  lemma FoundProtected(q: Kernel, k: Kernel, now: Kernel, links: seq<SecYLink>, wanif: string, sci: nat, link: Option<SecYLink>)
    requires Lists(q, links) && SameKinds(k, now)
    requires forall n :: n in k ==> n in q && k[n] == q[n]
    requires forall n :: n in q && IsSecY(q[n], wanif, sci) ==> n in k
    requires link.Some? <==> exists i :: 0 <= i < |links| && links[i].parent == wanif && links[i].sci == sci
    requires link.Some? ==> link.value in links && link.value.parent == wanif && link.value.sci == sci
    ensures Protected(now, wanif, sci) ==> link.Some? && link.value.security.Forwarding()
  {
    if Protected(now, wanif, sci) {
      var n :| n in now && IsSecY(now[n], wanif, sci);
      assert n in k && IsSecY(q[n], wanif, sci) && Named(links, n);
      var i :| 0 <= i < |links| && links[i].name == n;
      assert Listed(q, links[i]) && links[i].parent == wanif && links[i].sci == sci;
      var j :| 0 <= j < |links| && links[j] == link.value;
      assert Listed(q, links[j]) && IsSecY(now[links[j].name], wanif, sci);
    }
  }

  predicate Doomed(link: SecYLink, wanif: string, keep: Option<nat>) {
    link.parent == wanif && Some(link.sci) != keep
  }

  /** A MACsec device of the uplink with another identifier. */
  predicate Other(p: Port, wanif: string, keep: Option<nat>) {
    p.kind.SecY? && p.kind.parent == wanif && Some(p.kind.sci) != keep
  }

  predicate NoOther(k: Kernel, wanif: string, keep: Option<nat>) {
    forall n :: n in k ==> !Other(k[n], wanif, keep)
  }
}
