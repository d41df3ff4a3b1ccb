/** The main router's bridge of encrypted links: which links are admitted to it and reported as
    secured, and what its guard lets through. */
module MeshBridge {
  import opened Wrappers
  import opened Mesh
  import opened LinkSystem
  import opened GuardCache
  import opened MtuMath
  import Names

  // ---- The guard ----

  /** A leaf's MAC address and the only bridge port it may come from; no port while it has none. */
  datatype Pin = Pin(port: string, mac: Bytes)

  /** Frames on the bridge from this source are dropped, except those that enter by one port. */
  datatype Rule = DropSource(mac: Bytes, except: Option<string>)

  datatype Table = Table(input: seq<Rule>, dropForward: bool)

  datatype Ruleset = BridgeGuard(own: Bytes, pins: seq<Pin>)

  predicate PinOk(p: Pin) {
    |p.mac| == 6 && (p.port == "" || ValidIface(p.port))
  }

  predicate PinsOk(pins: seq<Pin>) {
    forall i :: 0 <= i < |pins| ==> PinOk(pins[i])
  }

  function PinRule(p: Pin): Rule {
    DropSource(p.mac, if p.port == "" then None else Some(p.port))
  }

  /** The table a ruleset makes. */
  function Guard(r: Ruleset): Table {
    Table([DropSource(r.own, None)] + seq(|r.pins|, i requires 0 <= i < |r.pins| => PinRule(r.pins[i])), true)
  }

  method RenderBridgeGuard(own: Bytes, pins: seq<Pin>) returns (r: Option<Table>)
    ensures r.Some? <==> PinsOk(pins)
    ensures r.Some? ==> r.value == Guard(BridgeGuard(own, pins))
  {
    var input := [DropSource(own, None)];
    for i := 0 to |pins|
      invariant forall j :: 0 <= j < i ==> PinOk(pins[j])
      invariant |input| == i + 1 && input[0] == DropSource(own, None)
      invariant forall j :: 0 <= j < i ==> input[j + 1] == PinRule(pins[j])
    {
      if |pins[i].mac| != 6 || (pins[i].port != "" && !ValidIface(pins[i].port)) {
        return None;
      }
      input := input + [DropSource(pins[i].mac, if pins[i].port == "" then None else Some(pins[i].port))];
    }
    assert input == Guard(BridgeGuard(own, pins)).input;
    r := Some(Table(input, true));
  }

  predicate Drops(rule: Rule, port: string, source: Bytes) {
    rule.mac == source && (rule.except.None? || rule.except.value != port)
  }

  /** A frame entering the bridge by `port` gets past the input chain. */
  predicate Admits(t: Table, port: string, source: Bytes) {
    forall i :: 0 <= i < |t.input| ==> !Drops(t.input[i], port, source)
  }

  /** The guard admits a frame exactly when its source is not the router's own address and it enters
      by the port of every pin of that source; and it never forwards between ports. */
  lemma AdmitsExactly(r: Ruleset, port: string, source: Bytes)
    ensures Admits(Guard(r), port, source)
            <==> source != r.own && forall i :: 0 <= i < |r.pins| && r.pins[i].mac == source ==>
                                              r.pins[i].port != "" && r.pins[i].port == port
    ensures Guard(r).dropForward
  {
    var t := Guard(r);
    assert t.input[0] == DropSource(r.own, None);
    forall i | 0 <= i < |r.pins|
      ensures t.input[i + 1] == PinRule(r.pins[i])
    {
    }
    if Admits(t, port, source) {
      assert !Drops(t.input[0], port, source);
      forall i | 0 <= i < |r.pins| && r.pins[i].mac == source
        ensures r.pins[i].port != "" && r.pins[i].port == port
      {
        assert !Drops(t.input[i + 1], port, source);
      }
    }
  }

  /** A pinned address cannot be borrowed: if two pins share it, it is admitted nowhere. */
  lemma SharedAddressBlocked(r: Ruleset, i: nat, j: nat, port: string)
    requires i < |r.pins| && j < |r.pins| && r.pins[i].mac == r.pins[j].mac && r.pins[i].port != r.pins[j].port
    ensures !Admits(Guard(r), port, r.pins[i].mac)
  {
    AdmitsExactly(r, port, r.pins[i].mac);
  }

  // ---- Admission ----

  /** What a pass reports about one leaf's link. */
  datatype Status = Status(
    pending: bool, parent: string, member: string, leafMAC: Bytes, secured: bool, interface: string)

  predicate Enabled(s: Status) { !s.pending && s.parent != "" }

  predicate AnyEnabled(links: seq<Status>) {
    exists i :: 0 <= i < |links| && Enabled(links[i])
  }

  function PinsOf(links: seq<Status>): seq<Pin> {
    if links == [] then []
    else
      var n := |links| - 1;
      PinsOf(links[..n]) + (if Enabled(links[n]) && links[n].leafMAC != [] then [Pin(links[n].member, links[n].leafMAC)] else [])
  }

  predicate PinnedBy(links: seq<Status>, p: Pin) {
    && p.mac != []
    && exists i :: 0 <= i < |links| && Enabled(links[i]) && !links[i].pending && links[i].parent != ""
                   && p == Pin(links[i].member, links[i].leafMAC)
  }

  /** Every pin comes from an enabled link, and every enabled link with a known address is pinned. */
  lemma {:induction false} PinsOfLinks(links: seq<Status>)
    ensures forall i :: 0 <= i < |links| && Enabled(links[i]) && links[i].leafMAC != [] ==>
                          Pin(links[i].member, links[i].leafMAC) in PinsOf(links)
    ensures forall p :: p in PinsOf(links) ==> PinnedBy(links, p)
    ensures forall i :: 0 <= i < |links| && !links[i].pending && links[i].parent != "" && links[i].leafMAC != [] ==>
                          Pin(links[i].member, links[i].leafMAC) in PinsOf(links)
  {
    if links != [] {
      var n := |links| - 1;
      var front := links[..n];
      PinsOfLinks(front);
      forall i | 0 <= i < |links| && Enabled(links[i]) && links[i].leafMAC != []
        ensures Pin(links[i].member, links[i].leafMAC) in PinsOf(links)
      {
        if i < n {
          assert front[i] == links[i];
        }
      }
      forall p | p in PinsOf(links)
        ensures PinnedBy(links, p)
      {
        if p in PinsOf(front) {
          var i :| 0 <= i < |front| && Enabled(front[i]) && p == Pin(front[i].member, front[i].leafMAC);
          assert links[i] == front[i];
        } else {
          assert p == Pin(links[n].member, links[n].leafMAC);
        }
      }
    }
  }

  /** The members of enabled links differ from each other and from the bridge: they are the devices
      of distinct ports. */
  predicate DistinctMembers(links: seq<Status>) {
    && (forall i, j :: 0 <= i < j < |links| && Enabled(links[i]) && Enabled(links[j]) && links[i].member != "" ==>
                         links[i].member != links[j].member)
    && (forall i :: 0 <= i < |links| && Enabled(links[i]) ==> links[i].member != MESH_BRIDGE)
  }

  predicate OnBridge(k: Kernel, name: string) {
    name in k && k[name].master == MESH_BRIDGE
  }

  predicate Isolated(k: Kernel, name: string) {
    OnBridge(k, name) && k[name].isolated
  }

  predicate Unisolated(k: Kernel, name: string) {
    OnBridge(k, name) && !k[name].isolated
  }

  /** A pass only fills in where a link is and withdraws its security report. */
  predicate OnlyReported(before: seq<Status>, after: seq<Status>) {
    && |before| == |after|
    && forall i :: 0 <= i < |before| ==>
         after[i] == if Enabled(before[i]) then before[i].(interface := MESH_BRIDGE, secured := before[i].secured && after[i].secured)
                     else before[i]
  }

  /** The outcome for one enabled link whose member was on or off the bridge in `before`. */
  predicate Settled(before: Kernel, after: Kernel, st: Status, guarded: bool, stuck: set<string>) {
    && (st.secured ==> guarded && OnBridge(after, st.member) && st.member !in stuck)
    // Secured members are isolated, except the ones that came into the pass on the bridge unisolated.
    && (st.secured ==> (Isolated(after, st.member) <==> !Unisolated(before, st.member)))
    && (!st.secured && OnBridge(after, st.member) ==> st.member in stuck)
    && (Unisolated(after, st.member) ==> Unisolated(before, st.member) || st.member in stuck)
  }

  predicate SameAt(a: Kernel, b: Kernel, n: string) {
    (n in a <==> n in b) && (n in a ==> a[n] == b[n])
  }

  /** What admitting one link does to the devices: only its member is touched, and whoever joins is
      isolated, or leaves again, or is stuck on the bridge. */
  ghost predicate Admitted(a: Kernel, b: Kernel, st: Status, guarded: bool, secured: bool, stuck: bool) {
    && (forall n :: n != st.member ==> SameAt(a, b, n))
    && (st.member in a <==> st.member in b)
    && (secured ==> st.secured && guarded && OnBridge(b, st.member) && !stuck)
    && (secured ==> (Isolated(b, st.member) <==> !Unisolated(a, st.member)))
    && (!secured && OnBridge(b, st.member) ==> stuck)
    && (Unisolated(b, st.member) ==> Unisolated(a, st.member) || stuck)
    && (Unisolated(a, st.member) && OnBridge(b, st.member) ==> Unisolated(b, st.member))
  }

  /** The links in `done` are settled, and nothing but their members was touched. */
  ghost predicate Progress(a: Kernel, b: Kernel, was: seq<Status>, now: seq<Status>, done: set<int>, guarded: bool, stuck: set<string>) {
    && |was| == |now|
    && (forall i :: 0 <= i < |now| ==> now[i] == was[i].(secured := was[i].secured && now[i].secured))
    && (forall i :: 0 <= i < |now| && i !in done ==> now[i] == was[i])
    && (forall i :: 0 <= i < |now| && i in done ==> Settled(a, b, now[i], guarded, stuck))
    && (forall n :: Unisolated(b, n) ==> Unisolated(a, n) || n in stuck)
    && (forall n :: Unisolated(a, n) && OnBridge(b, n) ==> Unisolated(b, n))
    && (forall n :: !MemberOf(was, done, n) ==> SameAt(a, b, n) && n !in stuck)
    && ("" !in a ==> "" !in b)
  }

  predicate MemberOf(links: seq<Status>, done: set<int>, n: string) {
    exists i :: 0 <= i < |links| && i in done && links[i].member == n
  }

  predicate CanStep(was: seq<Status>, done: set<int>, i: int) {
    && DistinctMembers(was) && 0 <= i < |was| && i !in done && Enabled(was[i])
    && forall j :: j in done && 0 <= j < |was| ==> Enabled(was[j])
  }

  lemma SettledStep(a: Kernel, b: Kernel, c: Kernel, was: seq<Status>, now: seq<Status>, done: set<int>, guarded: bool,
                    stuck: set<string>, i: int, secured: bool, held: bool, j: int)
    requires CanStep(was, done, i) && "" !in a
    requires Progress(a, b, was, now, done, guarded, stuck)
    requires Admitted(b, c, now[i], guarded, secured, held)
    requires 0 <= j < |was| && j in done + {i}
    ensures Settled(a, c, now[i := now[i].(secured := secured)][j], guarded, stuck + if held then {was[i].member} else {})
  {
    var m := was[i].member;
    assert now[i].member == m && now[j].member == was[j].member;
    if j == i {
      assert m != "" ==> !MemberOf(was, done, m);
    } else if was[j].member != m {
      assert SameAt(b, c, was[j].member) && Settled(a, b, now[j], guarded, stuck);
    } else {
      assert m == "" && m !in c;
      assert Settled(a, b, now[j], guarded, stuck);
    }
  }

  lemma TouchedStep(a: Kernel, b: Kernel, c: Kernel, was: seq<Status>, now: seq<Status>, done: set<int>, guarded: bool,
                    stuck: set<string>, i: int, secured: bool, held: bool, n: string)
    requires CanStep(was, done, i) && "" !in a
    requires Progress(a, b, was, now, done, guarded, stuck)
    requires Admitted(b, c, now[i], guarded, secured, held)
    ensures var stuck' := stuck + if held then {was[i].member} else {};
            && (!MemberOf(was, done + {i}, n) ==> SameAt(a, c, n) && n !in stuck')
            && (Unisolated(c, n) ==> Unisolated(a, n) || n in stuck')
            && (Unisolated(a, n) && OnBridge(c, n) ==> Unisolated(c, n))
            && (n !in a && n == "" ==> n !in c)
  {
    assert now[i].member == was[i].member;
    if n != was[i].member {
      assert SameAt(b, c, n);
      assert MemberOf(was, done, n) ==> MemberOf(was, done + {i}, n);
    } else {
      assert n != "" ==> !MemberOf(was, done, n);
      assert MemberOf(was, done + {i}, n);
    }
  }

  /** All these links that were secured, and whose members exist, are still reported as secured. */
  predicate AllAdmitted(a: Kernel, was: seq<Status>, now: seq<Status>, done: set<int>) {
    |was| == |now| && forall i :: i in done && 0 <= i < |was| && was[i].secured && was[i].member in a ==> now[i].secured
  }

  lemma AdmittedStep(a: Kernel, b: Kernel, was: seq<Status>, now: seq<Status>, done: set<int>, guarded: bool,
                     stuck: set<string>, i: int, secured: bool)
    requires CanStep(was, done, i) && "" !in a && Progress(a, b, was, now, done, guarded, stuck)
    requires AllAdmitted(a, was, now, done) && (was[i].secured && was[i].member in b ==> secured)
    ensures AllAdmitted(a, was, now[i := now[i].(secured := secured)], done + {i})
  {
    var m := was[i].member;
    assert m != "" ==> !MemberOf(was, done, m);
    assert m in a ==> SameAt(a, b, m);
  }

  lemma ProgressStep(a: Kernel, b: Kernel, c: Kernel, was: seq<Status>, now: seq<Status>, done: set<int>, guarded: bool,
                     stuck: set<string>, i: int, secured: bool, held: bool)
    requires CanStep(was, done, i) && "" !in a
    requires Progress(a, b, was, now, done, guarded, stuck)
    requires Admitted(b, c, now[i], guarded, secured, held)
    ensures Progress(a, c, was, now[i := now[i].(secured := secured)], done + {i}, guarded,
                     stuck + if held then {was[i].member} else {})
  {
    forall j | 0 <= j < |was| && j in done + {i}
      ensures Settled(a, c, now[i := now[i].(secured := secured)][j], guarded, stuck + if held then {was[i].member} else {})
    {
      SettledStep(a, b, c, was, now, done, guarded, stuck, i, secured, held, j);
    }
    forall n
      ensures var stuck' := stuck + if held then {was[i].member} else {};
              && (!MemberOf(was, done + {i}, n) ==> SameAt(a, c, n) && n !in stuck')
              && (Unisolated(c, n) ==> Unisolated(a, n) || n in stuck')
              && (Unisolated(a, n) && OnBridge(c, n) ==> Unisolated(c, n))
              && (n !in a && n == "" ==> n !in c)
    {
      TouchedStep(a, b, c, was, now, done, guarded, stuck, i, secured, held, n);
    }
  }

  /** Nothing joined the bridge from `a` to `b`. */
  ghost predicate NoJoin(a: Kernel, b: Kernel) {
    forall n :: OnBridge(b, n) ==> OnBridge(a, n) && b[n] == a[n].(flags := b[n].flags)
  }

  /** The bridge is what it was, or a new one with the address of this device. */
  predicate BridgeMade(a: Kernel, b: Kernel, parent: string) {
    if MESH_BRIDGE in a then MESH_BRIDGE in b && b[MESH_BRIDGE] == a[MESH_BRIDGE].(flags := b[MESH_BRIDGE].flags)
    else MESH_BRIDGE in b ==> parent in a && b[MESH_BRIDGE].kind.BridgeDev? && b[MESH_BRIDGE].mac == a[parent].mac
  }

  /** The devices before and after the bridge was made ready. */
  ghost predicate OnlyBridgeMade(a: Kernel, b: Kernel) {
    NoJoin(a, b) && forall n :: n != MESH_BRIDGE ==> SameAt(a, b, n)
  }

  lemma OnlyFlagged(a: Kernel, b: Kernel, flags: set<Flag>)
    requires OnlyBridgeMade(a, b) && MESH_BRIDGE in b
    ensures OnlyBridgeMade(a, b[MESH_BRIDGE := b[MESH_BRIDGE].(flags := b[MESH_BRIDGE].flags + flags)])
  {
    var c := b[MESH_BRIDGE := b[MESH_BRIDGE].(flags := b[MESH_BRIDGE].flags + flags)];
    forall n | n != MESH_BRIDGE ensures SameAt(a, c, n) {
      assert SameAt(a, b, n);
    }
  }

  function Mark(s: Status): Status {
    if Enabled(s) then s.(interface := MESH_BRIDGE) else s
  }

  predicate Marked(was: seq<Status>, marked: seq<Status>) {
    |was| == |marked| && forall i :: 0 <= i < |was| ==> marked[i] == Mark(was[i])
  }

  /** The indices below `n` of enabled links, in order. */
  ghost predicate Indices(links: seq<Status>, n: nat, enabled: seq<int>)
    requires n <= |links|
  {
    && (forall i :: i in enabled <==> 0 <= i < n && Enabled(links[i]))
    && (forall a, b :: 0 <= a < b < |enabled| ==> enabled[a] < enabled[b])
  }

  lemma IndicesNext(links: seq<Status>, n: nat, enabled: seq<int>)
    requires n < |links| && Indices(links, n, enabled)
    ensures Indices(links, n + 1, if Enabled(links[n]) then enabled + [n] else enabled)
  {
    assert forall a :: 0 <= a < |enabled| ==> enabled[a] in enabled;
  }

  lemma PassOutcome(a: Kernel, b: Kernel, c: Kernel, was: seq<Status>, marked: seq<Status>, now: seq<Status>,
                    done: set<int>, guarded: bool, stuck: set<string>)
    requires OnlyBridgeMade(a, b) && Marked(was, marked) && DistinctMembers(marked)
    requires forall i :: 0 <= i < |was| ==> (Enabled(marked[i]) <==> i in done)
    requires Progress(b, c, marked, now, done, guarded, stuck)
    ensures PassOk(Pass(a, c, was, now, guarded, stuck)) && SameAt(b, c, MESH_BRIDGE)
  {
    assert !MemberOf(marked, done, MESH_BRIDGE);
    forall i | 0 <= i < |now| && Enabled(now[i])
      ensures Settled(a, c, now[i], guarded, stuck)
    {
      assert Enabled(marked[i]) && now[i].member == marked[i].member;
      assert Settled(b, c, now[i], guarded, stuck) && SameAt(a, b, now[i].member);
    }
    forall n | Unisolated(a, n) && OnBridge(c, n)
      ensures Unisolated(c, n)
    {
      assert if n == MESH_BRIDGE then SameAt(b, c, n) else SameAt(a, b, n);
    }
  }

  /** The bridge is there, or the interface of every enabled link, to take its address from. */
  predicate BridgeReady(k: Kernel, links: seq<Status>) {
    MESH_BRIDGE in k || forall i :: 0 <= i < |links| && Enabled(links[i]) ==> links[i].parent in k
  }

  /** Every enabled link that was reported as secured, and whose member exists, still is. */
  predicate KeptSecured(a: Kernel, was: seq<Status>, now: seq<Status>) {
    && |was| == |now|
    && forall i :: 0 <= i < |was| && Enabled(was[i]) && was[i].secured && was[i].member in a ==> now[i].secured
  }

  lemma KeptAll(a: Kernel, b: Kernel, was: seq<Status>, marked: seq<Status>, now: seq<Status>, done: set<int>)
    requires OnlyBridgeMade(a, b) && Marked(was, marked) && DistinctMembers(marked)
    requires forall i :: 0 <= i < |was| ==> (Enabled(marked[i]) <==> i in done)
    requires AllAdmitted(b, marked, now, done)
    ensures KeptSecured(a, was, now)
  {
    forall i | 0 <= i < |was| && Enabled(was[i]) && was[i].secured && was[i].member in a
      ensures now[i].secured
    {
      assert marked[i] == Mark(was[i]) && Enabled(marked[i]) && i in done;
      assert SameAt(a, b, was[i].member);
    }
  }

  // ---- Runs of passes ----

  /** One pass: the devices before and after it, what was reported about the links before and after
      it, whether bridge and guard were ready, and the members that should have left the bridge and
      did not. */
  datatype Pass = Pass(before: Kernel, after: Kernel, was: seq<Status>, now: seq<Status>, guarded: bool, stuck: set<string>)

  /** The contract of a pass: each enabled link is settled; nobody is on the bridge unisolated who was
      not or is stuck; and who was stays so while on the bridge. */
  ghost predicate PassOk(p: Pass) {
    && OnlyReported(p.was, p.now)
    && (forall i :: 0 <= i < |p.now| && Enabled(p.now[i]) ==> Settled(p.before, p.after, p.now[i], p.guarded, p.stuck))
    && (forall n :: Unisolated(p.after, n) ==> Unisolated(p.before, n) || n in p.stuck)
    && (forall n :: Unisolated(p.before, n) && OnBridge(p.after, n) ==> Unisolated(p.after, n))
  }

  /** Between passes devices may go, change and come, but none joins the bridge or changes how it is
      isolated there. */
  predicate Loose(a: Kernel, b: Kernel) {
    forall n :: n in b && OnBridge(b, n) ==> OnBridge(a, n) && b[n].isolated == a[n].isolated
  }

  /** The devices after the pass before pass `i`. */
  function Left(start: Kernel, ps: seq<Pass>, i: nat): Kernel
    requires i <= |ps|
  {
    if i == 0 then start else ps[i - 1].after
  }

  ghost predicate Follows(a: Kernel, p: Pass) {
    PassOk(p) && Loose(a, p.before)
  }

  /** Passes in a row, from a table on. */
  ghost predicate RunOk(start: Kernel, ps: seq<Pass>) {
    forall i {:trigger Follows(Left(start, ps, i), ps[i])} :: 0 <= i < |ps| ==> Follows(Left(start, ps, i), ps[i])
  }

  lemma RunSnoc(start: Kernel, ps: seq<Pass>, p: Pass)
    requires RunOk(start, ps) && Follows(Left(start, ps, |ps|), p)
    ensures RunOk(start, ps + [p])
  {
    var more := ps + [p];
    forall i | 0 <= i < |more|
      ensures Follows(Left(start, more, i), more[i])
    {
      assert Left(start, more, i) == Left(start, ps, i);
      if i < |ps| {
        assert Follows(Left(start, ps, i), ps[i]);
      }
    }
  }

  /** Pass `j` left this member on the bridge unisolated, and it has been there ever since, up to the
      end of pass `i`. */
  ghost predicate LeftSince(ps: seq<Pass>, j: nat, i: nat, m: string)
    requires j <= i < |ps|
  {
    && m in ps[j].stuck && Unisolated(ps[j].after, m)
    && forall k :: j < k <= i ==> OnBridge(ps[k].before, m) && OnBridge(ps[k].after, m)
  }

  /** From a table without unisolated members, a device is on the bridge unisolated after a pass exactly
      if that pass or an earlier one left it so, and it has stayed there since. */
  lemma {:induction false} UnisolatedExactly(start: Kernel, ps: seq<Pass>, i: nat, m: string)
    requires RunOk(start, ps) && i < |ps| && !Unisolated(start, m)
    ensures Unisolated(ps[i].after, m) <==> exists j :: 0 <= j <= i && LeftSince(ps, j, i, m)
    decreases i
  {
    if i == 0 {
      assert Follows(Left(start, ps, 0), ps[0]);
      assert Unisolated(ps[0].after, m) ==> LeftSince(ps, 0, 0, m);
    } else {
      UnisolatedExactly(start, ps, i - 1, m);
      assert Follows(Left(start, ps, i), ps[i]);
      UnisolatedNext(ps, i - 1, i, m);
    }
  }

  lemma UnisolatedNext(ps: seq<Pass>, h: nat, i: nat, m: string)
    requires h + 1 == i < |ps| && Follows(ps[h].after, ps[i])
    requires Unisolated(ps[h].after, m) <==> exists j :: 0 <= j <= h && LeftSince(ps, j, h, m)
    ensures Unisolated(ps[i].after, m) <==> exists j :: 0 <= j <= i && LeftSince(ps, j, i, m)
  {
    if Unisolated(ps[i].after, m) {
      if m in ps[i].stuck {
        assert LeftSince(ps, i, i, m);
      } else {
        var j :| 0 <= j <= h && LeftSince(ps, j, h, m);
        assert LeftSince(ps, j, i, m);
      }
    }
    if j :| 0 <= j <= i && LeftSince(ps, j, i, m) {
      if j < i {
        assert OnBridge(ps[i].before, m) && OnBridge(ps[i].after, m);
        assert LeftSince(ps, j, h, m);
      }
    }
  }

  ghost predicate LeftEarlier(ps: seq<Pass>, i: nat, m: string)
    requires i < |ps|
  {
    exists j :: 0 <= j < i && LeftSince(ps, j, i, m)
  }

  /** The main result about isolation, over every run of passes from a table without unisolated members:
      a member that is reported as secured is unisolated exactly if an earlier pass left it so, stuck on
      the bridge, and it has stayed there since. */
  lemma SecuredUnisolatedExactly(start: Kernel, ps: seq<Pass>, i: nat, l: nat)
    requires RunOk(start, ps) && i < |ps| && l < |ps[i].now|
    requires Enabled(ps[i].now[l]) && ps[i].now[l].secured && !Unisolated(start, ps[i].now[l].member)
    ensures var m := ps[i].now[l].member;
            Unisolated(ps[i].after, m) <==> LeftEarlier(ps, i, m)
  {
    var m := ps[i].now[l].member;
    assert Follows(Left(start, ps, i), ps[i]);
    assert Settled(ps[i].before, ps[i].after, ps[i].now[l], ps[i].guarded, ps[i].stuck);
    UnisolatedExactly(start, ps, i, m);
    assert !LeftSince(ps, i, i, m);
  }

  /** Every enabled link reported as secured has its member on the bridge, isolated. */
  ghost predicate AllIsolated(p: Pass) {
    forall l :: 0 <= l < |p.now| && Enabled(p.now[l]) && p.now[l].secured ==> Isolated(p.after, p.now[l].member)
  }

  /** So as long as no member is stuck, every secured one is isolated after every pass. */
  lemma NeverStuck(start: Kernel, ps: seq<Pass>)
    requires RunOk(start, ps) && forall m :: !Unisolated(start, m)
    requires forall i :: 0 <= i < |ps| ==> ps[i].stuck == {}
    ensures forall i :: 0 <= i < |ps| ==> AllIsolated(ps[i])
  {
    forall i, l | 0 <= i < |ps| && 0 <= l < |ps[i].now| && Enabled(ps[i].now[l]) && ps[i].now[l].secured
      ensures Isolated(ps[i].after, ps[i].now[l].member)
    {
      assert Follows(Left(start, ps, i), ps[i]);
      assert Settled(ps[i].before, ps[i].after, ps[i].now[l], ps[i].guarded, ps[i].stuck);
      SecuredUnisolatedExactly(start, ps, i, l);
    }
  }

  lemma RunOutcome(start: Kernel, ps: seq<Pass>)
    requires RunOk(start, ps) && forall m :: !Unisolated(start, m)
    ensures forall i, l :: 0 <= i < |ps| && 0 <= l < |ps[i].now| && Enabled(ps[i].now[l]) && ps[i].now[l].secured ==>
              (Unisolated(ps[i].after, ps[i].now[l].member) <==> LeftEarlier(ps, i, ps[i].now[l].member))
    ensures (forall i :: 0 <= i < |ps| ==> ps[i].stuck == {}) ==> forall i :: 0 <= i < |ps| ==> AllIsolated(ps[i])
  {
    forall i, l | 0 <= i < |ps| && 0 <= l < |ps[i].now| && Enabled(ps[i].now[l]) && ps[i].now[l].secured
      ensures Unisolated(ps[i].after, ps[i].now[l].member) <==> LeftEarlier(ps, i, ps[i].now[l].member)
    {
      SecuredUnisolatedExactly(start, ps, i, l);
    }
    if forall i :: 0 <= i < |ps| ==> ps[i].stuck == {} {
      NeverStuck(start, ps);
    }
  }

  /** The devices with bridge and member, the latter off or on the bridge. */
  function WithMember(m: string, on: bool): Kernel {
    map[MESH_BRIDGE := Port(BridgeDev, "", false, Nic(1500, 0), [], {}, {}, {}),
        m := Port(Plain, if on then MESH_BRIDGE else "", false, Nic(1450, 0), [], {}, {}, {})]
  }

  /** The failing run exists. In the first pass the member joins, cannot be isolated, and cannot be taken
      off again; the second pass finds it on the bridge, does nothing, and reports it as secured. Both
      follow the contract of admitting a link and of a pass. */
  lemma UnisolatedSecuredExample(st: Status)
    requires Enabled(st) && st.secured && st.interface == MESH_BRIDGE && st.member != MESH_BRIDGE
    ensures var (a, b, m) := (WithMember(st.member, false), WithMember(st.member, true), st.member);
            var first := Pass(a, b, [st], [st.(secured := false)], true, {m});
            var second := Pass(b, b, [st], [st], true, {});
            && Admitted(a, b, st, true, false, true) && Admitted(b, b, st, true, true, false)
            && RunOk(a, [first, second]) && (forall n :: !Unisolated(a, n))
            && second.now[0].secured && Unisolated(second.after, m) && LeftSince([first, second], 0, 1, m)
  {
    var a, b := WithMember(st.member, false), WithMember(st.member, true);
    assert forall n :: OnBridge(b, n) ==> n == st.member;
    var first := Pass(a, b, [st], [st.(secured := false)], true, {st.member});
    var second := Pass(b, b, [st], [st], true, {});
    assert Follows(a, first) && Follows(b, second);
    assert Left(a, [first, second], 0) == a && Left(a, [first, second], 1) == b;
  }

  class Manager {
    const sys: Sys
    const cache: TableCache<Ruleset, Table>
    var bridgeGone: bool

    ghost predicate Valid()
      reads this, sys, cache
    {
      sys.Valid() && cache.Valid() && cache.produce == Guard && "" !in sys.k
    }

    constructor (sys: Sys, cache: TableCache<Ruleset, Table>)
      requires sys.Valid() && cache.Valid() && cache.produce == Guard && "" !in sys.k
      ensures Valid() && this.sys == sys && this.cache == cache && !bridgeGone
    {
      this.sys, this.cache, bridgeGone := sys, cache, false;
    }

    /** Marks the enabled links and collects their pins. */
    method CollectPins(links: array<Status>) returns (enabled: seq<int>, pins: seq<Pin>)
      modifies links
      ensures Marked(old(links[..]), links[..])
      ensures pins == PinsOf(old(links[..]))
      ensures Indices(links[..], links.Length, enabled)
    {
      enabled, pins := [], [];
      ghost var was := links[..];
      for i := 0 to links.Length
        invariant forall j :: 0 <= j < i ==> links[j] == Mark(was[j])
        invariant forall j :: i <= j < links.Length ==> links[j] == was[j]
        invariant pins == PinsOf(was[..i])
        invariant Indices(was, i, enabled)
      {
        assert was[..i + 1][..i] == was[..i];
        IndicesNext(was, i, enabled);
        if !links[i].pending && links[i].parent != "" {
          links[i] := links[i].(interface := MESH_BRIDGE);
          enabled := enabled + [i];
          if links[i].leafMAC != [] {
            pins := pins + [Pin(links[i].member, links[i].leafMAC)];
          }
        }
      }
      assert was[..links.Length] == was;
    }

    /** Makes sure the bridge exists and is up. */
    method EnsureBridge(parent: string) returns (own: Option<Bytes>)
      requires Valid()
      modifies sys
      ensures Valid() && OnlyBridgeMade(old(sys.k), sys.k)
      ensures own.Some? ==> MESH_BRIDGE in sys.k && sys.k[MESH_BRIDGE].mac == own.value && AdminUp in sys.k[MESH_BRIDGE].flags
      ensures BridgeMade(old(sys.k), sys.k, parent)
      ensures sys.works && (parent in old(sys.k) || MESH_BRIDGE in old(sys.k)) ==> own.Some?
    {
      var info := MakeBridge(parent);
      own := None;
      if info.Some? {
        OnlyFlagged(old(sys.k), sys.k, {AdminUp});
        var up := sys.SetUp(MESH_BRIDGE);
        own := if up then Some(info.value.mac) else None;
      }
    }

    /** Finds the bridge, and makes it first if it is not found. */
    method MakeBridge(parent: string) returns (info: Option<Port>)
      requires Valid()
      modifies sys
      ensures Valid() && OnlyBridgeMade(old(sys.k), sys.k) && BridgeMade(old(sys.k), sys.k, parent)
      ensures info.Some? ==> MESH_BRIDGE in sys.k && info.value == sys.k[MESH_BRIDGE]
      ensures MESH_BRIDGE in old(sys.k) ==> sys.k == old(sys.k)
      ensures sys.works && (parent in old(sys.k) || MESH_BRIDGE in old(sys.k)) ==> info.Some?
    {
      info := sys.LinkInfo(MESH_BRIDGE);
      if !info.Some? {
        var port := sys.LinkInfo(parent);
        if port.Some? {
          var _ := sys.AddBridge(MESH_BRIDGE, port.value.mac);
        }
        info := sys.LinkInfo(MESH_BRIDGE);
      }
    }

    /** The bridge with its guard, or false. */
    method Guarded(parent: string, pins: seq<Pin>) returns (ok: bool)
      requires Valid()
      modifies sys, cache
      ensures Valid() && OnlyBridgeMade(old(sys.k), sys.k)
      ensures ok ==> MESH_BRIDGE in sys.k && cache.table == Some(Guard(BridgeGuard(sys.k[MESH_BRIDGE].mac, pins)))
      ensures BridgeMade(old(sys.k), sys.k, parent) && (ok ==> AdminUp in sys.k[MESH_BRIDGE].flags && PinsOk(pins))
      ensures sys.works && cache.works && (parent in old(sys.k) || MESH_BRIDGE in old(sys.k)) && PinsOk(pins) ==> ok
    {
      var own := EnsureBridge(parent);
      ok := false;
      if own.Some? {
        var table := RenderBridgeGuard(own.value, pins);
        if table.Some? {
          ok := cache.InstallTable(BridgeGuard(own.value, pins));
        }
      }
    }

    /** Admits one link's member to the bridge, or keeps or puts it off. `stuck` says that a member
        that should leave the bridge was not found or could not be taken off. */
    method Admit(st: Status, guarded: bool) returns (secured: bool, ghost stuck: bool)
      requires Valid() && st.member != MESH_BRIDGE
      modifies sys
      ensures Valid()
      ensures Admitted(old(sys.k), sys.k, st, guarded, secured, stuck)
      ensures sys.steady ==> !stuck
      // A secured member that is on the bridge stays there and stays secured.
      ensures sys.steady && st.secured && guarded && OnBridge(old(sys.k), st.member) ==> secured && sys.k == old(sys.k)
      // With every command working a secured member is admitted; who is neither secured nor there is left alone.
      ensures sys.works && st.secured && guarded && st.member in old(sys.k) ==> secured
      ensures (!st.secured || !guarded) && !OnBridge(old(sys.k), st.member) ==> sys.k == old(sys.k)
    {
      stuck := false;
      var port := sys.LinkInfo(st.member);
      secured := st.secured && guarded && port.Some?;
      if !port.Some? {
        stuck := OnBridge(sys.k, st.member);
      } else if secured && port.value.master != MESH_BRIDGE {
        var joined := sys.SetMaster(st.member, MESH_BRIDGE);
        secured := false;
        if joined {
          secured := sys.SetIsolated(st.member);
          if !secured {
            var left := sys.SetMaster(st.member, "");
            stuck := !left;
          }
        }
      } else if !secured && port.value.master == MESH_BRIDGE {
        var left := sys.SetMaster(st.member, "");
        stuck := !left;
      }
    }

    /** Settles every enabled link. */
    method AdmitAll(links: array<Status>, enabled: seq<int>, guarded: bool) returns (ghost stuck: set<string>)
      requires Valid() && DistinctMembers(links[..])
      requires forall i :: i in enabled ==> 0 <= i < links.Length && Enabled(links[i])
      requires forall a, b :: 0 <= a < b < |enabled| ==> enabled[a] < enabled[b]
      modifies sys, links
      ensures Valid()
      ensures Progress(old(sys.k), sys.k, old(links[..]), links[..], (set i | i in enabled), guarded, stuck)
      ensures sys.steady ==> stuck == {}
      ensures sys.works && guarded ==> AllAdmitted(old(sys.k), old(links[..]), links[..], (set i | i in enabled))
    {
      stuck := {};
      ghost var done: set<int>, was := {}, links[..];
      for x := 0 to |enabled|
        invariant Valid() && done == (set i | i in enabled[..x])
        invariant Progress(old(sys.k), sys.k, was, links[..], done, guarded, stuck)
        invariant sys.steady ==> stuck == {}
        invariant sys.works && guarded ==> AllAdmitted(old(sys.k), was, links[..], done)
      {
        var i := enabled[x];
        assert i in enabled && enabled[..x + 1] == enabled[..x] + [i];
        assert i !in done;
        ghost var before, now := sys.k, links[..];
        assert links[i].member == was[i].member && Enabled(was[i]);
        var secured;
        ghost var held;
        secured, held := Admit(links[i], guarded);
        ProgressStep(old(sys.k), before, sys.k, was, now, done, guarded, stuck, i, secured, held);
        if sys.works && guarded {
          AdmittedStep(old(sys.k), before, was, now, done, guarded, stuck, i, secured);
        }
        links[i] := links[i].(secured := secured);
        assert links[..] == now[i := now[i].(secured := secured)];
        done, stuck := done + {i}, stuck + if held then {was[i].member} else {};
      }
      assert enabled[..|enabled|] == enabled;
    }

    /** Removes the bridge and its guard once no link is enabled. */
    method RemoveMeshBridge()
      requires Valid()
      modifies this, sys, cache
      ensures Valid() && bridgeGone && NoJoin(old(sys.k), sys.k)
      ensures old(bridgeGone) ==> sys.k == old(sys.k) && cache.table == old(cache.table) && cache.rules == old(cache.rules)
      ensures !old(bridgeGone) ==> cache.rules.None?
      ensures sys.k == old(sys.k) || sys.k == Deleted(old(sys.k), MESH_BRIDGE)
      ensures !old(bridgeGone) && sys.steady ==> MESH_BRIDGE !in sys.k
      ensures MESH_BRIDGE !in old(sys.k) && old(cache.rules).None? ==> cache.table == old(cache.table)
      ensures !old(bridgeGone) && sys.steady && cache.works && (MESH_BRIDGE in old(sys.k) || old(cache.rules).Some?) ==> cache.table.None?
    {
      if bridgeGone {
        return;
      }
      var info := sys.LinkInfo(MESH_BRIDGE);
      if info.Some? || cache.rules.Some? {
        var _ := sys.DeleteLink(MESH_BRIDGE);
        var _ := cache.Drop();
      }
      bridgeGone := true;
    }

    /** The bridge with its guard, and then every enabled link; `was` is from before the marking. */
    method AdmitEnabled(links: array<Status>, enabled: seq<int>, pins: seq<Pin>, ghost was: seq<Status>)
      returns (guarded: bool, ghost stuck: set<string>)
      requires Valid() && DistinctMembers(links[..]) && Marked(was, links[..])
      requires enabled != [] && Indices(links[..], links.Length, enabled)
      modifies sys, cache, links
      ensures Valid() && PassOk(Pass(old(sys.k), sys.k, was, links[..], guarded, stuck))
      ensures guarded ==> MESH_BRIDGE in sys.k && cache.table == Some(Guard(BridgeGuard(sys.k[MESH_BRIDGE].mac, pins)))
      ensures sys.steady ==> stuck == {}
      ensures guarded ==> PinsOk(pins)
      ensures BridgeReady(old(sys.k), was) && sys.works && cache.works && PinsOk(pins) ==> guarded
      ensures sys.works && guarded ==> KeptSecured(old(sys.k), was, links[..])
    {
      assert enabled[0] in enabled;
      guarded := Guarded(links[enabled[0]].parent, pins);
      ghost var ready, marked := sys.k, links[..];
      stuck := AdmitAll(links, enabled, guarded);
      PassOutcome(old(sys.k), ready, sys.k, was, marked, links[..], (set i | i in enabled), guarded, stuck);
      if sys.works && guarded {
        assert AllAdmitted(ready, marked, links[..], (set i | i in enabled));
        KeptAll(old(sys.k), ready, was, marked, links[..], (set i | i in enabled));
      }
    }

    /** One pass over the links' statuses. A link still reported as secured has its member on the
        bridge behind the guard that pins every enabled link; without that guard none is secured
        and every member is off the bridge, except stuck ones. */
    method ReconcileMeshBridge(links: array<Status>) returns (guarded: bool, ghost stuck: set<string>)
      requires Valid() && DistinctMembers(links[..])
      modifies this, sys, cache, links
      ensures Valid() && PassOk(Pass(old(sys.k), sys.k, old(links[..]), links[..], guarded, stuck))
      ensures guarded ==> MESH_BRIDGE in sys.k
                          && cache.table == Some(Guard(BridgeGuard(sys.k[MESH_BRIDGE].mac, PinsOf(old(links[..])))))
      // With working lookups and detaches no member is stuck.
      ensures sys.steady ==> stuck == {}
      // With every command working all that was secured is admitted, behind the guard; and without enabled
      // links bridge and guard are gone.
      ensures sys.works && cache.works && AnyEnabled(old(links[..])) && BridgeReady(old(sys.k), old(links[..])) && PinsOk(PinsOf(old(links[..]))) ==>
                guarded
      ensures guarded ==> PinsOk(PinsOf(old(links[..])))
      ensures sys.works && guarded ==> KeptSecured(old(sys.k), old(links[..]), links[..])
      ensures bridgeGone <==> !AnyEnabled(old(links[..]))
      ensures sys.steady && !AnyEnabled(old(links[..])) && !old(bridgeGone) ==> MESH_BRIDGE !in sys.k
    {
      stuck := {};
      var enabled, pins := CollectPins(links);
      assert forall i :: 0 <= i < links.Length ==> (Enabled(links[..][i]) <==> Enabled(old(links[..])[i]));
      if enabled == [] {
        RemoveMeshBridge();
        return false, {};
      }
      assert enabled[0] in enabled;
      bridgeGone := false;
      guarded, stuck := AdmitEnabled(links, enabled, pins, old(links[..]));
    }

    /** What others do between passes: anything to the guard, and any change to the devices by which
        none joins the bridge. */
    method Elapse()
      requires Valid()
      modifies sys`k, sys`history, cache
      ensures Valid() && Loose(old(sys.k), sys.k)
    {
      var table: Option<Table> := *;
      cache.Outside(table);
      var k: Kernel := *;
      if "" !in k && Loose(sys.k, k) && forall n :: n in sys.reserved && n in k ==> !k[n].kind.SecY? {
        sys.k := k;
        sys.history := sys.history + [k];
      }
    }

    /** One round of a run: time passes, then a pass over these statuses. */
    method Round(was: seq<Status>) returns (ghost p: Pass)
      requires Valid() && DistinctMembers(was)
      modifies this, sys, cache
      ensures Valid() && Follows(old(sys.k), p) && p.after == sys.k && p.was == was
      ensures p.guarded ==> MESH_BRIDGE in sys.k
                            && cache.table == Some(Guard(BridgeGuard(sys.k[MESH_BRIDGE].mac, PinsOf(was))))
      ensures sys.steady ==> p.stuck == {}
    {
      Elapse();
      ghost var before := sys.k;
      var links := new Status[|was|](i requires 0 <= i < |was| => was[i]);
      assert links[..] == was;
      var guarded;
      ghost var stuck;
      guarded, stuck := ReconcileMeshBridge(links);
      p := Pass(before, sys.k, was, links[..], guarded, stuck);
    }

    /** Any number of passes with anything in between: a secured member is unisolated after a pass exactly
        if an earlier pass left it stuck and unisolated and it has stayed on the bridge since; and if no
        member was ever stuck, all secured members are isolated after every pass. */
    method Run(rounds: seq<seq<Status>>) returns (ghost ps: seq<Pass>)
      requires Valid() && forall m :: !Unisolated(sys.k, m)
      requires forall i :: 0 <= i < |rounds| ==> DistinctMembers(rounds[i])
      modifies this, sys, cache
      ensures Valid() && RunOk(old(sys.k), ps) && |ps| == |rounds|
      ensures forall i :: 0 <= i < |ps| ==> ps[i].was == rounds[i]
      ensures forall i, l :: 0 <= i < |ps| && 0 <= l < |ps[i].now| && Enabled(ps[i].now[l]) && ps[i].now[l].secured ==>
                (Unisolated(ps[i].after, ps[i].now[l].member) <==> LeftEarlier(ps, i, ps[i].now[l].member))
      ensures (forall i :: 0 <= i < |ps| ==> ps[i].stuck == {}) ==> forall i :: 0 <= i < |ps| ==> AllIsolated(ps[i])
      ensures sys.steady ==> forall i :: 0 <= i < |ps| ==> ps[i].stuck == {}
    {
      ps := [];
      for i := 0 to |rounds|
        invariant Valid() && RunOk(old(sys.k), ps) && |ps| == i && sys.k == Left(old(sys.k), ps, i)
        invariant forall j :: 0 <= j < i ==> ps[j].was == rounds[j]
        invariant sys.steady ==> forall j :: 0 <= j < i ==> ps[j].stuck == {}
      {
        ghost var p := Round(rounds[i]);
        RunSnoc(old(sys.k), ps, p);
        ps := ps + [p];
      }
      RunOutcome(old(sys.k), ps);
    }
  }
}
