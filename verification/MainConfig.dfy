/** The main router's list of leaves. A change request (enable, disable, MTU test, jumbo switch)
    reads a snapshot, talks to the leaf without the configuration lock, and then re-validates and
    writes; leaf PUT and DELETE requests may land in between. Change requests exclude each other. */
module MainConfig {
  import opened Wrappers
  import opened Mesh
  import opened Enabling
  import LeafConfig

  predicate SameLeaf(a: LeafRouter, b: LeafRouter) {
    a.ip == b.ip && a.apiToken == b.apiToken
  }

  /** The first leaf with this address, or -1. */
  function FindByIP(leaves: seq<LeafRouter>, ip: string): (i: int)
    ensures -1 <= i < |leaves|
    ensures i >= 0 ==> leaves[i].ip == ip && forall j :: 0 <= j < i ==> leaves[j].ip != ip
    ensures i < 0 ==> forall j :: 0 <= j < |leaves| ==> leaves[j].ip != ip
  {
    if leaves == [] then -1
    else if leaves[0].ip == ip then 0
    else
      var i := FindByIP(leaves[1..], ip);
      if i < 0 then -1 else i + 1
  }

  /** The first leaf with this address is at this index, or there is none. */
  predicate FirstWith(leaves: seq<LeafRouter>, ip: string, i: int) {
    if i < 0 then i == -1 && forall j :: 0 <= j < |leaves| ==> leaves[j].ip != ip
    else i < |leaves| && leaves[i].ip == ip && forall j :: 0 <= j < i ==> leaves[j].ip != ip
  }

  function Without(leaves: seq<LeafRouter>, entry: LeafRouter): seq<LeafRouter> {
    if leaves == [] then []
    else if SameLeaf(leaves[0], entry) then Without(leaves[1..], entry)
    else [leaves[0]] + Without(leaves[1..], entry)
  }

  /** The record of the last entry that matches. */
  function Preserved(leaves: seq<LeafRouter>, entry: LeafRouter): Option<LeafMACsec> {
    if leaves == [] then None
    else
      var last := leaves[|leaves| - 1];
      if SameLeaf(last, entry) then last.macsec else Preserved(leaves[..|leaves| - 1], entry)
  }

  /** What a change request read: the leaf it is about and the whole list. */
  datatype Tx = Tx(leaf: LeafRouter, leaves: seq<LeafRouter>)

  datatype Main = Main(leaves: seq<LeafRouter>, tx: Option<Tx>)

  /** `trusted` is the certificate chain fetched from the new leaf; `calls` says whether the leaf
      accepted the request of a push. */
  datatype Event =
    | Put(entry: LeafRouter, trusted: Option<string>)
    | Delete(entry: LeafRouter)
    | Begin(ip: string)
    | CommitEnable(ask: Ask, l: Local, reply: Option<LeafConfig.Reply>)
    | CommitDisable
    | CommitPush(push: Push, calls: bool)

  predicate IsOther(e: Event) { e.Put? || e.Delete? }

  predicate PutAccepted(entry: LeafRouter, trusted: Option<string>) {
    entry.tlsCA == "" && trusted.Some? && trusted.value != ""
  }

  function Entry(leaves: seq<LeafRouter>, entry: LeafRouter, trusted: string): LeafRouter {
    var kept := Preserved(leaves, entry);
    LeafRouter(entry.apiToken, entry.ip, trusted, kept, entry.pending && !(kept.Some? && kept.value.enabled))
  }

  predicate Conflict(leaves: seq<LeafRouter>, index: int, port: int) {
    exists i :: 0 <= i < |leaves| && i != index && leaves[i].macsec.Some? && leaves[i].macsec.value.port == port
  }

  function Written(leaves: seq<LeafRouter>, index: int, next: Option<LeafMACsec>): seq<LeafRouter>
    requires 0 <= index < |leaves|
  {
    leaves[index := leaves[index].(macsec := next, pending := false)]
  }

  /** Where a set request may write: its leaf is still the first with that address. */
  function Target(m: Main): int
    requires m.tx.Some?
  {
    var i := FindByIP(m.leaves, m.tx.value.leaf.ip);
    if i >= 0 && SameLeaf(m.leaves[i], m.tx.value.leaf) then i else -1
  }

  /** A push writes if its leaf is still there and still holds the association it was computed for. */
  predicate PushCommits(m: Main, e: Event)
    requires m.tx.Some?
  {
    && e.CommitPush? && e.calls
    && m.tx.value.leaf.macsec.Some? && m.tx.value.leaf.macsec.value.enabled
    && Pushed(m.tx.value.leaf.macsec.value, e.push) != m.tx.value.leaf.macsec.value
    && var i := Target(m);
       i >= 0 && m.leaves[i].macsec.Some?
       && m.leaves[i].macsec.value.keyNonce == Pushed(m.tx.value.leaf.macsec.value, e.push).keyNonce
  }

  function SetCommit(m: Main, next: Option<LeafMACsec>): seq<LeafRouter>
    requires m.tx.Some?
  {
    var i := Target(m);
    if i < 0 || (next.Some? && Conflict(m.leaves, i, next.value.port)) then m.leaves
    else Written(m.leaves, i, next)
  }

  function Step(m: Main, e: Event): Main {
    match e
    case Put(entry, trusted) =>
      if PutAccepted(entry, trusted)
      then m.(leaves := Without(m.leaves, entry) + [Entry(m.leaves, entry, trusted.value)])
      else m
    case Delete(entry) => m.(leaves := Without(m.leaves, entry))
    case Begin(ip) =>
      var i := FindByIP(m.leaves, ip);
      if m.tx.Some? || i < 0 then m else m.(tx := Some(Tx(m.leaves[i], m.leaves)))
    case CommitEnable(ask, l, reply) =>
      if m.tx.None? then m
      else
        var next := EnableLeaf(m.tx.value.leaf, m.tx.value.leaves, ask, l, reply);
        Main(if next.Some? then SetCommit(m, next) else m.leaves, None)
    case CommitDisable =>
      if m.tx.None? then m else Main(SetCommit(m, None), None)
    case CommitPush(push, calls) =>
      if m.tx.None? then m
      else if PushCommits(m, e) then
        var i := Target(m);
        Main(m.leaves[i := m.leaves[i].(macsec := Some(Pushed(m.tx.value.leaf.macsec.value, push)))], None)
      else m.(tx := None)
  }

  function Run(m: Main, es: seq<Event>): Main
    decreases |es|
  {
    if es == [] then m else Run(Step(m, es[0]), es[1..])
  }

  lemma {:induction false} RunSnoc(m: Main, es: seq<Event>, e: Event)
    ensures Run(m, es + [e]) == Step(Run(m, es), e)
    decreases |es|
  {
    if es == [] {
      assert [e][1..] == [];
    } else {
      assert (es + [e])[1..] == es[1..] + [e];
      RunSnoc(Step(m, es[0]), es[1..], e);
    }
  }

  /** This leaf is still paired, and the first with its address. */
  predicate StillFirst(leaves: seq<LeafRouter>, leaf: LeafRouter) {
    exists i :: 0 <= i < |leaves| && FirstWith(leaves, leaf.ip, i) && leaves[i].apiToken == leaf.apiToken
  }

  /** Only this leaf's record was written, and it waits for none any more. */
  predicate OnlyRecord(before: seq<LeafRouter>, after: seq<LeafRouter>, leaf: LeafRouter, record: Option<LeafMACsec>) {
    && |after| == |before|
    && forall i :: 0 <= i < |before| ==>
         after[i] == if FirstWith(before, leaf.ip, i) then before[i].(macsec := record, pending := false) else before[i]
  }

  // ---- Invariants over every run ----

  predicate PairsUnique(leaves: seq<LeafRouter>) {
    forall i, j :: 0 <= i < j < |leaves| ==> !SameLeaf(leaves[i], leaves[j])
  }

  predicate PortRange(r: LeafMACsec) {
    && r.enabled && MAIN_PORT_FIRST <= r.port <= MAIN_PORT_LAST
    && (StoredMode(r.mode).WireGuard? ==> r.port <= WG_MAX_PORT)
  }

  predicate PortsInRange(leaves: seq<LeafRouter>) {
    forall i :: 0 <= i < |leaves| && leaves[i].macsec.Some? ==> PortRange(leaves[i].macsec.value)
  }

  predicate PortsDistinct(leaves: seq<LeafRouter>) {
    forall i, j :: 0 <= i < j < |leaves| && leaves[i].macsec.Some? && leaves[j].macsec.Some? ==>
                     leaves[i].macsec.value.port != leaves[j].macsec.value.port
  }

  predicate Sound(leaves: seq<LeafRouter>) {
    PairsUnique(leaves) && PortsInRange(leaves) && PortsDistinct(leaves)
  }

  /** Every stored association was already in `snapshot`, at the same leaf. */
  predicate FromSnapshot(leaves: seq<LeafRouter>, snapshot: seq<LeafRouter>) {
    forall i {:trigger Stored(snapshot, leaves[i])} :: 0 <= i < |leaves| && leaves[i].macsec.Some? ==> Stored(snapshot, leaves[i])
  }

  predicate Stored(snapshot: seq<LeafRouter>, l: LeafRouter) {
    exists j :: 0 <= j < |snapshot| && SameLeaf(snapshot[j], l) && snapshot[j].macsec == l.macsec
  }

  /** While a change request runs, the list is its snapshot up to leaves that came, went, or lost
      their association. */
  predicate Inv(m: Main) {
    && Sound(m.leaves)
    && (m.tx.Some? ==> Sound(m.tx.value.leaves) && m.tx.value.leaf in m.tx.value.leaves
                       && FromSnapshot(m.leaves, m.tx.value.leaves))
  }

  lemma {:induction false} WithoutSound(leaves: seq<LeafRouter>, entry: LeafRouter)
    requires Sound(leaves)
    ensures Sound(Without(leaves, entry))
    ensures forall l :: l in Without(leaves, entry) <==> l in leaves && !SameLeaf(l, entry)
  {
    if leaves != [] {
      WithoutSound(leaves[1..], entry);
      var rest := Without(leaves[1..], entry);
      assert leaves == [leaves[0]] + leaves[1..];
      forall i | 0 <= i < |rest|
        ensures !SameLeaf(leaves[0], rest[i])
        ensures leaves[0].macsec.Some? && rest[i].macsec.Some? ==> leaves[0].macsec.value.port != rest[i].macsec.value.port
      {
        assert rest[i] in leaves[1..];
      }
    }
  }

  lemma {:induction false} PreservedStored(leaves: seq<LeafRouter>, entry: LeafRouter)
    ensures Preserved(leaves, entry).Some? ==>
              exists j :: 0 <= j < |leaves| && SameLeaf(leaves[j], entry) && leaves[j].macsec == Preserved(leaves, entry)
  {
    if leaves != [] {
      PreservedStored(leaves[..|leaves| - 1], entry);
    }
  }

  /** A PUT keeps exactly the association of the entry with the same address and token. */
  lemma PreservedExactly(leaves: seq<LeafRouter>, entry: LeafRouter, j: int)
    requires PairsUnique(leaves) && 0 <= j < |leaves| && SameLeaf(leaves[j], entry)
    ensures Preserved(leaves, entry) == leaves[j].macsec
  {
    if j < |leaves| - 1 {
      assert !SameLeaf(leaves[j], leaves[|leaves| - 1]);
      PreservedExactly(leaves[..|leaves| - 1], entry, j);
    }
  }

  /** What any list keeps when the entries of one leaf go: exactly the others, in their order. */
  lemma {:induction false} WithoutExactly(leaves: seq<LeafRouter>, entry: LeafRouter)
    ensures forall l :: l in Without(leaves, entry) <==> l in leaves && !SameLeaf(l, entry)
    ensures forall l :: !SameLeaf(l, entry) ==> multiset(Without(leaves, entry))[l] == multiset(leaves)[l]
  {
    if leaves != [] {
      WithoutExactly(leaves[1..], entry);
      assert leaves == [leaves[0]] + leaves[1..];
    }
  }

  /** From `before` to `after` nothing happened to any leaf but this one. */
  ghost predicate OthersKept(before: seq<LeafRouter>, after: seq<LeafRouter>, entry: LeafRouter) {
    && (forall l :: !SameLeaf(l, entry) ==> (l in after <==> l in before))
    && (forall l :: !SameLeaf(l, entry) ==> multiset(after)[l] == multiset(before)[l])
  }

  /** The entry that a PUT leaves for its leaf: with the certificate that was fetched, the association it had
      if there was one, and waiting for one as given unless it has one that is enabled. */
  predicate PutEntry(before: seq<LeafRouter>, given: LeafRouter, trusted: string, e: LeafRouter) {
    && e.ip == given.ip && e.apiToken == given.apiToken && e.tlsCA == trusted
    && (forall j :: 0 <= j < |before| && SameLeaf(before[j], given) ==> e.macsec == before[j].macsec)
    && ((forall j :: 0 <= j < |before| ==> !SameLeaf(before[j], given)) ==> e.macsec.None?)
    && (e.pending <==> given.pending && !(e.macsec.Some? && e.macsec.value.enabled))
  }

  lemma PutKeepsOthers(leaves: seq<LeafRouter>, given: LeafRouter, trusted: string)
    requires PairsUnique(leaves)
    ensures var e := Entry(leaves, given, trusted);
            && PutEntry(leaves, given, trusted, e)
            && OthersKept(leaves, Without(leaves, given) + [e], given)
            && forall l :: l in Without(leaves, given) ==> !SameLeaf(l, given)
    ensures OthersKept(leaves, Without(leaves, given), given)
  {
    WithoutExactly(leaves, given);
    PreservedStored(leaves, given);
    forall j | 0 <= j < |leaves| && SameLeaf(leaves[j], given)
      ensures Preserved(leaves, given) == leaves[j].macsec
    {
      PreservedExactly(leaves, given, j);
    }
  }

  lemma PutSound(leaves: seq<LeafRouter>, entry: LeafRouter, trusted: string)
    requires Sound(leaves)
    ensures Sound(Without(leaves, entry) + [Entry(leaves, entry, trusted)])
    ensures forall l :: l in Without(leaves, entry) + [Entry(leaves, entry, trusted)] && l.macsec.Some? ==> Stored(leaves, l)
  {
    WithoutSound(leaves, entry);
    PreservedStored(leaves, entry);
    var rest, e := Without(leaves, entry), Entry(leaves, entry, trusted);
    forall i | 0 <= i < |rest|
      ensures !SameLeaf(rest[i], e)
      ensures rest[i].macsec.Some? && e.macsec.Some? ==> rest[i].macsec.value.port != e.macsec.value.port
    {
      assert rest[i] in leaves && !SameLeaf(rest[i], entry);
    }
    forall l | l in rest + [e] && l.macsec.Some?
      ensures Stored(leaves, l)
    {
      if l in rest {
        assert l in leaves;
      }
    }
  }

  lemma StoredTransitive(a: seq<LeafRouter>, b: seq<LeafRouter>, l: LeafRouter)
    requires Stored(b, l) && l.macsec.Some? && FromSnapshot(b, a)
    ensures Stored(a, l)
  {
    var j :| 0 <= j < |b| && SameLeaf(b[j], l) && b[j].macsec == l.macsec;
    assert Stored(a, b[j]);
  }

  lemma OtherKeepsInv(m: Main, e: Event)
    requires Inv(m) && IsOther(e)
    ensures Inv(Step(m, e))
    ensures FromSnapshot(Step(m, e).leaves, m.leaves) && Step(m, e).tx == m.tx
  {
    var after := Step(m, e).leaves;
    if e.Put? && PutAccepted(e.entry, e.trusted) {
      PutSound(m.leaves, e.entry, e.trusted.value);
    } else if e.Delete? {
      WithoutSound(m.leaves, e.entry);
    }
    forall i | 0 <= i < |after| && after[i].macsec.Some?
      ensures Stored(m.leaves, after[i])
    {
      assert after[i] in after;
      if !(e.Put? && PutAccepted(e.entry, e.trusted)) {
        assert after[i] in m.leaves;
      }
    }
    if m.tx.Some? {
      forall i | 0 <= i < |after| && after[i].macsec.Some?
        ensures Stored(m.tx.value.leaves, after[i])
      {
        StoredTransitive(m.tx.value.leaves, m.leaves, after[i]);
      }
    }
  }

  /** The association that an enable writes has a port in range that no other leaf holds - neither
      in the snapshot nor, leaves having only come and gone since, at the time of the write. */
  lemma EnablePort(m: Main, i: int, ask: Ask, l: Local, reply: Option<LeafConfig.Reply>)
    requires Inv(m) && m.tx.Some? && i == Target(m) && i >= 0
    requires EnableLeaf(m.tx.value.leaf, m.tx.value.leaves, ask, l, reply).Some?
    ensures var next := EnableLeaf(m.tx.value.leaf, m.tx.value.leaves, ask, l, reply).value;
            PortRange(next) && !Conflict(m.leaves, i, next.port)
  {
    var leaf, snapshot := m.tx.value.leaf, m.tx.value.leaves;
    var next := EnableLeaf(leaf, snapshot, ask, l, reply).value;
    var at :| 0 <= at < |snapshot| && snapshot[at] == leaf;
    forall k | 0 <= k < |m.leaves| && k != i && m.leaves[k].macsec.Some?
      ensures m.leaves[k].macsec.value.port != next.port
    {
      assert Stored(snapshot, m.leaves[k]);
      var j :| 0 <= j < |snapshot| && SameLeaf(snapshot[j], m.leaves[k]) && snapshot[j].macsec == m.leaves[k].macsec;
      assert !SameLeaf(m.leaves[k], m.leaves[i]);
      assert j != at;
    }
  }

  lemma WrittenSound(leaves: seq<LeafRouter>, i: int, next: Option<LeafMACsec>, pending: bool)
    requires Sound(leaves) && 0 <= i < |leaves|
    requires next.Some? ==> PortRange(next.value) && !Conflict(leaves, i, next.value.port)
    ensures Sound(leaves[i := leaves[i].(macsec := next, pending := pending)])
  {
    var after := leaves[i := leaves[i].(macsec := next, pending := pending)];
    forall a, b | 0 <= a < b < |after|
      ensures !SameLeaf(after[a], after[b])
    {
      assert !SameLeaf(leaves[a], leaves[b]);
    }
  }

  /** At a commit, the leaf found holds either exactly the snapshot's association or none. */
  lemma TargetRecord(m: Main, i: int)
    requires Inv(m) && m.tx.Some? && i == Target(m) && i >= 0
    ensures m.leaves[i].macsec.None? || m.leaves[i].macsec == m.tx.value.leaf.macsec
  {
    if m.leaves[i].macsec.Some? {
      var leaf, snapshot := m.tx.value.leaf, m.tx.value.leaves;
      var at :| 0 <= at < |snapshot| && snapshot[at] == leaf;
      assert Stored(snapshot, m.leaves[i]);
      var j :| 0 <= j < |snapshot| && SameLeaf(snapshot[j], m.leaves[i]) && snapshot[j].macsec == m.leaves[i].macsec;
      assert SameLeaf(snapshot[j], snapshot[at]);
      assert j == at;
    }
  }

  lemma StepKeepsInv(m: Main, e: Event)
    requires Inv(m)
    ensures Inv(Step(m, e))
  {
    match e
    case Put(_, _) => OtherKeepsInv(m, e);
    case Delete(_) => OtherKeepsInv(m, e);
    case Begin(ip) =>
    case CommitEnable(ask, l, reply) =>
      if m.tx.Some? && EnableLeaf(m.tx.value.leaf, m.tx.value.leaves, ask, l, reply).Some? && Target(m) >= 0 {
        EnablePort(m, Target(m), ask, l, reply);
        WrittenSound(m.leaves, Target(m), EnableLeaf(m.tx.value.leaf, m.tx.value.leaves, ask, l, reply), false);
      }
    case CommitDisable =>
      if m.tx.Some? && Target(m) >= 0 {
        WrittenSound(m.leaves, Target(m), None, false);
      }
    case CommitPush(push, calls) =>
      if m.tx.Some? && PushCommits(m, e) {
        var i := Target(m);
        TargetRecord(m, i);
        WrittenSound(m.leaves, i, Some(Pushed(m.tx.value.leaf.macsec.value, push)), m.leaves[i].pending);
      }
  }

  const EMPTY := Main([], None)

  /** From an empty configuration, in every interleaving of change requests with leaf PUTs and
      DELETEs: (address, token) pairs are unique, and all stored associations are enabled and have
      pairwise distinct ports between 2 and 65000, WireGuard ones at most 254. */
  lemma {:induction false} ReachableSound(es: seq<Event>)
    ensures Inv(Run(EMPTY, es))
    decreases |es|
  {
    if es != [] {
      var last := |es| - 1;
      assert es == es[..last] + [es[last]];
      ReachableSound(es[..last]);
      RunSnoc(EMPTY, es[..last], es[last]);
      StepKeepsInv(Run(EMPTY, es[..last]), es[last]);
    }
  }

  /** No lost update: when a push commits, the association it overwrites is exactly the one it was
      computed from, and the write touches nothing but that leaf's record. */
  lemma NoLostUpdate(es: seq<Event>, push: Push)
    requires Run(EMPTY, es).tx.Some? && PushCommits(Run(EMPTY, es), CommitPush(push, true))
    ensures var m := Run(EMPTY, es);
            var i := Target(m);
            && i >= 0 && m.leaves[i].macsec == m.tx.value.leaf.macsec
            && Run(EMPTY, es + [CommitPush(push, true)]).leaves
               == m.leaves[i := m.leaves[i].(macsec := Some(Pushed(m.leaves[i].macsec.value, push)))]
  {
    ReachableSound(es);
    RunSnoc(EMPTY, es, CommitPush(push, true));
    TargetRecord(Run(EMPTY, es), Target(Run(EMPTY, es)));
  }

  /** A push commits exactly when its leaf is still paired and kept its association: the nonce
      check never passes for another association and never rejects the same one. */
  lemma PushCommitsExactly(es: seq<Event>, push: Push)
    requires var tx := Run(EMPTY, es).tx;
             tx.Some? && tx.value.leaf.macsec.Some?
             && Pushed(tx.value.leaf.macsec.value, push) != tx.value.leaf.macsec.value
    ensures var m := Run(EMPTY, es);
            PushCommits(m, CommitPush(push, true))
            <==> Target(m) >= 0 && m.leaves[Target(m)].macsec == m.tx.value.leaf.macsec
  {
    ReachableSound(es);
    var m := Run(EMPTY, es);
    var at :| 0 <= at < |m.tx.value.leaves| && m.tx.value.leaves[at] == m.tx.value.leaf;
    if Target(m) >= 0 {
      TargetRecord(m, Target(m));
    }
  }

  /** The port-conflict answer is never given: since change requests exclude each other, the port
      an enable computed from its snapshot is still free when it commits. */
  lemma ConflictNeverHappens(es: seq<Event>, ask: Ask, l: Local, reply: Option<LeafConfig.Reply>)
    requires var m := Run(EMPTY, es);
             m.tx.Some? && Target(m) >= 0 && EnableLeaf(m.tx.value.leaf, m.tx.value.leaves, ask, l, reply).Some?
    ensures var m := Run(EMPTY, es);
            var next := EnableLeaf(m.tx.value.leaf, m.tx.value.leaves, ask, l, reply);
            Run(EMPTY, es + [CommitEnable(ask, l, reply)]) == Main(Written(m.leaves, Target(m), next), None)
  {
    ReachableSound(es);
    RunSnoc(EMPTY, es, CommitEnable(ask, l, reply));
    EnablePort(Run(EMPTY, es), Target(Run(EMPTY, es)), ask, l, reply);
  }

  // ---- The handlers ----

  class MainRouter {
    var leaves: seq<LeafRouter>
    /** The change request that holds the change lock, with what it read. */
    var tx: Option<Tx>
    ghost var log: seq<Event>

    function State(): Main
      reads this
    {
      Main(leaves, tx)
    }

    ghost predicate Valid()
      reads this
    {
      State() == Run(EMPTY, log)
    }

    constructor ()
      ensures Valid() && leaves == [] && tx.None? && log == []
    {
      leaves, tx, log := [], None, [];
    }

    static method FindLeafByIP(leaves: seq<LeafRouter>, ip: string) returns (index: int)
      ensures index == FindByIP(leaves, ip)
      ensures FirstWith(leaves, ip, index)
    {
      for i := 0 to |leaves|
        invariant forall j :: 0 <= j < i ==> leaves[j].ip != ip
      {
        if leaves[i].ip == ip {
          return i;
        }
      }
      index := -1;
    }

    /** Rebuilds the list without the entries that match, and keeps what the last one had. */
    method Rebuild(entry: LeafRouter) returns (kept: seq<LeafRouter>, preserved: Option<LeafMACsec>)
      ensures kept == Without(leaves, entry) && preserved == Preserved(leaves, entry)
    {
      kept, preserved := [], None;
      for i := 0 to |leaves|
        invariant kept == Without(leaves[..i], entry) && preserved == Preserved(leaves[..i], entry)
      {
        assert leaves[..i + 1] == leaves[..i] + [leaves[i]];
        WithoutSnoc(leaves[..i], leaves[i], entry);
        if SameLeaf(leaves[i], entry) {
          preserved := leaves[i].macsec;
        } else {
          kept := kept + [leaves[i]];
        }
      }
      assert leaves[..|leaves|] == leaves;
    }

    method PutLeaf(given: LeafRouter, trusted: Option<string>) returns (code: int)
      requires Valid()
      modifies this
      ensures Valid() && log == old(log) + [Put(given, trusted)] && State() == Step(old(State()), Put(given, trusted))
      ensures code == if PutAccepted(given, trusted) then 200 else 400
      ensures code == if given.tlsCA == "" && trusted.Some? && trusted.value != "" then 200 else 400
      ensures code == 400 ==> leaves == old(leaves)
      // All other leaves keep their entries; this one has one entry, the last.
      ensures code == 200 ==>
                && OthersKept(old(leaves), leaves, given) && |leaves| > 0
                && PutEntry(old(leaves), given, trusted.value, leaves[|leaves| - 1])
                && forall i :: 0 <= i < |leaves| - 1 ==> !SameLeaf(leaves[i], given)
    {
      ReachableSound(log);
      if trusted.Some? {
        PutKeepsOthers(leaves, given, trusted.value);
      }
      RunSnoc(EMPTY, log, Put(given, trusted));
      log := log + [Put(given, trusted)];
      if given.tlsCA != "" {
        return 400;
      }
      var kept, preserved := Rebuild(given);
      if trusted.None? || trusted.value == "" {
        return 400;
      }
      var entry := given.(tlsCA := trusted.value, macsec := preserved);
      if entry.macsec.Some? && entry.macsec.value.enabled {
        entry := entry.(pending := false);
      }
      leaves := kept + [entry];
      code := 200;
    }

    method DeleteLeaf(entry: LeafRouter)
      requires Valid()
      modifies this
      ensures Valid() && log == old(log) + [Delete(entry)] && State() == Step(old(State()), Delete(entry))
      ensures OthersKept(old(leaves), leaves, entry) && forall l :: l in leaves ==> !SameLeaf(l, entry)
    {
      WithoutExactly(leaves, entry);
      RunSnoc(EMPTY, log, Delete(entry));
      var kept, _ := Rebuild(entry);
      leaves := kept;
      log := log + [Delete(entry)];
    }

    /** PUT and DELETE requests that other goroutines handle meanwhile. */
    method Others()
      requires Valid()
      modifies this
      ensures Valid() && tx == old(tx)
      ensures FromSnapshot(leaves, old(leaves))
    {
      ReachableSound(log);
      assert FromSnapshot(leaves, leaves);
      var n: nat := *;
      while n > 0
        invariant Valid() && tx == old(tx) && Inv(State()) && FromSnapshot(leaves, old(leaves))
      {
        ghost var before := State();
        var entry: LeafRouter, trusted: Option<string>, put: bool := *, *, *;
        OtherKeepsInv(before, Put(entry, trusted));
        OtherKeepsInv(before, Delete(entry));
        if put {
          var _ := PutLeaf(entry, trusted);
        } else {
          DeleteLeaf(entry);
        }
        forall i | 0 <= i < |leaves| && leaves[i].macsec.Some?
          ensures Stored(old(leaves), leaves[i])
        {
          StoredTransitive(old(leaves), before.leaves, leaves[i]);
        }
        n := n - 1;
      }
    }

    /** Takes the change lock and reads the leaf and the list. */
    method Lock(ip: string) returns (leaf: Option<LeafRouter>)
      requires Valid() && tx.None?
      modifies this
      ensures Valid() && leaves == old(leaves) && log == old(log) + [Begin(ip)]
      ensures leaf.Some? <==> tx.Some?
      ensures leaf.Some? ==> leaf.value in leaves && FindByIP(leaves, ip) >= 0 && leaf.value == leaves[FindByIP(leaves, ip)]
                             && tx == Some(Tx(leaf.value, leaves))
      ensures leaf.None? ==> forall l :: l in leaves ==> l.ip != ip
    {
      RunSnoc(EMPTY, log, Begin(ip));
      log := log + [Begin(ip)];
      var index := FindLeafByIP(leaves, ip);
      if index < 0 {
        return None;
      }
      tx := Some(Tx(leaves[index], leaves));
      leaf := Some(leaves[index]);
    }

    /** Re-validates and writes the outcome of an enable (`e` says how it was computed) or disable. */
    method CommitSet(next: Option<LeafMACsec>, ghost e: Event) returns (code: int)
      requires Valid() && tx.Some?
      requires if next.None? then e == CommitDisable
               else e.CommitEnable? && next == EnableLeaf(tx.value.leaf, tx.value.leaves, e.ask, e.l, e.reply)
      modifies this
      ensures Valid() && tx.None? && State() == Step(old(State()), e)
      ensures code == 200 ==> old(Target(State())) >= 0 && leaves == Written(old(leaves), old(Target(State())), next)
      ensures code == 409 ==> leaves == old(leaves)
      ensures code in {200, 409}
      // It is refused exactly if its leaf is not the first with the address any more.
      ensures code == 200 <==> StillFirst(old(leaves), old(tx.value.leaf))
      ensures code == 200 ==> OnlyRecord(old(leaves), leaves, old(tx.value.leaf), next)
    {
      if next.Some? {
        ReachableSound(log);
        if Target(State()) >= 0 {
          EnablePort(State(), Target(State()), e.ask, e.l, e.reply);
        }
      }
      RunSnoc(EMPTY, log, e);
      log := log + [e];
      var leaf := tx.value.leaf;
      tx := None;
      var index := FindLeafByIP(leaves, leaf.ip);
      if index < 0 || !SameLeaf(leaves[index], leaf) {
        return 409;
      }
      if next.Some? {
        var conflict := PortTaken(index, next.value.port);
        if conflict {
          return 409;
        }
      }
      leaves := leaves[index := leaves[index].(macsec := next, pending := false)];
      code := 200;
    }

    method PortTaken(index: int, port: int) returns (taken: bool)
      ensures taken <==> Conflict(leaves, index, port)
    {
      for i := 0 to |leaves|
        invariant forall j :: 0 <= j < i && j != index && leaves[j].macsec.Some? ==> leaves[j].macsec.value.port != port
      {
        if i != index && leaves[i].macsec.Some? && leaves[i].macsec.value.port == port {
          return true;
        }
      }
      taken := false;
    }

    /** Writes what a push told the leaf, if the association is still the same. */
    method CommitPushed(push: Push)
      requires Valid() && tx.Some? && tx.value.leaf.macsec.Some? && tx.value.leaf.macsec.value.enabled
      requires Pushed(tx.value.leaf.macsec.value, push) != tx.value.leaf.macsec.value
      modifies this
      ensures Valid() && tx.None? && State() == Step(old(State()), CommitPush(push, true))
      ensures leaves == PushedInto(old(leaves), old(tx.value.leaf), push)
      ensures PushLanded(old(leaves), leaves, old(tx.value.leaf), push)
    {
      PushWrites(log, push);
      Landed(leaves, tx.value.leaf, push);
      RunSnoc(EMPTY, log, CommitPush(push, true));
      log := log + [CommitPush(push, true)];
      var leaf, next := tx.value.leaf, Pushed(tx.value.leaf.macsec.value, push);
      var index := FindLeafByIP(leaves, leaf.ip);
      if index >= 0 && SameLeaf(leaves[index], leaf) && leaves[index].macsec.Some?
         && leaves[index].macsec.value.keyNonce == next.keyNonce {
        leaves := leaves[index := leaves[index].(macsec := Some(next))];
      }
      tx := None;
    }

    /** A change request gives up. */
    method Abort(ghost e: Event)
      requires Valid() && tx.Some? && Step(State(), e) == Main(leaves, None)
      modifies this
      ensures Valid() && tx.None? && leaves == old(leaves)
    {
      RunSnoc(EMPTY, log, e);
      log := log + [e];
      tx := None;
    }

    /** Sends the offer to the leaf; gives up without a usable offer or reply. */
    method AskLeaf(ask: Ask, l: Local, reply: Option<LeafConfig.Reply>) returns (next: Option<LeafMACsec>)
      requires Valid() && tx.Some? && leaves == tx.value.leaves
      modifies this
      ensures Valid() && FromSnapshot(leaves, old(leaves))
      ensures next == EnableLeaf(old(tx.value.leaf), old(leaves), ask, l, reply)
      ensures tx == if next.Some? then old(tx) else None
    {
      var offer := EnableLeafMACsec(tx.value.leaf, tx.value.leaves, ask, l);
      next := None;
      if offer.Some? {
        Others();
        next := Finish(offer.value, reply);
      }
      if !next.Some? {
        Abort(CommitEnable(ask, l, reply));
      }
    }

    /** Enables or disables one leaf. `reply`, `httpOk` and `wireOk` are what the leaf's answers
        turn out to be. */
    method SetLeaf(ip: string, enable: bool, ask: Ask, l: Local, reply: Option<LeafConfig.Reply>, httpOk: bool, wireOk: bool)
      returns (code: int, ghost found: seq<LeafRouter>)
      requires Valid() && tx.None?
      modifies this
      ensures Valid() && tx.None? && code in {200, 400, 404, 409, 502}
      ensures code in {400, 404, 409} ==> FromSnapshot(leaves, old(leaves)) && leaves == found
      // `found` is the list when it takes the configuration lock at last. Each answer has its reason.
      ensures FromSnapshot(found, old(leaves))
      ensures code == 404 <==> FirstWith(old(leaves), ip, -1)
      ensures code == 400 <==> && enable && !FirstWith(old(leaves), ip, -1)
                               && EnableLeaf(old(leaves)[FindByIP(old(leaves), ip)], old(leaves), ask, l, reply).None?
      ensures code == 409 ==> !StillFirst(found, old(leaves)[FindByIP(old(leaves), ip)])
      ensures code in {200, 502} ==>
                var i := FindByIP(old(leaves), ip);
                && FirstWith(old(leaves), ip, i) && i >= 0 && StillFirst(found, old(leaves)[i])
                && (code == 502 <==> !enable && EnabledLeaf(old(leaves)[i]) && !httpOk && !wireOk)
                && var record := if enable then EnableLeaf(old(leaves)[i], old(leaves), ask, l, reply) else None;
                   OnlyRecord(found, leaves, old(leaves)[i], record) && (enable ==> record.Some? && AsAsked(record.value, ask))
      ensures code == 502 ==> !enable && !httpOk && !wireOk
      // Whatever happened meanwhile, after success the leaf holds exactly what was offered to it and
      // agreed on - computed from what the request read - or nothing after a disable.
      ensures code in {200, 502} && enable ==>
                && FindByIP(old(leaves), ip) >= 0
                && var next := EnableLeaf(old(leaves)[FindByIP(old(leaves), ip)], old(leaves), ask, l, reply);
                   next.Some? && Holds(leaves, ip, next)
      ensures code in {200, 502} && !enable ==> Holds(leaves, ip, None)
    {
      SelfSnapshot(leaves);
      found := leaves;
      var leaf := Lock(ip);
      if !leaf.Some? {
        return 404, found;
      }
      var next: Option<LeafMACsec> := None;
      var acked := true;
      if enable {
        next := AskLeaf(ask, l, reply);
        found := leaves;
        if !next.Some? {
          return 400, found;
        }
        RecordAsAsked(leaf.value, old(leaves), ask, l, reply);
      } else {
        if leaf.value.macsec.Some? && leaf.value.macsec.value.enabled {
          acked := httpOk || wireOk;
        }
        Others();
      }
      found := leaves;
      WrittenHolds(State(), next);
      code := CommitSet(next, if enable then CommitEnable(ask, l, reply) else CommitDisable);
      if code == 200 && !acked {
        code := 502;
      }
    }

    /** A push that changes something: the call to the leaf, during which others go on, and the
        commit. `found` is the list when it takes the configuration lock at last. */
    method PushLeafUpdate(push: Push, calls: bool) returns (code: int, ghost found: seq<LeafRouter>)
      requires Valid() && tx.Some? && leaves == tx.value.leaves && tx.value.leaf in leaves
      requires tx.value.leaf.macsec.Some? && tx.value.leaf.macsec.value.enabled
      modifies this
      ensures Valid() && tx.None? && code in {200, 502} && FromSnapshot(found, old(leaves))
      ensures code == 200 ==> leaves == PushedInto(found, old(tx.value.leaf), push) && PushLanded(found, leaves, old(tx.value.leaf), push)
      ensures code == 502 ==> !calls && leaves == found
      ensures code == 502 <==> !calls && !PushedTo(old(tx.value.leaf.macsec.value), push, old(tx.value.leaf.macsec.value))
    {
      SelfSnapshot(leaves);
      PushedExactly(tx.value.leaf.macsec.value, push, tx.value.leaf.macsec.value);
      found := leaves;
      if Pushed(tx.value.leaf.macsec.value, push) == tx.value.leaf.macsec.value {
        NothingPushed(leaves, tx.value.leaf, push);
        Landed(leaves, tx.value.leaf, push);
        Abort(CommitPush(push, false));
        return 200, found;
      }
      Others();
      found := leaves;
      if !calls {
        Abort(CommitPush(push, false));
        return 502, found;
      }
      CommitPushed(push);
      code := 200;
    }

    /** An MTU test or a jumbo switch, once it is known what to push. */
    method PushLeaf(ip: string, push: Push, calls: bool) returns (code: int, ghost found: seq<LeafRouter>)
      requires Valid() && tx.None?
      modifies this
      ensures Valid() && tx.None? && code in {200, 400, 404, 502}
      ensures code in {400, 404} ==> leaves == old(leaves)
      ensures code == 502 ==> !calls && leaves == found
      ensures FromSnapshot(found, old(leaves))
      // After success the leaf holds what was pushed exactly if it is still there with the association
      // that the request read; nothing else is written.
      ensures code == 200 ==>
                && FindByIP(old(leaves), ip) >= 0
                && var leaf := old(leaves)[FindByIP(old(leaves), ip)];
                   leaf.macsec.Some? && leaf.macsec.value.enabled && leaves == PushedInto(found, leaf, push)
      ensures code == 404 <==> FirstWith(old(leaves), ip, -1)
      ensures code != 404 ==>
                var leaf := old(leaves)[FindByIP(old(leaves), ip)];
                && leaf.ip == ip && (code == 400 <==> !EnabledLeaf(leaf))
                && (code == 502 <==> EnabledLeaf(leaf) && !calls && !PushedTo(leaf.macsec.value, push, leaf.macsec.value))
                && (code == 200 ==> PushLanded(found, leaves, leaf, push))
      // Every association is one from before the call, at the same leaf, as it was or with the push applied.
      ensures AllStored(old(leaves), leaves, push)
    {
      SelfSnapshot(leaves);
      KeptOrPushed(leaves, leaves, push);
      found := leaves;
      var leaf := Lock(ip);
      if !leaf.Some? {
        return 404, found;
      }
      if leaf.value.macsec.None? || !leaf.value.macsec.value.enabled {
        Abort(CommitPush(push, false));
        return 400, found;
      }
      code, found := PushLeafUpdate(push, calls);
      KeptOrPushed(old(leaves), found, push);
      PushStored(old(leaves), found, leaf.value, push);
    }
  }

  /** The list with the push applied to this leaf, if it is there with the same association. */
  function PushedInto(leaves: seq<LeafRouter>, leaf: LeafRouter, push: Push): seq<LeafRouter>
    requires leaf.macsec.Some?
  {
    var i := FindByIP(leaves, leaf.ip);
    if i >= 0 && SameLeaf(leaves[i], leaf) && leaves[i].macsec == leaf.macsec
    then leaves[i := leaves[i].(macsec := Some(Pushed(leaf.macsec.value, push)))]
    else leaves
  }

  predicate EnabledLeaf(leaf: LeafRouter) {
    leaf.macsec.Some? && leaf.macsec.value.enabled
  }

  /** A push was written where its leaf still is the first with its address and has the association that the
      push was made for, and nowhere else. */
  predicate PushLanded(before: seq<LeafRouter>, after: seq<LeafRouter>, leaf: LeafRouter, push: Push)
    requires leaf.macsec.Some?
  {
    && |after| == |before|
    && forall i :: 0 <= i < |before| ==>
         if FirstWith(before, leaf.ip, i) && before[i].apiToken == leaf.apiToken && before[i].macsec == leaf.macsec
         then after[i].macsec.Some? && after[i] == before[i].(macsec := after[i].macsec)
              && PushedTo(leaf.macsec.value, push, after[i].macsec.value)
         else after[i] == before[i]
  }

  lemma Landed(leaves: seq<LeafRouter>, leaf: LeafRouter, push: Push)
    requires leaf.macsec.Some?
    ensures PushLanded(leaves, PushedInto(leaves, leaf, push), leaf, push)
  {
    PushedExactly(leaf.macsec.value, push, Pushed(leaf.macsec.value, push));
  }

  /** The nonce check lets a push write exactly into the association it was computed from. */
  lemma PushWrites(es: seq<Event>, push: Push)
    requires var tx := Run(EMPTY, es).tx;
             tx.Some? && tx.value.leaf.macsec.Some? && tx.value.leaf.macsec.value.enabled
             && Pushed(tx.value.leaf.macsec.value, push) != tx.value.leaf.macsec.value
    ensures var m := Run(EMPTY, es);
            Step(m, CommitPush(push, true)).leaves == PushedInto(m.leaves, m.tx.value.leaf, push)
  {
    PushCommitsExactly(es, push);
  }

  /** A push that changes nothing need not be made. */
  lemma NothingPushed(leaves: seq<LeafRouter>, leaf: LeafRouter, push: Push)
    requires leaf.macsec.Some? && Pushed(leaf.macsec.value, push) == leaf.macsec.value
    ensures PushedInto(leaves, leaf, push) == leaves
  {
  }

  predicate Holds(leaves: seq<LeafRouter>, ip: string, macsec: Option<LeafMACsec>) {
    exists i :: 0 <= i < |leaves| && leaves[i].ip == ip && leaves[i].macsec == macsec && !leaves[i].pending
  }

  lemma SelfSnapshot(leaves: seq<LeafRouter>)
    ensures FromSnapshot(leaves, leaves)
  {
  }

  lemma WrittenHolds(m: Main, next: Option<LeafMACsec>)
    requires m.tx.Some?
    ensures Target(m) >= 0 ==> Holds(Written(m.leaves, Target(m), next), m.tx.value.leaf.ip, next)
  {
    if Target(m) >= 0 {
      assert Written(m.leaves, Target(m), next)[Target(m)].ip == m.tx.value.leaf.ip;
    }
  }

  predicate StoredOrPushed(before: seq<LeafRouter>, l: LeafRouter, push: Push)
    requires l.macsec.Some?
  {
    exists j :: 0 <= j < |before| && SameLeaf(before[j], l) && before[j].macsec.Some?
                && (before[j].macsec == l.macsec || Pushed(before[j].macsec.value, push) == l.macsec.value)
  }

  predicate AllStored(before: seq<LeafRouter>, leaves: seq<LeafRouter>, push: Push) {
    forall l {:trigger StoredOrPushed(before, l, push)} :: l in leaves && l.macsec.Some? ==> StoredOrPushed(before, l, push)
  }

  lemma KeptOrPushed(before: seq<LeafRouter>, leaves: seq<LeafRouter>, push: Push)
    requires before == leaves || FromSnapshot(leaves, before)
    ensures AllStored(before, leaves, push)
  {
    forall i | 0 <= i < |leaves| && leaves[i].macsec.Some?
      ensures StoredOrPushed(before, leaves[i], push)
    {
      if before == leaves {
        assert before[i].macsec == leaves[i].macsec;
      } else {
        assert Stored(before, leaves[i]);
      }
    }
  }

  lemma PushStored(before: seq<LeafRouter>, leaves: seq<LeafRouter>, leaf: LeafRouter, push: Push)
    requires leaf in before && leaf.macsec.Some?
    requires AllStored(before, leaves, push)
    ensures AllStored(before, PushedInto(leaves, leaf, push), push)
  {
    var after, at := PushedInto(leaves, leaf, push), FindByIP(leaves, leaf.ip);
    var j :| 0 <= j < |before| && before[j] == leaf;
    forall i | 0 <= i < |after| && after[i].macsec.Some?
      ensures StoredOrPushed(before, after[i], push)
    {
      if i < |leaves| && after[i] == leaves[i] {
        assert leaves[i] in leaves;
      } else {
        assert i == at && SameLeaf(before[j], after[i]);
      }
    }
  }

  lemma {:induction false} WithoutSnoc(leaves: seq<LeafRouter>, leaf: LeafRouter, entry: LeafRouter)
    ensures Without(leaves + [leaf], entry) == Without(leaves, entry) + (if SameLeaf(leaf, entry) then [] else [leaf])
  {
    if leaves != [] {
      assert (leaves + [leaf])[1..] == leaves[1..] + [leaf];
      WithoutSnoc(leaves[1..], leaf, entry);
    }
  }
}
