/** MKA participants: one per association, each with its own secure channel identifier, and the
    restarts of participants that never secure their link. */
module Mka {
  import opened Wrappers
  import opened Mesh
  import opened LinkSystem
  import Codec
  import LeafConfig

  /** What a participant is called: "main-<port>", "leaf", and the labels of WireGuard links. */
  datatype Id = MainId(port: int) | LeafId | WGId(port: int) | LeafWGId

  datatype Conf = Conf(port: int, priority: int, cak: Bytes, ckn: Bytes)

  datatype Instance = Instance(id: Id, parent: string, conf: Conf)

  predicate ValidInstance(inst: Instance) {
    && ValidIface(inst.parent) && ValidMACsecPort(inst.conf.port) && 0 <= inst.conf.priority <= 255
    && |inst.conf.cak| == 32 && |inst.conf.ckn| == 16
  }

  /** Big-endian value of a byte string. */
  function BigEndian(b: Bytes): nat {
    if b == [] then 0 else BigEndian(b[..|b| - 1]) * 0x100 + b[|b| - 1]
  }

  /** Secure channel identifier: the MAC address followed by 16 bits of port number. */
  function SCI(mac: Bytes, port: int): Option<nat> {
    if |mac| != 6 || !ValidMACsecPort(port) then None else Some(BigEndian(mac + Codec.U16(port)))
  }

  /** The port number an identifier belongs to. */
  function PortOf(sci: nat): nat { sci % 0x10000 }

  lemma BigEndianSnoc(b: Bytes, x: byte)
    ensures BigEndian(b + [x]) == BigEndian(b) * 0x100 + x
  {
    assert (b + [x])[..|b|] == b;
  }

  lemma SCIValue(mac: Bytes, port: int)
    requires |mac| == 6 && ValidMACsecPort(port)
    ensures SCI(mac, port) == Some(BigEndian(mac) * 0x10000 + port)
    ensures PortOf(SCI(mac, port).value) == port
  {
    var u := Codec.U16(port);
    assert mac + u == (mac + [u[0]]) + [u[1]];
    BigEndianSnoc(mac, u[0]);
    BigEndianSnoc(mac + [u[0]], u[1]);
    Codec.U16RoundTrip(port);
    LowBits(BigEndian(mac), port);
  }

  /** The identifier of an address, octet by octet. */
  lemma SCIOctets(a: byte, b: byte, c: byte, d: byte, e: byte, f: byte, port: int)
    requires ValidMACsecPort(port)
    ensures SCI([a, b, c, d, e, f], port)
            == Some((((((a * 0x100 + b) * 0x100 + c) * 0x100 + d) * 0x100 + e) * 0x100 + f) * 0x10000 + port)
  {
    SCIValue([a, b, c, d, e, f], port);
    assert [a] == [] + [a] && [a, b] == [a] + [b] && [a, b, c] == [a, b] + [c];
    BigEndianSnoc([], a);
    BigEndianSnoc([a], b);
    BigEndianSnoc([a, b], c);
    assert [a, b, c, d] == [a, b, c] + [d];
    BigEndianSnoc([a, b, c], d);
    assert [a, b, c, d, e] == [a, b, c, d] + [e];
    BigEndianSnoc([a, b, c, d], e);
    assert [a, b, c, d, e, f] == [a, b, c, d, e] + [f];
    BigEndianSnoc([a, b, c, d, e], f);
  }

  lemma LowBits(high: nat, low: nat)
    requires low < 0x10000
    ensures (high * 0x10000 + low) % 0x10000 == low
  {
  }

  lemma {:induction false} BigEndianInjective(a: Bytes, b: Bytes)
    requires |a| == |b| && BigEndian(a) == BigEndian(b)
    ensures a == b
  {
    if a != [] {
      BigEndianInjective(a[..|a| - 1], b[..|b| - 1]);
      assert a == a[..|a| - 1] + [a[|a| - 1]] && b == b[..|b| - 1] + [b[|b| - 1]];
    }
  }

  /** Different addresses or ports have different identifiers. */
  lemma SCIInjective(mac: Bytes, port: int, mac': Bytes, port': int)
    requires SCI(mac, port).Some? && SCI(mac, port) == SCI(mac', port')
    ensures mac == mac' && port == port'
  {
    SCIValue(mac, port);
    SCIValue(mac', port');
    BigEndianInjective(mac, mac');
  }

  datatype Running = Running(conf: Conf, parent: string, parentMAC: Bytes, sci: nat)

  datatype Restart = Restart(id: Id, at: int)

  /** The port whose devices a participant may touch. */
  function IdPort(id: Id): int {
    match id
    case MainId(p) => p
    case LeafId => LEAF_PORT
    case WGId(p) => p
    case LeafWGId => LEAF_PORT
  }

  /** From index `from` on, only devices of port `p` were deleted. */
  predicate OnlyPort(deletions: seq<Deletion>, from: nat, p: int) {
    forall i :: from <= i < |deletions| ==> deletions[i].port.kind.SecY? && PortOf(deletions[i].port.kind.sci) == p
  }

  /** From index `from` on, only devices of this parent and identifier were deleted. */
  predicate OnlySecY(deletions: seq<Deletion>, from: nat, parent: string, sci: nat) {
    forall i :: from <= i < |deletions| ==> IsSecY(deletions[i].port, parent, sci)
  }

  /** Every device table since index `from` was reached quietly from `a`. */
  predicate AllQuiet(r: set<string>, a: Kernel, history: seq<Kernel>, from: nat) {
    forall i :: from <= i < |history| ==> Quiet(r, a, history[i])
  }

  predicate IsSecY(p: Port, parent: string, sci: nat) {
    p.kind.SecY? && p.kind.parent == parent && p.kind.sci == sci
  }

  predicate NoSecY(k: Kernel, parent: string, sci: nat) {
    forall n :: n in k ==> !IsSecY(k[n], parent, sci)
  }

  /** From index `from` on, only devices of the ports of these participants were deleted. */
  predicate OnlyStopped(deletions: seq<Deletion>, from: nat, ids: set<Id>) {
    forall i :: from <= i < |deletions| ==>
      deletions[i].port.kind.SecY? && exists id :: id in ids && PortOf(deletions[i].port.kind.sci) == IdPort(id)
  }

  /** From index `from` on, only devices of MACsec leaves' ports or of these participants' were deleted. */
  predicate OnlyOwned(deletions: seq<Deletion>, from: nat, leaves: seq<LeafRouter>, ids: set<Id>) {
    forall i :: from <= i < |deletions| ==>
      deletions[i].port.kind.SecY? && ((exists id :: id in ids && PortOf(deletions[i].port.kind.sci) == IdPort(id))
                                       || HasLeaf(leaves, MainId(PortOf(deletions[i].port.kind.sci))))
  }

  /** Quiet steps in a row are quiet. */
  lemma QuietLater(r: set<string>, a: Kernel, b: Kernel, history: seq<Kernel>, from: nat, middle: nat)
    requires from <= middle <= |history| && Quiet(r, a, b)
    requires AllQuiet(r, a, history[..middle], from) && AllQuiet(r, b, history, middle)
    ensures AllQuiet(r, a, history, from)
    ensures middle < |history| ==> Quiet(r, a, history[|history| - 1])
  {
    forall i | from <= i < |history| ensures Quiet(r, a, history[i]) {
      if i < middle {
        assert history[..middle][i] == history[i];
      } else {
        QuietTransitive(r, a, b, history[i]);
      }
    }
  }

  /** The process of a participant that runs is stopped, and the one of an instance perhaps started. */
  function StopOf(procs: map<Id, Running>, id: Id): seq<ProcessEvent> {
    if id in procs then [Stopped(procs[id].parent, procs[id].conf.port)] else []
  }

  function StartOf(inst: Instance, ok: bool): seq<ProcessEvent> {
    if ok then [Started(inst.parent, inst.conf.port, inst.conf.priority, inst.conf.cak, inst.conf.ckn)] else []
  }

  lemma PutAgain(procs: map<Id, Running>, id: Id, r: Running)
    ensures (procs - {id})[id := r] == procs[id := r]
  {
  }

  function Kept(procs: map<Id, Running>, ids: set<Id>): map<Id, Running> {
    map id | id in procs && id in ids :: procs[id]
  }

  lemma KeptNext(procs: map<Id, Running>, keep: set<Id>, todo: set<Id>, id: Id)
    requires id in todo && todo <= procs.Keys - keep
    ensures id in Kept(procs, keep + todo) && Kept(procs, keep + todo)[id] == procs[id]
    ensures Kept(procs, keep + todo) - {id} == Kept(procs, keep + (todo - {id}))
  {
  }

  /** Since index `from` the processes of these participants were stopped. */
  ghost predicate AllStopped(procs: map<Id, Running>, ids: set<Id>, events: seq<ProcessEvent>, from: nat) {
    from <= |events|
    && forall id :: id in ids && id in procs ==> Stopped(procs[id].parent, procs[id].conf.port) in events[from..]
  }

  lemma StoppedNext(procs: map<Id, Running>, now: map<Id, Running>, ids: set<Id>, events: seq<ProcessEvent>, from: nat, id: Id)
    requires AllStopped(procs, ids, events, from) && id in procs && id in now && now[id] == procs[id]
    ensures AllStopped(procs, ids + {id}, events + StopOf(now, id), from)
  {
    assert (events + StopOf(now, id))[from..] == events[from..] + StopOf(now, id);
  }

  class Participants {
    const sys: Sys
    var procs: map<Id, Running>
    var unsecured: map<Id, int>
    var restarted: map<Id, int>
    /** The latest time read. */
    var clock: int
    /** Every restart of a stuck participant so far. */
    ghost var restarts: seq<Restart>

    constructor (sys: Sys)
      ensures this.sys == sys && procs == map[] && Spaced() && restarts == []
    {
      this.sys, procs, unsecured, restarted, restarts, clock := sys, map[], map[], map[], [], 0;
    }

    /** Each participant holds the identifier of its own address and its own port. */
    ghost predicate OwnPorts()
      reads this
    {
      forall id :: id in procs ==>
        var r := procs[id];
        && SCI(r.parentMAC, r.conf.port) == Some(r.sci) && r.conf.port == IdPort(id)
        && PortOf(r.sci) == IdPort(id)
    }

    ghost predicate Valid()
      reads this, sys
    {
      sys.Valid() && OwnPorts() && Spaced()
    }

    /** Restarts of one participant are at least 30 s apart, and the two time maps remember enough
        to keep it so. */
    ghost predicate Spaced()
      reads this
    {
      && (forall i, j :: 0 <= i < j < |restarts| && restarts[i].id == restarts[j].id ==>
            restarts[j].at - restarts[i].at >= MKA_RESTART)
      && (forall i :: 0 <= i < |restarts| ==> restarts[i].at <= clock && Remembered(restarts[i]))
    }

    ghost predicate Remembered(r: Restart)
      reads this
    {
      if r.id in restarted then restarted[r.id] >= r.at else r.id in unsecured ==> unsecured[r.id] >= r.at
    }

    /** Deletes one listed device. */
    method DeleteListed(link: SecYLink, ghost a: Kernel, ghost h: nat) returns (ok: bool)
      requires sys.Valid() && Listed(sys.k, link) && Quiet(sys.reserved, a, sys.k)
      requires h <= |sys.history| && AllQuiet(sys.reserved, a, sys.history, h)
      modifies sys
      ensures sys.Valid() && old(sys.history) <= sys.history
      ensures Quiet(sys.reserved, a, sys.k) && AllQuiet(sys.reserved, a, sys.history, h)
      ensures sys.deletions == old(sys.deletions) + [Deletion(link.name, old(sys.k)[link.name])]
      ensures sys.lapses == if ok then old(sys.lapses) else old(sys.lapses) + [NotDeleted(link.name)]
      ensures sys.k == if ok then old(sys.k) - {link.name} else old(sys.k)
      ensures forall l: SecYLink :: Listed(old(sys.k), l) && l.name != link.name ==> Listed(sys.k, l)
      ensures (sys.steady ==> ok) && sys.processes == old(sys.processes)
    {
      DeleteQuiet(sys.reserved, a, sys.k, link);
      ok := sys.DeleteLink(link.name);
    }

    /** Deletes the MACsec devices of one parent and identifier, ignoring failures. */
    method DeleteSecY(parent: string, sci: nat) returns (ghost clean: bool)
      requires sys.Valid()
      modifies sys
      ensures sys.Valid() && old(sys.history) <= sys.history && old(sys.lapses) <= sys.lapses && old(sys.deletions) <= sys.deletions
      ensures Quiet(sys.reserved, old(sys.k), sys.k)
      ensures AllQuiet(sys.reserved, old(sys.k), sys.history, |old(sys.history)|)
      ensures OnlySecY(sys.deletions, |old(sys.deletions)|, parent, sci)
      ensures clean ==> NoSecY(sys.k, parent, sci)
      ensures clean <==> sys.lapses == old(sys.lapses)
      ensures (sys.steady ==> clean) && sys.processes == old(sys.processes) && |sys.history| > |old(sys.history)|
    {
      var links := sys.Links();
      clean := links.Some?;
      if links.None? {
        return;
      }
      var i := 0;
      while i < |links.value|
        invariant 0 <= i <= |links.value|
        invariant sys.Valid() && old(sys.history) <= sys.history && old(sys.lapses) <= sys.lapses && old(sys.deletions) <= sys.deletions
        invariant Quiet(sys.reserved, old(sys.k), sys.k)
        invariant AllQuiet(sys.reserved, old(sys.k), sys.history, |old(sys.history)|)
        invariant OnlySecY(sys.deletions, |old(sys.deletions)|, parent, sci)
        invariant forall j :: i <= j < |links.value| ==> Listed(sys.k, links.value[j])
        invariant clean <==> sys.lapses == old(sys.lapses)
        invariant (sys.steady ==> clean) && sys.processes == old(sys.processes) && |sys.history| > |old(sys.history)|
        invariant clean ==> forall n :: n in sys.k && IsSecY(sys.k[n], parent, sci) ==> NamedFrom(links.value, i, n)
      {
        var link := links.value[i];
        assert forall n :: NamedFrom(links.value, i, n) ==> n == link.name || NamedFrom(links.value, i + 1, n);
        if link.parent == parent && link.sci == sci {
          var ok := DeleteListed(link, old(sys.k), |old(sys.history)|);
          clean := clean && ok;
        }
        i := i + 1;
      }
    }

    method StopMKA(id: Id) returns (ghost clean: bool)
      requires Valid()
      modifies this`procs, sys
      ensures Valid() && old(sys.history) <= sys.history && old(sys.lapses) <= sys.lapses && old(sys.deletions) <= sys.deletions
      ensures procs == old(procs) - {id}
      ensures AllQuiet(sys.reserved, old(sys.k), sys.history, |old(sys.history)|)
      ensures OnlyPort(sys.deletions, |old(sys.deletions)|, IdPort(id))
      ensures Quiet(sys.reserved, old(sys.k), sys.k)
      ensures clean && id in old(procs) ==> NoSecY(sys.k, old(procs)[id].parent, old(procs)[id].sci)
      ensures id !in old(procs) ==> unchanged(sys)
      ensures sys.steady ==> clean
      ensures clean <==> sys.lapses == old(sys.lapses)
      ensures id in old(procs) ==> OnlySecY(sys.deletions, |old(sys.deletions)|, old(procs)[id].parent, old(procs)[id].sci)
      ensures sys.processes == old(sys.processes) + StopOf(old(procs), id)
    {
      clean := true;
      if id !in procs {
        return;
      }
      var running := procs[id];
      sys.StopProcess(running.parent, running.conf.port);
      clean := DeleteSecY(running.parent, running.sci);
      procs := procs - {id};
    }

    /** Starts the participant of an instance, or leaves it alone when it already runs with this
        configuration, parent and address and its process has not exited. */
    method EnsureMKA(inst: Instance, mac: Bytes, exited: bool) returns (running: bool, ok: bool)
      requires Valid() && inst.conf.port == IdPort(inst.id)
      modifies this, sys
      ensures Valid() && old(sys.history) <= sys.history && old(sys.lapses) <= sys.lapses && old(sys.deletions) <= sys.deletions
      ensures unchanged(`unsecured, `restarted, `restarts, `clock)
      ensures Quiet(sys.reserved, old(sys.k), sys.k)
      ensures AllQuiet(sys.reserved, old(sys.k), sys.history, |old(sys.history)|)
      ensures OnlyPort(sys.deletions, |old(sys.deletions)|, IdPort(inst.id))
      ensures running == ok && (ok ==> ValidInstance(inst) && SCI(mac, inst.conf.port).Some?)
      ensures ok ==> procs == old(procs)[inst.id := Running(inst.conf, inst.parent, mac, SCI(mac, inst.conf.port).value)]
      ensures !ok ==> procs == old(procs) - {inst.id} || (procs == old(procs) && (!ValidInstance(inst) || |mac| != 6))
      ensures sys.works ==> (ok <==> ValidInstance(inst) && |mac| == 6)
      ensures ok && !exited && procs == old(procs) ==> unchanged(sys)
      // A participant is started only where no device of its identifier was left.
      ensures ok && !unchanged(sys) && sys.steady ==> NoSecY(sys.k, inst.parent, SCI(mac, inst.conf.port).value)
      ensures ok && unchanged(sys) ==> !exited && inst.id in old(procs) && procs == old(procs)
      ensures !unchanged(sys) ==> sys.processes == old(sys.processes) + StopOf(old(procs), inst.id) + StartOf(inst, ok)
      ensures ok && (exited || procs != old(procs)) && sys.steady ==> NoSecY(sys.k, inst.parent, SCI(mac, inst.conf.port).value)
    {
      if !ValidInstance(inst) {
        return false, false;
      }
      var sci := SCI(mac, inst.conf.port);
      if sci.None? {
        return false, false;
      }
      SCIValue(mac, inst.conf.port);
      if inst.id in procs {
        var r := procs[inst.id];
        if !exited && r.conf == inst.conf && r.parent == inst.parent && r.parentMAC == mac {
          return true, true;
        }
      }
      ok := Relaunch(inst, mac, sci.value);
      running := ok;
    }

    /** Stops the participant if there is one and starts it again. */
    method Relaunch(inst: Instance, mac: Bytes, sci: nat) returns (ok: bool)
      requires Valid() && SCI(mac, inst.conf.port) == Some(sci)
      requires PortOf(sci) == inst.conf.port == IdPort(inst.id)
      modifies this`procs, sys
      ensures Valid() && old(sys.history) <= sys.history && old(sys.lapses) <= sys.lapses && old(sys.deletions) <= sys.deletions
      ensures Quiet(sys.reserved, old(sys.k), sys.k)
      ensures AllQuiet(sys.reserved, old(sys.k), sys.history, |old(sys.history)|)
      ensures OnlyPort(sys.deletions, |old(sys.deletions)|, IdPort(inst.id))
      ensures procs == if ok then old(procs)[inst.id := Running(inst.conf, inst.parent, mac, sci)] else old(procs) - {inst.id}
      ensures (sys.works ==> ok) && (sys.steady ==> NoSecY(sys.k, inst.parent, sci)) && |sys.history| > |old(sys.history)|
      ensures sys.processes == old(sys.processes) + StopOf(old(procs), inst.id) + StartOf(inst, ok)
    {
      ghost var _ := StopMKA(inst.id);
      ghost var middle, h := sys.k, |sys.history|;
      ok := Launch(inst, mac, sci);
      PutAgain(old(procs), inst.id, Running(inst.conf, inst.parent, mac, sci));
      QuietLater(sys.reserved, old(sys.k), middle, sys.history, |old(sys.history)|, h);
    }

    /** Removes a stale device of the identifier, writes the configuration and starts the process. */
    method Launch(inst: Instance, mac: Bytes, sci: nat) returns (ok: bool)
      requires Valid() && inst.id !in procs && SCI(mac, inst.conf.port) == Some(sci)
      requires PortOf(sci) == inst.conf.port == IdPort(inst.id)
      modifies this`procs, sys
      ensures Valid() && old(sys.history) <= sys.history && old(sys.lapses) <= sys.lapses && old(sys.deletions) <= sys.deletions
      ensures Quiet(sys.reserved, old(sys.k), sys.k)
      ensures AllQuiet(sys.reserved, old(sys.k), sys.history, |old(sys.history)|)
      ensures OnlyPort(sys.deletions, |old(sys.deletions)|, IdPort(inst.id))
      ensures procs == if ok then old(procs)[inst.id := Running(inst.conf, inst.parent, mac, sci)] else old(procs)
      ensures (sys.works ==> ok) && (sys.steady ==> NoSecY(sys.k, inst.parent, sci)) && |sys.history| > |old(sys.history)|
      ensures sys.processes == old(sys.processes) + StartOf(inst, ok)
    {
      ghost var _ := DeleteSecY(inst.parent, sci);
      ok := StartProcess(inst);
      if ok {
        procs := procs[inst.id := Running(inst.conf, inst.parent, mac, sci)];
      }
    }

    /** The configuration file and the process. */
    method StartProcess(inst: Instance) returns (ok: bool)
      modifies sys`processes
      ensures sys.works ==> ok
      ensures sys.processes == old(sys.processes) + StartOf(inst, ok)
    {
      ok := sys.Cmd();
      if ok {
        ok := sys.StartMKA(inst.parent, inst.conf.port, inst.conf.priority, inst.conf.cak, inst.conf.ckn);
      }
    }

    /** Stops one of several participants; `a`, `h` and `d` are from before the first of them. */
    method StopNext(id: Id, ghost a: Kernel, ghost h: nat, ghost d: nat, ghost ids: set<Id>,
                    ghost running: map<Id, Running>, ghost gone: set<Id>, ghost e: nat)
      requires Valid() && id in procs && id in ids && h <= |sys.history| && d <= |sys.deletions|
      requires id in running && procs[id] == running[id] && AllStopped(running, gone, sys.processes, e)
      requires Quiet(sys.reserved, a, sys.k) && AllQuiet(sys.reserved, a, sys.history, h)
      requires OnlyStopped(sys.deletions, d, ids)
      modifies this, sys
      ensures Valid() && old(sys.history) <= sys.history && old(sys.lapses) <= sys.lapses && old(sys.deletions) <= sys.deletions
      ensures unchanged(`unsecured, `restarted, `restarts, `clock)
      ensures procs == old(procs) - {id}
      ensures Quiet(sys.reserved, a, sys.k) && AllQuiet(sys.reserved, a, sys.history, h)
      ensures OnlyStopped(sys.deletions, d, ids) && AllStopped(running, gone + {id}, sys.processes, e)
    {
      StoppedNext(running, procs, gone, sys.processes, e, id);
      ghost var middle, m := sys.k, |sys.history|;
      ghost var _ := StopMKA(id);
      QuietLater(sys.reserved, a, middle, sys.history, h, m);
    }

    /** Stops every participant that is not to be kept. */
    method StopAllMKA(keep: set<Id>)
      requires Valid()
      modifies this, sys
      ensures Valid() && old(sys.history) <= sys.history && old(sys.lapses) <= sys.lapses && old(sys.deletions) <= sys.deletions
      ensures unchanged(`unsecured, `restarted, `restarts, `clock)
      ensures procs == (map id | id in old(procs) && id in keep :: old(procs)[id])
      ensures Quiet(sys.reserved, old(sys.k), sys.k)
      ensures AllQuiet(sys.reserved, old(sys.k), sys.history, |old(sys.history)|)
      ensures OnlyStopped(sys.deletions, |old(sys.deletions)|, old(procs).Keys - keep)
      ensures AllStopped(old(procs), old(procs).Keys - keep, sys.processes, |old(sys.processes)|)
    {
      ghost var all := procs.Keys - keep;
      var todo := procs.Keys - keep;
      while todo != {}
        invariant Valid() && old(sys.history) <= sys.history && old(sys.lapses) <= sys.lapses && old(sys.deletions) <= sys.deletions
        invariant unchanged(`unsecured, `restarted, `restarts, `clock)
        invariant todo <= all
        invariant procs == Kept(old(procs), keep + todo)
        invariant Quiet(sys.reserved, old(sys.k), sys.k)
        invariant AllQuiet(sys.reserved, old(sys.k), sys.history, |old(sys.history)|)
        invariant OnlyStopped(sys.deletions, |old(sys.deletions)|, all)
        invariant AllStopped(old(procs), all - todo, sys.processes, |old(sys.processes)|)
        decreases todo
      {
        var id :| id in todo;
        ghost var gone := all - todo;
        KeptNext(old(procs), keep, todo, id);
        StopNext(id, old(sys.k), |old(sys.history)|, |old(sys.deletions)|, all, old(procs), gone, |old(sys.processes)|);
        todo := todo - {id};
        assert all - todo == gone + {id};
      }
    }

    /** A clock that never goes back. */
    method Now() returns (t: int)
      requires Spaced()
      modifies this`clock
      ensures t == clock >= old(clock) && Spaced()
    {
      t := *;
      t := Max(t, clock);
      clock := t;
    }

    /** Notes since when a link has been unsecured; reports whether that is a minute by now. */
    method NoPeerErrorFor(id: Id, secured: bool) returns (report: bool)
      requires Spaced()
      modifies this`unsecured, this`clock
      ensures Spaced() && clock >= old(clock)
      ensures secured ==> unsecured == old(unsecured) - {id}
      ensures !secured ==> unsecured == if id in old(unsecured) then old(unsecured) else old(unsecured)[id := clock]
      ensures report <==> !secured && id in old(unsecured) && clock - old(unsecured)[id] >= NO_PEER_AFTER
    {
      report := false;
      if secured {
        unsecured := unsecured - {id};
        return;
      }
      if id !in unsecured {
        var now := Now();
        unsecured := unsecured[id := now];
        return;
      }
      var now := Now();
      report := now - unsecured[id] >= NO_PEER_AFTER;
    }

    /** Restarts a participant that has run unsecured for 30 s since its link was last secured or
        last restarted. Callers have told `NoPeerErrorFor` about the link just before. */
    method RestartIfStuck(id: Id, secured: bool) returns (stopped: bool)
      requires Valid() && (secured ==> id !in unsecured)
      modifies this, sys
      ensures Valid() && old(sys.history) <= sys.history && old(sys.lapses) <= sys.lapses && old(sys.deletions) <= sys.deletions
      ensures unsecured == old(unsecured) && clock >= old(clock)
      ensures restarts == if stopped then old(restarts) + [Restart(id, clock)] else old(restarts)
      ensures restarted == if secured then old(restarted) - {id} else if stopped then old(restarted)[id := clock] else old(restarted)
      ensures procs == if stopped then old(procs) - {id} else old(procs)
      ensures !stopped ==> unchanged(sys)
      ensures stopped <==> && !secured && id in unsecured && id in old(procs)
                           && clock - unsecured[id] >= MKA_RESTART
                           && (id in old(restarted) ==> clock - old(restarted)[id] >= MKA_RESTART)
      ensures Quiet(sys.reserved, old(sys.k), sys.k)
      ensures AllQuiet(sys.reserved, old(sys.k), sys.history, |old(sys.history)|)
      ensures OnlyPort(sys.deletions, |old(sys.deletions)|, IdPort(id))
      ensures stopped ==> sys.processes == old(sys.processes) + StopOf(old(procs), id)
    {
      stopped := false;
      if secured {
        restarted := restarted - {id};
        return;
      }
      if id !in unsecured {
        return;
      }
      var since := unsecured[id];
      if id in restarted && restarted[id] > since {
        since := restarted[id];
      }
      var now := Now();
      if now - since < MKA_RESTART || id !in procs {
        return;
      }
      ghost var _ := StopMKA(id);
      NoteRestart(id, now);
      stopped := true;
    }

    /** Records a restart: 30 s after whatever is remembered of the participant, it is 30 s after
        every earlier restart of it. */
    method NoteRestart(id: Id, now: int)
      requires Spaced() && now == clock && id in unsecured && now - unsecured[id] >= MKA_RESTART
      requires id in restarted ==> now - restarted[id] >= MKA_RESTART
      modifies this`restarts, this`restarted
      ensures Spaced() && restarts == old(restarts) + [Restart(id, now)] && restarted == old(restarted)[id := now]
    {
      ghost var before := restarts;
      restarts := restarts + [Restart(id, now)];
      assert forall i :: 0 <= i < |before| ==> restarts[i] == before[i];
      restarted := restarted[id := now];
    }

    /** One enabled MACsec leaf of a main pass: start its participant and look after it. None means
        the leaf has no participant this time; failures of its own leave the others alone. The
        devices are listed at most once a pass, after the first participant was seen to. */
    method MainLeaf(leaf: LeafRouter, derive: (string, string) -> (Bytes, Bytes), links: Listing, exits: set<Id>)
      returns (id: Option<Id>, links': Listing)
      requires Valid() && IsMACsecLeaf(leaf)
      modifies this, sys
      ensures Valid() && old(sys.history) <= sys.history && old(sys.lapses) <= sys.lapses && old(sys.deletions) <= sys.deletions
      ensures id.Some? ==> id.value == MainId(leaf.macsec.value.port)
      ensures id.None? ==> procs == old(procs) && sys.deletions == old(sys.deletions)
      ensures procs.Keys <= old(procs).Keys + (if id.Some? then {id.value} else {})
      ensures forall other :: other in old(procs) && Some(other) != id ==> other in procs && procs[other] == old(procs)[other]
      ensures OnlyPort(sys.deletions, |old(sys.deletions)|, leaf.macsec.value.port)
      ensures old(restarts) <= restarts && clock >= old(clock) && (links.Loaded? ==> links' == links)
      ensures Quiet(sys.reserved, old(sys.k), sys.k)
      // It is left out exactly if its record is unusable or its interface was not found.
      ensures id.Some? ==> Startable(leaf, derive) && leaf.macsec.value.parent in old(sys.k) && links'.Loaded?
      ensures id.None? && Startable(leaf, derive) ==>
                leaf.macsec.value.parent !in old(sys.k) || sys.lapses == old(sys.lapses) + [NotFound(leaf.macsec.value.parent)]
      ensures sys.steady && Startable(leaf, derive) && leaf.macsec.value.parent in old(sys.k) ==> id.Some?
      // With every command working it runs as its record says, unless it had to be restarted - which it is
      // only, and always, when its link has been down for too long.
      ensures id.Some? && sys.works && |old(sys.k)[leaf.macsec.value.parent].mac| == 6 && restarts == old(restarts) ==>
                Runs(procs, leaf, derive, old(sys.k)[leaf.macsec.value.parent].mac)
      ensures restarts != old(restarts) ==>
                && id.Some? && restarts == old(restarts) + [Restart(id.value, clock)]
                && Overdue(unsecured, old(restarted), id.value, clock)
                && !LinkUp(leaf, old(sys.k)[leaf.macsec.value.parent].mac, links')
      ensures id.Some? && !LinkUp(leaf, old(sys.k)[leaf.macsec.value.parent].mac, links') ==>
                && id.value in unsecured
                && (Overdue(old(unsecured), old(restarted), id.value, old(clock)) ==> id.value !in procs)
      ensures id.Some? && LinkUp(leaf, old(sys.k)[leaf.macsec.value.parent].mac, links') ==>
                id.value !in unsecured && id.value !in restarted
      ensures id.Some? && links.NotYet? ==> FreshListing(links', sys.history, |old(sys.history)|, sys.steady)
    {
      id, links' := None, links;
      var inst := InstanceOf(leaf, derive);
      if inst.None? || !ValidInstance(inst.value) {
        return;
      }
      var info := sys.LinkInfo(inst.value.parent);
      if info.None? {
        return;
      }
      id := Some(inst.value.id);
      links' := ServeLeaf(inst.value, info.value.mac, links, exits);
    }

    /** Starts the participant if need be, and looks after its link. */
    method ServeLeaf(inst: Instance, mac: Bytes, links: Listing, exits: set<Id>) returns (links': Listing)
      requires Valid() && inst.conf.port == IdPort(inst.id)
      modifies this, sys
      ensures Valid() && old(sys.history) <= sys.history && old(sys.lapses) <= sys.lapses && old(sys.deletions) <= sys.deletions
      ensures procs.Keys <= old(procs).Keys + {inst.id} && clock >= old(clock)
      ensures forall other :: other in old(procs) && other != inst.id ==> other in procs && procs[other] == old(procs)[other]
      ensures OnlyPort(sys.deletions, |old(sys.deletions)|, IdPort(inst.id)) && Quiet(sys.reserved, old(sys.k), sys.k)
      ensures (links.Loaded? ==> links' == links)
      ensures links'.Loaded? && (links.NotYet? ==> FreshListing(links', sys.history, |old(sys.history)|, sys.steady))
      ensures exists procs1 :: && Tended(inst.id, DeviceUp(inst.parent, mac, inst.conf.port, links'), procs1, old(restarts),
                                         old(unsecured), old(restarted), old(clock))
                               && (sys.works && ValidInstance(inst) && |mac| == 6 ==> RunsOn(procs1, inst, mac))
    {
      var running, ok := EnsureMKA(inst, mac, inst.id in exits);
      ghost var k1, h1, l1, d1, procs1 := sys.k, sys.history, sys.lapses, sys.deletions, procs;
      links' := LookAfter(inst, mac, links);
      LongerStill(old(sys.history), h1, sys.history);
      LongerStill(old(sys.lapses), l1, sys.lapses);
      LongerStill(old(sys.deletions), d1, sys.deletions);
      QuietTransitive(sys.reserved, old(sys.k), k1, sys.k);
      assert Tended(inst.id, DeviceUp(inst.parent, mac, inst.conf.port, links'), procs1, old(restarts),
                    old(unsecured), old(restarted), old(clock));
    }

    /** Looks at the link, and restarts its participant if that is stuck. */
    method LookAfter(inst: Instance, mac: Bytes, links: Listing) returns (links': Listing)
      requires Valid()
      modifies this, sys
      ensures Valid() && old(sys.history) <= sys.history && old(sys.lapses) <= sys.lapses && old(sys.deletions) <= sys.deletions
      ensures (links.Loaded? ==> links' == links) && clock >= old(clock) && Quiet(sys.reserved, old(sys.k), sys.k)
      ensures links'.Loaded? && (links.NotYet? ==> FreshListing(links', sys.history, |old(sys.history)|, sys.steady))
      ensures Tended(inst.id, DeviceUp(inst.parent, mac, inst.conf.port, links'), old(procs), old(restarts),
                     old(unsecured), old(restarted), old(clock))
      ensures OnlyPort(sys.deletions, |old(sys.deletions)|, IdPort(inst.id))
    {
      var secured;
      secured, links' := LookUp(inst, mac, links);
      ghost var k1, h1 := sys.k, sys.history;
      Supervise(inst.id, secured);
      QuietTransitive(sys.reserved, old(sys.k), k1, sys.k);
      FreshLater(links', h1, sys.history, |old(sys.history)|, sys.steady);
    }

    /** What became of a participant whose link was found up or down: it is restarted only, and always,
        when its link has been down for too long. */
    ghost predicate Tended(id: Id, up: bool, procs0: map<Id, Running>, restarts0: seq<Restart>,
                           unsecured0: map<Id, int>, restarted0: map<Id, int>, clock0: int)
      reads this
    {
      && (if restarts == restarts0 then procs == procs0
          else restarts == restarts0 + [Restart(id, clock)] && procs == procs0 - {id} && !up
               && Overdue(unsecured, restarted0, id, clock))
      && (!up && Overdue(unsecured0, restarted0, id, clock0) ==> id !in procs)
      && (if up then id !in unsecured && id !in restarted
          else id in unsecured && if id in unsecured0 then unsecured[id] == unsecured0[id] else unsecured[id] >= clock0)
      && (forall other :: other != id ==> (other in unsecured <==> other in unsecured0)
                                          && (other in unsecured ==> unsecured[other] == unsecured0[other]))
    }

    /** The security of an association's device by the one listing of the pass. */
    method LookUp(inst: Instance, mac: Bytes, links: Listing) returns (secured: bool, links': Listing)
      requires Valid()
      modifies sys`k, sys`history, sys`lapses
      ensures Valid() && old(sys.history) <= sys.history && old(sys.lapses) <= sys.lapses
      ensures links'.Loaded? && (links.Loaded? ==> links' == links) && Quiet(sys.reserved, old(sys.k), sys.k)
      ensures links.NotYet? ==> FreshListing(links', sys.history, |old(sys.history)|, sys.steady)
      ensures secured <==> DeviceUp(inst.parent, mac, inst.conf.port, links')
    {
      links' := links;
      if links.NotYet? {
        var loaded := sys.Links();
        links' := Loaded(loaded);
      }
      secured := false;
      var sci := SCI(mac, inst.conf.port);
      if links'.links.Some? && sci.Some? {
        var link := FindMACsecLink(links'.links.value, inst.parent, sci.value);
        secured := link.Some? && link.value.security.Forwarding();
      }
    }

    /** What a pass does after it looked at a link: note it, and restart a stuck participant. */
    method Supervise(id: Id, secured: bool)
      requires Valid()
      modifies this, sys
      ensures Valid() && old(sys.history) <= sys.history && old(sys.lapses) <= sys.lapses && old(sys.deletions) <= sys.deletions
      ensures clock >= old(clock) && old(restarts) <= restarts
      ensures if |restarts| > |old(restarts)| then restarts == old(restarts) + [Restart(id, clock)] && procs == old(procs) - {id}
              else procs == old(procs) && unchanged(sys)
      ensures Quiet(sys.reserved, old(sys.k), sys.k)
      ensures AllQuiet(sys.reserved, old(sys.k), sys.history, |old(sys.history)|)
      ensures secured ==> restarts == old(restarts) && unchanged(sys)
      ensures Tended(id, secured, old(procs), old(restarts), old(unsecured), old(restarted), old(clock))
      ensures OnlyPort(sys.deletions, |old(sys.deletions)|, IdPort(id))
    {
      var _ := NoPeerErrorFor(id, secured);
      var _ := RestartIfStuck(id, secured);
    }

    /** One of several leaves; `k` and `from` are from before the first of them. */
    method Turn(leaves: seq<LeafRouter>, i: nat, derive: (string, string) -> (Bytes, Bytes), links: Listing, exits: set<Id>,
                ghost k: Kernel, ghost from: nat, ghost desired: set<Id>) returns (id: Option<Id>, links': Listing)
      requires Valid() && i < |leaves| && IsMACsecLeaf(leaves[i]) && Quiet(sys.reserved, k, sys.k) && from <= |restarts|
      requires sys.works && OwnPort(leaves) ==> AllServed(leaves, i, derive, k, from, procs, restarts) && AllWanted(leaves, i, derive, k, desired)
      modifies this, sys
      ensures Valid() && old(sys.history) <= sys.history && old(sys.lapses) <= sys.lapses && old(sys.deletions) <= sys.deletions
      ensures id.Some? ==> id.value == MainId(leaves[i].macsec.value.port) && HasLeaf(leaves, id.value)
      ensures procs.Keys <= old(procs).Keys + (if id.Some? then {id.value} else {})
      ensures OnlyPort(sys.deletions, |old(sys.deletions)|, leaves[i].macsec.value.port)
      ensures old(restarts) <= restarts && Quiet(sys.reserved, k, sys.k)
      ensures sys.works && OwnPort(leaves) ==>
                && AllServed(leaves, i + 1, derive, k, from, procs, restarts)
                && AllWanted(leaves, i + 1, derive, k, desired + (if id.Some? then {id.value} else {}))
    {
      id, links' := MainLeaf(leaves[i], derive, links, exits);
      QuietTransitive(sys.reserved, k, old(sys.k), sys.k);
      if sys.works && OwnPort(leaves) {
        if restarts != old(restarts) {
          assert restarts[|old(restarts)|].id == MainId(leaves[i].macsec.value.port);
        }
        ServedMore(leaves, i, derive, k, from, old(procs), old(restarts), procs, restarts);
      }
    }

    /** The participants part of a main pass: afterwards only enabled MACsec leaves have one. */
    method ReconcileMain(leaves: seq<LeafRouter>, derive: (string, string) -> (Bytes, Bytes), exits: set<Id>)
      requires Valid()
      modifies this, sys
      ensures Valid() && old(sys.history) <= sys.history && old(sys.lapses) <= sys.lapses && old(sys.deletions) <= sys.deletions
      ensures forall id :: id in procs ==> HasLeaf(leaves, id)
      ensures old(restarts) <= restarts
      // Devices were deleted only for the ports of these leaves and of participants from before.
      ensures OnlyOwned(sys.deletions, |old(sys.deletions)|, leaves, old(procs).Keys)
      // With every command working all leaves whose records are usable have one, as recorded, but for those
      // restarted in this pass.
      ensures sys.works && OwnPort(leaves) ==> AllServed(leaves, |leaves|, derive, old(sys.k), |old(restarts)|, procs, restarts)
    {
      var desired: set<Id> := {};
      var links := NotYet;
      for i := 0 to |leaves|
        invariant Valid() && old(sys.history) <= sys.history && old(sys.lapses) <= sys.lapses && old(sys.deletions) <= sys.deletions
        invariant old(restarts) <= restarts
        invariant forall id :: id in desired ==> HasLeaf(leaves, id)
        invariant procs.Keys <= old(procs).Keys + desired && Quiet(sys.reserved, old(sys.k), sys.k)
        invariant sys.works && OwnPort(leaves) ==>
                    AllServed(leaves, i, derive, old(sys.k), |old(restarts)|, procs, restarts)
                    && AllWanted(leaves, i, derive, old(sys.k), desired)
        invariant OnlyOwned(sys.deletions, |old(sys.deletions)|, leaves, old(procs).Keys)
      {
        if IsMACsecLeaf(leaves[i]) {
          var id;
          id, links := Turn(leaves, i, derive, links, exits, old(sys.k), |old(restarts)|, desired);
          if id.Some? {
            desired := desired + {id.value};
          }
        }
      }
      ghost var started := procs;
      StopAllMKA(desired);
      if sys.works && OwnPort(leaves) {
        ServedKept(leaves, derive, old(sys.k), |old(restarts)|, started, procs, restarts, desired);
      }
    }
  }

  predicate RestartedSince(restarts: seq<Restart>, from: nat, id: Id) {
    exists i :: from <= i < |restarts| && restarts[i].id == id
  }

  /** The participant of this record, with this address. */
  predicate Runs(procs: map<Id, Running>, leaf: LeafRouter, derive: (string, string) -> (Bytes, Bytes), mac: Bytes)
    requires Startable(leaf, derive)
  {
    RunsOn(procs, InstanceOf(leaf, derive).value, mac)
  }

  predicate RunsOn(procs: map<Id, Running>, inst: Instance, mac: Bytes) {
    inst.id in procs && SCI(mac, inst.conf.port).Some?
    && procs[inst.id] == Running(inst.conf, inst.parent, mac, SCI(mac, inst.conf.port).value)
  }

  /** A leaf's record is usable. */
  predicate Startable(leaf: LeafRouter, derive: (string, string) -> (Bytes, Bytes)) {
    && leaf.macsec.Some? && leaf.macsec.value.enabled && leaf.macsec.value.mode != "wireguard"
    && InstanceOf(leaf, derive).Some? && ValidInstance(InstanceOf(leaf, derive).value)
  }

  /** And its interface is there. */
  predicate Expected(leaf: LeafRouter, derive: (string, string) -> (Bytes, Bytes), k: Kernel) {
    && Startable(leaf, derive) && leaf.macsec.value.parent in k
    && !k[leaf.macsec.value.parent].kind.SecY? && |k[leaf.macsec.value.parent].mac| == 6
  }

  /** No two MACsec leaves have one port. */
  predicate OwnPort(leaves: seq<LeafRouter>) {
    forall i, j :: 0 <= i < j < |leaves| && IsMACsecLeaf(leaves[i]) && IsMACsecLeaf(leaves[j]) ==>
      leaves[i].macsec.value.port != leaves[j].macsec.value.port
  }

  /** The leaf has its participant, or that was restarted since index `from`. */
  predicate Served(leaf: LeafRouter, derive: (string, string) -> (Bytes, Bytes), k: Kernel, from: nat,
                   procs: map<Id, Running>, restarts: seq<Restart>)
    requires Expected(leaf, derive, k)
  {
    || Runs(procs, leaf, derive, k[leaf.macsec.value.parent].mac)
    || RestartedSince(restarts, from, MainId(leaf.macsec.value.port))
  }

  /** So have the first `n` leaves whose records are usable. */
  predicate AllServed(leaves: seq<LeafRouter>, n: nat, derive: (string, string) -> (Bytes, Bytes), k: Kernel, from: nat,
                      procs: map<Id, Running>, restarts: seq<Restart>)
    requires n <= |leaves|
  {
    forall j :: 0 <= j < n && Expected(leaves[j], derive, k) ==> Served(leaves[j], derive, k, from, procs, restarts)
  }

  predicate AllWanted(leaves: seq<LeafRouter>, n: nat, derive: (string, string) -> (Bytes, Bytes), k: Kernel, desired: set<Id>)
    requires n <= |leaves|
  {
    forall j :: 0 <= j < n && Expected(leaves[j], derive, k) ==> MainId(leaves[j].macsec.value.port) in desired
  }

  lemma ServedLater(leaf: LeafRouter, derive: (string, string) -> (Bytes, Bytes), k: Kernel, from: nat,
                    procs0: map<Id, Running>, restarts0: seq<Restart>, procs: map<Id, Running>, restarts: seq<Restart>)
    requires Expected(leaf, derive, k) && Served(leaf, derive, k, from, procs0, restarts0) && restarts0 <= restarts
    requires var id := MainId(leaf.macsec.value.port); id in procs0 ==> id in procs && procs[id] == procs0[id]
    ensures Served(leaf, derive, k, from, procs, restarts)
  {
    var id := MainId(leaf.macsec.value.port);
    if RestartedSince(restarts0, from, id) {
      var i :| from <= i < |restarts0| && restarts0[i].id == id;
      assert restarts[i].id == id;
    }
  }

  /** The turn of leaf `i` leaves the participants of the others alone. */
  lemma ServedMore(leaves: seq<LeafRouter>, i: nat, derive: (string, string) -> (Bytes, Bytes), k: Kernel, from: nat,
                   procs0: map<Id, Running>, restarts0: seq<Restart>, procs: map<Id, Running>, restarts: seq<Restart>)
    requires i < |leaves| && IsMACsecLeaf(leaves[i]) && OwnPort(leaves) && restarts0 <= restarts
    requires AllServed(leaves, i, derive, k, from, procs0, restarts0)
    requires forall id :: id in procs0 && id != MainId(leaves[i].macsec.value.port) ==> id in procs && procs[id] == procs0[id]
    requires Expected(leaves[i], derive, k) ==> Served(leaves[i], derive, k, from, procs, restarts)
    ensures AllServed(leaves, i + 1, derive, k, from, procs, restarts)
  {
    forall j | 0 <= j < i && Expected(leaves[j], derive, k) ensures Served(leaves[j], derive, k, from, procs, restarts) {
      ServedLater(leaves[j], derive, k, from, procs0, restarts0, procs, restarts);
    }
  }

  lemma ServedKept(leaves: seq<LeafRouter>, derive: (string, string) -> (Bytes, Bytes), k: Kernel, from: nat,
                   procs0: map<Id, Running>, procs: map<Id, Running>, restarts: seq<Restart>, desired: set<Id>)
    requires AllServed(leaves, |leaves|, derive, k, from, procs0, restarts) && AllWanted(leaves, |leaves|, derive, k, desired)
    requires forall id :: id in procs0 && id in desired ==> id in procs && procs[id] == procs0[id]
    ensures AllServed(leaves, |leaves|, derive, k, from, procs, restarts)
  {
    forall j | 0 <= j < |leaves| && Expected(leaves[j], derive, k) ensures Served(leaves[j], derive, k, from, procs, restarts) {
      ServedLater(leaves[j], derive, k, from, procs0, restarts, procs, restarts);
    }
  }

  /** The listing has the device of this parent and port, and it forwards only protected frames. */
  predicate DeviceUp(parent: string, mac: Bytes, port: int, links: Listing) {
    && links.Loaded? && links.links.Some? && SCI(mac, port).Some?
    && FirstForwards(links.links.value, parent, SCI(mac, port).value)
  }

  predicate LinkUp(leaf: LeafRouter, mac: Bytes, links: Listing)
    requires leaf.macsec.Some?
  {
    DeviceUp(leaf.macsec.value.parent, mac, leaf.macsec.value.port, links)
  }

  /** A listing of one of the tables from index `from` on; on a steady system there is one. */
  ghost predicate FreshListing(links: Listing, history: seq<Kernel>, from: nat, steady: bool) {
    && links.Loaded? && (steady ==> links.links.Some?)
    && (links.links.Some? ==>
          exists i {:trigger Lists(history[i], links.links.value)} :: from <= i < |history| && Lists(history[i], links.links.value))
  }

  lemma FreshLater(links: Listing, before: seq<Kernel>, history: seq<Kernel>, from: nat, steady: bool)
    requires before <= history
    ensures FreshListing(links, before, from, steady) ==> FreshListing(links, history, from, steady)
  {
    if FreshListing(links, before, from, steady) && links.links.Some? {
      var i :| from <= i < |before| && Lists(before[i], links.links.value);
      assert Lists(history[i], links.links.value);
    }
  }

  /** The participant that the leaf runs. */
  function LeafInstance(wanif: string, keys: (Bytes, Bytes)): Instance {
    Instance(LeafId, wanif, Conf(LEAF_PORT, 255, keys.0, keys.1))
  }

  /** The participants of the two ends of a link meet: with one token and nonce they have the same keys,
      the main router's wins the key server election, and they have different ports. */
  lemma ParticipantsMeet(leaf: LeafRouter, derive: (string, string) -> (Bytes, Bytes), side: LeafSide, token: string, wanif: string)
    requires Startable(leaf, derive) && leaf.macsec.value.port >= MAIN_PORT_FIRST
    requires side.keyNonce == leaf.macsec.value.keyNonce && token == leaf.apiToken
    ensures var m, l := InstanceOf(leaf, derive).value, LeafInstance(wanif, derive(token, side.keyNonce));
            && m.conf.cak == l.conf.cak && m.conf.ckn == l.conf.ckn && m.conf.priority < l.conf.priority
            && m.conf.port == leaf.macsec.value.port != l.conf.port && IdPort(m.id) == m.conf.port && IdPort(l.id) == l.conf.port
            && m.parent == leaf.macsec.value.parent && l.parent == wanif && (ValidIface(wanif) ==> ValidInstance(l))
  {
  }

  /** A record is usable exactly if its keys can be derived, and are as long as the protocol has them, its
      interface has a proper name and its port is one of a secure channel. */
  lemma StartableExactly(leaf: LeafRouter, derive: (string, string) -> (Bytes, Bytes))
    requires leaf.macsec.Some?
    ensures var c := leaf.macsec.value;
            && (Startable(leaf, derive)
                <==> && c.enabled && c.mode != "wireguard" && LeafConfig.KeysDerivable(leaf.apiToken, c.keyNonce)
                     && ValidIface(c.parent) && 1 <= c.port <= 65534
                     && |derive(leaf.apiToken, c.keyNonce).0| == 32 && |derive(leaf.apiToken, c.keyNonce).1| == 16)
            && (Startable(leaf, derive) ==>
                  InstanceOf(leaf, derive)
                  == Some(Instance(MainId(c.port), c.parent,
                                   Conf(c.port, 16, derive(leaf.apiToken, c.keyNonce).0, derive(leaf.apiToken, c.keyNonce).1))))
  {
  }

  /** What a main pass knows about the MACsec devices: not listed yet, or listed, perhaps in vain. */
  datatype Listing = NotYet | Loaded(links: Option<seq<SecYLink>>)

  /** Both the parent and the identifier of a listed device must match. */
  method FindMACsecLink(links: seq<SecYLink>, parent: string, sci: nat) returns (r: Option<SecYLink>)
    ensures r.None? <==> forall i :: 0 <= i < |links| ==> !(links[i].parent == parent && links[i].sci == sci)
    ensures r.Some? ==> exists i :: 0 <= i < |links| && links[i] == r.value
                                    && forall j :: 0 <= j < i ==> !(links[j].parent == parent && links[j].sci == sci)
    ensures r.Some? && r.value.security.Forwarding() <==> FirstForwards(links, parent, sci)
    ensures r.Some? ==> r.value in links && r.value.parent == parent && r.value.sci == sci
  {
    for i := 0 to |links|
      invariant forall j :: 0 <= j < i ==> !(links[j].parent == parent && links[j].sci == sci)
    {
      if links[i].parent == parent && links[i].sci == sci {
        return Some(links[i]);
      }
    }
    return None;
  }

  predicate FirstForwards(links: seq<SecYLink>, parent: string, sci: nat) {
    exists i :: 0 <= i < |links| && links[i].parent == parent && links[i].sci == sci && links[i].security.Forwarding()
      && forall j :: 0 <= j < i ==> !(links[j].parent == parent && links[j].sci == sci)
  }

  /** By time `now` a participant has run unsecured for 30 s, and is as long past its last restart. */
  predicate Overdue(unsecured: map<Id, int>, restarted: map<Id, int>, id: Id, now: int) {
    && id in unsecured && now - unsecured[id] >= MKA_RESTART
    && (id in restarted ==> now - restarted[id] >= MKA_RESTART)
  }

  /** The participant configuration of one leaf, if its keys can be derived. */
  function InstanceOf(leaf: LeafRouter, derive: (string, string) -> (Bytes, Bytes)): Option<Instance>
    requires leaf.macsec.Some?
  {
    var cfg := leaf.macsec.value;
    if !LeafConfig.KeysDerivable(leaf.apiToken, cfg.keyNonce) then None
    else
      var keys := derive(leaf.apiToken, cfg.keyNonce);
      Some(Instance(MainId(cfg.port), cfg.parent, Conf(cfg.port, 16, keys.0, keys.1)))
  }

  predicate IsMACsecLeaf(leaf: LeafRouter) {
    leaf.macsec.Some? && leaf.macsec.value.enabled && StoredMode(leaf.macsec.value.mode).MACsec?
  }

  predicate HasLeaf(leaves: seq<LeafRouter>, id: Id) {
    exists i :: 0 <= i < |leaves| && leaves[i].macsec.Some? && leaves[i].macsec.value.enabled
                && leaves[i].macsec.value.mode != "wireguard" && id == MainId(leaves[i].macsec.value.port)
  }
}
