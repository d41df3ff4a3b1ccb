/** The record of the MTUs that interfaces had before the plugin raised them. It is written to disk
    before an MTU changes, so that a restart after a crash can still restore it. */
module MtuKeeper {
  import opened Wrappers
  import opened Mesh
  import opened MtuMath

  /** What survives a crash: the kernel's MTUs and the file. A missing file is an empty record. */
  datatype Durable = Durable(mtus: map<string, int>, disk: map<string, int>)

  /** What a pass does about MTUs, in the order it does it: it raises an interface it uses, or - in a
      teardown, at whatever point of the pass that takes place - gives one up, and with it every other
      one that the pass has not used so far. */
  datatype Action = Use(parent: string, maxMTU: int, target: int) | Release(parent: string)

  /** One pass, and how many steps before its end a crash hits, if any. */
  datatype Life = Life(actions: seq<Action>, crash: Option<nat>)

  datatype Event = Passed(actions: seq<Action>) | Crashed(back: nat)

  ghost function EventsOf(lives: seq<Life>): seq<Event> {
    if lives == [] then [] else
      var life := lives[|lives| - 1];
      EventsOf(lives[..|lives| - 1]) + Lived(life)
  }

  function Lived(life: Life): seq<Event> {
    if life.crash.Some? then [Passed(life.actions), Crashed(life.crash.value)] else [Passed(life.actions)]
  }

  /** The MTU to raise an interface to, if any. */
  function RaiseTarget(nic: Nic, target: int): Option<int> {
    var t := if 0 < nic.maxMTU < target then nic.maxMTU else target;
    if nic.mtu >= target || t <= nic.mtu then None else Some(t)
  }

  /** The target, unless the driver is known not to reach it. */
  function Reach(nic: Nic, target: int): int {
    if nic.maxMTU > 0 then Min(nic.maxMTU, target) else target
  }

  /** The original MTUs can be restored from what a crash leaves: the file has every interface
      whose MTU differs, with the original value, and no other value. */
  predicate Safe(pre: map<string, int>, d: Durable) {
    && (forall n :: n in d.disk ==> n in pre && d.disk[n] == pre[n])
    && (forall n :: n in d.mtus && n !in d.disk ==> n in pre && d.mtus[n] == pre[n])
  }

  predicate AllSafe(pre: map<string, int>, history: seq<Durable>) {
    forall i :: 0 <= i < |history| ==> Safe(pre, history[i])
  }

  /** A restore that failed: the interface, the MTU it kept, and the step at which its record was gone
      from the file. */
  datatype Miss = Miss(name: string, mtu: int, at: nat)

  /** The interface had its original MTU anyway. */
  predicate Good(pre: map<string, int>, m: Miss) {
    m.name in pre && m.mtu == pre[m.name]
  }

  ghost predicate Harmless(pre: map<string, int>, misses: set<Miss>) {
    forall m :: m in misses ==> Good(pre, m)
  }

  ghost function Missed(names: set<string>, mtus: map<string, int>, at: nat): set<Miss>
    requires names <= mtus.Keys
  {
    set n | n in names :: Miss(n, mtus[n], at)
  }

  /** Every step is safe that no harmful miss preceded. */
  ghost predicate SafeUntil(pre: map<string, int>, history: seq<Durable>, misses: set<Miss>) {
    forall i :: 0 <= i < |history| && HarmlessUpTo(pre, misses, i) ==> Safe(pre, history[i])
  }

  /** Misses and history fit: a harmful miss left an unsafe step behind, and nothing else did. */
  ghost predicate HistoryOk(pre: map<string, int>, history: seq<Durable>, misses: set<Miss>) {
    && (forall m :: m in misses ==> m.at < |history| && (Good(pre, m) || !Safe(pre, history[m.at])))
    && SafeUntil(pre, history, misses)
  }

  lemma HistoryNext(pre: map<string, int>, history: seq<Durable>, misses: set<Miss>, d: Durable)
    requires HistoryOk(pre, history, misses) && (Harmless(pre, misses) ==> Safe(pre, d))
    ensures HistoryOk(pre, history + [d], misses)
  {
    var more := history + [d];
    forall i | 0 <= i < |more| && HarmlessUpTo(pre, misses, i)
      ensures Safe(pre, more[i])
    {
      if i < |history| {
        assert more[i] == history[i];
      } else {
        assert forall m :: m in misses ==> m.at <= i;
      }
    }
  }

  /** Misses at a last step that is safe exactly if they are harmless. */
  lemma HistoryMissed(pre: map<string, int>, history: seq<Durable>, misses: set<Miss>, added: set<Miss>)
    requires |history| > 0 && HistoryOk(pre, history[..|history| - 1], misses)
    requires forall m :: m in added ==> m.at == |history| - 1 && (Good(pre, m) || !Safe(pre, history[m.at]))
    requires Harmless(pre, misses + added) ==> Safe(pre, history[|history| - 1])
    ensures HistoryOk(pre, history, misses + added)
  {
    var n := |history| - 1;
    forall i | 0 <= i < |history| && HarmlessUpTo(pre, misses + added, i)
      ensures Safe(pre, history[i])
    {
      if i < n {
        assert HarmlessUpTo(pre, misses, i) && history[..n][i] == history[i];
      } else {
        assert forall m :: m in misses + added ==> m.at <= i;
      }
    }
  }

  lemma HistoryCut(pre: map<string, int>, history: seq<Durable>, misses: set<Miss>, at: nat)
    requires HistoryOk(pre, history, misses) && at < |history|
    ensures HistoryOk(pre, history[..at + 1], set m | m in misses && m.at <= at)
  {
    var kept := set m | m in misses && m.at <= at;
    forall i | 0 <= i <= at && HarmlessUpTo(pre, kept, i)
      ensures Safe(pre, history[i])
    {
      assert forall m :: m in misses && m.at <= i ==> m in kept;
      assert HarmlessUpTo(pre, misses, i);
    }
  }

  ghost predicate HarmlessUpTo(pre: map<string, int>, misses: set<Miss>, i: int) {
    forall m :: m in misses && m.at <= i ==> Good(pre, m)
  }

  /** Interfaces the plugin accepts, with MTUs it accepts back from its file. */
  predicate Originals(pre: map<string, int>) {
    forall n :: n in pre ==> ValidIface(n) && pre[n] >= MIN_SAVED_MTU
  }

  class Keeper {
    var mtus: map<string, int>
    var disk: map<string, int>
    var origMTU: map<string, int>
    var inUse: set<string>
    var loaded: bool
    /** What a crash after each step so far would have left behind. */
    var history: seq<Durable>
    /** Reads and writes of the file work. */
    const files: bool
    /** The lookups and MTU changes of a restore work. */
    const steady: bool
    /** So do those of a raise. */
    const works: bool
    ghost const pre: map<string, int>
    /** The passes and crashes so far. */
    ghost var events: seq<Event>
    /** Every restore that failed, in what a crash leaves behind. */
    ghost var misses: set<Miss>

    ghost predicate Valid()
      reads this
    {
      && |history| > 0 && history[|history| - 1] == Durable(mtus, disk)
      && (!loaded ==> origMTU == map[] && inUse == {})
      && (files ==> Originals(pre) && HistoryOk(pre, history, misses))
      && (files && Harmless(pre, misses) && loaded ==> origMTU == disk)
      && (steady ==> misses == {})
    }

    /** A start of the plugin on what an earlier one left behind. */
    constructor (mtus: map<string, int>, disk: map<string, int>, files: bool, steady: bool, works: bool, ghost pre: map<string, int>)
      requires files ==> Originals(pre) && Safe(pre, Durable(mtus, disk))
      ensures Valid() && !loaded && this.files == files && this.steady == steady && this.pre == pre && misses == {} && events == []
      ensures this.mtus == mtus && this.disk == disk && this.works == works
    {
      this.mtus, this.disk, this.files, this.steady, this.works, this.pre := mtus, disk, files, steady, works, pre;
      origMTU, inUse, loaded, misses, events := map[], {}, false, {}, [];
      history := [Durable(mtus, disk)];
    }

    /** The plugin dies and starts again on what a crash so many steps back, or before all of them,
        leaves behind. */
    method Crash(back: nat)
      requires Valid()
      modifies this
      ensures Valid() && !loaded && events == old(events) + [Crashed(back)]
      ensures var at := Max(|old(history)| - 1 - back, 0);
              && Durable(mtus, disk) == old(history)[at] && history == old(history)[..at + 1]
              && misses == set m | m in old(misses) && m.at <= at
    {
      events := events + [Crashed(back)];
      var at := Max(|history| - 1 - back, 0);
      if files {
        HistoryCut(pre, history, misses, at);
      }
      misses := set m | m in misses && m.at <= at;
      mtus, disk := history[at].mtus, history[at].disk;
      origMTU, inUse, loaded := map[], {}, false;
      history := history[..at + 1];
    }

    /** Reads the file once; a failed read counts as an empty file. */
    method Load()
      requires Valid()
      modifies this
      ensures Valid() && loaded && mtus == old(mtus) && disk == old(disk) && inUse == old(inUse)
      ensures history == old(history) && misses == old(misses) && events == old(events)
      ensures old(loaded) ==> origMTU == old(origMTU)
      ensures !old(loaded) ==> (!files && origMTU == map[])
                               || forall n :: n in origMTU <==> n in disk && ValidIface(n) && disk[n] >= 576
      ensures !old(loaded) ==> forall n :: n in origMTU ==> n in disk && origMTU[n] == disk[n]
    {
      if loaded {
        return;
      }
      loaded := true;
      var readable: bool := *;
      if !readable && !files {
        return;
      }
      LastSafe();
      origMTU := map n | n in disk && ValidIface(n) && disk[n] >= MIN_SAVED_MTU :: disk[n];
    }

    /** Without harm, the present state is safe. */
    lemma LastSafe()
      requires |history| > 0 && history[|history| - 1] == Durable(mtus, disk)
      requires files ==> HistoryOk(pre, history, misses)
      ensures files && Harmless(pre, misses) ==> Safe(pre, Durable(mtus, disk))
    {
      assert files && Harmless(pre, misses) ==> HarmlessUpTo(pre, misses, |history| - 1);
    }

    method Save() returns (ok: bool)
      modifies this`disk, this`history
      ensures files ==> ok
      ensures disk == if ok then origMTU else old(disk)
      ensures history == old(history) + [Durable(mtus, disk)]
    {
      ok := *;
      ok := ok || files;
      if ok {
        disk := origMTU;
      }
      history := history + [Durable(mtus, disk)];
    }

    method SetMTU(name: string, mtu: int) returns (ok: bool)
      modifies this`mtus, this`history
      ensures ok ==> name in old(mtus)
      ensures works && name in old(mtus) ==> ok
      ensures mtus == if ok then old(mtus)[name := mtu] else old(mtus)
      ensures history == old(history) + [Durable(mtus, disk)]
    {
      ok := *;
      ok := (ok || works) && name in mtus;
      if ok {
        mtus := mtus[name := mtu];
      }
      history := history + [Durable(mtus, disk)];
    }

    /** Raises an interface, recording its MTU first unless one is recorded. */
    method RaiseParentMTUTo(parent: string, nic: Nic, target: int) returns (r: Nic)
      requires Valid() && loaded && parent in mtus && mtus[parent] == nic.mtu
      modifies this
      ensures Valid() && loaded && inUse == old(inUse) + {parent} && |history| >= |old(history)| && misses == old(misses)
      ensures events == old(events)
      ensures mtus == old(mtus)[parent := r.mtu] && r.maxMTU == nic.maxMTU
      ensures r.mtu != nic.mtu ==>
                var record := if parent in old(origMTU) then Some(old(origMTU)[parent]) else None;
                parent in origMTU && (r.mtu, Some(origMTU[parent])) == AfterRaise(nic.mtu, nic.maxMTU, record, target)
      // The interface has its old MTU or the one asked for, as far as its driver reaches; the latter if the
      // command works. It is never lowered.
      ensures r.mtu == nic.mtu || r.mtu == Reach(nic, target)
      ensures works ==> r.mtu == Max(nic.mtu, Reach(nic, target))
      ensures r.mtu >= nic.mtu
      // A raise that is called for is recorded and tried; nothing happens otherwise.
      ensures RaiseTarget(nic, target).Some? ==> parent in origMTU && |history| > |old(history)|
      ensures RaiseTarget(nic, target).None? ==> history == old(history) && origMTU == old(origMTU) && disk == old(disk)
      // A value once recorded is never replaced.
      ensures forall n :: n in old(origMTU) ==> n in origMTU && origMTU[n] == old(origMTU)[n]
      ensures origMTU.Keys <= old(origMTU).Keys + {parent}
    {
      inUse := inUse + {parent};
      r := nic;
      var to := RaiseTarget(nic, target);
      if !to.Some? {
        return;
      }
      LastSafe();
      if parent !in origMTU {
        origMTU := origMTU[parent := nic.mtu];
        var _ := Save();
        if files {
          HistoryNext(pre, old(history), misses, Durable(mtus, disk));
        }
      }
      ghost var before := history;
      var ok := SetMTU(parent, to.value);
      if files {
        HistoryNext(pre, before, misses, Durable(mtus, disk));
      }
      if ok {
        r := r.(mtu := to.value);
      }
    }

    /** Sets one interface back to its recorded MTU. */
    method SetBack(parent: string, ghost missed: set<string>) returns (ok: bool)
      requires MidRestore(missed) && parent in origMTU && parent in mtus
      modifies this`mtus, this`history
      ensures MidRestore(missed) && old(history) <= history
      ensures mtus == if ok then old(mtus)[parent := origMTU[parent]] else old(mtus)
      ensures ok && files && Harmless(pre, misses) ==> parent in pre && mtus[parent] == pre[parent]
      ensures steady ==> ok
    {
      ok := *;
      ok := ok || steady;
      if ok {
        LastSafe();
        mtus := mtus[parent := origMTU[parent]];
        if files {
          HistoryNext(pre, history, misses, Durable(mtus, disk));
        }
        history := history + [Durable(mtus, disk)];
      }
    }

    /** Restores one interface and forgets it, whether or not the restore worked. */
    method RestoreOne(parent: string, ghost missed: set<string>) returns (ok: bool)
      requires MidRestore(missed) && parent in origMTU
      modifies this`mtus, this`origMTU, this`history
      ensures MidRestore(if ok || parent !in mtus then missed else missed + {parent})
      ensures old(history) <= history
      ensures origMTU == old(origMTU) - {parent}
      ensures mtus == if ok then old(mtus)[parent := old(origMTU)[parent]] else old(mtus)
      ensures ok ==> parent in old(mtus)
      ensures steady ==> (ok <==> parent in old(mtus))
      ensures parent in old(mtus) ==> mtus[parent] == AfterRestore(old(mtus)[parent], old(origMTU)[parent], ok)
    {
      ok := false;
      var found: bool := *;
      if (found || steady) && parent in mtus {
        ok := SetBack(parent, missed);
      }
      origMTU := origMTU - {parent};
    }

    /** `Valid` in the middle of a restore, when the file still has more than the memory. */
    ghost predicate MidRestore(missed: set<string>)
      reads this
    {
      && |history| > 0 && history[|history| - 1] == Durable(mtus, disk) && loaded
      && (files ==> Originals(pre) && HistoryOk(pre, history, misses))
      && (files && Harmless(pre, misses) ==>
            origMTU.Keys <= disk.Keys
            && (forall n :: n in origMTU ==> origMTU[n] == disk[n])
            && (forall n :: n in mtus && n in disk && n !in origMTU && n !in missed ==> mtus[n] == pre[n]))
      && (steady ==> misses == {} && missed == {})
    }

    /** Restores these interfaces; the missed ones are there but could not be looked up or set. */
    method RestoreEach(names: set<string>) returns (ghost missed: set<string>)
      requires MidRestore({}) && names <= origMTU.Keys
      modifies this`mtus, this`origMTU, this`history
      ensures MidRestore(missed) && old(history) <= history
      ensures names == {} ==> history == old(history)
      ensures origMTU == old(origMTU) - names && mtus.Keys == old(mtus).Keys && missed <= names * mtus.Keys
      ensures forall n :: n in mtus && (n !in names || n in missed) ==> mtus[n] == old(mtus)[n]
      ensures forall n :: n in mtus && n in names && n !in missed ==> mtus[n] == old(origMTU)[n]
    {
      var todo := names;
      missed := {};
      while todo != {}
        invariant names == {} ==> history == old(history)
        invariant MidRestore(missed) && old(history) <= history && todo <= names && missed <= (names - todo) * mtus.Keys
        invariant origMTU == old(origMTU) - (names - todo) && mtus.Keys == old(mtus).Keys
        invariant forall n :: n in mtus && (n !in names || n in todo || n in missed) ==> mtus[n] == old(mtus)[n]
        invariant forall n :: n in mtus && n in names - todo && n !in missed ==> mtus[n] == old(origMTU)[n]
        decreases todo
      {
        var parent :| parent in todo;
        var ok := RestoreOne(parent, missed);
        missed := if ok || parent !in mtus then missed else missed + {parent};
        todo := todo - {parent};
      }
    }

    /** Restores every recorded interface that this pass does not use, and drops its record. With
        working files and no harm before, the file is safe afterwards exactly if each interface whose
        restore failed had its original MTU anyway. */
    method RestoreUnusedMTU() returns (ghost missed: set<string>)
      requires Valid() && loaded
      modifies this
      ensures Valid() && loaded && inUse == old(inUse) && old(history) <= history && events == old(events)
      ensures old(origMTU).Keys <= inUse ==> history == old(history)
      ensures origMTU == old(origMTU) - (old(origMTU).Keys - inUse) && mtus.Keys == old(mtus).Keys
      ensures missed <= (old(origMTU).Keys - inUse) * mtus.Keys
      ensures forall n :: n in mtus && (n in inUse || n !in old(origMTU) || n in missed) ==> mtus[n] == old(mtus)[n]
      ensures forall n :: n in mtus && n in old(origMTU) && n !in inUse && n !in missed ==> mtus[n] == old(origMTU)[n]
      ensures misses == old(misses) + Missed(missed, mtus, |history| - 1) && (steady ==> missed == {})
      ensures files && Harmless(pre, old(misses)) ==>
                (Safe(pre, Durable(mtus, disk)) <==> forall n :: n in missed ==> n in pre && old(mtus)[n] == pre[n])
      ensures files && Harmless(pre, misses) ==> forall n :: n in mtus && n !in inUse ==> n in pre && mtus[n] == pre[n] && n !in disk
    {
      LastSafe();
      var unused := origMTU.Keys - inUse;
      missed := RestoreEach(unused);
      if unused != {} {
        SaveRestored(missed);
      } else {
        assert missed == {} && Missed(missed, mtus, |history| - 1) == {};
        LastSafe();
      }
    }

    /** Saves the records that remain. */
    method SaveRestored(ghost missed: set<string>)
      requires MidRestore(missed) && missed <= mtus.Keys && missed !! origMTU.Keys
      modifies this`disk, this`history, this`misses
      ensures Valid() && old(history) <= history
      ensures misses == old(misses) + Missed(missed, mtus, |history| - 1)
      ensures files && Harmless(pre, old(misses)) ==>
                (Safe(pre, Durable(mtus, disk)) <==> forall n :: n in missed ==> n in pre && mtus[n] == pre[n])
      ensures files && Harmless(pre, misses) ==> forall n :: n in mtus && n !in origMTU ==> n in pre && mtus[n] == pre[n] && n !in disk
    {
      LastSafe();
      ghost var before := history;
      var _ := Save();
      assert history[..|history| - 1] == before;
      NoteMisses(missed);
      LastSafe();
    }

    /** Notes the restores that failed, now that their records are gone. */
    ghost method NoteMisses(missed: set<string>)
      requires steady ==> misses == {} && missed == {}
      requires |history| > 0 && history[|history| - 1] == Durable(mtus, disk) && loaded && missed <= mtus.Keys
      requires files ==> Originals(pre) && missed !! disk.Keys && HistoryOk(pre, history[..|history| - 1], misses)
      requires files && Harmless(pre, misses) ==>
                 && origMTU == disk
                 && (forall n :: n in disk ==> n in pre && disk[n] == pre[n])
                 && (forall n :: n in mtus && n !in disk && n !in missed ==> n in pre && mtus[n] == pre[n])
      modifies this`misses
      ensures Valid() && misses == old(misses) + Missed(missed, mtus, |history| - 1)
      ensures files && Harmless(pre, old(misses)) ==>
                (Safe(pre, Durable(mtus, disk)) <==> forall n :: n in missed ==> n in pre && mtus[n] == pre[n])
    {
      ghost var added := Missed(missed, mtus, |history| - 1);
      assert forall n :: n in missed ==> Miss(n, mtus[n], |history| - 1) in added;
      if files {
        HistoryMissed(pre, history, misses, added);
      }
      misses := misses + added;
    }

    /** The leaf's teardown: its uplink is no longer in use. */
    method GiveUp(parent: string)
      requires Valid() && loaded
      modifies this
      ensures Valid() && loaded && inUse == old(inUse) - {parent} && old(history) <= history && events == old(events)
      ensures files && Harmless(pre, misses) && parent in mtus ==> parent in pre && mtus[parent] == pre[parent] && parent !in disk
    {
      inUse := inUse - {parent};
      ghost var _ := RestoreUnusedMTU();
    }

    /** One action of a pass. */
    method Act(a: Action)
      requires Valid() && loaded
      modifies this
      ensures Valid() && loaded && |history| >= |old(history)| && events == old(events)
      ensures inUse <= old(inUse) + if a.Use? then {a.parent} else {}
      ensures a.Release? ==> inUse == old(inUse) - {a.parent}
      ensures a.Use? ==> old(inUse) <= inUse && forall n :: n in old(mtus) ==> n in mtus && mtus[n] >= old(mtus)[n]
      ensures works && a.Use? && a.parent in old(mtus) ==> a.parent in inUse && mtus[a.parent] >= Reach(Nic(0, a.maxMTU), a.target)
    {
      match a
      case Use(parent, maxMTU, target) =>
        var found: bool := *;
        if (found || works) && parent in mtus {
          var _ := RaiseParentMTUTo(parent, Nic(mtus[parent], maxMTU), target);
        }
      case Release(parent) =>
        GiveUp(parent);
    }

    /** The interface is in use, with the MTU that this use asks for or more. */
    predicate Served(a: Action)
      requires a.Use?
      reads this
    {
      a.parent in inUse && a.parent in mtus && mtus[a.parent] >= Reach(Nic(0, a.maxMTU), a.target)
    }

    /** One reconcile pass, as far as MTUs are concerned. */
    method Pass(actions: seq<Action>)
      requires Valid()
      modifies this
      ensures Valid() && loaded && |history| >= |old(history)| && events == old(events) + [Passed(actions)]
      ensures forall n :: n in inUse ==> exists i :: 0 <= i < |actions| && actions[i].Use? && actions[i].parent == n
      // Interfaces without a use have their own MTU again and no record.
      ensures files && Harmless(pre, misses) ==> forall n :: n in mtus && n !in inUse ==> n in pre && mtus[n] == pre[n] && n !in disk
      // With every command working, interfaces with a use have what it asks for, as far as they reach.
      ensures works && (forall i :: 0 <= i < |actions| ==> actions[i].Use?) ==>
                forall i :: 0 <= i < |actions| && actions[i].parent in old(mtus) ==> Served(actions[i])
    {
      events := events + [Passed(actions)];
      inUse := {};
      Load();
      for i := 0 to |actions|
        invariant Valid() && loaded && |history| >= |old(history)| && events == old(events) + [Passed(actions)]
        invariant works && (forall j :: 0 <= j < |actions| ==> actions[j].Use?) ==>
                    && (forall n :: n in old(mtus) ==> n in mtus)
                    && forall j :: 0 <= j < i && actions[j].parent in old(mtus) ==> Served(actions[j])
        invariant forall n :: n in inUse ==> exists j :: 0 <= j < i && actions[j].Use? && actions[j].parent == n
      {
        Act(actions[i]);
      }
      ghost var _ := RestoreUnusedMTU();
    }

    /** One pass, and the crash that hits it, if any. */
    method Live(life: Life)
      requires Valid()
      modifies this
      ensures Valid() && events == old(events) + Lived(life)
    {
      Pass(life.actions);
      if life.crash.Some? {
        Crash(life.crash.value);
      }
    }

    method LiveAll(lives: seq<Life>)
      requires Valid()
      modifies this
      ensures Valid() && events == old(events) + EventsOf(lives)
    {
      for i := 0 to |lives|
        invariant Valid() && events == old(events) + EventsOf(lives[..i])
      {
        assert lives[..i + 1][..i] == lives[..i];
        Live(lives[i]);
      }
      assert lives[..|lives|] == lives;
    }

    /** Original MTUs over a whole lifetime of passes, teardowns in the middle of them included, and
        crashes between any two steps, any lookup or MTU change of which may fail: everything that a
        crash could have left behind is safe exactly if every restore that failed was of an interface
        that had its original MTU anyway. A last full pass then puts every interface it does not use
        back. */
    method Lifetime(lives: seq<Life>, last: seq<Action>)
      requires Valid() && files
      modifies this
      ensures events == old(events) + EventsOf(lives) + [Passed(last)]
      ensures Valid() && (AllSafe(pre, history) <==> Harmless(pre, misses)) && (steady ==> misses == {})
      ensures Harmless(pre, misses) ==>
                forall n :: n in mtus && (forall i :: 0 <= i < |last| && last[i].Use? ==> last[i].parent != n) ==>
                  n in pre && mtus[n] == pre[n] && n !in disk
    {
      LiveAll(lives);
      Pass(last);
    }
  }

  // ---- A restore that fails ----

  /** An interface's MTU after a restore that works or not; its record is gone either way. */
  function AfterRestore(mtu: int, saved: int, works: bool): int {
    if works then saved else mtu
  }

  /** An interface's MTU and its record after a raise whose commands work. */
  function AfterRaise(mtu: int, maxMTU: int, record: Option<int>, target: int): (int, Option<int>) {
    match RaiseTarget(Nic(mtu, maxMTU), target)
    case None => (mtu, record)
    case Some(t) => (t, if record.Some? then record else Some(mtu))
  }

  /** An interface raised from its original MTU, released, raised again to any target - the same, a
      larger one, or one its driver does not reach - and released again is back at the original exactly
      when the first restore worked: after a failed one the record is gone, and either nothing or the
      raised MTU is recorded for the original. */
  lemma OriginalSurvives(original: int, raised: int, target: int, maxMTU: int, works: bool)
    requires original < raised
    ensures var (mtu1, record1) := AfterRaise(original, 0, None, raised);
            record1 == Some(original)
            && var (mtu2, record2) := AfterRaise(AfterRestore(mtu1, original, works), maxMTU, None, target);
               var mtu3 := if record2.Some? then AfterRestore(mtu2, record2.value, true) else mtu2;
               mtu3 == original <==> works
  {
  }
}
