/** The leaf's shared fields and the handlers that update them, one critical section at a time.
    `log` records every section in the order the locks were taken. */
module LeafNode {
  import opened Wrappers
  import opened Mesh
  import opened MtuMath
  import opened LeafConfig
  import Codec

  /** Whose code is running: the others may interleave with it. */
  datatype Role = Pass | Listening(g: nat) | Handling(id: nat)

  predicate Foreign(who: Role, e: Event) {
    match who
    case Pass => IsHandler(e)
    case Listening(g) => !((e.WireRecv? || e.WireMark? || e.WireClear?) && e.g == g)
    case Handling(id) => !(e.Admit? && e.id == id) && !(e.Peer? && e.id == id)
  }

  class LeafNode {
    const h: Codec.Hmac
    var config: LeafSide
    var leafMode: bool
    var leafCtl: Option<Codec.CtlKeys>
    var leafCtlMAC: Bytes
    var ctlOffAt: Option<int>
    var clock: int
    /** Local variables of the listening goroutines. */
    var listeners: map<nat, Listener>
    /** HTTPS requests past their leaf-mode check. */
    var admitted: set<nat>
    ghost const start: Node
    ghost var log: seq<Event>

    function State(): Node
      reads this
    {
      Node(config, leafMode, leafCtl, ctlOffAt, leafCtlMAC, listeners, admitted)
    }

    ghost predicate Valid()
      reads this
    {
      State() == Run(h, start, log)
    }

    constructor (h: Codec.Hmac, config: LeafSide, leafMode: bool)
      ensures Valid() && log == [] && this.h == h
      ensures State() == Node(config, leafMode, None, None, [], map[], {})
    {
      this.h, this.config, this.leafMode := h, config, leafMode;
      leafCtl, leafCtlMAC, ctlOffAt, clock := None, [], None, 0;
      listeners, admitted, log := map[], {}, [];
      start := Node(config, leafMode, None, None, [], map[], {});
    }

    /** A reading of a clock that never goes back. */
    method Now() returns (t: int)
      modifies this`clock
      ensures t == clock && t >= old(clock)
    {
      t := *;
      t := Max(t, clock);
      clock := t;
    }

    /** One critical section of another goroutine. */
    method Perform(e: Event)
      requires Valid()
      modifies this
      ensures Valid() && log == old(log) + [e] && State() == Step(h, old(State()), e)
      ensures clock == old(clock)
    {
      RunSnoc(h, start, log, e);
      var n := Step(h, State(), e);
      config, leafMode, leafCtl, ctlOffAt := n.cfg, n.leafMode, n.ctl, n.offAt;
      leafCtlMAC, listeners, admitted := n.mac, n.listeners, n.admitted;
      log := log + [e];
    }

    /** Any number of critical sections of the other goroutines. */
    method Others(who: Role) returns (ghost es: seq<Event>)
      requires Valid()
      modifies this
      ensures Valid() && log == old(log) + es && State() == Run(h, old(State()), es)
      ensures forall e :: e in es ==> Foreign(who, e)
      ensures clock == old(clock)
    {
      es := [];
      var n: nat := *;
      while n > 0
        invariant Valid() && log == old(log) + es && State() == Run(h, old(State()), es)
        invariant forall e :: e in es ==> Foreign(who, e)
        invariant clock == old(clock)
      {
        var e: Event := *;
        if Foreign(who, e) {
          RunSnoc(h, old(State()), es, e);
          Perform(e);
          es := es + [e];
        }
        n := n - 1;
      }
    }

    /** The HTTPS handler finds out whether the router is a leaf. */
    method AdmitPeer(id: nat) returns (leaf: bool)
      requires Valid()
      modifies this
      ensures Valid() && log == old(log) + [Admit(id)] && State() == Step(h, old(State()), Admit(id))
      ensures leaf == old(leafMode) && clock == old(clock)
    {
      RunSnoc(h, start, log, Admit(id));
      leaf := leafMode;
      if leaf {
        admitted := admitted + {id};
      }
      log := log + [Admit(id)];
    }

    /** The rest of the handler, up to the write under the configuration lock. */
    method CommitPeer(id: nat, req: Request, f: Facts) returns (r: Result<Reply, int>)
      requires Valid() && id in admitted
      modifies this
      ensures Valid() && log == old(log) + [Peer(id, req, f)] && State() == Step(h, old(State()), Peer(id, req, f))
      ensures r.Failure? ==> config == old(config)
      ensures r.Success? <==> TokenOk(req, f) && (req.enable ==> EnableReply(req, f).Success?)
      ensures r == Failure(403) <==> f.token != Some(req.token) || req.token == ""
      ensures r.Success? && req.enable ==> ReplyFor(req, f, r.value) && RecordOf(req, r.value, config)
      ensures r.Success? && req.enable ==>
                r == EnableReply(req, f) && config == Enabled(old(config), req, r.value.linkMTU, f.seconds)
      ensures r.Success? && !req.enable ==> config == OFF
    {
      RunSnoc(h, start, log, Peer(id, req, f));
      if f.token.Some? && EnableReply(req, f).Success? {
        RepliedExactly(req, f, EnableReply(req, f).value);
      } else if f.token.Some? {
        RepliedExactly(req, f, Reply(0, [], 0, 0, []));
      }
      log := log + [Peer(id, req, f)];
      admitted := admitted - {id};
      if f.token.None? || f.token.value == "" || f.token.value != req.token {
        return Failure(403);
      }
      if !req.enable {
        config := OFF;
        return Success(Reply(PROTOCOL_VERSION, [], 0, 0, []));
      }
      r := EnableReply(req, f);
      if r.Failure? {
        return;
      }
      var wg := StoredMode(req.mode).WireGuard?;
      var previous := config;
      var next := OFF.(enabled := true, keyNonce := req.keyNonce, linkMTU := r.value.linkMTU,
                       jumbo := req.jumbo, enabledAt := f.seconds);
      if wg {
        next := next.(mode := BACKHAUL_WIREGUARD, port := req.port,
                      mainPublicKey := req.mainPublicKey, underlayMTU := req.underlayMTU);
      }
      if previous.enabled && previous.keyNonce == req.keyNonce && previous.mode == next.mode {
        next := next.(confirmed := previous.confirmed, enabledAt := previous.enabledAt);
      }
      config := next;
    }

    /** The HTTPS handler of the main router's enable and disable requests. Others run between its
        leaf-mode check and its write, and may even switch leaf mode off. */
    method MacsecPeer(id: nat, req: Request, f: Facts) returns (r: Result<Reply, int>, ghost es: seq<Event>)
      requires Valid() && id !in admitted
      modifies this
      ensures Valid() && forall e :: e in es ==> Foreign(Handling(id), e)
      ensures log == if old(leafMode) then old(log) + [Admit(id)] + es + [Peer(id, req, f)] else old(log) + [Admit(id)]
      ensures r.Success? <==> old(leafMode) && TokenOk(req, f) && (req.enable ==> EnableReply(req, f).Success?)
      ensures r.Success? && req.enable ==> r == EnableReply(req, f) && Current(State(), req.keyNonce, ModeName(req))
      ensures r.Success? && req.enable ==> ReplyFor(req, f, r.value) && RecordOf(req, r.value, config)
      ensures r == Failure(403) <==> old(leafMode) && (f.token != Some(req.token) || req.token == "")
      ensures r.Success? && !req.enable ==> config == OFF
      ensures r.Failure? && old(leafMode) ==> config == Run(h, old(State()), [Admit(id)] + es).cfg
    {
      var leaf := AdmitPeer(id);
      es := [];
      if !leaf {
        return Failure(400), [];
      }
      ghost var middle := State();
      es := Others(Handling(id));
      AdmittedStays(h, middle, es, id);
      assert ([Admit(id)] + es)[1..] == es;
      r := CommitPeer(id, req, f);
    }

    /** A pass of an enabled leaf arms the control keys of its association. */
    method Arm(keys: Codec.CtlKeys, mac: Bytes)
      requires Valid()
      modifies this
      ensures Valid() && log == old(log) + [Event.Arm(keys, mac)] && clock == old(clock)
      ensures State() == Step(h, old(State()), Event.Arm(keys, mac))
    {
      RunSnoc(h, start, log, Event.Arm(keys, mac));
      leafCtl, leafCtlMAC, ctlOffAt := Some(keys), mac, None;
      log := log + [Event.Arm(keys, mac)];
    }

    /** A pass that read a disabled association drops the keys, unless a wire disable is still
        being acknowledged. */
    method Disarm()
      requires Valid()
      modifies this
      ensures Valid() && log == old(log) + [Event.Disarm] && clock == old(clock)
      ensures State() == Step(h, old(State()), Event.Disarm)
    {
      RunSnoc(h, start, log, Event.Disarm);
      if ctlOffAt.None? {
        leafCtl := None;
      }
      log := log + [Event.Disarm];
    }

    /** Confirms the association a pass secured, if it is still the stored one. */
    method Confirm(snapshot: LeafSide) returns (confirmed: bool)
      requires Valid()
      modifies this
      ensures Valid() && log == old(log) + [Event.Confirm(snapshot)] && clock == old(clock)
      ensures State() == Step(h, old(State()), Event.Confirm(snapshot))
      ensures confirmed <==> old(config).enabled && old(config).keyNonce == snapshot.keyNonce
    {
      RunSnoc(h, start, log, Event.Confirm(snapshot));
      confirmed := false;
      if config.enabled && config.keyNonce == snapshot.keyNonce {
        config := config.(confirmed := true);
        confirmed := true;
      }
      log := log + [Event.Confirm(snapshot)];
    }

    /** Clears the association a pass gave up on, if it is still stored and unconfirmed. */
    method Revert(snapshot: LeafSide) returns (cleared: bool)
      requires Valid()
      modifies this
      ensures Valid() && log == old(log) + [Event.Revert(snapshot)] && clock == old(clock)
      ensures State() == Step(h, old(State()), Event.Revert(snapshot))
      ensures cleared <==> Clears(old(State()), snapshot)
      ensures cleared ==> config == OFF
    {
      RunSnoc(h, start, log, Event.Revert(snapshot));
      cleared := false;
      if config.enabled && !config.confirmed && config.keyNonce == snapshot.keyNonce {
        config := OFF;
        cleared := true;
      }
      log := log + [Event.Revert(snapshot)];
    }

    /** A pass of a router that is no leaf any more clears what is left of its association. */
    method LeaveLeaf(loads: bool)
      requires Valid()
      modifies this
      ensures Valid() && log == old(log) + [Event.LeaveLeaf(loads)] && clock == old(clock)
      ensures State() == Step(h, old(State()), Event.LeaveLeaf(loads))
    {
      RunSnoc(h, start, log, Event.LeaveLeaf(loads));
      if loads && config.enabled {
        config := OFF;
      }
      log := log + [Event.LeaveLeaf(loads)];
    }

    /** The armed keys, dropped for good once the acknowledgement window has passed. */
    method CtlKeys(t: int) returns (keys: Option<Codec.CtlKeys>)
      modifies this`leafCtl
      ensures keys == leafCtl == LiveKeys(old(State()), t)
    {
      if leafCtl.Some? && ctlOffAt.Some? && t - ctlOffAt.value > ACK_WINDOW {
        leafCtl := None;
      }
      keys := leafCtl;
    }

    /** Records the time of the first accepted disable since the keys were armed. */
    method MarkDisabled(g: nat) returns (first: bool)
      requires Valid() && ListenerOf(State(), g).Heard?
      modifies this
      ensures Valid() && clock >= old(clock)
      ensures log == old(log) + [WireMark(g, clock)] && State() == Step(h, old(State()), WireMark(g, clock))
      ensures first == ListenerOf(State(), g).Clearing? == old(ctlOffAt).None?
    {
      var t := Now();
      RunSnoc(h, start, log, WireMark(g, t));
      first := ctlOffAt.None?;
      if first {
        ctlOffAt, listeners := Some(t), listeners[g := Clearing(listeners[g].keys)];
      } else {
        listeners := listeners[g := Idle];
      }
      log := log + [WireMark(g, t)];
    }

    /** Clears the record under the configuration lock, if it has the nonce of the keys. */
    method ClearIfOurs(g: nat, keys: Codec.CtlKeys, loads: bool)
      requires Valid() && ListenerOf(State(), g) == Clearing(keys)
      modifies this
      ensures Valid() && clock == old(clock)
      ensures log == old(log) + [WireClear(g, loads)] && State() == Step(h, old(State()), WireClear(g, loads))
      ensures config == (if loads && old(config).enabled && old(config).keyNonce == keys.nonce then OFF else old(config))
    {
      RunSnoc(h, start, log, WireClear(g, loads));
      if loads && config.enabled && config.keyNonce == keys.nonce {
        config := OFF;
      }
      listeners := listeners[g := Idle];
      log := log + [WireClear(g, loads)];
    }

    /** The first section: fetch the armed keys and check the frame against them. */
    method Receive(g: nat, frame: Bytes) returns (t: int, keys: Option<Codec.CtlKeys>, parsed: Option<Codec.Parsed>)
      requires Valid()
      modifies this
      ensures Valid() && t == clock >= old(clock) && keys == LiveKeys(old(State()), t)
      ensures log == old(log) + [WireRecv(g, frame, t)] && State() == Step(h, old(State()), WireRecv(g, frame, t))
      ensures parsed == if keys.None? then None else Codec.Parse(h, frame, keys.value)
      ensures parsed.Some? && parsed.value.cmd == Codec.DISABLE ==> ListenerOf(State(), g) == Heard(keys.value, parsed.value.challenge)
    {
      t := Now();
      RunSnoc(h, start, log, WireRecv(g, frame, t));
      keys := CtlKeys(t);
      parsed := None;
      listeners := listeners[g := Idle];
      log := log + [WireRecv(g, frame, t)];
      if keys.Some? {
        parsed := Codec.Parse(h, frame, keys.value);
        if parsed.Some? && parsed.value.cmd == Codec.DISABLE {
          listeners := listeners[g := Heard(keys.value, parsed.value.challenge)];
        }
      }
    }

    /** The sections after an accepted disable: mark it and, if it is the first since the keys
        were armed, clear the record. */
    method Withdraw(g: nat, keys: Codec.CtlKeys, loads: bool) returns (ghost tail: seq<Event>)
      requires Valid() && ListenerOf(State(), g).Heard? && ListenerOf(State(), g).keys == keys
      modifies this
      ensures Valid() && log == old(log) + tail && tail != [] && ClearSections(tail, g, loads)
      ensures |tail| > 1 <==> old(ctlOffAt).None?
    {
      var first := MarkDisabled(g);
      tail := [WireMark(g, clock)];
      if first {
        ghost var marked := State();
        ghost var b := Others(Listening(g));
        ListenerUntouched(h, marked, b, g);
        ClearIfOurs(g, keys, loads);
        tail := tail + b + [WireClear(g, loads)];
      }
    }

    /** One frame that listener `g` received. Answers probes and acknowledges disables under the armed keys; the
        first disable since the keys were armed also clears the record, if it still has the
        nonce of those keys. Other goroutines run between the critical sections, `a` and `tail`
        say which ones. */
    method HandleLeafCtl(g: nat, frame: Bytes, loads: bool)
      returns (sent: Option<Bytes>, ghost t: int, ghost keys: Option<Codec.CtlKeys>, ghost mac: Bytes,
               ghost a: seq<Event>, ghost tail: seq<Event>)
      requires Valid()
      modifies this
      ensures Valid()
      ensures t >= old(clock) && keys == LiveKeys(old(State()), t)
      ensures sent == if keys.None? then None else Codec.Answer(h, keys.value, mac, frame)
      ensures if keys.None? then sent.None? else Codec.AnswersTo(h, keys.value, mac, frame, sent)
      ensures mac == Run(h, old(State()), [WireRecv(g, frame, t)] + a).mac
      ensures log == old(log) + [WireRecv(g, frame, t)] + a + tail
      ensures forall e :: e in a ==> Foreign(Listening(g), e)
      ensures tail != [] <==> keys.Some? && Disables(keys.value, frame)
      ensures tail != [] ==> ClearSections(tail, g, loads)
    {
      var at, live, parsed := Receive(g, frame);
      ghost var heard := State();
      a := Others(Listening(g));
      ListenerUntouched(h, heard, a, g);
      t, keys, mac, tail, sent := at, live, leafCtlMAC, [], None;
      RunAppend(h, old(State()), [WireRecv(g, frame, t)], a);
      if keys.Some? {
        Codec.AnswerMeets(h, keys.value, mac, frame);
      }
      if parsed.Some? && parsed.value.cmd == Codec.PROBE {
        var p := parsed.value;
        sent := Codec.BuildSized(h, p.src, leafCtlMAC, Codec.PROBE_REPLY, live.value, p.challenge, p.total);
      } else if parsed.Some? && parsed.value.cmd == Codec.DISABLE {
        var p := parsed.value;
        sent := Codec.BuildSized(h, p.src, leafCtlMAC, Codec.ACK, live.value, p.challenge, Codec.FRAME_LEN);
        tail := Withdraw(g, live.value, loads);
      }
    }

    predicate Disables(keys: Codec.CtlKeys, frame: Bytes) {
      var p := Codec.Parse(h, frame, keys);
      p.Some? && p.value.cmd == Codec.DISABLE
    }
  }

  /** The sections of a handler that accepted a disable: the mark and, if it was the first, the
      clearing step, with sections of others in between. */
  predicate ClearSections(tail: seq<Event>, g: nat, loads: bool)
    requires tail != []
  {
    && tail[0].WireMark? && tail[0].g == g
    && (|tail| > 1 ==> tail[|tail| - 1] == WireClear(g, loads))
    && forall i :: 0 < i < |tail| - 1 ==> Foreign(Listening(g), tail[i])
  }

  /** Nobody else commits or drops a request. */
  lemma {:induction false} AdmittedStays(h: Codec.Hmac, n: Node, es: seq<Event>, id: nat)
    requires id in n.admitted && forall e :: e in es ==> Foreign(Handling(id), e)
    ensures id in Run(h, n, es).admitted
    decreases |es|
  {
    if es != [] {
      assert es[0] in es && Foreign(Handling(id), es[0]);
      AdmittedStays(h, Step(h, n, es[0]), es[1..], id);
    }
  }

  /** Sections of other goroutines leave a listener's local variables alone. */
  lemma {:induction false} ListenerUntouched(h: Codec.Hmac, n: Node, es: seq<Event>, g: nat)
    requires forall e :: e in es ==> Foreign(Listening(g), e)
    ensures ListenerOf(Run(h, n, es), g) == ListenerOf(n, g)
    decreases |es|
  {
    if es != [] {
      assert es[0] in es && Foreign(Listening(g), es[0]);
      ListenerUntouched(h, Step(h, n, es[0]), es[1..], g);
    }
  }
}
