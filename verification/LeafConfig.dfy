/** The leaf's own association record and everything that changes it: the HTTPS handler of the
    main router's requests, the wire handler, the reconcile pass and the leaf-mode switch.
    Each event is what happens under one hold of a lock, so a list of events is an interleaving. */
module LeafConfig {
  import opened Wrappers
  import opened Mesh
  import opened MtuMath
  import Codec

  datatype Request = Request(
    token: string, enable: bool, keyNonce: string, peerMTU: int, mode: string,
    port: int, underlayMTU: int, jumbo: bool, mainPublicKey: Bytes)

  datatype Reply = Reply(version: int, bridgeMAC: Bytes, maxMTU: int, linkMTU: int, leafPublicKey: Bytes)

  const PROTOCOL_VERSION := 1

  /** What the HTTPS handler finds on the leaf while it runs; `seconds` is its clock. */
  datatype Facts = Facts(
    token: Option<string>, probeOk: bool, uplink: Option<Nic>, bridgeMAC: Option<Bytes>,
    publicKey: Option<Bytes>, seconds: int)

  predicate IsHexDigit(c: char) { '0' <= c <= '9' || 'a' <= c <= 'f' || 'A' <= c <= 'F' }

  /** Key derivation succeeds for secrets and nonces of this shape and for no others. */
  predicate KeysDerivable(secret: string, nonce: string) {
    && |secret| >= MIN_SECRET_LEN
    && |nonce| == NONCE_HEX_LEN
    && forall i :: 0 <= i < |nonce| ==> IsHexDigit(nonce[i])
  }

  predicate TokenOk(req: Request, f: Facts) {
    f.token.Some? && f.token.value != "" && f.token.value == req.token
  }

  /** The mode string an accepted request stores. */
  function ModeName(req: Request): string {
    if StoredMode(req.mode).WireGuard? then BACKHAUL_WIREGUARD else ""
  }

  /** The reply to an enable request whose token was right, or the HTTP error. */
  function EnableReply(req: Request, f: Facts): Result<Reply, int>
    requires f.token.Some?
  {
    var wg := StoredMode(req.mode).WireGuard?;
    if !KeysDerivable(f.token.value, req.keyNonce) then Failure(400)
    else if wg && (|req.mainPublicKey| != 32 || !ValidWGPort(req.port)) then Failure(400)
    else if wg && req.underlayMTU != 0 && (req.underlayMTU < ETHERNET_MTU || req.underlayMTU > JUMBO_MTU) then Failure(400)
    else if !wg && (req.peerMTU < MIN_LINK_MTU || req.peerMTU > ETHERNET_MTU) then Failure(400)
    else if !f.probeOk || f.uplink.None? || f.bridgeMAC.None? then Failure(400)
    else if wg then
      if f.publicKey.None? then Failure(500)
      else Success(Reply(PROTOCOL_VERSION, f.bridgeMAC.value, WGCapableUnderlay(f.uplink.value),
                         WGInnerMTU(MeshUnderlay(req.jumbo, req.underlayMTU)), f.publicKey.value))
    else
      var max := if req.jumbo then ParentCapableMTU(f.uplink.value) else CapableMTU(ETHERNET_MTU);
      match MACsecLinkMTU(max, req.peerMTU)
      case None => Failure(400)
      case Some(mtu) => Success(Reply(PROTOCOL_VERSION, f.bridgeMAC.value, max, mtu, []))
  }

  /** What a leaf answers to a valid enable: its protocol and bridge address, the largest frame it can
      carry, and the size the link gets - over WireGuard what fits the underlay, else what fits both ends. */
  predicate ReplyFor(req: Request, f: Facts, r: Reply) {
    var wg := req.mode == "wireguard";
    && f.token.Some? && |f.token.value| >= 32 && |req.keyNonce| == 64
    && (forall i :: 0 <= i < 64 ==> '0' <= req.keyNonce[i] <= '9' || 'a' <= req.keyNonce[i] <= 'f' || 'A' <= req.keyNonce[i] <= 'F')
    && f.probeOk && f.uplink.Some? && f.bridgeMAC == Some(r.bridgeMAC)
    && r.version == 1
    && var card := Max(f.uplink.value.mtu, f.uplink.value.maxMTU);
       if wg then
         && |req.mainPublicKey| == 32 && 2 <= req.port <= 254 && (req.underlayMTU == 0 || 1500 <= req.underlayMTU <= 9000)
         && f.publicKey == Some(r.leafPublicKey) && r.maxMTU == Min(card, 9000)
         && r.linkMTU == Min(1500, (if req.jumbo then Max(req.underlayMTU, 1500) else 1500) - 110)
       else
         && 1280 <= req.peerMTU <= 1500 && r.leafPublicKey == []
         && r.maxMTU == (if req.jumbo then Min(card - 32, 1500) else 1468)
         && 1280 <= r.linkMTU == Min(r.maxMTU, req.peerMTU)
  }

  /** An enable is answered exactly if there is such a reply; otherwise it is refused as invalid, or as an
      error of the leaf's own if only its WireGuard key is missing. */
  lemma RepliedExactly(req: Request, f: Facts, r: Reply)
    requires f.token.Some?
    ensures EnableReply(req, f) == Success(r) <==> ReplyFor(req, f, r)
    ensures EnableReply(req, f) == Failure(500)
            <==> req.mode == "wireguard" && f.publicKey.None? && f.bridgeMAC.Some?
                 && ReplyFor(req, f.(publicKey := Some(Zeros(32))),
                             Reply(1, f.bridgeMAC.value, if f.uplink.Some? then WGCapableUnderlay(f.uplink.value) else 0,
                                   WGInnerMTU(MeshUnderlay(req.jumbo, req.underlayMTU)), Zeros(32)))
    ensures EnableReply(req, f).Failure? ==> EnableReply(req, f).error in {400, 500}
  {
  }

  /** What an accepted enable leaves stored: what was asked for in the mode asked for, in the size that was
      answered. The fields of the other mode are empty. */
  predicate RecordOf(req: Request, r: Reply, c: LeafSide) {
    var wg := req.mode == "wireguard";
    && c.enabled && c.mode == (if wg then "wireguard" else "") && c.keyNonce == req.keyNonce
    && c.linkMTU == r.linkMTU && c.jumbo == req.jumbo
    && (if wg then c.port == req.port && c.underlayMTU == req.underlayMTU && c.mainPublicKey == req.mainPublicKey
        else c.port == 0 && c.underlayMTU == 0 && c.mainPublicKey == [])
  }

  lemma AcceptedRecord(h: Codec.Hmac, n: Node, id: nat, req: Request, f: Facts)
    ensures var n' := Step(h, n, Peer(id, req, f));
            if id in n.admitted && f.token == Some(req.token) && req.token != "" then
              if !req.enable then n'.cfg == OFF
              else if EnableReply(req, f).Success? then RecordOf(req, EnableReply(req, f).value, n'.cfg)
              else n'.cfg == n.cfg
            else n'.cfg == n.cfg
    ensures Step(h, n, Peer(id, req, f)).admitted == n.admitted - {id}
  {
  }

  /** The record an accepted enable stores over `previous`. */
  function Enabled(previous: LeafSide, req: Request, linkMTU: int, seconds: int): LeafSide {
    var wg := StoredMode(req.mode).WireGuard?;
    var same := previous.enabled && previous.keyNonce == req.keyNonce && previous.mode == ModeName(req);
    LeafSide(true, ModeName(req), same && previous.confirmed, req.keyNonce, linkMTU,
             if wg then req.underlayMTU else 0, req.jumbo, if wg then req.port else 0,
             if wg then req.mainPublicKey else [],
             if same then previous.enabledAt else seconds)
  }

  /** What a listening goroutine has in hand between its critical sections. */
  datatype Listener = Idle | Heard(keys: Codec.CtlKeys, challenge: Bytes) | Clearing(keys: Codec.CtlKeys)

  /** Leaf state shared by handlers and passes: the stored record, the leaf-mode flag, the armed
      control keys, the time of the first accepted wire disable, the listeners - there can be several,
      as a new one is started while an old one still waits for its last frame -, and the HTTPS requests
      that found the router a leaf and have not committed yet. */
  datatype Node = Node(
    cfg: LeafSide, leafMode: bool, ctl: Option<Codec.CtlKeys>, offAt: Option<int>, mac: Bytes,
    listeners: map<nat, Listener>, admitted: set<nat>)

  function ListenerOf(n: Node, g: nat): Listener {
    if g in n.listeners then n.listeners[g] else Idle
  }

  function SetListener(n: Node, g: nat, l: Listener): Node {
    n.(listeners := n.listeners[g := l])
  }

  datatype Event =
    | Admit(id: nat)
    | Peer(id: nat, req: Request, facts: Facts)
    | WireRecv(g: nat, frame: Bytes, now: int)
    | WireMark(g: nat, now: int)
    | WireClear(g: nat, loads: bool)
    | SetLeafMode(on: bool)
    | Arm(keys: Codec.CtlKeys, mac: Bytes)
    | Disarm
    | Confirm(snapshot: LeafSide)
    | Revert(snapshot: LeafSide)
    | LeaveLeaf(loads: bool)

  /** The events other goroutines may contribute while a pass runs. */
  predicate IsHandler(e: Event) {
    e.Admit? || e.Peer? || e.WireRecv? || e.WireMark? || e.WireClear? || e.SetLeafMode?
  }

  /** The armed keys, forgotten once the acknowledgement window is over. */
  function LiveKeys(n: Node, now: int): Option<Codec.CtlKeys> {
    if n.ctl.Some? && n.offAt.Some? && now - n.offAt.value > ACK_WINDOW then None else n.ctl
  }

  function Clears(n: Node, snapshot: LeafSide): bool {
    n.cfg.enabled && !n.cfg.confirmed && n.cfg.keyNonce == snapshot.keyNonce
  }

  function Step(h: Codec.Hmac, n: Node, e: Event): Node {
    match e
    case Admit(id) => if n.leafMode then n.(admitted := n.admitted + {id}) else n
    case Peer(id, req, f) =>
      var n1 := n.(admitted := n.admitted - {id});
      if id !in n.admitted || !TokenOk(req, f) then n1
      else if !req.enable then n1.(cfg := OFF)
      else (match EnableReply(req, f)
            case Failure(_) => n1
            case Success(r) => n1.(cfg := Enabled(n.cfg, req, r.linkMTU, f.seconds)))
    case WireRecv(g, frame, now) =>
      var n1 := SetListener(n.(ctl := LiveKeys(n, now)), g, Idle);
      if n1.ctl.None? then n1
      else (match Codec.Parse(h, frame, n1.ctl.value)
            case None => n1
            case Some(p) => if p.cmd == Codec.DISABLE then SetListener(n1, g, Heard(n1.ctl.value, p.challenge)) else n1)
    case WireMark(g, now) =>
      var l := ListenerOf(n, g);
      if !l.Heard? then n
      else if n.offAt.Some? then SetListener(n, g, Idle)
      else SetListener(n.(offAt := Some(now)), g, Clearing(l.keys))
    case WireClear(g, loads) =>
      var l := ListenerOf(n, g);
      if !l.Clearing? then n
      else if loads && n.cfg.enabled && n.cfg.keyNonce == l.keys.nonce then SetListener(n.(cfg := OFF), g, Idle)
      else SetListener(n, g, Idle)
    case SetLeafMode(on) => n.(leafMode := on)
    case Arm(keys, mac) => n.(ctl := Some(keys), mac := mac, offAt := None)
    case Disarm => if n.offAt.None? then n.(ctl := None) else n
    case Confirm(s) =>
      if n.cfg.enabled && n.cfg.keyNonce == s.keyNonce then n.(cfg := n.cfg.(confirmed := true)) else n
    case Revert(s) => if Clears(n, s) then n.(cfg := OFF) else n
    case LeaveLeaf(loads) => if loads && n.cfg.enabled then n.(cfg := OFF) else n
  }

  function Run(h: Codec.Hmac, n: Node, es: seq<Event>): Node
    decreases |es|
  {
    if es == [] then n else Run(h, Step(h, n, es[0]), es[1..])
  }

  lemma {:induction false} RunAppend(h: Codec.Hmac, n: Node, es: seq<Event>, fs: seq<Event>)
    ensures Run(h, n, es + fs) == Run(h, Run(h, n, es), fs)
    decreases |es|
  {
    if es == [] {
      assert es + fs == fs;
    } else {
      assert (es + fs)[0] == es[0] && (es + fs)[1..] == es[1..] + fs;
      RunAppend(h, Step(h, n, es[0]), es[1..], fs);
    }
  }

  lemma RunSnoc(h: Codec.Hmac, n: Node, es: seq<Event>, e: Event)
    ensures Run(h, n, es + [e]) == Step(h, Run(h, n, es), e)
  {
    RunAppend(h, n, es, [e]);
    assert [e][1..] == [];
  }

  // ---- Fail closed ----

  /** The leaf stores an enabled association with this nonce and mode. */
  predicate Current(n: Node, nonce: string, mode: string) {
    n.cfg.enabled && n.cfg.keyNonce == nonce && n.cfg.mode == mode
  }

  /** The ways an association with a confirmed link ends: a token-checked disable, a token-checked
      and valid enable with another nonce or mode - both of requests that began in leaf mode -, the
      clearing step of a wire disable whose keys belong to the stored nonce, or a pass of a router that
      is no leaf any more. */
  predicate Ends(n: Node, e: Event) {
    match e
    case Peer(id, req, f) =>
      && id in n.admitted && TokenOk(req, f)
      && (!req.enable
          || (EnableReply(req, f).Success? && (req.keyNonce != n.cfg.keyNonce || ModeName(req) != n.cfg.mode)))
    case WireClear(g, loads) => loads && ListenerOf(n, g).Clearing? && ListenerOf(n, g).keys.nonce == n.cfg.keyNonce
    case LeaveLeaf(loads) => loads
    case _ => false
  }

  /** An unconfirmed association also ends by a pass whose snapshot has its nonce. */
  predicate Loses(n: Node, e: Event) {
    Ends(n, e) || (e.Revert? && Clears(n, e.snapshot))
  }

  /** One event ends the current association exactly when `Loses` says so; while it stays, its
      deadline never moves and a confirmation is never taken back. */
  lemma AssociationStep(h: Codec.Hmac, n: Node, e: Event)
    requires n.cfg.enabled
    ensures var n' := Step(h, n, e);
            && (Current(n', n.cfg.keyNonce, n.cfg.mode) <==> !Loses(n, e))
            && (Current(n', n.cfg.keyNonce, n.cfg.mode) ==>
                  n'.cfg.enabledAt == n.cfg.enabledAt && (n.cfg.confirmed ==> n'.cfg.confirmed))
  {
  }

  /** Some event of the run ends the association that is stored when it happens. */
  predicate EverEnds(h: Codec.Hmac, n: Node, es: seq<Event>)
    decreases |es|
  {
    es != [] && (Ends(n, es[0]) || EverEnds(h, Step(h, n, es[0]), es[1..]))
  }

  /** Fail closed: in every interleaving of handlers with passes - however stale the snapshots
      the passes hold - a confirmed association stays stored and confirmed, with its original
      enable time, unless one of the four endings happens. */
  lemma {:induction false} FailClosed(h: Codec.Hmac, n: Node, es: seq<Event>)
    requires n.cfg.enabled && n.cfg.confirmed
    ensures EverEnds(h, n, es)
            || (var n' := Run(h, n, es);
                && Current(n', n.cfg.keyNonce, n.cfg.mode)
                && n'.cfg.confirmed && n'.cfg.enabledAt == n.cfg.enabledAt)
    decreases |es|
  {
    if es != [] && !EverEnds(h, n, es) {
      AssociationStep(h, n, es[0]);
      FailClosed(h, Step(h, n, es[0]), es[1..]);
    }
  }

  /** Some event of the run ends the association, confirmed or not. */
  predicate EverLoses(h: Codec.Hmac, n: Node, es: seq<Event>)
    decreases |es|
  {
    es != [] && (Loses(n, es[0]) || EverLoses(h, Step(h, n, es[0]), es[1..]))
  }

  /** A pending association keeps the deadline it was given until an event ends it: no
      interleaving of re-sent enables and stale passes postpones its revert. */
  lemma {:induction false} DeadlineFixed(h: Codec.Hmac, n: Node, es: seq<Event>)
    requires n.cfg.enabled && !EverLoses(h, n, es)
    ensures var n' := Run(h, n, es);
            Current(n', n.cfg.keyNonce, n.cfg.mode) && n'.cfg.enabledAt == n.cfg.enabledAt
    decreases |es|
  {
    if es != [] {
      AssociationStep(h, n, es[0]);
      DeadlineFixed(h, Step(h, n, es[0]), es[1..]);
    }
  }

  // ---- What passes and requests may do to the record ----

  /** A pass commits only to the association it read: with another nonce stored, neither its
      confirmation nor its revert changes anything; a revert never touches a confirmed one. */
  lemma StalePassHarmless(h: Codec.Hmac, n: Node, s: LeafSide)
    ensures Step(h, n, Confirm(s)) != n
            <==> n.cfg.enabled && !n.cfg.confirmed && n.cfg.keyNonce == s.keyNonce
    ensures Step(h, n, Revert(s)).cfg == OFF && n.cfg != OFF && n.cfg.enabled
            <==> n.cfg.enabled && !n.cfg.confirmed && n.cfg.keyNonce == s.keyNonce
    ensures !Clears(n, s) ==> Step(h, n, Revert(s)) == n
  {
  }

  /** Re-sending an accepted enable for the stored nonce and mode keeps both the deadline and the
      confirmation; any other accepted enable starts unconfirmed at the current time. */
  lemma ResentEnable(h: Codec.Hmac, n: Node, id: nat, req: Request, f: Facts)
    requires id in n.admitted && TokenOk(req, f) && req.enable && EnableReply(req, f).Success?
    ensures var n' := Step(h, n, Peer(id, req, f));
            && Current(n', req.keyNonce, ModeName(req))
            && (Current(n, req.keyNonce, ModeName(req)) ==>
                  n'.cfg.enabledAt == n.cfg.enabledAt && n'.cfg.confirmed == n.cfg.confirmed)
            && (!Current(n, req.keyNonce, ModeName(req)) ==>
                  n'.cfg.enabledAt == f.seconds && !n'.cfg.confirmed)
  {
  }

  /** Only a pass that itself read the stored nonce ever sets the confirmation. */
  lemma ConfirmedOnlyByPass(h: Codec.Hmac, n: Node, e: Event)
    requires !n.cfg.confirmed && Step(h, n, e).cfg.confirmed
    ensures e.Confirm? && e.snapshot.keyNonce == n.cfg.keyNonce && n.cfg.enabled
  {
  }

  /** This event stores an enabled record with this nonce and mode. */
  predicate Enables(n: Node, e: Event, nonce: string, mode: string) {
    && e.Peer? && e.id in n.admitted && TokenOk(e.req, e.facts) && e.req.enable && EnableReply(e.req, e.facts).Success?
    && e.req.keyNonce == nonce && ModeName(e.req) == mode
  }

  /** Event `i` of the run enables this association and no later one ends it. */
  predicate EnabledAt(h: Codec.Hmac, n: Node, es: seq<Event>, i: nat, nonce: string, mode: string)
    requires i < |es|
  {
    Enables(Run(h, n, es[..i]), es[i], nonce, mode) && !EverLoses(h, Run(h, n, es[..i + 1]), es[i + 1..])
  }

  lemma {:induction false} EverLosesSnoc(h: Codec.Hmac, n: Node, es: seq<Event>, e: Event)
    ensures EverLoses(h, n, es + [e]) <==> EverLoses(h, n, es) || Loses(Run(h, n, es), e)
    decreases |es|
  {
    if es == [] {
      assert [] + [e] == [e] && [e][1..] == [];
    } else {
      assert (es + [e])[1..] == es[1..] + [e];
      EverLosesSnoc(h, Step(h, n, es[0]), es[1..], e);
    }
  }

  /** One event makes an association the stored one only by enabling it. */
  lemma BecomesCurrent(h: Codec.Hmac, n: Node, e: Event, nonce: string, mode: string)
    requires !Current(n, nonce, mode)
    ensures Current(Step(h, n, e), nonce, mode) <==> Enables(n, e, nonce, mode)
  {
  }

  /** Over every run, an association that was not stored at its start is stored at its end exactly if
      some event enabled it and no later one ended it. */
  lemma {:induction false} StoredExactly(h: Codec.Hmac, n: Node, es: seq<Event>, nonce: string, mode: string)
    requires !Current(n, nonce, mode)
    ensures Current(Run(h, n, es), nonce, mode) <==> exists i :: 0 <= i < |es| && EnabledAt(h, n, es, i, nonce, mode)
    decreases |es|
  {
    if i :| 0 <= i < |es| && EnabledAt(h, n, es, i, nonce, mode) {
      var m := Run(h, n, es[..i]);
      assert es[..i + 1] == es[..i] + [es[i]] && es == es[..i + 1] + es[i + 1..];
      RunSnoc(h, n, es[..i], es[i]);
      RunAppend(h, n, es[..i + 1], es[i + 1..]);
      assert Current(Step(h, m, es[i]), nonce, mode);
      DeadlineFixed(h, Step(h, m, es[i]), es[i + 1..]);
    }
    if Current(Run(h, n, es), nonce, mode) {
      var last := |es| - 1;
      var m := Run(h, n, es[..last]);
      assert es == es[..last] + [es[last]] && es[..last + 1] == es && es[last + 1..] == [];
      RunSnoc(h, n, es[..last], es[last]);
      if Current(m, nonce, mode) {
        StoredExactly(h, n, es[..last], nonce, mode);
        var i :| 0 <= i < last && EnabledAt(h, n, es[..last], i, nonce, mode);
        EnabledLonger(h, n, es[..last], es[last], i, nonce, mode);
      } else {
        BecomesCurrent(h, m, es[last], nonce, mode);
        assert EnabledAt(h, n, es, last, nonce, mode);
      }
    }
  }

  lemma EnabledLonger(h: Codec.Hmac, n: Node, es: seq<Event>, e: Event, i: nat, nonce: string, mode: string)
    requires i < |es| && EnabledAt(h, n, es, i, nonce, mode)
    requires Current(Run(h, n, es), nonce, mode) && Current(Run(h, n, es + [e]), nonce, mode)
    ensures EnabledAt(h, n, es + [e], i, nonce, mode)
  {
    var m := Run(h, n, es[..i + 1]);
    assert (es + [e])[..i] == es[..i] && (es + [e])[..i + 1] == es[..i + 1] && (es + [e])[i + 1..] == es[i + 1..] + [e];
    assert es == es[..i + 1] + es[i + 1..];
    RunAppend(h, n, es[..i + 1], es[i + 1..]);
    RunSnoc(h, n, es, e);
    EverLosesSnoc(h, m, es[i + 1..], e);
    AssociationStep(h, Run(h, n, es), e);
  }

  /** A confirmation looks at the nonce alone. A pass that read an association in `n` and commits after
      any events `es` confirms one of the other mode, whose link it never secured, exactly if in between
      the same nonce was enabled in that mode, and no event ended or confirmed that since. */
  lemma ConfirmCrossesModes(h: Codec.Hmac, n: Node, es: seq<Event>, mode: string)
    requires n.cfg.enabled && n.cfg.mode != mode
    ensures var before := Run(h, n, es);
            var after := Step(h, before, Confirm(n.cfg));
            (Current(after, n.cfg.keyNonce, mode) && after.cfg.confirmed && !before.cfg.confirmed)
            <==> !before.cfg.confirmed && exists i :: 0 <= i < |es| && EnabledAt(h, n, es, i, n.cfg.keyNonce, mode)
  {
    StoredExactly(h, n, es, n.cfg.keyNonce, mode);
  }

  /** It happens: an enable, a pass that reads it, the same nonce enabled in the other mode, and the
      pass confirms. */
  lemma ConfirmCrossesModesExample(h: Codec.Hmac, n: Node, id: nat, req: Request, f: Facts)
    requires n.leafMode && n.cfg.enabled && !n.cfg.confirmed && n.cfg.mode == ""
    requires TokenOk(req, f) && req.enable && EnableReply(req, f).Success?
    requires req.keyNonce == n.cfg.keyNonce && req.mode == BACKHAUL_WIREGUARD
    ensures var n' := Run(h, n, [Admit(id), Peer(id, req, f), Confirm(n.cfg)]);
            n'.cfg.enabled && n'.cfg.confirmed && n'.cfg.mode == BACKHAUL_WIREGUARD
  {
    var n1 := Step(h, n, Admit(id));
    var n2 := Step(h, n1, Peer(id, req, f));
    var es := [Admit(id), Peer(id, req, f), Confirm(n.cfg)];
    assert es[1..] == [Peer(id, req, f), Confirm(n.cfg)] && es[1..][1..] == [Confirm(n.cfg)];
    assert [Confirm(n.cfg)][1..] == [];
    assert Run(h, n, es) == Run(h, n1, es[1..]) == Run(h, n2, [Confirm(n.cfg)]) == Step(h, n2, Confirm(n.cfg));
  }
}
