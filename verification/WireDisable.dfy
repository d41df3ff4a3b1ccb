/** Disabling over the wire: a challenge and its acknowledgement over a network that may lose,
    duplicate, replay, reorder and inject frames. The tag is assumed unforgeable: a frame that
    verifies under some keys carries a message that an honest end signed under them. */
module WireDisable {
  import opened Wrappers
  import opened Mesh
  import opened LeafConfig
  import opened Codec
  import LeafNode

  /** A message an honest end computed a tag for. */
  datatype Signed = Signed(key: Bytes, cmd: byte, ckn: Bytes, challenge: Bytes, total: nat)

  /** One disable attempt of the main router. */
  datatype Session = Session(keys: CtlKeys, challenge: Bytes, acked: bool)

  /** A disable the leaf accepted, with the keys it had armed. */
  datatype Accepted = Accepted(keys: CtlKeys, challenge: Bytes)

  datatype World = World(node: Node, sessions: seq<Session>, signed: set<Signed>, accepted: set<Accepted>)

  datatype Move =
    | Leaf(e: Event)
    | Start(keys: CtlKeys, challenge: Bytes)
    | Probing(keys: CtlKeys, challenge: Bytes, total: nat)
    | Reply(i: nat, frame: Bytes)

  /** Key derivation from one pairing secret maps a nonce to a key name and a key. It is library
      code; distinct nonces are assumed to give distinct keys. */
  type Kdf = string -> (Bytes, Bytes)

  ghost predicate CollisionFree(kdf: Kdf) {
    forall m, n :: kdf(m).1 == kdf(n).1 ==> m == n
  }

  predicate Derived(kdf: Kdf, keys: CtlKeys) {
    && keys.ckn == kdf(keys.nonce).0 && keys.key == kdf(keys.nonce).1
    && |keys.ckn| == CKN_LEN && |keys.key| > 0
  }

  /** Whatever verifies was signed. */
  ghost predicate Unforged(h: Hmac, frame: Bytes, keys: CtlKeys, signed: set<Signed>) {
    var r := Parse(h, frame, keys);
    r.Some? ==>
      exists s :: s in signed && s.key == keys.key
        && Message(s.cmd, s.ckn, s.challenge, s.total) == Message(r.value.cmd, keys.ckn, r.value.challenge, r.value.total)
  }

  /** Neither a session nor a signed message has used this challenge. */
  predicate Fresh(w: World, challenge: Bytes) {
    && (forall i :: 0 <= i < |w.sessions| ==> w.sessions[i].challenge != challenge)
    && forall s :: s in w.signed ==> s.challenge != challenge
  }

  ghost predicate Allowed(h: Hmac, kdf: Kdf, w: World, m: Move) {
    match m
    case Leaf(WireRecv(_, frame, now)) =>
      var keys := LiveKeys(w.node, now);
      keys.Some? ==> Unforged(h, frame, keys.value, w.signed)
    case Leaf(Arm(keys, _)) => Derived(kdf, keys)
    case Leaf(_) => true
    case Start(keys, challenge) => Derived(kdf, keys) && |challenge| == CHALLENGE_LEN && Fresh(w, challenge)
    case Probing(keys, challenge, total) =>
      Derived(kdf, keys) && |challenge| == CHALLENGE_LEN && Fresh(w, challenge) && total <= MAX_TOTAL
    case Reply(i, frame) => i < |w.sessions| && Unforged(h, frame, w.sessions[i].keys, w.signed)
  }

  /** The message of a frame the leaf accepts at time `now`. */
  function LeafHears(h: Hmac, n: Node, frame: Bytes, now: int): Option<Parsed> {
    var keys := LiveKeys(n, now);
    if keys.None? then None else Parse(h, frame, keys.value)
  }

  function Next(h: Hmac, w: World, m: Move): World {
    match m
    case Leaf(e) =>
      var w1 := w.(node := Step(h, w.node, e));
      if !e.WireRecv? then w1
      else (match LeafHears(h, w.node, e.frame, e.now)
            case None => w1
            case Some(p) =>
              var keys := LiveKeys(w.node, e.now).value;
              if p.cmd == DISABLE then
                w1.(accepted := w.accepted + {Accepted(keys, p.challenge)},
                    signed := w.signed + {Signed(keys.key, ACK, keys.ckn, p.challenge, FRAME_LEN)})
              else if p.cmd == PROBE then
                w1.(signed := w.signed + {Signed(keys.key, PROBE_REPLY, keys.ckn, p.challenge, p.total)})
              else w1)
    case Start(keys, challenge) =>
      w.(sessions := w.sessions + [Session(keys, challenge, false)],
         signed := w.signed + {Signed(keys.key, DISABLE, keys.ckn, challenge, FRAME_LEN)})
    case Probing(keys, challenge, total) =>
      w.(signed := w.signed + {Signed(keys.key, PROBE, keys.ckn, challenge, total)})
    case Reply(i, frame) =>
      if i < |w.sessions| && IsAck(h, w.sessions[i].keys, w.sessions[i].challenge, frame)
      then w.(sessions := w.sessions[i := w.sessions[i].(acked := true)])
      else w
  }

  /** The test the main router applies to every frame while it waits. */
  predicate IsAck(h: Hmac, keys: CtlKeys, challenge: Bytes, frame: Bytes) {
    var r := Parse(h, frame, keys);
    r.Some? && r.value.cmd == ACK && r.value.challenge == challenge
  }

  /** Waits for an acknowledgement among the frames that arrive, in order. */
  method AwaitAck(h: Hmac, keys: CtlKeys, challenge: Bytes, inbox: seq<Bytes>) returns (acked: bool, read: nat)
    ensures acked <==> exists i :: 0 <= i < |inbox| && IsAck(h, keys, challenge, inbox[i])
    ensures read <= |inbox|
    ensures acked ==> 0 < read && IsAck(h, keys, challenge, inbox[read - 1])
                      && forall i :: 0 <= i < read - 1 ==> !IsAck(h, keys, challenge, inbox[i])
  {
    read, acked := 0, false;
    while read < |inbox|
      invariant read <= |inbox|
      invariant forall i :: 0 <= i < read ==> !IsAck(h, keys, challenge, inbox[i])
    {
      read := read + 1;
      if IsAck(h, keys, challenge, inbox[read - 1]) {
        return true, read;
      }
    }
  }

  ghost predicate AllAllowed(h: Hmac, kdf: Kdf, w: World, ms: seq<Move>)
    decreases |ms|
  {
    ms == [] || (Allowed(h, kdf, w, ms[0]) && AllAllowed(h, kdf, Next(h, w, ms[0]), ms[1..]))
  }

  function Exec(h: Hmac, w: World, ms: seq<Move>): World
    decreases |ms|
  {
    if ms == [] then w else Exec(h, Next(h, w, ms[0]), ms[1..])
  }

  ghost predicate HasSession(w: World, key: Bytes, challenge: Bytes) {
    exists i :: 0 <= i < |w.sessions| && w.sessions[i].keys.key == key && w.sessions[i].challenge == challenge
  }

  ghost predicate SignedOk(w: World, s: Signed) {
    && |s.ckn| == CKN_LEN && |s.challenge| == CHALLENGE_LEN && s.total <= MAX_TOTAL
    && (s.cmd == ACK ==> exists k :: Accepted(k, s.challenge) in w.accepted && k.key == s.key)
    && (s.cmd == DISABLE ==> HasSession(w, s.key, s.challenge))
  }

  ghost predicate Inv(kdf: Kdf, w: World) {
    && (forall s :: s in w.signed ==> SignedOk(w, s))
    && (w.node.ctl.Some? ==> Derived(kdf, w.node.ctl.value))
    && (forall a :: a in w.accepted ==> Derived(kdf, a.keys) && HasSession(w, a.keys.key, a.challenge))
    && (forall i :: 0 <= i < |w.sessions| ==> Derived(kdf, w.sessions[i].keys))
    && (forall i :: 0 <= i < |w.sessions| && w.sessions[i].acked ==>
          Accepted(w.sessions[i].keys, w.sessions[i].challenge) in w.accepted)
  }

  /** The fields of an accepted frame are those of one signed message under the same key. */
  lemma SignedFields(h: Hmac, frame: Bytes, keys: CtlKeys, w: World, kdf: Kdf) returns (s: Signed)
    requires Inv(kdf, w) && Unforged(h, frame, keys, w.signed) && Parse(h, frame, keys).Some?
    ensures var p := Parse(h, frame, keys).value;
            && s in w.signed && s.key == keys.key && s.ckn == keys.ckn
            && s.cmd == p.cmd && s.challenge == p.challenge && s.total == p.total
  {
    var p := Parse(h, frame, keys).value;
    s :| s in w.signed && s.key == keys.key
         && Message(s.cmd, s.ckn, s.challenge, s.total) == Message(p.cmd, keys.ckn, p.challenge, p.total);
    assert SignedOk(w, s);
    MessageInjective(s.cmd, s.ckn, s.challenge, s.total, p.cmd, keys.ckn, p.challenge, p.total);
  }

  /** Derived keys with the same key bytes are the same keys. */
  lemma SameKeys(kdf: Kdf, a: CtlKeys, b: CtlKeys)
    requires CollisionFree(kdf) && Derived(kdf, a) && Derived(kdf, b) && a.key == b.key
    ensures a == b
  {
  }

  /** More sessions, signatures and acceptances keep what is known about a signature. */
  lemma SignedOkGrows(w: World, w': World, s: Signed)
    requires SignedOk(w, s) && w.accepted <= w'.accepted
    requires |w.sessions| <= |w'.sessions|
    requires forall i :: 0 <= i < |w.sessions| ==>
               w'.sessions[i].keys == w.sessions[i].keys && w'.sessions[i].challenge == w.sessions[i].challenge
    ensures SignedOk(w', s)
  {
    if s.cmd == DISABLE {
      HasSessionGrows(w, w', s.key, s.challenge);
    }
  }

  lemma HasSessionGrows(w: World, w': World, key: Bytes, challenge: Bytes)
    requires HasSession(w, key, challenge) && |w.sessions| <= |w'.sessions|
    requires forall i :: 0 <= i < |w.sessions| ==>
               w'.sessions[i].keys == w.sessions[i].keys && w'.sessions[i].challenge == w.sessions[i].challenge
    ensures HasSession(w', key, challenge)
  {
    var i :| 0 <= i < |w.sessions| && w.sessions[i].keys.key == key && w.sessions[i].challenge == challenge;
    assert w'.sessions[i].keys.key == key;
  }

  lemma SignedAllGrow(w: World, w': World, kdf: Kdf)
    requires Inv(kdf, w) && w.accepted <= w'.accepted && |w.sessions| <= |w'.sessions|
    requires forall i :: 0 <= i < |w.sessions| ==>
               w'.sessions[i].keys == w.sessions[i].keys && w'.sessions[i].challenge == w.sessions[i].challenge
    ensures forall s :: s in w.signed ==> SignedOk(w', s)
    ensures forall a :: a in w.accepted ==> HasSession(w', a.keys.key, a.challenge)
  {
    forall s | s in w.signed ensures SignedOk(w', s) {
      SignedOkGrows(w, w', s);
    }
    forall a | a in w.accepted ensures HasSession(w', a.keys.key, a.challenge) {
      HasSessionGrows(w, w', a.keys.key, a.challenge);
    }
  }

  /** What a leaf event does to the armed keys. */
  lemma CtlStep(h: Hmac, n: Node, e: Event)
    ensures var c := Step(h, n, e).ctl; c == n.ctl || c.None? || (e.Arm? && c == Some(e.keys))
  {
  }

  lemma InvLeaf(h: Hmac, kdf: Kdf, w: World, e: Event)
    requires Inv(kdf, w) && Allowed(h, kdf, w, Leaf(e))
    ensures Inv(kdf, Next(h, w, Leaf(e)))
  {
    var w' := Next(h, w, Leaf(e));
    CtlStep(h, w.node, e);
    SignedAllGrow(w, w', kdf);
    if e.WireRecv? && LeafHears(h, w.node, e.frame, e.now).Some? {
      var keys := LiveKeys(w.node, e.now).value;
      var p := LeafHears(h, w.node, e.frame, e.now).value;
      var s := SignedFields(h, e.frame, keys, w, kdf);
      assert SignedOk(w, s);
      if p.cmd == DISABLE {
        HasSessionGrows(w, w', keys.key, p.challenge);
        var ack := Signed(keys.key, ACK, keys.ckn, p.challenge, FRAME_LEN);
        assert Accepted(keys, ack.challenge) in w'.accepted;
        assert SignedOk(w', ack);
      } else if p.cmd == PROBE {
        assert SignedOk(w', Signed(keys.key, PROBE_REPLY, keys.ckn, p.challenge, p.total));
      }
    }
  }

  lemma InvMain(h: Hmac, kdf: Kdf, w: World, m: Move)
    requires CollisionFree(kdf) && Inv(kdf, w) && Allowed(h, kdf, w, m) && !m.Leaf?
    ensures Inv(kdf, Next(h, w, m))
  {
    var w' := Next(h, w, m);
    SignedAllGrow(w, w', kdf);
    match m
    case Start(keys, challenge) =>
      assert w'.sessions[|w.sessions|].keys == keys;
      assert HasSession(w', keys.key, challenge);
    case Probing(keys, challenge, total) =>
    case Reply(i, frame) =>
      var session := w.sessions[i];
      if IsAck(h, session.keys, session.challenge, frame) {
        var s := SignedFields(h, frame, session.keys, w, kdf);
        assert SignedOk(w, s);
        var k :| Accepted(k, s.challenge) in w.accepted && k.key == s.key;
        SameKeys(kdf, k, session.keys);
      }
  }

  lemma {:induction false} InvExec(h: Hmac, kdf: Kdf, w: World, ms: seq<Move>)
    requires CollisionFree(kdf) && Inv(kdf, w) && AllAllowed(h, kdf, w, ms)
    ensures Inv(kdf, Exec(h, w, ms))
    decreases |ms|
  {
    if ms != [] {
      if ms[0].Leaf? {
        InvLeaf(h, kdf, w, ms[0].e);
      } else {
        InvMain(h, kdf, w, ms[0]);
      }
      InvExec(h, kdf, Next(h, w, ms[0]), ms[1..]);
    }
  }

  /** The keys and challenges of sessions never change. */
  lemma {:induction false} SessionsStay(h: Hmac, w: World, ms: seq<Move>, i: nat)
    requires i < |w.sessions|
    ensures var w' := Exec(h, w, ms);
            && i < |w'.sessions|
            && w'.sessions[i].keys == w.sessions[i].keys && w'.sessions[i].challenge == w.sessions[i].challenge
    decreases |ms|
  {
    if ms != [] {
      SessionsStay(h, Next(h, w, ms[0]), ms[1..], i);
    }
  }

  /** The main result: whatever the network does, when an attempt that began in `w` with a fresh
      challenge is acknowledged, the leaf accepted a disable with exactly that challenge under
      exactly those keys, and it did so after the attempt began. */
  lemma AckMeansAccepted(h: Hmac, kdf: Kdf, w: World, keys: CtlKeys, challenge: Bytes, ms: seq<Move>)
    requires CollisionFree(kdf) && Inv(kdf, w)
    requires AllAllowed(h, kdf, w, [Start(keys, challenge)] + ms)
    ensures var w' := Exec(h, w, [Start(keys, challenge)] + ms);
            && |w.sessions| < |w'.sessions|
            && (w'.sessions[|w.sessions|].acked ==>
                  Accepted(keys, challenge) in w'.accepted && Accepted(keys, challenge) !in w.accepted)
  {
    var all := [Start(keys, challenge)] + ms;
    assert all[0] == Start(keys, challenge) && all[1..] == ms;
    InvExec(h, kdf, w, all);
    var w1 := Next(h, w, all[0]);
    SessionsStay(h, w1, ms, |w.sessions|);
    forall a | a in w.accepted ensures a.challenge != challenge {
      assert HasSession(w, a.keys.key, a.challenge);
    }
  }

  /** Nothing is signed or accepted at the start, so the invariant covers every run. */
  lemma InvInit(kdf: Kdf, n: Node)
    requires n.ctl.None?
    ensures Inv(kdf, World(n, [], {}, {}))
  {
  }

  // ---- The leaf's side ----

  /** The record is cleared over the wire only when it has the nonce of the keys that verified the
      frame; afterwards, if the record could be read, it does not have that nonce any more. */
  lemma ClearOnlyOwnNonce(h: Hmac, n: Node, e: Event)
    requires (e.WireRecv? || e.WireMark? || e.WireClear?) && n.cfg.enabled
    ensures var n' := Step(h, n, e);
            && (n'.cfg != n.cfg <==> e == WireClear(e.g, true) && ListenerOf(n, e.g).Clearing?
                                     && ListenerOf(n, e.g).keys.nonce == n.cfg.keyNonce)
            && (n'.cfg != n.cfg ==> n'.cfg == OFF)
            && (e == WireClear(e.g, true) && ListenerOf(n, e.g).Clearing? ==>
                  !(n'.cfg.enabled && n'.cfg.keyNonce == ListenerOf(n, e.g).keys.nonce))
  {
  }

  predicate IsWire(e: Event) { e.WireRecv? || e.WireMark? || e.WireClear? }

  /** Once a disable has been marked and cleared, further frames of any kind, heard by any listener,
      leave record and mark alone. */
  lemma {:induction false} RepeatsHarmless(h: Hmac, n: Node, es: seq<Event>)
    requires n.offAt.Some? && forall g :: !ListenerOf(n, g).Clearing?
    requires forall i :: 0 <= i < |es| ==> IsWire(es[i])
    ensures var n' := Run(h, n, es); n'.cfg == n.cfg && n'.offAt == n.offAt
    decreases |es|
  {
    if es != [] {
      assert IsWire(es[0]);
      var n1 := Step(h, n, es[0]);
      forall g ensures !ListenerOf(n1, g).Clearing? {
        assert !ListenerOf(n, g).Clearing?;
      }
      RepeatsHarmless(h, n1, es[1..]);
    }
  }

  /** Every frame of the run is received after the window, and no keys are armed in it. */
  predicate After(ms: seq<Move>, t: int) {
    forall i :: 0 <= i < |ms| && ms[i].Leaf? ==>
      !ms[i].e.Arm? && (ms[i].e.WireRecv? ==> ms[i].e.now > t)
  }

  /** Unless it is armed again, a leaf accepts nothing - and so signs no acknowledgement and no
      probe reply - once 30 seconds have passed since the first accepted disable. */
  lemma {:induction false} AcksStop(h: Hmac, w: World, ms: seq<Move>)
    requires w.node.offAt.Some? && After(ms, w.node.offAt.value + ACK_WINDOW)
    ensures var w' := Exec(h, w, ms);
            && w'.accepted == w.accepted
            && (forall s :: s in w'.signed && s !in w.signed ==> s.cmd == DISABLE || s.cmd == PROBE)
    decreases |ms|
  {
    if ms != [] {
      assert After(ms[1..], w.node.offAt.value + ACK_WINDOW);
      var w1 := Next(h, w, ms[0]);
      assert w1.node.offAt == w.node.offAt;
      AcksStop(h, w1, ms[1..]);
    }
  }

  /** Within the window everything is answered, and nothing but arming other keys changes that: not
      even a pass that reads the cleared record and means to drop the keys. */
  lemma {:induction false} AcksLast(h: Hmac, n: Node, es: seq<Event>, now: int)
    requires n.ctl.Some? && n.offAt.Some? && now <= n.offAt.value + 30_000
    requires forall i :: 0 <= i < |es| ==> !es[i].Arm? && (es[i].WireRecv? ==> es[i].now <= n.offAt.value + 30_000)
    ensures LiveKeys(Run(h, n, es), now) == n.ctl
    decreases |es|
  {
    if es != [] {
      AcksLast(h, Step(h, n, es[0]), es[1..], now);
    }
  }

  /** Without a mark such a pass drops them, and until it arms keys again the leaf is deaf. */
  lemma {:induction false} DisarmedDeaf(h: Hmac, n: Node, es: seq<Event>, now: int)
    requires n.ctl.None? || (es != [] && es[0].Disarm? && n.offAt.None?)
    requires forall i :: 0 <= i < |es| ==> !es[i].Arm?
    ensures LiveKeys(Run(h, n, es), now).None?
    decreases |es|
  {
    if es != [] {
      DisarmedDeaf(h, Step(h, n, es[0]), es[1..], now);
    }
  }

  /** What is signed when the leaf hears a frame is the message of the frame that it sends in answer, and
      there is none exactly if it sends none. */
  lemma SignedIsSent(h: Hmac, w: World, g: nat, frame: Bytes, now: int, mac: Bytes)
    requires |mac| == 6
    ensures var keys, w' := LiveKeys(w.node, now), Next(h, w, Leaf(WireRecv(g, frame, now)));
            if keys.Some? && Answer(h, keys.value, mac, frame).Some? then
              var r := Parse(h, Answer(h, keys.value, mac, frame).value, keys.value);
              && r.Some? && r.value.src == mac
              && w'.signed == w.signed + {Signed(keys.value.key, r.value.cmd, keys.value.ckn, r.value.challenge, r.value.total)}
            else w'.signed == w.signed
  {
    var keys := LiveKeys(w.node, now);
    if keys.Some? {
      AnswerMeets(h, keys.value, mac, frame);
    }
  }

  /** The leaf's answer to a session's disable is the acknowledgement that the session waits for. */
  lemma AnswerIsAck(h: Hmac, keys: CtlKeys, mac: Bytes, frame: Bytes, challenge: Bytes)
    requires |mac| == 6 && Parse(h, frame, keys).Some?
    requires Parse(h, frame, keys).value.cmd == DISABLE && Parse(h, frame, keys).value.challenge == challenge
    ensures var sent := Answer(h, keys, mac, frame); sent.Some? && IsAck(h, keys, challenge, sent.value)
  {
    AnswerMeets(h, keys, mac, frame);
  }

  /** An attempt whose frame and answer get through succeeds: against a leaf that has its keys armed, from
      the frame that is sent to the record, which is cleared if it has the nonce of the keys. All of it is
      allowed of the ends and the network. */
  lemma Undisturbed(h: Hmac, kdf: Kdf, w: World, keys: CtlKeys, challenge: Bytes, dst: Bytes, src: Bytes, g: nat, t: int, t': int)
    requires Derived(kdf, keys) && |challenge| == CHALLENGE_LEN && Fresh(w, challenge) && |dst| == |src| == 6
    requires w.node.ctl == Some(keys) && w.node.offAt.None? && |w.node.mac| == 6
    ensures var frame := Frame(h, dst, src, DISABLE, keys, challenge, FRAME_LEN);
            var answer := Answer(h, keys, w.node.mac, frame);
            && answer.Some? && |answer.value| >= FRAME_LEN && answer.value[..6] == src
            && var ms := [Start(keys, challenge), Leaf(WireRecv(g, frame, t)), Move.Reply(|w.sessions|, answer.value),
                          Leaf(WireMark(g, t')), Leaf(WireClear(g, true))];
               var w' := Exec(h, w, ms);
               && AllAllowed(h, kdf, w, ms) && |w'.sessions| == |w.sessions| + 1
               && w'.sessions[|w.sessions|].acked && !Holds(w'.node, keys.nonce)
               && (!Holds(w.node, keys.nonce) ==> w'.node.cfg == w.node.cfg)
  {
    var frame := Frame(h, dst, src, DISABLE, keys, challenge, FRAME_LEN);
    ParseOfFrame(h, dst, src, DISABLE, keys, challenge, FRAME_LEN);
    AnswerMeets(h, keys, w.node.mac, frame);
    AttemptSucceeds(h, kdf, w, keys, challenge, frame, Answer(h, keys, w.node.mac, frame).value, g, t, t');
  }

  /** The same for whatever frames are read as the disable and its acknowledgement. */
  lemma AttemptSucceeds(h: Hmac, kdf: Kdf, w: World, keys: CtlKeys, challenge: Bytes, frame: Bytes, answer: Bytes, g: nat, t: int, t': int)
    requires Derived(kdf, keys) && |challenge| == CHALLENGE_LEN && Fresh(w, challenge)
    requires w.node.ctl == Some(keys) && w.node.offAt.None?
    requires Reads(h, keys, frame, DISABLE, challenge) && Reads(h, keys, answer, ACK, challenge)
    ensures var ms := [Start(keys, challenge), Leaf(WireRecv(g, frame, t)), Move.Reply(|w.sessions|, answer),
                       Leaf(WireMark(g, t')), Leaf(WireClear(g, true))];
            var w' := Exec(h, w, ms);
            && AllAllowed(h, kdf, w, ms) && |w'.sessions| == |w.sessions| + 1
            && w'.sessions[|w.sessions|].acked && !Holds(w'.node, keys.nonce)
            && (!Holds(w.node, keys.nonce) ==> w'.node.cfg == w.node.cfg)
  {
    var w1 := Next(h, w, Start(keys, challenge));
    assert Signed(keys.key, DISABLE, keys.ckn, challenge, FRAME_LEN) in w1.signed;
    HearsAndAcks(h, kdf, w1, keys, challenge, frame, answer, g, t, |w.sessions|);
    var w3 := Next(h, Next(h, w1, Leaf(WireRecv(g, frame, t))), Move.Reply(|w.sessions|, answer));
    TwoSections(h, w3.node, g, t', keys, challenge);
    FiveMoves(h, kdf, w, Start(keys, challenge), Leaf(WireRecv(g, frame, t)), Move.Reply(|w.sessions|, answer),
              Leaf(WireMark(g, t')), Leaf(WireClear(g, true)));
  }

  /** The frame of a session arrives, and its answer gets back. */
  lemma HearsAndAcks(h: Hmac, kdf: Kdf, w: World, keys: CtlKeys, challenge: Bytes, frame: Bytes, answer: Bytes, g: nat, t: int, i: nat)
    requires Signed(keys.key, DISABLE, keys.ckn, challenge, FRAME_LEN) in w.signed
    requires i < |w.sessions| && w.sessions[i] == Session(keys, challenge, false)
    requires w.node.ctl == Some(keys) && w.node.offAt.None?
    requires Reads(h, keys, frame, DISABLE, challenge) && Reads(h, keys, answer, ACK, challenge)
    ensures var m, m' := Leaf(WireRecv(g, frame, t)), Move.Reply(i, answer);
            var w1 := Next(h, w, m);
            var w2 := Next(h, w1, m');
            && Allowed(h, kdf, w, m) && Allowed(h, kdf, w1, m') && |w2.sessions| == |w.sessions| && w2.sessions[i].acked
            && w2.node.cfg == w.node.cfg && w2.node.offAt.None? && ListenerOf(w2.node, g) == Heard(keys, challenge)
  {
    var w1 := Next(h, w, Leaf(WireRecv(g, frame, t)));
    assert Signed(keys.key, ACK, keys.ckn, challenge, FRAME_LEN) in w1.signed;
  }

  lemma FiveMoves(h: Hmac, kdf: Kdf, w: World, a: Move, b: Move, c: Move, d: Move, e: Move)
    ensures var w1 := Next(h, w, a); var w2 := Next(h, w1, b); var w3 := Next(h, w2, c); var w4 := Next(h, w3, d);
            && Exec(h, w, [a, b, c, d, e]) == Next(h, w4, e)
            && (AllAllowed(h, kdf, w, [a, b, c, d, e])
                <==> Allowed(h, kdf, w, a) && Allowed(h, kdf, w1, b) && Allowed(h, kdf, w2, c) && Allowed(h, kdf, w3, d)
                     && Allowed(h, kdf, w4, e))
  {
    var w1 := Next(h, w, a);
    var w2 := Next(h, w1, b);
    var w3 := Next(h, w2, c);
    OneMove(h, kdf, Next(h, w3, d), e, []);
    OneMove(h, kdf, w3, d, [e]);
    OneMove(h, kdf, w2, c, [d, e]);
    OneMove(h, kdf, w1, b, [c, d, e]);
    OneMove(h, kdf, w, a, [b, c, d, e]);
    assert [d] + [e] == [d, e] && [c] + [d, e] == [c, d, e] && [b] + [c, d, e] == [b, c, d, e];
    assert [a] + [b, c, d, e] == [a, b, c, d, e] && [e] + [] == [e];
  }

  /** This frame is read as this command with this challenge. */
  predicate Reads(h: Hmac, keys: CtlKeys, frame: Bytes, cmd: byte, challenge: Bytes) {
    var p := Parse(h, frame, keys);
    p.Some? && p.value.cmd == cmd && p.value.challenge == challenge && p.value.total == FRAME_LEN
  }

  lemma OneMove(h: Hmac, kdf: Kdf, w: World, m: Move, ms: seq<Move>)
    ensures Exec(h, w, [m] + ms) == Exec(h, Next(h, w, m), ms)
    ensures AllAllowed(h, kdf, w, [m] + ms) <==> Allowed(h, kdf, w, m) && AllAllowed(h, kdf, Next(h, w, m), ms)
  {
    assert ([m] + ms)[1..] == ms;
  }

  // ---- From the acknowledgement to the cleared record ----

  /** A disable newly accepted in a run left its keys with a listener at some point of it. */
  lemma {:induction false} AcceptedIsHeard(h: Hmac, w: World, ms: seq<Move>, a: Accepted) returns (i: nat, g: nat)
    requires a !in w.accepted && a in Exec(h, w, ms).accepted
    ensures i < |ms| && ListenerOf(Exec(h, w, ms[..i + 1]).node, g) == Heard(a.keys, a.challenge)
    decreases |ms|
  {
    var w1 := Next(h, w, ms[0]);
    if a in w1.accepted {
      i, g := 0, ms[0].e.g;
      assert ms[..1][0] == ms[0] && ms[..1][1..] == [];
    } else {
      var j;
      j, g := AcceptedIsHeard(h, w1, ms[1..], a);
      i := j + 1;
      assert ms[..i + 1][0] == ms[0] && ms[..i + 1][1..] == ms[1..][..j + 1];
    }
  }

  /** An acknowledged attempt was, at some point of the run, in the hands of a listener of the leaf. */
  lemma AckMeansHeard(h: Hmac, kdf: Kdf, w: World, keys: CtlKeys, challenge: Bytes, ms: seq<Move>) returns (i: nat, g: nat)
    requires CollisionFree(kdf) && Inv(kdf, w)
    requires AllAllowed(h, kdf, w, [Start(keys, challenge)] + ms)
    requires |w.sessions| < |Exec(h, w, [Start(keys, challenge)] + ms).sessions|
    requires Exec(h, w, [Start(keys, challenge)] + ms).sessions[|w.sessions|].acked
    ensures i <= |ms| && ListenerOf(Exec(h, w, ([Start(keys, challenge)] + ms)[..i + 1]).node, g) == Heard(keys, challenge)
  {
    AckMeansAccepted(h, kdf, w, keys, challenge, ms);
    i, g := AcceptedIsHeard(h, w, [Start(keys, challenge)] + ms, Accepted(keys, challenge));
  }

  predicate Holds(n: Node, nonce: string) {
    n.cfg.enabled && n.cfg.keyNonce == nonce
  }

  /** The remaining sections of a disable that listener `g` heard, with anything of other goroutines,
      other listeners included, between them and a readable configuration: the record with that nonce
      survives exactly when another disable had already been marked since the keys were armed, and the
      record was still there. */
  lemma DisableCompletes(h: Hmac, n: Node, g: nat, a: seq<Event>, t: int, b: seq<Event>)
    requires ListenerOf(n, g).Heard?
    requires forall e :: e in a || e in b ==> LeafNode.Foreign(LeafNode.Listening(g), e)
    ensures var nonce := ListenerOf(n, g).keys.nonce;
            var marked := Run(h, n, a);
            var clearing := Run(h, Step(h, marked, WireMark(g, t)), b);
            var done := Step(h, clearing, WireClear(g, true));
            && (Holds(done, nonce) <==> marked.offAt.Some? && Holds(clearing, nonce))
            && (!Holds(clearing, nonce) ==> done.cfg == clearing.cfg)
  {
    LeafNode.ListenerUntouched(h, n, a, g);
    LeafNode.ListenerUntouched(h, Step(h, Run(h, n, a), WireMark(g, t)), b, g);
  }

  /** No event stores an enabled record with this nonce. */
  predicate NoEnable(es: seq<Event>, nonce: string) {
    forall i :: 0 <= i < |es| && es[i].Peer? ==> !es[i].req.enable || es[i].req.keyNonce != nonce
  }

  /** Without a later enable for its nonce, a record that is gone stays gone. */
  lemma {:induction false} GoneStays(h: Hmac, n: Node, es: seq<Event>, nonce: string)
    requires !Holds(n, nonce) && NoEnable(es, nonce)
    ensures !Holds(Run(h, n, es), nonce)
    decreases |es|
  {
    if es != [] {
      assert es[0].Peer? ==> !es[0].req.enable || es[0].req.keyNonce != nonce;
      GoneStays(h, Step(h, n, es[0]), es[1..], nonce);
    }
  }

  /** The events of listener `g` finishing what it heard, with those of others around them. */
  function Handled(g: nat, a: seq<Event>, t: int, b: seq<Event>, c: seq<Event>): seq<Event> {
    a + ([WireMark(g, t)] + (b + ([WireClear(g, true)] + c)))
  }

  ghost predicate OfOthers(g: nat, es: seq<Event>) {
    forall e :: e in es ==> LeafNode.Foreign(LeafNode.Listening(g), e)
  }

  /** The leaf's events in a run of both ends. */
  function LeafEvents(ms: seq<Move>): seq<Event>
    decreases |ms|
  {
    if ms == [] then [] else (if ms[0].Leaf? then [ms[0].e] else []) + LeafEvents(ms[1..])
  }

  lemma {:induction false} ExecIsRun(h: Hmac, w: World, ms: seq<Move>)
    ensures Exec(h, w, ms).node == Run(h, w.node, LeafEvents(ms))
    decreases |ms|
  {
    if ms != [] {
      ExecIsRun(h, Next(h, w, ms[0]), ms[1..]);
      if ms[0].Leaf? {
        assert LeafEvents(ms)[1..] == LeafEvents(ms[1..]);
      } else {
        assert LeafEvents(ms) == LeafEvents(ms[1..]);
      }
    }
  }

  lemma {:induction false} ExecAppend(h: Hmac, w: World, ms: seq<Move>, more: seq<Move>)
    ensures Exec(h, w, ms + more) == Exec(h, Exec(h, w, ms), more)
    decreases |ms|
  {
    if ms == [] {
      assert ms + more == more;
    } else {
      assert (ms + more)[1..] == ms[1..] + more;
      ExecAppend(h, Next(h, w, ms[0]), ms[1..], more);
    }
  }

  /** Once its listener is done, a heard disable that is the first since the keys were armed has ended
      the association with its nonce, and until a later enable for it no event brings it back. */
  lemma HandledEnds(h: Hmac, n: Node, g: nat, a: seq<Event>, t: int, b: seq<Event>, c: seq<Event>)
    requires ListenerOf(n, g).Heard? && OfOthers(g, a) && OfOthers(g, b) && Run(h, n, a).offAt.None?
    requires NoEnable(c, ListenerOf(n, g).keys.nonce)
    ensures !Holds(Run(h, n, Handled(g, a, t, b, c)), ListenerOf(n, g).keys.nonce)
  {
    var marked := Run(h, n, a);
    var clearing := Run(h, Step(h, marked, WireMark(g, t)), b);
    DisableCompletes(h, n, g, a, t, b);
    RunAppend(h, n, a, [WireMark(g, t)] + (b + ([WireClear(g, true)] + c)));
    Unroll(h, marked, [WireMark(g, t)] + (b + ([WireClear(g, true)] + c)));
    RunAppend(h, Step(h, marked, WireMark(g, t)), b, [WireClear(g, true)] + c);
    Unroll(h, clearing, [WireClear(g, true)] + c);
    GoneStays(h, Step(h, clearing, WireClear(g, true)), c, ListenerOf(n, g).keys.nonce);
  }

  /** From the acknowledgement to the record, over any network: an acknowledged attempt was heard by a
      listener of the leaf; and if that listener got to the end with a readable configuration, was the
      first to mark a disable since the keys were armed, and no enable for the nonce came after it, then
      the association is gone at the end of the run. */
  lemma AckedDisableClears(h: Hmac, kdf: Kdf, w: World, keys: CtlKeys, challenge: Bytes, ms: seq<Move>) returns (i: nat, g: nat)
    requires CollisionFree(kdf) && Inv(kdf, w)
    requires AllAllowed(h, kdf, w, [Start(keys, challenge)] + ms)
    requires |w.sessions| < |Exec(h, w, [Start(keys, challenge)] + ms).sessions|
    requires Exec(h, w, [Start(keys, challenge)] + ms).sessions[|w.sessions|].acked
    ensures i <= |ms|
    ensures var all := [Start(keys, challenge)] + ms;
            var heard := Exec(h, w, all[..i + 1]).node;
            && ListenerOf(heard, g) == Heard(keys, challenge)
            && forall a, t, b, c ::
                 LeafEvents(all[i + 1..]) == Handled(g, a, t, b, c) && OfOthers(g, a) && OfOthers(g, b)
                 && Run(h, heard, a).offAt.None? && NoEnable(c, keys.nonce) ==>
                   !Holds(Exec(h, w, all).node, keys.nonce)
  {
    i, g := AckMeansHeard(h, kdf, w, keys, challenge, ms);
    var all := [Start(keys, challenge)] + ms;
    var w1 := Exec(h, w, all[..i + 1]);
    assert all == all[..i + 1] + all[i + 1..];
    ExecAppend(h, w, all[..i + 1], all[i + 1..]);
    ExecIsRun(h, w1, all[i + 1..]);
    forall a, t, b, c |
      LeafEvents(all[i + 1..]) == Handled(g, a, t, b, c) && OfOthers(g, a) && OfOthers(g, b)
      && Run(h, w1.node, a).offAt.None? && NoEnable(c, keys.nonce)
      ensures !Holds(Exec(h, w, all).node, keys.nonce)
    {
      HandledEnds(h, w1.node, g, a, t, b, c);
    }
  }

  /** Three more sections leave the record alone once a disable is marked: the frame is answered, but
      it is not the first. */
  lemma HeardAgain(h: Hmac, n: Node, keys: CtlKeys, ch: Bytes, mac: Bytes)
    requires |keys.ckn| == CKN_LEN && |keys.key| > 0 && |ch| == CHALLENGE_LEN && |mac| == 6
    requires n.ctl == Some(keys) && n.offAt == Some(1)
    ensures var f := Frame(h, mac, mac, DISABLE, keys, ch, FRAME_LEN);
            && LeafHears(h, n, f, 2) == Some(Parsed(DISABLE, mac, ch, FRAME_LEN))
            && Run(h, n, [WireRecv(0, f, 2), WireMark(0, 3), WireClear(0, true)]).cfg == n.cfg
  {
    ParseOfFrame(h, mac, mac, DISABLE, keys, ch, FRAME_LEN);
    ThreeSections(h, n, 0, Frame(h, mac, mac, DISABLE, keys, ch, FRAME_LEN), 2, 3, Parsed(DISABLE, mac, ch, FRAME_LEN));
  }

  /** What the sections of one listener do to the record when nothing comes between them. */
  lemma ThreeSections(h: Hmac, n: Node, g: nat, f: Bytes, t: int, t': int, p: Parsed)
    requires LeafHears(h, n, f, t) == Some(p) && p.cmd == DISABLE
    ensures Run(h, n, [WireRecv(g, f, t), WireMark(g, t'), WireClear(g, true)]).cfg
            == if n.offAt.None? && Holds(n, n.ctl.value.nonce) then OFF else n.cfg
  {
    RunThree(h, n, WireRecv(g, f, t), WireMark(g, t'), WireClear(g, true));
    RecvSection(h, n, g, f, t, p);
    TwoSections(h, Step(h, n, WireRecv(g, f, t)), g, t', n.ctl.value, p.challenge);
  }

  lemma RecvSection(h: Hmac, n: Node, g: nat, f: Bytes, t: int, p: Parsed)
    requires LeafHears(h, n, f, t) == Some(p) && p.cmd == DISABLE
    ensures var n' := Step(h, n, WireRecv(g, f, t));
            n.ctl.Some? && ListenerOf(n', g) == Heard(n.ctl.value, p.challenge) && n'.cfg == n.cfg && n'.offAt == n.offAt
  {
  }

  lemma TwoSections(h: Hmac, n: Node, g: nat, t: int, keys: CtlKeys, challenge: Bytes)
    requires ListenerOf(n, g) == Heard(keys, challenge)
    ensures Step(h, Step(h, n, WireMark(g, t)), WireClear(g, true)).cfg
            == if n.offAt.None? && Holds(n, keys.nonce) then OFF else n.cfg
  {
  }

  lemma RunThree(h: Hmac, n: Node, a: Event, b: Event, c: Event)
    ensures Run(h, n, [a, b, c]) == Step(h, Step(h, Step(h, n, a), b), c)
  {
    Unroll(h, n, [a, b, c]);
    assert [a, b, c][1..] == [b, c];
    Unroll(h, Step(h, n, a), [b, c]);
    assert [b, c][1..] == [c];
    Unroll(h, Step(h, Step(h, n, a), b), [c]);
  }

  /** A disable under the old keys that is marked only after the new ones were armed. */
  lemma MarkedLate(h: Hmac, n: Node, a: CtlKeys, b: CtlKeys, ch: Bytes, mac: Bytes)
    requires |a.ckn| == CKN_LEN && |a.key| > 0 && |ch| == CHALLENGE_LEN && |mac| == 6 && a.nonce != b.nonce
    requires Holds(n, b.nonce) && n.ctl == Some(a) && n.offAt.None?
    ensures var f := Frame(h, mac, mac, DISABLE, a, ch, FRAME_LEN);
            var n' := Run(h, n, [WireRecv(0, f, 0), Arm(b, mac), WireMark(0, 1), WireClear(0, true)]);
            n'.cfg == n.cfg && n'.ctl == Some(b) && n'.offAt == Some(1)
  {
    var f := Frame(h, mac, mac, DISABLE, a, ch, FRAME_LEN);
    ParseOfFrame(h, mac, mac, DISABLE, a, ch, FRAME_LEN);
    var n1 := Step(h, n, WireRecv(0, f, 0));
    var n2 := Step(h, n1, Arm(b, mac));
    assert ListenerOf(n2, 0) == Heard(a, ch);
    Unroll(h, n, [WireRecv(0, f, 0), Arm(b, mac), WireMark(0, 1), WireClear(0, true)]);
    Unroll(h, n1, [Arm(b, mac), WireMark(0, 1), WireClear(0, true)]);
    Unroll(h, n2, [WireMark(0, 1), WireClear(0, true)]);
    Unroll(h, Step(h, n2, WireMark(0, 1)), [WireClear(0, true)]);
  }

  /** The surviving case exists. A disable under the old keys is heard, a pass arms the new ones, and
      only then is the disable marked; so the disable under the new keys, though acknowledged, is not
      the first one and clears nothing. */
  lemma LateMarkExample(h: Hmac, a: CtlKeys, b: CtlKeys, ch: Bytes, ch': Bytes, n: Node, mac: Bytes)
    requires |a.ckn| == |b.ckn| == CKN_LEN && |a.key| > 0 && |b.key| > 0
    requires |ch| == |ch'| == CHALLENGE_LEN && a.nonce != b.nonce && |mac| == 6
    requires Holds(n, b.nonce) && n.ctl == Some(a) && n.offAt.None?
    ensures var f, g := Frame(h, mac, mac, DISABLE, a, ch, FRAME_LEN), Frame(h, mac, mac, DISABLE, b, ch', FRAME_LEN);
            var before := Run(h, n, [WireRecv(0, f, 0), Arm(b, mac), WireMark(0, 1), WireClear(0, true)]);
            var after := Run(h, before, [WireRecv(0, g, 2), WireMark(0, 3), WireClear(0, true)]);
            LeafHears(h, before, g, 2) == Some(Parsed(DISABLE, mac, ch', FRAME_LEN)) && Holds(after, b.nonce)
  {
    MarkedLate(h, n, a, b, ch, mac);
    var f := Frame(h, mac, mac, DISABLE, a, ch, FRAME_LEN);
    HeardAgain(h, Run(h, n, [WireRecv(0, f, 0), Arm(b, mac), WireMark(0, 1), WireClear(0, true)]), b, ch', mac);
  }

  lemma Unroll(h: Hmac, n: Node, es: seq<Event>)
    requires es != []
    ensures Run(h, n, es) == Run(h, Step(h, n, es[0]), es[1..])
  {
  }
}
