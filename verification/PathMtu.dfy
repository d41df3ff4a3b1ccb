/** The path-MTU test: probes of growing size answered by the leaf, and a binary search. */
module PathMtu {
  import opened Wrappers
  import opened Mesh
  import opened Codec

  const BROADCAST: Bytes := [0xff, 0xff, 0xff, 0xff, 0xff, 0xff]

  predicate IsTo(frame: Bytes, mac: Bytes) { |frame| >= 6 && frame[..6] == mac }

  /** `frame` is an authenticated probe reply that says, and has, the length of a probe of `size`. */
  predicate Answers(h: Hmac, keys: CtlKeys, frame: Bytes, size: int) {
    var r := Parse(h, frame, keys);
    r.Some? && r.value.cmd == PROBE_REPLY && r.value.total == 14 + size
  }

  /** The wire between this end, whose address is `mac`, and the leaf. With `limit == None` anything may be
      lost, delayed, replayed or injected; with `Some(P)` frames with up to P bytes of payload arrive where
      they are addressed to and larger ones do not, and random challenges can be had. */
  class Wire {
    const h: Hmac
    const keys: CtlKeys
    const mac: Bytes
    const nodeMAC: Bytes
    const limit: Option<int>
    ghost var heard: seq<Bytes>
    /** Sizes a probe of this end was answered for. */
    ghost var answered: set<int>
    ghost var probes: nat

    constructor (h: Hmac, keys: CtlKeys, mac: Bytes, nodeMAC: Bytes, limit: Option<int>)
      ensures this.h == h && this.keys == keys && this.mac == mac && this.nodeMAC == nodeMAC && this.limit == limit
      ensures heard == [] && probes == 0 && answered == {}
    {
      this.h, this.keys, this.mac, this.nodeMAC, this.limit := h, keys, mac, nodeMAC, limit;
      heard, probes, answered := [], 0, {};
    }

    method NewChallenge() returns (challenge: Option<Bytes>)
      ensures challenge.Some? ==> |challenge.value| == CHALLENGE_LEN
      ensures limit.Some? ==> challenge.Some?
    {
      var b: bool := *;
      if b || limit.Some? {
        var bytes: Bytes := *;
        challenge := Some(if |bytes| == CHALLENGE_LEN then bytes else Zeros(CHALLENGE_LEN));
      } else {
        challenge := None;
      }
    }

    /** What comes back over a path with a limit: the leaf's answer, if the frame gets to the leaf and the
        answer is for this end. */
    function Returned(frame: Bytes): seq<Bytes>
      requires limit.Some?
    {
      var answer := Answer(h, keys, nodeMAC, frame);
      if && |frame| <= 14 + limit.value && (IsTo(frame, nodeMAC) || IsTo(frame, BROADCAST))
         && answer.Some? && IsTo(answer.value, mac)
      then [answer.value] else []
    }

    /** Sends one frame and listens for a while. */
    method Exchange(frame: Bytes) returns (arrived: seq<Bytes>)
      modifies this`heard
      ensures heard == old(heard) + arrived
      ensures limit.Some? ==> arrived == Returned(frame)
    {
      if limit.None? {
        arrived := *;
      } else {
        arrived := Returned(frame);
      }
      heard := heard + arrived;
    }

    /** Every answered size is that of an authenticated reply that was heard. */
    ghost predicate Valid()
      reads this
    {
      forall size :: size in answered ==> Heard(heard, size)
    }

    ghost predicate Heard(frames: seq<Bytes>, size: int) {
      exists i :: 0 <= i < |frames| && Answers(h, keys, frames[i], size)
    }

    /** Looks for the reply to one probe among the frames that arrived; a frame of another size,
        for another challenge or under another key is passed over. */
    method FindReply(arrived: seq<Bytes>, challenge: Bytes, total: int) returns (from: Option<Bytes>)
      ensures from.Some? <==> Replied(arrived, challenge, total - 14)
      ensures from.Some? ==> |from.value| == 6 && Sender(arrived, from.value)
    {
      from := None;
      for i := 0 to |arrived|
        invariant forall j :: 0 <= j < i && Answers(h, keys, arrived[j], total - 14) ==>
                    Parse(h, arrived[j], keys).value.challenge != challenge
      {
        var r := Parse(h, arrived[i], keys);
        if r.Some? && r.value.cmd == PROBE_REPLY && r.value.total == total && r.value.challenge == challenge {
          return Some(r.value.src);
        }
      }
    }

    /** One of these frames came from this address. */
    ghost predicate Sender(arrived: seq<Bytes>, from: Bytes) {
      exists i :: 0 <= i < |arrived| && Parse(h, arrived[i], keys).Some? && Parse(h, arrived[i], keys).value.src == from
    }

    /** The probe and its answer pass a path with a limit. */
    predicate Reaches(frame: Bytes, challenge: Bytes, size: int)
      requires limit.Some?
    {
      var arrived := Returned(frame);
      && arrived != [] && Answers(h, keys, arrived[0], size)
      && Parse(h, arrived[0], keys).value.challenge == challenge
    }

    /** The reply to this probe is among these frames. */
    ghost predicate Replied(arrived: seq<Bytes>, challenge: Bytes, size: int) {
      exists i :: 0 <= i < |arrived| && Answers(h, keys, arrived[i], size)
                  && Parse(h, arrived[i], keys).value.challenge == challenge
    }

    /** On a path with a limit the reply arrives exactly if the probe reaches, and it is the leaf's. */
    lemma RepliedExactly(frame: Bytes, challenge: Bytes, size: int)
      requires limit.Some?
      ensures Replied(Returned(frame), challenge, size) <==> Reaches(frame, challenge, size)
      ensures forall from :: Sender(Returned(frame), from) ==> from == nodeMAC
    {
      AnswerMeets(h, keys, nodeMAC, frame);
      if Reaches(frame, challenge, size) {
        assert Answers(h, keys, Returned(frame)[0], size);
      }
    }

    lemma HeardMore(before: seq<Bytes>, arrived: seq<Bytes>, sizes: set<int>, challenge: Bytes, size: int)
      requires forall n :: n in sizes ==> Heard(before, n)
      ensures forall n :: n in sizes ==> Heard(before + arrived, n)
      ensures Replied(arrived, challenge, size) ==> Heard(before + arrived, size)
    {
      forall n | n in sizes ensures Heard(before + arrived, n) {
        var i :| 0 <= i < |before| && Answers(h, keys, before[i], n);
        assert (before + arrived)[i] == before[i];
      }
      if Replied(arrived, challenge, size) {
        var i :| 0 <= i < |arrived| && Answers(h, keys, arrived[i], size)
                 && Parse(h, arrived[i], keys).value.challenge == challenge;
        assert (before + arrived)[|before| + i] == arrived[i];
      }
    }

    /** One attempt: send the probe, listen, look for its reply. */
    method Attempt(frame: Bytes, challenge: Bytes, size: int) returns (from: Option<Bytes>)
      requires Valid()
      modifies this`heard, this`answered
      ensures Valid() && old(heard) <= heard
      ensures answered == old(answered) + (if from.Some? then {size} else {})
      ensures from.Some? ==> |from.value| == 6 && (limit.Some? ==> from.value == nodeMAC)
      ensures limit.Some? ==> (from.Some? <==> Reaches(frame, challenge, size))
    {
      ghost var before := heard;
      var arrived := Exchange(frame);
      from := FindReply(arrived, challenge, 14 + size);
      if limit.Some? {
        RepliedExactly(frame, challenge, size);
      }
      HeardMore(before, arrived, answered, challenge, size);
      if from.Some? {
        answered := answered + {size};
      }
    }

    /** Up to two attempts with one frame. */
    method Attempts(frame: Bytes, challenge: Bytes, size: int) returns (from: Option<Bytes>)
      requires Valid()
      modifies this`heard, this`answered
      ensures Valid() && old(heard) <= heard
      ensures answered == old(answered) + (if from.Some? then {size} else {})
      ensures from.Some? ==> |from.value| == 6 && (limit.Some? ==> from.value == nodeMAC)
      ensures limit.Some? ==> (from.Some? <==> Reaches(frame, challenge, size))
    {
      var attempt := 0;
      from := None;
      while attempt < 2 && from.None?
        invariant Valid() && old(heard) <= heard
        invariant answered == old(answered) + (if from.Some? then {size} else {})
        invariant from.Some? ==> |from.value| == 6 && (limit.Some? ==> from.value == nodeMAC)
        invariant if attempt == 0 then from.None? else limit.Some? ==> (from.Some? <==> Reaches(frame, challenge, size))
      {
        from := Attempt(frame, challenge, size);
        attempt := attempt + 1;
      }
    }

    /** Addresses of a probe that gets to the leaf and back. */
    predicate Addressed(src: Bytes, dst: Bytes) {
      |mac| == |nodeMAC| == 6 && src == mac && (dst == nodeMAC || dst == BROADCAST)
    }

    /** On a path with a limit, exactly the probes up to it are answered. */
    lemma ReachesExactly(dst: Bytes, src: Bytes, challenge: Bytes, size: int)
      requires |keys.ckn| == CKN_LEN && |keys.key| > 0 && |challenge| == CHALLENGE_LEN
      requires ETHERNET_MTU <= size <= JUMBO_MTU
      ensures limit.Some? && Addressed(src, dst) ==>
                (Reaches(Frame(h, dst, src, PROBE, keys, challenge, 14 + size), challenge, size) <==> size <= limit.value)
    {
      if Addressed(src, dst) {
        FrameFields(h, dst, src, PROBE, keys, challenge, 14 + size);
        ReplyAccepted(h, dst, src, nodeMAC, keys, challenge, 14 + size);
        FrameFields(h, src, nodeMAC, PROBE_REPLY, keys, challenge, 14 + size);
      }
    }

    method BuildProbe(dst: Bytes, src: Bytes, challenge: Bytes, size: int) returns (frame: Option<Bytes>)
      requires |keys.ckn| == CKN_LEN && |keys.key| > 0 && |challenge| == CHALLENGE_LEN
      requires ETHERNET_MTU <= size <= JUMBO_MTU
      ensures limit.Some? && Addressed(src, dst) ==>
                frame.Some? && (Reaches(frame.value, challenge, size) <==> size <= limit.value)
    {
      frame := BuildSized(h, dst, src, PROBE, keys, challenge, 14 + size);
      ReachesExactly(dst, src, challenge, size);
    }

    /** Probes one size with a fresh challenge. */
    method ProbeFrame(src: Bytes, dst: Bytes, size: int) returns (from: Option<Bytes>)
      requires Valid() && |keys.ckn| == CKN_LEN && |keys.key| > 0
      requires ETHERNET_MTU <= size <= JUMBO_MTU
      modifies this
      ensures Valid() && old(heard) <= heard && probes == old(probes) + 1
      ensures answered == old(answered) + (if from.Some? then {size} else {})
      ensures from.Some? ==> |from.value| == 6 && (limit.Some? ==> from.value == nodeMAC)
      ensures limit.Some? && Addressed(src, dst) ==> (from.Some? <==> size <= limit.value)
    {
      probes := probes + 1;
      from := None;
      var challenge := NewChallenge();
      if challenge.None? {
        return;
      }
      var frame := BuildProbe(dst, src, challenge.value, size);
      if !frame.Some? {
        return;
      }
      from := Attempts(frame.value, challenge.value, size);
    }
  }

  /** The leaf's answer to a well-formed probe is accepted as the reply to it. */
  lemma ReplyAccepted(h: Hmac, dst: Bytes, src: Bytes, mac: Bytes, keys: CtlKeys, challenge: Bytes, total: int)
    requires |src| == |dst| == 6 && |keys.ckn| == CKN_LEN && |keys.key| > 0 && |challenge| == CHALLENGE_LEN
    requires FRAME_LEN <= total <= MAX_TOTAL
    ensures var answer := Answer(h, keys, mac, Frame(h, dst, src, PROBE, keys, challenge, total));
            if |mac| == 6
            then answer.Some? && IsTo(answer.value, src) && Parse(h, answer.value, keys) == Some(Parsed(PROBE_REPLY, mac, challenge, total))
            else answer.None?
  {
    ParseOfFrame(h, dst, src, PROBE, keys, challenge, total);
    if |mac| == 6 {
      ParseOfFrame(h, src, mac, PROBE_REPLY, keys, challenge, total);
    }
  }

  /** Rounds until a bracket of width d has width at most 8. */
  function Halvings(d: int): nat
    decreases Max(d, 0)
  {
    if d <= 8 then 0 else 1 + Halvings((d + 1) / 2)
  }

  function Pow2(n: nat): nat { if n == 0 then 1 else 2 * Pow2(n - 1) }

  /** `Halvings(d)` is the binary logarithm of d/8, rounded up. */
  lemma {:induction false} HalvingsIsLog(d: int, n: nat)
    ensures Halvings(d) <= n <==> d <= 8 * Pow2(n)
    decreases n
  {
    if n > 0 && d > 8 {
      HalvingsIsLog((d + 1) / 2, n - 1);
    } else if n > 0 {
      Pow2Positive(n);
    }
  }

  lemma Pow2Positive(n: nat)
    ensures Pow2(n) >= 1
  {
  }

  lemma {:induction false} HalvingsMonotone(c: int, d: int)
    requires c <= d
    ensures Halvings(c) <= Halvings(d)
    decreases Max(d, 0)
  {
    if c > 8 {
      HalvingsMonotone((c + 1) / 2, (d + 1) / 2);
    }
  }

  datatype TestError = NotEnabled | NoKeys | NoInterface | NoReply

  /** The parent interface as the test finds it. */
  datatype Parent = Parent(mac: Bytes, mtu: int)

  function Cap(mtu: int): int { Max(Min(mtu, JUMBO_MTU), ETHERNET_MTU) }

  /** Finds the largest size the path to the leaf carries, to within 7 bytes. */
  method TestUnderlayMTU(wire: Wire, enabled: bool, keysOk: bool, parent: Option<Parent>) returns (r: Result<int, TestError>)
    requires keysOk ==> |wire.keys.ckn| == CKN_LEN && |wire.keys.key| > 0
    requires wire.Valid()
    modifies wire
    ensures wire.Valid()
    // Under any network: the result is a size some authenticated reply of that length answered.
    ensures r.Success? ==> parent.Some? && r.value in wire.answered && ETHERNET_MTU <= r.value <= Cap(parent.value.mtu)
    ensures !enabled ==> r == Failure(NotEnabled)
    ensures enabled && !keysOk ==> r == Failure(NoKeys)
    ensures enabled && keysOk && parent.None? ==> r == Failure(NoInterface)
    ensures enabled && keysOk && parent.Some? ==> r.Success? || r == Failure(NoReply)
    // On a path that carries exactly sizes up to P.
    ensures enabled && keysOk && parent.Some? && wire.Addressed(parent.value.mac, BROADCAST) && wire.limit.Some? ==>
              if wire.limit.value < ETHERNET_MTU then r == Failure(NoReply)
              else
                var best := Min(wire.limit.value, Cap(parent.value.mtu));
                r.Success? && best - 7 <= r.value <= best && (best == Cap(parent.value.mtu) ==> r.value == best)
    ensures parent.Some? ==> wire.probes <= old(wire.probes) + 2 + Halvings(Cap(parent.value.mtu) - ETHERNET_MTU)
  {
    if !enabled {
      return Failure(NotEnabled);
    }
    if !keysOk {
      return Failure(NoKeys);
    }
    if parent.None? {
      return Failure(NoInterface);
    }
    var info := parent.value;
    var node := wire.ProbeFrame(info.mac, BROADCAST, ETHERNET_MTU);
    if node.None? {
      return Failure(NoReply);
    }
    var max := info.mtu;
    if max > JUMBO_MTU {
      max := JUMBO_MTU;
    }
    if max <= ETHERNET_MTU {
      return Success(ETHERNET_MTU);
    }
    var whole := wire.ProbeFrame(info.mac, node.value, max);
    if whole.Some? {
      return Success(max);
    }
    var best := Search(wire, info.mac, node.value, max);
    r := Success(best);
  }

  /** Binary search between an answered size and one that was not. */
  method Search(wire: Wire, src: Bytes, dst: Bytes, max: int) returns (lo: int)
    requires wire.Valid() && |wire.keys.ckn| == CKN_LEN && |wire.keys.key| > 0 && |dst| == 6
    requires ETHERNET_MTU in wire.answered && ETHERNET_MTU < max <= JUMBO_MTU
    requires wire.limit.Some? && wire.Addressed(src, dst) ==> ETHERNET_MTU <= wire.limit.value < max
    modifies wire
    ensures wire.Valid() && lo in wire.answered && ETHERNET_MTU <= lo < max
    ensures wire.limit.Some? && wire.Addressed(src, dst) ==> wire.limit.value - 7 <= lo <= wire.limit.value
    ensures wire.probes <= old(wire.probes) + Halvings(max - ETHERNET_MTU)
  {
    lo := ETHERNET_MTU;
    var hi := max;
    ghost var reaches := wire.limit.Some? && wire.Addressed(src, dst);
    while hi - lo > 8
      invariant ETHERNET_MTU <= lo < hi <= max
      invariant wire.Valid() && lo in wire.answered
      invariant wire.probes + Halvings(hi - lo) <= old(wire.probes) + Halvings(max - ETHERNET_MTU)
      invariant reaches ==> lo <= wire.limit.value < hi
      decreases hi - lo
    {
      var mid := (lo + hi) / 2;
      HalvingsMonotone(mid - lo, (hi - lo + 1) / 2);
      HalvingsMonotone(hi - mid, (hi - lo + 1) / 2);
      var got := wire.ProbeFrame(src, dst, mid);
      if got.Some? {
        lo := mid;
      } else {
        hi := mid;
      }
    }
  }
}
