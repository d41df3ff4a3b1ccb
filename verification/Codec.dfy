/** The control frame of the wire protocol: layout, tag, printer and parser. */
module Codec {
  import opened Wrappers
  import opened Mesh

  const MAGIC: Bytes := [0x53, 0x50, 0x52, 0x4d, 0x53, 0x45, 0x43, 0x31]
  const ETHERTYPE: Bytes := [0x88, 0xb5]
  const DISABLE: byte := 1
  const ACK: byte := 2
  const PROBE: byte := 3
  const PROBE_REPLY: byte := 4

  const CKN_LEN := 16
  const CHALLENGE_LEN := 16
  const MAC_LEN := 32
  /** The fixed part: 14 header bytes and 75 payload bytes. */
  const FRAME_LEN := 14 + 8 + 1 + CKN_LEN + CHALLENGE_LEN + 2 + MAC_LEN
  const MAX_TOTAL := 65535

  /** HMAC-SHA256 is library code: any function of key and message with 32-byte results. */
  type Hmac = h: (Bytes, Bytes) -> Bytes | forall k: Bytes, m: Bytes :: |h(k, m)| == MAC_LEN
    witness (k: Bytes, m: Bytes) => Zeros(MAC_LEN)

  /** Keys derived from the pairing secret and the nonce of one association. */
  datatype CtlKeys = CtlKeys(nonce: string, ckn: Bytes, key: Bytes)

  datatype Parsed = Parsed(cmd: byte, src: Bytes, challenge: Bytes, total: nat)

  /** Big-endian 16 bits; larger numbers lose their high bits, as in a cast to 16 bits. */
  function U16(n: nat): (b: Bytes)
    ensures |b| == 2
  {
    [n / 0x100 % 0x100, n % 0x100]
  }

  function FromU16(b: Bytes): nat
    requires |b| == 2
  {
    (b[0] as int) * 0x100 + b[1]
  }

  lemma U16RoundTrip(n: nat)
    ensures FromU16(U16(n)) == n % 0x10000
  {
  }

  /** The bytes the tag covers; they are also sent in this order. */
  function Message(cmd: byte, ckn: Bytes, challenge: Bytes, total: nat): (m: Bytes)
    ensures |m| == 11 + |ckn| + |challenge|
  {
    MAGIC + [cmd] + ckn + challenge + U16(total)
  }

  function Tag(h: Hmac, keys: CtlKeys, cmd: byte, challenge: Bytes, total: nat): (t: Bytes)
    ensures |t| == MAC_LEN
  {
    h(keys.key, Message(cmd, keys.ckn, challenge, total))
  }

  function Size(total: int): nat { Max(total, FRAME_LEN) }

  /** The frame `BuildSized` must produce. */
  function Frame(h: Hmac, dst: Bytes, src: Bytes, cmd: byte, keys: CtlKeys, challenge: Bytes, total: int): Bytes
    requires |dst| == |src| == 6
    requires |keys.ckn| + |challenge| <= Size(total) - 57
  {
    dst + src + ETHERTYPE + Message(cmd, keys.ckn, challenge, Size(total))
    + Tag(h, keys, cmd, challenge, Size(total))
    + Zeros(Size(total) - 57 - |keys.ckn| - |challenge|)
  }

  /** Appends the fields one by one. A wrong address length gives no
      frame; the precondition is exactly that the final padding is not negative. */
  method BuildSized(h: Hmac, dst: Bytes, src: Bytes, cmd: byte, keys: CtlKeys, challenge: Bytes, total: int)
    returns (frame: Option<Bytes>)
    requires |keys.ckn| + |challenge| <= Size(total) - 57
    ensures frame.Some? <==> |dst| == |src| == 6
    ensures frame.Some? ==> frame.value == Frame(h, dst, src, cmd, keys, challenge, total)
  {
    if |dst| != 6 || |src| != 6 {
      return None;
    }
    var size := if total < FRAME_LEN then FRAME_LEN else total;
    var f: Bytes := dst;
    f := f + src;
    f := f + ETHERTYPE;
    var m := MAGIC;
    m := m + [cmd];
    m := m + keys.ckn;
    m := m + challenge;
    m := m + U16(size);
    f := f + m;
    f := f + Tag(h, keys, cmd, challenge, size);
    f := f + Zeros(size - |f|);
    frame := Some(f);
  }

  /** The parser. Bytes 0..6 (destination) and everything past the fixed part are not looked at. */
  function Parse(h: Hmac, frame: Bytes, keys: CtlKeys): (r: Option<Parsed>)
    ensures r.Some? ==> |keys.ckn| == CKN_LEN && |r.value.src| == 6 && |r.value.challenge| == CHALLENGE_LEN
                        && FRAME_LEN <= r.value.total <= Min(|frame|, MAX_TOTAL)
  {
    if |frame| < FRAME_LEN || |keys.ckn| != CKN_LEN || |keys.key| == 0 then None
    else if frame[12..14] != ETHERTYPE then None
    else if frame[14..22] != MAGIC then None
    else
      var cmd := frame[22];
      var challenge := frame[39..55];
      var total := FromU16(frame[55..57]);
      if total < FRAME_LEN || |frame| < total then None
      else if frame[23..39] != keys.ckn then None
      else if frame[57..89] != Tag(h, keys, cmd, challenge, total) then None
      else Some(Parsed(cmd, frame[6..12], challenge, total))
  }

  /** What a leaf with these armed keys and this address sends back: a reply of the same size to a
      probe, an acknowledgement to a disable. */
  function Answer(h: Hmac, keys: CtlKeys, mac: Bytes, frame: Bytes): Option<Bytes> {
    match Parse(h, frame, keys)
    case None => None
    case Some(p) =>
      if |mac| != 6 then None
      else if p.cmd == PROBE then Some(Frame(h, p.src, mac, PROBE_REPLY, keys, p.challenge, p.total))
      else if p.cmd == DISABLE then Some(Frame(h, p.src, mac, ACK, keys, p.challenge, FRAME_LEN))
      else None
  }

  /** What is sent back to a frame under these keys: to a probe a reply with its challenge and size, to a
      disable an acknowledgement with its challenge, addressed to its sender; to anything else nothing. */
  predicate AnswersTo(h: Hmac, keys: CtlKeys, mac: Bytes, frame: Bytes, sent: Option<Bytes>) {
    var p := Parse(h, frame, keys);
    if |mac| == 6 && p.Some? && (p.value.cmd == PROBE || p.value.cmd == DISABLE) then
      && sent.Some? && |sent.value| >= FRAME_LEN && sent.value[..6] == p.value.src
      && Parse(h, sent.value, keys)
         == Some(if p.value.cmd == PROBE then Parsed(PROBE_REPLY, mac, p.value.challenge, p.value.total)
                 else Parsed(ACK, mac, p.value.challenge, FRAME_LEN))
    else sent.None?
  }

  /** A concatenation of pieces of known length can be taken apart again. */
  lemma Slices(dst: Bytes, src: Bytes, cmd: byte, ckn: Bytes, challenge: Bytes, u: Bytes, tag: Bytes, pad: Bytes)
    requires |dst| == |src| == 6 && |ckn| == CKN_LEN && |challenge| == CHALLENGE_LEN && |u| == 2 && |tag| == MAC_LEN
    ensures var f := dst + src + ETHERTYPE + (MAGIC + [cmd] + ckn + challenge + u) + tag + pad;
            && |f| == FRAME_LEN + |pad|
            && f[..6] == dst && f[14..57] == MAGIC + [cmd] + ckn + challenge + u && f[89..] == pad
            && f[6..12] == src && f[12..14] == ETHERTYPE && f[14..22] == MAGIC && f[22] == cmd
            && f[23..39] == ckn && f[39..55] == challenge && f[55..57] == u && f[57..89] == tag
  {
  }

  /** The layout of a built frame with the field lengths the protocol uses. */
  lemma FrameFields(h: Hmac, dst: Bytes, src: Bytes, cmd: byte, keys: CtlKeys, challenge: Bytes, total: int)
    requires |dst| == |src| == 6 && |keys.ckn| == CKN_LEN && |challenge| == CHALLENGE_LEN
    ensures var f := Frame(h, dst, src, cmd, keys, challenge, total);
            && |f| == Size(total) && f[..6] == dst
            && f[6..12] == src && f[12..14] == ETHERTYPE && f[14..22] == MAGIC && f[22] == cmd
            && f[23..39] == keys.ckn && f[39..55] == challenge && f[55..57] == U16(Size(total))
            && f[57..89] == Tag(h, keys, cmd, challenge, Size(total)) == h(keys.key, f[14..57])
            && forall i :: 89 <= i < |f| ==> f[i] == 0
  {
    assert Zeros(Size(total) - 89) == Frame(h, dst, src, cmd, keys, challenge, total)[89..];
    Slices(dst, src, cmd, keys.ckn, challenge, U16(Size(total)), Tag(h, keys, cmd, challenge, Size(total)),
           Zeros(Size(total) - 57 - |keys.ckn| - |challenge|));
  }

  /** The numbers on the wire: the frame's place in Ethernet, its mark, its commands and its least length. */
  lemma WireFormat(h: Hmac, dst: Bytes, src: Bytes, cmd: byte, keys: CtlKeys, challenge: Bytes, total: int)
    requires |dst| == |src| == 6 && |keys.ckn| == 16 && |challenge| == 16
    ensures var f := Frame(h, dst, src, cmd, keys, challenge, total);
            && |f| == (if total < 89 then 89 else total) && f[12] == 0x88 && f[13] == 0xb5
            && f[14..22] == [0x53, 0x50, 0x52, 0x4d, 0x53, 0x45, 0x43, 0x31]
            && (DISABLE, ACK, PROBE, PROBE_REPLY) == (1, 2, 3, 4)
  {
    FrameFields(h, dst, src, cmd, keys, challenge, total);
    var f := Frame(h, dst, src, cmd, keys, challenge, total);
    assert f[12] == f[12..14][0] && f[13] == f[12..14][1];
  }

  /** Parsing a built frame gives the command, sender, challenge and size back, for exactly
      the sizes that fit the 16-bit field; a larger one is read as its truncation or refused. */
  lemma ParseOfFrame(h: Hmac, dst: Bytes, src: Bytes, cmd: byte, keys: CtlKeys, challenge: Bytes, total: int)
    requires |dst| == |src| == 6 && |keys.ckn| == CKN_LEN && |challenge| == CHALLENGE_LEN && |keys.key| > 0
    ensures Parse(h, Frame(h, dst, src, cmd, keys, challenge, total), keys) == Some(Parsed(cmd, src, challenge, Size(total)))
            <==> total <= MAX_TOTAL
    ensures total > MAX_TOTAL ==>
              var t := total % 0x10000;
              Parse(h, Frame(h, dst, src, cmd, keys, challenge, total), keys)
              == if t >= FRAME_LEN then Some(Parsed(cmd, src, challenge, t)) else None
  {
    FrameFields(h, dst, src, cmd, keys, challenge, total);
    U16RoundTrip(Size(total));
    var f := Frame(h, dst, src, cmd, keys, challenge, total);
    assert FromU16(f[55..57]) == Size(total) % 0x10000;
  }

  /** The answer reaches the sender and is read there as what it is meant to be. */
  lemma AnswerMeets(h: Hmac, keys: CtlKeys, mac: Bytes, frame: Bytes)
    ensures AnswersTo(h, keys, mac, frame, Answer(h, keys, mac, frame))
  {
    var p := Parse(h, frame, keys);
    if |mac| == 6 && p.Some? && (p.value.cmd == PROBE || p.value.cmd == DISABLE) {
      var cmd, total := if p.value.cmd == PROBE then PROBE_REPLY else ACK, if p.value.cmd == PROBE then p.value.total else FRAME_LEN;
      FrameFields(h, p.value.src, mac, cmd, keys, p.value.challenge, total);
      ParseOfFrame(h, p.value.src, mac, cmd, keys, p.value.challenge, total);
    }
  }

  /** The converse: a frame is accepted, with result `p`, exactly when it is long enough and its
      bytes 6..89 are those of the frame that would be built for `p`. */
  lemma AcceptedIffBuilt(h: Hmac, dst: Bytes, frame: Bytes, keys: CtlKeys, p: Parsed)
    requires |dst| == 6 && |keys.ckn| == CKN_LEN && |keys.key| > 0
    requires |p.src| == 6 && |p.challenge| == CHALLENGE_LEN
    ensures Parse(h, frame, keys) == Some(p)
            <==> && FRAME_LEN <= p.total <= MAX_TOTAL && p.total <= |frame|
                 && frame[6..FRAME_LEN] == Frame(h, dst, p.src, p.cmd, keys, p.challenge, p.total)[6..FRAME_LEN]
  {
    var g := Frame(h, dst, p.src, p.cmd, keys, p.challenge, p.total);
    FrameFields(h, dst, p.src, p.cmd, keys, p.challenge, p.total);
    if |frame| >= FRAME_LEN {
      CoreFields(frame, g);
      if Parse(h, frame, keys) == Some(p) {
        U16OfFromU16(frame[55..57]);
      } else if FRAME_LEN <= p.total <= MAX_TOTAL && p.total <= |frame| && frame[6..FRAME_LEN] == g[6..FRAME_LEN] {
        U16RoundTrip(p.total);
      }
    }
  }

  lemma U16OfFromU16(b: Bytes)
    requires |b| == 2
    ensures U16(FromU16(b)) == b && FromU16(b) <= MAX_TOTAL
  {
  }

  /** Two frames agree on bytes 6..89 exactly when they agree on every field. */
  lemma CoreFields(f: Bytes, g: Bytes)
    requires |f| >= FRAME_LEN && |g| >= FRAME_LEN
    ensures f[6..FRAME_LEN] == g[6..FRAME_LEN]
            <==> && f[6..12] == g[6..12] && f[12..14] == g[12..14] && f[14..22] == g[14..22] && f[22] == g[22]
                 && f[23..39] == g[23..39] && f[39..55] == g[39..55] && f[55..57] == g[55..57] && f[57..89] == g[57..89]
  {
    Glue(f);
    Glue(g);
    if f[6..FRAME_LEN] == g[6..FRAME_LEN] {
      Cut(f);
      Cut(g);
    }
  }

  lemma Glue(f: Bytes)
    requires |f| >= FRAME_LEN
    ensures f[6..FRAME_LEN] == f[6..12] + f[12..14] + f[14..22] + [f[22]] + f[23..39] + f[39..55] + f[55..57] + f[57..89]
  {
  }

  lemma Cut(f: Bytes)
    requires |f| >= FRAME_LEN
    ensures var c := f[6..FRAME_LEN];
            && f[6..12] == c[..6] && f[12..14] == c[6..8] && f[14..22] == c[8..16] && f[22] == c[16]
            && f[23..39] == c[17..33] && f[39..55] == c[33..49] && f[55..57] == c[49..51] && f[57..89] == c[51..83]
  {
    forall a, b | 0 <= a <= b <= FRAME_LEN - 6
      ensures f[6..FRAME_LEN][a..b] == f[6 + a..6 + b]
    {
      assert forall i :: 0 <= i < b - a ==> f[6..FRAME_LEN][a..b][i] == f[6 + a..6 + b][i];
    }
  }

  /** Nothing signed for one command, association, challenge or size can be read as another. */
  lemma MessageInjective(cmd: byte, ckn: Bytes, ch: Bytes, total: nat, cmd': byte, ckn': Bytes, ch': Bytes, total': nat)
    requires |ckn| == |ckn'| == CKN_LEN && |ch| == |ch'| == CHALLENGE_LEN
    requires total <= MAX_TOTAL && total' <= MAX_TOTAL
    requires Message(cmd, ckn, ch, total) == Message(cmd', ckn', ch', total')
    ensures cmd == cmd' && ckn == ckn' && ch == ch' && total == total'
  {
    var m, m' := Message(cmd, ckn, ch, total), Message(cmd', ckn', ch', total');
    assert m[8] == cmd && m'[8] == cmd';
    assert m[9..25] == ckn && m'[9..25] == ckn';
    assert m[25..41] == ch && m'[25..41] == ch';
    assert m[41..43] == U16(total) && m'[41..43] == U16(total');
    U16RoundTrip(total);
    U16RoundTrip(total');
  }
}
