/**
 The drawfs wire format: little-endian frame and message headers, frame validation, frame
 construction, and the walk over the messages of a validated frame.
 */
module Wire {
  import opened Bytes

  const MAGIC: nat := 0x31575244
  const VERSION: nat := 0x0100
  const HEADER_BYTES: nat := 16
  const MSG_HEADER_BYTES: nat := 16
  const MAX_FRAME_BYTES: nat := 1048576
  const MAX_MSG_BYTES: nat := 524288
  const U16: nat := 0x1_0000
  const U32: nat := 0x1_0000_0000

  // ------------------------------------------------------------------------------------
  // Little-endian fields.
  // ------------------------------------------------------------------------------------

  function Get16(b: seq<Byte>, at: nat): nat
    requires at + 2 <= |b|
  {
    b[at] as int + 256 * b[at + 1] as int
  }

  function Get32(b: seq<Byte>, at: nat): nat
    requires at + 4 <= |b|
  {
    b[at] as int + 256 * b[at + 1] as int + 65536 * b[at + 2] as int + 16777216 * b[at + 3] as int
  }

  function Le16(n: nat): seq<Byte>
    requires n < U16
  {
    [n % 256, n / 256]
  }

  function Le32(n: nat): seq<Byte>
    requires n < U32
  {
    [n % 256, n / 256 % 256, n / 65536 % 256, n / 16777216]
  }

  lemma Get16At(before: seq<Byte>, n: nat, after: seq<Byte>)
    requires n < U16
    ensures Get16(before + Le16(n) + after, |before|) == n
  {
  }

  lemma Digits(n: nat)
    requires n < U32
    ensures n == n % 256 + 256 * (n / 256 % 256) + 65536 * (n / 65536 % 256) + 16777216 * (n / 16777216)
  {
    var a := n / 256;
    var b := a / 256;
    assert n == 256 * a + n % 256 && a == 256 * b + a % 256 && b == 256 * (b / 256) + b % 256;
    assert n == 65536 * b + (256 * (a % 256) + n % 256);
    assert n / 65536 == b;
    assert n == 16777216 * (b / 256) + (65536 * (b % 256) + 256 * (a % 256) + n % 256);
    assert n / 16777216 == b / 256;
  }

  lemma Get32At(before: seq<Byte>, n: nat, after: seq<Byte>)
    requires n < U32
    ensures Get32(before + Le32(n) + after, |before|) == n
  {
    Digits(n);
  }

  // ------------------------------------------------------------------------------------
  // Headers.
  // ------------------------------------------------------------------------------------

  datatype FrameHdr = FrameHdr(magic: nat, version: nat, headerBytes: nat, frameBytes: nat, frameId: nat)

  datatype MsgHdr = MsgHdr(msgType: nat, msgFlags: nat, msgBytes: nat, msgId: nat, reserved: nat)

  function GetFrameHdr(b: seq<Byte>): FrameHdr
    requires |b| >= HEADER_BYTES
  {
    FrameHdr(Get32(b, 0), Get16(b, 4), Get16(b, 6), Get32(b, 8), Get32(b, 12))
  }

  function GetMsgHdr(b: seq<Byte>, at: nat): MsgHdr
    requires at + MSG_HEADER_BYTES <= |b|
  {
    MsgHdr(Get16(b, at), Get16(b, at + 2), Get32(b, at + 4), Get32(b, at + 8), Get32(b, at + 12))
  }

  predicate FrameHdrFits(h: FrameHdr) {
    h.magic < U32 && h.version < U16 && h.headerBytes < U16 && h.frameBytes < U32 && h.frameId < U32
  }

  predicate MsgHdrFits(h: MsgHdr) {
    h.msgType < U16 && h.msgFlags < U16 && h.msgBytes < U32 && h.msgId < U32 && h.reserved < U32
  }

  function PutFrameHdr(h: FrameHdr): (b: seq<Byte>)
    requires FrameHdrFits(h)
    ensures |b| == HEADER_BYTES
  {
    Le32(h.magic) + Le16(h.version) + Le16(h.headerBytes) + Le32(h.frameBytes) + Le32(h.frameId)
  }

  function PutMsgHdr(h: MsgHdr): (b: seq<Byte>)
    requires MsgHdrFits(h)
    ensures |b| == MSG_HEADER_BYTES
  {
    Le16(h.msgType) + Le16(h.msgFlags) + Le32(h.msgBytes) + Le32(h.msgId) + Le32(h.reserved)
  }

  lemma Get32Field(b: seq<Byte>, at: nat, n: nat)
    requires n < U32 && at + 4 <= |b| && b[at..at + 4] == Le32(n)
    ensures Get32(b, at) == n
  {
    assert b == b[..at] + b[at..at + 4] + b[at + 4..];
    Get32At(b[..at], n, b[at + 4..]);
  }

  lemma Get16Field(b: seq<Byte>, at: nat, n: nat)
    requires n < U16 && at + 2 <= |b| && b[at..at + 2] == Le16(n)
    ensures Get16(b, at) == n
  {
    assert b == b[..at] + b[at..at + 2] + b[at + 2..];
    Get16At(b[..at], n, b[at + 2..]);
  }

  lemma FrameHdrRoundTrip(h: FrameHdr, rest: seq<Byte>)
    requires FrameHdrFits(h)
    ensures GetFrameHdr(PutFrameHdr(h) + rest) == h
  {
    var b := PutFrameHdr(h) + rest;
    Get32Field(b, 0, h.magic);
    Get16Field(b, 4, h.version);
    Get16Field(b, 6, h.headerBytes);
    Get32Field(b, 8, h.frameBytes);
    Get32Field(b, 12, h.frameId);
  }

  lemma MsgHdrRoundTrip(before: seq<Byte>, h: MsgHdr, rest: seq<Byte>)
    requires MsgHdrFits(h)
    ensures GetMsgHdr(before + PutMsgHdr(h) + rest, |before|) == h
  {
    var b, at := before + PutMsgHdr(h) + rest, |before|;
    Get16Field(b, at, h.msgType);
    Get16Field(b, at + 2, h.msgFlags);
    Get32Field(b, at + 4, h.msgBytes);
    Get32Field(b, at + 8, h.msgId);
    Get32Field(b, at + 12, h.reserved);
  }

  // ------------------------------------------------------------------------------------
  // Validation.
  // ------------------------------------------------------------------------------------

  datatype FrameError = InvalidFrame | UnsupportedVersion

  datatype Validation = Valid(hdr: FrameHdr) | Invalid(error: FrameError, offset: nat)

  /** drawfs_frame_validate: the checks in the order that decides which error is reported. */
  function Validate(b: seq<Byte>): (v: Validation)
    ensures v.Valid? <==>
              && |b| >= HEADER_BYTES
              && var h := GetFrameHdr(b);
                 h.magic == MAGIC && h.version == VERSION && h.headerBytes == HEADER_BYTES
                 && HEADER_BYTES <= h.frameBytes <= |b| && h.frameBytes % 4 == 0
    ensures v.Valid? ==> v.hdr == GetFrameHdr(b)
  {
    if |b| < HEADER_BYTES then Invalid(InvalidFrame, 0)
    else
      var h := GetFrameHdr(b);
      if h.magic != MAGIC then Invalid(InvalidFrame, 0)
      else if h.version != VERSION then Invalid(UnsupportedVersion, 4)
      else if h.headerBytes != HEADER_BYTES then Invalid(InvalidFrame, 6)
      else if h.frameBytes < h.headerBytes then Invalid(InvalidFrame, 8)
      else if h.frameBytes > |b| then Invalid(InvalidFrame, 8)
      else if h.frameBytes % 4 != 0 then Invalid(InvalidFrame, 8)
      else Valid(h)
  }

  /** The first fault in field order is the one reported, at the offset of its field. */
  lemma ValidateReports(b: seq<Byte>)
    requires Validate(b).Invalid?
    ensures var v := Validate(b);
            && (v.offset == 0 <==> |b| < 16 || Get32(b, 0) != 0x31575244)
            && (v.offset == 4 <==> |b| >= 16 && Get32(b, 0) == 0x31575244 && Get16(b, 4) != 0x0100)
            && (v.offset == 6 <==> |b| >= 16 && Get32(b, 0) == 0x31575244 && Get16(b, 4) == 0x0100 && Get16(b, 6) != 16)
            && v.offset in {0, 4, 6, 8} && (v.error.UnsupportedVersion? <==> v.offset == 4)
  {
  }

  // ------------------------------------------------------------------------------------
  // Construction.
  // ------------------------------------------------------------------------------------

  function Align4(n: nat): (m: nat)
    ensures n <= m < n + 4 && m % 4 == 0
  {
    (n + 3) / 4 * 4
  }

  /** The arguments fit their C types, and the frame length its 32-bit field. */
  predicate Sendable(frameId: nat, msgType: nat, msgId: nat, payload: seq<Byte>) {
    frameId < U32 && msgType < U16 && msgId < U32 && HEADER_BYTES + Align4(MSG_HEADER_BYTES + |payload|) < U32
  }

  function FrameFor(frameId: nat, payload: seq<Byte>): FrameHdr {
    FrameHdr(MAGIC, VERSION, HEADER_BYTES, HEADER_BYTES + Align4(MSG_HEADER_BYTES + |payload|), frameId)
  }

  function MsgFor(msgType: nat, msgId: nat, payload: seq<Byte>): MsgHdr {
    MsgHdr(msgType, 0, MSG_HEADER_BYTES + |payload|, msgId, 0)
  }

  /** The bytes of a frame that carries one message. */
  function Build(frameId: nat, msgType: nat, msgId: nat, payload: seq<Byte>): (b: seq<Byte>)
    requires Sendable(frameId, msgType, msgId, payload)
    ensures |b| == HEADER_BYTES + Align4(MSG_HEADER_BYTES + |payload|)
  {
    var used := MSG_HEADER_BYTES + |payload|;
    PutFrameHdr(FrameFor(frameId, payload)) + PutMsgHdr(MsgFor(msgType, msgId, payload)) + payload
    + Zeros(Align4(used) - used)
  }

  // ------------------------------------------------------------------------------------
  // The message walk.
  // ------------------------------------------------------------------------------------

  datatype Message = Message(at: nat, hdr: MsgHdr, payload: seq<Byte>)

  /**
   Why the walk stopped: the frame is used up, the message at `at` is malformed, the frame is
   invalid, or the reply to message number `index` found no room.
   */
  datatype Stop = Finished | BadMessage(at: nat) | BadFrame(error: FrameError, offset: nat) | Refused(index: nat)

  predicate MessageFits(b: seq<Byte>, pos: nat, end: nat)
    requires pos + MSG_HEADER_BYTES <= end <= |b|
  {
    var n := GetMsgHdr(b, pos).msgBytes; MSG_HEADER_BYTES <= n <= MAX_MSG_BYTES && pos + n <= end
  }

  datatype Walked = Walked(msgs: seq<Message>, stop: Stop)

  function MessageAt(b: seq<Byte>, pos: nat, end: nat): (m: Message)
    requires pos + MSG_HEADER_BYTES <= end <= |b| && MessageFits(b, pos, end)
  {
    var h := GetMsgHdr(b, pos);
    Message(pos, h, b[pos + MSG_HEADER_BYTES..pos + h.msgBytes])
  }

  /** Where the message after `m` starts. */
  function After(m: Message): (next: nat)
    ensures m.at + m.hdr.msgBytes <= next
  {
    Align4(m.at + m.hdr.msgBytes)
  }

  /** The messages from `pos` to `end`, each aligned to four bytes. */
  function Walk(b: seq<Byte>, pos: nat, end: nat): Walked
    requires end <= |b|
    decreases end - pos
  {
    if pos + MSG_HEADER_BYTES > end then Walked([], Finished)
    else if !MessageFits(b, pos, end) then Walked([], BadMessage(pos))
    else
      var m := MessageAt(b, pos, end);
      var rest := Walk(b, After(m), end);
      Walked([m] + rest.msgs, rest.stop)
  }

  /** Messages lie one after the other from `pos`, each at least a header long, never past `end` once aligned. */
  predicate Tiles(msgs: seq<Message>, pos: nat, end: nat)
    decreases |msgs|
  {
    msgs == [] ||
    (&& msgs[0].at == pos
     && msgs[0].hdr.msgBytes == MSG_HEADER_BYTES + |msgs[0].payload|
     && After(msgs[0]) <= end
     && Tiles(msgs[1..], After(msgs[0]), end))
  }

  lemma AlignStays(n: nat, end: nat)
    requires n <= end && end % 4 == 0
    ensures Align4(n) <= end
  {
    assert end == 4 * (end / 4);
  }

  lemma AlignShifts(n: nat)
    ensures Align4(HEADER_BYTES + n) == HEADER_BYTES + Align4(n)
  {
  }

  lemma {:induction false} WalkTiles(b: seq<Byte>, pos: nat, end: nat)
    requires end <= |b| && end % 4 == 0
    ensures Tiles(Walk(b, pos, end).msgs, pos, end)
    decreases end - pos
  {
    if pos + MSG_HEADER_BYTES <= end && MessageFits(b, pos, end) {
      var m := MessageAt(b, pos, end);
      AlignStays(m.at + m.hdr.msgBytes, end);
      WalkTiles(b, After(m), end);
      assert ([m] + Walk(b, After(m), end).msgs)[1..] == Walk(b, After(m), end).msgs;
    }
  }

  /** Where a walk from `pos` got to. */
  function Reached(msgs: seq<Message>, pos: nat): nat {
    if msgs == [] then pos else After(msgs[|msgs| - 1])
  }

  /** The message is what the bytes at its place say. */
  predicate ReadFrom(b: seq<Byte>, m: Message, end: nat)
    requires end <= |b|
  {
    && m.at + MSG_HEADER_BYTES <= end && MessageFits(b, m.at, end)
    && m.hdr == GetMsgHdr(b, m.at) && m.payload == b[m.at + MSG_HEADER_BYTES..m.at + m.hdr.msgBytes]
  }

  /** The walk reads every message off the bytes, and stops only short of a header or at a malformed message. */
  lemma {:induction false} WalkIsExhaustive(b: seq<Byte>, pos: nat, end: nat)
    requires end <= |b|
    ensures var w := Walk(b, pos, end);
            var next := Reached(w.msgs, pos);
            && (forall i | 0 <= i < |w.msgs| :: ReadFrom(b, w.msgs[i], end))
            && (next + MSG_HEADER_BYTES > end ==> w.stop == Finished)
            && (next + MSG_HEADER_BYTES <= end ==> !MessageFits(b, next, end) && w.stop == BadMessage(next))
    decreases end - pos
  {
    if pos + MSG_HEADER_BYTES <= end && MessageFits(b, pos, end) {
      var m := MessageAt(b, pos, end);
      WalkIsExhaustive(b, After(m), end);
    }
  }

  /** For every validated frame, whatever its bytes. */
  lemma ValidFrameWalkStaysInside(b: seq<Byte>)
    requires Validate(b).Valid?
    ensures var end := Validate(b).hdr.frameBytes; Tiles(Walk(b, HEADER_BYTES, end).msgs, HEADER_BYTES, end)
  {
    WalkTiles(b, HEADER_BYTES, Validate(b).hdr.frameBytes);
  }

  lemma BuildHoldsHeader(frameId: nat, msgType: nat, msgId: nat, payload: seq<Byte>)
    requires Sendable(frameId, msgType, msgId, payload)
    ensures GetFrameHdr(Build(frameId, msgType, msgId, payload)) == FrameFor(frameId, payload)
  {
    var used := MSG_HEADER_BYTES + |payload|;
    var rest := PutMsgHdr(MsgFor(msgType, msgId, payload)) + payload + Zeros(Align4(used) - used);
    FrameHdrRoundTrip(FrameFor(frameId, payload), rest);
    assert Build(frameId, msgType, msgId, payload) == PutFrameHdr(FrameFor(frameId, payload)) + rest;
  }

  lemma FrameLengthIsAligned(frameId: nat, payload: seq<Byte>)
    ensures FrameFor(frameId, payload).frameBytes % 4 == 0 && FrameFor(frameId, payload).frameBytes >= HEADER_BYTES
  {
    assert Align4(MSG_HEADER_BYTES + |payload|) % 4 == 0;
  }

  lemma BuildValidates(frameId: nat, msgType: nat, msgId: nat, payload: seq<Byte>)
    requires Sendable(frameId, msgType, msgId, payload)
    ensures Validate(Build(frameId, msgType, msgId, payload)) == Valid(FrameFor(frameId, payload))
  {
    BuildHoldsHeader(frameId, msgType, msgId, payload);
    FrameLengthIsAligned(frameId, payload);
  }

  lemma BuildHoldsMessage(frameId: nat, msgType: nat, msgId: nat, payload: seq<Byte>)
    requires Sendable(frameId, msgType, msgId, payload)
    ensures var b := Build(frameId, msgType, msgId, payload);
            && GetMsgHdr(b, HEADER_BYTES) == MsgFor(msgType, msgId, payload)
            && b[HEADER_BYTES + MSG_HEADER_BYTES..HEADER_BYTES + MSG_HEADER_BYTES + |payload|] == payload
  {
    var fh, mh := PutFrameHdr(FrameFor(frameId, payload)), PutMsgHdr(MsgFor(msgType, msgId, payload));
    var used := MSG_HEADER_BYTES + |payload|;
    var pad := Zeros(Align4(used) - used);
    MsgHdrRoundTrip(fh, MsgFor(msgType, msgId, payload), payload + pad);
    assert Build(frameId, msgType, msgId, payload) == fh + mh + (payload + pad);
  }

  /** A built frame on the wire: the letters DRW1, and each field at its offset. */
  lemma BuildLayout(frameId: nat, msgType: nat, msgId: nat, payload: seq<Byte>)
    requires Sendable(frameId, msgType, msgId, payload)
    ensures var b := Build(frameId, msgType, msgId, payload);
            && b[..4] == [0x44, 0x52, 0x57, 0x31] && Get16(b, 4) == 0x0100 && Get16(b, 6) == 16
            && Get32(b, 8) == |b| && Get32(b, 12) == frameId
            && Get16(b, 16) == msgType && Get16(b, 18) == 0 && Get32(b, 20) == 16 + |payload|
            && Get32(b, 24) == msgId && Get32(b, 28) == 0 && b[32..32 + |payload|] == payload
  {
    BuildHoldsHeader(frameId, msgType, msgId, payload);
    BuildHoldsMessage(frameId, msgType, msgId, payload);
    var b := Build(frameId, msgType, msgId, payload);
    assert b[..4] == Le32(MAGIC);
  }

  lemma WalkOneMessage(b: seq<Byte>, h: MsgHdr, payload: seq<Byte>)
    requires HEADER_BYTES + MSG_HEADER_BYTES <= |b| == HEADER_BYTES + Align4(h.msgBytes)
    requires GetMsgHdr(b, HEADER_BYTES) == h && h.msgBytes == MSG_HEADER_BYTES + |payload| <= MAX_MSG_BYTES
    requires b[HEADER_BYTES + MSG_HEADER_BYTES..HEADER_BYTES + MSG_HEADER_BYTES + |payload|] == payload
    ensures Walk(b, HEADER_BYTES, |b|) == Walked([Message(HEADER_BYTES, h, payload)], Finished)
  {
    var m := MessageAt(b, HEADER_BYTES, |b|);
    assert m == Message(HEADER_BYTES, h, payload);
    AlignShifts(h.msgBytes);
    WalkAtEnd(b);
  }

  lemma WalkAtEnd(b: seq<Byte>)
    ensures Walk(b, |b|, |b|) == Walked([], Finished)
  {
  }

  /**
   What drawfs builds always validates, and the walk recovers exactly the one message if it
   is within the message limit; a longer one is refused at its header.
   */
  lemma BuildRoundTrips(frameId: nat, msgType: nat, msgId: nat, payload: seq<Byte>)
    requires Sendable(frameId, msgType, msgId, payload)
    ensures var b := Build(frameId, msgType, msgId, payload);
            && Validate(b) == Valid(FrameHdr(0x31575244, 0x0100, 16, |b|, frameId))
            && Walk(b, HEADER_BYTES, |b|) ==
                 if MSG_HEADER_BYTES + |payload| <= MAX_MSG_BYTES
                 then Walked([Message(16, MsgHdr(msgType, 0, 16 + |payload|, msgId, 0), payload)], Finished)
                 else Walked([], BadMessage(16))
  {
    BuildValidates(frameId, msgType, msgId, payload);
    BuildHoldsMessage(frameId, msgType, msgId, payload);
    if MSG_HEADER_BYTES + |payload| <= MAX_MSG_BYTES {
      WalkOneMessage(Build(frameId, msgType, msgId, payload), MsgFor(msgType, msgId, payload), payload);
    }
  }

  // ------------------------------------------------------------------------------------
  // The driver's own loops.
  // ------------------------------------------------------------------------------------

  /** drawfs_frame_build: a zeroed buffer, headers and payload copied into place. */
  method FrameBuild(frameId: nat, msgType: nat, msgId: nat, payload: seq<Byte>) returns (frame: array<Byte>)
    requires Sendable(frameId, msgType, msgId, payload)
    ensures fresh(frame) && frame[..] == Build(frameId, msgType, msgId, payload)
  {
    var head := PutFrameHdr(FrameFor(frameId, payload)) + PutMsgHdr(MsgFor(msgType, msgId, payload));
    var frameBytes := HEADER_BYTES + Align4(MSG_HEADER_BYTES + |payload|);
    frame := new Byte[frameBytes](_ => 0);
    var data := head + payload;
    for i := 0 to |data|
      invariant forall k | 0 <= k < frame.Length :: frame[k] == if k < i then data[k] else 0
    {
      frame[i] := data[i];
    }
    assert frame[..] == data + Zeros(frame.Length - |data|);
  }

  /**
   drawfs_process_frame: the messages it dispatches, in order. `refused` is the number of the
   message whose present reply is refused, if there is one that high.
   */
  method ProcessFrame(b: seq<Byte>, refused: nat) returns (msgs: seq<Message>, stop: Stop)
    ensures var v := Validate(b); v.Invalid? ==> msgs == [] && stop == BadFrame(v.error, v.offset)
    ensures Validate(b).Valid? ==>
              var w := Walk(b, HEADER_BYTES, GetFrameHdr(b).frameBytes);
              if refused < |w.msgs| then msgs == w.msgs[..refused + 1] && stop == Refused(refused)
              else Walked(msgs, stop) == w
  {
    var v := Validate(b);
    if v.Invalid? {
      return [], BadFrame(v.error, v.offset);
    }
    msgs, stop := WalkFrame(b, v.hdr.frameBytes, refused);
  }

  /** What has been dispatched, and then what a walk finds. */
  function Then(msgs: seq<Message>, w: Walked): Walked {
    Walked(msgs + w.msgs, w.stop)
  }

  lemma WalkTurn(b: seq<Byte>, pos: nat, end: nat, msgs: seq<Message>)
    requires pos + MSG_HEADER_BYTES <= end <= |b|
    ensures !MessageFits(b, pos, end) ==> Then(msgs, Walk(b, pos, end)) == Walked(msgs, BadMessage(pos))
    ensures MessageFits(b, pos, end) ==>
              var m := MessageAt(b, pos, end); Then(msgs, Walk(b, pos, end)) == Then(msgs + [m], Walk(b, After(m), end))
  {
    if MessageFits(b, pos, end) {
      var m := MessageAt(b, pos, end);
      assert msgs + ([m] + Walk(b, After(m), end).msgs) == msgs + [m] + Walk(b, After(m), end).msgs;
    }
  }

  /** The checks on one message header. */
  method TakeMessage(b: seq<Byte>, pos: nat, end: nat) returns (ok: bool, m: Message)
    requires pos + MSG_HEADER_BYTES <= end <= |b|
    ensures ok == MessageFits(b, pos, end)
    ensures ok ==> m == MessageAt(b, pos, end)
  {
    var h := GetMsgHdr(b, pos);
    m := Message(pos, h, []);
    if h.msgBytes < MSG_HEADER_BYTES || h.msgBytes > MAX_MSG_BYTES || pos + h.msgBytes > end {
      return false, m;
    }
    return true, Message(pos, h, b[pos + MSG_HEADER_BYTES..pos + h.msgBytes]);
  }

  /** The dispatch loop over the messages of a validated frame. */
  method WalkFrame(b: seq<Byte>, end: nat, refused: nat) returns (msgs: seq<Message>, stop: Stop)
    requires HEADER_BYTES <= end <= |b|
    ensures var w := Walk(b, HEADER_BYTES, end);
            if refused < |w.msgs| then msgs == w.msgs[..refused + 1] && stop == Refused(refused)
            else Walked(msgs, stop) == w
  {
    var pos := HEADER_BYTES;
    msgs := [];
    ghost var goal := Walk(b, pos, end);
    while pos + MSG_HEADER_BYTES <= end
      invariant |msgs| <= refused
      invariant Then(msgs, Walk(b, pos, end)) == goal
      decreases end - pos
    {
      WalkTurn(b, pos, end, msgs);
      var ok, m := TakeMessage(b, pos, end);
      if !ok {
        return msgs, BadMessage(pos);
      }
      msgs := msgs + [m];
      if |msgs| == refused + 1 {
        return msgs, Refused(refused);
      }
      pos := After(m);
    }
    stop := Finished;
  }
}
