/**
 CTAPHID framing: 64-byte HID reports to messages and back (section 11.2 of CTAP 2.1).

 `HandleReport` is the meaning of one report as a function on values; the class `Ctaphid`
 updates its fields in place and is proved to do exactly that.
 */
module CtaphidFraming {
  import opened Basics

  const BROADCAST_CID: u32 := 0xffff_ffff
  const FRAME_INIT: byte := 0x80
  const CMD_PING: byte := 0x01
  const CMD_INIT: byte := 0x06
  const CMD_CBOR: byte := 0x10
  const CMD_KEEPALIVE: byte := 0x3b
  const CMD_ERROR: byte := 0x3f
  const KEEPALIVE_PROCESSING: byte := 0x01
  const ERR_INVALID_COMMAND: byte := 0x01
  const ERR_INVALID_SEQ: byte := 0x04
  const ERR_CHANNEL_BUSY: byte := 0x06
  const ERR_INVALID_CHANNEL: byte := 0x0b
  const CAP_CBOR: byte := 0x04
  const CAP_NMSG: byte := 0x08
  const PROTOCOL_VERSION: byte := 2
  const INIT_PAYLOAD_LEN: int := 17

  /** Data bytes in an initialization packet and in a continuation packet. */
  const INIT_DATA: int := 57
  const CONT_DATA: int := 59
  /** 57 + 128 * 59: the most that sequence numbers 0..127 can carry. */
  const MAX_TRANSPORT: int := 7609

  type Report = r: seq<byte> | |r| == 64 witness Zeros(64)

  /** A command without its frame bit. */
  type Command = c: byte | c < 0x80

  datatype Message = Message(cid: u32, cmd: Command, payload: seq<byte>)

  datatype Pending = Pending(cid: u32, cmd: Command, total: nat, buf: seq<byte>, nextSeq: nat)

  datatype Hid = Hid(nextCid: u32, pending: Option<Pending>, complete: Option<Message>)

  datatype Outcome = Outcome(state: Hid, out: seq<Report>)

  const NEW_HID: Hid := Hid(1, None, None)

  function Cid(r: Report): u32 {
    FromBe32(r[0..4])
  }

  /** High bit of byte 4: an initialization packet. */
  predicate IsInitPacket(r: Report) {
    r[4] >= FRAME_INIT
  }

  predicate IsAllocation(r: Report) {
    Cid(r) == BROADCAST_CID && r[4] == 0x86
  }

  predicate Allocated(s: Hid, cid: u32) {
    1 <= cid < s.nextCid
  }

  /** The packet accounting every pending message obeys. */
  ghost predicate WellFramed(p: Pending) {
    && |p.buf| == INIT_DATA + CONT_DATA * p.nextSeq < p.total < U16_MODULUS
    && p.nextSeq <= 128
  }

  ghost predicate Framed(s: Hid) {
    s.pending.Some? ==> WellFramed(s.pending.value)
  }

  // ----- fragmentation -----

  function InitFrame(cid: u32, cmd: byte, total: int, data: seq<byte>): Report
    requires 0 <= total < U16_MODULUS && |data| <= INIT_DATA
  {
    Be32(cid) + [if cmd >= FRAME_INIT then cmd else FRAME_INIT + cmd] + Be16(total) + data + Zeros(INIT_DATA - |data|)
  }

  function ContFrame(cid: u32, seqNo: byte, data: seq<byte>): Report
    requires |data| <= CONT_DATA
  {
    Be32(cid) + [seqNo] + data + Zeros(CONT_DATA - |data|)
  }

  /** Continuation packets for `rest`; the sequence number is truncated to a byte. */
  function ContFrames(cid: u32, rest: seq<byte>, k: nat): seq<Report>
    decreases |rest|
  {
    if rest == [] then []
    else
      var n := Min(|rest|, CONT_DATA);
      [ContFrame(cid, k % 256, rest[..n])] + ContFrames(cid, rest[n..], k + 1)
  }

  /** The reports of one outbound message; the declared length is truncated to 16 bits. */
  function Encode(cid: u32, cmd: byte, payload: seq<byte>): (reports: seq<Report>)
    ensures |reports| >= 1
  {
    var n := Min(|payload|, INIT_DATA);
    [InitFrame(cid, cmd, |payload| % U16_MODULUS, payload[..n])] + ContFrames(cid, payload[n..], 0)
  }

  function ErrorReply(cid: u32, code: byte): seq<Report> {
    Encode(cid, CMD_ERROR, [code])
  }

  function KeepaliveProcessing(cid: u32): Report {
    Encode(cid, CMD_KEEPALIVE, [KEEPALIVE_PROCESSING])[0]
  }

  // ----- reassembly -----

  function InitResponse(cid: u32, r: Report): Report {
    Be32(BROADCAST_CID) + [0x86] + Be16(INIT_PAYLOAD_LEN) + r[7..15] + Be32(cid)
    + [PROTOCOL_VERSION, 0, 0, 0, CAP_CBOR + CAP_NMSG] + Zeros(40)
  }

  /** A reassembled message: PING is echoed, CBOR is queued, anything else is refused. */
  function Finish(s: Hid, m: Message): Outcome {
    if m.cmd == CMD_PING then Outcome(s, Encode(m.cid, CMD_PING, m.payload))
    else if m.cmd == CMD_CBOR then Outcome(s.(complete := Some(m)), [])
    else Outcome(s, ErrorReply(m.cid, ERR_INVALID_COMMAND))
  }

  function HandleReport(s: Hid, r: Report): (o: Outcome)
    requires Framed(s)
    ensures Framed(o.state)
  {
    var cid := Cid(r);
    if IsAllocation(r) then
      Outcome(s.(nextCid := (s.nextCid + 1) % U32_MODULUS), [InitResponse(s.nextCid, r)])
    else if IsInitPacket(r) then
      if !Allocated(s, cid) then Outcome(s, ErrorReply(cid, ERR_INVALID_CHANNEL))
      else if s.pending.Some? then Outcome(s, ErrorReply(cid, ERR_CHANNEL_BUSY))
      else
        var total := FromBe16(r[5], r[6]);
        var buf := r[7..7 + Min(total, INIT_DATA)];
        if |buf| == total then Finish(s, Message(cid, r[4] - FRAME_INIT, buf))
        else Outcome(s.(pending := Some(Pending(cid, r[4] - FRAME_INIT, total, buf, 0))), [])
    else if s.pending.Some? && s.pending.value.cid == cid then
      var p := s.pending.value;
      if r[4] != p.nextSeq then Outcome(s.(pending := None), ErrorReply(cid, ERR_INVALID_SEQ))
      else
        var buf := p.buf + r[5..5 + Min(p.total - |p.buf|, CONT_DATA)];
        if |buf| == p.total then Finish(s.(pending := None), Message(p.cid, p.cmd, buf))
        else Outcome(s.(pending := Some(p.(buf := buf, nextSeq := p.nextSeq + 1))), [])
    else Outcome(s, [])
  }

  /** The message a report completes, if any, read off the packet accounting alone. */
  function Completed(s: Hid, r: Report): Option<Message>
    requires Framed(s)
  {
    if IsInitPacket(r) then
      if !IsAllocation(r) && Allocated(s, Cid(r)) && s.pending.None? && FromBe16(r[5], r[6]) <= INIT_DATA
      then Some(Message(Cid(r), r[4] - FRAME_INIT, r[7..7 + FromBe16(r[5], r[6])]))
      else None
    else if s.pending.Some? && s.pending.value.cid == Cid(r) && r[4] == s.pending.value.nextSeq
            && s.pending.value.total - |s.pending.value.buf| <= CONT_DATA then
      var p := s.pending.value;
      Some(Message(p.cid, p.cmd, p.buf + r[5..5 + p.total - |p.buf|]))
    else None
  }

  // ----- runs -----

  function Run(s: Hid, reports: seq<Report>): (t: Hid)
    requires Framed(s)
    ensures Framed(t)
    decreases |reports|
  {
    if reports == [] then s else Run(HandleReport(s, reports[0]).state, reports[1..])
  }

  /** Every message completed along a run, in order. */
  function Deliveries(s: Hid, reports: seq<Report>): seq<Message>
    requires Framed(s)
    decreases |reports|
  {
    if reports == [] then []
    else
      var rest := Deliveries(HandleReport(s, reports[0]).state, reports[1..]);
      match Completed(s, reports[0])
      case Some(m) => [m] + rest
      case None => rest
  }

  /** The reply to the last report of a run. */
  function FinalReply(s: Hid, reports: seq<Report>): seq<Report>
    requires Framed(s) && reports != []
    decreases |reports|
  {
    var o := HandleReport(s, reports[0]);
    if |reports| == 1 then o.out else FinalReply(o.state, reports[1..])
  }

  lemma {:induction false} RunAppend(s: Hid, xs: seq<Report>, ys: seq<Report>)
    requires Framed(s)
    ensures Run(s, xs + ys) == Run(Run(s, xs), ys)
    ensures Deliveries(s, xs + ys) == Deliveries(s, xs) + Deliveries(Run(s, xs), ys)
    decreases |xs|
  {
    if xs == [] {
      assert xs + ys == ys;
    } else {
      assert (xs + ys)[1..] == xs[1..] + ys;
      RunAppend(HandleReport(s, xs[0]).state, xs[1..], ys);
    }
  }

  /** `HandleReport` completes exactly what `Completed` says, and answers it by its command. */
  lemma CompletionEffect(s: Hid, r: Report)
    requires Framed(s)
    ensures var o := HandleReport(s, r);
            match Completed(s, r)
            case Some(m) =>
              && o.state.pending.None? && m.cid == Cid(r)
              && o.state.complete == (if m.cmd == CMD_CBOR then Some(m) else s.complete)
              && o.out == (if m.cmd == CMD_CBOR then []
                           else if m.cmd == CMD_PING then Encode(m.cid, CMD_PING, m.payload)
                           else ErrorReply(m.cid, ERR_INVALID_COMMAND))
            case None => o.state.complete == s.complete
  {
  }

  // ----- reassembly invariant -----

  lemma CompletedIsTransportable(s: Hid, r: Report)
    requires Framed(s)
    ensures Completed(s, r).Some? ==> |Completed(s, r).value.payload| <= MAX_TRANSPORT
  {
  }

  /**
   Over every report sequence: pending messages keep the packet accounting, the sequence
   counter stays at most 128, and nothing longer than 7609 bytes ever completes.
   */
  lemma {:induction false} ReassemblyInvariant(s: Hid, reports: seq<Report>)
    requires Framed(s)
    ensures Run(s, reports).pending.Some? ==>
              var p := Run(s, reports).pending.value;
              |p.buf| == 57 + 59 * p.nextSeq < p.total && p.nextSeq <= 128
    ensures forall m :: m in Deliveries(s, reports) ==> |m.payload| <= MAX_TRANSPORT
    decreases |reports|
  {
    if reports != [] {
      CompletedIsTransportable(s, reports[0]);
      ReassemblyInvariant(HandleReport(s, reports[0]).state, reports[1..]);
    }
  }

  // ----- channel isolation -----

  lemma {:induction false} ContFramesOnChannel(cid: u32, rest: seq<byte>, k: nat)
    ensures forall f :: f in ContFrames(cid, rest, k) ==> Cid(f) == cid
    decreases |rest|
  {
    if rest != [] {
      var n := Min(|rest|, CONT_DATA);
      var f := ContFrame(cid, k % 256, rest[..n]);
      assert f[0..4] == Be32(cid);
      Be32RoundTrip(cid);
      ContFramesOnChannel(cid, rest[n..], k + 1);
    }
  }

  lemma EncodeOnChannel(cid: u32, cmd: byte, payload: seq<byte>)
    ensures forall f :: f in Encode(cid, cmd, payload) ==> Cid(f) == cid
  {
    var n := Min(|payload|, INIT_DATA);
    var f := InitFrame(cid, cmd, |payload| % U16_MODULUS, payload[..n]);
    assert f[0..4] == Be32(cid);
    Be32RoundTrip(cid);
    ContFramesOnChannel(cid, payload[n..], 0);
  }

  /** Every reply is addressed to the channel of the report that caused it. */
  lemma RepliesOnOwnChannel(s: Hid, r: Report)
    requires Framed(s)
    ensures forall f :: f in HandleReport(s, r).out ==> Cid(f) == Cid(r)
  {
    var cid := Cid(r);
    if IsAllocation(r) {
      assert InitResponse(s.nextCid, r)[0..4] == Be32(BROADCAST_CID);
      Be32RoundTrip(BROADCAST_CID);
    } else {
      forall cmd: byte, payload ensures forall f :: f in Encode(cid, cmd, payload) ==> Cid(f) == cid {
        EncodeOnChannel(cid, cmd, payload);
      }
    }
  }

  /** A report that is not a continuation on the pending channel leaves the pending message alone. */
  lemma PendingUndisturbed(s: Hid, r: Report)
    requires Framed(s) && s.pending.Some?
    requires IsInitPacket(r) || Cid(r) != s.pending.value.cid
    ensures HandleReport(s, r).state.pending == s.pending
    ensures HandleReport(s, r).state.complete == s.complete
    ensures Completed(s, r).None?
  {
  }

  /** Channel ids handed out along a run, as the host decodes them from the replies. */
  function GrantedIds(s: Hid, reports: seq<Report>): seq<u32>
    requires Framed(s)
    decreases |reports|
  {
    if reports == [] then []
    else
      var o := HandleReport(s, reports[0]);
      (if IsAllocation(reports[0]) then [FromBe32(o.out[0][15..19])] else []) + GrantedIds(o.state, reports[1..])
  }

  ghost predicate SafeIds(ids: seq<u32>) {
    && (forall i :: 0 <= i < |ids| ==> ids[i] != 0 && ids[i] != BROADCAST_CID)
    && (forall i, j :: 0 <= i < j < |ids| ==> ids[i] != ids[j])
  }

  lemma WrapTwice(a: int, i: int)
    requires 0 <= a < U32_MODULUS && i >= 0
    ensures ((a + 1) % U32_MODULUS + i) % U32_MODULUS == (a + 1 + i) % U32_MODULUS
  {
  }

  /** An INIT reply echoes the nonce on the broadcast channel, carries the new id, and declares 17 bytes. */
  lemma InitResponseCarriesId(cid: u32, r: Report)
    ensures var reply := InitResponse(cid, r);
            && Cid(reply) == BROADCAST_CID && reply[4] == FRAME_INIT + CMD_INIT
            && FromBe16(reply[5], reply[6]) == INIT_PAYLOAD_LEN
            && reply[7..15] == r[7..15] && FromBe32(reply[15..19]) == cid
            && reply[19] == PROTOCOL_VERSION && reply[23] == CAP_CBOR + CAP_NMSG
  {
    var reply := InitResponse(cid, r);
    assert reply[0..4] == Be32(BROADCAST_CID) && reply[15..19] == Be32(cid) && reply[7..15] == r[7..15];
    Be32RoundTrip(cid);
    Be32RoundTrip(BROADCAST_CID);
  }

  lemma AllocationStep(s: Hid, r: Report)
    requires Framed(s)
    ensures IsAllocation(r) ==>
              && HandleReport(s, r).state.nextCid == (s.nextCid + 1) % U32_MODULUS
              && FromBe32(HandleReport(s, r).out[0][15..19]) == s.nextCid
    ensures !IsAllocation(r) ==> HandleReport(s, r).state.nextCid == s.nextCid
  {
    InitResponseCarriesId(s.nextCid, r);
  }

  /** The ids a device holding `next` hands out: counting up, wrapping at 2^32. */
  function IdAt(next: u32, i: nat): u32 {
    (next + i) % U32_MODULUS
  }

  /** Ids counting up from `next`. */
  ghost predicate CountsFrom(ids: seq<u32>, next: u32) {
    forall i :: 0 <= i < |ids| ==> ids[i] == IdAt(next, i)
  }

  lemma CountsCons(next: u32, ids: seq<u32>)
    requires CountsFrom(ids, IdAt(next, 1))
    ensures CountsFrom([next] + ids, next) && IdAt(IdAt(next, 1), |ids|) == IdAt(next, |ids| + 1)
  {
    forall i | 0 <= i <= |ids| ensures IdAt(IdAt(next, 1), i) == IdAt(next, i + 1) {
      WrapTwice(next, i);
    }
  }

  lemma GrantedStep(s: Hid, reports: seq<Report>)
    requires Framed(s) && reports != []
    ensures var t := HandleReport(s, reports[0]).state;
            var rest := GrantedIds(t, reports[1..]);
            && GrantedIds(s, reports) == (if IsAllocation(reports[0]) then [s.nextCid] + rest else rest)
            && t.nextCid == if IsAllocation(reports[0]) then IdAt(s.nextCid, 1) else s.nextCid
  {
    AllocationStep(s, reports[0]);
  }

  lemma {:induction false} GrantedIdsCountUp(s: Hid, reports: seq<Report>)
    requires Framed(s)
    ensures var ids := GrantedIds(s, reports);
            CountsFrom(ids, s.nextCid) && Run(s, reports).nextCid == IdAt(s.nextCid, |ids|)
    decreases |reports|
  {
    if reports != [] {
      var t := HandleReport(s, reports[0]).state;
      GrantedStep(s, reports);
      GrantedIdsCountUp(t, reports[1..]);
      if IsAllocation(reports[0]) {
        CountsCons(s.nextCid, GrantedIds(t, reports[1..]));
      }
    }
  }

  lemma CountingIsSafeExactly(ids: seq<u32>)
    requires CountsFrom(ids, 1)
    ensures SafeIds(ids) <==> |ids| <= U32_MODULUS - 2
  {
    if |ids| > U32_MODULUS - 2 {
      assert ids[U32_MODULUS - 2] == BROADCAST_CID;
    }
  }

  /**
   From a fresh device, the ids granted along a run are distinct and never reserved
   exactly when the run holds at most 2^32 - 2 allocations: the next one grants the
   broadcast id.
   */
  lemma ChannelIdsSafeExactly(reports: seq<Report>)
    ensures SafeIds(GrantedIds(NEW_HID, reports)) <==> |GrantedIds(NEW_HID, reports)| <= U32_MODULUS - 2
  {
    GrantedIdsCountUp(NEW_HID, reports);
    CountingIsSafeExactly(GrantedIds(NEW_HID, reports));
  }

  lemma PendingStaysAllocated(s: Hid, r: Report)
    requires Framed(s) && s.nextCid + (if IsAllocation(r) then 1 else 0) < U32_MODULUS
    requires s.pending.Some? ==> Allocated(s, s.pending.value.cid)
    ensures var t := HandleReport(s, r).state;
            t.pending.Some? ==> Allocated(t, t.pending.value.cid)
    ensures HandleReport(s, r).state.nextCid == s.nextCid + (if IsAllocation(r) then 1 else 0)
  {
  }

  /** While ids are safe, a pending message always sits on an allocated channel. */
  lemma {:induction false} PendingOnAllocatedChannel(s: Hid, reports: seq<Report>)
    requires Framed(s) && s.nextCid >= 1
    requires s.pending.Some? ==> Allocated(s, s.pending.value.cid)
    requires s.nextCid + |GrantedIds(s, reports)| < U32_MODULUS
    ensures var t := Run(s, reports);
            t.pending.Some? ==> Allocated(t, t.pending.value.cid)
    decreases |reports|
  {
    if reports != [] {
      PendingStaysAllocated(s, reports[0]);
      PendingOnAllocatedChannel(HandleReport(s, reports[0]).state, reports[1..]);
    }
  }

  // ----- reassembly inverts fragmentation under interference -----

  /** Anything but a continuation packet on `cid`. */
  predicate Noise(cid: u32, r: Report) {
    IsInitPacket(r) || Cid(r) != cid
  }

  /** `reports` is `frames` in order, ending with the last frame, with noise for `cid` in between. */
  ghost predicate Interleaved(frames: seq<Report>, reports: seq<Report>, cid: u32)
    decreases |reports|
  {
    if frames == [] then reports == []
    else
      && reports != []
      && (|| (reports[0] == frames[0] && Interleaved(frames[1..], reports[1..], cid))
          || (Noise(cid, reports[0]) && Interleaved(frames, reports[1..], cid)))
  }

  lemma ContFrameFields(cid: u32, seqNo: byte, data: seq<byte>)
    requires |data| <= CONT_DATA && seqNo < 0x80
    ensures var f := ContFrame(cid, seqNo, data);
            Cid(f) == cid && f[4] == seqNo && !IsInitPacket(f) && f[5..5 + |data|] == data
  {
    var f := ContFrame(cid, seqNo, data);
    assert f[0..4] == Be32(cid);
    Be32RoundTrip(cid);
  }

  lemma InitFrameFields(cid: u32, cmd: Command, total: int, data: seq<byte>)
    requires 0 <= total < U16_MODULUS && |data| <= INIT_DATA
    ensures var f := InitFrame(cid, cmd, total, data);
            && Cid(f) == cid && f[4] == FRAME_INIT + cmd && FromBe16(f[5], f[6]) == total
            && f[7..7 + |data|] == data
  {
    var f := InitFrame(cid, cmd, total, data);
    assert f[0..4] == Be32(cid);
    Be32RoundTrip(cid);
  }

  /** The state after `k` continuation packets of `payload` have arrived. */
  ghost predicate Collecting(s: Hid, cid: u32, cmd: Command, payload: seq<byte>, k: nat) {
    && 57 + 59 * k < |payload| <= MAX_TRANSPORT
    && s.pending == Some(Pending(cid, cmd, |payload|, payload[..57 + 59 * k], k))
  }

  /** What delivering `m` once, at the last report, looks like from outside. */
  ghost predicate DeliversOnce(s: Hid, reports: seq<Report>, m: Message)
    requires Framed(s)
  {
    && reports != []
    && Deliveries(s, reports) == [m]
    && Run(s, reports).pending.None?
    && Run(s, reports).complete == (if m.cmd == CMD_CBOR then Some(m) else s.complete)
    && FinalReply(s, reports) == (if m.cmd == CMD_CBOR then []
                                  else if m.cmd == CMD_PING then Encode(m.cid, CMD_PING, m.payload)
                                  else ErrorReply(m.cid, ERR_INVALID_COMMAND))
  }

  lemma AcceptInitPacket(s: Hid, cid: u32, cmd: Command, payload: seq<byte>, r: Report)
    requires Framed(s) && Allocated(s, cid) && s.pending.None? && |payload| <= MAX_TRANSPORT
    requires Cid(r) == cid && r[4] == FRAME_INIT + cmd && FromBe16(r[5], r[6]) == |payload|
    requires r[7..7 + Min(|payload|, INIT_DATA)] == payload[..Min(|payload|, INIT_DATA)]
    ensures |payload| <= INIT_DATA ==> Completed(s, r) == Some(Message(cid, cmd, payload))
    ensures |payload| > INIT_DATA ==>
              Completed(s, r).None? && Collecting(HandleReport(s, r).state, cid, cmd, payload, 0)
              && HandleReport(s, r).state.complete == s.complete
  {
    assert cid != BROADCAST_CID;
    if |payload| <= INIT_DATA {
      assert payload[..|payload|] == payload;
    }
  }

  lemma AcceptContinuation(s: Hid, cid: u32, cmd: Command, payload: seq<byte>, k: nat, r: Report)
    requires Framed(s) && Collecting(s, cid, cmd, payload, k)
    requires r == ContFrames(cid, payload[57 + 59 * k..], k)[0]
    ensures 57 + 59 * (k + 1) < |payload| ==>
              Completed(s, r).None? && Collecting(HandleReport(s, r).state, cid, cmd, payload, k + 1)
              && HandleReport(s, r).state.complete == s.complete
    ensures 57 + 59 * (k + 1) >= |payload| ==> Completed(s, r) == Some(Message(cid, cmd, payload))
  {
    var rest := payload[57 + 59 * k..];
    var n := Min(|rest|, CONT_DATA);
    ContFrameFields(cid, k, rest[..n]);
    assert r[5..5 + n] == rest[..n];
    PrefixGrows(payload, 57 + 59 * k, n);
  }

  lemma PrefixGrows(payload: seq<byte>, a: nat, n: nat)
    requires a + n <= |payload|
    ensures payload[..a] + payload[a..][..n] == payload[..a + n]
    ensures a + n == |payload| ==> payload[..a + n] == payload
  {
  }

  /** The frames after the first carry the rest of the payload. */
  lemma NextFrames(cid: u32, payload: seq<byte>, k: nat)
    requires 57 + 59 * k < |payload|
    ensures var frames := ContFrames(cid, payload[57 + 59 * k..], k);
            && frames != []
            && frames[1..] == ContFrames(cid, payload[Min(57 + 59 * (k + 1), |payload|)..], k + 1)
  {
    var rest := payload[57 + 59 * k..];
    var n := Min(|rest|, CONT_DATA);
    assert rest[n..] == payload[57 + 59 * k + n..];
  }

  /** A report that completes the message delivers it there and then. */
  lemma DeliversNow(s: Hid, r: Report, m: Message)
    requires Framed(s) && Completed(s, r) == Some(m)
    ensures DeliversOnce(s, [r], m)
  {
    CompletionEffect(s, r);
    assert [r][1..] == [];
  }

  /** A report that completes nothing leaves the delivery to the rest of the run. */
  lemma DeliversLater(s: Hid, reports: seq<Report>, m: Message)
    requires Framed(s) && reports != [] && Completed(s, reports[0]).None?
    requires HandleReport(s, reports[0]).state.complete == s.complete
    requires DeliversOnce(HandleReport(s, reports[0]).state, reports[1..], m)
    ensures DeliversOnce(s, reports, m)
  {
  }

  lemma {:induction false} CollectToTheEnd(
    s: Hid, cid: u32, cmd: Command, payload: seq<byte>, k: nat, reports: seq<Report>)
    requires Framed(s) && Collecting(s, cid, cmd, payload, k)
    requires Interleaved(ContFrames(cid, payload[57 + 59 * k..], k), reports, cid)
    ensures DeliversOnce(s, reports, Message(cid, cmd, payload))
    decreases |reports|
  {
    var frames := ContFrames(cid, payload[57 + 59 * k..], k);
    var r := reports[0];
    var t := HandleReport(s, r).state;
    NextFrames(cid, payload, k);
    if r == frames[0] && Interleaved(frames[1..], reports[1..], cid) {
      AcceptContinuation(s, cid, cmd, payload, k, r);
      if 57 + 59 * (k + 1) < |payload| {
        CollectToTheEnd(t, cid, cmd, payload, k + 1, reports[1..]);
        DeliversLater(s, reports, Message(cid, cmd, payload));
      } else {
        assert reports == [r];
        DeliversNow(s, r, Message(cid, cmd, payload));
      }
    } else {
      PendingUndisturbed(s, r);
      CollectToTheEnd(t, cid, cmd, payload, k, reports[1..]);
      DeliversLater(s, reports, Message(cid, cmd, payload));
    }
  }

  lemma EncodeParts(cid: u32, cmd: byte, payload: seq<byte>)
    ensures var n := Min(|payload|, INIT_DATA);
            && Encode(cid, cmd, payload)[0] == InitFrame(cid, cmd, |payload| % U16_MODULUS, payload[..n])
            && Encode(cid, cmd, payload)[1..] == ContFrames(cid, payload[n..], 0)
  {
  }

  lemma FirstFrameFields(cid: u32, cmd: Command, payload: seq<byte>)
    requires |payload| <= MAX_TRANSPORT
    ensures var r, n := Encode(cid, cmd, payload)[0], Min(|payload|, INIT_DATA);
            && Cid(r) == cid && r[4] == FRAME_INIT + cmd && FromBe16(r[5], r[6]) == |payload|
            && r[7..7 + n] == payload[..n]
  {
    EncodeParts(cid, cmd, payload);
    InitFrameFields(cid, cmd, |payload|, payload[..Min(|payload|, INIT_DATA)]);
  }

  /**
   Reassembly inverts fragmentation under interference: with nothing pending and `cid`
   allocated, the frames of a payload of at most 7609 bytes, with any reports in between
   except continuations on `cid`, deliver that payload once and byte for byte.
   */
  lemma ReassemblyInvertsFragmentation(
    s: Hid, cid: u32, cmd: Command, payload: seq<byte>, reports: seq<Report>)
    requires Framed(s) && Allocated(s, cid) && s.pending.None?
    requires |payload| <= MAX_TRANSPORT
    requires var frames := Encode(cid, cmd, payload);
             reports != [] && reports[0] == frames[0] && Interleaved(frames[1..], reports[1..], cid)
    ensures DeliversOnce(s, reports, Message(cid, cmd, payload))
  {
    var r := reports[0];
    EncodeParts(cid, cmd, payload);
    FirstFrameFields(cid, cmd, payload);
    AcceptInitPacket(s, cid, cmd, payload, r);
    if |payload| <= INIT_DATA {
      assert reports == [r];
      DeliversNow(s, r, Message(cid, cmd, payload));
    } else {
      CollectToTheEnd(HandleReport(s, r).state, cid, cmd, payload, 0, reports[1..]);
      DeliversLater(s, reports, Message(cid, cmd, payload));
    }
  }

  lemma {:induction false} FramesAloneInterleave(frames: seq<Report>, cid: u32)
    ensures Interleaved(frames, frames, cid)
    decreases |frames|
  {
    if frames != [] {
      FramesAloneInterleave(frames[1..], cid);
    }
  }

  /** Feeding a message's own frames delivers it exactly when it has at most 7609 bytes. */
  lemma TransportableExactly(s: Hid, cid: u32, cmd: Command, payload: seq<byte>)
    requires Framed(s) && Allocated(s, cid) && s.pending.None?
    ensures Deliveries(s, Encode(cid, cmd, payload)) == [Message(cid, cmd, payload)]
            <==> |payload| <= MAX_TRANSPORT
  {
    var frames := Encode(cid, cmd, payload);
    if |payload| <= MAX_TRANSPORT {
      FramesAloneInterleave(frames[1..], cid);
      ReassemblyInvertsFragmentation(s, cid, cmd, payload, frames);
    } else {
      ReassemblyInvariant(s, frames);
      assert Message(cid, cmd, payload) !in Deliveries(s, frames);
    }
  }
}
