/** The wire format byte by byte, and what every report that is not accepted is answered with. */
module CtaphidRules {
  import opened Basics
  import opened CtaphidFraming

  // ----- frames, byte by byte -----

  /** The channel id in the first four bytes, most significant first. */
  ghost predicate OnChannel(f: Report, cid: u32) {
    var b0: int, b1: int, b2: int, b3: int := f[0], f[1], f[2], f[3];
    b0 * 0x100_0000 + b1 * 0x1_0000 + b2 * 0x100 + b3 == cid
  }

  ghost predicate ZeroFrom(f: Report, n: nat) {
    forall i :: n <= i < 64 ==> f[i] == 0
  }

  /** A first frame: command with the high bit, declared length, data, zeros. */
  ghost predicate FirstFrame(f: Report, cid: u32, cmd: Command, len: int, data: seq<byte>) {
    && OnChannel(f, cid) && f[4] == 0x80 + cmd && (var hi: int := f[5]; hi * 256 + f[6] == len)
    && |data| <= 57 && f[7..7 + |data|] == data && ZeroFrom(f, 7 + |data|)
  }

  /** A later frame: sequence number, data, zeros. */
  ghost predicate LaterFrame(f: Report, cid: u32, number: int, data: seq<byte>) {
    OnChannel(f, cid) && f[4] == number && |data| <= 59 && f[5..5 + |data|] == data && ZeroFrom(f, 5 + |data|)
  }

  lemma FirstFrameBytes(cid: u32, cmd: Command, len: int, data: seq<byte>)
    requires 0 <= len < U16_MODULUS && |data| <= INIT_DATA
    ensures FirstFrame(InitFrame(cid, cmd, len, data), cid, cmd, len, data)
  {
    var f := InitFrame(cid, cmd, len, data);
    assert f[0] == Be32(cid)[0] && f[1] == Be32(cid)[1] && f[2] == Be32(cid)[2] && f[3] == Be32(cid)[3];
    assert f[5] == Be16(len)[0] && f[6] == Be16(len)[1];
  }

  lemma LaterFrameBytes(cid: u32, number: byte, data: seq<byte>)
    requires |data| <= CONT_DATA
    ensures LaterFrame(ContFrame(cid, number, data), cid, number, data)
  {
    var f := ContFrame(cid, number, data);
    assert f[0] == Be32(cid)[0] && f[1] == Be32(cid)[1] && f[2] == Be32(cid)[2] && f[3] == Be32(cid)[3];
  }

  /** The part of `data` carried by the `j`-th piece of 59 bytes. */
  function Piece(data: seq<byte>, j: nat): seq<byte>
    requires 59 * j <= |data|
  {
    data[59 * j..Min(59 * (j + 1), |data|)]
  }

  lemma {:induction false} LaterFramesBytes(cid: u32, rest: seq<byte>, k: nat, j: nat)
    requires 59 * j < |rest|
    ensures |ContFrames(cid, rest, k)| == (|rest| + 58) / 59 && j < |ContFrames(cid, rest, k)|
    ensures LaterFrame(ContFrames(cid, rest, k)[j], cid, (k + j) % 256, Piece(rest, j))
    decreases |rest|
  {
    var n := Min(|rest|, CONT_DATA);
    LaterFrameBytes(cid, k % 256, rest[..n]);
    if |rest| > 59 {
      var i := if j > 0 then j - 1 else 0;
      LaterFramesBytes(cid, rest[n..], k + 1, i);
      if j > 0 {
        assert Piece(rest[n..], j - 1) == Piece(rest, j);
      }
    } else {
      assert ContFrames(cid, rest[n..], k + 1) == [];
    }
    if j == 0 {
      assert Piece(rest, 0) == rest[..n];
    }
  }

  /**
   A message on the wire: the first 57 bytes behind the command and the length modulo 2^16, then
   59 bytes at a time behind sequence numbers counting from 0 modulo 256, padded with zeros.
   */
  lemma EncodeBytes(cid: u32, cmd: Command, payload: seq<byte>, j: nat)
    requires j == 0 || 57 + 59 * (j - 1) < |payload|
    ensures var frames := Encode(cid, cmd, payload);
            && |frames| == 1 + (if |payload| <= 57 then 0 else (|payload| + 1) / 59)
            && FirstFrame(frames[0], cid, cmd, |payload| % 0x1_0000, payload[..Min(57, |payload|)])
            && j < |frames|
            && (j > 0 ==> LaterFrame(frames[j], cid, (j - 1) % 256, Piece(payload[57..], j - 1)))
  {
    var n := Min(|payload|, INIT_DATA);
    EncodeParts(cid, cmd, payload);
    FirstFrameBytes(cid, cmd, |payload| % U16_MODULUS, payload[..n]);
    var frames, rest := Encode(cid, cmd, payload), payload[n..];
    if |payload| > 57 {
      LaterFramesBytes(cid, rest, 0, if j > 0 then j - 1 else 0);
      assert j > 0 ==> frames[j] == frames[1..][j - 1];
    }
  }

  /** A keepalive is one frame with command 0x3b and the single byte 1. */
  lemma KeepaliveBytes(cid: u32)
    ensures FirstFrame(KeepaliveProcessing(cid), cid, 0x3b, 1, [1])
  {
    EncodeBytes(cid, 0x3b, [1], 0);
    assert [1][..1] == [1];
  }

  // ----- refusals -----

  /** An error reply: one frame on the channel, command 0x3f, carrying the code. */
  ghost predicate Refusal(out: seq<Report>, cid: u32, code: byte) {
    |out| == 1 && FirstFrame(out[0], cid, 0x3f, 1, [code])
  }

  lemma ErrorReplyBytes(cid: u32, code: byte)
    ensures Refusal(ErrorReply(cid, code), cid, code)
  {
    EncodeBytes(cid, 0x3f, [code], 0);
    assert [code][..1] == [code];
  }

  /** While ids are safe, a channel counts as allocated exactly if some INIT reply of the run granted it. */
  lemma AllocatedIsGranted(reports: seq<Report>, cid: u32)
    requires |GrantedIds(NEW_HID, reports)| <= U32_MODULUS - 2
    ensures Allocated(Run(NEW_HID, reports), cid) <==> cid in GrantedIds(NEW_HID, reports)
  {
    var ids := GrantedIds(NEW_HID, reports);
    GrantedIdsCountUp(NEW_HID, reports);
    assert Run(NEW_HID, reports).nextCid == 1 + |ids|;
    if 1 <= cid <= |ids| {
      assert ids[cid - 1] == cid;
    }
  }

  /** A first frame on a channel never granted is refused with 0x0b and changes nothing. */
  lemma UngrantedIsRefused(reports: seq<Report>, r: Report)
    requires |GrantedIds(NEW_HID, reports)| <= U32_MODULUS - 2
    requires IsInitPacket(r) && !IsAllocation(r) && Cid(r) !in GrantedIds(NEW_HID, reports)
    ensures var s := Run(NEW_HID, reports);
            HandleReport(s, r).state == s && Refusal(HandleReport(s, r).out, Cid(r), 0x0b)
  {
    AllocatedIsGranted(reports, Cid(r));
    ErrorReplyBytes(Cid(r), 0x0b);
  }

  /** A first frame on a granted channel while any message is being collected is refused with 0x06. */
  lemma BusyIsRefused(reports: seq<Report>, r: Report)
    requires |GrantedIds(NEW_HID, reports)| <= U32_MODULUS - 2
    requires IsInitPacket(r) && !IsAllocation(r) && Cid(r) in GrantedIds(NEW_HID, reports)
    requires Run(NEW_HID, reports).pending.Some?
    ensures var s := Run(NEW_HID, reports);
            HandleReport(s, r).state == s && Refusal(HandleReport(s, r).out, Cid(r), 0x06)
  {
    AllocatedIsGranted(reports, Cid(r));
    ErrorReplyBytes(Cid(r), 0x06);
  }

  /** A continuation out of sequence drops the message being collected and is refused with 0x04. */
  lemma WrongSequenceAborts(s: Hid, r: Report)
    requires Framed(s) && s.pending.Some? && !IsInitPacket(r) && Cid(r) == s.pending.value.cid
    requires r[4] != s.pending.value.nextSeq
    ensures HandleReport(s, r).state == Hid(s.nextCid, None, s.complete)
    ensures Refusal(HandleReport(s, r).out, Cid(r), 0x04)
  {
    ErrorReplyBytes(Cid(r), 0x04);
  }

  /** A continuation of nothing is ignored. */
  lemma StrayIsIgnored(s: Hid, r: Report)
    requires Framed(s) && !IsInitPacket(r) && (s.pending.None? || Cid(r) != s.pending.value.cid)
    ensures HandleReport(s, r) == CtaphidFraming.Outcome(s, [])
  {
  }

  /** A completed message that is neither a ping nor CBOR is refused with 0x01. */
  lemma UnknownCommandIsRefused(s: Hid, r: Report)
    requires Framed(s) && Completed(s, r).Some?
    requires Completed(s, r).value.cmd != 0x01 && Completed(s, r).value.cmd != 0x10
    ensures HandleReport(s, r).state.complete == s.complete && HandleReport(s, r).state.pending.None?
    ensures Refusal(HandleReport(s, r).out, Cid(r), 0x01)
  {
    CompletionEffect(s, r);
    ErrorReplyBytes(Cid(r), 0x01);
  }
}
