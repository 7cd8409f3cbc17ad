/**
 The framing state machine as the program runs it: fields updated in place, frames filled
 byte array by byte array.
 */
module CtaphidDevice {
  import opened Basics
  import opened CtaphidFraming

  /** `copy_from_slice` into a fixed buffer. */
  method CopyInto(a: array<byte>, at: nat, data: seq<byte>)
    requires at + |data| <= a.Length
    modifies a
    ensures forall i :: 0 <= i < a.Length ==> a[i] == if at <= i < at + |data| then data[i - at] else old(a[i])
  {
    forall i | 0 <= i < |data| {
      a[at + i] := data[i];
    }
  }

  method FillInitFrame(cid: u32, cmd: byte, total: int, data: seq<byte>) returns (r: Report)
    requires 0 <= total < U16_MODULUS && |data| <= INIT_DATA
    ensures r == InitFrame(cid, cmd, total, data)
  {
    var a := new byte[64](_ => 0);
    CopyInto(a, 0, Be32(cid));
    a[4] := if cmd >= FRAME_INIT then cmd else FRAME_INIT + cmd;
    CopyInto(a, 5, Be16(total));
    CopyInto(a, 7, data);
    r := a[..];
    assert r == InitFrame(cid, cmd, total, data);
  }

  method FillContFrame(cid: u32, seqNo: byte, data: seq<byte>) returns (r: Report)
    requires |data| <= CONT_DATA
    ensures r == ContFrame(cid, seqNo, data)
  {
    var a := new byte[64](_ => 0);
    CopyInto(a, 0, Be32(cid));
    a[4] := seqNo;
    CopyInto(a, 5, data);
    r := a[..];
    assert r == ContFrame(cid, seqNo, data);
  }

  method EncodeMessage(cid: u32, cmd: byte, payload: seq<byte>) returns (reports: seq<Report>)
    ensures reports == Encode(cid, cmd, payload)
  {
    var n := Min(|payload|, INIT_DATA);
    var r := FillInitFrame(cid, cmd, |payload| % U16_MODULUS, payload[..n]);
    reports := [r];
    var rest := payload[n..];
    var k := 0;
    while rest != []
      invariant reports + ContFrames(cid, rest, k) == Encode(cid, cmd, payload)
      decreases |rest|
    {
      var m := Min(|rest|, CONT_DATA);
      var c := FillContFrame(cid, k % 256, rest[..m]);
      assert reports + ContFrames(cid, rest, k) == (reports + [c]) + ContFrames(cid, rest[m..], k + 1);
      reports, rest, k := reports + [c], rest[m..], k + 1;
    }
    assert reports + [] == reports;
  }

  class Ctaphid {
    var nextCid: u32
    var pending: Option<Pending>
    var complete: Option<Message>

    ghost function State(): Hid
      reads this
    {
      Hid(nextCid, pending, complete)
    }

    constructor ()
      ensures State() == NEW_HID
    {
      nextCid, pending, complete := 1, None, None;
    }

    method Feed(report: Report) returns (out: seq<Report>)
      requires Framed(State())
      modifies this
      ensures Outcome(State(), out) == HandleReport(old(State()), report)
    {
      var cid := FromBe32(report[0..4]);
      if cid == BROADCAST_CID && report[4] == 0x86 {
        var r := AllocateChannel(report);
        return [r];
      }
      if report[4] >= FRAME_INIT {
        if !(1 <= cid < nextCid) {
          out := EncodeMessage(cid, CMD_ERROR, [ERR_INVALID_CHANNEL]);
        } else if pending.Some? {
          out := EncodeMessage(cid, CMD_ERROR, [ERR_CHANNEL_BUSY]);
        } else {
          var cmd: Command := report[4] - FRAME_INIT;
          var total := FromBe16(report[5], report[6]);
          var buf := report[7..7 + Min(total, INIT_DATA)];
          if |buf| == total {
            out := FinishMessage(Message(cid, cmd, buf));
          } else {
            pending := Some(Pending(cid, cmd, total, buf, 0));
            out := [];
          }
        }
      } else if pending.Some? && pending.value.cid == cid {
        var p := pending.value;
        if report[4] != p.nextSeq {
          pending := None;
          out := EncodeMessage(cid, CMD_ERROR, [ERR_INVALID_SEQ]);
        } else {
          var buf := p.buf + report[5..5 + Min(p.total - |p.buf|, CONT_DATA)];
          if |buf| == p.total {
            pending := None;
            out := FinishMessage(Message(p.cid, p.cmd, buf));
          } else {
            pending := Some(p.(buf := buf, nextSeq := p.nextSeq + 1));
            out := [];
          }
        }
      } else {
        out := [];
      }
    }

    method AllocateChannel(report: Report) returns (r: Report)
      modifies this`nextCid
      ensures nextCid == (old(nextCid) + 1) % U32_MODULUS
      ensures r == InitResponse(old(nextCid), report)
    {
      var cid := nextCid;
      nextCid := (nextCid + 1) % U32_MODULUS;
      var a := new byte[64](_ => 0);
      CopyInto(a, 0, Be32(BROADCAST_CID));
      a[4] := 0x86;
      CopyInto(a, 5, Be16(INIT_PAYLOAD_LEN));
      CopyInto(a, 7, report[7..15]);
      CopyInto(a, 15, Be32(cid));
      a[19] := PROTOCOL_VERSION;
      a[23] := CAP_CBOR + CAP_NMSG;
      r := a[..];
      assert r == InitResponse(cid, report);
    }

    method FinishMessage(m: Message) returns (out: seq<Report>)
      modifies this`complete
      ensures Outcome(State(), out) == Finish(old(State()), m)
    {
      if m.cmd == CMD_PING {
        out := EncodeMessage(m.cid, CMD_PING, m.payload);
      } else if m.cmd == CMD_CBOR {
        complete := Some(m);
        out := [];
      } else {
        out := EncodeMessage(m.cid, CMD_ERROR, [ERR_INVALID_COMMAND]);
      }
    }

    method TakeMessage() returns (m: Option<Message>)
      modifies this`complete
      ensures m == old(complete) && complete == None
    {
      m := complete;
      complete := None;
    }
  }
}
