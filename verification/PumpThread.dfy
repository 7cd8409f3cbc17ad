/** The daemon object as the program runs it: one lock-protected loop body and the calls that touch the same fields. */
module PumpThread {
  import opened Basics
  import opened CtaphidFraming
  import opened CtaphidDevice
  import opened PasskeyPump

  class Daemon {
    const hid: Ctaphid
    var inflight: Option<u32>
    var pendingResponse: Option<seq<byte>>
    var phase: Phase
    /** Packets the device file accepted. */
    var written: seq<Report>
    var emitted: seq<seq<byte>>
    ghost var heard: seq<Report>
    ghost var log: seq<Event>

    ghost function View(): World
      reads this, hid
    {
      World(hid.State(), inflight, pendingResponse, phase, heard, written, emitted, log)
    }

    constructor ()
      ensures View() == START && fresh(hid)
    {
      hid := new Ctaphid();
      inflight, pendingResponse, phase, written, emitted := None, None, Polling, [], [];
      heard, log := [], [];
    }

    /** Write packets until one fails; `budget` is how many the device accepts. */
    method WritePackets(packets: seq<Report>, budget: nat) returns (ok: bool)
      modifies this`written
      ensures written == old(written) + packets[..Min(budget, |packets|)]
      ensures ok <==> budget >= |packets|
    {
      var i := 0;
      while i < |packets|
        invariant 0 <= i <= Min(budget, |packets|)
        invariant written == old(written) + packets[..i]
      {
        if i == budget {
          return false;
        }
        written := written + [packets[i]];
        i := i + 1;
      }
      assert packets[..i] == packets;
      ok := true;
    }

    method SendResponse(t: Tick)
      modifies this
      ensures View() == WriteResponse(old(View()), t)
    {
      var taken := pendingResponse;
      pendingResponse := None;
      if taken.Some? && inflight.Some? {
        var packets := EncodeMessage(inflight.value, CMD_CBOR, taken.value);
        var ok := WritePackets(packets, t.responseWrites);
        log := log + [Response(inflight.value, taken.value, Min(t.responseWrites, |packets|))];
        if ok {
          inflight := None;
        } else {
          phase := Stopped;
        }
      }
    }

    method ReadReport(t: Tick)
      requires Framed(hid.State())
      modifies this, hid
      ensures View() == ReadHost(old(View()), t)
    {
      match t.read
      case Nothing =>
      case Failed =>
        phase := Stopped;
      case Host(report) =>
        var out := hid.Feed(report);
        heard := heard + [report];
        var ok := WritePackets(out, t.replyWrites);
        log := log + [Replies(out[..Min(t.replyWrites, |out|)])];
        if !ok {
          phase := Stopped;
          return;
        }
        var m := hid.TakeMessage();
        if m.Some? {
          inflight := Some(m.value.cid);
          phase := Emitting(m.value.payload);
          log := log + [Request(m.value.cid, m.value.payload)];
        }
    }

    method SendKeepalive(t: Tick)
      modifies this
      ensures View() == KeepAlive(old(View()), t)
    {
      if inflight.Some? && t.elapsed {
        var k := EncodeMessage(inflight.value, CMD_KEEPALIVE, [KEEPALIVE_PROCESSING]);
        if t.keepaliveWrite {
          written := written + [k[0]];
        }
        log := log + [Keepalive(inflight.value, t.keepaliveWrite)];
      }
    }

    /** The body of the pump loop, under the lock. */
    method PumpOnce(t: Tick)
      requires phase.Polling? && Framed(hid.State())
      modifies this, hid
      ensures View() == Iteration(old(View()), t)
    {
      SendResponse(t);
      if phase.Stopped? {
        return;
      }
      ReadReport(t);
      if phase.Stopped? {
        return;
      }
      SendKeepalive(t);
    }

    /** Outside the lock: hand the surfaced payload to the consent layer. */
    method EmitSurfaced()
      requires phase.Emitting? && Framed(hid.State())
      modifies this
      ensures View() == Act(old(View()), Emit)
    {
      emitted := emitted + [phase.payload];
      phase := Polling;
    }

    method HandBack(response: seq<byte>)
      requires Framed(hid.State())
      modifies this
      ensures View() == Act(old(View()), Respond(response))
    {
      pendingResponse := Some(response);
      log := log + [Handed(response)];
    }
  }
}
