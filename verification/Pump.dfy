/**
 The passkey daemon's pump thread and the `respond` calls it shares state with.

 A `World` is the shared state plus what an observer sees: the reports heard from the host,
 the packets written, the payloads emitted to the consent layer, and a log of events. One
 pump iteration under the lock, the emission after it, one `respond` and one stop request
 are the atomic actions; a run is any sequence of them.
 */
module PasskeyPump {
  import opened Basics
  import opened CtaphidFraming

  datatype Event =
    | Request(cid: u32, payload: seq<byte>)                  // became the in-flight request
    | Handed(response: seq<byte>)                            // respond() stored a response
    | Response(cid: u32, response: seq<byte>, sent: nat)     // written: `sent` of its packets
    | Keepalive(cid: u32, written: bool)
    | Replies(packets: seq<Report>)                          // transport-level replies

  datatype Phase = Polling | Emitting(payload: seq<byte>) | Stopped

  datatype World = World(
    hid: Hid, inflight: Option<u32>, response: Option<seq<byte>>, phase: Phase,
    heard: seq<Report>, wire: seq<Report>, emitted: seq<seq<byte>>, log: seq<Event>)

  datatype ReadResult = Nothing | Host(report: Report) | Failed

  /**
   The environment's choices for one iteration: what the read yields, how many writes succeed,
   whether 100 ms passed.
   */
  datatype Tick = Tick(read: ReadResult, responseWrites: nat, replyWrites: nat, elapsed: bool, keepaliveWrite: bool)

  datatype Action = Iterate(tick: Tick) | Emit | Respond(resp: seq<byte>) | Halt

  const START: World := World(NEW_HID, None, None, Polling, [], [], [], [])

  // ----- one pump iteration -----

  /** 1. Write a response handed back, framed on the in-flight channel; take it either way. */
  function WriteResponse(w: World, t: Tick): World {
    if w.response.Some? && w.inflight.Some? then
      var cid, resp := w.inflight.value, w.response.value;
      var packets := Encode(cid, CMD_CBOR, resp);
      var sent := Min(t.responseWrites, |packets|);
      var w' := w.(response := None, wire := w.wire + packets[..sent], log := w.log + [Response(cid, resp, sent)]);
      if sent < |packets| then w'.(phase := Stopped) else w'.(inflight := None)
    else w.(response := None)
  }

  /** 2. Read one host report, answer it, and take a message it completed. */
  function ReadHost(w: World, t: Tick): World
    requires Framed(w.hid)
  {
    match t.read
    case Nothing => w
    case Failed => w.(phase := Stopped)
    case Host(report) =>
      var o := HandleReport(w.hid, report);
      var sent := Min(t.replyWrites, |o.out|);
      var w' := w.(hid := o.state, heard := w.heard + [report], wire := w.wire + o.out[..sent],
                   log := w.log + [Replies(o.out[..sent])]);
      if sent < |o.out| then w'.(phase := Stopped)
      else match o.state.complete
           case None => w'
           case Some(m) =>
             w'.(hid := o.state.(complete := None), inflight := Some(m.cid), phase := Emitting(m.payload),
                 log := w'.log + [Request(m.cid, m.payload)])
  }

  /** 3. Keep the in-flight request alive; a failed keepalive write is ignored. */
  function KeepAlive(w: World, t: Tick): World {
    if w.inflight.Some? && t.elapsed then
      w.(wire := w.wire + (if t.keepaliveWrite then [KeepaliveProcessing(w.inflight.value)] else []),
         log := w.log + [Keepalive(w.inflight.value, t.keepaliveWrite)])
    else w
  }

  function Iteration(w: World, t: Tick): World
    requires Framed(w.hid)
  {
    var w1 := WriteResponse(w, t);
    if w1.phase.Stopped? then w1
    else
      var w2 := ReadHost(w1, t);
      if w2.phase.Stopped? then w2 else KeepAlive(w2, t)
  }

  function Act(w: World, a: Action): (v: World)
    requires Framed(w.hid)
    ensures Framed(v.hid)
  {
    match a
    case Iterate(t) => if w.phase.Polling? then Iteration(w, t) else w
    case Emit => if w.phase.Emitting? then w.(emitted := w.emitted + [w.phase.payload], phase := Polling) else w
    case Respond(resp) => w.(response := Some(resp), log := w.log + [Handed(resp)])
    case Halt => if w.phase.Polling? then w.(phase := Stopped) else w
  }

  // ----- what the log means -----

  /** The channel of the latest request not yet answered, read off the log. */
  function Outstanding(log: seq<Event>): Option<u32> {
    if log == [] then None
    else
      var e := log[|log| - 1];
      match e
      case Request(cid, _) => Some(cid)
      case Response(_, _, _) => None
      case _ => Outstanding(log[..|log| - 1])
  }

  /** No request and no response strictly between positions `k` and `i`. */
  ghost predicate Quiet(log: seq<Event>, k: int, i: int)
    requires 0 <= k <= i <= |log|
  {
    forall m :: k < m < i ==> !log[m].Request? && !log[m].Response?
  }

  /** The request at `k` is on channel `cid`, is the latest before `i`, and is still unanswered there. */
  ghost predicate AwaitedAt(log: seq<Event>, k: int, i: int, cid: u32)
    requires 0 <= i <= |log|
  {
    0 <= k < i && log[k].Request? && log[k].cid == cid && Quiet(log, k, i)
  }

  /** A response was handed over right before it was written, after the latest request, on that request's channel. */
  ghost predicate AnswersLatest(log: seq<Event>, i: int)
    requires 0 <= i < |log| && log[i].Response?
  {
    && i > 0 && log[i - 1] == Handed(log[i].response)
    && exists k :: AwaitedAt(log, k, i, log[i].cid)
  }

  ghost predicate Disciplined(log: seq<Event>) {
    && (forall i :: 0 <= i < |log| && log[i].Response? ==> AnswersLatest(log, i))
    && (forall i :: 0 <= i < |log| && log[i].Keepalive? ==> exists k :: AwaitedAt(log, k, i, log[i].cid))
  }

  function Packets(e: Event): seq<Report> {
    match e
    case Request(_, _) => []
    case Handed(_) => []
    case Response(cid, resp, sent) => Encode(cid, CMD_CBOR, resp)[..Min(sent, |Encode(cid, CMD_CBOR, resp)|)]
    case Keepalive(cid, written) => if written then [KeepaliveProcessing(cid)] else []
    case Replies(packets) => packets
  }

  function Wire(log: seq<Event>): seq<Report> {
    if log == [] then [] else Wire(log[..|log| - 1]) + Packets(log[|log| - 1])
  }

  /** The CBOR payloads among the completed messages. */
  function CborPayloads(ms: seq<Message>): seq<seq<byte>> {
    if ms == [] then []
    else CborPayloads(ms[..|ms| - 1])
         + (if ms[|ms| - 1].cmd == CMD_CBOR then [ms[|ms| - 1].payload] else [])
  }

  /** The CBOR messages among the completed ones, with their channels. */
  function CborMessages(ms: seq<Message>): seq<(u32, seq<byte>)> {
    if ms == [] then []
    else
      var m := ms[|ms| - 1];
      CborMessages(ms[..|ms| - 1]) + (if m.cmd == CMD_CBOR then [(m.cid, m.payload)] else [])
  }

  /** The requests a log records, with their channels. */
  function Asked(log: seq<Event>): seq<(u32, seq<byte>)> {
    if log == [] then []
    else
      var e := log[|log| - 1];
      Asked(log[..|log| - 1]) + (if e.Request? then [(e.cid, e.payload)] else [])
  }

  /** Emitted so far, plus the payload about to be emitted. */
  function Surfaced(w: World): seq<seq<byte>> {
    w.emitted + (if w.phase.Emitting? then [w.phase.payload] else [])
  }

  /** The device state and what has surfaced are what the reports heard amount to. */
  ghost predicate HearsRight(w: World) {
    && Framed(w.hid) && w.hid == Run(NEW_HID, w.heard).(complete := None)
    && Surfaced(w) == CborPayloads(Deliveries(NEW_HID, w.heard))
    && Asked(w.log) == CborMessages(Deliveries(NEW_HID, w.heard))
  }

  /** The log accounts for the wire and the shared fields. */
  ghost predicate LogsRight(w: World) {
    && w.wire == Wire(w.log)
    && Disciplined(w.log)
    && (!w.phase.Stopped? ==> w.inflight == Outstanding(w.log))
    && (w.response.Some? ==> w.log != [] && w.log[|w.log| - 1] == Handed(w.response.value))
  }

  ghost predicate Inv(w: World) {
    HearsRight(w) && LogsRight(w)
  }

  // ----- preservation -----

  lemma {:induction false} OutstandingWitness(log: seq<Event>)
    ensures Outstanding(log).Some? ==> exists k :: AwaitedAt(log, k, |log|, Outstanding(log).value)
  {
    if log != [] {
      var n := |log| - 1;
      if log[n].Request? {
        assert AwaitedAt(log, n, |log|, log[n].cid);
      } else if !log[n].Response? && Outstanding(log).Some? {
        OutstandingWitness(log[..n]);
        var k :| AwaitedAt(log[..n], k, n, Outstanding(log).value);
        assert AwaitedAt(log, k, |log|, Outstanding(log).value);
      }
    }
  }

  lemma AwaitedExtends(log: seq<Event>, more: seq<Event>, k: int, i: int, cid: u32)
    requires 0 <= i <= |log|
    ensures AwaitedAt(log + more, k, i, cid) <==> AwaitedAt(log, k, i, cid)
  {
    if AwaitedAt(log + more, k, i, cid) {
      forall m | k < m < i ensures !log[m].Request? && !log[m].Response? {
        assert (log + more)[m] == log[m];
      }
    }
  }

  /** Appending one event keeps the log disciplined when the event itself is justified. */
  lemma DisciplinedAppend(log: seq<Event>, e: Event)
    requires Disciplined(log)
    requires e.Response? ==> Outstanding(log) == Some(e.cid) && log != [] && log[|log| - 1] == Handed(e.response)
    requires e.Keepalive? ==> Outstanding(log) == Some(e.cid)
    ensures Disciplined(log + [e])
    ensures Wire(log + [e]) == Wire(log) + Packets(e)
    ensures Outstanding(log + [e]) ==
            (if e.Request? then Some(e.cid) else if e.Response? then None else Outstanding(log))
  {
    var l := log + [e];
    assert l[..|log|] == log;
    forall i | 0 <= i < |l| && (l[i].Response? || l[i].Keepalive?)
      ensures exists k :: AwaitedAt(l, k, i, l[i].cid)
    {
      if i < |log| {
        assert log[i] == l[i];
        var k :| AwaitedAt(log, k, i, log[i].cid);
        AwaitedExtends(log, [e], k, i, log[i].cid);
      } else {
        OutstandingWitness(log);
        var k :| AwaitedAt(log, k, |log|, e.cid);
        AwaitedExtends(log, [e], k, i, e.cid);
      }
    }
  }

  lemma IgnoresComplete(s: Hid, r: Report)
    requires Framed(s)
    ensures Completed(s.(complete := None), r) == Completed(s, r)
    ensures HandleReport(s.(complete := None), r).out == HandleReport(s, r).out
    ensures HandleReport(s.(complete := None), r).state.(complete := None)
            == HandleReport(s, r).state.(complete := None)
  {
  }

  lemma HearOne(heard: seq<Report>, r: Report)
    ensures Run(NEW_HID, heard + [r]) == HandleReport(Run(NEW_HID, heard), r).state
    ensures Deliveries(NEW_HID, heard + [r]) ==
            Deliveries(NEW_HID, heard) + (match Completed(Run(NEW_HID, heard), r) case Some(m) => [m] case None => [])
  {
    RunAppend(NEW_HID, heard, [r]);
    assert [r][1..] == [];
  }

  lemma CborPayloadsAppend(ms: seq<Message>, m: Message)
    ensures CborPayloads(ms + [m]) == CborPayloads(ms) + (if m.cmd == CMD_CBOR then [m.payload] else [])
    ensures CborMessages(ms + [m]) == CborMessages(ms) + (if m.cmd == CMD_CBOR then [(m.cid, m.payload)] else [])
  {
    assert (ms + [m])[..|ms|] == ms;
  }

  lemma WriteResponseKeeps(w: World, t: Tick)
    requires Inv(w) && w.phase.Polling?
    ensures Inv(WriteResponse(w, t)) && WriteResponse(w, t).response.None?
    ensures !WriteResponse(w, t).phase.Emitting?
  {
    if w.response.Some? && w.inflight.Some? {
      var packets := Encode(w.inflight.value, CMD_CBOR, w.response.value);
      DisciplinedAppend(w.log, Response(w.inflight.value, w.response.value, Min(t.responseWrites, |packets|)));
      AskedAppend(w.log, Response(w.inflight.value, w.response.value, Min(t.responseWrites, |packets|)));
    }
  }

  lemma ReadHostKeeps(w: World, t: Tick)
    requires Inv(w) && w.phase.Polling? && w.response.None?
    ensures Inv(ReadHost(w, t)) && ReadHost(w, t).response.None?
  {
    ReadHostHears(w, t);
    ReadHostLogs(w, t);
  }

  lemma ReadHostHears(w: World, t: Tick)
    requires HearsRight(w) && w.phase.Polling?
    ensures HearsRight(ReadHost(w, t))
  {
    if t.read.Host? {
      var r := t.read.report;
      var o := HandleReport(w.hid, r);
      var replies := Replies(o.out[..Min(t.replyWrites, |o.out|)]);
      HeardState(w.hid, w.heard, r);
      AskedAppend(w.log, replies);
      if o.state.complete.Some? {
        AskedAppend(w.log + [replies], Request(o.state.complete.value.cid, o.state.complete.value.payload));
      }
    }
  }

  /** One more event, with its packets written and the in-flight request updated, keeps the account right. */
  lemma LogsAppend(w: World, e: Event, v: World)
    requires LogsRight(w) && !w.phase.Stopped? && !e.Response? && !e.Keepalive?
    requires v.log == w.log + [e] && v.wire == w.wire + Packets(e) && v.response.None?
    requires v.phase.Stopped? || v.inflight == if e.Request? then Some(e.cid) else w.inflight
    ensures LogsRight(v)
  {
    DisciplinedAppend(w.log, e);
  }

  lemma ReadHostLogs(w: World, t: Tick)
    requires Framed(w.hid) && LogsRight(w) && w.phase.Polling? && w.response.None?
    ensures LogsRight(ReadHost(w, t)) && ReadHost(w, t).response.None?
  {
    if t.read.Host? {
      var o := HandleReport(w.hid, t.read.report);
      var sent := Min(t.replyWrites, |o.out|);
      var replies := Replies(o.out[..sent]);
      var w1 := w.(hid := o.state, heard := w.heard + [t.read.report], wire := w.wire + o.out[..sent],
                   log := w.log + [replies]);
      if sent < |o.out| {
        LogsAppend(w, replies, w1.(phase := Stopped));
      } else {
        LogsAppend(w, replies, w1);
        if o.state.complete.Some? {
          var m := o.state.complete.value;
          LogsAppend(w1, Request(m.cid, m.payload), ReadHost(w, t));
        }
      }
    }
  }

  lemma AskedAppend(log: seq<Event>, e: Event)
    ensures Asked(log + [e]) == Asked(log) + if e.Request? then [(e.cid, e.payload)] else []
  {
    assert (log + [e])[..|log|] == log;
  }

  /** The device's state and what is due to surface after one more report. */
  lemma HeardState(hid: Hid, heard: seq<Report>, r: Report)
    requires Framed(hid) && hid == Run(NEW_HID, heard).(complete := None)
    ensures var o := HandleReport(hid, r);
            && o.state.(complete := None) == Run(NEW_HID, heard + [r]).(complete := None)
            && CborPayloads(Deliveries(NEW_HID, heard + [r])) == CborPayloads(Deliveries(NEW_HID, heard))
               + (match o.state.complete case Some(m) => [m.payload] case None => [])
            && CborMessages(Deliveries(NEW_HID, heard + [r])) == CborMessages(Deliveries(NEW_HID, heard))
               + (match o.state.complete case Some(m) => [(m.cid, m.payload)] case None => [])
            && (o.state.complete.Some? ==> o.out == [])
  {
    IgnoresComplete(Run(NEW_HID, heard), r);
    HearOne(heard, r);
    CompletionEffect(hid, r);
    HeardPayloads(heard, r);
  }

  /** What one more report adds to the payloads surfaced. */
  lemma HeardPayloads(heard: seq<Report>, r: Report)
    ensures var m := Completed(Run(NEW_HID, heard), r);
            CborPayloads(Deliveries(NEW_HID, heard + [r])) == CborPayloads(Deliveries(NEW_HID, heard))
            + if m.Some? && m.value.cmd == CMD_CBOR then [m.value.payload] else []
    ensures var m := Completed(Run(NEW_HID, heard), r);
            CborMessages(Deliveries(NEW_HID, heard + [r])) == CborMessages(Deliveries(NEW_HID, heard))
            + if m.Some? && m.value.cmd == CMD_CBOR then [(m.value.cid, m.value.payload)] else []
  {
    HearOne(heard, r);
    var m := Completed(Run(NEW_HID, heard), r);
    if m.Some? {
      CborPayloadsAppend(Deliveries(NEW_HID, heard), m.value);
    } else {
      assert Deliveries(NEW_HID, heard + [r]) == Deliveries(NEW_HID, heard);
    }
  }

  lemma KeepAliveKeeps(w: World, t: Tick)
    requires Inv(w) && !w.phase.Stopped? && w.response.None?
    ensures Inv(KeepAlive(w, t))
  {
    if w.inflight.Some? && t.elapsed {
      DisciplinedAppend(w.log, Keepalive(w.inflight.value, t.keepaliveWrite));
      AskedAppend(w.log, Keepalive(w.inflight.value, t.keepaliveWrite));
    }
  }

  lemma IterationKeeps(w: World, t: Tick)
    requires Inv(w) && w.phase.Polling?
    ensures Inv(Iteration(w, t))
  {
    WriteResponseKeeps(w, t);
    var w1 := WriteResponse(w, t);
    if !w1.phase.Stopped? {
      ReadHostKeeps(w1, t);
      var w2 := ReadHost(w1, t);
      if !w2.phase.Stopped? {
        KeepAliveKeeps(w2, t);
      }
    }
  }

  lemma RespondKeeps(w: World, resp: seq<byte>)
    requires Inv(w)
    ensures Inv(Act(w, Respond(resp)))
  {
    DisciplinedAppend(w.log, Handed(resp));
    AskedAppend(w.log, Handed(resp));
  }

  lemma EmitKeeps(w: World)
    requires Inv(w)
    ensures Inv(Act(w, Emit))
  {
    if w.phase.Emitting? {
      assert Surfaced(Act(w, Emit)) == Surfaced(w);
    }
  }

  lemma HaltKeeps(w: World)
    requires Inv(w)
    ensures Inv(Act(w, Halt))
  {
    if w.phase.Polling? {
      var v := Act(w, Halt);
      assert Surfaced(v) == Surfaced(w) && HearsRight(v);
      assert LogsRight(v);
    }
  }

  lemma ActKeeps(w: World, a: Action)
    requires Inv(w)
    ensures Inv(Act(w, a))
  {
    match a
    case Iterate(t) =>
      if w.phase.Polling? {
        IterationKeeps(w, t);
      }
    case Respond(resp) => RespondKeeps(w, resp);
    case Emit => EmitKeeps(w);
    case Halt => HaltKeeps(w);
  }

  function Play(w: World, actions: seq<Action>): (v: World)
    requires Framed(w.hid)
    decreases |actions|
  {
    if actions == [] then w
    else
      var v := Act(w, actions[0]);
      Play(v, actions[1..])
  }

  lemma {:induction false} PlayKeeps(w: World, actions: seq<Action>)
    requires Inv(w)
    ensures Inv(Play(w, actions))
    decreases |actions|
  {
    if actions != [] {
      ActKeeps(w, actions[0]);
      PlayKeeps(Act(w, actions[0]), actions[1..]);
    }
  }

  // ----- the theorems -----

  /**
   Over every interleaving: completed CBOR messages surface exactly once and in order, the
   requests logged are those messages with their own channels, the packets on the wire are
   those the log accounts for, every response goes to the latest surfaced request, and
   keepalives go to the in-flight channel.
   */
  lemma PumpIsSafe(actions: seq<Action>)
    ensures var w := Play(START, actions);
            && Surfaced(w) == CborPayloads(Deliveries(NEW_HID, w.heard))
            && Asked(w.log) == CborMessages(Deliveries(NEW_HID, w.heard))
            && w.wire == Wire(w.log)
            && Disciplined(w.log)
  {
    PlayKeeps(START, actions);
  }

  /** At most one response per request: between two responses there is another request. */
  lemma OneResponsePerRequest(log: seq<Event>, i: int, j: int)
    requires Disciplined(log)
    requires 0 <= i < j < |log| && log[i].Response? && log[j].Response?
    ensures exists k :: i < k < j && log[k].Request? && log[k].cid == log[j].cid
  {
    var k :| AwaitedAt(log, k, j, log[j].cid);
    assert k > i;
  }

  lemma {:induction false} AwaitedIsOutstanding(log: seq<Event>, k: int, cid: u32)
    requires AwaitedAt(log, k, |log|, cid)
    ensures Outstanding(log) == Some(cid)
  {
    var n := |log| - 1;
    if k < n {
      assert AwaitedAt(log[..n], k, n, cid);
      AwaitedIsOutstanding(log[..n], k, cid);
    }
  }

  /** A response handed over while nothing is in flight is never written, whatever follows. */
  lemma IdleResponseIsDiscarded(log: seq<Event>, j: int)
    requires Disciplined(log)
    requires 0 <= j < |log| && log[j].Handed? && Outstanding(log[..j]).None?
    ensures j + 1 < |log| ==> !log[j + 1].Response?
  {
    if j + 1 < |log| && log[j + 1].Response? {
      var cid := log[j + 1].cid;
      var k :| AwaitedAt(log, k, j + 1, cid);
      assert k < j;
      assert AwaitedAt(log[..j], k, j, cid);
      AwaitedIsOutstanding(log[..j], k, cid);
    }
  }

  // ----- every report is answered -----

  /** All replies the reports heard call for, in order. */
  function DueReplies(heard: seq<Report>): seq<Report> {
    if heard == [] then []
    else
      var n := |heard| - 1;
      DueReplies(heard[..n]) + HandleReport(Run(NEW_HID, heard[..n]), heard[n]).out
  }

  /** The transport-level replies a log records as written. */
  function RepliesIn(log: seq<Event>): seq<Report> {
    if log == [] then []
    else
      var e := log[|log| - 1];
      RepliesIn(log[..|log| - 1]) + (if e.Replies? then e.packets else [])
  }

  /** Replies are written in order, and all of them while the pump has not stopped. */
  ghost predicate Answers(w: World) {
    && RepliesIn(w.log) <= DueReplies(w.heard)
    && (!w.phase.Stopped? ==> RepliesIn(w.log) == DueReplies(w.heard))
  }

  lemma RepliesAppend(log: seq<Event>, e: Event)
    ensures RepliesIn(log + [e]) == RepliesIn(log) + if e.Replies? then e.packets else []
  {
    assert (log + [e])[..|log|] == log;
  }

  lemma DueAppend(hid: Hid, heard: seq<Report>, r: Report)
    requires Framed(hid) && hid == Run(NEW_HID, heard).(complete := None)
    ensures DueReplies(heard + [r]) == DueReplies(heard) + HandleReport(hid, r).out
  {
    assert (heard + [r])[..|heard|] == heard;
    IgnoresComplete(Run(NEW_HID, heard), r);
  }

  lemma WriteResponseAnswers(w: World, t: Tick)
    requires Answers(w) && w.phase.Polling?
    ensures Answers(WriteResponse(w, t))
  {
    if w.response.Some? && w.inflight.Some? {
      var packets := Encode(w.inflight.value, CMD_CBOR, w.response.value);
      RepliesAppend(w.log, Response(w.inflight.value, w.response.value, Min(t.responseWrites, |packets|)));
    }
  }

  lemma ReadHostAnswers(w: World, t: Tick)
    requires HearsRight(w) && Answers(w) && w.phase.Polling?
    ensures Answers(ReadHost(w, t))
  {
    if t.read.Host? {
      var r := t.read.report;
      var o := HandleReport(w.hid, r);
      var sent := Min(t.replyWrites, |o.out|);
      DueAppend(w.hid, w.heard, r);
      RepliesAppend(w.log, Replies(o.out[..sent]));
      assert sent == |o.out| ==> o.out[..sent] == o.out;
      if o.state.complete.Some? {
        RepliesAppend(w.log + [Replies(o.out[..sent])],
                      Request(o.state.complete.value.cid, o.state.complete.value.payload));
      }
    }
  }

  lemma KeepAliveAnswers(w: World, t: Tick)
    requires Answers(w)
    ensures Answers(KeepAlive(w, t))
  {
    if w.inflight.Some? && t.elapsed {
      RepliesAppend(w.log, Keepalive(w.inflight.value, t.keepaliveWrite));
    }
  }

  lemma ActAnswers(w: World, a: Action)
    requires Inv(w) && Answers(w)
    ensures Answers(Act(w, a))
  {
    match a
    case Iterate(t) =>
      if w.phase.Polling? {
        WriteResponseKeeps(w, t);
        WriteResponseAnswers(w, t);
        var w1 := WriteResponse(w, t);
        if !w1.phase.Stopped? {
          ReadHostAnswers(w1, t);
          KeepAliveAnswers(ReadHost(w1, t), t);
        }
      }
    case Respond(resp) => RepliesAppend(w.log, Handed(resp));
    case Emit =>
    case Halt =>
  }

  lemma {:induction false} PlayAnswers(w: World, actions: seq<Action>)
    requires Inv(w) && Answers(w)
    ensures Answers(Play(w, actions))
    decreases |actions|
  {
    if actions != [] {
      ActKeeps(w, actions[0]);
      ActAnswers(w, actions[0]);
      PlayAnswers(Act(w, actions[0]), actions[1..]);
    }
  }

  /**
   Over every run the transport-level replies written are a prefix of those the reports heard
   call for, and all of them while the pump has not stopped.
   */
  lemma EveryReportIsAnswered(actions: seq<Action>)
    ensures Answers(Play(START, actions))
  {
    PlayAnswers(START, actions);
  }

  /**
   What one iteration puts on the wire when no write fails: the response handed over, framed on
   the channel in flight; then the replies to the report read; then, if the period has passed
   and a request is in flight, a keepalive on its channel.
   */
  lemma IterationOutput(w: World, t: Tick)
    requires Framed(w.hid) && w.phase.Polling?
    requires !Act(w, Iterate(t)).phase.Stopped? && t.keepaliveWrite
    ensures var v := Act(w, Iterate(t));
            v.wire == w.wire
            + (if w.response.Some? && w.inflight.Some? then Encode(w.inflight.value, 0x10, w.response.value) else [])
            + (if t.read.Host? then HandleReport(w.hid, t.read.report).out else [])
            + (if v.inflight.Some? && t.elapsed then [KeepaliveProcessing(v.inflight.value)] else [])
  {
    var w1 := WriteResponse(w, t);
    ResponseOutput(w, t);
    ReplyOutput(w1, t);
  }

  lemma ResponseOutput(w: World, t: Tick)
    requires w.phase.Polling? && !WriteResponse(w, t).phase.Stopped?
    ensures var v := WriteResponse(w, t);
            && v.hid == w.hid
            && v.wire == w.wire
               + if w.response.Some? && w.inflight.Some? then Encode(w.inflight.value, 0x10, w.response.value) else []
  {
    if w.response.Some? && w.inflight.Some? {
      var packets := Encode(w.inflight.value, CMD_CBOR, w.response.value);
      assert packets[..|packets|] == packets;
    }
  }

  lemma ReplyOutput(w: World, t: Tick)
    requires Framed(w.hid) && w.phase.Polling? && !ReadHost(w, t).phase.Stopped?
    ensures ReadHost(w, t).wire == w.wire + if t.read.Host? then HandleReport(w.hid, t.read.report).out else []
  {
    if t.read.Host? {
      var out := HandleReport(w.hid, t.read.report).out;
      assert out[..|out|] == out;
    }
  }

  // ----- which request a response answers -----

  /** Place of the last request in a log, -1 if there is none. */
  function LastRequest(log: seq<Event>): int {
    if log == [] then -1
    else if log[|log| - 1].Request? then |log| - 1
    else LastRequest(log[..|log| - 1])
  }

  lemma {:induction false} LastRequestIs(log: seq<Event>, k: int)
    requires 0 <= k < |log| && log[k].Request? && forall m :: k < m < |log| ==> !log[m].Request?
    ensures LastRequest(log) == k
    decreases |log|
  {
    if k < |log| - 1 {
      assert !log[|log| - 1].Request?;
      LastRequestIs(log[..|log| - 1], k);
    }
  }

  /**
   Over every run, a response is on the channel of an earlier request exactly when the last
   request before it is on that channel: a request surfacing in between takes the response over.
   */
  lemma ResponseChannelExactly(actions: seq<Action>, k: int, i: int)
    requires var log := Play(START, actions).log;
             0 <= k < i < |log| && log[k].Request? && log[i].Response?
    ensures var log := Play(START, actions).log;
            var last := LastRequest(log[..i]);
            && k <= last < i && log[last].Request?
            && (log[i].cid == log[k].cid <==> log[last].cid == log[k].cid)
  {
    PumpIsSafe(actions);
    var log := Play(START, actions).log;
    var j :| AwaitedAt(log, j, i, log[i].cid);
    LastRequestIs(log[..i], j);
  }

  /** A pump between requests: nothing pending, complete, handed over or being emitted. */
  ghost predicate AtRest(w: World) {
    w.phase.Polling? && w.response.None? && w.hid.pending.None? && w.hid.complete.None?
  }

  function Hears(r: Report): Action {
    Iterate(Tick(Host(r), 0, 1, false, false))
  }

  const ALLOCATE: Report := InitFrame(BROADCAST_CID, CMD_INIT, 8, Zeros(8))

  lemma HearAllocate(w: World)
    requires AtRest(w) && w.hid.nextCid + 1 < U32_MODULUS
    ensures var v := Act(w, Hears(ALLOCATE));
            && AtRest(v) && v.hid.nextCid == w.hid.nextCid + 1 && v.inflight == w.inflight
            && v.emitted == w.emitted && Asked(v.log) == Asked(w.log)
  {
    InitFrameFields(BROADCAST_CID, CMD_INIT, 8, Zeros(8));
    assert IsAllocation(ALLOCATE);
    var out := HandleReport(w.hid, ALLOCATE).out;
    AskedAppend(w.log, Replies(out[..Min(1, |out|)]));
  }

  /** A request short enough for one frame becomes the one in flight, whatever was in flight before. */
  lemma HearRequest(w: World, cid: u32, payload: seq<byte>)
    requires AtRest(w) && Allocated(w.hid, cid) && |payload| <= INIT_DATA
    ensures var v := Act(Act(w, Hears(Encode(cid, CMD_CBOR, payload)[0])), Emit);
            && AtRest(v) && v.hid == w.hid && v.inflight == Some(cid)
            && v.emitted == w.emitted + [payload] && Asked(v.log) == Asked(w.log) + [(cid, payload)]
  {
    var r := Encode(cid, CMD_CBOR, payload)[0];
    FirstFrameFields(cid, CMD_CBOR, payload);
    AcceptInitPacket(w.hid, cid, CMD_CBOR, payload, r);
    CompletionEffect(w.hid, r);
    AskedAppend(w.log, Replies([]));
    AskedAppend(w.log + [Replies([])], Request(cid, payload));
  }

  /** A response is written in full on the channel in flight. */
  lemma WriteHanded(w: World, resp: seq<byte>, t: Tick)
    requires AtRest(w) && w.inflight.Some? && t.read.Nothing?
    requires t.responseWrites == |Encode(w.inflight.value, CMD_CBOR, resp)|
    ensures var v := Act(Act(w, Respond(resp)), Iterate(t));
            && v.wire == w.wire + Encode(w.inflight.value, CMD_CBOR, resp) && v.emitted == w.emitted
            && v.log == w.log + [Handed(resp)] + [Response(w.inflight.value, resp, t.responseWrites)]
            && Asked(v.log) == Asked(w.log)
  {
    var packets := Encode(w.inflight.value, CMD_CBOR, resp);
    assert packets[..|packets|] == packets;
    AskedAppend(w.log, Handed(resp));
    AskedAppend(w.log + [Handed(resp)], Response(w.inflight.value, resp, t.responseWrites));
  }

  lemma PlayTwo(w: World, a: Action, b: Action, rest: seq<Action>)
    requires Framed(w.hid)
    ensures Play(w, [a, b] + rest) == Play(Act(Act(w, a), b), rest)
  {
    var actions := [a, b] + rest;
    assert actions[1..] == [b] + rest && actions[1..][1..] == rest;
  }

  lemma TwoChannels()
    ensures var w := Act(Act(START, Hears(ALLOCATE)), Hears(ALLOCATE));
            AtRest(w) && w.hid.nextCid == 3 && w.emitted == [] && Asked(w.log) == []
  {
    HearAllocate(START);
    HearAllocate(Act(START, Hears(ALLOCATE)));
  }

  /** Two requests in a row on channels 1 and 2: both surface, the second is in flight. */
  lemma TwoRequests(w: World, p: seq<byte>, q: seq<byte>, rest: seq<Action>) returns (v: World)
    requires AtRest(w) && w.hid.nextCid == 3 && |p| <= INIT_DATA && |q| <= INIT_DATA
    ensures var first, second := Hears(Encode(1, CMD_CBOR, p)[0]), Hears(Encode(2, CMD_CBOR, q)[0]);
            && AtRest(v) && v.inflight == Some(2) && v.emitted == w.emitted + [p] + [q]
            && Asked(v.log) == Asked(w.log) + [(1, p)] + [(2, q)]
            && Play(w, [first, Emit] + ([second, Emit] + rest)) == Play(v, rest)
  {
    var first, second := Hears(Encode(1, CMD_CBOR, p)[0]), Hears(Encode(2, CMD_CBOR, q)[0]);
    HearRequest(w, 1, p);
    var u := Act(Act(w, first), Emit);
    HearRequest(u, 2, q);
    v := Act(Act(u, second), Emit);
    PlayTwo(w, first, Emit, [second, Emit] + rest);
    PlayTwo(u, second, Emit, rest);
  }

  /**
   A misdirected response: requests `p` on channel 1 and `q` on channel 2 surface, the answer
   to `p` is handed over - and it is written on channel 2.
   */
  lemma AnswerGoesToTheOtherRequest(p: seq<byte>, q: seq<byte>, answer: seq<byte> -> seq<byte>)
    returns (actions: seq<Action>, earlier: seq<Report>)
    requires |p| <= INIT_DATA && |q| <= INIT_DATA
    ensures var w := Play(START, actions);
            && w.emitted == [p, q] && Asked(w.log) == [(1, p), (2, q)]
            && |w.log| > 1 && w.log[|w.log| - 2] == Handed(answer(p))
            && w.log[|w.log| - 1].Response? && w.log[|w.log| - 1].cid == 2
            && w.wire == earlier + Encode(2, CMD_CBOR, answer(p))
  {
    var w1 := Act(Act(START, Hears(ALLOCATE)), Hears(ALLOCATE));
    TwoChannels();
    var write := Iterate(Tick(Nothing, |Encode(2, CMD_CBOR, answer(p))|, 0, false, false));
    var last := [Respond(answer(p)), write] + [];
    var w2 := TwoRequests(w1, p, q, last);
    WriteHanded(w2, answer(p), write.tick);
    var first, second := Hears(Encode(1, CMD_CBOR, p)[0]), Hears(Encode(2, CMD_CBOR, q)[0]);
    var requests := [first, Emit] + ([second, Emit] + last);
    actions, earlier := [Hears(ALLOCATE), Hears(ALLOCATE)] + requests, w2.wire;
    PlayTwo(START, Hears(ALLOCATE), Hears(ALLOCATE), requests);
    PlayTwo(w2, Respond(answer(p)), write, []);
  }
}
