/**
 `open`, `start` and `stop` across any number of processes and threads, one atomic step at a
 time: each mutex-protected slot access, each lock attempt, each device creation and each
 field drop is a step, in the order the program performs them.
 */
module DaemonLifecycle {
  import opened Basics

  type Pid = nat
  type Tid = nat

  /** A virtual device and an exclusive lock handle, as one owner holds them. */
  datatype Holding = Holding(dev: Option<nat>, lock: Option<nat>)

  const NOTHING: Holding := Holding(None, None)

  datatype Op =
    | TakeOpened | TakeDaemon | DropDev | DropLock
    | AcquireLock | CreateDevice | StoreOpened | StoreDaemon

  /**
   Dropping `Opened` drops `dev` and then `lock`; dropping `Daemon` after the join drops the
   last reference to the device and then `_lock`.
   */
  const DROP_OPENED: seq<Op> := [TakeOpened, DropDev, DropLock]
  const DROP_DAEMON: seq<Op> := [TakeDaemon, DropDev, DropLock]
  const ACQUIRE: seq<Op> := [AcquireLock, CreateDevice, StoreOpened]
  const STOP: seq<Op> := DROP_OPENED + (DROP_DAEMON + [])
  const OPEN: seq<Op> := DROP_OPENED + (DROP_DAEMON + ACQUIRE)
  const START: seq<Op> := [TakeOpened, StoreDaemon]

  datatype Thread = Thread(todo: seq<Op>, hold: Holding)

  datatype System = System(
    lock: Option<nat>,                     // handle that holds the lock file exclusively
    live: set<nat>,                        // virtual devices the kernel shows
    openedSlot: map<Pid, Holding>,             // OPENED, per process
    daemonSlot: map<Pid, Holding>,             // DAEMON, per process
    threads: map<(Pid, Tid), Thread>,
    nextId: nat)

  datatype Action = Call(p: Pid, t: Tid, program: seq<Op>) | Step(p: Pid, t: Tid, ok: bool)

  const INITIAL: System := System(None, {}, map[], map[], map[], 0)

  function Slot(m: map<Pid, Holding>, p: Pid): Holding {
    if p in m then m[p] else NOTHING
  }

  function Exec(s: System, p: Pid, t: Tid, ok: bool): System
    requires (p, t) in s.threads && s.threads[(p, t)].todo != []
  {
    var me := (p, t);
    var th := s.threads[me];
    var rest := th.todo[1..];
    match th.todo[0]
    case TakeOpened =>
      s.(openedSlot := s.openedSlot - {p}, threads := s.threads[me := Thread(rest, Slot(s.openedSlot, p))])
    case TakeDaemon =>
      s.(daemonSlot := s.daemonSlot - {p}, threads := s.threads[me := Thread(rest, Slot(s.daemonSlot, p))])
    case DropDev =>
      s.(live := (if th.hold.dev.Some? then s.live - {th.hold.dev.value} else s.live),
         threads := s.threads[me := Thread(rest, th.hold.(dev := None))])
    case DropLock =>
      s.(lock := (if th.hold.lock.Some? && s.lock == th.hold.lock then None else s.lock),
         threads := s.threads[me := Thread(rest, th.hold.(lock := None))])
    case AcquireLock =>
      if ok && s.lock.None? then
        s.(lock := Some(s.nextId), nextId := s.nextId + 1,
           threads := s.threads[me := Thread(rest, th.hold.(lock := Some(s.nextId)))])
      else s.(threads := s.threads[me := Thread([], th.hold)])
    case CreateDevice =>
      if ok then
        s.(live := s.live + {s.nextId}, nextId := s.nextId + 1,
           threads := s.threads[me := Thread(rest, th.hold.(dev := Some(s.nextId)))])
      else s.(threads := s.threads[me := Thread([DropDev, DropLock], th.hold)])
    case StoreOpened =>
      s.(openedSlot := s.openedSlot[p := th.hold],
         threads := s.threads[me := Thread([DropDev, DropLock], Slot(s.openedSlot, p))])
    case StoreDaemon =>
      if th.hold == NOTHING then s.(threads := s.threads[me := Thread([], NOTHING)])
      else
        // An overwritten Daemon would detach its pump thread: its lock drops, its device stays.
        s.(daemonSlot := s.daemonSlot[p := th.hold],
           threads := s.threads[me := Thread([DropLock], Slot(s.daemonSlot, p).(dev := None))])
  }

  predicate Enabled(s: System, a: Action) {
    match a
    case Call(p, t, program) =>
      && program in {OPEN, START, STOP}
      && ((p, t) in s.threads ==> s.threads[(p, t)].todo == [])
    case Step(p, t, _) => (p, t) in s.threads && s.threads[(p, t)].todo != []
  }

  function Act(s: System, a: Action): System {
    if !Enabled(s, a) then s
    else match a
         case Call(p, t, program) => s.(threads := s.threads[(p, t) := Thread(program, NOTHING)])
         case Step(p, t, ok) => Exec(s, p, t, ok)
  }

  function Play(s: System, actions: seq<Action>): System
    decreases |actions|
  {
    if actions == [] then s else Play(Act(s, actions[0]), actions[1..])
  }

  // ----- ownership discipline -----

  /** What a thread can be holding before a step. */
  datatype Kind = Empty | LockOnly | Full

  function KindOf(h: Holding): Kind {
    if h.lock.None? then Empty else if h.dev.None? then LockOnly else Full
  }

  /**
   The remaining program is safe to run while holding `k`: no lock is dropped before its
   device, nothing is overwritten or left behind.
   */
  ghost predicate Fits(todo: seq<Op>, k: Kind)
    decreases |todo|
  {
    if todo == [] then k == Empty
    else
      var rest := todo[1..];
      match todo[0]
      case TakeOpened => k == Empty && Fits(rest, Empty) && Fits(rest, Full)
      case TakeDaemon => k == Empty && Fits(rest, Empty) && Fits(rest, Full)
      case DropDev => Fits(rest, if k == Full then LockOnly else k)
      case DropLock => k != Full && Fits(rest, Empty)
      case AcquireLock => k == Empty && Fits(rest, LockOnly)
      case CreateDevice => k == LockOnly && Fits(rest, Full)
      case StoreOpened => k == Full
      case StoreDaemon => k != LockOnly
  }

  datatype Place = InOpened(p: Pid) | InDaemon(p: Pid) | InThread(p: Pid, t: Tid)

  function Held(s: System, x: Place): Holding {
    match x
    case InOpened(p) => Slot(s.openedSlot, p)
    case InDaemon(p) => Slot(s.daemonSlot, p)
    case InThread(p, t) => if (p, t) in s.threads then s.threads[(p, t)].hold else NOTHING
  }

  /** A device is only ever held together with the lock; the lock has at most one holder; every live device is held. */
  ghost predicate Owned(s: System) {
    && (forall x :: Held(s, x).dev.Some? ==> Held(s, x).lock.Some? && Held(s, x).dev.value in s.live)
    && (forall x :: Held(s, x).lock.Some? ==> Held(s, x).lock == s.lock)
    && (forall x, y :: Held(s, x).lock.Some? && Held(s, y).lock.Some? ==> x == y)
    && (forall d :: d in s.live ==> exists x :: Held(s, x).dev == Some(d))
  }

  ghost predicate Inv(s: System) {
    && Owned(s)
    && (forall p :: p in s.openedSlot ==> KindOf(s.openedSlot[p]) in {Empty, Full})
    && (forall p :: p in s.daemonSlot ==> KindOf(s.daemonSlot[p]) in {Empty, Full})
    && (forall q :: q in s.threads ==> Fits(s.threads[q].todo, KindOf(s.threads[q].hold)))
  }

  lemma DropThenFits(after: seq<Op>)
    requires Fits(after, Empty)
    ensures Fits(DROP_OPENED + after, Empty) && Fits(DROP_DAEMON + after, Empty)
  {
    var drop := [DropDev, DropLock] + after;
    assert drop[1..] == [DropLock] + after && ([DropLock] + after)[1..] == after;
    assert (DROP_OPENED + after)[1..] == drop && (DROP_DAEMON + after)[1..] == drop;
    assert Fits([DropLock] + after, Empty) && Fits([DropLock] + after, LockOnly);
  }

  lemma ProgramsFit()
    ensures Fits(OPEN, Empty) && Fits(START, Empty) && Fits(STOP, Empty)
  {
    assert ACQUIRE[1..] == [CreateDevice, StoreOpened] && ACQUIRE[1..][1..] == [StoreOpened];
    assert START[1..] == [StoreDaemon];
    DropThenFits(ACQUIRE);
    DropThenFits(DROP_DAEMON + ACQUIRE);
    DropThenFits([]);
    DropThenFits(DROP_DAEMON + []);
  }

  lemma CleanupFits(k: Kind)
    ensures Fits([DropDev, DropLock], k)
    ensures k != Full ==> Fits([DropLock], k)
  {
    assert [DropDev, DropLock][1..] == [DropLock] && [DropLock][1..] == [];
  }

  // ----- every step keeps the discipline -----

  lemma TakeKeeps(s: System, p: Pid, t: Tid, ok: bool)
    requires Inv(s) && (p, t) in s.threads && s.threads[(p, t)].todo != []
    requires s.threads[(p, t)].todo[0] in {TakeOpened, TakeDaemon}
    ensures Inv(Exec(s, p, t, ok))
  {
    var s' := Exec(s, p, t, ok);
    var me := InThread(p, t);
    var slot := if s.threads[(p, t)].todo[0] == TakeOpened then InOpened(p) else InDaemon(p);
    assert Held(s, me).lock.None? && Held(s, me).dev.None?;
    assert Held(s', me) == Held(s, slot) && Held(s', slot) == NOTHING;
    assert forall x :: x != me && x != slot ==> Held(s', x) == Held(s, x);
    MovedIsOwned(s, s', slot, me);
  }

  /** While one place holds the lock, no other place holds anything. */
  lemma SoleHolder(s: System, me: Place)
    requires Owned(s) && Held(s, me).lock.Some?
    ensures forall x :: x != me ==> Held(s, x) == NOTHING
    ensures forall d :: d in s.live ==> Held(s, me).dev == Some(d)
  {
    forall x | x != me ensures Held(s, x) == NOTHING {
      assert Held(s, x).lock.None?;
    }
  }

  lemma DropKeeps(s: System, p: Pid, t: Tid, ok: bool)
    requires Inv(s) && (p, t) in s.threads && s.threads[(p, t)].todo != []
    requires s.threads[(p, t)].todo[0] in {DropDev, DropLock}
    ensures Inv(Exec(s, p, t, ok))
  {
    var s' := Exec(s, p, t, ok);
    var me := InThread(p, t);
    assert forall x :: x != me ==> Held(s', x) == Held(s, x);
    if Held(s, me).lock.Some? {
      SoleHolder(s, me);
      assert forall x :: x != me ==> Held(s', x) == NOTHING;
    } else {
      assert Held(s, me) == NOTHING;
      assert forall x :: Held(s', x) == Held(s, x);
    }
  }

  lemma AcquireKeeps(s: System, p: Pid, t: Tid, ok: bool)
    requires Inv(s) && (p, t) in s.threads && s.threads[(p, t)].todo != []
    requires s.threads[(p, t)].todo[0] == AcquireLock
    ensures Inv(Exec(s, p, t, ok))
  {
    var s' := Exec(s, p, t, ok);
    var me := InThread(p, t);
    assert Held(s, me).lock.None? && Held(s, me).dev.None?;
    forall x | x != me
      ensures Held(s', x) == Held(s, x)
      ensures ok && s.lock.None? ==> Held(s', x).lock.None? && Held(s', x).dev.None?
    {
      assert Held(s, x).lock.Some? ==> Held(s, x).lock == s.lock;
    }
    assert Held(s', me).dev.None?;
    forall d | d in s'.live ensures exists x :: Held(s', x).dev == Some(d) {
      var x :| Held(s, x).dev == Some(d);
      assert Held(s', x).dev == Some(d);
    }
  }

  lemma CreateKeeps(s: System, p: Pid, t: Tid, ok: bool)
    requires Inv(s) && (p, t) in s.threads && s.threads[(p, t)].todo != []
    requires s.threads[(p, t)].todo[0] == CreateDevice
    ensures Inv(Exec(s, p, t, ok))
  {
    var s' := Exec(s, p, t, ok);
    var me := InThread(p, t);
    CleanupFits(LockOnly);
    SoleHolder(s, me);
    forall x | x != me ensures Held(s', x) == NOTHING {
      assert Held(s', x) == Held(s, x);
    }
    assert forall d :: d in s'.live ==> Held(s', me).dev == Some(d);
  }

  lemma StoreKeeps(s: System, p: Pid, t: Tid, ok: bool)
    requires Inv(s) && (p, t) in s.threads && s.threads[(p, t)].todo != []
    requires s.threads[(p, t)].todo[0] in {StoreOpened, StoreDaemon}
    ensures Inv(Exec(s, p, t, ok))
  {
    var s' := Exec(s, p, t, ok);
    var me := InThread(p, t);
    var slot := if s.threads[(p, t)].todo[0] == StoreOpened then InOpened(p) else InDaemon(p);
    CleanupFits(Empty);
    if Held(s, me) != NOTHING {
      assert Held(s, me).lock.Some?;
      assert Held(s, slot).lock.None? && Held(s, slot).dev.None?;
      assert Held(s', slot) == Held(s, me) && Held(s', me) == NOTHING;
      assert forall x :: x != me && x != slot ==> Held(s', x) == Held(s, x);
      MovedIsOwned(s, s', me, slot);
    } else {
      assert forall x :: Held(s', x) == Held(s, x);
    }
  }

  /** Moving everything one place holds to an empty place keeps ownership. */
  lemma MovedIsOwned(s: System, s': System, from: Place, to: Place)
    requires Owned(s) && s'.live == s.live && s'.lock == s.lock && from != to
    requires Held(s, to) == NOTHING && Held(s', to) == Held(s, from) && Held(s', from) == NOTHING
    requires forall x :: x != from && x != to ==> Held(s', x) == Held(s, x)
    ensures Owned(s')
  {
    forall d | d in s'.live ensures exists x :: Held(s', x).dev == Some(d) {
      var x :| Held(s, x).dev == Some(d);
      assert Held(s', if x == from then to else x).dev == Some(d);
    }
  }

  lemma ActKeeps(s: System, a: Action)
    requires Inv(s)
    ensures Inv(Act(s, a))
  {
    if Enabled(s, a) {
      match a
      case Call(p, t, program) =>
        ProgramsFit();
        var s' := Act(s, a);
        assert Held(s, InThread(p, t)).lock.None? && Held(s, InThread(p, t)).dev.None?;
        assert forall x :: Held(s', x) == Held(s, x);
      case Step(p, t, ok) =>
        match s.threads[(p, t)].todo[0]
        case TakeOpened => TakeKeeps(s, p, t, ok);
        case TakeDaemon => TakeKeeps(s, p, t, ok);
        case DropDev => DropKeeps(s, p, t, ok);
        case DropLock => DropKeeps(s, p, t, ok);
        case AcquireLock => AcquireKeeps(s, p, t, ok);
        case CreateDevice => CreateKeeps(s, p, t, ok);
        case StoreOpened => StoreKeeps(s, p, t, ok);
        case StoreDaemon => StoreKeeps(s, p, t, ok);
    }
  }

  lemma {:induction false} PlayKeeps(s: System, actions: seq<Action>)
    requires Inv(s)
    ensures Inv(Play(s, actions))
    decreases |actions|
  {
    if actions != [] {
      ActKeeps(s, actions[0]);
      PlayKeeps(Act(s, actions[0]), actions[1..]);
    }
  }

  /**
   Whatever processes and threads do: at most one virtual device is alive, whoever holds it
   owns the exclusive lock, and over all processes at most one of the `OPENED` and `DAEMON`
   slots holds a device - so a process never has both.
   */
  lemma AtMostOneDevice(actions: seq<Action>)
    ensures var s := Play(INITIAL, actions);
            && (forall d, d' :: d in s.live && d' in s.live ==> d == d')
            && (forall d :: d in s.live ==>
                  exists x :: Held(s, x).dev == Some(d) && Held(s, x).lock.Some? && Held(s, x).lock == s.lock)
            && (forall p, q :: !(Slot(s.openedSlot, p).dev.Some? && Slot(s.daemonSlot, q).dev.Some?))
            && (forall p, q :: Slot(s.openedSlot, p).dev.Some? && Slot(s.openedSlot, q).dev.Some? ==> p == q)
            && (forall p, q :: Slot(s.daemonSlot, p).dev.Some? && Slot(s.daemonSlot, q).dev.Some? ==> p == q)
  {
    PlayKeeps(INITIAL, actions);
    var s := Play(INITIAL, actions);
    forall d, d' | d in s.live && d' in s.live ensures d == d' {
      var x :| Held(s, x).dev == Some(d);
      var y :| Held(s, y).dev == Some(d');
    }
    forall d | d in s.live
      ensures exists x :: Held(s, x).dev == Some(d) && Held(s, x).lock.Some? && Held(s, x).lock == s.lock
    {
      var x :| Held(s, x).dev == Some(d);
      assert Held(s, x).lock == s.lock;
    }
    assert forall p :: Slot(s.openedSlot, p) == Held(s, InOpened(p)) && Slot(s.daemonSlot, p) == Held(s, InDaemon(p));
  }

  // ----- one call on its own, run to its end -----

  /** Thread `t` of process `p` running alone, its steps succeeding as `oks` says. */
  function RunAlone(s: System, p: Pid, t: Tid, oks: seq<bool>): System
    decreases |oks|
  {
    if oks == [] || (p, t) !in s.threads || s.threads[(p, t)].todo == [] then s
    else RunAlone(Exec(s, p, t, oks[0]), p, t, oks[1..])
  }

  /** What is left when a holding has been dropped, device first. */
  function Released(s: System, h: Holding): System {
    s.(live := (if h.dev.Some? then s.live - {h.dev.value} else s.live),
       lock := (if h.lock.Some? && s.lock == h.lock then None else s.lock))
  }

  ghost predicate Doing(s: System, p: Pid, t: Tid, todo: seq<Op>, hold: Holding) {
    (p, t) in s.threads && s.threads[(p, t)] == Thread(todo, hold)
  }

  function Now(s: System, p: Pid, t: Tid, todo: seq<Op>, hold: Holding): System {
    s.(threads := s.threads[(p, t) := Thread(todo, hold)])
  }

  lemma RunStep(s: System, p: Pid, t: Tid, oks: seq<bool>)
    requires (p, t) in s.threads && s.threads[(p, t)].todo != [] && oks != []
    ensures RunAlone(s, p, t, oks) == RunAlone(Exec(s, p, t, oks[0]), p, t, oks[1..])
  {
  }

  lemma RunDone(s: System, p: Pid, t: Tid, oks: seq<bool>)
    requires (p, t) in s.threads && s.threads[(p, t)].todo == []
    ensures RunAlone(s, p, t, oks) == s
  {
  }

  /** OPENED or DAEMON of process `p`, emptied. */
  function WithoutSlot(s: System, p: Pid, first: bool): System {
    if first then s.(openedSlot := s.openedSlot - {p}) else s.(daemonSlot := s.daemonSlot - {p})
  }

  function SlotOf(s: System, p: Pid, first: bool): Holding {
    if first then Slot(s.openedSlot, p) else Slot(s.daemonSlot, p)
  }

  function DropProgram(first: bool): seq<Op> {
    if first then DROP_OPENED else DROP_DAEMON
  }

  /** Taking a slot's content and dropping it, whatever the steps answer. */
  lemma DropRuns(s: System, p: Pid, t: Tid, first: bool, rest: seq<Op>, oks: seq<bool>)
    requires Doing(s, p, t, DropProgram(first) + rest, NOTHING) && |oks| >= 3
    ensures RunAlone(s, p, t, oks)
            == RunAlone(Now(Released(WithoutSlot(s, p, first), SlotOf(s, p, first)), p, t, rest, NOTHING),
                        p, t, oks[3..])
  {
    var tail := [DropDev, DropLock] + rest;
    var h := SlotOf(s, p, first);
    assert (DropProgram(first) + rest)[1..] == tail;
    RunStep(s, p, t, oks);
    var s1 := Now(WithoutSlot(s, p, first), p, t, tail, h);
    assert Exec(s, p, t, oks[0]) == s1;
    DropTail(s1, p, t, rest, h, oks[1..]);
    assert oks[1..][2..] == oks[3..];
    assert Now(Released(s1, h), p, t, rest, NOTHING) == Now(Released(WithoutSlot(s, p, first), h), p, t, rest, NOTHING);
  }

  lemma DropTail(s: System, p: Pid, t: Tid, rest: seq<Op>, h: Holding, oks: seq<bool>)
    requires Doing(s, p, t, [DropDev, DropLock] + rest, h) && |oks| >= 2
    ensures RunAlone(s, p, t, oks) == RunAlone(Now(Released(s, h), p, t, rest, NOTHING), p, t, oks[2..])
  {
    var todo := [DropDev, DropLock] + rest;
    assert todo[1..] == [DropLock] + rest && ([DropLock] + rest)[1..] == rest;
    var s1 := Exec(s, p, t, oks[0]);
    var s2 := Exec(s1, p, t, oks[1]);
    RunStep(s, p, t, oks);
    RunStep(s1, p, t, oks[1..]);
    assert s2 == Now(Released(s, h), p, t, rest, NOTHING);
    assert oks[1..][1..] == oks[2..];
  }

  /** The state once OPENED and then DAEMON of process `p` have been dropped. */
  function Stopped(s: System, p: Pid): System {
    var s1 := Released(WithoutSlot(s, p, true), SlotOf(s, p, true));
    Released(WithoutSlot(s1, p, false), SlotOf(s1, p, false))
  }

  lemma StopRuns(s: System, p: Pid, t: Tid, rest: seq<Op>, oks: seq<bool>)
    requires Doing(s, p, t, DROP_OPENED + (DROP_DAEMON + rest), NOTHING) && |oks| >= 6
    ensures RunAlone(s, p, t, oks) == RunAlone(Now(Stopped(s, p), p, t, rest, NOTHING), p, t, oks[6..])
  {
    var s1 := Released(WithoutSlot(s, p, true), SlotOf(s, p, true));
    var t1 := Now(s1, p, t, DROP_DAEMON + rest, NOTHING);
    DropRuns(s, p, t, true, DROP_DAEMON + rest, oks);
    DropRuns(t1, p, t, false, rest, oks[3..]);
    assert oks[3..][3..] == oks[6..];
    assert Now(Released(WithoutSlot(t1, p, false), SlotOf(t1, p, false)), p, t, rest, NOTHING)
           == Now(Stopped(s, p), p, t, rest, NOTHING);
  }

  /** Neither slot of the process holds anything, and nothing it held is alive or locked. */
  ghost predicate FullyStopped(was: System, now: System, p: Pid) {
    && Slot(now.openedSlot, p) == NOTHING && Slot(now.daemonSlot, p) == NOTHING
    && (forall h :: h in {Slot(was.openedSlot, p), Slot(was.daemonSlot, p)} ==>
          (h.dev.Some? ==> h.dev.value !in now.live) && (h.lock.Some? ==> now.lock != h.lock))
    && (forall q :: q != p ==> Slot(now.openedSlot, q) == Slot(was.openedSlot, q)
                               && Slot(now.daemonSlot, q) == Slot(was.daemonSlot, q))
  }

  lemma StoppedIsFull(s: System, p: Pid)
    ensures FullyStopped(s, Stopped(s, p), p)
  {
  }

  /** A `stop` run to its end leaves the process with neither device nor lock, and itself with nothing. */
  lemma StopEnds(s: System, p: Pid, t: Tid, oks: seq<bool>)
    requires Enabled(s, Call(p, t, STOP)) && |oks| >= 6
    ensures var now := RunAlone(Act(s, Call(p, t, STOP)), p, t, oks);
            Doing(now, p, t, [], NOTHING) && FullyStopped(s, now, p)
  {
    var s1 := Act(s, Call(p, t, STOP));
    StopRuns(s1, p, t, [], oks);
    RunDone(Now(Stopped(s1, p), p, t, [], NOTHING), p, t, oks[6..]);
    StoppedIsFull(s1, p);
  }

  /** A `start` run to its end moves the opened device and lock into DAEMON, alive and locked as before. */
  lemma StartEnds(s: System, p: Pid, t: Tid, oks: seq<bool>)
    requires Inv(s) && Enabled(s, Call(p, t, START)) && |oks| >= 3
    ensures var now, h := RunAlone(Act(s, Call(p, t, START)), p, t, oks), Slot(s.openedSlot, p);
            && Doing(now, p, t, [], NOTHING) && Slot(now.openedSlot, p) == NOTHING
            && Slot(now.daemonSlot, p) == (if h == NOTHING then Slot(s.daemonSlot, p) else h)
            && now.live == s.live && now.lock == s.lock
  {
    var h := Slot(s.openedSlot, p);
    OneSlotFull(s, p);
    var s1 := Act(s, Call(p, t, START));
    assert START[1..] == [StoreDaemon] && [StoreDaemon][1..] == [];
    RunStep(s1, p, t, oks);
    StoreRuns(Exec(s1, p, t, oks[0]), p, t, h, oks[1..]);
  }

  /** With a device opened, the process has no daemon. */
  lemma OneSlotFull(s: System, p: Pid)
    requires Inv(s)
    ensures Slot(s.openedSlot, p) == NOTHING || Slot(s.daemonSlot, p) == NOTHING
  {
    if Slot(s.openedSlot, p) != NOTHING {
      assert Held(s, InOpened(p)).lock.Some?;
      SoleHolder(s, InOpened(p));
      assert Held(s, InDaemon(p)) == NOTHING;
    }
  }

  lemma StoreRuns(s: System, p: Pid, t: Tid, h: Holding, oks: seq<bool>)
    requires Doing(s, p, t, [StoreDaemon], h) && |oks| >= 2
    requires h == NOTHING || Slot(s.daemonSlot, p) == NOTHING
    ensures var now := RunAlone(s, p, t, oks);
            && Doing(now, p, t, [], NOTHING) && now.openedSlot == s.openedSlot
            && Slot(now.daemonSlot, p) == (if h == NOTHING then Slot(s.daemonSlot, p) else h)
            && now.live == s.live && now.lock == s.lock
  {
    assert [StoreDaemon][1..] == [] && [DropLock][1..] == [];
    RunStep(s, p, t, oks);
    var s1 := Exec(s, p, t, oks[0]);
    if h == NOTHING {
      RunDone(s1, p, t, oks[1..]);
    } else {
      RunStep(s1, p, t, oks[1..]);
      RunDone(Exec(s1, p, t, oks[1]), p, t, oks[1..][1..]);
    }
  }

  /**
   An `open` run to its end stops the process first. It then holds a new live device and the
   lock in OPENED exactly when the lock was free by then and the lock and the device could be
   had; otherwise it holds nothing, and whoever holds the lock keeps it.
   */
  lemma OpenEnds(s: System, p: Pid, t: Tid, oks: seq<bool>)
    requires Enabled(s, Call(p, t, OPEN)) && |oks| >= 11
    ensures var now := RunAlone(Act(s, Call(p, t, OPEN)), p, t, oks);
            && Doing(now, p, t, [], NOTHING) && Slot(now.daemonSlot, p) == NOTHING
            && Acquired(Stopped(s, p), now, p, Stopped(s, p).lock.None? && oks[6] && oks[7])
  {
    var s1 := Act(s, Call(p, t, OPEN));
    StopRuns(s1, p, t, ACQUIRE, oks);
    AcquireRuns(Now(Stopped(s1, p), p, t, ACQUIRE, NOTHING), p, t, oks[6..]);
  }

  /** With success OPENED holds a live device and the lock; without, nothing changed. */
  ghost predicate Acquired(was: System, now: System, p: Pid, success: bool) {
    var h := Slot(now.openedSlot, p);
    if success then h.dev.Some? && h.lock.Some? && h.dev.value in now.live && now.lock == h.lock
    else h == NOTHING && now.lock == was.lock && now.live == was.live
  }

  lemma AcquireRuns(s: System, p: Pid, t: Tid, oks: seq<bool>)
    requires Doing(s, p, t, ACQUIRE, NOTHING) && Slot(s.openedSlot, p) == NOTHING && |oks| >= 5
    ensures var now := RunAlone(s, p, t, oks);
            && Doing(now, p, t, [], NOTHING) && now.daemonSlot == s.daemonSlot
            && Acquired(s, now, p, s.lock.None? && oks[0] && oks[1])
  {
    assert ACQUIRE[1..] == [CreateDevice, StoreOpened] && ACQUIRE[1..][1..] == [StoreOpened];
    RunStep(s, p, t, oks);
    var s1 := Exec(s, p, t, oks[0]);
    if s.lock.None? && oks[0] {
      RunStep(s1, p, t, oks[1..]);
      var s2 := Exec(s1, p, t, oks[1]);
      assert oks[1..][1..] == oks[2..] && [DropDev, DropLock] + [] == [DropDev, DropLock];
      if oks[1] {
        RunStep(s2, p, t, oks[2..]);
        var s3 := Exec(s2, p, t, oks[2]);
        assert oks[2..][1..] == oks[3..];
        DropTail(s3, p, t, [], NOTHING, oks[3..]);
        RunDone(Now(Released(s3, NOTHING), p, t, [], NOTHING), p, t, oks[3..][2..]);
      } else {
        var h := s2.threads[(p, t)].hold;
        DropTail(s2, p, t, [], h, oks[2..]);
        RunDone(Now(Released(s2, h), p, t, [], NOTHING), p, t, oks[2..][2..]);
      }
    } else {
      RunDone(s1, p, t, oks[1..]);
    }
  }
}
