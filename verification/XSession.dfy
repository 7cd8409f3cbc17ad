/** The injector as the program runs it: loops of fallible requests against a live X connection. */
module XSession {
  import opened Basics
  import opened Keysyms
  import opened KeycodePlanner
  import opened KeyInjection
  import opened Autotype

  /** The keymap's rows for `count` keycodes from `min` on. */
  function RowsOf(keymap: Keymap, min: int, count: nat): (rows: seq<seq<Keysym>>)
    requires 0 <= min && min + count <= 256
    ensures |rows| == count
  {
    if count == 0 then []
    else
      var kc: Keycode := min + count - 1;
      RowsOf(keymap, min, count - 1) + [if kc in keymap then keymap[kc] else []]
  }

  datatype InjectError = RequestFailed | NoKeyboardLevels | NoScratchKeycode

  /**
   The server's keyboard state behind a connection; request number `clock` fails when `faults`
   says so, and then has no effect.
   */
  class XConnection {
    const min: int
    const count: nat
    const per: nat
    const faults: nat -> bool
    var x: X
    var clock: nat
    /** The requests refused so far, in order. */
    var refused: seq<Op>

    /** The keyboard lists keycodes `min` to `min + count - 1`, `per` levels each. */
    ghost predicate Valid()
      reads this
    {
      && 8 <= min && min + count <= 256
      && (per >= 1 ==> Lists(RowsOf(x.keymap, min, count), x.keymap, min, per))
    }

    constructor (min: int, count: nat, per: nat, keymap: Keymap, faults: nat -> bool)
      requires 8 <= min && min + count <= 256
      requires per >= 1 ==> Lists(RowsOf(keymap, min, count), keymap, min, per)
      ensures Valid() && x == X(keymap, [])
    {
      this.min, this.count, this.per, this.faults := min, count, per, faults;
      x := X(keymap, []);
      clock, refused := 0, [];
    }

    /** The flat reply to `GetKeyboardMapping`. */
    method KeyboardMapping() returns (ok: bool, table: seq<Keysym>)
      requires Valid()
      modifies this`clock
      ensures clock == old(clock) + 1 && ok == !faults(old(clock))
      ensures table == Concat(RowsOf(x.keymap, min, count))
    {
      ok := Query();
      table := Concat(RowsOf(x.keymap, min, count));
    }

    /** A request with a number in this range failed. */
    ghost predicate Failed(from: nat, to: nat) {
      exists n :: from <= n < to && faults(n)
    }

    method Send(op: Op) returns (ok: bool)
      modifies this
      ensures clock == old(clock) + 1 && ok == !faults(old(clock))
      ensures x == if ok then Apply(old(x), op, per) else old(x)
      ensures refused == if ok then old(refused) else old(refused) + [op]
    {
      ok := !faults(clock);
      clock := clock + 1;
      if ok {
        x := Apply(x, op, per);
      } else {
        refused := refused + [op];
      }
    }

    /** A request without effect on the keyboard: a query, a modifier release, a flush. */
    method Query() returns (ok: bool)
      modifies this`clock
      ensures clock == old(clock) + 1 && ok == !faults(old(clock))
    {
      ok := !faults(clock);
      clock := clock + 1;
    }
  }

  lemma {:induction false} ExecSnoc(x: X, ops: seq<Op>, n: nat, per: nat)
    requires n < |ops|
    ensures Exec(x, ops[..n + 1], per) == Apply(Exec(x, ops[..n], per), ops[n], per)
  {
    assert ops[..n + 1] == ops[..n] + [ops[n]];
    ExecAppend(x, ops[..n], [ops[n]], per);
    assert [ops[n]][1..] == [];
  }

  lemma {:induction false} BindsAt(bindings: seq<(Keycode, Keysym)>, i: nat)
    requires i < |bindings|
    ensures Binds(bindings)[i] == Bind(bindings[i].0, bindings[i].1)
  {
    if i > 0 {
      BindsAt(bindings[1..], i - 1);
    }
  }

  lemma {:induction false} TapsAt(taps: seq<Keycode>, i: nat)
    requires i < |taps|
    ensures Taps(taps)[2 * i] == Press(taps[i]) && Taps(taps)[2 * i + 1] == Release(taps[i])
  {
    if i > 0 {
      TapsAt(taps[1..], i - 1);
    }
  }

  lemma {:induction false} RestoresAt(bindings: seq<(Keycode, Keysym)>, i: nat)
    requires i < |bindings|
    ensures |Clears(BoundKeycodes(bindings))| == |bindings|
    ensures Clears(BoundKeycodes(bindings))[i] == Clear(bindings[i].0)
    decreases |bindings|
  {
    if |bindings| == 1 {
      assert BoundKeycodes(bindings[1..]) == [];
    } else {
      RestoresAt(bindings[1..], if i > 0 then i - 1 else 0);
    }
  }

  // Each loop below stops at the first failed request; `n` is how many succeeded.

  method BindAll(conn: XConnection, bindings: seq<(Keycode, Keysym)>) returns (ok: bool, ghost n: nat)
    modifies conn
    ensures old(conn.refused) <= conn.refused
    ensures old(conn.clock) <= conn.clock && (!ok ==> conn.Failed(old(conn.clock), conn.clock))
    ensures n <= |bindings| && (ok <==> n == |bindings|)
    ensures conn.x == Exec(old(conn.x), Binds(bindings)[..n], conn.per)
  {
    n := 0;
    for i := 0 to |bindings|
      invariant old(conn.clock) <= conn.clock
      invariant old(conn.refused) <= conn.refused
      invariant n == i
      invariant conn.x == Exec(old(conn.x), Binds(bindings)[..i], conn.per)
    {
      ok := conn.Send(Bind(bindings[i].0, bindings[i].1));
      if !ok {
        return;
      }
      BindsAt(bindings, i);
      ExecSnoc(old(conn.x), Binds(bindings), i, conn.per);
      n := i + 1;
    }
    ok := true;
  }

  method TapAll(conn: XConnection, taps: seq<Keycode>) returns (ok: bool, ghost n: nat)
    modifies conn
    ensures old(conn.refused) <= conn.refused
    ensures old(conn.clock) <= conn.clock && (!ok ==> conn.Failed(old(conn.clock), conn.clock))
    ensures n <= |Taps(taps)| && (ok <==> n == |Taps(taps)|)
    ensures conn.x == Exec(old(conn.x), Taps(taps)[..n], conn.per)
  {
    n := 0;
    for i := 0 to |taps|
      invariant old(conn.clock) <= conn.clock
      invariant old(conn.refused) <= conn.refused
      invariant n == 2 * i
      invariant conn.x == Exec(old(conn.x), Taps(taps)[..n], conn.per)
    {
      TapsAt(taps, i);
      ok := conn.Send(Press(taps[i]));
      if !ok {
        return;
      }
      ExecSnoc(old(conn.x), Taps(taps), n, conn.per);
      n := n + 1;
      ok := conn.Send(Release(taps[i]));
      if !ok {
        return;
      }
      ExecSnoc(old(conn.x), Taps(taps), n, conn.per);
      n := n + 1;
    }
    ok := true;
  }

  method RestoreBatch(conn: XConnection, bindings: seq<(Keycode, Keysym)>) returns (ok: bool, ghost n: nat)
    modifies conn
    ensures old(conn.refused) <= conn.refused
    ensures old(conn.clock) <= conn.clock && (!ok ==> conn.Failed(old(conn.clock), conn.clock))
    ensures |Clears(BoundKeycodes(bindings))| == |bindings|
    ensures n <= |bindings| && (ok <==> n == |bindings|)
    ensures conn.x == Exec(old(conn.x), Clears(BoundKeycodes(bindings))[..n], conn.per)
  {
    n := 0;
    if bindings != [] {
      RestoresAt(bindings, 0);
    }
    for i := 0 to |bindings|
      invariant old(conn.clock) <= conn.clock
      invariant old(conn.refused) <= conn.refused
      invariant n == i
      invariant conn.x == Exec(old(conn.x), Clears(BoundKeycodes(bindings))[..i], conn.per)
    {
      ok := conn.Send(Clear(bindings[i].0));
      if !ok {
        return;
      }
      RestoresAt(bindings, i);
      ExecSnoc(old(conn.x), Clears(BoundKeycodes(bindings)), i, conn.per);
      n := i + 1;
    }
    ok := true;
  }

  /** A run that stops in its second part. */
  lemma ExecInto(x: X, a: seq<Op>, b: seq<Op>, n: nat, per: nat)
    requires n <= |b|
    ensures |a| + n <= |a + b|
    ensures Exec(x, (a + b)[..|a| + n], per) == Exec(Exec(x, a, per), b[..n], per)
  {
    assert (a + b)[..|a| + n] == a + b[..n];
    ExecAppend(x, a, b[..n], per);
  }

  /** A run that stops inside its first part, or goes on into the second. */
  lemma PrefixInto(a: seq<Op>, b: seq<Op>, n: nat)
    requires n <= |a|
    ensures n <= |a + b| && (a + b)[..n] == a[..n] && a[..|a|] == a
  {
  }

  method BindAndTap(conn: XConnection, b: Batch) returns (ok: bool, ghost n: nat)
    modifies conn
    ensures old(conn.refused) <= conn.refused
    ensures old(conn.clock) <= conn.clock && (!ok ==> conn.Failed(old(conn.clock), conn.clock))
    ensures n <= |Binds(b.bindings) + Taps(b.taps)| && (ok <==> n == |Binds(b.bindings) + Taps(b.taps)|)
    ensures conn.x == Exec(old(conn.x), (Binds(b.bindings) + Taps(b.taps))[..n], conn.per)
  {
    ghost var x0, binds, taps := conn.x, Binds(b.bindings), Taps(b.taps);
    ok, n := BindAll(conn, b.bindings);
    PrefixInto(binds, taps, n);
    if !ok {
      return;
    }
    ok, n := TapAll(conn, b.taps);
    ExecInto(x0, binds, taps, n, conn.per);
    n := |binds| + n;
  }

  /** Bind everything, tap everything, and restore unless this is the last batch. */
  method InjectBatch(conn: XConnection, batches: seq<Batch>) returns (ok: bool, ghost n: nat)
    requires batches != []
    modifies conn
    ensures old(conn.refused) <= conn.refused
    ensures old(conn.clock) <= conn.clock && (!ok ==> conn.Failed(old(conn.clock), conn.clock))
    ensures n <= |BatchOps(batches, [])| && (ok <==> n == |BatchOps(batches, [])|)
    ensures conn.x == Exec(old(conn.x), BatchOps(batches, [])[..n], conn.per)
  {
    ghost var x0, front := conn.x, Binds(batches[0].bindings) + Taps(batches[0].taps);
    ok, n := BindAndTap(conn, batches[0]);
    PrefixInto(front, Cleanup(batches, []), n);
    if !ok || |batches| == 1 {
      return;
    }
    ok, n := RestoreBatch(conn, batches[0].bindings);
    ExecInto(x0, front, Cleanup(batches, []), n, conn.per);
    n := |front| + n;
  }

  lemma OpsStep(batches: seq<Batch>, i: nat, done: seq<Op>, n: nat)
    requires i < |batches| && done + Ops(batches[i..], []) == Ops(batches, []) && n <= |BatchOps(batches[i..], [])|
    ensures var own := BatchOps(batches[i..], []);
            && done + own + Ops(batches[i + 1..], []) == Ops(batches, [])
            && |done| + n <= |Ops(batches, [])|
            && Ops(batches, [])[..|done| + n] == (done + own)[..|done| + n]
  {
    assert batches[i..][1..] == batches[i + 1..];
    Regroup(done, BatchOps(batches[i..], []), Ops(batches[i + 1..], []));
  }

  /** The batch at `i`, after the requests in `done`. */
  method InjectNth(conn: XConnection, batches: seq<Batch>, i: nat, ghost x0: X, ghost done: seq<Op>)
    returns (ok: bool, ghost n: nat)
    requires i < |batches| && done + Ops(batches[i..], []) == Ops(batches, []) && conn.x == Exec(x0, done, conn.per)
    modifies conn
    ensures old(conn.refused) <= conn.refused
    ensures old(conn.clock) <= conn.clock && (!ok ==> conn.Failed(old(conn.clock), conn.clock))
    ensures n <= |Ops(batches, [])| && conn.x == Exec(x0, Ops(batches, [])[..n], conn.per)
    ensures !ok ==> n < |Ops(batches, [])|
    ensures ok ==> Ops(batches, [])[..n] + Ops(batches[i + 1..], []) == Ops(batches, [])
  {
    ghost var own := BatchOps(batches[i..], []);
    ok, n := InjectBatch(conn, batches[i..]);
    OpsStep(batches, i, done, n);
    ExecInto(x0, done, own, n, conn.per);
    if ok {
      assert (done + own)[..|done| + n] == done + own;
    }
    n := |done| + n;
  }

  method InjectAll(conn: XConnection, batches: seq<Batch>) returns (ok: bool, ghost n: nat)
    modifies conn
    ensures old(conn.refused) <= conn.refused
    ensures old(conn.clock) <= conn.clock && (!ok ==> conn.Failed(old(conn.clock), conn.clock))
    ensures n <= |Ops(batches, [])| && (ok <==> n == |Ops(batches, [])|)
    ensures conn.x == Exec(old(conn.x), Ops(batches, [])[..n], conn.per)
  {
    ghost var x0, all := conn.x, Ops(batches, []);
    ok, n := true, 0;
    assert batches[0..] == batches && all[..0] + all == all;
    for i := 0 to |batches|
      invariant old(conn.clock) <= conn.clock && old(conn.refused) <= conn.refused
      invariant n <= |all| && all[..n] + Ops(batches[i..], []) == all
      invariant ok && conn.x == Exec(x0, all[..n], conn.per)
    {
      ok, n := InjectNth(conn, batches, i, x0, all[..n]);
      if !ok {
        return;
      }
    }
    assert all[..n] + [] == all[..n];
  }

  function FreeKeycodes(keymap: Keymap, min: int, count: nat): seq<Keycode>
    requires 0 <= min && min + count <= 256
  {
    ScratchFrom(RowsOf(keymap, min, count), min)
  }

  /** Every free keycode, or why injection cannot start. */
  method FindAllScratchKeycodes(conn: XConnection) returns (r: Result<seq<Keycode>, InjectError>)
    requires conn.Valid()
    modifies conn`clock
    ensures conn.clock == old(conn.clock) + 1
    ensures var pool := ScratchFrom(RowsOf(conn.x.keymap, conn.min, conn.count), conn.min);
            r == if conn.faults(old(conn.clock)) then Err(RequestFailed)
                 else if conn.per == 0 then Err(NoKeyboardLevels)
                 else if pool == [] then Err(NoScratchKeycode) else Ok(pool)
  {
    var ok, table := conn.KeyboardMapping();
    if !ok {
      return Err(RequestFailed);
    }
    if conn.per == 0 {
      return Err(NoKeyboardLevels);
    }
    ChunksOfTable(RowsOf(conn.x.keymap, conn.min, conn.count), conn.per);
    var pool := ScratchFrom(Chunks(table, conn.per), conn.min);
    return if pool == [] then Err(NoScratchKeycode) else Ok(pool);
  }

  method InjectPlanned(conn: XConnection, pool: seq<Keycode>, keysyms: seq<Keysym>) returns (ok: bool, ghost n: nat)
    requires conn.Valid() && conn.per >= 1 && pool != []
    requires pool == ScratchFrom(RowsOf(conn.x.keymap, conn.min, conn.count), conn.min)
    modifies conn
    ensures old(conn.refused) <= conn.refused
    ensures old(conn.clock) <= conn.clock && (!ok ==> conn.Failed(old(conn.clock), conn.clock))
    ensures var ops := Ops(InjectionPlan(RowsOf(old(conn.x.keymap), conn.min, conn.count), conn.min, keysyms), []);
            && n <= |ops| && (ok ==> n == |ops|)
            && conn.x == Exec(old(conn.x), ops[..n], conn.per)
  {
    n := 0;
    ghost var rows := RowsOf(conn.x.keymap, conn.min, conn.count);
    var table;
    ok, table := conn.KeyboardMapping();
    if !ok {
      return;
    }
    ChunksOfTable(rows, conn.per);
    var slots := SlotsFor(Chunks(table, conn.per), conn.min, keysyms);
    var batches := PlanBatches(slots, pool);
    ok, n := InjectAll(conn, batches);
  }

  /** Restore every pool keycode, attempting all even if one fails. */
  method RestoreAll(conn: XConnection, pool: seq<Keycode>) returns (ok: bool, ghost failed: set<Keycode>)
    requires Distinct(pool) && forall kc :: kc in pool ==> kc in conn.x.keymap
    modifies conn
    ensures RestoredExcept(conn.x.keymap, old(conn.x.keymap), pool, failed, conn.per)
    ensures conn.x.typed == old(conn.x.typed)
    ensures ok <==> failed == {}
    ensures old(conn.refused) <= conn.refused
    ensures old(conn.clock) <= conn.clock && (!ok ==> conn.Failed(old(conn.clock), conn.clock))
    ensures forall kc :: kc in failed ==> Clear(kc) in conn.refused[|old(conn.refused)|..]
  {
    ok, failed := true, {};
    ghost var was, refusedBefore := conn.x.keymap, conn.refused;
    ghost var lost: seq<Op>, done: set<Keycode> := [], {};
    for i := 0 to |pool|
      invariant Swept(conn.x.keymap, was, done, failed, conn.per) && done == Members(pool[..i])
      invariant conn.x.typed == old(conn.x.typed) && (ok <==> failed == {})
      invariant forall kc :: kc in failed ==> Clear(kc) in lost
      invariant conn.refused == refusedBefore + lost
      invariant old(conn.clock) <= conn.clock && (!ok ==> conn.Failed(old(conn.clock), conn.clock))
    {
      var kc := pool[i];
      assert kc in pool;
      MembersGrow(pool, i);
      var sent := RestoreOne(conn, kc, was, done, failed);
      done := done + {kc};
      if !sent {
        ok, failed, lost := false, failed + {kc}, lost + [Clear(kc)];
      }
    }
    assert pool[..|pool|] == pool && conn.refused[|refusedBefore|..] == lost;
  }

  method RestoreOne(
    conn: XConnection, kc: Keycode, ghost was: Keymap, ghost done: set<Keycode>, ghost failed: set<Keycode>)
    returns (sent: bool)
    requires Swept(conn.x.keymap, was, done, failed, conn.per) && kc in was && kc !in done
    modifies conn
    ensures Swept(conn.x.keymap, was, done + {kc}, if sent then failed else failed + {kc}, conn.per)
    ensures conn.x.typed == old(conn.x.typed)
    ensures conn.refused == if sent then old(conn.refused) else old(conn.refused) + [Clear(kc)]
    ensures conn.clock == old(conn.clock) + 1 && sent == !conn.faults(old(conn.clock))
  {
    SweepOne(conn.x.keymap, was, done, failed, kc, conn.per);
    sent := conn.Send(Clear(kc));
  }

  function Members(pool: seq<Keycode>): set<Keycode> {
    set kc | kc in pool
  }

  lemma MembersGrow(pool: seq<Keycode>, i: nat)
    requires Distinct(pool) && i < |pool|
    ensures pool[i] !in Members(pool[..i]) && Members(pool[..i + 1]) == Members(pool[..i]) + {pool[i]}
  {
    assert pool[..i + 1] == pool[..i] + [pool[i]];
  }

  /** The keycodes in `done` have been restored, or failed to be; the others are as before. */
  ghost predicate Swept(m: Keymap, before: Keymap, done: set<Keycode>, failed: set<Keycode>, per: nat) {
    && m.Keys == before.Keys && failed <= done
    && forall kc :: kc in before ==>
         m[kc] == if kc in done && kc !in failed then Levels(NO_SYMBOL, per) else before[kc]
  }

  lemma SweepOne(m: Keymap, before: Keymap, done: set<Keycode>, failed: set<Keycode>, kc: Keycode, per: nat)
    requires Swept(m, before, done, failed, per) && kc in before && kc !in done
    ensures Swept(m[kc := Levels(NO_SYMBOL, per)], before, done + {kc}, failed, per)
    ensures Swept(m, before, done + {kc}, failed + {kc}, per)
  {
  }

  /** Inject over the pool, then restore all of it whatever happened. */
  method InjectAndRestore(conn: XConnection, pool: seq<Keycode>, keysyms: seq<Keysym>)
    returns (ok: bool, ghost m: nat, ghost failed: set<Keycode>)
    requires conn.Valid() && conn.per >= 1 && pool != []
    requires pool == ScratchFrom(RowsOf(conn.x.keymap, conn.min, conn.count), conn.min)
    modifies conn
    ensures m <= |keysyms| && conn.x.typed == old(conn.x.typed) + keysyms[..m]
    ensures conn.x.keymap.Keys == old(conn.x.keymap).Keys
    ensures forall kc :: kc in old(conn.x.keymap) && kc !in failed ==> conn.x.keymap[kc] == old(conn.x.keymap)[kc]
    ensures old(conn.refused) <= conn.refused
    ensures forall kc :: kc in failed ==> Clear(kc) in conn.refused[|old(conn.refused)|..]
    ensures ok ==> m == |keysyms| && failed == {}
    ensures old(conn.clock) <= conn.clock && (!ok ==> conn.Failed(old(conn.clock), conn.clock))
  {
    ghost var x0, rows := conn.x, RowsOf(conn.x.keymap, conn.min, conn.count);
    ghost var n;
    var injected;
    injected, n := InjectPlanned(conn, pool, keysyms);
    m := PrefixTyped(rows, x0, conn.min, conn.per, keysyms, n);
    KeyboardIsReady(rows, x0.keymap, conn.min, conn.per, keysyms);
    ghost var refusedBefore := conn.refused;
    var restored;
    restored, failed := RestoreAll(conn, pool);
    InjectionCleansUp(rows, x0, conn.min, conn.per, keysyms, n, failed, conn.x.keymap);
    SuffixOfSuffix(old(conn.refused), refusedBefore, conn.refused);
    ok := injected && restored;
  }

  lemma SuffixOfSuffix(a: seq<Op>, b: seq<Op>, c: seq<Op>)
    requires a <= b <= c
    ensures forall op :: op in c[|b|..] ==> op in c[|a|..]
  {
    assert c[|a|..] == c[|a|..|b|] + c[|b|..];
  }

  /** What `n` requests of the plan have typed: a prefix, and all of it after all of them. */
  lemma PrefixTyped(rows: seq<seq<Keysym>>, x: X, min: int, per: nat, keysyms: seq<Keysym>, n: nat) returns (m: nat)
    requires Lists(rows, x.keymap, min, per) && ScratchFrom(rows, min) != []
    requires n <= |Ops(InjectionPlan(rows, min, keysyms), [])|
    ensures m <= |keysyms|
    ensures Exec(x, Ops(InjectionPlan(rows, min, keysyms), [])[..n], per).typed == x.typed + keysyms[..m]
    ensures var y := Exec(x, Ops(InjectionPlan(rows, min, keysyms), [])[..n], per);
            PoolOnly(y.keymap, x.keymap, ScratchFrom(rows, min))
    ensures n == |Ops(InjectionPlan(rows, min, keysyms), [])| ==> m == |keysyms|
  {
    m := InjectionPrefix(rows, x, min, per, keysyms, n);
    ghost var ops := Ops(InjectionPlan(rows, min, keysyms), []);
    if n == |ops| {
      InjectionTypesExactly(rows, x, min, per, keysyms);
      assert ops[..n] == ops;
      m := |keysyms|;
      assert keysyms[..m] == keysyms;
    }
  }

  /**
   Type a keysym list into the focused window. Whatever fails: what has been typed is a
   prefix of the list, and the keymap ends as it began except at keycodes whose own restore
   was refused. `Ok` means everything was typed and the keymap fully restored.
   */
  method TypeKeysyms(conn: XConnection, keysyms: seq<Keysym>)
    returns (r: Result<(), InjectError>, ghost m: nat, ghost failed: set<Keycode>)
    requires conn.Valid()
    modifies conn
    ensures m <= |keysyms| && conn.x.typed == old(conn.x.typed) + keysyms[..m]
    ensures conn.x.keymap.Keys == old(conn.x.keymap).Keys
    ensures forall kc :: kc in old(conn.x.keymap) && kc !in failed ==> conn.x.keymap[kc] == old(conn.x.keymap)[kc]
    ensures old(conn.refused) <= conn.refused
    ensures forall kc :: kc in failed ==> Clear(kc) in conn.refused[|old(conn.refused)|..]
    ensures r.Ok? ==> m == |keysyms| && failed == {} && conn.x.keymap == old(conn.x.keymap)
    ensures r == Err(RequestFailed) ==> conn.Failed(old(conn.clock), conn.clock)
    ensures keysyms == [] ==> r.Ok?
    ensures keysyms != [] && !conn.Failed(old(conn.clock), conn.clock) ==>
              (r.Ok? <==> conn.per >= 1 && FreeKeycodes(old(conn.x.keymap), conn.min, conn.count) != [])
  {
    m, failed := 0, {};
    assert conn.x.typed + keysyms[..0] == conn.x.typed;
    if keysyms == [] {
      return Ok(()), 0, {};
    }
    var found := FindAllScratchKeycodes(conn);
    if found.Err? {
      return Err(found.error), 0, {};
    }
    // Wait for the trigger modifiers, then release any still held.
    var waited := conn.Query();
    if !waited {
      return Err(RequestFailed), 0, {};
    }
    var released := conn.Query();
    if !released {
      return Err(RequestFailed), 0, {};
    }
    var ok;
    ok, m, failed := InjectAndRestore(conn, found.value, keysyms);
    var flushed := conn.Query();
    r := if flushed && ok then Ok(()) else Err(RequestFailed);
  }

  /** Typing a login and getting `Ok` means the target received exactly that username and password. */
  method TypeLogin(conn: XConnection, username: string, password: string) returns (r: Result<(), InjectError>)
    requires conn.Valid() && conn.x.typed == []
    modifies conn
    ensures r.Ok? ==> DecodeLogin(conn.x.typed) == Some((username, password))
  {
    var keys := BuildSequence(username, password);
    ghost var m, failed;
    r, m, failed := TypeKeysyms(conn, keys);
    LoginSequenceDecodes(username, password);
    assert r.Ok? ==> [] + keys[..m] == keys;
  }
}
