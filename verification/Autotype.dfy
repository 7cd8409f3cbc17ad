/** From a keyboard table and a keysym list to typed text: pool discovery, slots, and the end-to-end guarantees. */
module Autotype {
  import opened Basics
  import opened Keysyms
  import opened KeycodePlanner
  import opened KeyInjection

  // ----- the keyboard table -----

  /** `chunks(per)`. */
  function Chunks(table: seq<Keysym>, per: nat): seq<seq<Keysym>>
    requires per >= 1
    decreases |table|
  {
    if table == [] then []
    else if |table| <= per then [table]
    else [table[..per]] + Chunks(table[per..], per)
  }

  lemma {:induction false} ChunksOfTable(rows: seq<seq<Keysym>>, per: nat)
    requires per >= 1 && forall i :: 0 <= i < |rows| ==> |rows[i]| == per
    ensures Chunks(Concat(rows), per) == rows
  {
    if rows != [] {
      var table, rest := Concat(rows), Concat(rows[1..]);
      assert table[..per] == rows[0] && table[per..] == rest;
      ChunksOfTable(rows[1..], per);
      assert rows == [rows[0]] + rows[1..];
      if |rows| > 1 {
        assert rest == rows[1] + Concat(rows[1..][1..]);
      } else {
        assert rows[1..] == [] && table == rows[0];
      }
    }
  }

  predicate Unused(row: seq<Keysym>) {
    forall i :: 0 <= i < |row| ==> row[i] == NO_SYMBOL
  }

  /** Keycodes, counting from `kc`, whose every level is NoSymbol. */
  function ScratchFrom(rows: seq<seq<Keysym>>, kc: int): seq<Keycode>
    requires 0 <= kc && kc + |rows| <= 256
    decreases |rows|
  {
    if rows == [] then []
    else (if Unused(rows[0]) then [kc] else []) + ScratchFrom(rows[1..], kc + 1)
  }

  /** The first keycode, counting from `kc`, whose level-0 keysym is `target`. */
  function KeycodeFor(rows: seq<seq<Keysym>>, kc: int, target: Keysym): Option<Keycode>
    requires 0 <= kc && kc + |rows| <= 256
    decreases |rows|
  {
    if rows == [] then None
    else if rows[0] != [] && rows[0][0] == target then Some(kc)
    else KeycodeFor(rows[1..], kc + 1, target)
  }

  function SlotFor(rows: seq<seq<Keysym>>, min: int, ks: Keysym): Slot
    requires 0 <= min && min + |rows| <= 256
  {
    if ks == KEYSYM_TAB || ks == KEYSYM_RETURN then
      match KeycodeFor(rows, min, ks) case Some(kc) => Real(kc) case None => Scratch(ks)
    else Scratch(ks)
  }

  function SlotsFor(rows: seq<seq<Keysym>>, min: int, keysyms: seq<Keysym>): (slots: seq<Slot>)
    requires 0 <= min && min + |rows| <= 256
    ensures |slots| == |keysyms|
  {
    seq(|keysyms|, i requires 0 <= i < |keysyms| => SlotFor(rows, min, keysyms[i]))
  }

  /** `rows` lists the keymap's rows for the keycodes from `min` on, `per` levels each. */
  ghost predicate Lists(rows: seq<seq<Keysym>>, keymap: Keymap, min: int, per: nat) {
    && 0 <= min && min + |rows| <= 256 && per >= 1
    && (forall kc: Keycode :: kc in keymap <==> min <= kc < min + |rows|)
    && (forall i :: 0 <= i < |rows| ==> |rows[i]| == per && keymap[min + i] == rows[i])
  }

  lemma {:induction false} ScratchMembers(rows: seq<seq<Keysym>>, kc: int)
    requires 0 <= kc && kc + |rows| <= 256
    ensures forall c :: c in ScratchFrom(rows, kc) <==> kc <= c < kc + |rows| && Unused(rows[c - kc])
    ensures Distinct(ScratchFrom(rows, kc))
    decreases |rows|
  {
    if rows != [] {
      ScratchMembers(rows[1..], kc + 1);
      var rest := ScratchFrom(rows[1..], kc + 1);
      var head: seq<Keycode> := if Unused(rows[0]) then [kc] else [];
      assert ScratchFrom(rows, kc) == head + rest;
      var me: Keycode := kc;
      assert me !in rest;
      forall i | 0 <= i < |rest| ensures rest[i] != me {
        assert rest[i] in rest;
      }
      forall c ensures c in ScratchFrom(rows, kc) <==> kc <= c < kc + |rows| && Unused(rows[c - kc]) {
        assert c in head + rest <==> c in head || c in rest;
        if kc < c < kc + |rows| {
          assert rows[c - kc] == rows[1..][c - (kc + 1)];
        }
      }
    }
  }

  /** The key types `ks` without a modifier. */
  predicate Carries(row: seq<Keysym>, ks: Keysym) {
    row != [] && row[0] == ks
  }

  predicate FirstCarrier(rows: seq<seq<Keysym>>, r: int, ks: Keysym) {
    0 <= r < |rows| && Carries(rows[r], ks) && forall i :: 0 <= i < r ==> !Carries(rows[i], ks)
  }

  lemma {:induction false} KeycodeForMeaning(rows: seq<seq<Keysym>>, kc: int, target: Keysym)
    requires 0 <= kc && kc + |rows| <= 256
    ensures match KeycodeFor(rows, kc, target)
            case Some(c) => kc <= c < kc + |rows| && FirstCarrier(rows, c - kc, target)
            case None => forall i :: 0 <= i < |rows| ==> !Carries(rows[i], target)
    decreases |rows|
  {
    if rows != [] && !(rows[0] != [] && rows[0][0] == target) {
      KeycodeForMeaning(rows[1..], kc + 1, target);
      assert forall i :: 0 < i < |rows| ==> rows[i] == rows[1..][i - 1];
    }
  }

  /**
   Tab and Return are typed with the first key that carries them, exactly when the keyboard has
   one; every other keysym, and these two otherwise, take a scratch key.
   */
  lemma GenuineKeyExactly(rows: seq<seq<Keysym>>, min: int, keysyms: seq<Keysym>, i: nat)
    requires 0 <= min && min + |rows| <= 256 && i < |keysyms|
    ensures var slot, ks := SlotsFor(rows, min, keysyms)[i], keysyms[i];
            && (slot.Real? <==> (ks == 0xff09 || ks == 0xff0d) && exists r :: 0 <= r < |rows| && Carries(rows[r], ks))
            && (slot.Real? ==> FirstCarrier(rows, slot.kc - min, ks))
            && (slot.Scratch? ==> slot.ks == ks)
  {
    KeycodeForMeaning(rows, min, keysyms[i]);
  }

  /** The pool found is clean, genuine keys are outside it, and the slots mean the keysyms asked for. */
  lemma KeyboardIsReady(rows: seq<seq<Keysym>>, keymap: Keymap, min: int, per: nat, keysyms: seq<Keysym>)
    requires Lists(rows, keymap, min, per)
    ensures var pool, slots := ScratchFrom(rows, min), SlotsFor(rows, min, keysyms);
            Clean(keymap, pool, per) && RealOutside(slots, pool) && Meaning(keymap, slots) == keysyms
  {
    var pool, slots := ScratchFrom(rows, min), SlotsFor(rows, min, keysyms);
    ScratchMembers(rows, min);
    forall kc | kc in pool ensures kc in keymap && keymap[kc] == Levels(NO_SYMBOL, per) {
      assert keymap[min + (kc - min)] == rows[kc - min];
    }
    forall i | 0 <= i < |slots|
      ensures slots[i].Real? ==> slots[i].kc !in pool
      ensures Meaning(keymap, slots)[i] == keysyms[i]
    {
      KeycodeForMeaning(rows, min, keysyms[i]);
      if slots[i].Real? {
        var kc := slots[i].kc;
        assert keymap[min + (kc - min)] == rows[kc - min];
      }
    }
  }

  lemma {:induction false} ConcatMembers(segments: seq<seq<Slot>>, i: int, j: int)
    requires 0 <= i < |segments| && 0 <= j < |segments[i]|
    ensures segments[i][j] in Concat(segments)
    decreases |segments|
  {
    if i > 0 {
      ConcatMembers(segments[1..], i - 1, j);
    }
  }

  /** Everything the injection theorems need, from a keyboard that has a free keycode. */
  lemma PlanIsReady(rows: seq<seq<Keysym>>, keymap: Keymap, min: int, per: nat, keysyms: seq<Keysym>, final: seq<Op>)
    returns (segments: seq<seq<Slot>>)
    requires Lists(rows, keymap, min, per) && ScratchFrom(rows, min) != []
    requires ClearsOnly(final, ScratchFrom(rows, min))
    ensures var pool, slots := ScratchFrom(rows, min), SlotsFor(rows, min, keysyms);
            && Ready(keymap, Plan(slots, pool), segments, pool, per, final)
            && Concat(segments) == slots && Meaning(keymap, slots) == keysyms
  {
    var pool, slots := ScratchFrom(rows, min), SlotsFor(rows, min, keysyms);
    KeyboardIsReady(rows, keymap, min, per, keysyms);
    segments := PlanPerforms(slots, pool);
    forall i | 0 <= i < |segments| ensures RealOutside(segments[i], pool) {
      forall j | 0 <= j < |segments[i]| && segments[i][j].Real? ensures segments[i][j].kc !in pool {
        ConcatMembers(segments, i, j);
      }
    }
  }

  function InjectionPlan(rows: seq<seq<Keysym>>, min: int, keysyms: seq<Keysym>): seq<Batch>
    requires 0 <= min && min + |rows| <= 256 && ScratchFrom(rows, min) != []
  {
    Plan(SlotsFor(rows, min, keysyms), ScratchFrom(rows, min))
  }

  // ----- the theorems -----

  /** After any prefix of the injection requests, a prefix of the text is typed and only pool keycodes differ. */
  lemma InjectionPrefix(rows: seq<seq<Keysym>>, x: X, min: int, per: nat, keysyms: seq<Keysym>, n: nat) returns (m: nat)
    requires Lists(rows, x.keymap, min, per) && ScratchFrom(rows, min) != []
    requires n <= |Ops(InjectionPlan(rows, min, keysyms), [])|
    ensures var y := Exec(x, Ops(InjectionPlan(rows, min, keysyms), [])[..n], per);
            && m <= |keysyms| && y.typed == x.typed + keysyms[..m]
            && PoolOnly(y.keymap, x.keymap, ScratchFrom(rows, min))
  {
    var segments := PlanIsReady(rows, x.keymap, min, per, keysyms, []);
    m := PlanPrefix(x, InjectionPlan(rows, min, keysyms), segments, ScratchFrom(rows, min), per, n);
  }

  /** The plan types exactly the keysyms asked for. */
  lemma InjectionTypesExactly(rows: seq<seq<Keysym>>, x: X, min: int, per: nat, keysyms: seq<Keysym>)
    requires Lists(rows, x.keymap, min, per) && ScratchFrom(rows, min) != []
    ensures Exec(x, Ops(InjectionPlan(rows, min, keysyms), []), per).typed == x.typed + keysyms
  {
    var segments := PlanIsReady(rows, x.keymap, min, per, keysyms, []);
    PlanTypesAll(x, InjectionPlan(rows, min, keysyms), segments, ScratchFrom(rows, min), per);
  }

  /**
   A tap of `kc` for `slot`, resolved against `seen`: a scratch key means its keysym or
   nothing, a genuine key what it always meant.
   */
  ghost predicate SeenAsMeant(slot: Slot, kc: Keycode, seen: Keymap, base: Keymap, pool: seq<Keycode>, level: nat) {
    match slot
    case Scratch(ks) => Resolve(seen, kc, level) == ks || Resolve(seen, kc, level) == NO_SYMBOL
    case Real(own) => kc == own && kc !in pool && Resolve(seen, kc, level) == Resolve(base, kc, level)
  }

  /**
   Race freedom under a lagging reader. The target resolves tap `t` of batch `b` against the
   keymap after any `n` requests counted from just before that batch binds to just before the
   next one binds (for the last batch: to the end of the final restore), at any shift level.
   It sees the intended keysym or NoSymbol for a scratch key, and exactly the genuine key's
   own keysym for Tab and Return.
   */
  lemma LaggingReaderIsSafe(
    rows: seq<seq<Keysym>>, x: X, min: int, per: nat, keysyms: seq<Keysym>, b: nat, t: nat, n: nat, level: nat)
    returns (segments: seq<seq<Slot>>)
    requires Lists(rows, x.keymap, min, per) && ScratchFrom(rows, min) != []
    requires var plan := InjectionPlan(rows, min, keysyms);
             && b < |plan| && t < |plan[b].taps|
             && n <= |BatchOps(plan[b..], Clears(ScratchFrom(rows, min)))|
    ensures var pool, plan := ScratchFrom(rows, min), InjectionPlan(rows, min, keysyms);
            var final := Clears(pool);
            var seen := Exec(x, Before(plan, final, b) + BatchOps(plan[b..], final)[..n], per).keymap;
            && |segments| == |plan| && Concat(segments) == SlotsFor(rows, min, keysyms)
            && |segments[b]| == |plan[b].taps|
            && SeenAsMeant(segments[b][t], plan[b].taps[t], seen, x.keymap, pool, level)
  {
    var pool, plan := ScratchFrom(rows, min), InjectionPlan(rows, min, keysyms);
    var final := Clears(pool);
    ClearsMembers(pool);
    segments := PlanIsReady(rows, x.keymap, min, per, keysyms, final);
    var _ := DuringBatch(x, plan, segments, pool, per, final, b, n);
    var seen := Exec(x, Before(plan, final, b) + BatchOps(plan[b..], final)[..n], per).keymap;
    TapSeen(x.keymap, seen, plan[b], segments[b], pool, per, t, level);
  }

  lemma TapSeen(
    base: Keymap, seen: Keymap, b: Batch, segment: seq<Slot>, pool: seq<Keycode>, per: nat, t: nat, level: nat)
    requires Clean(base, pool, per) && Performs(b, segment, pool) && RealOutside(segment, pool)
    requires BaseOrBound(seen, base, b, per) && t < |segment|
    ensures SeenAsMeant(segment[t], b.taps[t], seen, base, pool, level)
  {
    var kc := b.taps[t];
    assert TapMeans(b, kc, segment[t]);
    if segment[t].Real? {
      assert forall ks :: (kc, ks) !in b.bindings;
    } else {
      var ks := segment[t].ks;
      BoundOnce(b, segment, pool, kc, ks);
    }
  }

  /** Within a batch a keycode is bound to one keysym. */
  lemma BoundOnce(b: Batch, segment: seq<Slot>, pool: seq<Keycode>, kc: Keycode, ks: Keysym)
    requires Distinct(pool) && Performs(b, segment, pool) && (kc, ks) in b.bindings
    ensures kc in pool && forall k :: (kc, k) in b.bindings ==> k == ks
  {
    var i :| 0 <= i < |b.bindings| && b.bindings[i] == (kc, ks);
    assert kc == pool[i];
    forall k | (kc, k) in b.bindings ensures k == ks {
      var j :| 0 <= j < |b.bindings| && b.bindings[j] == (kc, k);
      assert pool[i] == pool[j];
    }
  }

  /** The keymap after a restore pass in which the keycodes in `failed` refused. */
  ghost predicate RestoredExcept(after: Keymap, before: Keymap, pool: seq<Keycode>, failed: set<Keycode>, per: nat) {
    && after.Keys == before.Keys
    && forall kc :: kc in before ==>
         after[kc] == if kc in pool && kc !in failed then Levels(NO_SYMBOL, per) else before[kc]
  }

  /**
   Injection always cleans up: wherever the requests stopped and whichever restores failed,
   the keymap ends as it began except at keycodes whose own restore failed.
   */
  lemma InjectionCleansUp(
    rows: seq<seq<Keysym>>, x: X, min: int, per: nat, keysyms: seq<Keysym>, n: nat, failed: set<Keycode>, after: Keymap)
    requires Lists(rows, x.keymap, min, per) && ScratchFrom(rows, min) != []
    requires n <= |Ops(InjectionPlan(rows, min, keysyms), [])|
    requires RestoredExcept(after, Exec(x, Ops(InjectionPlan(rows, min, keysyms), [])[..n], per).keymap,
                            ScratchFrom(rows, min), failed, per)
    ensures after.Keys == x.keymap.Keys
    ensures forall kc :: kc in x.keymap && kc !in failed ==> after[kc] == x.keymap[kc]
  {
    var m := InjectionPrefix(rows, x, min, per, keysyms, n);
    KeyboardIsReady(rows, x.keymap, min, per, keysyms);
  }
}
