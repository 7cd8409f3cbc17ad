/**
 The keycode planner: slots to batches over a pool of scratch keycodes, one keycode per
 distinct keysym, bound once per batch.
 */
module KeycodePlanner {
  import opened Basics
  import opened Keysyms

  type Keycode = byte

  datatype Slot = Real(kc: Keycode) | Scratch(ks: Keysym)

  datatype Batch = Batch(bindings: seq<(Keycode, Keysym)>, taps: seq<Keycode>)

  const EMPTY: Batch := Batch([], [])

  /** Position of the binding for `ks`, if the batch has one. */
  function Lookup(bindings: seq<(Keycode, Keysym)>, ks: Keysym): Option<nat> {
    if bindings == [] then None
    else if bindings[|bindings| - 1].1 == ks then Some(|bindings| - 1)
    else Lookup(bindings[..|bindings| - 1], ks)
  }

  lemma {:induction false} LookupMeaning(bindings: seq<(Keycode, Keysym)>, ks: Keysym)
    ensures Lookup(bindings, ks).Some? ==>
              Lookup(bindings, ks).value < |bindings| && bindings[Lookup(bindings, ks).value].1 == ks
    ensures Lookup(bindings, ks).None? <==> forall i :: 0 <= i < |bindings| ==> bindings[i].1 != ks
  {
    if bindings != [] {
      LookupMeaning(bindings[..|bindings| - 1], ks);
    }
  }

  /** A pool serves the slots: it is non-empty unless no slot needs it. */
  predicate Serves(pool: seq<Keycode>, slots: seq<Slot>) {
    |pool| > 0 || forall i :: 0 <= i < |slots| ==> slots[i].Real?
  }

  /** One slot: the batch it closes, if any, and the batch under construction after it. */
  function Advance(cur: Batch, pool: seq<Keycode>, slot: Slot): (r: (seq<Batch>, Batch))
    requires |cur.bindings| <= |pool| && (slot.Scratch? ==> |pool| > 0)
    ensures 0 <= |r.1.bindings| <= |pool| && r.1.taps != []
  {
    match slot
    case Real(kc) => ([], cur.(taps := cur.taps + [kc]))
    case Scratch(ks) =>
      LookupMeaning(cur.bindings, ks);
      match Lookup(cur.bindings, ks)
      case Some(i) => ([], cur.(taps := cur.taps + [cur.bindings[i].0]))
      case None =>
        if |cur.bindings| == |pool| then ([cur], Batch([(pool[0], ks)], [pool[0]]))
        else
          var kc := pool[|cur.bindings|];
          ([], Batch(cur.bindings + [(kc, ks)], cur.taps + [kc]))
  }

  /** Continue planning `slots` with `cur` the batch under construction. */
  function PlanFrom(slots: seq<Slot>, pool: seq<Keycode>, cur: Batch): seq<Batch>
    requires Serves(pool, slots) && |cur.bindings| <= |pool|
    decreases |slots|
  {
    if slots == [] then (if cur == EMPTY then [] else [cur])
    else
      var (closed, next) := Advance(cur, pool, slots[0]);
      closed + PlanFrom(slots[1..], pool, next)
  }

  function Plan(slots: seq<Slot>, pool: seq<Keycode>): seq<Batch>
    requires Serves(pool, slots)
  {
    PlanFrom(slots, pool, EMPTY)
  }

  // ----- the loop that computes it -----

  /** `assignment` is the batch's bindings seen as a map from keysym to keycode. */
  ghost predicate Mirrors(assignment: map<Keysym, Keycode>, bindings: seq<(Keycode, Keysym)>) {
    && |assignment| == |bindings|
    && (forall ks :: ks in assignment <==> Lookup(bindings, ks).Some?)
    && (forall ks :: ks in assignment ==>
          Lookup(bindings, ks).value < |bindings| && assignment[ks] == bindings[Lookup(bindings, ks).value].0)
  }

  lemma MirrorsExtends(assignment: map<Keysym, Keycode>, bindings: seq<(Keycode, Keysym)>, kc: Keycode, ks: Keysym)
    requires Mirrors(assignment, bindings) && ks !in assignment
    ensures Mirrors(assignment[ks := kc], bindings + [(kc, ks)])
  {
    var b := bindings + [(kc, ks)];
    assert b[..|bindings|] == bindings && b[|bindings|] == (kc, ks);
    assert assignment[ks := kc].Keys == assignment.Keys + {ks};
  }

  /** One turn of the planning loop; `closed` is the batch pushed, if any. */
  method PlaceSlot(assignment: map<Keysym, Keycode>, bindings: seq<(Keycode, Keysym)>, taps: seq<Keycode>,
                   pool: seq<Keycode>, slot: Slot)
    returns (closed: seq<Batch>, assignment': map<Keysym, Keycode>, bindings': seq<(Keycode, Keysym)>,
             taps': seq<Keycode>)
    requires |bindings| <= |pool| && Mirrors(assignment, bindings) && (slot.Scratch? ==> |pool| > 0)
    ensures (closed, Batch(bindings', taps')) == Advance(Batch(bindings, taps), pool, slot)
    ensures Mirrors(assignment', bindings')
  {
    closed, assignment', bindings', taps' := [], assignment, bindings, taps;
    match slot
    case Real(kc) =>
      taps' := taps' + [kc];
    case Scratch(ks) =>
      if ks in assignment' {
        taps' := taps' + [assignment'[ks]];
      } else {
        if |assignment'| == |pool| {
          closed := [Batch(bindings', taps')];
          bindings', taps', assignment' := [], [], map[];
        }
        var kc := pool[|assignment'|];
        MirrorsExtends(assignment', bindings', kc, ks);
        assignment' := assignment'[ks := kc];
        bindings' := bindings' + [(kc, ks)];
        taps' := taps' + [kc];
        if closed != [] {
          assert bindings' == [(pool[0], ks)] && taps' == [pool[0]];
        }
      }
  }

  method PlanBatches(slots: seq<Slot>, pool: seq<Keycode>) returns (batches: seq<Batch>)
    requires Serves(pool, slots)
    ensures batches == Plan(slots, pool)
  {
    batches := [];
    var bindings: seq<(Keycode, Keysym)>, taps: seq<Keycode> := [], [];
    var assignment: map<Keysym, Keycode> := map[];
    for n := 0 to |slots|
      invariant |bindings| <= |pool| && Mirrors(assignment, bindings)
      invariant Serves(pool, slots[n..])
      invariant batches + PlanFrom(slots[n..], pool, Batch(bindings, taps)) == Plan(slots, pool)
    {
      assert slots[n..][0] == slots[n] && slots[n..][1..] == slots[n + 1..];
      var closed;
      closed, assignment, bindings, taps := PlaceSlot(assignment, bindings, taps, pool, slots[n]);
      ghost var tail := PlanFrom(slots[n + 1..], pool, Batch(bindings, taps));
      assert batches + (closed + tail) == (batches + closed) + tail;
      batches := batches + closed;
    }
    assert slots[|slots|..] == [];
    if bindings != [] || taps != [] {
      batches := batches + [Batch(bindings, taps)];
    }
  }

  // ----- what a plan types -----

  /** The keysym a tap of `kc` produces in a batch: its binding, or a genuine key. */
  ghost predicate TapMeans(b: Batch, kc: Keycode, slot: Slot) {
    match slot
    case Real(r) => kc == r
    case Scratch(ks) => (kc, ks) in b.bindings
  }

  /** A batch performs the slots of one segment, tap by tap, over the pool. */
  ghost predicate Performs(b: Batch, segment: seq<Slot>, pool: seq<Keycode>) {
    && |b.bindings| <= |pool|
    && (forall i :: 0 <= i < |b.bindings| ==> b.bindings[i].0 == pool[i])
    && (forall i, j :: 0 <= i < j < |b.bindings| ==> b.bindings[i].1 != b.bindings[j].1)
    && (forall i :: 0 <= i < |b.bindings| ==> Scratch(b.bindings[i].1) in segment)
    && |b.taps| == |segment|
    && (forall i :: 0 <= i < |segment| ==> TapMeans(b, b.taps[i], segment[i]))
  }

  function Concat<T>(parts: seq<seq<T>>): seq<T> {
    if parts == [] then [] else parts[0] + Concat(parts[1..])
  }

  /** `batches` performs `slots` split into the given contiguous segments. */
  ghost predicate PerformsAll(batches: seq<Batch>, segments: seq<seq<Slot>>, pool: seq<Keycode>) {
    |batches| == |segments| && forall i :: 0 <= i < |batches| ==> Performs(batches[i], segments[i], pool)
  }

  lemma PerformsNext(cur: Batch, done: seq<Slot>, pool: seq<Keycode>, slot: Slot, next: Batch)
    requires Performs(cur, done, pool)
    requires next.taps != [] && next.taps[..|next.taps| - 1] == cur.taps
    requires TapMeans(next, next.taps[|next.taps| - 1], slot)
    requires || next.bindings == cur.bindings
             || (&& slot.Scratch? && Lookup(cur.bindings, slot.ks).None? && |cur.bindings| < |pool|
                 && next.bindings == cur.bindings + [(pool[|cur.bindings|], slot.ks)])
    ensures Performs(next, done + [slot], pool)
  {
    if slot.Scratch? {
      LookupMeaning(cur.bindings, slot.ks);
    }
    var segment := done + [slot];
    forall i | 0 <= i < |segment| ensures TapMeans(next, next.taps[i], segment[i]) {
      if i < |done| {
        assert next.taps[i] == cur.taps[i];
      }
    }
    forall i | 0 <= i < |next.bindings| ensures Scratch(next.bindings[i].1) in segment {
      if i == |cur.bindings| {
        assert segment[|done|] == slot;
      } else {
        assert Scratch(cur.bindings[i].1) in done;
      }
    }
  }

  lemma AdvancePerforms(cur: Batch, done: seq<Slot>, pool: seq<Keycode>, slot: Slot)
    requires Performs(cur, done, pool) && (slot.Scratch? ==> |pool| > 0)
    ensures Advance(cur, pool, slot).0 == [] ==> Performs(Advance(cur, pool, slot).1, done + [slot], pool)
    ensures Advance(cur, pool, slot).0 != [] ==>
              Advance(cur, pool, slot).0 == [cur] && Performs(Advance(cur, pool, slot).1, [slot], pool)
  {
    var (closed, next) := Advance(cur, pool, slot);
    assert closed == [] ==> next.taps[..|next.taps| - 1] == cur.taps;
    match slot
    case Real(_) => PerformsNext(cur, done, pool, slot, next);
    case Scratch(ks) =>
      LookupMeaning(cur.bindings, ks);
      match Lookup(cur.bindings, ks)
      case Some(i) =>
        assert cur.bindings[i] == (next.taps[|cur.taps|], ks);
        PerformsNext(cur, done, pool, slot, next);
      case None =>
        var n := if closed == [] then |cur.bindings| else 0;
        assert next.bindings[n] == (next.taps[|next.taps| - 1], ks);
        if closed == [] {
          PerformsNext(cur, done, pool, slot, next);
        } else {
          PerformsNext(EMPTY, [], pool, slot, next);
          assert [] + [slot] == [slot];
        }
  }

  /** One batch and its segment. */
  ghost predicate PerformsOne(b: Batch, segment: seq<Slot>, pool: seq<Keycode>) {
    PerformsAll([b], [segment], pool)
  }

  lemma PerformsOneMeaning(b: Batch, segment: seq<Slot>, pool: seq<Keycode>)
    ensures PerformsOne(b, segment, pool) <==> Performs(b, segment, pool)
  {
    assert [b][0] == b && [segment][0] == segment;
  }

  lemma AdvancePerformsOne(cur: Batch, done: seq<Slot>, pool: seq<Keycode>, slot: Slot)
    requires |cur.bindings| <= |pool| && PerformsOne(cur, done, pool) && (slot.Scratch? ==> |pool| > 0)
    ensures Advance(cur, pool, slot).0 == [] ==> PerformsOne(Advance(cur, pool, slot).1, done + [slot], pool)
    ensures Advance(cur, pool, slot).0 != [] ==>
              Advance(cur, pool, slot).0 == [cur] && PerformsOne(Advance(cur, pool, slot).1, [slot], pool)
  {
    PerformsOneMeaning(cur, done, pool);
    AdvancePerforms(cur, done, pool, slot);
    PerformsOneMeaning(Advance(cur, pool, slot).1, done + [slot], pool);
    PerformsOneMeaning(Advance(cur, pool, slot).1, [slot], pool);
  }

  lemma PerformsCons(b: Batch, segment: seq<Slot>, batches: seq<Batch>, segments: seq<seq<Slot>>, pool: seq<Keycode>)
    requires PerformsOne(b, segment, pool) && PerformsAll(batches, segments, pool)
    ensures PerformsAll([b] + batches, [segment] + segments, pool)
    ensures Concat([segment] + segments) == segment + Concat(segments)
  {
    PerformsOneMeaning(b, segment, pool);
    assert ([segment] + segments)[1..] == segments;
  }

  /** Planning the rest completes the current segment and performs the remaining slots segment by segment. */
  lemma {:induction false} PlanFromPerforms(slots: seq<Slot>, pool: seq<Keycode>, cur: Batch, done: seq<Slot>)
    returns (segments: seq<seq<Slot>>)
    requires Serves(pool, slots) && |cur.bindings| <= |pool| && PerformsOne(cur, done, pool)
    ensures PerformsAll(PlanFrom(slots, pool, cur), segments, pool)
    ensures Concat(segments) == done + slots
    decreases |slots|
  {
    if slots == [] {
      segments := if cur == EMPTY then [] else [done];
      PerformsOneMeaning(cur, done, pool);
      assert [done][1..] == [];
    } else {
      var slot, rest := slots[0], slots[1..];
      AdvancePerformsOne(cur, done, pool, slot);
      var closed, next := Advance(cur, pool, slot).0, Advance(cur, pool, slot).1;
      if closed == [] {
        segments := PlanFromPerforms(rest, pool, next, done + [slot]);
        assert done + slots == (done + [slot]) + rest;
        assert PlanFrom(slots, pool, cur) == PlanFrom(rest, pool, next);
      } else {
        var tail := PlanFromPerforms(rest, pool, next, [slot]);
        segments := [done] + tail;
        PerformsCons(cur, done, PlanFrom(rest, pool, next), tail, pool);
        assert slots == [slot] + rest;
      }
    }
  }

  /**
   The plan is a batching of the slots: cut into contiguous segments, each batch binds every
   pool keycode at most once, binds one keycode per distinct keysym of its segment, and its
   taps mean the segment's slots in order.
   */
  lemma PlanPerforms(slots: seq<Slot>, pool: seq<Keycode>) returns (segments: seq<seq<Slot>>)
    requires Serves(pool, slots)
    ensures PerformsAll(Plan(slots, pool), segments, pool)
    ensures Concat(segments) == slots
    ensures forall i :: 0 <= i < |segments| ==> |Needs(segments[i])| <= |pool|
  {
    PerformsOneMeaning(EMPTY, [], pool);
    segments := PlanFromPerforms(slots, pool, EMPTY, []);
    forall i | 0 <= i < |segments| ensures |Needs(segments[i])| <= |pool| {
      BatchBindsItsNeeds(Plan(slots, pool)[i], segments[i], pool);
    }
  }

  lemma {:induction false} BoundAtMost(bindings: seq<(Keycode, Keysym)>)
    ensures |BoundKeysyms(bindings)| <= |bindings|
  {
    if bindings != [] {
      var n := |bindings| - 1;
      BoundAtMost(bindings[..n]);
      assert forall p :: p in bindings <==> p in bindings[..n] || p == bindings[n];
      assert BoundKeysyms(bindings) == BoundKeysyms(bindings[..n]) + {bindings[n].1};
    }
  }

  lemma BatchBindsItsNeeds(b: Batch, segment: seq<Slot>, pool: seq<Keycode>)
    requires Performs(b, segment, pool)
    ensures |Needs(segment)| <= |pool|
  {
    forall ks | ks in Needs(segment) ensures ks in BoundKeysyms(b.bindings) {
      var s :| s in segment && s.Scratch? && s.ks == ks;
      var i :| 0 <= i < |segment| && segment[i] == s;
      assert TapMeans(b, b.taps[i], segment[i]);
    }
    SubsetCard(Needs(segment), BoundKeysyms(b.bindings));
    BoundAtMost(b.bindings);
  }

  // ----- optimality -----

  /** The distinct keysyms a segment needs scratch keycodes for. */
  function Needs(segment: seq<Slot>): set<Keysym> {
    set s | s in segment && s.Scratch? :: s.ks
  }

  /** How many times greedy batching starts a new batch, with `open` already bound. */
  function Closings(slots: seq<Slot>, open: set<Keysym>, k: nat): nat {
    if slots == [] then 0
    else if slots[0].Real? || slots[0].ks in open then Closings(slots[1..], open, k)
    else if |open| == k then 1 + Closings(slots[1..], {slots[0].ks}, k)
    else Closings(slots[1..], open + {slots[0].ks}, k)
  }

  lemma SubsetCard(a: set<Keysym>, b: set<Keysym>)
    requires a <= b
    ensures |a| <= |b|
    ensures |a| == |b| ==> a == b
  {
    assert b == a + (b - a);
    assert |b| == |a| + |b - a|;
  }

  /** Starting with more keysyms bound costs at most one extra batch, and never saves one. */
  lemma {:induction false} ClosingsMonotone(slots: seq<Slot>, a: set<Keysym>, b: set<Keysym>, k: nat)
    requires k >= 1 && a <= b && |b| <= k
    ensures Closings(slots, a, k) <= Closings(slots, b, k) <= Closings(slots, a, k) + 1
    decreases |slots|
  {
    if slots != [] {
      var rest := slots[1..];
      SubsetCard(a, b);
      if slots[0].Real? || slots[0].ks in a {
        ClosingsMonotone(rest, a, b, k);
      } else {
        var ks := slots[0].ks;
        if ks in b {
          assert a + {ks} <= b;
          ClosingsMonotone(rest, a + {ks}, b, k);
        } else if |a| == k {
          ClosingsMonotone(rest, {ks}, {ks}, k);
        } else if |b| == k {
          ClosingsMonotone(rest, {ks}, a + {ks}, k);
        } else {
          ClosingsMonotone(rest, a + {ks}, b + {ks}, k);
        }
      }
    }
  }

  /** Within a segment that fits the pool, greedy never closes a batch it started empty. */
  lemma {:induction false} SegmentFits(segment: seq<Slot>, rest: seq<Slot>, open: set<Keysym>, k: nat)
    requires |open + Needs(segment)| <= k
    ensures Closings(segment + rest, open, k) == Closings(rest, open + Needs(segment), k)
    decreases |segment|
  {
    var all := segment + rest;
    if segment == [] {
      assert all == rest;
      assert open + Needs(segment) == open;
    } else {
      assert all[1..] == segment[1..] + rest;
      var open' := if segment[0].Real? then open else open + {segment[0].ks};
      assert open' + Needs(segment[1..]) == open + Needs(segment) by {
        assert forall s :: s in segment <==> s == segment[0] || s in segment[1..];
      }
      if segment[0].Scratch? && segment[0].ks !in open {
        SubsetCard(open', open + Needs(segment));
        assert |open'| == |open| + 1;
      } else {
        assert open' == open;
      }
      SegmentFits(segment[1..], rest, open', k);
    }
  }

  lemma {:induction false} ClosingsBelowAnyPartition(segments: seq<seq<Slot>>, k: nat)
    requires k >= 1 && segments != []
    requires forall i :: 0 <= i < |segments| ==> |Needs(segments[i])| <= k
    ensures 1 + Closings(Concat(segments), {}, k) <= |segments|
    decreases |segments|
  {
    var rest := Concat(segments[1..]);
    assert {} + Needs(segments[0]) == Needs(segments[0]);
    SegmentFits(segments[0], rest, {}, k);
    if |segments| == 1 {
      assert rest == [];
    } else {
      ClosingsMonotone(rest, {}, Needs(segments[0]), k);
      ClosingsBelowAnyPartition(segments[1..], k);
    }
  }

  function BoundKeysyms(bindings: seq<(Keycode, Keysym)>): set<Keysym> {
    set p | p in bindings :: p.1
  }

  lemma AdvanceBinds(cur: Batch, pool: seq<Keycode>, slot: Slot)
    requires 1 <= |pool| && |cur.bindings| <= |pool|
    requires |BoundKeysyms(cur.bindings)| == |cur.bindings|
    ensures var (closed, next) := Advance(cur, pool, slot);
            var bound := BoundKeysyms(cur.bindings);
            && |BoundKeysyms(next.bindings)| == |next.bindings|
            && (if slot.Real? || slot.ks in bound then closed == [] && BoundKeysyms(next.bindings) == bound
                else if |bound| == |pool| then closed == [cur] && BoundKeysyms(next.bindings) == {slot.ks}
                else closed == [] && BoundKeysyms(next.bindings) == bound + {slot.ks})
  {
    var (closed, next) := Advance(cur, pool, slot);
    if slot.Scratch? {
      LookupMeaning(cur.bindings, slot.ks);
      var hit := Lookup(cur.bindings, slot.ks);
      if hit.Some? {
        assert cur.bindings[hit.value] in cur.bindings;
      } else if |cur.bindings| == |pool| {
        assert next.bindings == [(pool[0], slot.ks)];
        assert BoundKeysyms(next.bindings) == {slot.ks};
      } else {
        var n := |cur.bindings|;
        assert next.bindings == cur.bindings + [(pool[n], slot.ks)];
        assert next.bindings[n].1 == slot.ks;
        assert BoundKeysyms(next.bindings) == BoundKeysyms(cur.bindings) + {slot.ks};
      }
    }
  }

  lemma {:induction false} PlanCount(slots: seq<Slot>, pool: seq<Keycode>, cur: Batch)
    requires |pool| >= 1 && |cur.bindings| <= |pool|
    requires |BoundKeysyms(cur.bindings)| == |cur.bindings|
    requires cur != EMPTY || slots != []
    ensures |PlanFrom(slots, pool, cur)| == 1 + Closings(slots, BoundKeysyms(cur.bindings), |pool|)
    decreases |slots|
  {
    if slots != [] {
      AdvanceBinds(cur, pool, slots[0]);
      PlanCount(slots[1..], pool, Advance(cur, pool, slots[0]).1);
    }
  }

  /**
   Greedy batching is optimal: no split of the slots into contiguous segments, each needing
   at most as many distinct scratch keysyms as the pool has keycodes, has fewer segments.
   */
  lemma PlanIsOptimal(slots: seq<Slot>, pool: seq<Keycode>, segments: seq<seq<Slot>>)
    requires |pool| >= 1 && Concat(segments) == slots
    requires forall i :: 0 <= i < |segments| ==> |Needs(segments[i])| <= |pool|
    ensures |Plan(slots, pool)| <= |segments|
  {
    if slots != [] {
      assert BoundKeysyms([]) == {};
      PlanCount(slots, pool, EMPTY);
      ClosingsBelowAnyPartition(segments, |pool|);
    }
  }
}
