/**
 Injection: the requests a plan turns into, executed on a model of the X keymap.

 A request is one `Op`; a run is a sequence of them. What a lagging reader of the keymap
 can see, what a run that fails partway leaves behind, and what it has typed by then are
 statements about the states after the prefixes of that sequence.
 */
module KeyInjection {
  import opened Basics
  import opened Keysyms
  import opened KeycodePlanner

  type Keymap = map<Keycode, seq<Keysym>>

  datatype X = X(keymap: Keymap, typed: seq<Keysym>)

  datatype Op = Bind(kc: Keycode, ks: Keysym) | Clear(kc: Keycode) | Press(kc: Keycode) | Release(kc: Keycode)

  /** A keycode with `ks` at every level. */
  function Levels(ks: Keysym, per: nat): seq<Keysym> {
    seq(per, _ => ks)
  }

  /** What a keycode produces at a shift level. */
  function Resolve(keymap: Keymap, kc: Keycode, level: nat): Keysym {
    if kc in keymap && level < |keymap[kc]| then keymap[kc][level] else NO_SYMBOL
  }

  function Apply(x: X, op: Op, per: nat): X {
    match op
    case Bind(kc, ks) => x.(keymap := x.keymap[kc := Levels(ks, per)])
    case Clear(kc) => x.(keymap := x.keymap[kc := Levels(NO_SYMBOL, per)])
    case Press(kc) => x.(typed := x.typed + [Resolve(x.keymap, kc, 0)])
    case Release(_) => x
  }

  function Exec(x: X, ops: seq<Op>, per: nat): X
    decreases |ops|
  {
    if ops == [] then x else Exec(Apply(x, ops[0], per), ops[1..], per)
  }

  lemma {:induction false} ExecAppend(x: X, a: seq<Op>, b: seq<Op>, per: nat)
    ensures Exec(x, a + b, per) == Exec(Exec(x, a, per), b, per)
    decreases |a|
  {
    if a == [] {
      assert a + b == b;
    } else {
      assert (a + b)[1..] == a[1..] + b;
      ExecAppend(Apply(x, a[0], per), a[1..], b, per);
    }
  }

  // ----- the requests of a plan -----

  function Binds(bindings: seq<(Keycode, Keysym)>): (ops: seq<Op>)
    ensures |ops| == |bindings|
  {
    if bindings == [] then [] else [Bind(bindings[0].0, bindings[0].1)] + Binds(bindings[1..])
  }

  function Taps(taps: seq<Keycode>): (ops: seq<Op>)
    ensures |ops| == 2 * |taps|
  {
    if taps == [] then [] else [Press(taps[0]), Release(taps[0])] + Taps(taps[1..])
  }

  function Clears(kcs: seq<Keycode>): (ops: seq<Op>)
    ensures |ops| == |kcs|
  {
    if kcs == [] then [] else [Clear(kcs[0])] + Clears(kcs[1..])
  }

  function BoundKeycodes(bindings: seq<(Keycode, Keysym)>): seq<Keycode> {
    if bindings == [] then [] else [bindings[0].0] + BoundKeycodes(bindings[1..])
  }

  /** The requests after a batch's taps. */
  function Cleanup(batches: seq<Batch>, final: seq<Op>): seq<Op>
    requires batches != []
  {
    if |batches| == 1 then final else Clears(BoundKeycodes(batches[0].bindings))
  }

  /** Bind, tap, and restore before the next batch; the last batch is followed by `final` instead. */
  function BatchOps(batches: seq<Batch>, final: seq<Op>): seq<Op>
    requires batches != []
  {
    Binds(batches[0].bindings) + Taps(batches[0].taps) + Cleanup(batches, final)
  }

  function Ops(batches: seq<Batch>, final: seq<Op>): seq<Op> {
    if batches == [] then []
    else BatchOps(batches, final) + Ops(batches[1..], final)
  }

  // ----- setting -----

  /** The scratch pool as found: distinct keycodes, NoSymbol at each of `per` levels. */
  ghost predicate Clean(keymap: Keymap, pool: seq<Keycode>, per: nat) {
    && Distinct(pool)
    && forall kc :: kc in pool ==> kc in keymap && keymap[kc] == Levels(NO_SYMBOL, per)
  }

  /** The keysym a slot stands for, genuine keys read from the keymap. */
  function Meaning(keymap: Keymap, slots: seq<Slot>): (ks: seq<Keysym>)
    ensures |ks| == |slots|
  {
    seq(|slots|, i requires 0 <= i < |slots| =>
      match slots[i] case Real(kc) => Resolve(keymap, kc, 0) case Scratch(ks) => ks)
  }

  ghost predicate RealOutside(slots: seq<Slot>, pool: seq<Keycode>) {
    forall i :: 0 <= i < |slots| && slots[i].Real? ==> slots[i].kc !in pool
  }

  /** Requests that only touch the pool. */
  ghost predicate ClearsOnly(ops: seq<Op>, pool: seq<Keycode>) {
    forall op :: op in ops ==> op.Clear? && op.kc in pool
  }

  /** Each keycode is as it was in `base`, or carries the batch's own binding at every level. */
  ghost predicate BaseOrBound(keymap: Keymap, base: Keymap, b: Batch, per: nat) {
    && keymap.Keys == base.Keys
    && forall kc :: kc in base ==>
         || keymap[kc] == base[kc]
         || exists ks :: (kc, ks) in b.bindings && keymap[kc] == Levels(ks, per)
  }

  // ----- one batch -----

  /** Requests a batch may issue: bindings of its own, clears inside the pool, taps. */
  ghost predicate OwnOps(ops: seq<Op>, b: Batch, pool: seq<Keycode>) {
    forall op :: op in ops ==>
      match op
      case Bind(kc, ks) => (kc, ks) in b.bindings && kc in pool
      case Clear(kc) => kc in pool
      case _ => true
  }

  lemma {:induction false} OwnOpsKeepBaseOrBound(
    x: X, ops: seq<Op>, base: Keymap, b: Batch, pool: seq<Keycode>, per: nat)
    requires Clean(base, pool, per) && BaseOrBound(x.keymap, base, b, per) && OwnOps(ops, b, pool)
    ensures BaseOrBound(Exec(x, ops, per).keymap, base, b, per)
    decreases |ops|
  {
    if ops != [] {
      var y := Apply(x, ops[0], per);
      assert ops[0] in ops && forall op :: op in ops[1..] ==> op in ops;
      assert BaseOrBound(y.keymap, base, b, per);
      OwnOpsKeepBaseOrBound(y, ops[1..], base, b, pool, per);
    }
  }

  lemma {:induction false} BindsEffect(x: X, bindings: seq<(Keycode, Keysym)>, per: nat)
    requires forall i, j :: 0 <= i < j < |bindings| ==> bindings[i].0 != bindings[j].0
    ensures var y := Exec(x, Binds(bindings), per);
            && y.typed == x.typed
            && (forall kc :: kc in x.keymap && (forall i :: 0 <= i < |bindings| ==> bindings[i].0 != kc) ==>
                  kc in y.keymap && y.keymap[kc] == x.keymap[kc])
            && (forall i :: 0 <= i < |bindings| ==>
                  bindings[i].0 in y.keymap && y.keymap[bindings[i].0] == Levels(bindings[i].1, per))
    decreases |bindings|
  {
    if bindings != [] {
      var (kc, ks) := bindings[0];
      var x1 := Apply(x, Bind(kc, ks), per);
      BindsEffect(x1, bindings[1..], per);
      var y := Exec(x, Binds(bindings), per);
      assert y == Exec(x1, Binds(bindings[1..]), per);
      assert forall i :: 0 <= i < |bindings[1..]| ==> bindings[1..][i] == bindings[i + 1];
      assert y.keymap[kc] == Levels(ks, per);
      forall i | 0 <= i < |bindings|
        ensures bindings[i].0 in y.keymap && y.keymap[bindings[i].0] == Levels(bindings[i].1, per)
      {
        if i > 0 {
          assert bindings[i] == bindings[1..][i - 1];
        }
      }
    }
  }

  lemma OneTap(x: X, taps: seq<Keycode>, n: nat, per: nat)
    requires taps != [] && 2 <= n <= 2 * |taps|
    ensures Exec(x, Taps(taps)[..n], per)
            == Exec(X(x.keymap, x.typed + [Resolve(x.keymap, taps[0], 0)]), Taps(taps[1..])[..n - 2], per)
  {
    var tap, rest := [Press(taps[0]), Release(taps[0])], Taps(taps[1..])[..n - 2];
    assert Taps(taps)[..n] == tap + rest;
    assert tap[1..] == [Release(taps[0])] && tap[1..][1..] == [];
    ExecAppend(x, tap, rest, per);
  }

  /** After `n` requests of a tap sequence, half of them rounded up have typed. */
  lemma {:induction false} TapsEffect(x: X, taps: seq<Keycode>, meaning: seq<Keysym>, n: nat, per: nat)
    requires |meaning| == |taps| && n <= 2 * |taps|
    requires forall i :: 0 <= i < |taps| ==> Resolve(x.keymap, taps[i], 0) == meaning[i]
    ensures Exec(x, Taps(taps)[..n], per) == X(x.keymap, x.typed + meaning[..(n + 1) / 2])
    decreases |taps|
  {
    var ops := Taps(taps);
    if n == 0 {
      assert x.typed + meaning[..0] == x.typed;
    } else if n == 1 {
      assert ops[..1] == [Press(taps[0])];
      assert ops[..1][1..] == [];
      assert meaning[..1] == [meaning[0]];
    } else {
      var x1 := X(x.keymap, x.typed + [meaning[0]]);
      OneTap(x, taps, n, per);
      TapsEffect(x1, taps[1..], meaning[1..], n - 2, per);
      var k := (n - 2 + 1) / 2;
      assert meaning[..k + 1] == [meaning[0]] + meaning[1..][..k];
      assert x.typed + meaning[..k + 1] == x1.typed + meaning[1..][..k];
    }
  }

  lemma {:induction false} ClearsEffect(x: X, ops: seq<Op>, pool: seq<Keycode>, per: nat)
    requires ClearsOnly(ops, pool)
    ensures Exec(x, ops, per).typed == x.typed
    decreases |ops|
  {
    if ops != [] {
      assert ops[0] in ops;
      ClearsEffect(Apply(x, ops[0], per), ops[1..], pool, per);
    }
  }

  lemma {:induction false} ClearsRestore(x: X, kcs: seq<Keycode>, per: nat)
    requires forall kc :: kc in kcs ==> kc in x.keymap
    ensures var y := Exec(x, Clears(kcs), per);
            && y.typed == x.typed && y.keymap.Keys == x.keymap.Keys
            && forall kc :: kc in x.keymap ==>
                 y.keymap[kc] == if kc in kcs then Levels(NO_SYMBOL, per) else x.keymap[kc]
    decreases |kcs|
  {
    if kcs != [] {
      var x1 := Apply(x, Clear(kcs[0]), per);
      assert x1.keymap.Keys == x.keymap.Keys;
      ClearsRestore(x1, kcs[1..], per);
      assert forall kc :: kc in kcs <==> kc == kcs[0] || kc in kcs[1..];
    }
  }

  lemma {:induction false} BoundKeycodesMembers(bindings: seq<(Keycode, Keysym)>)
    ensures forall kc :: kc in BoundKeycodes(bindings) <==> exists ks :: (kc, ks) in bindings
  {
    if bindings != [] {
      BoundKeycodesMembers(bindings[1..]);
      assert (bindings[0].0, bindings[0].1) in bindings;
      forall kc ensures kc in BoundKeycodes(bindings) <==> exists ks :: (kc, ks) in bindings {
        if ks :| (kc, ks) in bindings {
          if (kc, ks) != bindings[0] {
            assert (kc, ks) in bindings[1..];
          }
        }
        if kc in BoundKeycodes(bindings[1..]) {
          var ks :| (kc, ks) in bindings[1..];
          assert (kc, ks) in bindings;
        }
      }
    }
  }

  lemma {:induction false} ClearsMembers(kcs: seq<Keycode>)
    ensures forall op :: op in Clears(kcs) <==> op.Clear? && op.kc in kcs
  {
    if kcs != [] {
      ClearsMembers(kcs[1..]);
    }
  }

  lemma {:induction false} BindsMembers(bindings: seq<(Keycode, Keysym)>)
    ensures forall op :: op in Binds(bindings) ==> op.Bind? && (op.kc, op.ks) in bindings
  {
    if bindings != [] {
      BindsMembers(bindings[1..]);
    }
  }

  lemma {:induction false} TapsMembers(taps: seq<Keycode>)
    ensures forall op :: op in Taps(taps) ==> op.Press? || op.Release?
  {
    if taps != [] {
      TapsMembers(taps[1..]);
    }
  }

  /** What a batch issues only ever binds its own keycodes and clears inside the pool. */
  lemma BatchOpsOwn(batches: seq<Batch>, segment: seq<Slot>, pool: seq<Keycode>, final: seq<Op>)
    requires batches != [] && Performs(batches[0], segment, pool) && ClearsOnly(final, pool)
    ensures OwnOps(BatchOps(batches, final), batches[0], pool)
  {
    var b := batches[0];
    BindsMembers(b.bindings);
    TapsMembers(b.taps);
    BoundKeycodesMembers(b.bindings);
    ClearsMembers(BoundKeycodes(b.bindings));
    assert forall kc, ks :: (kc, ks) in b.bindings ==> kc in pool;
  }

  /** Before any of a batch's taps, each tapped keycode resolves to what its slot means. */
  lemma BoundTapsResolve(x: X, b: Batch, segment: seq<Slot>, pool: seq<Keycode>, per: nat)
    requires per >= 1 && Clean(x.keymap, pool, per) && Performs(b, segment, pool) && RealOutside(segment, pool)
    ensures var y := Exec(x, Binds(b.bindings), per);
            && y.typed == x.typed
            && forall i :: 0 <= i < |b.taps| ==> Resolve(y.keymap, b.taps[i], 0) == Meaning(x.keymap, segment)[i]
  {
    BindsEffect(x, b.bindings, per);
    var y := Exec(x, Binds(b.bindings), per);
    forall i | 0 <= i < |b.taps| ensures Resolve(y.keymap, b.taps[i], 0) == Meaning(x.keymap, segment)[i] {
      var kc := b.taps[i];
      assert TapMeans(b, kc, segment[i]);
      match segment[i]
      case Scratch(ks) =>
        var j :| 0 <= j < |b.bindings| && b.bindings[j] == (kc, ks);
        assert y.keymap[kc] == Levels(ks, per);
      case Real(r) =>
        assert forall j :: 0 <= j < |b.bindings| ==> b.bindings[j].0 in pool;
        UnboundStays(x, b, kc, per);
    }
  }

  lemma UnboundStays(x: X, b: Batch, kc: Keycode, per: nat)
    requires forall j :: 0 <= j < |b.bindings| ==> b.bindings[j].0 != kc
    ensures var y := Exec(x, Binds(b.bindings), per);
            && (kc in y.keymap <==> kc in x.keymap)
            && (kc in x.keymap ==> y.keymap[kc] == x.keymap[kc])
    decreases |b.bindings|
  {
    if b.bindings != [] {
      UnboundStays(Apply(x, Bind(b.bindings[0].0, b.bindings[0].1), per), b.(bindings := b.bindings[1..]), kc, per);
    }
  }

  lemma CleanupClears(batches: seq<Batch>, segment: seq<Slot>, pool: seq<Keycode>, final: seq<Op>, c: nat)
    requires batches != [] && Performs(batches[0], segment, pool) && ClearsOnly(final, pool)
    requires c <= |Cleanup(batches, final)|
    ensures ClearsOnly(Cleanup(batches, final)[..c], pool)
  {
    BoundKeycodesMembers(batches[0].bindings);
    ClearsMembers(BoundKeycodes(batches[0].bindings));
    assert forall op :: op in Cleanup(batches, final)[..c] ==> op in Cleanup(batches, final);
    assert forall kc, ks :: (kc, ks) in batches[0].bindings ==> kc in pool;
  }

  /** Whatever part of a batch has run, each keycode is untouched or carries the batch's own binding. */
  lemma BatchPrefixKeymap(
    x: X, batches: seq<Batch>, segment: seq<Slot>, pool: seq<Keycode>, per: nat, final: seq<Op>, n: nat)
    requires batches != [] && n <= |BatchOps(batches, final)|
    requires Clean(x.keymap, pool, per) && ClearsOnly(final, pool) && Performs(batches[0], segment, pool)
    ensures BaseOrBound(Exec(x, BatchOps(batches, final)[..n], per).keymap, x.keymap, batches[0], per)
  {
    var ops := BatchOps(batches, final);
    BatchOpsOwn(batches, segment, pool, final);
    assert forall op :: op in ops[..n] ==> op in ops;
    OwnOpsKeepBaseOrBound(x, ops[..n], x.keymap, batches[0], pool, per);
  }

  /** Whatever part of a batch has run, a prefix of its segment's meaning has been typed. */
  lemma BatchPrefixTyped(
    x: X, batches: seq<Batch>, segment: seq<Slot>, pool: seq<Keycode>, per: nat, final: seq<Op>, n: nat)
    returns (m: nat)
    requires batches != [] && n <= |BatchOps(batches, final)|
    requires per >= 1 && Clean(x.keymap, pool, per) && ClearsOnly(final, pool)
    requires Performs(batches[0], segment, pool) && RealOutside(segment, pool)
    ensures m <= |segment|
    ensures Exec(x, BatchOps(batches, final)[..n], per).typed == x.typed + Meaning(x.keymap, segment)[..m]
    ensures n >= |batches[0].bindings| + 2 * |segment| ==> m == |segment|
  {
    var b := batches[0];
    var ops, binds, taps, clears := BatchOps(batches, final), Binds(b.bindings), Taps(b.taps), Cleanup(batches, final);
    var meaning := Meaning(x.keymap, segment);
    BoundTapsResolve(x, b, segment, pool, per);
    PrefixOfThree(binds, taps, clears, n);
    if n <= |binds| {
      m := 0;
      BindsPrefixTypesNothing(x, b.bindings, n, per);
      assert x.typed + meaning[..0] == x.typed;
    } else {
      var t := Min(n - |binds|, |taps|);
      m := (t + 1) / 2;
      var c := n - |binds| - t;
      ExecThree(x, binds, taps[..t], clears[..c], per);
      TapsEffect(Exec(x, binds, per), b.taps, meaning, t, per);
      CleanupClears(batches, segment, pool, final, c);
      ClearsEffect(Exec(Exec(x, binds, per), taps[..t], per), clears[..c], pool, per);
    }
  }

  lemma PrefixOfThree(a: seq<Op>, b: seq<Op>, c: seq<Op>, n: nat)
    requires n <= |a + b + c|
    ensures n <= |a| ==> (a + b + c)[..n] == a[..n]
    ensures n > |a| ==>
              var t := Min(n - |a|, |b|);
              (a + b + c)[..n] == a + (b[..t] + c[..n - |a| - t])
  {
  }

  lemma ExecThree(x: X, a: seq<Op>, b: seq<Op>, c: seq<Op>, per: nat)
    ensures Exec(x, a + (b + c), per) == Exec(Exec(Exec(x, a, per), b, per), c, per)
  {
    ExecAppend(x, a, b + c, per);
    ExecAppend(Exec(x, a, per), b, c, per);
  }

  lemma {:induction false} BindsPrefixTypesNothing(x: X, bindings: seq<(Keycode, Keysym)>, n: nat, per: nat)
    requires n <= |bindings|
    ensures Exec(x, Binds(bindings)[..n], per).typed == x.typed
    decreases n
  {
    if n > 0 {
      var ops := Binds(bindings)[..n];
      assert ops[1..] == Binds(bindings[1..])[..n - 1];
      BindsPrefixTypesNothing(Apply(x, ops[0], per), bindings[1..], n - 1, per);
    }
  }

  lemma ClearedIsBase(y: Keymap, base: Keymap, z: Keymap, b: Batch, pool: seq<Keycode>, per: nat)
    requires Clean(base, pool, per) && BaseOrBound(y, base, b, per) && z.Keys == y.Keys
    requires forall kc, ks :: (kc, ks) in b.bindings ==> kc in pool
    requires forall kc :: kc in y ==>
               z[kc] == if kc in BoundKeycodes(b.bindings) then Levels(NO_SYMBOL, per) else y[kc]
    ensures z == base
  {
    BoundKeycodesMembers(b.bindings);
    forall kc | kc in base ensures z[kc] == base[kc] {
      if kc in BoundKeycodes(b.bindings) {
        var ks :| (kc, ks) in b.bindings;
        assert kc in pool;
      }
    }
  }

  /** A batch that is not the last leaves the keymap exactly as it found it. */
  lemma BatchRestores(x: X, batches: seq<Batch>, segment: seq<Slot>, pool: seq<Keycode>, per: nat, final: seq<Op>)
    requires |batches| > 1
    requires per >= 1 && Clean(x.keymap, pool, per) && ClearsOnly(final, pool)
    requires Performs(batches[0], segment, pool) && RealOutside(segment, pool)
    ensures Exec(x, BatchOps(batches, final), per) == X(x.keymap, x.typed + Meaning(x.keymap, segment))
  {
    var b, ops := batches[0], BatchOps(batches, final);
    var front, kcs := Binds(b.bindings) + Taps(b.taps), BoundKeycodes(b.bindings);
    assert ops[..|front|] == front && ops[..|ops|] == ops;
    var m := BatchPrefixTyped(x, batches, segment, pool, per, final, |ops|);
    assert Meaning(x.keymap, segment)[..|segment|] == Meaning(x.keymap, segment);
    BatchPrefixKeymap(x, batches, segment, pool, per, final, |front|);
    var y := Exec(x, front, per);
    ExecAppend(x, front, Clears(kcs), per);
    assert forall kc, ks :: (kc, ks) in b.bindings ==> kc in pool;
    BoundKeycodesMembers(b.bindings);
    ClearsRestore(y, kcs, per);
    ClearedIsBase(y.keymap, x.keymap, Exec(y, Clears(kcs), per).keymap, b, pool, per);
  }

  // ----- whole plans -----

  ghost predicate Planned(batches: seq<Batch>, segments: seq<seq<Slot>>, pool: seq<Keycode>) {
    && PerformsAll(batches, segments, pool)
    && forall i :: 0 <= i < |segments| ==> RealOutside(segments[i], pool)
  }

  lemma {:induction false} MeaningAppend(keymap: Keymap, a: seq<Slot>, b: seq<Slot>)
    ensures Meaning(keymap, a + b) == Meaning(keymap, a) + Meaning(keymap, b)
  {
  }

  /** Agreement with `base` outside the pool. */
  ghost predicate PoolOnly(keymap: Keymap, base: Keymap, pool: seq<Keycode>) {
    keymap.Keys == base.Keys && forall kc :: kc in base && kc !in pool ==> keymap[kc] == base[kc]
  }

  lemma BoundInPool(keymap: Keymap, base: Keymap, b: Batch, segment: seq<Slot>, pool: seq<Keycode>, per: nat)
    requires BaseOrBound(keymap, base, b, per) && Performs(b, segment, pool)
    ensures PoolOnly(keymap, base, pool)
  {
    assert forall kc, ks :: (kc, ks) in b.bindings ==> kc in pool;
  }

  /** The requests issued before batch `b` starts binding. */
  function Before(batches: seq<Batch>, final: seq<Op>, b: nat): seq<Op>
    requires b <= |batches|
  {
    if b == 0 then [] else BatchOps(batches, final) + Before(batches[1..], final, b - 1)
  }

  lemma PrefixOfConcat<T>(a: seq<T>, b: seq<T>, n: nat)
    requires n <= |a + b|
    ensures (a + b)[..n] == if n <= |a| then a[..n] else a + b[..n - |a|]
  {
  }

  /** The requests before a batch, the batch's own and those after it make up the whole sequence. */
  lemma {:induction false} OpsAround(batches: seq<Batch>, final: seq<Op>, b: nat)
    requires b < |batches|
    ensures Ops(batches, final)
            == Before(batches, final, b) + (BatchOps(batches[b..], final) + Ops(batches[b + 1..], final))
    decreases b
  {
    var own, after := BatchOps(batches[b..], final), Ops(batches[b + 1..], final);
    if b == 0 {
      assert batches[0..] == batches;
      assert [] + (own + after) == own + after;
    } else {
      assert batches[1..][b - 1..] == batches[b..] && batches[1..][b..] == batches[b + 1..];
      OpsAround(batches[1..], final, b - 1);
      Regroup(BatchOps(batches, final), Before(batches[1..], final, b - 1), own + after);
    }
  }

  /** Any prefix of the requests is everything before some batch, and a prefix of that batch's own. */
  lemma {:induction false} LocatePrefix(batches: seq<Batch>, final: seq<Op>, n: nat) returns (b: nat, k: nat)
    requires batches != [] && n <= |Ops(batches, final)|
    ensures b < |batches| && k <= |BatchOps(batches[b..], final)|
    ensures Ops(batches, final)[..n] == Before(batches, final, b) + BatchOps(batches[b..], final)[..k]
    decreases |batches|
  {
    var first, rest := BatchOps(batches, final), Ops(batches[1..], final);
    PrefixOfConcat(first, rest, n);
    if n <= |first| {
      b, k := 0, n;
      assert batches[0..] == batches;
      assert [] + first[..n] == first[..n];
    } else {
      var b', k' := LocatePrefix(batches[1..], final, n - |first|);
      b, k := b' + 1, k';
      assert batches[1..][b'..] == batches[b..];
      Regroup(first, Before(batches[1..], final, b'), BatchOps(batches[b..], final)[..k]);
    }
  }

  /** Everything a plan's execution starts from. */
  ghost predicate Ready(
    keymap: Keymap, batches: seq<Batch>, segments: seq<seq<Slot>>, pool: seq<Keycode>, per: nat, final: seq<Op>) {
    per >= 1 && Clean(keymap, pool, per) && ClearsOnly(final, pool) && Planned(batches, segments, pool)
  }

  lemma ReadyRest(
    keymap: Keymap, batches: seq<Batch>, segments: seq<seq<Slot>>, pool: seq<Keycode>, per: nat, final: seq<Op>, b: nat)
    requires Ready(keymap, batches, segments, pool, per, final) && b <= |batches|
    ensures Ready(keymap, batches[b..], segments[b..], pool, per, final)
  {
  }

  /** The first of several batches types its segment and leaves the keymap as it found it. */
  lemma FirstBatch(
    x: X, batches: seq<Batch>, segments: seq<seq<Slot>>, pool: seq<Keycode>, per: nat, final: seq<Op>)
    requires Ready(x.keymap, batches, segments, pool, per, final) && |batches| > 1
    ensures Exec(x, BatchOps(batches, final), per) == X(x.keymap, x.typed + Meaning(x.keymap, segments[0]))
  {
    BatchRestores(x, batches, segments[0], pool, per, final);
  }

  lemma FirstBatchPrefix(
    x: X, batches: seq<Batch>, segments: seq<seq<Slot>>, pool: seq<Keycode>, per: nat, final: seq<Op>, k: nat)
    returns (m: nat)
    requires Ready(x.keymap, batches, segments, pool, per, final)
    requires batches != [] && k <= |BatchOps(batches, final)|
    ensures var y := Exec(x, BatchOps(batches, final)[..k], per);
            && BaseOrBound(y.keymap, x.keymap, batches[0], per) && PoolOnly(y.keymap, x.keymap, pool)
            && m <= |segments[0]| && y.typed == x.typed + Meaning(x.keymap, segments[0])[..m]
    ensures |batches| == 1 && final == [] && k == |BatchOps(batches, final)| ==> m == |segments[0]|
  {
    BatchPrefixKeymap(x, batches, segments[0], pool, per, final, k);
    BoundInPool(Exec(x, BatchOps(batches, final)[..k], per).keymap, x.keymap, batches[0], segments[0], pool, per);
    m := BatchPrefixTyped(x, batches, segments[0], pool, per, final, k);
  }

  /** When a batch starts, the keymap is the initial one and the segments before it have been typed. */
  lemma {:induction false} StateAtStart(
    x: X, batches: seq<Batch>, segments: seq<seq<Slot>>, pool: seq<Keycode>, per: nat, final: seq<Op>, b: nat)
    requires Ready(x.keymap, batches, segments, pool, per, final) && b < |batches|
    ensures Exec(x, Before(batches, final, b), per)
            == X(x.keymap, x.typed + Meaning(x.keymap, Concat(segments[..b])))
    decreases b
  {
    if b == 0 {
      assert x.typed + [] == x.typed && segments[..0] == [];
    } else {
      var first := BatchOps(batches, final);
      var y := Exec(x, first, per);
      FirstBatch(x, batches, segments, pool, per, final);
      ReadyRest(x.keymap, batches, segments, pool, per, final, 1);
      StateAtStart(y, batches[1..], segments[1..], pool, per, final, b - 1);
      ExecAppend(x, first, Before(batches[1..], final, b - 1), per);
      MeaningOfFirst(x.keymap, segments, b);
      Regroup(x.typed, Meaning(x.keymap, segments[0]), Meaning(x.keymap, Concat(segments[1..][..b - 1])));
    }
  }

  lemma MeaningOfFirst(keymap: Keymap, segments: seq<seq<Slot>>, b: nat)
    requires 0 < b <= |segments|
    ensures Meaning(keymap, Concat(segments[..b]))
            == Meaning(keymap, segments[0]) + Meaning(keymap, Concat(segments[1..][..b - 1]))
  {
    assert segments[..b][1..] == segments[1..][..b - 1];
    MeaningAppend(keymap, segments[0], Concat(segments[1..][..b - 1]));
  }

  lemma {:induction false} ConcatAround(segments: seq<seq<Slot>>, b: nat)
    requires b < |segments|
    ensures Concat(segments) == Concat(segments[..b]) + (segments[b] + Concat(segments[b + 1..]))
    decreases b
  {
    var tail := segments[b] + Concat(segments[b + 1..]);
    if b == 0 {
      assert segments[..0] == [] && [] + tail == tail;
    } else {
      ConcatAround(segments[1..], b - 1);
      assert segments[..b][1..] == segments[1..][..b - 1] && segments[1..][b..] == segments[b + 1..];
      Regroup(segments[0], Concat(segments[1..][..b - 1]), tail);
    }
  }

  /** The state inside a batch, `k` requests into it. */
  lemma DuringBatch(
    x: X, batches: seq<Batch>, segments: seq<seq<Slot>>, pool: seq<Keycode>, per: nat, final: seq<Op>, b: nat, k: nat)
    returns (m: nat)
    requires Ready(x.keymap, batches, segments, pool, per, final)
    requires b < |batches| && k <= |BatchOps(batches[b..], final)|
    ensures var y := Exec(x, Before(batches, final, b) + BatchOps(batches[b..], final)[..k], per);
            && BaseOrBound(y.keymap, x.keymap, batches[b], per) && PoolOnly(y.keymap, x.keymap, pool)
            && m <= |Concat(segments)| && y.typed == x.typed + Meaning(x.keymap, Concat(segments))[..m]
    ensures b == |batches| - 1 && final == [] && k == |BatchOps(batches[b..], final)| ==> m == |Concat(segments)|
  {
    var before, part := Before(batches, final, b), BatchOps(batches[b..], final)[..k];
    StateAtStart(x, batches, segments, pool, per, final, b);
    ReadyRest(x.keymap, batches, segments, pool, per, final, b);
    var m' := FirstBatchPrefix(Exec(x, before, per), batches[b..], segments[b..], pool, per, final, k);
    ExecAppend(x, before, part, per);
    m := |Concat(segments[..b])| + m';
    MeaningPrefix(x.keymap, segments, b, m');
    Regroup(x.typed, Meaning(x.keymap, Concat(segments[..b])), Meaning(x.keymap, segments[b])[..m']);
    if b == |batches| - 1 {
      ConcatAround(segments, b);
      assert segments[b + 1..] == [];
    }
  }

  lemma MeaningPrefix(keymap: Keymap, segments: seq<seq<Slot>>, b: nat, m: nat)
    requires b < |segments| && m <= |segments[b]|
    ensures |Concat(segments[..b])| + m <= |Concat(segments)|
    ensures Meaning(keymap, Concat(segments))[..|Concat(segments[..b])| + m]
            == Meaning(keymap, Concat(segments[..b])) + Meaning(keymap, segments[b])[..m]
  {
    ConcatAround(segments, b);
    var head, tail := Concat(segments[..b]), Concat(segments[b + 1..]);
    MeaningAppend(keymap, head, segments[b] + tail);
    MeaningAppend(keymap, segments[b], tail);
    PrefixOfConcat(Meaning(keymap, head), Meaning(keymap, segments[b] + tail), |head| + m);
    PrefixOfConcat(Meaning(keymap, segments[b]), Meaning(keymap, tail), m);
    if m == 0 {
      assert Meaning(keymap, head)[..|head|] == Meaning(keymap, head) + Meaning(keymap, segments[b])[..0];
    }
  }

  /** After any prefix of a plan's requests, a prefix of its meaning has been typed and only pool keycodes differ. */
  lemma PlanPrefix(
    x: X, batches: seq<Batch>, segments: seq<seq<Slot>>, pool: seq<Keycode>, per: nat, n: nat) returns (m: nat)
    requires Ready(x.keymap, batches, segments, pool, per, []) && n <= |Ops(batches, [])|
    ensures var y := Exec(x, Ops(batches, [])[..n], per);
            && m <= |Concat(segments)| && y.typed == x.typed + Meaning(x.keymap, Concat(segments))[..m]
            && PoolOnly(y.keymap, x.keymap, pool)
  {
    if batches == [] {
      m := 0;
      assert Ops(batches, [])[..n] == [];
    } else {
      var b, k := LocatePrefix(batches, [], n);
      m := DuringBatch(x, batches, segments, pool, per, [], b, k);
    }
  }

  /** All of a plan's requests type all of its meaning. */
  lemma PlanTypesAll(x: X, batches: seq<Batch>, segments: seq<seq<Slot>>, pool: seq<Keycode>, per: nat)
    requires Ready(x.keymap, batches, segments, pool, per, [])
    ensures Exec(x, Ops(batches, []), per).typed == x.typed + Meaning(x.keymap, Concat(segments))
  {
    var meaning := Meaning(x.keymap, Concat(segments));
    if batches == [] {
      assert x.typed + meaning == x.typed;
    } else {
      var b := |batches| - 1;
      var own := BatchOps(batches[b..], []);
      OpsAround(batches, [], b);
      assert batches[b + 1..] == [] && own + [] == own && own[..|own|] == own;
      var m := DuringBatch(x, batches, segments, pool, per, [], b, |own|);
      assert meaning[..m] == meaning;
    }
  }

  // ----- every key is let go -----

  /**
   The key held down after a request, or None where the request is out of place: a key may go
   down, or be rebound, only while none is down, and only the key that is down may go up.
   */
  function Hold(down: Option<Keycode>, op: Op): Option<Option<Keycode>> {
    match op
    case Press(kc) => if down.None? then Some(Some(kc)) else None
    case Release(kc) => if down == Some(kc) then Some(None) else None
    case _ => if down.None? then Some(None) else None
  }

  function Held(down: Option<Keycode>, ops: seq<Op>): Option<Option<Keycode>>
    decreases |ops|
  {
    if ops == [] then Some(down)
    else match Hold(down, ops[0]) case Some(d) => Held(d, ops[1..]) case None => None
  }

  lemma {:induction false} HeldAppend(down: Option<Keycode>, a: seq<Op>, b: seq<Op>)
    ensures Held(down, a + b) == match Held(down, a) case Some(d) => Held(d, b) case None => None
    decreases |a|
  {
    if a == [] {
      assert a + b == b;
    } else {
      assert (a + b)[1..] == a[1..] + b;
      match Hold(down, a[0])
      case Some(d) => HeldAppend(d, a[1..], b);
      case None =>
    }
  }

  lemma {:induction false} TapsLetGo(taps: seq<Keycode>)
    ensures Held(None, Taps(taps)) == Some(None)
  {
    if taps != [] {
      TapsLetGo(taps[1..]);
      OneTapLetsGo(taps[0]);
      HeldAppend(None, [Press(taps[0]), Release(taps[0])], Taps(taps[1..]));
    }
  }

  lemma OneTapLetsGo(kc: Keycode)
    ensures Held(None, [Press(kc), Release(kc)]) == Some(None)
  {
    assert [Release(kc)][1..] == [] && Held(None, []) == Some(None);
    assert Held(Some(kc), [Release(kc)]) == Some(None);
    assert [Press(kc), Release(kc)][1..] == [Release(kc)];
  }

  lemma {:induction false} RebindingHoldsNothing(ops: seq<Op>)
    requires forall i :: 0 <= i < |ops| ==> ops[i].Bind? || ops[i].Clear?
    ensures Held(None, ops) == Some(None)
    decreases |ops|
  {
    if ops != [] {
      RebindingHoldsNothing(ops[1..]);
    }
  }

  lemma BatchLetsGo(batches: seq<Batch>, pool: seq<Keycode>, final: seq<Op>)
    requires batches != [] && ClearsOnly(final, pool)
    ensures Held(None, BatchOps(batches, final)) == Some(None)
  {
    var b := batches[0];
    BindsMembers(b.bindings);
    ClearsMembers(BoundKeycodes(b.bindings));
    RebindingHoldsNothing(Binds(b.bindings));
    TapsLetGo(b.taps);
    RebindingHoldsNothing(Cleanup(batches, final));
    HeldAppend(None, Binds(b.bindings), Taps(b.taps));
    HeldAppend(None, Binds(b.bindings) + Taps(b.taps), Cleanup(batches, final));
  }

  /** Throughout a plan no key goes down or is rebound while another is down, and in the end every key is up. */
  lemma {:induction false} KeysAreLetGo(batches: seq<Batch>, pool: seq<Keycode>, final: seq<Op>)
    requires ClearsOnly(final, pool)
    ensures Held(None, Ops(batches, final)) == Some(None)
    decreases |batches|
  {
    if batches != [] {
      BatchLetsGo(batches, pool, final);
      KeysAreLetGo(batches[1..], pool, final);
      HeldAppend(None, BatchOps(batches, final), Ops(batches[1..], final));
    }
  }
}
