/** Syncing two whole vaults: shared entries are merged, the others are kept, nothing is deleted. */
module VaultMerge {
  import opened Basics
  import opened TextOrder
  import opened FieldKeys
  import opened Entries
  import opened EntryPatch
  import opened VaultSessions
  import opened EntryMerge
  import opened MergeStability

  /** What a hash map collected from the list holds under an id: the last one wins. */
  function ById(entries: seq<VaultEntry>, id: string): Option<VaultEntry> {
    if entries == [] then None
    else if entries[|entries| - 1].meta.id == id then Some(entries[|entries| - 1])
    else ById(entries[..|entries| - 1], id)
  }

  function MergeOne(e: VaultEntry, incoming: seq<VaultEntry>): VaultEntry {
    match ById(incoming, e.meta.id) case Some(i) => MergeEntry(e, i) case None => e
  }

  /** Local entries in place, merged where the other vault has them too; an incoming deletion removes nothing. */
  function MergedLocals(local: seq<VaultEntry>, incoming: seq<VaultEntry>): seq<VaultEntry> {
    if local == [] then []
    else MergedLocals(local[..|local| - 1], incoming) + [MergeOne(local[|local| - 1], incoming)]
  }

  /** Incoming entries this vault does not have. */
  function NewEntries(local: seq<VaultEntry>, incoming: seq<VaultEntry>): seq<VaultEntry> {
    if incoming == [] then []
    else
      var n := |incoming| - 1;
      NewEntries(local, incoming[..n]) + if ById(local, incoming[n].meta.id).None? then [incoming[n]] else []
  }

  function MergeVault(local: seq<VaultEntry>, incoming: seq<VaultEntry>): seq<VaultEntry> {
    MergedLocals(local, incoming) + NewEntries(local, incoming)
  }

  // ----- the loops -----

  method CollectById(entries: seq<VaultEntry>) returns (table: map<string, VaultEntry>)
    ensures forall id :: id in table <==> ById(entries, id).Some?
    ensures forall id :: id in table ==> ById(entries, id) == Some(table[id])
  {
    table := map[];
    for i := 0 to |entries|
      invariant forall id :: id in table <==> ById(entries[..i], id).Some?
      invariant forall id :: id in table ==> ById(entries[..i], id) == Some(table[id])
    {
      assert entries[..i + 1][..i] == entries[..i];
      table := table[entries[i].meta.id := entries[i]];
    }
    assert entries[..|entries|] == entries;
  }

  method MergeLocals(local: seq<VaultEntry>, incomingById: map<string, VaultEntry>, incoming: seq<VaultEntry>)
    returns (kept: seq<VaultEntry>)
    requires forall id :: id in incomingById <==> ById(incoming, id).Some?
    requires forall id :: id in incomingById ==> ById(incoming, id) == Some(incomingById[id])
    ensures kept == MergedLocals(local, incoming)
  {
    kept := [];
    for i := 0 to |local|
      invariant kept == MergedLocals(local[..i], incoming)
    {
      assert local[..i + 1][..i] == local[..i];
      var id := local[i].meta.id;
      var e := if id in incomingById then MergeEntry(local[i], incomingById[id]) else local[i];
      assert e == MergeOne(local[i], incoming);
      kept := kept + [e];
    }
    assert local[..|local|] == local;
  }

  method BringNew(local: seq<VaultEntry>, incoming: seq<VaultEntry>) returns (brought: seq<VaultEntry>)
    ensures brought == NewEntries(local, incoming)
  {
    var localById := CollectById(local);
    brought := [];
    for i := 0 to |incoming|
      invariant brought == NewEntries(local, incoming[..i])
    {
      assert incoming[..i + 1][..i] == incoming[..i];
      if incoming[i].meta.id !in localById {
        brought := brought + [incoming[i]];
      }
    }
    assert incoming[..|incoming|] == incoming;
  }

  /** `do_merge` on the entry lists. */
  method MergeEntries(local: seq<VaultEntry>, incoming: seq<VaultEntry>) returns (merged: seq<VaultEntry>, added: nat)
    ensures merged == MergeVault(local, incoming)
    ensures added == |NewEntries(local, incoming)|
  {
    var incomingById := CollectById(incoming);
    var kept := MergeLocals(local, incomingById, incoming);
    var brought := BringNew(local, incoming);
    merged, added := kept + brought, |brought|;
  }

  // ----- what a sync guarantees -----

  lemma {:induction false} ByIdMeaning(entries: seq<VaultEntry>, id: string)
    ensures ById(entries, id).Some? ==> ById(entries, id).value in entries && ById(entries, id).value.meta.id == id
    ensures ById(entries, id).None? <==> forall e :: e in entries ==> e.meta.id != id
  {
    if entries != [] {
      var n := |entries| - 1;
      ByIdMeaning(entries[..n], id);
      assert forall e :: e in entries <==> e in entries[..n] || e == entries[n];
    }
  }

  lemma {:induction false} ByIdAppend(a: seq<VaultEntry>, b: seq<VaultEntry>, id: string)
    ensures ById(a + b, id) == if ById(b, id).Some? then ById(b, id) else ById(a, id)
    decreases |b|
  {
    if b == [] {
      assert a + b == a;
    } else {
      var n := |b| - 1;
      assert (a + b)[..|a| + n] == a + b[..n];
      ByIdAppend(a, b[..n], id);
    }
  }

  lemma MergeKeepsId(l: VaultEntry, i: VaultEntry)
    requires l.meta.id == i.meta.id
    ensures MergeEntry(l, i).meta.id == l.meta.id
  {
    if SameType(l, i) {
      assert MergeEntry(l, i).meta == MergedMeta(l, i);
    }
  }

  lemma MergeOneKeepsId(e: VaultEntry, incoming: seq<VaultEntry>)
    ensures MergeOne(e, incoming).meta.id == e.meta.id
  {
    ByIdMeaning(incoming, e.meta.id);
    if ById(incoming, e.meta.id).Some? {
      MergeKeepsId(e, ById(incoming, e.meta.id).value);
    }
  }

  lemma {:induction false} LocalsById(local: seq<VaultEntry>, incoming: seq<VaultEntry>, id: string)
    ensures ById(MergedLocals(local, incoming), id)
            == match ById(local, id) case Some(e) => Some(MergeOne(e, incoming)) case None => None
    decreases |local|
  {
    if local != [] {
      var n := |local| - 1;
      LocalsById(local[..n], incoming, id);
      MergeOneKeepsId(local[n], incoming);
      var before := MergedLocals(local[..n], incoming);
      assert MergedLocals(local, incoming)[..|before|] == before;
    }
  }

  lemma {:induction false} NewById(local: seq<VaultEntry>, incoming: seq<VaultEntry>, id: string)
    ensures ById(NewEntries(local, incoming), id) == if ById(local, id).None? then ById(incoming, id) else None
    decreases |incoming|
  {
    if incoming != [] {
      var n := |incoming| - 1;
      NewById(local, incoming[..n], id);
      var before := NewEntries(local, incoming[..n]);
      assert (before + [incoming[n]])[..|before|] == before;
      assert before + [] == before;
    }
  }

  /** Under every id: both vaults' entries merged, or the one vault's entry unchanged - nothing is ever deleted. */
  lemma MergedById(local: seq<VaultEntry>, incoming: seq<VaultEntry>, id: string)
    ensures ById(MergeVault(local, incoming), id)
            == match (ById(local, id), ById(incoming, id))
               case (Some(l), Some(i)) => Some(MergeEntry(l, i))
               case (Some(l), None) => Some(l)
               case (None, i) => i
  {
    LocalsById(local, incoming, id);
    NewById(local, incoming, id);
    ByIdAppend(MergedLocals(local, incoming), NewEntries(local, incoming), id);
    ByIdMeaning(local, id);
  }

  ghost predicate SameIds(xs: seq<VaultEntry>, ys: seq<VaultEntry>) {
    |xs| == |ys| && forall i :: 0 <= i < |xs| ==> xs[i].meta.id == ys[i].meta.id
  }

  lemma SameIdsAppend(xs: seq<VaultEntry>, ys: seq<VaultEntry>, x: VaultEntry, y: VaultEntry)
    requires SameIds(xs, ys) && x.meta.id == y.meta.id
    ensures SameIds(xs + [x], ys + [y])
  {
  }

  lemma {:induction false} LocalsKeepIds(local: seq<VaultEntry>, incoming: seq<VaultEntry>)
    ensures SameIds(MergedLocals(local, incoming), local)
    decreases |local|
  {
    if local != [] {
      var n := |local| - 1;
      LocalsKeepIds(local[..n], incoming);
      MergeOneKeepsId(local[n], incoming);
      SameIdsAppend(MergedLocals(local[..n], incoming), local[..n], MergeOne(local[n], incoming), local[n]);
      assert local == local[..n] + [local[n]];
    }
  }

  lemma {:induction false} NewAreUnique(local: seq<VaultEntry>, incoming: seq<VaultEntry>)
    requires UniqueIds(incoming)
    ensures UniqueIds(NewEntries(local, incoming))
    ensures forall e :: e in NewEntries(local, incoming) ==> e in incoming && ById(local, e.meta.id).None?
    decreases |incoming|
  {
    if incoming != [] {
      var n := |incoming| - 1;
      NewAreUnique(local, incoming[..n]);
      var before := NewEntries(local, incoming[..n]);
      forall j | 0 <= j < |before| ensures before[j].meta.id != incoming[n].meta.id {
        assert before[j] in before && before[j] in incoming[..n];
      }
    }
  }

  /** Syncing two vaults with unique ids gives a vault with unique ids, the local entries first and in place. */
  lemma SyncKeepsIdsUnique(local: seq<VaultEntry>, incoming: seq<VaultEntry>)
    requires UniqueIds(local) && UniqueIds(incoming)
    ensures UniqueIds(MergeVault(local, incoming)) && |MergeVault(local, incoming)| >= |local|
    ensures forall i :: 0 <= i < |local| ==> MergeVault(local, incoming)[i].meta.id == local[i].meta.id
  {
    LocalsKeepIds(local, incoming);
    NewAreUnique(local, incoming);
    var locals, more := MergedLocals(local, incoming), NewEntries(local, incoming);
    forall i, j | 0 <= i < |locals| && 0 <= j < |more| ensures locals[i].meta.id != more[j].meta.id {
      assert more[j] in more && local[i] in local;
      ByIdMeaning(local, more[j].meta.id);
    }
  }

  /** The value a vault has under a key of the entry with an id. */
  function ValueAt(entries: seq<VaultEntry>, id: string, k: Key): Option<Val> {
    match ById(entries, id) case Some(e) => At(e, k) case None => None
  }

  /** Both vaults have an entry with this id. */
  predicate Shared(a: seq<VaultEntry>, b: seq<VaultEntry>, id: string) {
    ById(a, id).Some? && ById(b, id).Some?
  }

  /** Two versions that differ under `k` where neither may win: a reported clash, or a tie across types. */
  predicate Unsettled(l: VaultEntry, i: VaultEntry, k: Key) {
    if SameType(l, i) then Clash(l, i, k)
    else At(l, k) != At(i, k) && !TakesTheirs(l, i) && !TakesTheirs(i, l)
  }

  lemma PairConverges(l: VaultEntry, i: VaultEntry, k: Key)
    ensures At(MergeEntry(l, i), k) == At(MergeEntry(i, l), k) <==> !Unsettled(l, i, k)
  {
    SameTypeSymmetric(l, i);
    if SameType(l, i) {
      MergeConverges(l, i, k);
    } else {
      BeforeIsAsymmetric(l.meta.updatedAt, i.meta.updatedAt);
    }
  }

  /**
   Two vaults that sync with each other end up with the same value under every key of every
   entry, except exactly where a shared entry clashes there - or, being of two types, differs
   there and neither version is later.
   */
  lemma VaultsConverge(a: seq<VaultEntry>, b: seq<VaultEntry>, id: string, k: Key)
    ensures ValueAt(MergeVault(a, b), id, k) == ValueAt(MergeVault(b, a), id, k)
            <==> !(Shared(a, b, id) && Unsettled(ById(a, id).value, ById(b, id).value, k))
  {
    MergedById(a, b, id);
    MergedById(b, a, id);
    if Shared(a, b, id) {
      PairConverges(ById(a, id).value, ById(b, id).value, k);
    }
  }

  lemma PairIsStable(l: VaultEntry, i: VaultEntry, k: Key)
    ensures At(MergeEntry(MergeEntry(l, i), i), k) == At(MergeEntry(l, i), k)
  {
    if SameType(l, i) {
      MergeIsStable(l, i);
    } else if Before(l.meta.updatedAt, i.meta.updatedAt) {
      MergeWithSelf(i, k);
    }
  }

  /** Syncing again with the same vault changes no value. */
  lemma SyncIsStable(a: seq<VaultEntry>, b: seq<VaultEntry>, id: string, k: Key)
    ensures ValueAt(MergeVault(MergeVault(a, b), b), id, k) == ValueAt(MergeVault(a, b), id, k)
  {
    MergedById(a, b, id);
    MergedById(MergeVault(a, b), b, id);
    if Shared(a, b, id) {
      PairIsStable(ById(a, id).value, ById(b, id).value, k);
    } else if ById(b, id).Some? {
      MergeWithSelf(ById(b, id).value, k);
    }
  }

  // ----- whole entries under repeated syncs -----

  lemma {:induction false} LocalsMembers(local: seq<VaultEntry>, incoming: seq<VaultEntry>)
    ensures forall x :: x in MergedLocals(local, incoming) ==> exists l :: l in local && x == MergeOne(l, incoming)
    ensures forall l :: l in local ==> MergeOne(l, incoming) in MergedLocals(local, incoming)
    decreases |local|
  {
    if local != [] {
      var n := |local| - 1;
      LocalsMembers(local[..n], incoming);
      assert forall l :: l in local <==> l in local[..n] || l == local[n];
    }
  }

  lemma {:induction false} LocalsUnchanged(local: seq<VaultEntry>, incoming: seq<VaultEntry>)
    ensures MergedLocals(local, incoming) == local <==> forall l :: l in local ==> MergeOne(l, incoming) == l
    decreases |local|
  {
    if local != [] {
      var n := |local| - 1;
      var before, last := MergedLocals(local[..n], incoming), MergeOne(local[n], incoming);
      LocalsUnchanged(local[..n], incoming);
      LocalsLength(local[..n], incoming);
      assert local == local[..n] + [local[n]];
      assert before + [last] == local[..n] + [local[n]] <==> before == local[..n] && last == local[n] by {
        SnocEqual(before, last, local[..n], local[n]);
      }
      assert forall l :: l in local <==> l in local[..n] || l == local[n];
    }
  }

  lemma SnocEqual(xs: seq<VaultEntry>, x: VaultEntry, ys: seq<VaultEntry>, y: VaultEntry)
    requires |xs| == |ys|
    ensures xs + [x] == ys + [y] <==> xs == ys && x == y
  {
    if xs + [x] == ys + [y] {
      assert xs == (xs + [x])[..|xs|] && ys == (ys + [y])[..|ys|];
      assert x == (xs + [x])[|xs|] && y == (ys + [y])[|ys|];
    }
  }

  lemma LocalsLength(local: seq<VaultEntry>, incoming: seq<VaultEntry>)
    ensures |MergedLocals(local, incoming)| == |local|
  {
    LocalsKeepIds(local, incoming);
  }

  lemma {:induction false} NothingNew(local: seq<VaultEntry>, incoming: seq<VaultEntry>)
    requires forall i :: i in incoming ==> ById(local, i.meta.id).Some?
    ensures NewEntries(local, incoming) == []
    decreases |incoming|
  {
    if incoming != [] {
      NothingNew(local, incoming[..|incoming| - 1]);
    }
  }

  /** After one sync, a second with the same vault only merges entries in place. */
  lemma SecondSyncInPlace(a: seq<VaultEntry>, b: seq<VaultEntry>)
    ensures var m := MergeVault(a, b);
            MergeVault(m, b) == MergedLocals(m, b)
  {
    var m := MergeVault(a, b);
    forall i | i in b ensures ById(m, i.meta.id).Some? {
      MergedById(a, b, i.meta.id);
      ByIdMeaning(b, i.meta.id);
    }
    NothingNew(m, b);
    assert MergedLocals(m, b) + [] == MergedLocals(m, b);
  }

  lemma {:induction false} UniqueById(entries: seq<VaultEntry>, e: VaultEntry)
    requires UniqueIds(entries) && e in entries
    ensures ById(entries, e.meta.id) == Some(e)
    decreases |entries|
  {
    var n := |entries| - 1;
    if e != entries[n] {
      assert e in entries[..n];
      var q :| 0 <= q < n && entries[q] == e;
      UniqueById(entries[..n], e);
    }
  }

  /** The sync took `i` as it is: this vault had no such entry, or an older one of another type. */
  predicate TakenWhole(a: seq<VaultEntry>, i: VaultEntry) {
    match ById(a, i.meta.id)
    case None => true
    case Some(l) => !SameType(l, i) && TakesTheirs(l, i)
  }

  /** An entry of the synced vault is either settled already or was taken whole. */
  lemma SettledOrTaken(a: seq<VaultEntry>, b: seq<VaultEntry>, x: VaultEntry)
    requires UniqueIds(a) && UniqueIds(b) && x in MergeVault(a, b)
    ensures MergeOne(x, b) == x || (x in b && TakenWhole(a, x) && MergeOne(x, b) == MergeEntry(x, x))
  {
    LocalsMembers(a, b);
    NewAreUnique(a, b);
    if x in NewEntries(a, b) {
      UniqueById(b, x);
    } else {
      assert x in MergedLocals(a, b);
      var l :| l in a && x == MergeOne(l, b);
      MergeOneKeepsId(l, b);
      ByIdMeaning(b, l.meta.id);
      UniqueById(a, l);
      if ById(b, l.meta.id).Some? {
        SettledPair(l, ById(b, l.meta.id).value);
      }
    }
  }

  lemma SettledPair(l: VaultEntry, i: VaultEntry)
    ensures var x := MergeEntry(l, i);
            MergeEntry(x, i) == x || (x == i && !SameType(l, i) && TakesTheirs(l, i))
  {
    if SameType(l, i) {
      MergeIsStable(l, i);
    }
  }

  lemma TakenIsThere(a: seq<VaultEntry>, b: seq<VaultEntry>, i: VaultEntry)
    requires UniqueIds(b) && i in b && TakenWhole(a, i)
    ensures i in MergeVault(a, b) && MergeOne(i, b) == MergeEntry(i, i)
  {
    UniqueById(b, i);
    MergedById(a, b, i.meta.id);
    ByIdMeaning(MergeVault(a, b), i.meta.id);
  }

  /**
   Syncing again with the same vault leaves every entry exactly as it is - values, order, times,
   marks and history - if and only if every entry the first sync took whole is tidy.
   */
  lemma SecondSyncExactly(a: seq<VaultEntry>, b: seq<VaultEntry>)
    requires UniqueIds(a) && UniqueIds(b)
    ensures MergeVault(MergeVault(a, b), b) == MergeVault(a, b)
            <==> forall i :: i in b && TakenWhole(a, i) ==> Tidy(i)
  {
    var m := MergeVault(a, b);
    SecondSyncInPlace(a, b);
    LocalsUnchanged(m, b);
    forall x | x in m
      ensures MergeOne(x, b) == x || (x in b && TakenWhole(a, x) && MergeOne(x, b) == MergeEntry(x, x))
    {
      SettledOrTaken(a, b, x);
    }
    forall i | i in b && TakenWhole(a, i) ensures i in m && (MergeOne(i, b) == i <==> Tidy(i)) {
      TakenIsThere(a, b, i);
      MergeWithSelfExactly(i);
    }
  }

  /** From the second sync on, nothing changes at all. */
  lemma SyncSettles(a: seq<VaultEntry>, b: seq<VaultEntry>)
    requires UniqueIds(a) && UniqueIds(b)
    ensures var m := MergeVault(MergeVault(a, b), b);
            MergeVault(m, b) == m
  {
    var m1 := MergeVault(a, b);
    var m2 := MergeVault(m1, b);
    SecondSyncInPlace(a, b);
    SecondSyncInPlace(m1, b);
    LocalsUnchanged(m2, b);
    LocalsMembers(m1, b);
    forall x | x in m2 ensures MergeOne(x, b) == x {
      var y :| y in m1 && x == MergeOne(y, b);
      SettledOrTaken(a, b, y);
      MergeOneKeepsId(y, b);
      if MergeOne(y, b) != y {
        SameTypeReflexive(y);
        MergeIsStable(y, y);
        UniqueById(b, y);
      }
    }
  }

  /** An entry the first sync just added can still change at the second: its keys are put in order. */
  lemma AddedEntryChangesOnce()
    ensures MergeVault(MergeVault([], [UNSORTED]), [UNSORTED]) != MergeVault([], [UNSORTED])
  {
    SecondSyncExactly([], [UNSORTED]);
    assert UNSORTED in [UNSORTED] && TakenWhole([], UNSORTED);
    UnsortedEntryChanges();
    MergeWithSelfExactly(UNSORTED);
  }

  /** Of two versions with different types, the later is taken whole; a tie keeps the local one. */
  predicate TakesTheirs(l: VaultEntry, i: VaultEntry) {
    Before(l.meta.updatedAt, i.meta.updatedAt)
  }

  /** A shared id with two types, where only the version not taken has a value under `k`. */
  predicate LostAcrossTypes(l: VaultEntry, i: VaultEntry, k: Key) {
    && !SameType(l, i)
    && if TakesTheirs(l, i) then At(l, k).Some? && At(i, k).None? else At(i, k).Some? && At(l, k).None?
  }

  /**
   No entry disappears, and a value disappears exactly when the id has two types and only the
   version not taken has it: otherwise whatever either vault has, the synced vault has.
   */
  lemma SyncLosesExactly(a: seq<VaultEntry>, b: seq<VaultEntry>, id: string, k: Key)
    ensures ById(MergeVault(a, b), id).Some? <==> ById(a, id).Some? || ById(b, id).Some?
    ensures ValueAt(MergeVault(a, b), id, k).Some?
            <==> && (ValueAt(a, id, k).Some? || ValueAt(b, id, k).Some?)
                 && !(Shared(a, b, id) && LostAcrossTypes(ById(a, id).value, ById(b, id).value, k))
  {
    MergedById(a, b, id);
    if Shared(a, b, id) && SameType(ById(a, id).value, ById(b, id).value) {
      MergeLosesNothing(ById(a, id).value, ById(b, id).value, k);
    }
  }

  const OLD_LOGIN: VaultEntry :=
    Login(Meta("x", "", "1", "", map[], []), "t", "https://a.example", "u", "p", None, [], [], None, None)
  const NEW_NOTE: VaultEntry := Note(Meta("x", "", "2", "", map[], []), "t", "", [], [])

  /** For instance: a login turned into a note on another device loses its address, user name and password. */
  lemma LoginTurnedNoteLosesUrl()
    ensures var after := MergeVault([OLD_LOGIN], [NEW_NOTE]);
            && ValueAt([OLD_LOGIN], "x", Scalar(Url)) == Some(Text("https://a.example"))
            && ById(after, "x") == Some(NEW_NOTE) && ValueAt(after, "x", Scalar(Url)) == None
  {
    assert Before("1", "2");
    MergedById([OLD_LOGIN], [NEW_NOTE], "x");
    assert ById([OLD_LOGIN], "x") == Some(OLD_LOGIN) && ById([NEW_NOTE], "x") == Some(NEW_NOTE);
  }
}
