/** Editing on two devices and then syncing: the change times `update_entry` keeps are what the merge trusts. */
module SyncEndToEnd {
  import opened Basics
  import opened FieldKeys
  import opened Entries
  import opened EntryUpdate
  import opened EntryPatch
  import opened EntryMerge

  /** A key a run never changed, and which is still there, holds what it held at the start. */
  lemma {:induction false} UntouchedKeepsValue(e: VaultEntry, edits: seq<Edit>, k: Key)
    requires LastChange(e, edits, k).None? && At(Run(e, edits), k).Some?
    ensures At(Run(e, edits), k) == At(e, k)
    decreases |edits|
  {
    if edits != [] {
      UntouchedKeepsValue(e, edits[..|edits| - 1], k);
    }
  }

  /** After a run, a key is timed by its last change in the run, or still by the time it had before. */
  lemma TimedByRun(e: VaultEntry, edits: seq<Edit>, k: Key)
    requires EditsFor(e, edits)
    ensures Seen(Run(e, edits), k).time
            == if LastChange(e, edits, k).Some? then LastChange(e, edits, k) else Get(e.meta.fieldTimes, Render(k))
  {
    FieldTimesTrackTheRun(e, edits, k);
  }

  /** Two devices edit copies of one entry, and both still have a value under `k`. */
  ghost predicate Forked(e: VaultEntry, here: seq<Edit>, there: seq<Edit>, k: Key) {
    && EditsFor(e, here) && EditsFor(e, there)
    && At(Run(e, here), k).Some? && At(Run(e, there), k).Some?
  }

  lemma ForkMerges(e: VaultEntry, here: seq<Edit>, there: seq<Edit>)
    requires EditsFor(e, here) && EditsFor(e, there)
    ensures SameType(Run(e, here), Run(e, there)) && SameType(Run(e, there), Run(e, here))
  {
    RunKeeps(e, here);
    RunKeeps(e, there);
    SameTypeTransitive(Run(e, here), e, Run(e, there));
  }

  /**
   A field edited on one device only keeps that edit where it was made. It reaches the other
   device, without a clash, exactly when the field carried no change time at the fork or the
   edits came back to the same value: an inherited change time reads as an edit on both sides.
   */
  lemma EditOnOneDeviceExactly(e: VaultEntry, here: seq<Edit>, there: seq<Edit>, k: Key)
    requires Forked(e, here, there, k)
    requires LastChange(e, here, k).Some? && LastChange(e, there, k).None?
    ensures var a, b := Run(e, here), Run(e, there);
            && At(MergeEntry(a, b), k) == At(a, k)
            && (Clash(a, b, k) <==> Render(k) in e.meta.fieldTimes && At(a, k) != At(b, k))
            && (At(MergeEntry(b, a), k) == At(a, k) <==> Render(k) !in e.meta.fieldTimes || At(a, k) == At(b, k))
  {
    var a, b := Run(e, here), Run(e, there);
    ForkMerges(e, here, there);
    TimedByRun(e, here, k);
    TimedByRun(e, there, k);
    OneSideEdited(Seen(a, k), Seen(b, k));
    MergedAt(a, b, k);
    MergedAt(b, a, k);
  }

  lemma OneSideEdited(x: View, y: View)
    requires x.val.Some? && y.val.Some? && x.time.Some?
    ensures Chosen(x, y) == x.val
    ensures Clashing(x, y) <==> y.time.Some? && x.val != y.val
    ensures Chosen(y, x) == x.val <==> y.time.None? || x.val == y.val
  {
  }

  /** A note whose title was edited once, long ago. */
  function StampedNote(title: string): VaultEntry {
    Note(Meta("n", "", "", "", map["title" := 1], []), title, "", [], [])
  }

  const RENAME: Edit := Edit(StampedNote("new"), Clock(0, 2, None))

  lemma RenameFits()
    ensures EditsFor(StampedNote("old"), [RENAME]) && EditsFor(StampedNote("old"), [])
  {
  }

  lemma RenameRun()
    ensures var e := StampedNote("old");
            && Run(e, []) == e && Run(e, [RENAME]) == Apply(e, RENAME)
            && At(e, Scalar(Title)) == Some(Text("old")) && At(Apply(e, RENAME), Scalar(Title)) == Some(Text("new"))
  {
    var e := StampedNote("old");
    assert [RENAME][..0] == [];
    UpdateContent(e, RENAME.updated, RENAME.clock, Scalar(Title));
  }

  lemma RenameIsAChange()
    ensures LastChange(StampedNote("old"), [RENAME], Scalar(Title)) == Some(2)
  {
    RenameRun();
    assert "old"[0] != "new"[0];
    assert [RENAME][..0] == [];
  }

  /** A title with an old change time, edited on one device only: a clash, and the other device keeps the old title. */
  lemma StampedFieldClashes()
    ensures var e, a := StampedNote("old"), Run(StampedNote("old"), [RENAME]);
            && LastChange(e, [RENAME], Scalar(Title)) == Some(2) && LastChange(e, [], Scalar(Title)) == None
            && Clash(a, e, Scalar(Title))
            && At(a, Scalar(Title)) == Some(Text("new")) && At(MergeEntry(e, a), Scalar(Title)) == Some(Text("old"))
  {
    var e := StampedNote("old");
    RenameFits();
    RenameRun();
    RenameIsAChange();
    assert "old"[0] != "new"[0];
    EditOnOneDeviceExactly(e, [RENAME], [], Scalar(Title));
    ForkMerges(e, [RENAME], []);
    MergeLosesNothing(e, Run(e, [RENAME]), Scalar(Title));
  }

  /** Edits of one field on both devices are never resolved silently: they agree, or the clash is reported. */
  lemma EditsOnBothDevicesClash(e: VaultEntry, here: seq<Edit>, there: seq<Edit>, k: Key)
    requires Forked(e, here, there, k)
    requires LastChange(e, here, k).Some? && LastChange(e, there, k).Some?
    ensures var a, b := Run(e, here), Run(e, there);
            Clash(a, b, k) <==> At(a, k) != At(b, k)
  {
    TimedByRun(e, here, k);
    TimedByRun(e, there, k);
  }

  /** A field neither device changed stays as it was. */
  lemma UneditedStays(e: VaultEntry, here: seq<Edit>, there: seq<Edit>, k: Key)
    requires Forked(e, here, there, k)
    requires LastChange(e, here, k).None? && LastChange(e, there, k).None?
    ensures At(MergeEntry(Run(e, here), Run(e, there)), k) == At(e, k)
    ensures !Clash(Run(e, here), Run(e, there), k)
  {
    UntouchedKeepsValue(e, here, k);
    UntouchedKeepsValue(e, there, k);
    ForkMerges(e, here, there);
    MergedAt(Run(e, here), Run(e, there), k);
  }

  /** When `k` last changed before or during a run, zero if never. */
  function ChangedAt(e: VaultEntry, edits: seq<Edit>, k: Key): nat {
    match LastChange(e, edits, k)
    case Some(t) => t
    case None => match Get(e.meta.fieldTimes, Render(k)) case Some(t) => t case None => 0
  }

  /**
   An item deleted on one device and still there on the other is kept, and its deletion is
   put to the user exactly when it is newer than the item's last change.
   */
  lemma DeletionOnOneDeviceIsAsked(e: VaultEntry, here: seq<Edit>, there: seq<Edit>, k: Key)
    requires EditsFor(e, here) && EditsFor(e, there) && !k.Scalar?
    requires At(Run(e, here), k).None? && At(Run(e, there), k).Some?
    ensures var a, b, deleted := Run(e, here), Run(e, there), LastRemoval(e, here, k);
            && At(MergeEntry(a, b), k) == At(b, k) && At(MergeEntry(b, a), k) == At(b, k)
            && (PendingDelete(a, b, k) <==> deleted.Some? && deleted.value > ChangedAt(e, there, k))
            && (PendingDelete(b, a, k) <==> PendingDelete(a, b, k))
  {
    var a, b := Run(e, here), Run(e, there);
    ForkMerges(e, here, there);
    FieldTimesTrackTheRun(e, here, k);
    FieldTimesTrackTheRun(e, there, k);
    MergedAt(a, b, k);
    MergedAt(b, a, k);
  }
}
