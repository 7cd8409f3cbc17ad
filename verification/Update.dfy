/** `update_entry`: what an edit stores, which change times it stamps and which deletions it marks. */
module EntryUpdate {
  import opened Basics
  import Calendar
  import opened Retention
  import opened FieldKeys
  import opened Entries

  /**
   The instant of a call: seconds for stamps, milliseconds for change times, and how long
   replaced secrets are kept.
   */
  datatype Clock = Clock(secs: nat, ms: nat, expiryDays: Option<nat>)

  datatype UpdateError = NotFound(id: string) | TypeMismatch

  function Get(m: map<string, nat>, k: string): Option<nat> {
    if k in m then Some(m[k]) else None
  }

  /** Attachments and key material do not round-trip through an edit: the stored ones are kept. */
  function Restored(stored: VaultEntry, updated: VaultEntry): VaultEntry {
    var u := if updated.File? || updated.Passkey? then updated else updated.(attachments := AttachmentsOf(stored));
    if u.Passkey? && stored.Passkey? then u.(credential := stored.credential) else u
  }

  // ----- change times -----

  function RenderAll(ks: set<Key>): set<string> {
    set k | k in ks :: Render(k)
  }

  function TombstoneAll(ks: set<Key>): set<string> {
    set k | k in ks :: Tombstone(k)
  }

  function StampAll(times: map<string, nat>, ks: set<string>, t: nat): map<string, nat> {
    times + (map s | s in ks :: t)
  }

  /** Stamp what changed, mark what disappeared, unmark what is present. */
  function NewFieldTimes(times: map<string, nat>, was: VaultEntry, now: VaultEntry, t: nat): map<string, nat> {
    var stamped := StampAll(times, RenderAll(ChangedSet(was, now)), t);
    var marked := StampAll(stamped, TombstoneAll(ItemKeys(was) - ItemKeys(now)), t);
    marked - TombstoneAll(ItemKeys(now))
  }

  lemma RenderAllMember(ks: set<Key>, k: Key)
    ensures Render(k) in RenderAll(ks) <==> k in ks
    ensures Tombstone(k) in TombstoneAll(ks) <==> k in ks
    ensures Render(k) !in TombstoneAll(ks) && Tombstone(k) !in RenderAll(ks)
  {
    forall j ensures Render(k) == Render(j) <==> k == j
             ensures Tombstone(k) == Tombstone(j) <==> k == j
             ensures Render(k) != Tombstone(j) && Render(j) != Tombstone(k)
    {
      KeySpacesDisjoint(k, j);
      KeySpacesDisjoint(j, k);
    }
  }

  /** Stamping two sets of strings and dropping a third, seen at one string. */
  lemma StampsAt(times: map<string, nat>, changed: set<string>, gone: set<string>, here: set<string>, t: nat, s: string)
    ensures Get(StampAll(StampAll(times, changed, t), gone, t) - here, s)
            == if s in here then None else if s in gone || s in changed then Some(t) else Get(times, s)
  {
  }

  function ChangedSet(was: VaultEntry, now: VaultEntry): set<Key> {
    set k | k in ChangedFieldKeys(was, now)
  }

  /** One update at one key: stamped exactly if it changed. */
  lemma FieldTimeStep(times: map<string, nat>, was: VaultEntry, now: VaultEntry, t: nat, k: Key)
    requires SameType(was, now) && DistinctItems(now)
    ensures Get(NewFieldTimes(times, was, now, t), Render(k))
            == if At(now, k).Some? && At(was, k) != At(now, k) then Some(t) else Get(times, Render(k))
  {
    var changed, gone, here := ChangedSet(was, now), ItemKeys(was) - ItemKeys(now), ItemKeys(now);
    ChangedFieldKeysMeaning(was, now, k);
    RenderAllMember(changed, k);
    RenderAllMember(gone, k);
    RenderAllMember(here, k);
    StampsAt(times, RenderAll(changed), TombstoneAll(gone), TombstoneAll(here), t, Render(k));
  }

  /** One update at one item's deletion mark: cleared if present, set if just removed. */
  lemma TombstoneStep(times: map<string, nat>, was: VaultEntry, now: VaultEntry, t: nat, k: Key)
    requires !k.Scalar?
    ensures Get(NewFieldTimes(times, was, now, t), Tombstone(k))
            == if At(now, k).Some? then None else if At(was, k).Some? then Some(t) else Get(times, Tombstone(k))
  {
    var changed, gone, here := ChangedSet(was, now), ItemKeys(was) - ItemKeys(now), ItemKeys(now);
    ItemKeysMeaning(was, k);
    ItemKeysMeaning(now, k);
    RenderAllMember(changed, k);
    RenderAllMember(gone, k);
    RenderAllMember(here, k);
    StampsAt(times, RenderAll(changed), TombstoneAll(gone), TombstoneAll(here), t, Tombstone(k));
  }

  // ----- history of replaced secrets -----

  /** Keep `value` as the previous value of `field`, overwriting the record it already has. */
  function RecordPrevious(history: seq<HistoryRecord>, r: HistoryRecord): seq<HistoryRecord> {
    if history == [] then [r]
    else if history[0].field == r.field then [r] + history[1..]
    else [history[0]] + RecordPrevious(history[1..], r)
  }

  ghost predicate OneSlotPerField(history: seq<HistoryRecord>) {
    forall i, j :: 0 <= i < j < |history| ==> history[i].field != history[j].field
  }

  function SecretHistory(stored: VaultEntry, u: VaultEntry, clock: Clock): seq<HistoryRecord> {
    var now := Stamp(clock.secs);
    var expires := match clock.expiryDays case Some(d) => Some(AddDays(now, d)) case None => None;
    var h := stored.meta.history;
    if stored.Login? && u.Login? then
      if stored.password != u.password
      then RecordPrevious(h, HistoryRecord("password", stored.password, now, expires)) else h
    else if stored.Card? && u.Card? then
      var h1 := if stored.cvv != u.cvv then RecordPrevious(h, HistoryRecord("cvv", stored.cvv, now, expires)) else h;
      if stored.pin != u.pin then
        var was := match stored.pin case Some(p) => p case None => "";
        RecordPrevious(h1, HistoryRecord("pin", was, now, expires))
      else h1
    else h
  }

  lemma {:induction false} RecordPreviousOthers(history: seq<HistoryRecord>, r: HistoryRecord)
    ensures r in RecordPrevious(history, r)
    ensures forall x: HistoryRecord :: x.field != r.field ==> (x in RecordPrevious(history, r) <==> x in history)
    decreases |history|
  {
    if history != [] {
      assert forall x :: x in history <==> x == history[0] || x in history[1..];
      if history[0].field != r.field {
        RecordPreviousOthers(history[1..], r);
      }
    }
  }

  lemma {:induction false} RecordPreviousOneSlot(history: seq<HistoryRecord>, r: HistoryRecord)
    requires OneSlotPerField(history)
    ensures OneSlotPerField(RecordPrevious(history, r))
    decreases |history|
  {
    if history != [] && history[0].field != r.field {
      var first, tail := history[0], RecordPrevious(history[1..], r);
      RecordPreviousOneSlot(history[1..], r);
      RecordPreviousOthers(history[1..], r);
      forall j | 0 <= j < |tail| ensures first.field != tail[j].field {
        if tail[j].field != r.field {
          assert tail[j] in tail && tail[j] in history[1..];
        }
      }
    }
  }

  /** Recording keeps one slot per field, holds the new record there, and leaves the other fields' records alone. */
  lemma RecordPreviousMeaning(history: seq<HistoryRecord>, r: HistoryRecord)
    requires OneSlotPerField(history)
    ensures var h := RecordPrevious(history, r);
            && OneSlotPerField(h) && r in h
            && (forall x: HistoryRecord :: x in h && x.field == r.field ==> x == r)
            && (forall x: HistoryRecord :: x.field != r.field ==> (x in h <==> x in history))
  {
    RecordPreviousOneSlot(history, r);
    RecordPreviousOthers(history, r);
  }

  // ----- one update -----

  function UpdateOne(stored: VaultEntry, updated: VaultEntry, clock: Clock): Result<VaultEntry, UpdateError> {
    var u := Restored(stored, updated);
    if (u.Login? && !stored.Login?) || (u.Card? && !stored.Card?) then Err(TypeMismatch)
    else
      Ok(Refreshed(stored, u, clock, NewFieldTimes(stored.meta.fieldTimes, stored, u, clock.ms)))
  }

  /** The edit's own metadata brought up to date: stamp, history and change times. */
  function Refreshed(stored: VaultEntry, u: VaultEntry, clock: Clock, times: map<string, nat>): VaultEntry {
    u.(meta := u.meta.(updatedAt := Stamp(clock.secs), history := SecretHistory(stored, u, clock), fieldTimes := times))
  }

  /**
   A type change is refused exactly when the edit would turn something else into a login or a
   card; the five other types take over any entry.
   */
  lemma TypeMismatchExactly(stored: VaultEntry, updated: VaultEntry, clock: Clock)
    ensures UpdateOne(stored, updated, clock).Err? <==> (updated.Login? || updated.Card?) && !SameType(stored, updated)
    ensures UpdateOne(stored, updated, clock).Ok? ==> SameType(UpdateOne(stored, updated, clock).value, updated)
  {
  }

  /** What an accepted same-type edit stores: its own content, but the stored attachments and key material. */
  lemma UpdateContent(stored: VaultEntry, updated: VaultEntry, clock: Clock, k: Key)
    requires SameType(stored, updated)
    ensures UpdateOne(stored, updated, clock).Ok?
    ensures var e := UpdateOne(stored, updated, clock).value;
            At(e, k) == if k.Attach? || k == Scalar(CredentialBlock) then At(stored, k) else At(updated, k)
  {
    UpdateItems(stored, updated, clock);
    if k.Scalar? {
      UpdateScalar(stored, updated, clock, k.f);
    }
    AtFromParts(UpdateOne(stored, updated, clock).value, stored, updated, k);
  }

  lemma AtFromParts(e: VaultEntry, stored: VaultEntry, updated: VaultEntry, k: Key)
    requires PairsOf(e) == PairsOf(updated) && AttachmentsOf(e) == AttachmentsOf(stored)
    requires k.Scalar? ==>
               ScalarAt(e, k.f) == if k.f == CredentialBlock then ScalarAt(stored, k.f) else ScalarAt(updated, k.f)
    ensures At(e, k) == if k.Attach? || k == Scalar(CredentialBlock) then At(stored, k) else At(updated, k)
  {
  }

  lemma UpdateScalar(stored: VaultEntry, updated: VaultEntry, clock: Clock, f: Field)
    requires SameType(stored, updated) && UpdateOne(stored, updated, clock).Ok?
    ensures ScalarAt(UpdateOne(stored, updated, clock).value, f)
            == if f == CredentialBlock then ScalarAt(stored, f) else ScalarAt(updated, f)
  {
    ScalarIgnoresMeta(Restored(stored, updated), UpdateOne(stored, updated, clock).value.meta, f);
    RestoredScalar(stored, updated, f);
  }

  lemma UpdateItems(stored: VaultEntry, updated: VaultEntry, clock: Clock)
    requires SameType(stored, updated)
    ensures UpdateOne(stored, updated, clock).Ok?
    ensures var e := UpdateOne(stored, updated, clock).value;
            PairsOf(e) == PairsOf(updated) && AttachmentsOf(e) == AttachmentsOf(stored) && SameType(stored, e)
  {
    RestoredItems(stored, updated);
    ItemsIgnoreMeta(Restored(stored, updated), UpdateOne(stored, updated, clock).value.meta);
  }

  lemma ItemsIgnoreMeta(e: VaultEntry, m: Meta)
    ensures PairsOf(e.(meta := m)) == PairsOf(e) && AttachmentsOf(e.(meta := m)) == AttachmentsOf(e)
    ensures SameType(e, e.(meta := m))
  {
  }

  lemma ScalarIgnoresMeta(e: VaultEntry, m: Meta, f: Field)
    ensures ScalarAt(e.(meta := m), f) == ScalarAt(e, f)
  {
  }

  lemma RestoredScalar(stored: VaultEntry, updated: VaultEntry, f: Field)
    requires SameType(stored, updated)
    ensures ScalarAt(Restored(stored, updated), f)
            == if f == CredentialBlock then ScalarAt(stored, f) else ScalarAt(updated, f)
  {
  }

  // ----- runs of updates -----

  datatype Edit = Edit(updated: VaultEntry, clock: Clock)

  /** Edits of the entry's own type, each with distinct pair keys. */
  ghost predicate EditsFor(e: VaultEntry, edits: seq<Edit>) {
    && DistinctItems(e)
    && forall i :: 0 <= i < |edits| ==> SameType(e, edits[i].updated) && DistinctItems(edits[i].updated)
  }

  function Apply(e: VaultEntry, edit: Edit): VaultEntry {
    match UpdateOne(e, edit.updated, edit.clock) case Ok(r) => r case Err(_) => e
  }

  /** The entry after a run of edits. */
  function Run(e: VaultEntry, edits: seq<Edit>): VaultEntry {
    if edits == [] then e else Apply(Run(e, edits[..|edits| - 1]), edits[|edits| - 1])
  }

  /** When a run last gave `k` a value it did not have before. */
  function LastChange(e: VaultEntry, edits: seq<Edit>, k: Key): Option<nat> {
    if edits == [] then None
    else
      var before := edits[..|edits| - 1];
      if At(Run(e, edits), k).Some? && At(Run(e, before), k) != At(Run(e, edits), k)
      then Some(edits[|edits| - 1].clock.ms) else LastChange(e, before, k)
  }

  /** When a run last removed item `k`, if it is still absent; the initial mark if the run never touched it. */
  function LastRemoval(e: VaultEntry, edits: seq<Edit>, k: Key): Option<nat> {
    if edits == [] then Get(e.meta.fieldTimes, Tombstone(k))
    else
      var before := edits[..|edits| - 1];
      if At(Run(e, edits), k).Some? then None
      else if At(Run(e, before), k).Some? then Some(edits[|edits| - 1].clock.ms)
      else LastRemoval(e, before, k)
  }

  lemma ApplyKeeps(e: VaultEntry, edit: Edit)
    requires DistinctItems(e) && SameType(e, edit.updated) && DistinctItems(edit.updated)
    ensures DistinctItems(Apply(e, edit)) && SameType(e, Apply(e, edit))
  {
    UpdateItems(e, edit.updated, edit.clock);
  }

  lemma {:induction false} RunKeeps(e: VaultEntry, edits: seq<Edit>)
    requires EditsFor(e, edits)
    ensures DistinctItems(Run(e, edits)) && SameType(e, Run(e, edits))
    decreases |edits|
  {
    if edits != [] {
      var n := |edits| - 1;
      RunKeeps(e, edits[..n]);
      SameTypeTransitive(Run(e, edits[..n]), e, edits[n].updated);
      ApplyKeeps(Run(e, edits[..n]), edits[n]);
      SameTypeTransitive(e, Run(e, edits[..n]), Run(e, edits));
    }
  }

  /** One edit of a run, seen through the entry it really compares with: the restored one. */
  lemma ApplyTimes(e: VaultEntry, edit: Edit, k: Key)
    requires DistinctItems(e) && SameType(e, edit.updated) && DistinctItems(edit.updated)
    ensures var after := Apply(e, edit);
            && Get(after.meta.fieldTimes, Render(k))
               == (if At(after, k).Some? && At(e, k) != At(after, k) then Some(edit.clock.ms)
                   else Get(e.meta.fieldTimes, Render(k)))
            && (!k.Scalar? ==>
                  Get(after.meta.fieldTimes, Tombstone(k))
                  == if At(after, k).Some? then None
                     else if At(e, k).Some? then Some(edit.clock.ms) else Get(e.meta.fieldTimes, Tombstone(k)))
  {
    var u := Restored(e, edit.updated);
    var after := Apply(e, edit);
    UpdateItems(e, edit.updated, edit.clock);
    RestoredItems(e, edit.updated);
    AtIgnoresMeta(u, after.meta, k);
    FieldTimeStep(e.meta.fieldTimes, e, u, edit.clock.ms, k);
    if !k.Scalar? {
      TombstoneStep(e.meta.fieldTimes, e, u, edit.clock.ms, k);
    }
  }

  lemma RestoredItems(stored: VaultEntry, updated: VaultEntry)
    requires SameType(stored, updated)
    ensures var u := Restored(stored, updated);
            PairsOf(u) == PairsOf(updated) && AttachmentsOf(u) == AttachmentsOf(stored) && SameType(stored, u)
  {
  }

  lemma AtIgnoresMeta(e: VaultEntry, m: Meta, k: Key)
    ensures At(e.(meta := m), k) == At(e, k)
  {
    if k.Scalar? {
      ScalarIgnoresMeta(e, m, k.f);
    } else {
      ItemsIgnoreMeta(e, m);
    }
  }

  /**
   Over every run of same-type edits, the change time of every key is the clock of the last
   edit that changed it, or its initial one; a present item has no deletion mark, and an item
   removed during the run and still absent carries the clock of its last removal.
   */
  lemma {:induction false} FieldTimesTrackTheRun(e: VaultEntry, edits: seq<Edit>, k: Key)
    requires EditsFor(e, edits)
    ensures Get(Run(e, edits).meta.fieldTimes, Render(k))
            == match LastChange(e, edits, k) case Some(t) => Some(t) case None => Get(e.meta.fieldTimes, Render(k))
    ensures !k.Scalar? ==> Get(Run(e, edits).meta.fieldTimes, Tombstone(k)) == LastRemoval(e, edits, k)
    decreases |edits|
  {
    if edits != [] {
      var n := |edits| - 1;
      RunKeeps(e, edits[..n]);
      SameTypeTransitive(Run(e, edits[..n]), e, edits[n].updated);
      FieldTimesTrackTheRun(e, edits[..n], k);
      ApplyTimes(Run(e, edits[..n]), edits[n], k);
    }
  }

  /** No present item carries a deletion mark after an edit. */
  lemma PresentItemHasNoTombstone(e: VaultEntry, edits: seq<Edit>, k: Key)
    requires EditsFor(e, edits) && edits != [] && k in ItemKeys(Run(e, edits))
    ensures Tombstone(k) !in Run(e, edits).meta.fieldTimes
  {
    ItemKeysMeaning(Run(e, edits), k);
    FieldTimesTrackTheRun(e, edits, k);
  }

  // ----- replaced secrets -----

  lemma SecretHistoryOneSlot(stored: VaultEntry, u: VaultEntry, clock: Clock)
    requires OneSlotPerField(stored.meta.history)
    ensures OneSlotPerField(SecretHistory(stored, u, clock))
  {
    var now := Stamp(clock.secs);
    var expires := match clock.expiryDays case Some(d) => Some(AddDays(now, d)) case None => None;
    var h := stored.meta.history;
    if stored.Login? && u.Login? {
      RecordPreviousMeaning(h, HistoryRecord("password", stored.password, now, expires));
    } else if stored.Card? && u.Card? {
      var h1 := if stored.cvv != u.cvv then RecordPrevious(h, HistoryRecord("cvv", stored.cvv, now, expires)) else h;
      RecordPreviousMeaning(h, HistoryRecord("cvv", stored.cvv, now, expires));
      RecordPreviousMeaning(h1, HistoryRecord("pin", match stored.pin case Some(p) => p case None => "", now, expires));
    }
  }

  lemma LoginHistory(stored: VaultEntry, updated: VaultEntry, clock: Clock)
    requires stored.Login? && updated.Login?
    ensures UpdateOne(stored, updated, clock).Ok?
    ensures UpdateOne(stored, updated, clock).value.meta.history == SecretHistory(stored, updated, clock)
  {
  }

  /**
   A replaced password is kept in exactly one record, the other fields' records are untouched,
   and a purge drops it exactly when its days have passed.
   */
  lemma ReplacedPasswordIsKept(stored: VaultEntry, updated: VaultEntry, clock: Clock, days: nat, later: nat)
    requires stored.Login? && updated.Login? && stored.password != updated.password
    requires OneSlotPerField(stored.meta.history) && clock.expiryDays == Some(days)
    requires clock.secs <= Calendar.U64_MAX && days < U32_MODULUS
    requires clock.secs / SECONDS_PER_DAY + days <= LAST_DAY
    ensures UpdateOne(stored, updated, clock).Ok?
    ensures var h := UpdateOne(stored, updated, clock).value.meta.history;
            && OneSlotPerField(h)
            && (exists r :: r in h && r.field == "password" && r.value == stored.password
                            && (IsExpired(r.expiresAt, later)
                                <==> later / SECONDS_PER_DAY > clock.secs / SECONDS_PER_DAY + days))
            && (forall r: HistoryRecord :: r.field != "password" ==> (r in h <==> r in stored.meta.history))
  {
    var now := Stamp(clock.secs);
    var r := HistoryRecord("password", stored.password, now, Some(AddDays(now, days)));
    LoginHistory(stored, updated, clock);
    RecordPreviousMeaning(stored.meta.history, r);
    RetentionExactly(clock.secs, days);
    var h := UpdateOne(stored, updated, clock).value.meta.history;
    assert h == RecordPrevious(stored.meta.history, r);
    assert r in h && r.field == "password";
  }

  /** The records of fields not named in `fields` are the same in both histories. */
  ghost predicate OthersKept(h: seq<HistoryRecord>, was: seq<HistoryRecord>, fields: set<string>) {
    forall r: HistoryRecord :: r.field !in fields ==> (r in h <==> r in was)
  }

  lemma CardHistory(stored: VaultEntry, updated: VaultEntry, clock: Clock)
    requires stored.Card? && updated.Card?
    ensures UpdateOne(stored, updated, clock).Ok?
    ensures UpdateOne(stored, updated, clock).value.meta.history == SecretHistory(stored, updated, clock)
  {
  }

  /**
   One update that replaces a card's CVV and PIN keeps one record for each, both expiring
   exactly when their days have passed, and leaves the other fields' records alone.
   */
  lemma ReplacedCardSecretsAreKept(stored: VaultEntry, updated: VaultEntry, clock: Clock, days: nat, later: nat)
    requires stored.Card? && updated.Card? && stored.cvv != updated.cvv && stored.pin != updated.pin
    requires OneSlotPerField(stored.meta.history) && clock.expiryDays == Some(days)
    requires clock.secs <= Calendar.U64_MAX && days < U32_MODULUS
    requires clock.secs / SECONDS_PER_DAY + days <= LAST_DAY
    ensures UpdateOne(stored, updated, clock).Ok?
    ensures var h := UpdateOne(stored, updated, clock).value.meta.history;
            exists cvv, pin ::
              && cvv in h && cvv.field == "cvv" && cvv.value == stored.cvv
              && pin in h && pin.field == "pin" && pin.value == (if stored.pin.Some? then stored.pin.value else "")
              && cvv.expiresAt == pin.expiresAt
              && (IsExpired(cvv.expiresAt, later) <==> later / SECONDS_PER_DAY > clock.secs / SECONDS_PER_DAY + days)
    ensures var h := UpdateOne(stored, updated, clock).value.meta.history;
            OneSlotPerField(h) && OthersKept(h, stored.meta.history, {"cvv", "pin"})
  {
    var now := Stamp(clock.secs);
    var until := Some(AddDays(now, days));
    var cvv := HistoryRecord("cvv", stored.cvv, now, until);
    var pin := HistoryRecord("pin", if stored.pin.Some? then stored.pin.value else "", now, until);
    CardHistory(stored, updated, clock);
    TwoRecorded(stored.meta.history, cvv, pin);
    RetentionExactly(clock.secs, days);
    var h := UpdateOne(stored, updated, clock).value.meta.history;
    assert h == RecordPrevious(RecordPrevious(stored.meta.history, cvv), pin);
    assert cvv in h && pin in h;
  }

  lemma TwoRecorded(history: seq<HistoryRecord>, a: HistoryRecord, b: HistoryRecord)
    requires OneSlotPerField(history) && a.field == "cvv" && b.field == "pin"
    ensures var h := RecordPrevious(RecordPrevious(history, a), b);
            OneSlotPerField(h) && a in h && b in h && OthersKept(h, history, {"cvv", "pin"})
  {
    assert a.field[0] != b.field[0];
    RecordPreviousMeaning(history, a);
    RecordPreviousMeaning(RecordPrevious(history, a), b);
  }

  // ----- each secret on its own -----

  /** Until when a replaced secret is kept; `None` means until deleted. */
  function KeptUntil(clock: Clock): Option<string> {
    match clock.expiryDays case Some(d) => Some(AddDays(Stamp(clock.secs), d)) case None => None
  }

  /** The history holds the replaced value of a field, saved now and kept as long as the clock says. */
  ghost predicate Keeps(h: seq<HistoryRecord>, field: string, value: string, clock: Clock) {
    exists r :: r in h && r.field == field && r.value == value && r.savedAt == Stamp(clock.secs)
                && r.expiresAt == KeptUntil(clock)
  }

  lemma RecordedIsKept(history: seq<HistoryRecord>, r: HistoryRecord, clock: Clock)
    requires r.savedAt == Stamp(clock.secs) && r.expiresAt == KeptUntil(clock)
    ensures Keeps(RecordPrevious(history, r), r.field, r.value, clock)
  {
    RecordPreviousOthers(history, r);
  }

  /** A record for another field does not displace a kept one. */
  lemma KeptStays(history: seq<HistoryRecord>, r: HistoryRecord, field: string, value: string, clock: Clock)
    requires Keeps(history, field, value, clock) && r.field != field
    ensures Keeps(RecordPrevious(history, r), field, value, clock)
  {
    RecordPreviousOthers(history, r);
    var k :| k in history && k.field == field && k.value == value && k.savedAt == Stamp(clock.secs)
             && k.expiresAt == KeptUntil(clock);
    assert k in RecordPrevious(history, r);
  }

  /** A replaced password, CVV or PIN is kept, each whether or not the other secrets changed. */
  lemma ReplacedSecretsAreKept(stored: VaultEntry, updated: VaultEntry, clock: Clock)
    requires SameType(stored, updated)
    ensures UpdateOne(stored, updated, clock).Ok?
    ensures var h := UpdateOne(stored, updated, clock).value.meta.history;
            && (stored.Login? && stored.password != updated.password ==> Keeps(h, "password", stored.password, clock))
            && (stored.Card? && stored.cvv != updated.cvv ==> Keeps(h, "cvv", stored.cvv, clock))
            && (stored.Card? && stored.pin != updated.pin ==>
                  Keeps(h, "pin", if stored.pin.Some? then stored.pin.value else "", clock))
  {
    HistoryAfter(stored, updated, clock);
    if stored.Login? {
      RecordedIsKept(stored.meta.history,
                     HistoryRecord("password", stored.password, Stamp(clock.secs), KeptUntil(clock)), clock);
    } else if stored.Card? {
      CardSecretsAreKept(stored, updated, clock);
    }
  }

  lemma CardSecretsAreKept(stored: VaultEntry, updated: VaultEntry, clock: Clock)
    requires stored.Card? && updated.Card?
    ensures var h := SecretHistory(stored, updated, clock);
            && (stored.cvv != updated.cvv ==> Keeps(h, "cvv", stored.cvv, clock))
            && (stored.pin != updated.pin ==> Keeps(h, "pin", if stored.pin.Some? then stored.pin.value else "", clock))
  {
    var now := Stamp(clock.secs);
    var cvv := HistoryRecord("cvv", stored.cvv, now, KeptUntil(clock));
    var pin := HistoryRecord("pin", if stored.pin.Some? then stored.pin.value else "", now, KeptUntil(clock));
    var h := stored.meta.history;
    var h1 := if stored.cvv != updated.cvv then RecordPrevious(h, cvv) else h;
    assert cvv.field[0] != pin.field[0];
    RecordedIsKept(h, cvv, clock);
    RecordedIsKept(h1, pin, clock);
    if stored.cvv != updated.cvv {
      KeptStays(h1, pin, "cvv", stored.cvv, clock);
    }
  }

  lemma HistoryAfter(stored: VaultEntry, updated: VaultEntry, clock: Clock)
    requires SameType(stored, updated)
    ensures UpdateOne(stored, updated, clock).Ok?
    ensures UpdateOne(stored, updated, clock).value.meta.history == SecretHistory(stored, updated, clock)
  {
    if stored.Login? {
      LoginHistory(stored, updated, clock);
    } else if stored.Card? {
      CardHistory(stored, updated, clock);
    }
  }

  /** With no secret replaced, and whenever the new entry is neither a login nor a card, the history stays as stored. */
  lemma OtherwiseHistoryStays(stored: VaultEntry, updated: VaultEntry, clock: Clock)
    requires UpdateOne(stored, updated, clock).Ok?
    requires updated.Login? ==> stored.password == updated.password
    requires updated.Card? ==> stored.cvv == updated.cvv && stored.pin == updated.pin
    ensures UpdateOne(stored, updated, clock).value.meta.history == stored.meta.history
  {
    TypeMismatchExactly(stored, updated, clock);
    if updated.Login? {
      LoginHistory(stored, updated, clock);
    } else if updated.Card? {
      CardHistory(stored, updated, clock);
    }
  }

  /** The rest of the metadata: stamped now, with the edit's own id, creation time and folder. */
  lemma UpdateStamps(stored: VaultEntry, updated: VaultEntry, clock: Clock)
    requires UpdateOne(stored, updated, clock).Ok?
    ensures var m := UpdateOne(stored, updated, clock).value.meta;
            && m.updatedAt == Stamp(clock.secs) && m.id == updated.meta.id
            && m.createdAt == updated.meta.createdAt && m.folder == updated.meta.folder
  {
  }

  /** A replaced record stays in its place; a first one goes to the end. */
  lemma {:induction false} RecordPreviousPlace(history: seq<HistoryRecord>, r: HistoryRecord, i: nat)
    requires i <= |history| && (forall j :: 0 <= j < i ==> history[j].field != r.field)
    requires i < |history| ==> history[i].field == r.field
    ensures RecordPrevious(history, r) == if i < |history| then history[i := r] else history + [r]
    decreases i
  {
    if i > 0 {
      RecordPreviousPlace(history[1..], r, i - 1);
      assert [history[0]] + history[1..] == history;
    } else if history != [] {
      assert [r] + history[1..] == history[0 := r];
    }
  }
}
