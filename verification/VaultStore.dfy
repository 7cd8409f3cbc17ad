/** The vault's entry list as it is worked on in place: lookup, update, purge and keyed edits. */
module VaultStore {
  import opened Basics
  import opened Retention
  import opened FieldKeys
  import opened Entries
  import opened EntryUpdate
  import opened EntryPatch

  // ----- what each operation does to the list -----

  /** Position of the first entry with this id; the length if there is none. */
  function PositionOf(entries: seq<VaultEntry>, id: string): (p: nat)
    ensures p <= |entries|
    ensures p < |entries| ==> entries[p].meta.id == id
    ensures forall i :: 0 <= i < p ==> entries[i].meta.id != id
  {
    if entries == [] then 0 else if entries[0].meta.id == id then 0 else 1 + PositionOf(entries[1..], id)
  }

  lemma {:induction false} PositionIs(entries: seq<VaultEntry>, id: string, p: nat)
    requires p <= |entries| && (p < |entries| ==> entries[p].meta.id == id)
    requires forall i :: 0 <= i < p ==> entries[i].meta.id != id
    ensures PositionOf(entries, id) == p
    decreases p
  {
    if p > 0 {
      PositionIs(entries[1..], id, p - 1);
    }
  }

  function UpdateIn(entries: seq<VaultEntry>, updated: VaultEntry, clock: Clock): Result<seq<VaultEntry>, UpdateError> {
    var p := PositionOf(entries, updated.meta.id);
    if p == |entries| then Err(NotFound(updated.meta.id))
    else match UpdateOne(entries[p], updated, clock)
         case Ok(e) => Ok(entries[p := e])
         case Err(x) => Err(x)
  }

  /** An update keeps every entry's id and place, and touches no entry but the one it names. */
  lemma UpdateTouchesOne(entries: seq<VaultEntry>, updated: VaultEntry, clock: Clock)
    requires UpdateIn(entries, updated, clock).Ok?
    ensures var now := UpdateIn(entries, updated, clock).value;
            && |now| == |entries|
            && (forall i :: 0 <= i < |now| ==> now[i].meta.id == entries[i].meta.id)
            && (forall i :: 0 <= i < |now| && entries[i].meta.id != updated.meta.id ==> now[i] == entries[i])
            && (exists i :: 0 <= i < |now| && now[i].meta.id == updated.meta.id && SameType(now[i], updated))
  {
    var p := PositionOf(entries, updated.meta.id);
    var e := UpdateOne(entries[p], updated, clock).value;
    assert e.meta.id == updated.meta.id by {
      RestoredKeepsMeta(entries[p], updated);
    }
    TypeMismatchExactly(entries[p], updated, clock);
    assert entries[p := e][p] == e;
  }

  lemma RestoredKeepsMeta(stored: VaultEntry, updated: VaultEntry)
    ensures Restored(stored, updated).meta == updated.meta
  {
  }

  function Purged(e: VaultEntry, now: nat): VaultEntry {
    WithHistory(e, Purge(e.meta.history, now))
  }

  function WithHistory(e: VaultEntry, history: seq<HistoryRecord>): VaultEntry {
    e.(meta := e.meta.(history := history))
  }

  /**
   A purge never changes what an entry holds under any key, nor its change times; repeating it
   later is purging later.
   */
  lemma PurgedContent(e: VaultEntry, t1: nat, t2: nat, k: Key)
    requires t1 <= t2
    ensures At(Purged(e, t1), k) == At(e, k) && Purged(e, t1).meta.fieldTimes == e.meta.fieldTimes
    ensures Purged(Purged(e, t1), t2).meta.history == Purged(e, t2).meta.history
  {
    AtIgnoresMeta(e, e.meta.(history := Purge(e.meta.history, t1)), k);
    PurgeTwice(e.meta.history, t1, t2);
  }

  // ----- the difference of two entries, by hash map -----

  function Names(keys: seq<Key>): (names: seq<string>)
    ensures |names| == |keys| && forall i :: 0 <= i < |keys| ==> names[i] == Render(keys[i])
  {
    seq(|keys|, i requires 0 <= i < |keys| => Render(keys[i]))
  }

  /** `iter().map(|f| (label, f)).collect::<HashMap>()`. */
  method CollectPairs(pairs: seq<(string, CustomField)>) returns (table: map<string, CustomField>)
    ensures forall k :: k in table <==> PairAt(pairs, k).Some?
    ensures forall k :: k in table ==> PairAt(pairs, k) == Some(table[k])
  {
    table := map[];
    for i := 0 to |pairs|
      invariant forall k :: k in table <==> PairAt(pairs[..i], k).Some?
      invariant forall k :: k in table ==> PairAt(pairs[..i], k) == Some(table[k])
    {
      assert pairs[..i + 1][..i] == pairs[..i];
      table := table[pairs[i].0 := pairs[i].1];
    }
    assert pairs[..|pairs|] == pairs;
  }

  method CollectAttachments(atts: seq<Attachment>) returns (table: map<string, Attachment>)
    ensures forall k :: k in table <==> AttachmentAt(atts, k).Some?
    ensures forall k :: k in table ==> AttachmentAt(atts, k) == Some(table[k])
  {
    table := map[];
    for i := 0 to |atts|
      invariant forall k :: k in table <==> AttachmentAt(atts[..i], k).Some?
      invariant forall k :: k in table ==> AttachmentAt(atts[..i], k) == Some(table[k])
    {
      assert atts[..i + 1][..i] == atts[..i];
      table := table[atts[i].uuid := atts[i]];
    }
    assert atts[..|atts|] == atts;
  }

  lemma ChangedPairsStep(was: seq<(string, CustomField)>, now: seq<(string, CustomField)>, i: nat)
    requires i < |now|
    ensures ChangedPairs(was, now[i..])
            == (if PairAt(was, now[i].0) == Some(now[i].1) then [] else [Pair(now[i].0)])
               + ChangedPairs(was, now[i + 1..])
  {
    assert now[i..][1..] == now[i + 1..];
  }

  method DiffPairs(was: seq<(string, CustomField)>, now: seq<(string, CustomField)>) returns (out: seq<Key>)
    ensures out == ChangedPairs(was, now)
  {
    var table := CollectPairs(was);
    out := [];
    for i := 0 to |now|
      invariant out + ChangedPairs(was, now[i..]) == ChangedPairs(was, now)
    {
      var (k, f) := now[i];
      var changed := if k in table && table[k] == f then [] else [Pair(k)];
      ChangedPairsStep(was, now, i);
      Regroup(out, changed, ChangedPairs(was, now[i + 1..]));
      out := out + changed;
    }
  }

  method DiffAttachments(was: seq<Attachment>, now: seq<Attachment>) returns (out: seq<Key>)
    ensures out == ChangedAttachments(was, now)
  {
    var table := CollectAttachments(was);
    out := [];
    for i := 0 to |now|
      invariant out + ChangedAttachments(was, now[i..]) == ChangedAttachments(was, now)
    {
      var a := now[i];
      var same := a.uuid in table && table[a.uuid].name == a.name && table[a.uuid].kind == a.kind
                       && table[a.uuid].data == a.data;
      var changed := if same then [] else [Attach(a.uuid)];
      assert now[i..][1..] == now[i + 1..];
      Regroup(out, changed, ChangedAttachments(was, now[i + 1..]));
      out := out + changed;
    }
  }

  method DiffScalars(was: VaultEntry, now: VaultEntry, fields: seq<Field>) returns (out: seq<Key>)
    ensures out == ChangedScalars(was, now, fields)
  {
    out := [];
    for i := 0 to |fields|
      invariant out + ChangedScalars(was, now, fields[i..]) == ChangedScalars(was, now, fields)
    {
      var changed := if ScalarAt(was, fields[i]) != ScalarAt(now, fields[i]) then [Scalar(fields[i])] else [];
      assert fields[i..][1..] == fields[i + 1..];
      Regroup(out, changed, ChangedScalars(was, now, fields[i + 1..]));
      out := out + changed;
    }
  }

  method ComputeChangedFieldKeys(was: VaultEntry, now: VaultEntry) returns (names: seq<string>)
    ensures names == Names(ChangedFieldKeys(was, now))
  {
    if !SameType(was, now) {
      return [];
    }
    var scalars := DiffScalars(was, now, FieldsOf(now));
    var pairs := DiffPairs(PairsOf(was), PairsOf(now));
    var atts := DiffAttachments(AttachmentsOf(was), AttachmentsOf(now));
    names := Names(scalars + pairs + atts);
  }

  // ----- change times, stamped key by key -----

  function KeySet(keys: seq<Key>): set<Key> {
    set k | k in keys
  }

  lemma NamesAreRendered(keys: seq<Key>)
    ensures NameSet(Names(keys)) == RenderAll(KeySet(keys))
  {
    forall s | s in Names(keys) ensures s in RenderAll(KeySet(keys)) {
      var i :| 0 <= i < |keys| && Names(keys)[i] == s;
      assert keys[i] in KeySet(keys);
    }
    forall k | k in keys ensures Render(k) in Names(keys) {
      var i :| 0 <= i < |keys| && keys[i] == k;
      assert Names(keys)[i] == Render(k);
    }
  }

  lemma RenderedDifference(a: set<Key>, b: set<Key>)
    ensures RenderAll(a) - RenderAll(b) == RenderAll(a - b)
  {
    forall k: Key ensures Render(k) in RenderAll(b) <==> k in b {
      RenderAllMember(b, k);
    }
  }

  function Marks(names: set<string>): set<string> {
    set s | s in names :: DEL_PREFIX + s
  }

  lemma MarksAreTombstones(ks: set<Key>)
    ensures Marks(RenderAll(ks)) == TombstoneAll(ks)
  {
    forall k | k in ks ensures Tombstone(k) in Marks(RenderAll(ks)) {
      assert Render(k) in RenderAll(ks);
    }
  }

  function NameSet(names: seq<string>): set<string> {
    set s | s in names
  }

  lemma StampOneMore(times: map<string, nat>, names: set<string>, more: set<string>, name: string, t: nat)
    requires more == names + {name}
    ensures StampAll(times, more, t) == StampAll(times, names, t)[name := t]
  {
  }

  lemma NameSetGrows(names: seq<string>, i: nat)
    requires i < |names|
    ensures NameSet(names[..i + 1]) == NameSet(names[..i]) + {names[i]}
  {
    assert names[..i + 1] == names[..i] + [names[i]];
  }

  method StampNames(times: map<string, nat>, names: seq<string>, t: nat) returns (stamped: map<string, nat>)
    ensures stamped == StampAll(times, NameSet(names), t)
  {
    stamped := times;
    for i := 0 to |names|
      invariant stamped == StampAll(times, NameSet(names[..i]), t)
    {
      NameSetGrows(names, i);
      StampOneMore(times, NameSet(names[..i]), NameSet(names[..i + 1]), names[i], t);
      stamped := stamped[names[i] := t];
    }
    assert names[..|names|] == names;
  }

  lemma MarksGrow(all: set<string>, todo: set<string>, k: string)
    requires todo <= all && k in todo
    ensures Marks(all - (todo - {k})) == Marks(all - todo) + {DEL_PREFIX + k}
  {
    assert all - (todo - {k}) == (all - todo) + {k};
  }

  /** Deletion marks in whatever order the hash set yields them. */
  method MarkRemoved(times: map<string, nat>, removed: set<string>, t: nat) returns (marked: map<string, nat>)
    ensures marked == StampAll(times, Marks(removed), t)
  {
    marked := times;
    var todo := removed;
    while todo != {}
      invariant todo <= removed
      invariant marked == StampAll(times, Marks(removed - todo), t)
    {
      var k :| k in todo;
      MarksGrow(removed, todo, k);
      StampOneMore(times, Marks(removed - todo), Marks(removed - (todo - {k})), DEL_PREFIX + k, t);
      marked := marked[DEL_PREFIX + k := t];
      todo := todo - {k};
    }
    assert removed - todo == removed;
  }

  method UnmarkPresent(times: map<string, nat>, present: set<string>) returns (kept: map<string, nat>)
    ensures kept == times - Marks(present)
  {
    kept := times;
    var todo := present;
    while todo != {}
      invariant todo <= present
      invariant kept == times - Marks(present - todo)
    {
      var k :| k in todo;
      MarksGrow(present, todo, k);
      kept := kept - {DEL_PREFIX + k};
      todo := todo - {k};
    }
    assert present - todo == present;
  }

  method ComputeFieldTimes(stored: VaultEntry, u: VaultEntry, t: nat) returns (times: map<string, nat>)
    ensures times == NewFieldTimes(stored.meta.fieldTimes, stored, u, t)
  {
    var names := ComputeChangedFieldKeys(stored, u);
    var stamped := StampNames(stored.meta.fieldTimes, names, t);
    var oldItems, newItems := RenderAll(ItemKeys(stored)), RenderAll(ItemKeys(u));
    var marked := MarkRemoved(stamped, oldItems - newItems, t);
    times := UnmarkPresent(marked, newItems);
    NamesAreRendered(ChangedFieldKeys(stored, u));
    assert KeySet(ChangedFieldKeys(stored, u)) == ChangedSet(stored, u);
    RenderedDifference(ItemKeys(stored), ItemKeys(u));
    MarksAreTombstones(ItemKeys(stored) - ItemKeys(u));
    MarksAreTombstones(ItemKeys(u));
  }

  // ----- in place -----

  method FindEntry(entries: array<VaultEntry>, id: string) returns (p: nat)
    ensures p == PositionOf(entries[..], id)
  {
    p := 0;
    while p < entries.Length && entries[p].meta.id != id
      invariant p <= entries.Length && forall i :: 0 <= i < p ==> entries[i].meta.id != id
    {
      p := p + 1;
    }
    PositionIs(entries[..], id, p);
  }

  /** A refused update leaves the vault as it was. */
  method UpdateEntry(entries: array<VaultEntry>, updated: VaultEntry, clock: Clock) returns (r: Result<(), UpdateError>)
    modifies entries
    ensures match UpdateIn(old(entries[..]), updated, clock)
            case Ok(now) => r == Ok(()) && entries[..] == now
            case Err(x) => r == Err(x) && entries[..] == old(entries[..])
  {
    var p := FindEntry(entries, updated.meta.id);
    if p == entries.Length {
      return Err(NotFound(updated.meta.id));
    }
    var stored := entries[p];
    var u := Restored(stored, updated);
    var times := ComputeFieldTimes(stored, u, clock.ms);
    if (u.Login? && !stored.Login?) || (u.Card? && !stored.Card?) {
      return Err(TypeMismatch);
    }
    entries[p] := Refreshed(stored, u, clock, times);
    return Ok(());
  }

  method PurgeExpiredHistory(entries: array<VaultEntry>, now: nat)
    modifies entries
    ensures forall i :: 0 <= i < entries.Length ==> entries[i] == Purged(old(entries[i]), now)
  {
    for i := 0 to entries.Length
      invariant forall j :: 0 <= j < i ==> entries[j] == Purged(old(entries[j]), now)
      invariant forall j :: i <= j < entries.Length ==> entries[j] == old(entries[j])
    {
      var e := entries[i];
      var kept := RetainLive(e.meta.history, now);
      entries[i] := WithHistory(e, kept);
    }
  }

  // ----- keyed edits in place -----

  method FindCaption(fields: seq<CustomField>, caption: string) returns (i: nat)
    ensures i == FindPair(Keyed(fields), caption)
  {
    i := 0;
    while i < |fields| && fields[i].caption != caption
      invariant i <= |fields| && forall j :: 0 <= j < i ==> Keyed(fields)[j].0 != caption
    {
      i := i + 1;
    }
    FirstPairIs(Keyed(fields), caption, i);
  }

  lemma {:induction false} FirstPairIs(pairs: seq<(string, CustomField)>, key: string, p: nat)
    requires p <= |pairs| && (p < |pairs| ==> pairs[p].0 == key)
    requires forall i :: 0 <= i < p ==> pairs[i].0 != key
    ensures FindPair(pairs, key) == p
    decreases p
  {
    if p > 0 {
      FirstPairIs(pairs[1..], key, p - 1);
    }
  }

  method RetainFields(fields: seq<CustomField>, caption: string) returns (kept: seq<CustomField>)
    ensures Keyed(kept) == RemovePair(Keyed(fields), caption)
  {
    kept := [];
    for i := 0 to |fields|
      invariant Keyed(kept) == RemovePair(Keyed(fields)[..i], caption)
    {
      assert Keyed(fields)[..i + 1][..i] == Keyed(fields)[..i];
      if fields[i].caption != caption {
        assert Keyed(kept + [fields[i]]) == Keyed(kept) + [(fields[i].caption, fields[i])];
        kept := kept + [fields[i]];
      }
    }
    assert Keyed(fields)[..|fields|] == Keyed(fields);
  }

  method RetainAttachments(atts: seq<Attachment>, uuid: string) returns (kept: seq<Attachment>)
    ensures kept == RemoveAttachment(atts, uuid)
  {
    kept := [];
    for i := 0 to |atts|
      invariant kept == RemoveAttachment(atts[..i], uuid)
    {
      assert atts[..i + 1][..i] == atts[..i];
      if atts[i].uuid != uuid {
        kept := kept + [atts[i]];
      }
    }
    assert atts[..|atts|] == atts;
  }

  method SetCaption(fields: seq<CustomField>, caption: string, v: string) returns (now: seq<CustomField>)
    ensures now == Unkeyed(SetPair(Keyed(fields), caption, v))
  {
    var i := FindCaption(fields, caption);
    if i < |fields| {
      now := fields[i := fields[i].(value := v)];
    } else {
      now := fields + [CustomField(caption, v, false)];
    }
  }

  method SetEntryFieldByKey(c: Codec, entries: array<VaultEntry>, p: nat, key: string, v: string)
    requires p < entries.Length
    modifies entries
    ensures entries[..] == old(entries[..])[p := SetFieldByKey(c, old(entries[p]), key, v)]
  {
    var e := entries[p];
    var k := ParseKey(key);
    match k {
      case Some(Pair(caption)) =>
        if e.Custom? {
          entries[p] := e.(fields := SetPair(e.fields, caption, v));
        } else {
          var now := SetCaption(e.customFields, caption, v);
          entries[p] := e.(customFields := now);
        }
      case Some(Attach(_)) =>
      case Some(Scalar(f)) => entries[p] := SetScalar(c, e, f, v);
      case None =>
    }
  }

  method RemoveEntryItemByKey(entries: array<VaultEntry>, p: nat, key: string)
    requires p < entries.Length
    modifies entries
    ensures entries[..] == old(entries[..])[p := RemoveItemByKey(old(entries[p]), key)]
  {
    var e := entries[p];
    var k := ParseKey(key);
    match k {
      case Some(Pair(caption)) =>
        if e.Custom? {
          entries[p] := e.(fields := RemovePair(e.fields, caption));
        } else {
          var kept := RetainFields(e.customFields, caption);
          assert Unkeyed(Keyed(kept)) == kept;
          entries[p] := e.(customFields := kept);
        }
      case Some(Attach(uuid)) =>
        if !e.File? && !e.Passkey? {
          var kept := RetainAttachments(e.attachments, uuid);
          entries[p] := e.(attachments := kept);
        }
      case Some(Scalar(_)) =>
      case None =>
    }
  }
}
