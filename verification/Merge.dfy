/** Granular sync: merging two versions of one entry field by field, and what that guarantees. */
module EntryMerge {
  import opened Basics
  import opened TextOrder
  import opened Retention
  import opened FieldKeys
  import opened Entries
  import opened EntryUpdate
  import opened EntryPatch

  // ----- one field -----

  datatype Side = Mine | Theirs

  datatype Decision = Decision(side: Side, stamp: Option<nat>, clash: bool)

  function Latest(a: string, b: string): string {
    if Before(a, b) then b else a
  }

  function MaxStamp(a: Option<nat>, b: Option<nat>): Option<nat> {
    match (a, b)
    case (Some(x), Some(y)) => Some(if x < y then y else x)
    case (Some(_), None) => a
    case _ => b
  }

  function Decide(lt: Option<nat>, it: Option<nat>, lUpdated: string, iUpdated: string, equal: bool): Decision {
    var stamp := MaxStamp(lt, it);
    if equal then Decision(Mine, stamp, false)
    else
      match (lt, it)
      case (Some(_), Some(_)) => Decision(Mine, stamp, true)
      case (Some(_), None) => Decision(Mine, stamp, false)
      case (None, Some(_)) => Decision(Theirs, stamp, false)
      case (None, None) =>
        if Before(lUpdated, iUpdated) then Decision(Theirs, None, false)
        else Decision(Mine, None, !Before(iUpdated, lUpdated))
  }

  function DecideAt(l: Meta, i: Meta, k: Key, equal: bool): Decision {
    Decide(Get(l.fieldTimes, Render(k)), Get(i.fieldTimes, Render(k)), l.updatedAt, i.updatedAt, equal)
  }

  // ----- one key, as each side sees it -----

  /** A side's value under a key, when it last changed, when it was last deleted, and the side's own update stamp. */
  datatype View = View(val: Option<Val>, time: Option<nat>, mark: Option<nat>, updated: string)

  function Seen(e: VaultEntry, k: Key): View {
    View(At(e, k), Get(e.meta.fieldTimes, Render(k)), Get(e.meta.fieldTimes, Tombstone(k)), e.meta.updatedAt)
  }

  function Rule(x: View, y: View): Decision {
    Decide(x.time, y.time, x.updated, y.updated, x.val == y.val)
  }

  /** Decided when both sides have a value, carried over when one has. */
  function Chosen(x: View, y: View): Option<Val> {
    if x.val.Some? && y.val.Some? then (if Rule(x, y).side.Mine? then x.val else y.val)
    else if x.val.Some? then x.val else y.val
  }

  /** The later change time if both sides have the value, its owner's otherwise. */
  function ChosenTime(x: View, y: View): Option<nat> {
    if x.val.Some? && y.val.Some? then Rule(x, y).stamp
    else if x.val.Some? then x.time else if y.val.Some? then y.time else None
  }

  /** A deletion mark survives unless the item is back with a change at least as new. */
  function SurvivingMark(mark: Option<nat>, time: Option<nat>): Option<nat> {
    if mark.Some? && time.Some? && time.value >= mark.value then None else mark
  }

  function ChosenMark(x: View, y: View): Option<nat> {
    MaxStamp(SurvivingMark(x.mark, ChosenTime(x, y)), SurvivingMark(y.mark, ChosenTime(x, y)))
  }

  /** Both sides have a value and neither may silently win. */
  predicate Clashing(x: View, y: View) {
    x.val.Some? && y.val.Some? && Rule(x, y).clash
  }

  /** Only one side has a value, and the other deleted it more recently than it was last changed. */
  predicate Pending(x: View, y: View) {
    x.val.Some? != y.val.Some? &&
    var (owner, other) := if x.val.Some? then (x, y) else (y, x);
    other.mark.Some? && other.mark.value > match owner.time case Some(t) => t case None => 0
  }

  /** A value taken from the incoming side, for review. */
  predicate Brought(x: View, y: View) {
    if x.val.Some? && y.val.Some? then Rule(x, y).side.Theirs? && !Rule(x, y).clash
    else x.val.None? && y.val.Some? && !Pending(x, y)
  }

  lemma ReportsEveryChange(x: View, y: View)
    ensures Chosen(x, y) != x.val <==> Brought(x, y) || (Pending(x, y) && x.val.None?)
  {
  }

  lemma Converges(x: View, y: View)
    ensures Chosen(x, y) == Chosen(y, x) <==> !Clashing(x, y)
    ensures Clashing(x, y) <==> Clashing(y, x)
    ensures Clashing(x, y) ==> Chosen(x, y) == x.val && Chosen(y, x) == y.val
    ensures ChosenTime(x, y) == ChosenTime(y, x) && ChosenMark(x, y) == ChosenMark(y, x)
  {
    BeforeIsAsymmetric(x.updated, y.updated);
  }

  lemma Stable(x: View, y: View, z: View)
    requires z.val == Chosen(x, y) && z.time == ChosenTime(x, y) && z.updated == Latest(x.updated, y.updated)
    ensures Chosen(z, y) == z.val && (Clashing(z, y) <==> Clashing(x, y))
    ensures z.val.Some? && y.val.Some? ==> Rule(z, y).side.Mine?
    ensures ChosenTime(z, y) == z.time
  {
    BeforeIsAsymmetric(x.updated, y.updated);
    BeforeIsAsymmetric(y.updated, y.updated);
  }

  // ----- two entries -----

  function Pick<T(==)>(l: VaultEntry, i: VaultEntry, f: Field, mine: T, theirs: T): T {
    if DecideAt(l.meta, i.meta, Scalar(f), mine == theirs).side.Mine? then mine else theirs
  }

  /** The key material block is decided as a whole. */
  function PickCredential(l: VaultEntry, i: VaultEntry, mine: Credential, theirs: Credential): Credential {
    if DecideAt(l.meta, i.meta, Scalar(CredentialBlock), CredentialBlob(mine) == CredentialBlob(theirs)).side.Mine?
    then mine else theirs
  }

  /** The scalars decided one by one; items still the local ones. */
  function MergeScalars(l: VaultEntry, i: VaultEntry): VaultEntry
    requires SameType(l, i)
  {
    match l
    case Login(m, title, url, username, password, notes, pairs, atts, appId, email) =>
      Login(m, Pick(l, i, Title, title, i.title), Pick(l, i, Url, url, i.url),
            Pick(l, i, Username, username, i.username), Pick(l, i, Password, password, i.password),
            Pick(l, i, Notes, notes, i.notes), pairs, atts, Pick(l, i, AppId, appId, i.appId),
            Pick(l, i, Email, email, i.email))
    case Note(m, title, content, pairs, atts) =>
      Note(m, Pick(l, i, Title, title, i.title), Pick(l, i, Content, content, i.content), pairs, atts)
    case Identity(m, firstName, lastName, mail, phone, address, pairs, atts) =>
      Identity(m, Pick(l, i, FirstName, firstName, i.firstName), Pick(l, i, LastName, lastName, i.lastName),
               Pick(l, i, Email, mail, i.mail), Pick(l, i, Phone, phone, i.phone),
               Pick(l, i, Address, address, i.address), pairs, atts)
    case Card(_, _, _, _, _, _, _, _, _, _, _, _, _, _, _, _) => MergeCardScalars(l, i)
    case File(m, filename, data, notes, pairs) =>
      File(m, Pick(l, i, Filename, filename, i.filename), Pick(l, i, Data, data, i.data),
           Pick(l, i, Notes, notes, i.notes), pairs)
    case Custom(m, title, fields, atts) => Custom(m, Pick(l, i, Title, title, i.title), fields, atts)
    case Passkey(m, rpId, userName, displayName, credential, notes, pairs) =>
      Passkey(m, Pick(l, i, RpId, rpId, i.rpId), Pick(l, i, UserName, userName, i.userName),
              Pick(l, i, UserDisplayName, displayName, i.userDisplayName),
              PickCredential(l, i, credential, i.credential), Pick(l, i, Notes, notes, i.notes), pairs)
  }

  function MergeCardScalars(l: VaultEntry, i: VaultEntry): VaultEntry
    requires l.Card? && i.Card?
  {
    Card(l.meta, Pick(l, i, CardName, l.cardName, i.cardName), Pick(l, i, Status, l.status, i.status),
         Pick(l, i, CardholderName, l.cardholderName, i.cardholderName),
         Pick(l, i, CardNumber, l.cardNumber, i.cardNumber), Pick(l, i, Expiry, l.expiry, i.expiry),
         Pick(l, i, Cvv, l.cvv, i.cvv), Pick(l, i, CreditLimit, l.creditLimit, i.creditLimit),
         Pick(l, i, CardAccountNumber, l.cardAccountNumber, i.cardAccountNumber),
         Pick(l, i, PaymentNetwork, l.paymentNetwork, i.paymentNetwork), Pick(l, i, Pin, l.pin, i.pin),
         Pick(l, i, BankName, l.bankName, i.bankName),
         Pick(l, i, TransactionPassword, l.transactionPassword, i.transactionPassword),
         Pick(l, i, Notes, l.notes, i.notes), l.customFields, l.attachments)
  }

  // ----- items -----

  /** Each name once, at its first occurrence. */
  function Firsts(names: seq<string>): seq<string> {
    if names == [] then []
    else
      var n := |names| - 1;
      var before := Firsts(names[..n]);
      if names[n] in before then before else before + [names[n]]
  }

  function Insert(name: string, sorted: seq<string>): seq<string> {
    if sorted == [] || Before(name, sorted[0]) then [name] + sorted else [sorted[0]] + Insert(name, sorted[1..])
  }

  function Sort(names: seq<string>): seq<string> {
    if names == [] then [] else Insert(names[|names| - 1], Sort(names[..|names| - 1]))
  }

  function PairKeys(pairs: seq<(string, CustomField)>): (keys: seq<string>)
    ensures |keys| == |pairs| && forall i :: 0 <= i < |pairs| ==> keys[i] == pairs[i].0
  {
    seq(|pairs|, i requires 0 <= i < |pairs| => pairs[i].0)
  }

  function Uuids(atts: seq<Attachment>): (keys: seq<string>)
    ensures |keys| == |atts| && forall i :: 0 <= i < |atts| ==> keys[i] == atts[i].uuid
  {
    seq(|atts|, i requires 0 <= i < |atts| => atts[i].uuid)
  }

  /** The pair kept under a key: decided when both sides have it, carried over when one has. */
  function ChosenPair(l: VaultEntry, i: VaultEntry, key: string): Option<CustomField> {
    var mine, theirs := PairAt(PairsOf(l), key), PairAt(PairsOf(i), key);
    if mine.Some? && theirs.Some?
    then if DecideAt(l.meta, i.meta, Pair(key), mine == theirs).side.Mine? then mine else theirs
    else if mine.Some? then mine else theirs
  }

  function ChosenAttachment(l: VaultEntry, i: VaultEntry, uuid: string): Option<Attachment> {
    var mine, theirs := AttachmentAt(AttachmentsOf(l), uuid), AttachmentAt(AttachmentsOf(i), uuid);
    if mine.Some? && theirs.Some?
    then if DecideAt(l.meta, i.meta, Attach(uuid), SameContent(mine, theirs.value)).side.Mine? then mine else theirs
    else if mine.Some? then mine else theirs
  }

  function PairsFor(l: VaultEntry, i: VaultEntry, keys: seq<string>): seq<(string, CustomField)> {
    if keys == [] then []
    else
      var n := |keys| - 1;
      var p := ChosenPair(l, i, keys[n]);
      PairsFor(l, i, keys[..n]) + if p.Some? then [(keys[n], p.value)] else []
  }

  function AttachmentsFor(l: VaultEntry, i: VaultEntry, keys: seq<string>): seq<Attachment> {
    if keys == [] then []
    else
      var n := |keys| - 1;
      var a := ChosenAttachment(l, i, keys[n]);
      AttachmentsFor(l, i, keys[..n]) + if a.Some? then [a.value] else []
  }

  /** Local pairs first and then the incoming ones; a Custom entry's are sorted by key. */
  function MergedPairs(l: VaultEntry, i: VaultEntry): seq<(string, CustomField)> {
    var keys := Firsts(PairKeys(PairsOf(l)) + PairKeys(PairsOf(i)));
    PairsFor(l, i, if l.Custom? then Sort(keys) else keys)
  }

  function MergedAttachments(l: VaultEntry, i: VaultEntry): seq<Attachment> {
    AttachmentsFor(l, i, Firsts(Uuids(AttachmentsOf(l)) + Uuids(AttachmentsOf(i))))
  }

  // ----- change times and history -----

  function MergedTime(l: VaultEntry, i: VaultEntry, k: Key): Option<nat> {
    ChosenTime(Seen(l, k), Seen(i, k))
  }

  predicate Timed(l: VaultEntry, i: VaultEntry, s: string) {
    ParseKey(s).Some? && Render(ParseKey(s).value) == s && MergedTime(l, i, ParseKey(s).value).Some?
  }

  function DecidedTimes(l: VaultEntry, i: VaultEntry): map<string, nat> {
    map s | s in l.meta.fieldTimes.Keys + i.meta.fieldTimes.Keys && Timed(l, i, s) ::
      MergedTime(l, i, ParseKey(s).value).value
  }

  function MarkAt(times: map<string, nat>, l: Meta, i: Meta, s: string): Option<nat>
    requires DEL_PREFIX <= s
  {
    var time := Get(times, s[|DEL_PREFIX|..]);
    MaxStamp(SurvivingMark(Get(l.fieldTimes, s), time), SurvivingMark(Get(i.fieldTimes, s), time))
  }

  function MergedMarks(times: map<string, nat>, l: Meta, i: Meta): map<string, nat> {
    map s | s in l.fieldTimes.Keys + i.fieldTimes.Keys && DEL_PREFIX <= s && MarkAt(times, l, i, s).Some? ::
      MarkAt(times, l, i, s).value
  }

  function MergedTimes(l: VaultEntry, i: VaultEntry): map<string, nat> {
    DecidedTimes(l, i) + MergedMarks(DecidedTimes(l, i), l.meta, i.meta)
  }

  function UnionHistory(mine: seq<HistoryRecord>, theirs: seq<HistoryRecord>): seq<HistoryRecord> {
    if theirs == [] then mine
    else
      var n := |theirs| - 1;
      var before := UnionHistory(mine, theirs[..n]);
      if theirs[n] in before then before else before + [theirs[n]]
  }

  function MergedMeta(l: VaultEntry, i: VaultEntry): Meta {
    l.meta.(updatedAt := Latest(l.meta.updatedAt, i.meta.updatedAt),
            fieldTimes := MergedTimes(l, i),
            history := UnionHistory(l.meta.history, i.meta.history))
  }

  function WithAttachments(e: VaultEntry, atts: seq<Attachment>): VaultEntry {
    if e.File? || e.Passkey? then e else e.(attachments := atts)
  }

  /** `merge_entry_pair`: whole-entry last-writer-wins only across types. */
  function MergeEntry(l: VaultEntry, i: VaultEntry): VaultEntry {
    if !SameType(l, i) then (if Before(l.meta.updatedAt, i.meta.updatedAt) then i else l)
    else
      var scalars := MergeScalars(l, i);
      WithAttachments(WithPairs(scalars, MergedPairs(l, i)), MergedAttachments(l, i)).(meta := MergedMeta(l, i))
  }

  // ----- what is reported -----

  predicate Clash(l: VaultEntry, i: VaultEntry, k: Key) {
    Clashing(Seen(l, k), Seen(i, k))
  }

  predicate PendingDelete(l: VaultEntry, i: VaultEntry, k: Key) {
    !k.Scalar? && Pending(Seen(l, k), Seen(i, k))
  }

  predicate BroughtOver(l: VaultEntry, i: VaultEntry, k: Key) {
    Brought(Seen(l, k), Seen(i, k))
  }

  // ----- the entry-level merge refines the rule for one key -----

  function ChosenAt(l: VaultEntry, i: VaultEntry, k: Key): Option<Val> {
    Chosen(Seen(l, k), Seen(i, k))
  }

  lemma {:induction false} FirstsMeaning(names: seq<string>)
    ensures Distinct(Firsts(names)) && forall s :: s in Firsts(names) <==> s in names
    decreases |names|
  {
    if names != [] {
      var n := |names| - 1;
      FirstsMeaning(names[..n]);
      assert forall s :: s in names <==> s in names[..n] || s == names[n];
    }
  }

  lemma {:induction false} InsertMeaning(name: string, sorted: seq<string>)
    ensures forall s :: s in Insert(name, sorted) <==> s == name || s in sorted
    ensures Distinct(sorted) && name !in sorted ==> Distinct(Insert(name, sorted))
    decreases |sorted|
  {
    if sorted != [] {
      assert forall s :: s in sorted <==> s == sorted[0] || s in sorted[1..];
      InsertMeaning(name, sorted[1..]);
      var rest := Insert(name, sorted[1..]);
      if Distinct(sorted) && name !in sorted {
        forall j | 0 <= j < |rest| ensures rest[j] != sorted[0] {
          assert rest[j] in rest;
        }
      }
    }
  }

  lemma {:induction false} SortMeaning(names: seq<string>)
    requires Distinct(names)
    ensures Distinct(Sort(names)) && forall s :: s in Sort(names) <==> s in names
    decreases |names|
  {
    if names != [] {
      var n := |names| - 1;
      SortMeaning(names[..n]);
      InsertMeaning(names[n], Sort(names[..n]));
      assert forall s :: s in names <==> s in names[..n] || s == names[n];
    }
  }

  lemma PairsForSnoc(l: VaultEntry, i: VaultEntry, keys: seq<string>, key: string)
    requires ChosenPair(l, i, key).Some?
    ensures PairsFor(l, i, keys + [key]) == PairsFor(l, i, keys) + [(key, ChosenPair(l, i, key).value)]
  {
    assert (keys + [key])[..|keys|] == keys;
  }

  lemma PairAtAppend(pairs: seq<(string, CustomField)>, name: string, f: CustomField, key: string)
    ensures PairAt(pairs + [(name, f)], key) == if name == key then Some(f) else PairAt(pairs, key)
  {
    assert (pairs + [(name, f)])[..|pairs|] == pairs;
  }

  lemma {:induction false} PairsForAt(l: VaultEntry, i: VaultEntry, keys: seq<string>, key: string)
    requires Distinct(keys)
    ensures PairAt(PairsFor(l, i, keys), key) == if key in keys then ChosenPair(l, i, key) else None
    decreases |keys|
  {
    if keys != [] {
      var n := |keys| - 1;
      PairsForAt(l, i, keys[..n], key);
      var before, p := PairsFor(l, i, keys[..n]), ChosenPair(l, i, keys[n]);
      assert key in keys <==> key in keys[..n] || key == keys[n];
      if p.Some? {
        PairAtAppend(before, keys[n], p.value, key);
      } else {
        assert before + [] == before;
      }
    }
  }

  lemma {:induction false} PairsForKeys(l: VaultEntry, i: VaultEntry, keys: seq<string>)
    requires Distinct(keys)
    ensures DistinctPairs(PairsFor(l, i, keys))
    ensures forall p :: p in PairsFor(l, i, keys) ==> p.0 in keys && ChosenPair(l, i, p.0) == Some(p.1)
    decreases |keys|
  {
    if keys != [] {
      var n := |keys| - 1;
      PairsForKeys(l, i, keys[..n]);
      var before := PairsFor(l, i, keys[..n]);
      forall j | 0 <= j < |before| ensures before[j].0 != keys[n] {
        assert before[j] in before;
      }
    }
  }

  lemma AttachmentsForSnoc(l: VaultEntry, i: VaultEntry, keys: seq<string>, uuid: string)
    requires ChosenAttachment(l, i, uuid).Some?
    ensures AttachmentsFor(l, i, keys + [uuid]) == AttachmentsFor(l, i, keys) + [ChosenAttachment(l, i, uuid).value]
  {
    assert (keys + [uuid])[..|keys|] == keys;
  }

  lemma AttachmentAtAppend(atts: seq<Attachment>, a: Attachment, uuid: string)
    ensures AttachmentAt(atts + [a], uuid) == if a.uuid == uuid then Some(a) else AttachmentAt(atts, uuid)
  {
    assert (atts + [a])[..|atts|] == atts;
  }

  lemma ChosenAttachmentHasUuid(l: VaultEntry, i: VaultEntry, uuid: string)
    ensures ChosenAttachment(l, i, uuid).Some? ==> ChosenAttachment(l, i, uuid).value.uuid == uuid
  {
    AttachmentAtMeaning(AttachmentsOf(l), uuid);
    AttachmentAtMeaning(AttachmentsOf(i), uuid);
  }

  lemma {:induction false} AttachmentsForAt(l: VaultEntry, i: VaultEntry, keys: seq<string>, uuid: string)
    requires Distinct(keys)
    ensures AttachmentAt(AttachmentsFor(l, i, keys), uuid)
            == if uuid in keys then ChosenAttachment(l, i, uuid) else None
    decreases |keys|
  {
    if keys != [] {
      var n := |keys| - 1;
      AttachmentsForAt(l, i, keys[..n], uuid);
      ChosenAttachmentHasUuid(l, i, keys[n]);
      var before, a := AttachmentsFor(l, i, keys[..n]), ChosenAttachment(l, i, keys[n]);
      assert uuid in keys <==> uuid in keys[..n] || uuid == keys[n];
      if a.Some? {
        AttachmentAtAppend(before, a.value, uuid);
      } else {
        assert before + [] == before;
      }
    }
  }

  lemma {:induction false} AttachmentsForKeys(l: VaultEntry, i: VaultEntry, keys: seq<string>)
    requires Distinct(keys)
    ensures DistinctAttachments(AttachmentsFor(l, i, keys))
    ensures forall a :: a in AttachmentsFor(l, i, keys) ==> a.uuid in keys
    decreases |keys|
  {
    if keys != [] {
      var n := |keys| - 1;
      AttachmentsForKeys(l, i, keys[..n]);
      ChosenAttachmentHasUuid(l, i, keys[n]);
      var before := AttachmentsFor(l, i, keys[..n]);
      forall j | 0 <= j < |before| ensures before[j].uuid != keys[n] {
        assert before[j] in before;
      }
    }
  }

  lemma MergedPairsAt(l: VaultEntry, i: VaultEntry, key: string)
    requires SameType(l, i)
    ensures PairAt(MergedPairs(l, i), key) == ChosenPair(l, i, key)
    ensures DistinctPairs(MergedPairs(l, i)) && (l.Custom? || KeyedByCaption(MergedPairs(l, i)))
  {
    var names := PairKeys(PairsOf(l)) + PairKeys(PairsOf(i));
    FirstsMeaning(names);
    SortMeaning(Firsts(names));
    var keys := if l.Custom? then Sort(Firsts(names)) else Firsts(names);
    PairsForAt(l, i, keys, key);
    PairsForKeys(l, i, keys);
    PairKeysMeaning(PairsOf(l), key);
    PairKeysMeaning(PairsOf(i), key);
    if !l.Custom? {
      forall j | 0 <= j < |MergedPairs(l, i)| ensures MergedPairs(l, i)[j].1.caption == MergedPairs(l, i)[j].0 {
        var p := MergedPairs(l, i)[j];
        assert p in MergedPairs(l, i);
        PairAtMeaning(PairsOf(l), p.0);
        PairAtMeaning(PairsOf(i), p.0);
      }
    }
  }

  lemma PairKeysMeaning(pairs: seq<(string, CustomField)>, key: string)
    ensures key in PairKeys(pairs) <==> PairAt(pairs, key).Some?
  {
    PairAtMeaning(pairs, key);
  }

  lemma UuidsMeaning(atts: seq<Attachment>, uuid: string)
    ensures uuid in Uuids(atts) <==> AttachmentAt(atts, uuid).Some?
  {
    AttachmentAtMeaning(atts, uuid);
  }

  lemma MergedAttachmentsAt(l: VaultEntry, i: VaultEntry, uuid: string)
    ensures AttachmentAt(MergedAttachments(l, i), uuid) == ChosenAttachment(l, i, uuid)
    ensures DistinctAttachments(MergedAttachments(l, i))
  {
    var names := Uuids(AttachmentsOf(l)) + Uuids(AttachmentsOf(i));
    FirstsMeaning(names);
    AttachmentsForAt(l, i, Firsts(names), uuid);
    AttachmentsForKeys(l, i, Firsts(names));
    UuidsMeaning(AttachmentsOf(l), uuid);
    UuidsMeaning(AttachmentsOf(i), uuid);
  }

  lemma MergeScalarsParts(l: VaultEntry, i: VaultEntry)
    requires SameType(l, i)
    ensures var e := MergeScalars(l, i);
            SameType(l, e) && PairsOf(e) == PairsOf(l) && AttachmentsOf(e) == AttachmentsOf(l)
  {
  }

  lemma MergeCardScalarsAt(l: VaultEntry, i: VaultEntry, f: Field)
    requires l.Card? && i.Card?
    ensures ScalarAt(MergeCardScalars(l, i), f) == ChosenAt(l, i, Scalar(f))
  {
  }

  lemma MergeLoginScalarsAt(l: VaultEntry, i: VaultEntry, f: Field)
    requires l.Login? && i.Login?
    ensures ScalarAt(MergeScalars(l, i), f) == ChosenAt(l, i, Scalar(f))
  {
  }

  lemma MergePasskeyScalarsAt(l: VaultEntry, i: VaultEntry, f: Field)
    requires l.Passkey? && i.Passkey?
    ensures ScalarAt(MergeScalars(l, i), f) == ChosenAt(l, i, Scalar(f))
  {
  }

  lemma MergeScalarsAt(l: VaultEntry, i: VaultEntry, f: Field)
    requires SameType(l, i)
    ensures ScalarAt(MergeScalars(l, i), f) == ChosenAt(l, i, Scalar(f))
  {
    if l.Card? {
      MergeCardScalarsAt(l, i, f);
    } else if l.Login? {
      MergeLoginScalarsAt(l, i, f);
    } else if l.Passkey? {
      MergePasskeyScalarsAt(l, i, f);
    }
  }

  lemma MergeItems(l: VaultEntry, i: VaultEntry)
    requires SameType(l, i)
    ensures var e := MergeEntry(l, i);
            && SameType(l, e) && PairsOf(e) == MergedPairs(l, i)
            && AttachmentsOf(e) == (if l.File? || l.Passkey? then [] else MergedAttachments(l, i))
  {
    MergeScalarsParts(l, i);
    MergedPairsAt(l, i, "");
    var withPairs := WithPairs(MergeScalars(l, i), MergedPairs(l, i));
    WithPairsParts(MergeScalars(l, i), MergedPairs(l, i));
    AttachmentParts(withPairs, MergedAttachments(l, i));
    ItemsIgnoreMeta(WithAttachments(withPairs, MergedAttachments(l, i)), MergedMeta(l, i));
    SameTypeTransitive(l, MergeScalars(l, i), withPairs);
    SameTypeTransitive(l, withPairs, WithAttachments(withPairs, MergedAttachments(l, i)));
    SameTypeTransitive(l, WithAttachments(withPairs, MergedAttachments(l, i)), MergeEntry(l, i));
  }

  lemma AttachmentParts(e: VaultEntry, atts: seq<Attachment>)
    ensures var e' := WithAttachments(e, atts);
            && SameType(e, e') && PairsOf(e') == PairsOf(e)
            && AttachmentsOf(e') == if e.File? || e.Passkey? then [] else atts
  {
  }

  lemma MergeScalar(l: VaultEntry, i: VaultEntry, f: Field)
    requires SameType(l, i)
    ensures ScalarAt(MergeEntry(l, i), f) == ChosenAt(l, i, Scalar(f))
  {
    var scalars := MergeScalars(l, i);
    var withPairs := WithPairs(scalars, MergedPairs(l, i));
    MergeScalarsAt(l, i, f);
    PairsAreNoScalars(scalars, MergedPairs(l, i), f);
    if !withPairs.File? && !withPairs.Passkey? {
      AttachmentsAreNoScalars(withPairs, MergedAttachments(l, i), f);
    }
    ScalarIgnoresMeta(WithAttachments(withPairs, MergedAttachments(l, i)), MergedMeta(l, i), f);
  }

  lemma ChosenItems(l: VaultEntry, i: VaultEntry, key: string)
    ensures ChosenAt(l, i, Pair(key)) == match ChosenPair(l, i, key) case Some(p) => Some(PairVal(p)) case None => None
    ensures ChosenAt(l, i, Attach(key))
            == match ChosenAttachment(l, i, key) case Some(a) => Some(FileVal(a.name, a.kind, a.data)) case None => None
  {
  }

  /** Merging two entries of any of the seven types leaves, under every key, what the rule for that key chooses. */
  lemma MergedAt(l: VaultEntry, i: VaultEntry, k: Key)
    requires SameType(l, i)
    ensures At(MergeEntry(l, i), k) == ChosenAt(l, i, k)
  {
    match k
    case Scalar(f) => MergeScalar(l, i, f);
    case Pair(key) =>
      MergeItems(l, i);
      MergedPairsAt(l, i, key);
      ChosenItems(l, i, key);
    case Attach(uuid) => MergedAtAttachment(l, i, uuid);
  }

  lemma MergedAtAttachment(l: VaultEntry, i: VaultEntry, uuid: string)
    requires SameType(l, i)
    ensures At(MergeEntry(l, i), Attach(uuid)) == ChosenAt(l, i, Attach(uuid))
  {
    MergeItems(l, i);
    ChosenItems(l, i, uuid);
    FilesWithoutAttachments(l, i, uuid);
    if !l.File? && !l.Passkey? {
      MergedAttachmentsAt(l, i, uuid);
    }
  }

  /** Files and passkeys have no attachments to merge. */
  lemma FilesWithoutAttachments(l: VaultEntry, i: VaultEntry, uuid: string)
    requires SameType(l, i)
    ensures l.File? || l.Passkey? ==> ChosenAttachment(l, i, uuid).None?
  {
  }

  lemma MergeKeepsDistinct(l: VaultEntry, i: VaultEntry)
    requires SameType(l, i)
    ensures DistinctItems(MergeEntry(l, i)) && SameType(l, MergeEntry(l, i))
  {
    MergeItems(l, i);
    MergedPairsAt(l, i, "");
    MergedAttachmentsAt(l, i, "");
  }

  // ----- times of the merged entry -----

  /** Under every key, the merged entry carries the merged change time. */
  lemma MergedTimeAt(l: VaultEntry, i: VaultEntry, k: Key)
    ensures Get(MergedTimes(l, i), Render(k)) == MergedTime(l, i, k)
  {
    DecidedTimeAt(l, i, k);
    NotAMark(k);
  }

  lemma NotAMark(k: Key)
    ensures !(DEL_PREFIX <= Render(k))
  {
    match k
    case Scalar(f) =>
      NameHasNoColon(f);
      assert DEL_PREFIX[3] == ':';
    case Pair(_) => assert Render(k)[0] == 'c' && DEL_PREFIX[0] == 'd';
    case Attach(_) => assert Render(k)[0] == 'a' && DEL_PREFIX[0] == 'd';
  }

  lemma SameGets(a: map<string, nat>, b: map<string, nat>)
    requires forall s :: Get(a, s) == Get(b, s)
    ensures a == b
  {
    forall s ensures s in a <==> s in b
             ensures s in a && s in b ==> a[s] == b[s]
    {
      assert Get(a, s) == Get(b, s);
    }
  }

  lemma DecidedTimeAt(l: VaultEntry, i: VaultEntry, k: Key)
    ensures Get(DecidedTimes(l, i), Render(k)) == MergedTime(l, i, k)
  {
    KeyRoundTrip(k);
  }

  /** The decided times hold nothing but keys. */
  lemma OnlyKeysDecided(l: VaultEntry, i: VaultEntry, s: string)
    ensures s in DecidedTimes(l, i) ==> ParseKey(s).Some? && Render(ParseKey(s).value) == s && !(DEL_PREFIX <= s)
  {
    if s in DecidedTimes(l, i) {
      NotAMark(ParseKey(s).value);
    }
  }

  /** Under every item's deletion mark, the merged entry carries the later surviving one. */
  lemma MergedMarkAt(l: VaultEntry, i: VaultEntry, k: Key)
    ensures Get(MergedTimes(l, i), Tombstone(k)) == ChosenMark(Seen(l, k), Seen(i, k))
  {
    var s := Tombstone(k);
    assert s[|DEL_PREFIX|..] == Render(k);
    DecidedTimeAt(l, i, k);
    NotTimed(l, i, k);
    assert MarkAt(DecidedTimes(l, i), l.meta, i.meta, s) == ChosenMark(Seen(l, k), Seen(i, k));
  }

  /** A deletion is not forgotten: with the item absent on both sides, its mark is the later of the two. */
  lemma DeletionIsRemembered(l: VaultEntry, i: VaultEntry, k: Key)
    requires At(l, k).None? && At(i, k).None?
    ensures Get(MergedTimes(l, i), Tombstone(k))
            == MaxStamp(Get(l.meta.fieldTimes, Tombstone(k)), Get(i.meta.fieldTimes, Tombstone(k)))
  {
    MergedMarkAt(l, i, k);
  }

  lemma NotTimed(l: VaultEntry, i: VaultEntry, k: Key)
    ensures Tombstone(k) !in DecidedTimes(l, i)
  {
    forall j ensures Render(j) != Tombstone(k) {
      KeySpacesDisjoint(j, k);
    }
  }

  // ----- the later of two times, and the later of two versions -----

  /** A time of a merged entry, if it has one under this string. */
  function TimeIn(l: VaultEntry, i: VaultEntry, s: string): Option<nat> {
    Get(MergeEntry(l, i).meta.fieldTimes, s)
  }

  /** `t` is there if one of the two is, is one of them, and neither is later. */
  predicate LaterOf(t: Option<nat>, a: Option<nat>, b: Option<nat>) {
    && (t.Some? <==> a.Some? || b.Some?) && (t == a || t == b)
    && (a.Some? ==> t.value >= a.value) && (b.Some? ==> t.value >= b.value)
  }

  lemma MaxStampIsLater(a: Option<nat>, b: Option<nat>)
    ensures LaterOf(MaxStamp(a, b), a, b)
  {
  }

  lemma MergedMetaIs(l: VaultEntry, i: VaultEntry)
    requires SameType(l, i)
    ensures MergeEntry(l, i).meta == MergedMeta(l, i)
  {
  }

  /** The merged entry's time and mark under a key are those of the rule for one key. */
  lemma TimesUnder(l: VaultEntry, i: VaultEntry, k: Key, x: View, y: View)
    requires SameType(l, i) && x == Seen(l, k) && y == Seen(i, k)
    ensures TimeIn(l, i, Render(k)) == ChosenTime(x, y) && TimeIn(l, i, Tombstone(k)) == ChosenMark(x, y)
  {
    MergedMetaIs(l, i);
    MergedTimeAt(l, i, k);
    MergedMarkAt(l, i, k);
  }

  lemma ChosenTimeIsLater(x: View, y: View)
    ensures x.val.Some? && y.val.Some? ==> LaterOf(ChosenTime(x, y), x.time, y.time)
    ensures x.val.Some? && y.val.None? ==> ChosenTime(x, y) == x.time
    ensures x.val.None? && y.val.Some? ==> ChosenTime(x, y) == y.time
    ensures x.val.None? && y.val.None? ==> ChosenTime(x, y) == None
  {
    MaxStampIsLater(x.time, y.time);
  }

  /**
   The change time of a value both sides have is the later of their two, or the one there is; of
   a value only one side has, that side's own.
   */
  lemma LaterTimeIsKept(l: VaultEntry, i: VaultEntry, k: Key)
    requires SameType(l, i)
    ensures var t := TimeIn(l, i, Render(k));
            var a, b := Get(l.meta.fieldTimes, Render(k)), Get(i.meta.fieldTimes, Render(k));
            && (At(l, k).Some? && At(i, k).Some? ==> LaterOf(t, a, b))
            && (At(l, k).Some? && At(i, k).None? ==> t == a)
            && (At(l, k).None? && At(i, k).Some? ==> t == b)
            && (At(l, k).None? && At(i, k).None? ==> t == None)
  {
    TimesUnder(l, i, k, Seen(l, k), Seen(i, k));
    ChosenTimeIsLater(Seen(l, k), Seen(i, k));
  }

  lemma ChosenMarkIsLater(x: View, y: View)
    requires x.val.None? && y.val.None?
    ensures LaterOf(ChosenMark(x, y), x.mark, y.mark)
  {
    MaxStampIsLater(x.mark, y.mark);
  }

  /** With the item gone on both sides, its deletion mark is the later of their two, or the one there is. */
  lemma LaterMarkIsKept(l: VaultEntry, i: VaultEntry, k: Key)
    requires SameType(l, i) && At(l, k).None? && At(i, k).None?
    ensures LaterOf(TimeIn(l, i, Tombstone(k)),
                    Get(l.meta.fieldTimes, Tombstone(k)), Get(i.meta.fieldTimes, Tombstone(k)))
  {
    TimesUnder(l, i, k, Seen(l, k), Seen(i, k));
    ChosenMarkIsLater(Seen(l, k), Seen(i, k));
  }

  /** A mark newer than the merged change time, if there is one. */
  predicate Outlives(mark: Option<nat>, time: Option<nat>) {
    mark.Some? && (time.Some? ==> time.value < mark.value)
  }

  /** `kept` is the later of the marks newer than `time`, and there is none if none is newer. */
  predicate LaterOfTheNewer(kept: Option<nat>, a: Option<nat>, b: Option<nat>, time: Option<nat>) {
    && (kept.Some? <==> Outlives(a, time) || Outlives(b, time))
    && (kept.Some? ==> (kept == a || kept == b) && Outlives(kept, time))
    && (Outlives(a, time) ==> kept.value >= a.value) && (Outlives(b, time) ==> kept.value >= b.value)
  }

  lemma ChosenMarkOutlives(x: View, y: View)
    ensures LaterOfTheNewer(ChosenMark(x, y), x.mark, y.mark, ChosenTime(x, y))
  {
    var time := ChosenTime(x, y);
    MaxStampIsLater(SurvivingMark(x.mark, time), SurvivingMark(y.mark, time));
  }

  /** In general a mark stays exactly if it is newer than the merged change time; the later one of those is kept. */
  lemma MarksStayExactly(l: VaultEntry, i: VaultEntry, k: Key)
    requires SameType(l, i)
    ensures LaterOfTheNewer(TimeIn(l, i, Tombstone(k)), Get(l.meta.fieldTimes, Tombstone(k)),
                            Get(i.meta.fieldTimes, Tombstone(k)), TimeIn(l, i, Render(k)))
  {
    TimesUnder(l, i, k, Seen(l, k), Seen(i, k));
    ChosenMarkOutlives(Seen(l, k), Seen(i, k));
  }

  /**
   Two different values that neither side ever edited: the version updated later is taken, and
   they clash exactly if both were updated at the same time.
   */
  lemma UneditedGoesToTheLater(l: VaultEntry, i: VaultEntry, k: Key)
    requires SameType(l, i) && At(l, k).Some? && At(i, k).Some? && At(l, k) != At(i, k)
    requires Render(k) !in l.meta.fieldTimes && Render(k) !in i.meta.fieldTimes
    ensures At(MergeEntry(l, i), k) == (if Before(l.meta.updatedAt, i.meta.updatedAt) then At(i, k) else At(l, k))
    ensures Clash(l, i, k) <==> l.meta.updatedAt == i.meta.updatedAt
  {
    MergedAt(l, i, k);
    BeforeIsTotal(l.meta.updatedAt, i.meta.updatedAt);
    BeforeIsAsymmetric(l.meta.updatedAt, i.meta.updatedAt);
    BeforeIsAsymmetric(l.meta.updatedAt, l.meta.updatedAt);
  }

  // ----- what a merge guarantees -----

  /** Nothing is lost or invented: a key has a value exactly if a side has one, and it is a side's value. */
  lemma MergeLosesNothing(l: VaultEntry, i: VaultEntry, k: Key)
    requires SameType(l, i)
    ensures At(MergeEntry(l, i), k).Some? <==> At(l, k).Some? || At(i, k).Some?
    ensures At(MergeEntry(l, i), k) == At(l, k) || At(MergeEntry(l, i), k) == At(i, k)
  {
    MergedAt(l, i, k);
  }

  /** A value edited on this side is never overwritten. */
  lemma LocalEditWins(l: VaultEntry, i: VaultEntry, k: Key)
    requires SameType(l, i) && At(l, k).Some? && Render(k) in l.meta.fieldTimes
    ensures At(MergeEntry(l, i), k) == At(l, k)
  {
    MergedAt(l, i, k);
  }

  /**
   Every change to the local entry is reported, as a value brought over or an item pending
   deletion, and only changes are.
   */
  lemma MergeReportsEveryChange(l: VaultEntry, i: VaultEntry, k: Key)
    requires SameType(l, i)
    ensures At(MergeEntry(l, i), k) != At(l, k)
            <==> BroughtOver(l, i, k) || (PendingDelete(l, i, k) && At(l, k).None?)
  {
    MergedAt(l, i, k);
    ReportsEveryChange(Seen(l, k), Seen(i, k));
    if k.Scalar? {
      SameTypeSameFields(l, i, k.f);
    }
  }

  /**
   Sync converges except where it says so: merging in either direction leaves the same value
   under a key exactly when no clash is reported there, both directions report the same
   clashes, and in a clash each side keeps its own value.
   */
  lemma MergeConverges(l: VaultEntry, i: VaultEntry, k: Key)
    requires SameType(l, i) && SameType(i, l)
    ensures At(MergeEntry(l, i), k) == At(MergeEntry(i, l), k) <==> !Clash(l, i, k)
    ensures Clash(l, i, k) <==> Clash(i, l, k)
    ensures Clash(l, i, k) ==> At(MergeEntry(l, i), k) == At(l, k) && At(MergeEntry(i, l), k) == At(i, k)
  {
    MergedAt(l, i, k);
    MergedAt(i, l, k);
    Converges(Seen(l, k), Seen(i, k));
  }

  /**
   Between two edited values the newer change time does not decide: the newer one is taken
   only where it is the value already there. Otherwise it is a clash, whichever is newer.
   */
  lemma NewerWinsOnlyIfEqual(l: VaultEntry, i: VaultEntry, k: Key)
    requires SameType(l, i) && At(l, k).Some? && At(i, k).Some?
    requires Render(k) in l.meta.fieldTimes && Render(k) in i.meta.fieldTimes
    requires l.meta.fieldTimes[Render(k)] < i.meta.fieldTimes[Render(k)]
    ensures At(MergeEntry(l, i), k) == At(i, k) <==> At(l, k) == At(i, k)
    ensures Clash(l, i, k) <==> At(l, k) != At(i, k)
  {
    MergedAt(l, i, k);
  }

  function DatedNote(title: string, time: nat): VaultEntry {
    Note(Meta("n", "", "", "", map["title" := time], []), title, "", [], [])
  }

  /** For instance: the title changed at 2 does not replace the one changed at 1. */
  lemma NewerTitleLoses()
    ensures At(MergeEntry(DatedNote("older", 1), DatedNote("newer", 2)), Scalar(Title)) == Some(Text("older"))
    ensures Clash(DatedNote("older", 1), DatedNote("newer", 2), Scalar(Title))
  {
    var l, i := DatedNote("older", 1), DatedNote("newer", 2);
    assert "older"[0] != "newer"[0];
    assert Render(Scalar(Title)) == "title";
    NewerWinsOnlyIfEqual(l, i, Scalar(Title));
    MergeLosesNothing(l, i, Scalar(Title));
  }

  /** The merged change times and deletion marks do not depend on the direction, even in a clash. */
  lemma MergedTimesConverge(l: VaultEntry, i: VaultEntry, k: Key)
    ensures Get(MergedTimes(l, i), Render(k)) == Get(MergedTimes(i, l), Render(k))
    ensures Get(MergedTimes(l, i), Tombstone(k)) == Get(MergedTimes(i, l), Tombstone(k))
  {
    MergedMarkAt(l, i, k);
    MergedMarkAt(i, l, k);
    MergedTimeAt(l, i, k);
    MergedTimeAt(i, l, k);
    Converges(Seen(l, k), Seen(i, k));
  }

  lemma MergedSeen(l: VaultEntry, i: VaultEntry, k: Key)
    requires SameType(l, i)
    ensures var z := Seen(MergeEntry(l, i), k);
            && z.val == ChosenAt(l, i, k) && z.time == MergedTime(l, i, k)
            && z.updated == Latest(l.meta.updatedAt, i.meta.updatedAt)
  {
    MergedAt(l, i, k);
    MergedTimeAt(l, i, k);
  }

  lemma {:induction false} UnionHistoryMeaning(mine: seq<HistoryRecord>, theirs: seq<HistoryRecord>)
    ensures mine <= UnionHistory(mine, theirs)
    ensures forall r :: r in UnionHistory(mine, theirs) <==> r in mine || r in theirs
    decreases |theirs|
  {
    if theirs != [] {
      var n := |theirs| - 1;
      UnionHistoryMeaning(mine, theirs[..n]);
      assert forall r :: r in theirs <==> r in theirs[..n] || r == theirs[n];
    }
  }

  /** A merge keeps every saved previous value of both sides, and its update stamp is older than neither's. */
  lemma MergeKeepsHistory(l: VaultEntry, i: VaultEntry, r: HistoryRecord)
    requires SameType(l, i)
    ensures r in MergeEntry(l, i).meta.history <==> r in l.meta.history || r in i.meta.history
    ensures !Before(MergeEntry(l, i).meta.updatedAt, l.meta.updatedAt)
    ensures !Before(MergeEntry(l, i).meta.updatedAt, i.meta.updatedAt)
  {
    MergedMetaIs(l, i);
    UnionHistoryMeaning(l.meta.history, i.meta.history);
    BeforeIsAsymmetric(l.meta.updatedAt, i.meta.updatedAt);
    BeforeIsAsymmetric(l.meta.updatedAt, l.meta.updatedAt);
    BeforeIsAsymmetric(i.meta.updatedAt, i.meta.updatedAt);
  }

  lemma {:induction false} LocalHistoryFirst(mine: seq<HistoryRecord>, theirs: seq<HistoryRecord>)
    ensures mine <= UnionHistory(mine, theirs)
    decreases |theirs|
  {
    if theirs != [] {
      LocalHistoryFirst(mine, theirs[..|theirs| - 1]);
    }
  }

  /** Id, creation time and folder stay the local ones, the stamp is a side's, and the local history comes first. */
  lemma MergeKeepsIdentity(l: VaultEntry, i: VaultEntry)
    requires SameType(l, i)
    ensures var m := MergeEntry(l, i).meta;
            && m.id == l.meta.id && m.createdAt == l.meta.createdAt && m.folder == l.meta.folder
            && (m.updatedAt == l.meta.updatedAt || m.updatedAt == i.meta.updatedAt)
            && l.meta.history <= m.history
  {
    MergedMetaIs(l, i);
    LocalHistoryFirst(l.meta.history, i.meta.history);
  }

  /** No two different records for one field, neither across the two histories nor within the incoming one. */
  ghost predicate SlotsAgree(mine: seq<HistoryRecord>, theirs: seq<HistoryRecord>) {
    forall a, b :: (a in mine || a in theirs) && b in theirs && a.field == b.field ==> a == b
  }

  lemma {:induction false} UnionOneSlotExactly(mine: seq<HistoryRecord>, theirs: seq<HistoryRecord>)
    ensures OneSlotPerField(UnionHistory(mine, theirs)) <==> OneSlotPerField(mine) && SlotsAgree(mine, theirs)
    decreases |theirs|
  {
    if theirs != [] {
      var n := |theirs| - 1;
      var last, before := theirs[n], UnionHistory(mine, theirs[..n]);
      UnionOneSlotExactly(mine, theirs[..n]);
      UnionHistoryMeaning(mine, theirs[..n]);
      assert forall r :: r in theirs <==> r in theirs[..n] || r == last;
      SlotForOneMore(before, last);
      if OneSlotPerField(before) {
        assert SlotsAgree(mine, theirs) <==> forall a :: a in before && a.field == last.field ==> a == last;
      }
    }
  }

  lemma SlotForOneMore(history: seq<HistoryRecord>, r: HistoryRecord)
    ensures OneSlotPerField(history + [r])
            <==> OneSlotPerField(history) && forall a :: a in history ==> a.field != r.field
  {
    var h := history + [r];
    if OneSlotPerField(h) {
      forall a | a in history ensures a.field != r.field {
        var j :| 0 <= j < |history| && history[j] == a;
        assert h[j] == a && h[|history|] == r;
      }
      forall i, j | 0 <= i < j < |history| ensures history[i].field != history[j].field {
        assert h[i] == history[i] && h[j] == history[j];
      }
    }
  }

  /** A merge keeps one previous value per field exactly when the two sides never saved different ones for a field. */
  lemma MergeKeepsOneSlotExactly(l: VaultEntry, i: VaultEntry)
    requires SameType(l, i)
    ensures OneSlotPerField(MergeEntry(l, i).meta.history)
            <==> OneSlotPerField(l.meta.history) && SlotsAgree(l.meta.history, i.meta.history)
  {
    assert MergeEntry(l, i).meta == MergedMeta(l, i);
    UnionOneSlotExactly(l.meta.history, i.meta.history);
  }

  /** For instance: two devices that each replaced a different password end up with two slots for it. */
  lemma TwoPreviousPasswords()
    ensures var a, b := HistoryRecord("password", "x", "", None), HistoryRecord("password", "y", "", None);
            && OneSlotPerField([a]) && OneSlotPerField([b])
            && UnionHistory([a], [b]) == [a, b] && !OneSlotPerField([a, b])
  {
    var a, b := HistoryRecord("password", "x", "", None), HistoryRecord("password", "y", "", None);
    assert a.value[0] != b.value[0];
    assert [b][..0] == [] && UnionHistory([a], []) == [a];
    assert [a, b][0].field == [a, b][1].field;
  }

  /** Merging an entry with itself changes no value and reports nothing. */
  lemma MergeWithSelf(e: VaultEntry, k: Key)
    ensures At(MergeEntry(e, e), k) == At(e, k)
    ensures !Clash(e, e, k) && !BroughtOver(e, e, k) && !PendingDelete(e, e, k)
  {
    SameTypeReflexive(e);
    MergedAt(e, e, k);
  }
}
