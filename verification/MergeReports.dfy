/** The merge as it runs: keys examined one after another, with the reports and times they leave behind. */
module MergeReports {
  import opened Basics
  import opened TextOrder
  import opened FieldKeys
  import opened Entries
  import opened EntryUpdate
  import opened EntryPatch
  import opened VaultStore
  import opened EntryMerge

  // ----- the order in which keys are examined -----

  /** The scalars decided before an entry's pairs. */
  function Leading(e: VaultEntry): seq<Field> {
    match e
    case Login(_, _, _, _, _, _, _, _, _, _) => [Password, Title, Url, Username, Notes]
    case Note(_, _, _, _, _) => [Title, Content]
    case Identity(_, _, _, _, _, _, _, _) => [FirstName, LastName, Email, Phone, Address]
    case Card(_, _, _, _, _, _, _, _, _, _, _, _, _, _, _, _) =>
      [Cvv, Pin, CardName, Status, CardholderName, CardNumber, Expiry, CreditLimit, CardAccountNumber,
       PaymentNetwork, BankName, TransactionPassword, Notes]
    case File(_, _, _, _, _) => [Data, Filename, Notes]
    case Custom(_, _, _, _) => []
    case Passkey(_, _, _, _, _, _, _) => [CredentialBlock, RpId, UserName, UserDisplayName, Notes]
  }

  /** The scalars decided between pairs and attachments, and after them. */
  function Middle(e: VaultEntry): seq<Field> {
    if e.Custom? then [Title] else []
  }

  function Trailing(e: VaultEntry): seq<Field> {
    if e.Login? then [AppId, Email] else []
  }

  function ScalarKeys(fields: seq<Field>): (keys: seq<Key>)
    ensures |keys| == |fields| && forall j :: 0 <= j < |fields| ==> keys[j] == Scalar(fields[j])
  {
    seq(|fields|, j requires 0 <= j < |fields| => Scalar(fields[j]))
  }

  function PairKeysOf(names: seq<string>): (keys: seq<Key>)
    ensures |keys| == |names| && forall j :: 0 <= j < |names| ==> keys[j] == Pair(names[j])
  {
    seq(|names|, j requires 0 <= j < |names| => Pair(names[j]))
  }

  function AttachKeysOf(names: seq<string>): (keys: seq<Key>)
    ensures |keys| == |names| && forall j :: 0 <= j < |names| ==> keys[j] == Attach(names[j])
  {
    seq(|names|, j requires 0 <= j < |names| => Attach(names[j]))
  }

  function PairNames(l: VaultEntry, i: VaultEntry): seq<string> {
    var names := Firsts(PairKeys(PairsOf(l)) + PairKeys(PairsOf(i)));
    if l.Custom? then Sort(names) else names
  }

  function AttachmentNames(l: VaultEntry, i: VaultEntry): seq<string> {
    Firsts(Uuids(AttachmentsOf(l)) + Uuids(AttachmentsOf(i)))
  }

  function Examined(l: VaultEntry, i: VaultEntry): seq<Key> {
    ScalarKeys(Leading(l)) + PairKeysOf(PairNames(l, i)) + ScalarKeys(Middle(l))
    + AttachKeysOf(AttachmentNames(l, i)) + ScalarKeys(Trailing(l))
  }

  // ----- reports and times over the examined keys -----

  /** What a merge has written down so far. */
  datatype Ledger = Ledger(times: map<string, nat>, conflicts: seq<Key>, pending: seq<Key>, brought: seq<Key>)

  const BLANK: Ledger := Ledger(map[], [], [], [])

  /** What examining one key adds, given what the two sides see there. */
  function Record(led: Ledger, k: Key, x: View, y: View): Ledger {
    Ledger(match ChosenTime(x, y) case Some(t) => led.times[Render(k) := t] case None => led.times,
           led.conflicts + if Clashing(x, y) then [k] else [],
           led.pending + if !k.Scalar? && Pending(x, y) then [k] else [],
           led.brought + if Brought(x, y) then [k] else [])
  }

  function LedgerFor(l: VaultEntry, i: VaultEntry, keys: seq<Key>): Ledger {
    if keys == [] then BLANK
    else
      var k := keys[|keys| - 1];
      Record(LedgerFor(l, i, keys[..|keys| - 1]), k, Seen(l, k), Seen(i, k))
  }

  lemma LedgerSnoc(l: VaultEntry, i: VaultEntry, keys: seq<Key>, k: Key)
    ensures LedgerFor(l, i, keys + [k]) == Record(LedgerFor(l, i, keys), k, Seen(l, k), Seen(i, k))
  {
    assert (keys + [k])[..|keys|] == keys;
  }

  /** `decide`: a key both sides have a value under. */
  method DecideView(led: Ledger, k: Key, x: View, y: View) returns (after: Ledger, side: Side)
    requires x.val.Some? && y.val.Some?
    ensures after == Record(led, k, x, y) && side == Rule(x, y).side
  {
    var d := Rule(x, y);
    side, after := d.side, led;
    if d.stamp.Some? {
      after := after.(times := after.times[Render(k) := d.stamp.value]);
    }
    if d.clash {
      after := after.(conflicts := after.conflicts + [k]);
    } else if side.Theirs? {
      after := after.(brought := after.brought + [k]);
    }
  }

  /** `carry_or_flag_delete`: an item only one side has, flagged if the other side deleted it since. */
  method CarryView(led: Ledger, k: Key, x: View, y: View) returns (after: Ledger)
    requires !k.Scalar? && x.val.Some? != y.val.Some?
    ensures after == Record(led, k, x, y)
  {
    var (owner, other) := if y.val.Some? then (y, x) else (x, y);
    var changed := match owner.time case Some(t) => t case None => 0;
    after := led;
    if other.mark.Some? && other.mark.value > changed {
      after := after.(pending := after.pending + [k]);
    } else if y.val.Some? {
      after := after.(brought := after.brought + [k]);
    }
    if owner.time.Some? {
      after := after.(times := after.times[Render(k) := owner.time.value]);
    }
  }

  /** Both sides have these scalars. */
  ghost predicate BothHave(l: VaultEntry, i: VaultEntry, fields: seq<Field>) {
    forall n :: 0 <= n < |fields| ==> At(l, Scalar(fields[n])).Some? && At(i, Scalar(fields[n])).Some?
  }

  /** The merger's accumulators, and the keys it has examined. */
  class FieldMerger {
    const l: VaultEntry
    const i: VaultEntry
    var ledger: Ledger
    ghost var done: seq<Key>

    ghost predicate Valid()
      reads this
    {
      ledger == LedgerFor(l, i, done)
    }

    constructor (l: VaultEntry, i: VaultEntry)
      ensures Valid() && this.l == l && this.i == i && done == []
    {
      this.l, this.i := l, i;
      ledger, done := BLANK, [];
    }

    method Decide(k: Key) returns (side: Side)
      requires Valid() && At(l, k).Some? && At(i, k).Some?
      modifies this
      ensures Valid() && done == old(done) + [k]
      ensures side == Rule(Seen(l, k), Seen(i, k)).side
    {
      ledger, side := DecideView(ledger, k, Seen(l, k), Seen(i, k));
      LedgerSnoc(l, i, done, k);
      done := done + [k];
    }

    method CarryOrFlag(k: Key)
      requires Valid() && !k.Scalar? && At(l, k).Some? != At(i, k).Some?
      modifies this
      ensures Valid() && done == old(done) + [k]
    {
      ledger := CarryView(ledger, k, Seen(l, k), Seen(i, k));
      LedgerSnoc(l, i, done, k);
      done := done + [k];
    }

    /** Decide scalars both sides have. */
    method DecideAll(fields: seq<Field>)
      requires Valid() && BothHave(l, i, fields)
      modifies this
      ensures Valid() && done == old(done) + ScalarKeys(fields)
    {
      ghost var keys, before := ScalarKeys(fields), done;
      for n := 0 to |fields|
        invariant Valid() && done == before + keys[..n]
      {
        PrefixGrows(before, keys, n);
        var _ := Decide(Scalar(fields[n]));
      }
      assert keys[..|fields|] == keys;
    }

    /** One pair: decided if both sides have it, carried over otherwise. */
    method MergePairAt(
      key: string, mine: Option<CustomField>, theirs: Option<CustomField>, ghost before: seq<string>)
      returns (chosen: CustomField)
      requires Valid() && (mine.Some? || theirs.Some?)
      requires mine == PairAt(PairsOf(l), key) && theirs == PairAt(PairsOf(i), key)
      modifies this
      ensures Valid() && done == old(done) + [Pair(key)]
      ensures PairsFor(l, i, before + [key]) == PairsFor(l, i, before) + [(key, chosen)]
    {
      if mine.Some? && theirs.Some? {
        var side := Decide(Pair(key));
        chosen := if side.Mine? then mine.value else theirs.value;
      } else {
        CarryOrFlag(Pair(key));
        chosen := if mine.Some? then mine.value else theirs.value;
      }
      assert ChosenPair(l, i, key) == Some(chosen);
      PairsForSnoc(l, i, before, key);
    }

    /** Every name is in a table, and the tables agree with the lists there. */
    ghost predicate Ready(names: seq<string>, mine: map<string, CustomField>, theirs: map<string, CustomField>) {
      forall n :: 0 <= n < |names| ==>
                    && (names[n] in mine || names[n] in theirs)
                    && LookUp(mine, names[n]) == PairAt(PairsOf(l), names[n])
                    && LookUp(theirs, names[n]) == PairAt(PairsOf(i), names[n])
    }

    method MergeNth(names: seq<string>, n: nat, mine: map<string, CustomField>, theirs: map<string, CustomField>)
      returns (chosen: CustomField)
      requires Valid() && n < |names| && Ready(names, mine, theirs)
      modifies this
      ensures Valid() && done == old(done) + [PairKeysOf(names)[n]]
      ensures PairsFor(l, i, names[..n + 1]) == PairsFor(l, i, names[..n]) + [(names[n], chosen)]
    {
      var key := names[n];
      assert names[..n + 1] == names[..n] + [key];
      chosen := MergePairAt(key, LookUp(mine, key), LookUp(theirs, key), names[..n]);
    }

    method MergeNamed(names: seq<string>, mine: map<string, CustomField>, theirs: map<string, CustomField>)
      returns (out: seq<(string, CustomField)>)
      requires Valid() && Ready(names, mine, theirs)
      modifies this
      ensures Valid() && done == old(done) + PairKeysOf(names)
      ensures out == PairsFor(l, i, names)
    {
      out := [];
      ghost var keys, before := PairKeysOf(names), done;
      for n := 0 to |names|
        invariant Valid() && done == before + keys[..n]
        invariant out == PairsFor(l, i, names[..n])
      {
        PrefixGrows(before, keys, n);
        var chosen := MergeNth(names, n, mine, theirs);
        out := out + [(names[n], chosen)];
      }
      assert names[..|names|] == names && keys[..|names|] == keys;
    }

    /** `merge_custom`: each key of either side once, looked up in a hash map per side. */
    method MergeCustom() returns (out: seq<(string, CustomField)>)
      requires Valid()
      modifies this
      ensures Valid() && done == old(done) + PairKeysOf(PairNames(l, i))
      ensures out == PairsFor(l, i, PairNames(l, i))
    {
      var mine := CollectPairs(PairsOf(l));
      var theirs := CollectPairs(PairsOf(i));
      var names := NamesInOrder(l, i);
      forall n | 0 <= n < |names|
        ensures names[n] in mine || names[n] in theirs
        ensures LookUp(mine, names[n]) == PairAt(PairsOf(l), names[n])
        ensures LookUp(theirs, names[n]) == PairAt(PairsOf(i), names[n])
      {
        PairNamesAreKeys(l, i, names[n]);
      }
      out := MergeNamed(names, mine, theirs);
    }

    method MergeAttachmentAt(
      uuid: string, mine: Option<Attachment>, theirs: Option<Attachment>, ghost before: seq<string>)
      returns (chosen: Attachment)
      requires Valid() && (mine.Some? || theirs.Some?)
      requires mine == AttachmentAt(AttachmentsOf(l), uuid) && theirs == AttachmentAt(AttachmentsOf(i), uuid)
      modifies this
      ensures Valid() && done == old(done) + [Attach(uuid)]
      ensures AttachmentsFor(l, i, before + [uuid]) == AttachmentsFor(l, i, before) + [chosen]
    {
      if mine.Some? && theirs.Some? {
        var side := Decide(Attach(uuid));
        chosen := if side.Mine? then mine.value else theirs.value;
      } else {
        CarryOrFlag(Attach(uuid));
        chosen := if mine.Some? then mine.value else theirs.value;
      }
      assert ChosenAttachment(l, i, uuid) == Some(chosen);
      AttachmentsForSnoc(l, i, before, uuid);
    }

    ghost predicate FilesReady(names: seq<string>, mine: map<string, Attachment>, theirs: map<string, Attachment>) {
      forall n :: 0 <= n < |names| ==>
                    && (names[n] in mine || names[n] in theirs)
                    && LookUp(mine, names[n]) == AttachmentAt(AttachmentsOf(l), names[n])
                    && LookUp(theirs, names[n]) == AttachmentAt(AttachmentsOf(i), names[n])
    }

    method MergeNthFile(names: seq<string>, n: nat, mine: map<string, Attachment>, theirs: map<string, Attachment>)
      returns (chosen: Attachment)
      requires Valid() && n < |names| && FilesReady(names, mine, theirs)
      modifies this
      ensures Valid() && done == old(done) + [AttachKeysOf(names)[n]]
      ensures AttachmentsFor(l, i, names[..n + 1]) == AttachmentsFor(l, i, names[..n]) + [chosen]
    {
      assert names[..n + 1] == names[..n] + [names[n]];
      chosen := MergeAttachmentAt(names[n], LookUp(mine, names[n]), LookUp(theirs, names[n]), names[..n]);
    }

    method MergeFiles(names: seq<string>, mine: map<string, Attachment>, theirs: map<string, Attachment>)
      returns (out: seq<Attachment>)
      requires Valid() && FilesReady(names, mine, theirs)
      modifies this
      ensures Valid() && done == old(done) + AttachKeysOf(names)
      ensures out == AttachmentsFor(l, i, names)
    {
      out := [];
      ghost var keys, before := AttachKeysOf(names), done;
      for n := 0 to |names|
        invariant Valid() && done == before + keys[..n]
        invariant out == AttachmentsFor(l, i, names[..n])
      {
        PrefixGrows(before, keys, n);
        var chosen := MergeNthFile(names, n, mine, theirs);
        out := out + [chosen];
      }
      assert names[..|names|] == names && keys[..|names|] == keys;
    }

    /** `merge_attachments`, likewise. */
    method MergeAttachments() returns (out: seq<Attachment>)
      requires Valid()
      modifies this
      ensures Valid() && done == old(done) + AttachKeysOf(AttachmentNames(l, i))
      ensures out == MergedAttachments(l, i)
    {
      var mine := CollectAttachments(AttachmentsOf(l));
      var theirs := CollectAttachments(AttachmentsOf(i));
      var names := OnceEach(Uuids(AttachmentsOf(l)) + Uuids(AttachmentsOf(i)));
      forall n | 0 <= n < |names|
        ensures names[n] in mine || names[n] in theirs
        ensures LookUp(mine, names[n]) == AttachmentAt(AttachmentsOf(l), names[n])
        ensures LookUp(theirs, names[n]) == AttachmentAt(AttachmentsOf(i), names[n])
      {
        AttachmentNamesAreKeys(l, i, names[n]);
      }
      out := MergeFiles(names, mine, theirs);
    }
  }

  function LookUp<T>(table: map<string, T>, key: string): Option<T> {
    if key in table then Some(table[key]) else None
  }

  lemma PrefixGrows(before: seq<Key>, keys: seq<Key>, n: nat)
    requires n < |keys|
    ensures before + keys[..n] + [keys[n]] == before + keys[..n + 1]
  {
  }

  /** Names as the `seen` set lets them through: at their first occurrence. */
  method OnceEach(names: seq<string>) returns (once: seq<string>)
    ensures once == Firsts(names)
  {
    once := [];
    var seen: set<string> := {};
    for n := 0 to |names|
      invariant once == Firsts(names[..n]) && (forall s :: s in seen <==> s in once)
    {
      assert names[..n + 1][..n] == names[..n];
      if names[n] !in seen {
        seen, once := seen + {names[n]}, once + [names[n]];
      }
    }
    assert names[..|names|] == names;
  }

  /** A Custom entry's keys are sorted before they are examined. */
  method NamesInOrder(l: VaultEntry, i: VaultEntry) returns (names: seq<string>)
    ensures names == PairNames(l, i)
  {
    names := OnceEach(PairKeys(PairsOf(l)) + PairKeys(PairsOf(i)));
    if l.Custom? {
      names := Sort(names);
    }
  }

  lemma PairNamesAreKeys(l: VaultEntry, i: VaultEntry, name: string)
    ensures name in PairNames(l, i) <==> PairAt(PairsOf(l), name).Some? || PairAt(PairsOf(i), name).Some?
  {
    FirstsMeaning(PairKeys(PairsOf(l)) + PairKeys(PairsOf(i)));
    SortMeaning(Firsts(PairKeys(PairsOf(l)) + PairKeys(PairsOf(i))));
    PairKeysMeaning(PairsOf(l), name);
    PairKeysMeaning(PairsOf(i), name);
  }

  lemma AttachmentNamesAreKeys(l: VaultEntry, i: VaultEntry, name: string)
    ensures name in AttachmentNames(l, i)
            <==> AttachmentAt(AttachmentsOf(l), name).Some? || AttachmentAt(AttachmentsOf(i), name).Some?
  {
    FirstsMeaning(Uuids(AttachmentsOf(l)) + Uuids(AttachmentsOf(i)));
    UuidsMeaning(AttachmentsOf(l), name);
    UuidsMeaning(AttachmentsOf(i), name);
  }

  // ----- every key with a value is examined, once -----

  lemma ScalarsExamined(e: VaultEntry, f: Field)
    ensures f in Leading(e) || f in Middle(e) || f in Trailing(e) <==> f in FieldsOf(e)
  {
    if e.Card? {
      CardScalarsExamined(e, f);
    } else if e.Login? {
      LoginScalarsExamined(e, f);
    } else if e.Passkey? {
      PasskeyScalarsExamined(e, f);
    }
  }

  lemma LoginScalarsExamined(e: VaultEntry, f: Field)
    requires e.Login?
    ensures f in Leading(e) || f in Middle(e) || f in Trailing(e) <==> f in FieldsOf(e)
  {
  }

  lemma PasskeyScalarsExamined(e: VaultEntry, f: Field)
    requires e.Passkey?
    ensures f in Leading(e) || f in Middle(e) || f in Trailing(e) <==> f in FieldsOf(e)
  {
  }

  lemma CardScalarsExamined(e: VaultEntry, f: Field)
    requires e.Card?
    ensures f in Leading(e) <==> f in FieldsOf(e)
  {
    var fields := Leading(e);
    var order := FieldsOf(e);
    forall j | 0 <= j < |fields| ensures fields[j] in order {
      FieldsAreAll(e, fields[j]);
    }
    if f in order {
      FieldsAreAll(e, f);
      CardScalarHasPlace(e, f);
    }
  }

  lemma CardScalarHasPlace(e: VaultEntry, f: Field)
    requires e.Card? && ScalarAt(e, f).Some?
    ensures f in Leading(e)
  {
    var fields := Leading(e);
    match f
    case Cvv => assert fields[0] == f;
    case Pin => assert fields[1] == f;
    case CardName => assert fields[2] == f;
    case Status => assert fields[3] == f;
    case CardholderName => assert fields[4] == f;
    case CardNumber => assert fields[5] == f;
    case Expiry => assert fields[6] == f;
    case CreditLimit => assert fields[7] == f;
    case CardAccountNumber => assert fields[8] == f;
    case PaymentNetwork => assert fields[9] == f;
    case BankName => assert fields[10] == f;
    case TransactionPassword => assert fields[11] == f;
    case Notes => assert fields[12] == f;
  }

  lemma NamesExamined(l: VaultEntry, i: VaultEntry, name: string)
    ensures name in PairNames(l, i) <==> At(l, Pair(name)).Some? || At(i, Pair(name)).Some?
    ensures name in AttachmentNames(l, i) <==> At(l, Attach(name)).Some? || At(i, Attach(name)).Some?
  {
    PairNamesAreKeys(l, i, name);
    AttachmentNamesAreKeys(l, i, name);
  }

  lemma KeyLists(fields: seq<Field>, names: seq<string>, k: Key)
    ensures k in ScalarKeys(fields) <==> k.Scalar? && k.f in fields
    ensures k in PairKeysOf(names) <==> k.Pair? && k.caption in names
    ensures k in AttachKeysOf(names) <==> k.Attach? && k.uuid in names
  {
    if k.Scalar? && k.f in fields {
      var j :| 0 <= j < |fields| && fields[j] == k.f;
      assert ScalarKeys(fields)[j] == k;
    }
    if !k.Scalar? {
      var name := if k.Pair? then k.caption else k.uuid;
      if name in names {
        var j :| 0 <= j < |names| && names[j] == name;
        assert PairKeysOf(names)[j] == Pair(name) && AttachKeysOf(names)[j] == Attach(name);
      }
    }
  }

  /** The keys examined are exactly those a side has a value under. */
  lemma ExaminedExactly(l: VaultEntry, i: VaultEntry, k: Key)
    requires SameType(l, i)
    ensures k in Examined(l, i) <==> At(l, k).Some? || At(i, k).Some?
  {
    KeyLists(Leading(l), PairNames(l, i), k);
    KeyLists(Middle(l), AttachmentNames(l, i), k);
    KeyLists(Trailing(l), [], k);
    match k
    case Scalar(f) =>
      ScalarsExamined(l, f);
      FieldsAreAll(l, f);
      SameTypeSameFields(l, i, f);
    case Pair(name) => NamesExamined(l, i, name);
    case Attach(name) => NamesExamined(l, i, name);
  }

  datatype Kind = Clashed | Pended | Carried

  predicate Reported(kind: Kind, l: VaultEntry, i: VaultEntry, k: Key) {
    match kind
    case Clashed => Clash(l, i, k)
    case Pended => PendingDelete(l, i, k)
    case Carried => BroughtOver(l, i, k)
  }

  function Listed(kind: Kind, led: Ledger): seq<Key> {
    match kind case Clashed => led.conflicts case Pended => led.pending case Carried => led.brought
  }

  lemma ListedStep(kind: Kind, l: VaultEntry, i: VaultEntry, keys: seq<Key>, k: Key)
    ensures Listed(kind, LedgerFor(l, i, keys + [k]))
            == Listed(kind, LedgerFor(l, i, keys)) + if Reported(kind, l, i, k) then [k] else []
  {
    LedgerSnoc(l, i, keys, k);
  }

  lemma {:induction false} ListedAmong(kind: Kind, l: VaultEntry, i: VaultEntry, keys: seq<Key>)
    ensures forall k :: k in Listed(kind, LedgerFor(l, i, keys)) <==> k in keys && Reported(kind, l, i, k)
    ensures Distinct(keys) ==> Distinct(Listed(kind, LedgerFor(l, i, keys)))
    decreases |keys|
  {
    if keys != [] {
      var n := |keys| - 1;
      assert keys[..n] + [keys[n]] == keys;
      ListedAmong(kind, l, i, keys[..n]);
      ListedStep(kind, l, i, keys[..n], keys[n]);
      LastIsNew(Listed(kind, LedgerFor(l, i, keys[..n])), keys);
    }
  }

  lemma LastIsNew(before: seq<Key>, keys: seq<Key>)
    requires keys != [] && forall k :: k in before ==> k in keys[..|keys| - 1]
    ensures Distinct(keys) && Distinct(before) ==> Distinct(before + [keys[|keys| - 1]])
    ensures forall k :: k in keys <==> k in keys[..|keys| - 1] || k == keys[|keys| - 1]
  {
    var n := |keys| - 1;
    if Distinct(keys) && Distinct(before) {
      forall j | 0 <= j < |before| ensures before[j] != keys[n] {
        assert before[j] in before;
      }
    }
  }

  lemma TimesStep(l: VaultEntry, i: VaultEntry, keys: seq<Key>, j: Key, s: string)
    ensures Get(LedgerFor(l, i, keys + [j]).times, s)
            == if s == Render(j) && MergedTime(l, i, j).Some? then MergedTime(l, i, j)
               else Get(LedgerFor(l, i, keys).times, s)
  {
    LedgerSnoc(l, i, keys, j);
  }

  /** The times written down, at any string: only keys examined have one. */
  lemma {:induction false} TimesWritten(l: VaultEntry, i: VaultEntry, keys: seq<Key>, s: string)
    ensures var t := Get(LedgerFor(l, i, keys).times, s);
            t.Some? ==> exists k :: k in keys && Render(k) == s && MergedTime(l, i, k) == t
    ensures forall k :: k in keys && Render(k) == s ==> Get(LedgerFor(l, i, keys).times, s) == MergedTime(l, i, k)
    decreases |keys|
  {
    if keys != [] {
      var n := |keys| - 1;
      assert keys[..n] + [keys[n]] == keys;
      TimesWritten(l, i, keys[..n], s);
      TimesStep(l, i, keys[..n], keys[n], s);
      forall k | Render(k) == s ensures s == Render(keys[n]) ==> k == keys[n] {
        KeySpacesDisjoint(k, keys[n]);
      }
      assert forall k :: k in keys <==> k in keys[..n] || k == keys[n];
    }
  }

  /** The times gathered key by key are the decided times. */
  lemma TimesGathered(l: VaultEntry, i: VaultEntry)
    requires SameType(l, i)
    ensures LedgerFor(l, i, Examined(l, i)).times == DecidedTimes(l, i)
  {
    var a, b := LedgerFor(l, i, Examined(l, i)).times, DecidedTimes(l, i);
    forall s ensures Get(a, s) == Get(b, s) {
      TimesWritten(l, i, Examined(l, i), s);
      if s in b {
        OnlyKeysDecided(l, i, s);
        TimeGathered(l, i, ParseKey(s).value);
      } else if s in a {
        var k :| k in Examined(l, i) && Render(k) == s && MergedTime(l, i, k) == Some(a[s]);
        DecidedTimeAt(l, i, k);
      }
    }
    SameGets(a, b);
  }

  lemma TimeGathered(l: VaultEntry, i: VaultEntry, k: Key)
    requires SameType(l, i)
    ensures Get(LedgerFor(l, i, Examined(l, i)).times, Render(k)) == Get(DecidedTimes(l, i), Render(k))
  {
    ExaminedExactly(l, i, k);
    TimesWritten(l, i, Examined(l, i), Render(k));
    DecidedTimeAt(l, i, k);
    if k !in Examined(l, i) {
      forall j | j in Examined(l, i) ensures Render(j) != Render(k) {
        KeySpacesDisjoint(j, k);
      }
    }
  }

  // ----- the whole merge -----

  lemma SharedScalars(l: VaultEntry, i: VaultEntry, fields: seq<Field>)
    requires SameType(l, i) && forall f :: f in fields ==> f in FieldsOf(l)
    ensures BothHave(l, i, fields)
  {
    forall n | 0 <= n < |fields| ensures At(l, Scalar(fields[n])).Some? && At(i, Scalar(fields[n])).Some? {
      FieldsAreAll(l, fields[n]);
      SameTypeSameFields(l, i, fields[n]);
    }
  }

  lemma AllShared(l: VaultEntry, i: VaultEntry)
    requires SameType(l, i)
    ensures BothHave(l, i, Leading(l)) && BothHave(l, i, Middle(l)) && BothHave(l, i, Trailing(l))
  {
    forall f ensures f in Leading(l) || f in Middle(l) || f in Trailing(l) <==> f in FieldsOf(l) {
      ScalarsExamined(l, f);
    }
    SharedScalars(l, i, Leading(l));
    SharedScalars(l, i, Middle(l));
    SharedScalars(l, i, Trailing(l));
  }

  method ExaminePair(l: VaultEntry, i: VaultEntry)
    returns (led: Ledger, pairs: seq<(string, CustomField)>, atts: seq<Attachment>)
    requires SameType(l, i)
    ensures led == LedgerFor(l, i, Examined(l, i))
    ensures pairs == PairsFor(l, i, PairNames(l, i)) && atts == MergedAttachments(l, i)
  {
    AllShared(l, i);
    led, pairs, atts := ExamineInOrder(l, i, Leading(l), Middle(l), Trailing(l));
  }

  method ExamineInOrder(l: VaultEntry, i: VaultEntry, first: seq<Field>, middle: seq<Field>, last: seq<Field>)
    returns (led: Ledger, pairs: seq<(string, CustomField)>, atts: seq<Attachment>)
    requires BothHave(l, i, first) && BothHave(l, i, middle) && BothHave(l, i, last)
    ensures led == LedgerFor(l, i, ScalarKeys(first) + PairKeysOf(PairNames(l, i)) + ScalarKeys(middle)
                                   + AttachKeysOf(AttachmentNames(l, i)) + ScalarKeys(last))
    ensures pairs == PairsFor(l, i, PairNames(l, i)) && atts == MergedAttachments(l, i)
  {
    var m := new FieldMerger(l, i);
    m.DecideAll(first);
    assert m.done == ScalarKeys(first);
    pairs := m.MergeCustom();
    m.DecideAll(middle);
    atts := m.MergeAttachments();
    m.DecideAll(last);
    led := m.ledger;
  }

  /**
   `merge_entry_pair`: the merged entry, and the keys reported as clashes, as pending deletions
   and as brought over, in the order they were met.
   */
  method MergePair(l: VaultEntry, i: VaultEntry) returns (merged: VaultEntry, led: Ledger)
    ensures merged == MergeEntry(l, i)
    ensures led == if SameType(l, i) then LedgerFor(l, i, Examined(l, i)) else BLANK
  {
    if !SameType(l, i) {
      return if Before(l.meta.updatedAt, i.meta.updatedAt) then i else l, BLANK;
    }
    var pairs, atts;
    led, pairs, atts := ExaminePair(l, i);
    TimesGathered(l, i);
    assert pairs == MergedPairs(l, i);
    var meta := l.meta.(updatedAt := Latest(l.meta.updatedAt, i.meta.updatedAt),
                        fieldTimes := led.times + MergedMarks(led.times, l.meta, i.meta),
                        history := UnionHistory(l.meta.history, i.meta.history));
    merged := WithAttachments(WithPairs(MergeScalars(l, i), pairs), atts).(meta := meta);
  }

  lemma ConcatDistinct(a: seq<Key>, b: seq<Key>)
    requires Distinct(a) && Distinct(b) && forall k :: k in a ==> k !in b
    ensures Distinct(a + b)
  {
    forall i, j | 0 <= i < |a| && 0 <= j < |b| ensures a[i] != b[j] {
      assert a[i] in a && b[j] in b;
    }
  }

  lemma ScalarsOnce(e: VaultEntry)
    ensures Distinct(ScalarKeys(Leading(e))) && Distinct(ScalarKeys(Middle(e))) && Distinct(ScalarKeys(Trailing(e)))
    ensures forall f :: f in Leading(e) ==> f !in Middle(e) && f !in Trailing(e)
    ensures Middle(e) == [] || Trailing(e) == []
  {
  }

  lemma ExaminedOnce(l: VaultEntry, i: VaultEntry)
    ensures Distinct(Examined(l, i))
  {
    ScalarsOnce(l);
    FirstsMeaning(PairKeys(PairsOf(l)) + PairKeys(PairsOf(i)));
    SortMeaning(Firsts(PairKeys(PairsOf(l)) + PairKeys(PairsOf(i))));
    FirstsMeaning(Uuids(AttachmentsOf(l)) + Uuids(AttachmentsOf(i)));
    var a, b, c := ScalarKeys(Leading(l)), PairKeysOf(PairNames(l, i)), ScalarKeys(Middle(l));
    var d, e := AttachKeysOf(AttachmentNames(l, i)), ScalarKeys(Trailing(l));
    forall k ensures k in a <==> k.Scalar? && k.f in Leading(l)
             ensures k in b <==> k.Pair? && k.caption in PairNames(l, i)
             ensures k in c <==> k.Scalar? && k.f in Middle(l)
             ensures k in d <==> k.Attach? && k.uuid in AttachmentNames(l, i)
             ensures k in e <==> k.Scalar? && k.f in Trailing(l)
    {
      KeyLists(Leading(l), PairNames(l, i), k);
      KeyLists(Middle(l), AttachmentNames(l, i), k);
      KeyLists(Trailing(l), [], k);
    }
    ConcatDistinct(a, b);
    ConcatDistinct(a + b, c);
    ConcatDistinct(a + b + c, d);
    ConcatDistinct(a + b + c + d, e);
  }

  /**
   The reports are complete and repeat nothing: a key is listed as a clash, as a pending
   deletion or as brought over exactly when it is one, and once.
   */
  lemma ReportedExactlyOnce(kind: Kind, l: VaultEntry, i: VaultEntry, k: Key)
    requires SameType(l, i)
    ensures var list := Listed(kind, LedgerFor(l, i, Examined(l, i)));
            Distinct(list) && (k in list <==> Reported(kind, l, i, k))
  {
    ExaminedOnce(l, i);
    ListedAmong(kind, l, i, Examined(l, i));
    ExaminedExactly(l, i, k);
  }

  /** The local entry changes under a key exactly when that key is listed as brought over or as pending deletion. */
  lemma EveryChangeIsListed(l: VaultEntry, i: VaultEntry, k: Key)
    requires SameType(l, i)
    ensures var led := LedgerFor(l, i, Examined(l, i));
            At(MergeEntry(l, i), k) != At(l, k) <==> k in led.brought || (k in led.pending && At(l, k).None?)
  {
    ReportedExactlyOnce(Carried, l, i, k);
    ReportedExactlyOnce(Pended, l, i, k);
    MergeReportsEveryChange(l, i, k);
  }
}
