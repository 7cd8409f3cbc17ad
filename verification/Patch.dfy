/** Applying values and removals by key, as conflict resolution does, and its inverse relation with the diff. */
module EntryPatch {
  import opened Basics
  import opened FieldKeys
  import opened Entries

  /** The text form of binary fields. */
  datatype Codec = Codec(encode: seq<byte> -> string, decode: string -> Option<seq<byte>>)

  ghost predicate RoundTrips(c: Codec) {
    forall b :: c.decode(c.encode(b)) == Some(b)
  }

  // ----- setting a scalar -----

  function WithTitle(e: VaultEntry, v: string): VaultEntry
    requires e.Login? || e.Note? || e.Custom?
  {
    e.(title := v)
  }

  function WithNotes(e: VaultEntry, v: string): VaultEntry
    requires e.Login? || e.Card? || e.File? || e.Passkey?
  {
    e.(notes := Some(v))
  }

  function SetScalar(c: Codec, e: VaultEntry, f: Field, v: string): VaultEntry {
    match e
    case Login(_, _, _, _, _, _, _, _, _, _) =>
      (match f
       case Title => WithTitle(e, v) case Url => e.(url := v) case Username => e.(username := v)
       case Password => e.(password := v) case Notes => WithNotes(e, v) case AppId => e.(appId := Some(v))
       case Email => e.(email := Some(v)) case _ => e)
    case Note(_, _, _, _, _) => (match f case Title => WithTitle(e, v) case Content => e.(content := v) case _ => e)
    case Identity(_, _, _, _, _, _, _, _) =>
      (match f
       case FirstName => e.(firstName := v) case LastName => e.(lastName := v) case Email => e.(mail := v)
       case Phone => e.(phone := Some(v)) case Address => e.(address := Some(v)) case _ => e)
    case Card(_, _, _, _, _, _, _, _, _, _, _, _, _, _, _, _) => SetCardScalar(e, f, v)
    case File(_, _, _, _, _) =>
      (match f
       case Filename => e.(filename := v) case Notes => WithNotes(e, v)
       case Data => (match c.decode(v) case Some(b) => e.(data := b) case None => e)
       case _ => e)
    case Custom(_, _, _, _) => if f == Title then WithTitle(e, v) else e
    case Passkey(_, _, _, _, _, _, _) =>
      (match f
       case RpId => e.(rpId := v) case UserName => e.(userName := v) case UserDisplayName => e.(userDisplayName := v)
       case Notes => WithNotes(e, v)
       case CredentialBlock => (match DecodeCredential(c, v) case Some(k) => e.(credential := k) case None => e)
       case _ => e)
  }

  function SetCardScalar(e: VaultEntry, f: Field, v: string): VaultEntry
    requires e.Card?
  {
    match f
    case CardName => e.(cardName := Some(v)) case Status => e.(status := v)
    case CardholderName => e.(cardholderName := v) case CardNumber => e.(cardNumber := v)
    case Expiry => e.(expiry := v) case Cvv => e.(cvv := v) case CreditLimit => e.(creditLimit := Some(v))
    case CardAccountNumber => e.(cardAccountNumber := Some(v)) case PaymentNetwork => e.(paymentNetwork := Some(v))
    case Pin => e.(pin := Some(v)) case BankName => e.(bankName := Some(v))
    case TransactionPassword => e.(transactionPassword := Some(v)) case Notes => WithNotes(e, v)
    case _ => e
  }

  function DecodeCredential(c: Codec, v: string): Option<Credential> {
    match c.decode(v) case Some(b) => ParseCredential(b) case None => None
  }

  // ----- setting and removing items -----

  /** Position of the first pair under `key`; the length if there is none. */
  function FindPair(pairs: seq<(string, CustomField)>, key: string): (i: nat)
    ensures i <= |pairs|
    ensures i < |pairs| ==> pairs[i].0 == key
    ensures forall j :: 0 <= j < i ==> pairs[j].0 != key
  {
    if pairs == [] then 0 else if pairs[0].0 == key then 0 else 1 + FindPair(pairs[1..], key)
  }

  function SetPair(pairs: seq<(string, CustomField)>, key: string, v: string): seq<(string, CustomField)> {
    var i := FindPair(pairs, key);
    if i < |pairs| then pairs[i := (key, pairs[i].1.(value := v))] else pairs + [(key, CustomField(key, v, false))]
  }

  function RemovePair(pairs: seq<(string, CustomField)>, key: string): seq<(string, CustomField)> {
    if pairs == [] then []
    else
      var last := pairs[|pairs| - 1];
      RemovePair(pairs[..|pairs| - 1], key) + if last.0 == key then [] else [last]
  }

  function RemoveAttachment(atts: seq<Attachment>, uuid: string): seq<Attachment> {
    if atts == [] then []
    else
      var last := atts[|atts| - 1];
      RemoveAttachment(atts[..|atts| - 1], uuid) + if last.uuid == uuid then [] else [last]
  }

  function Unkeyed(pairs: seq<(string, CustomField)>): (fields: seq<CustomField>)
    ensures |fields| == |pairs| && forall i :: 0 <= i < |pairs| ==> fields[i] == pairs[i].1
  {
    seq(|pairs|, i requires 0 <= i < |pairs| => pairs[i].1)
  }

  function WithPairs(e: VaultEntry, pairs: seq<(string, CustomField)>): VaultEntry {
    if e.Custom? then e.(fields := pairs) else e.(customFields := Unkeyed(pairs))
  }

  /** `set_entry_field_by_key` on a parsed key. */
  function SetKey(c: Codec, e: VaultEntry, k: Key, v: string): VaultEntry {
    match k
    case Scalar(f) => SetScalar(c, e, f, v)
    case Pair(caption) => WithPairs(e, SetPair(PairsOf(e), caption, v))
    case Attach(_) => e
  }

  function SetFieldByKey(c: Codec, e: VaultEntry, key: string, v: string): VaultEntry {
    match ParseKey(key) case Some(k) => SetKey(c, e, k, v) case None => e
  }

  /** `remove_entry_item_by_key` on a parsed key. */
  function RemoveKey(e: VaultEntry, k: Key): VaultEntry {
    match k
    case Scalar(_) => e
    case Pair(caption) => WithPairs(e, RemovePair(PairsOf(e), caption))
    case Attach(uuid) =>
      if e.File? || e.Passkey? then e else e.(attachments := RemoveAttachment(e.attachments, uuid))
  }

  function RemoveItemByKey(e: VaultEntry, key: string): VaultEntry {
    match ParseKey(key) case Some(k) => RemoveKey(e, k) case None => e
  }

  /** An edit or removal by key leaves id, stamps, change times and history alone. */
  lemma PatchKeepsMeta(c: Codec, e: VaultEntry, k: Key, v: string)
    ensures SetKey(c, e, k, v).meta == e.meta && RemoveKey(e, k).meta == e.meta
  {
  }

  // ----- what one step does to the value under a key -----

  /** The value left under `k` when `v` is written over `was`. */
  function Write(c: Codec, k: Key, was: Option<Val>, v: string): Option<Val> {
    match k
    case Attach(_) => was
    case Pair(caption) =>
      (match was
       case Some(PairVal(p)) => Some(PairVal(p.(value := v)))
       case _ => Some(PairVal(CustomField(caption, v, false))))
    case Scalar(f) =>
      match was
      case Some(Text(_)) => Some(Text(v))
      case Some(Opt(_)) => Some(Opt(Some(v)))
      case Some(Blob(b)) =>
        if f == Data then (match c.decode(v) case Some(d) => Some(Blob(d)) case None => was)
        else (match DecodeCredential(c, v) case Some(d) => Some(Blob(CredentialBlob(d))) case None => was)
      case _ => was
  }

  ghost predicate DistinctPairs(pairs: seq<(string, CustomField)>) {
    forall i, j :: 0 <= i < j < |pairs| ==> pairs[i].0 != pairs[j].0
  }

  ghost predicate KeyedByCaption(pairs: seq<(string, CustomField)>) {
    forall i :: 0 <= i < |pairs| ==> pairs[i].1.caption == pairs[i].0
  }

  /** An entry given other pairs or attachments keeps everything else. */
  lemma WithPairsAt(e: VaultEntry, pairs: seq<(string, CustomField)>, j: Key)
    requires e.Custom? || KeyedByCaption(pairs)
    requires DistinctItems(e) && DistinctPairs(pairs)
    ensures DistinctItems(WithPairs(e, pairs)) && SameType(e, WithPairs(e, pairs))
    ensures j.Pair? ==>
              At(WithPairs(e, pairs), j)
              == match PairAt(pairs, j.caption) case Some(p) => Some(PairVal(p)) case None => None
    ensures !j.Pair? ==> At(WithPairs(e, pairs), j) == At(e, j)
  {
    WithPairsParts(e, pairs);
    if j.Scalar? {
      PairsAreNoScalars(e, pairs, j.f);
    }
  }

  lemma WithPairsParts(e: VaultEntry, pairs: seq<(string, CustomField)>)
    requires e.Custom? || KeyedByCaption(pairs)
    ensures PairsOf(WithPairs(e, pairs)) == pairs && AttachmentsOf(WithPairs(e, pairs)) == AttachmentsOf(e)
    ensures SameType(e, WithPairs(e, pairs))
  {
  }

  lemma PairsAreNoScalars(e: VaultEntry, pairs: seq<(string, CustomField)>, f: Field)
    ensures ScalarAt(WithPairs(e, pairs), f) == ScalarAt(e, f)
  {
  }

  lemma WithAttachmentsAt(e: VaultEntry, atts: seq<Attachment>, j: Key)
    requires !e.File? && !e.Passkey? && DistinctItems(e) && DistinctAttachments(atts)
    ensures var e' := e.(attachments := atts);
            && DistinctItems(e') && SameType(e, e')
            && AttachmentsOf(e') == atts
            && (!j.Attach? ==> At(e', j) == At(e, j))
  {
    var e' := e.(attachments := atts);
    assert AttachmentsOf(e') == atts && PairsOf(e') == PairsOf(e);
    if j.Scalar? {
      AttachmentsAreNoScalars(e, atts, j.f);
    }
  }

  lemma AttachmentsAreNoScalars(e: VaultEntry, atts: seq<Attachment>, f: Field)
    requires !e.File? && !e.Passkey?
    ensures ScalarAt(e.(attachments := atts), f) == ScalarAt(e, f)
  {
  }

  lemma FindDistinct(pairs: seq<(string, CustomField)>, key: string)
    requires DistinctPairs(pairs)
    ensures var i := FindPair(pairs, key);
            PairAt(pairs, key) == if i < |pairs| then Some(pairs[i].1) else None
  {
    var i := FindPair(pairs, key);
    if i < |pairs| {
      DistinctPairAt(pairs, i);
    } else {
      PairAtMeaning(pairs, key);
    }
  }

  /** Writing a pair changes the value under its key and nothing else. */
  lemma SetPairAt(pairs: seq<(string, CustomField)>, key: string, v: string, j: string)
    requires DistinctPairs(pairs)
    ensures DistinctPairs(SetPair(pairs, key, v))
    ensures KeyedByCaption(pairs) ==> KeyedByCaption(SetPair(pairs, key, v))
    ensures PairAt(SetPair(pairs, key, v), j)
            == if j != key then PairAt(pairs, j)
               else match PairAt(pairs, key)
                 case Some(p) => Some(p.(value := v))
                 case None => Some(CustomField(key, v, false))
  {
    var i := FindPair(pairs, key);
    var now := SetPair(pairs, key, v);
    FindDistinct(pairs, key);
    FindDistinct(pairs, j);
    FindDistinct(now, j);
    assert i < |pairs| ==> now[i].0 == key;
    var a, b := FindPair(pairs, j), FindPair(now, j);
    assert j != key && a < |pairs| ==> now[a].0 == j;
    if j == key {
      assert now[i].0 == j;
      assert b == i;
    } else if b < |now| {
      assert b < |pairs| && pairs[b].0 == j;
      assert a == b;
    }
  }

  lemma {:induction false} RemovePairAt(pairs: seq<(string, CustomField)>, key: string, j: string)
    ensures PairAt(RemovePair(pairs, key), j) == if j == key then None else PairAt(pairs, j)
    ensures forall p :: p in RemovePair(pairs, key) ==> p in pairs
    decreases |pairs|
  {
    if pairs != [] {
      var n := |pairs| - 1;
      RemovePairAt(pairs[..n], key, j);
      var rest := RemovePair(pairs[..n], key);
      assert (rest + [pairs[n]])[..|rest|] == rest;
      assert rest + [] == rest;
    }
  }

  /** Removing works pair by pair and keeps the order. */
  lemma {:induction false} RemovePairKeepsOrder(
    a: seq<(string, CustomField)>, p: (string, CustomField), b: seq<(string, CustomField)>, key: string)
    ensures RemovePair(a + [p] + b, key)
            == RemovePair(a, key) + (if p.0 == key then [] else [p]) + RemovePair(b, key)
    decreases |b|
  {
    var all := a + [p] + b;
    if b == [] {
      assert all[..|all| - 1] == a;
    } else {
      var b' := b[..|b| - 1];
      assert all[..|all| - 1] == a + [p] + b';
      RemovePairKeepsOrder(a, p, b', key);
    }
  }

  /** Writing a pair leaves every other where it is; a new one comes last, not hidden. */
  lemma SetPairKeepsOrder(a: seq<(string, CustomField)>, f: CustomField, b: seq<(string, CustomField)>,
                          key: string, v: string)
    requires forall i :: 0 <= i < |a| ==> a[i].0 != key
    ensures SetPair(a + [(key, f)] + b, key, v) == a + [(key, CustomField(f.caption, v, f.hidden))] + b
    ensures SetPair(a, key, v) == a + [(key, CustomField(key, v, false))]
  {
    var all := a + [(key, f)] + b;
    assert all[|a|].0 == key;
    assert forall i :: 0 <= i < |a| ==> all[i] == a[i];
  }

  lemma {:induction false} RemovePairKeeps(pairs: seq<(string, CustomField)>, key: string)
    ensures DistinctPairs(pairs) ==> DistinctPairs(RemovePair(pairs, key))
    ensures KeyedByCaption(pairs) ==> KeyedByCaption(RemovePair(pairs, key))
    decreases |pairs|
  {
    if pairs != [] {
      var n := |pairs| - 1;
      RemovePairKeeps(pairs[..n], key);
      RemovePairAt(pairs[..n], key, key);
      var rest := RemovePair(pairs[..n], key);
      if DistinctPairs(pairs) {
        forall i | 0 <= i < |rest| ensures rest[i].0 != pairs[n].0 {
          assert rest[i] in pairs[..n];
        }
      }
    }
  }

  lemma {:induction false} RemoveAttachmentAt(atts: seq<Attachment>, uuid: string, j: string)
    ensures AttachmentAt(RemoveAttachment(atts, uuid), j) == if j == uuid then None else AttachmentAt(atts, j)
    ensures forall a :: a in RemoveAttachment(atts, uuid) ==> a in atts
    decreases |atts|
  {
    if atts != [] {
      var n := |atts| - 1;
      RemoveAttachmentAt(atts[..n], uuid, j);
      var rest := RemoveAttachment(atts[..n], uuid);
      assert (rest + [atts[n]])[..|rest|] == rest;
      assert rest + [] == rest;
    }
  }

  ghost predicate DistinctAttachments(atts: seq<Attachment>) {
    forall i, j :: 0 <= i < j < |atts| ==> atts[i].uuid != atts[j].uuid
  }

  lemma {:induction false} RemoveAttachmentKeepsOrder(
    a: seq<Attachment>, x: Attachment, b: seq<Attachment>, uuid: string)
    ensures RemoveAttachment(a + [x] + b, uuid)
            == RemoveAttachment(a, uuid) + (if x.uuid == uuid then [] else [x]) + RemoveAttachment(b, uuid)
    decreases |b|
  {
    var all := a + [x] + b;
    if b == [] {
      assert all[..|all| - 1] == a;
    } else {
      var b' := b[..|b| - 1];
      assert all[..|all| - 1] == a + [x] + b';
      RemoveAttachmentKeepsOrder(a, x, b', uuid);
    }
  }

  lemma {:induction false} RemoveAttachmentKeeps(atts: seq<Attachment>, uuid: string)
    requires DistinctAttachments(atts)
    ensures DistinctAttachments(RemoveAttachment(atts, uuid))
    decreases |atts|
  {
    if atts != [] {
      var n := |atts| - 1;
      RemoveAttachmentKeeps(atts[..n], uuid);
      RemoveAttachmentAt(atts[..n], uuid, uuid);
      var rest := RemoveAttachment(atts[..n], uuid);
      forall i | 0 <= i < |rest| ensures rest[i].uuid != atts[n].uuid {
        assert rest[i] in atts[..n];
      }
    }
  }

  lemma SetScalarParts(c: Codec, e: VaultEntry, f: Field, v: string)
    ensures PairsOf(SetScalar(c, e, f, v)) == PairsOf(e)
    ensures AttachmentsOf(SetScalar(c, e, f, v)) == AttachmentsOf(e)
    ensures SameType(e, SetScalar(c, e, f, v))
  {
    if e.Card? {
      SetCardParts(e, f, v);
    } else if e.Login? {
      SetLoginParts(c, e, f, v);
    }
  }

  lemma SetCardParts(e: VaultEntry, f: Field, v: string)
    requires e.Card?
    ensures PairsOf(SetCardScalar(e, f, v)) == PairsOf(e) && AttachmentsOf(SetCardScalar(e, f, v)) == AttachmentsOf(e)
    ensures SetCardScalar(e, f, v).Card?
  {
  }

  lemma SetLoginParts(c: Codec, e: VaultEntry, f: Field, v: string)
    requires e.Login?
    ensures PairsOf(SetScalar(c, e, f, v)) == PairsOf(e) && AttachmentsOf(SetScalar(c, e, f, v)) == AttachmentsOf(e)
    ensures SetScalar(c, e, f, v).Login?
  {
  }

  lemma SetCardScalarAt(c: Codec, e: VaultEntry, f: Field, v: string, g: Field)
    requires e.Card?
    ensures ScalarAt(SetCardScalar(e, f, v), g)
            == if g == f then Write(c, Scalar(f), ScalarAt(e, f), v) else ScalarAt(e, g)
  {
    if g == f {
      SetCardSame(c, e, f, v);
    } else {
      SetCardOther(e, f, v, g);
    }
  }

  lemma SetCardSame(c: Codec, e: VaultEntry, f: Field, v: string)
    requires e.Card?
    ensures ScalarAt(SetCardScalar(e, f, v), f) == Write(c, Scalar(f), ScalarAt(e, f), v)
  {
  }

  lemma SetCardOther(e: VaultEntry, f: Field, v: string, g: Field)
    requires e.Card? && f != g
    ensures ScalarAt(SetCardScalar(e, f, v), g) == ScalarAt(e, g)
  {
  }

  lemma SetFileAt(c: Codec, e: VaultEntry, f: Field, v: string, g: Field)
    requires e.File?
    ensures ScalarAt(SetScalar(c, e, f, v), g)
            == if g == f then Write(c, Scalar(f), ScalarAt(e, f), v) else ScalarAt(e, g)
  {
  }

  lemma SetPasskeyAt(c: Codec, e: VaultEntry, f: Field, v: string, g: Field)
    requires e.Passkey?
    ensures ScalarAt(SetScalar(c, e, f, v), g)
            == if g == f then Write(c, Scalar(f), ScalarAt(e, f), v) else ScalarAt(e, g)
  {
  }

  lemma SetLoginAt(c: Codec, e: VaultEntry, f: Field, v: string, g: Field)
    requires e.Login?
    ensures ScalarAt(SetScalar(c, e, f, v), g)
            == if g == f then Write(c, Scalar(f), ScalarAt(e, f), v) else ScalarAt(e, g)
  {
  }

  lemma SetIdentityAt(c: Codec, e: VaultEntry, f: Field, v: string, g: Field)
    requires e.Identity?
    ensures ScalarAt(SetScalar(c, e, f, v), g)
            == if g == f then Write(c, Scalar(f), ScalarAt(e, f), v) else ScalarAt(e, g)
  {
  }

  /** Writing a scalar changes that field and no other. */
  lemma SetScalarAt(c: Codec, e: VaultEntry, f: Field, v: string, g: Field)
    ensures ScalarAt(SetScalar(c, e, f, v), g)
            == if g == f then Write(c, Scalar(f), ScalarAt(e, f), v) else ScalarAt(e, g)
  {
    if e.Card? {
      SetCardScalarAt(c, e, f, v, g);
    } else if e.File? {
      SetFileAt(c, e, f, v, g);
    } else if e.Passkey? {
      SetPasskeyAt(c, e, f, v, g);
    } else if e.Login? {
      SetLoginAt(c, e, f, v, g);
    } else if e.Identity? {
      SetIdentityAt(c, e, f, v, g);
    }
  }

  lemma SetScalarKeyAt(c: Codec, e: VaultEntry, f: Field, v: string, j: Key)
    requires DistinctItems(e)
    ensures DistinctItems(SetScalar(c, e, f, v)) && SameType(e, SetScalar(c, e, f, v))
    ensures At(SetScalar(c, e, f, v), j)
            == if j == Scalar(f) then Write(c, Scalar(f), At(e, Scalar(f)), v) else At(e, j)
  {
    SetScalarParts(c, e, f, v);
    if j.Scalar? {
      SetScalarAt(c, e, f, v, j.f);
    }
  }

  /** A pair's value under its key. */
  function Lifted(p: Option<CustomField>): Option<Val> {
    match p case Some(f) => Some(PairVal(f)) case None => None
  }

  lemma WritePair(c: Codec, caption: string, was: Option<CustomField>, v: string)
    ensures Write(c, Pair(caption), Lifted(was), v)
            == Lifted(match was case Some(p) => Some(p.(value := v)) case None => Some(CustomField(caption, v, false)))
  {
  }

  lemma SetPairKeyAt(c: Codec, e: VaultEntry, caption: string, v: string, j: Key)
    requires DistinctItems(e)
    ensures var e' := WithPairs(e, SetPair(PairsOf(e), caption, v));
            && DistinctItems(e') && SameType(e, e')
            && At(e', j) == if j == Pair(caption) then Write(c, j, At(e, j), v) else At(e, j)
  {
    var pairs := SetPair(PairsOf(e), caption, v);
    SetPairAt(PairsOf(e), caption, v, if j.Pair? then j.caption else caption);
    WithPairsAt(e, pairs, j);
    if j.Pair? {
      assert At(e, j) == Lifted(PairAt(PairsOf(e), j.caption));
      assert At(WithPairs(e, pairs), j) == Lifted(PairAt(pairs, j.caption));
      WritePair(c, caption, PairAt(PairsOf(e), caption), v);
    }
  }

  /** Setting by key writes exactly the value under that key, on every entry type. */
  lemma SetKeyAt(c: Codec, e: VaultEntry, k: Key, v: string, j: Key)
    requires DistinctItems(e)
    ensures DistinctItems(SetKey(c, e, k, v)) && SameType(e, SetKey(c, e, k, v))
    ensures At(SetKey(c, e, k, v), j) == if j == k then Write(c, k, At(e, k), v) else At(e, j)
  {
    match k
    case Attach(_) => SameTypeReflexive(e);
    case Scalar(f) => SetScalarKeyAt(c, e, f, v, j);
    case Pair(caption) => SetPairKeyAt(c, e, caption, v, j);
  }

  lemma RemovePairKeyAt(e: VaultEntry, caption: string, j: Key)
    requires DistinctItems(e)
    ensures var e' := WithPairs(e, RemovePair(PairsOf(e), caption));
            DistinctItems(e') && SameType(e, e') && At(e', j) == if j == Pair(caption) then None else At(e, j)
  {
    RemovePairAt(PairsOf(e), caption, if j.Pair? then j.caption else caption);
    RemovePairKeeps(PairsOf(e), caption);
    WithPairsAt(e, RemovePair(PairsOf(e), caption), j);
  }

  lemma RemoveAttachmentKeyAt(e: VaultEntry, uuid: string, j: Key)
    requires DistinctItems(e) && !e.File? && !e.Passkey?
    ensures var e' := e.(attachments := RemoveAttachment(e.attachments, uuid));
            DistinctItems(e') && SameType(e, e') && At(e', j) == if j == Attach(uuid) then None else At(e, j)
  {
    RemoveAttachmentAt(AttachmentsOf(e), uuid, if j.Attach? then j.uuid else uuid);
    RemoveAttachmentKeeps(AttachmentsOf(e), uuid);
    WithAttachmentsAt(e, RemoveAttachment(e.attachments, uuid), j);
  }

  /** Removing by key empties exactly that item, on every entry type. */
  lemma RemoveKeyAt(e: VaultEntry, k: Key, j: Key)
    requires DistinctItems(e)
    ensures DistinctItems(RemoveKey(e, k)) && SameType(e, RemoveKey(e, k))
    ensures At(RemoveKey(e, k), j) == if j == k && !k.Scalar? then None else At(e, j)
  {
    SameTypeReflexive(e);
    match k
    case Scalar(_) =>
    case Pair(caption) => RemovePairKeyAt(e, caption, j);
    case Attach(uuid) =>
      if !e.File? && !e.Passkey? {
        RemoveAttachmentKeyAt(e, uuid, j);
      }
  }

  lemma SameTypeReflexive(e: VaultEntry)
    ensures SameType(e, e)
  {
  }

  // ----- patches -----

  datatype Step = Set(key: string, text: string) | Remove(key: string)

  function ApplyStep(c: Codec, e: VaultEntry, s: Step): VaultEntry {
    match s
    case Set(key, text) => SetFieldByKey(c, e, key, text)
    case Remove(key) => RemoveItemByKey(e, key)
  }

  function ApplyAll(c: Codec, e: VaultEntry, steps: seq<Step>): VaultEntry {
    if steps == [] then e else ApplyStep(c, ApplyAll(c, e, steps[..|steps| - 1]), steps[|steps| - 1])
  }

  /** The text a value travels as: an absent optional is empty, binary fields are encoded. */
  function ValueText(c: Codec, v: Val): string {
    match v
    case Text(s) => s
    case Opt(Some(s)) => s
    case Opt(None) => ""
    case Blob(b) => c.encode(b)
    case PairVal(p) => p.value
    case FileVal(name, _, _) => name
  }

  function TextOf(c: Codec, e: VaultEntry, k: Key): string {
    match At(e, k) case Some(v) => ValueText(c, v) case None => ""
  }

  ghost predicate Gone(was: VaultEntry, now: VaultEntry, k: Key) {
    k in ItemKeys(was) && k !in ItemKeys(now)
  }

  /** A step turning `was` into `now` at `k`, if one is due there. */
  ghost predicate Due(c: Codec, was: VaultEntry, now: VaultEntry, k: Key, s: Step) {
    || (k in ChangedFieldKeys(was, now) && s == Set(Render(k), TextOf(c, now, k)))
    || (Gone(was, now, k) && s == Remove(Render(k)))
  }

  ghost predicate DueSomewhere(c: Codec, was: VaultEntry, now: VaultEntry, s: Step) {
    exists k :: Due(c, was, now, k, s)
  }

  ghost predicate AllDue(c: Codec, was: VaultEntry, now: VaultEntry, steps: seq<Step>) {
    forall s :: s in steps ==> DueSomewhere(c, was, now, s)
  }

  /**
   The steps from `was` to `now`: every changed key set to the new text, every vanished item
   removed and nothing else, in any order and with any repetition.
   */
  ghost predicate PatchSteps(c: Codec, was: VaultEntry, now: VaultEntry, steps: seq<Step>) {
    && AllDue(c, was, now, steps)
    && (forall k :: k in ChangedFieldKeys(was, now) ==> Set(Render(k), TextOf(c, now, k)) in steps)
    && (forall k :: Gone(was, now, k) ==> Remove(Render(k)) in steps)
  }

  ghost predicate Touches(s: Step, k: Key) {
    s.key == Render(k)
  }

  lemma StepAt(c: Codec, e: VaultEntry, s: Step, k: Key, j: Key)
    requires DistinctItems(e) && s.key == Render(k)
    ensures DistinctItems(ApplyStep(c, e, s)) && SameType(e, ApplyStep(c, e, s))
    ensures At(ApplyStep(c, e, s), j)
            == if j != k then At(e, j)
               else if s.Set? then Write(c, k, At(e, k), s.text)
               else if k.Scalar? then At(e, k) else None
  {
    KeyRoundTrip(k);
    if s.Set? {
      SetKeyAt(c, e, k, s.text, j);
    } else {
      RemoveKeyAt(e, k, j);
    }
  }

  /** The value a patch is meant to leave under `k`. */
  function Outcome(c: Codec, was: VaultEntry, now: VaultEntry, k: Key): Option<Val> {
    if k in ChangedFieldKeys(was, now) then Write(c, k, At(was, k), TextOf(c, now, k))
    else if At(now, k).None? && !k.Scalar? then None
    else At(was, k)
  }

  lemma WriteTwice(c: Codec, k: Key, was: Option<Val>, v: string)
    ensures Write(c, k, Write(c, k, was, v), v) == Write(c, k, was, v)
  {
  }

  /** One due step keeps the entry well formed and moves the value under `k` to its outcome if it is about `k`. */
  lemma StepTowards(c: Codec, was: VaultEntry, now: VaultEntry, e: VaultEntry, s: Step, k: Key)
    requires SameType(was, now) && DistinctItems(now) && DistinctItems(e) && SameType(was, e)
    requires DueSomewhere(c, was, now, s)
    requires At(e, k) == At(was, k) || At(e, k) == Outcome(c, was, now, k)
    ensures var e' := ApplyStep(c, e, s);
            && DistinctItems(e') && SameType(was, e')
            && At(e', k) == if Touches(s, k) then Outcome(c, was, now, k) else At(e, k)
  {
    var j :| Due(c, was, now, j, s);
    StepAt(c, e, s, j, k);
    SameTypeTransitive(was, e, ApplyStep(c, e, s));
    KeySpacesDisjoint(j, k);
    if j == k {
      DueOutcome(c, was, now, k, s, At(e, k));
    }
  }

  ghost predicate Touched(steps: seq<Step>, k: Key) {
    exists s :: s in steps && Touches(s, k)
  }

  lemma TouchedLast(steps: seq<Step>, k: Key)
    requires steps != []
    ensures var n := |steps| - 1;
            Touched(steps, k) <==> Touched(steps[..n], k) || Touches(steps[n], k)
  {
    var n := |steps| - 1;
    assert forall x :: x in steps <==> x in steps[..n] || x == steps[n];
  }

  lemma {:induction false} ApplyAllAt(c: Codec, was: VaultEntry, now: VaultEntry, steps: seq<Step>, k: Key)
    requires SameType(was, now) && DistinctItems(was) && DistinctItems(now)
    requires AllDue(c, was, now, steps)
    ensures var e := ApplyAll(c, was, steps);
            && DistinctItems(e) && SameType(was, e)
            && At(e, k) == if Touched(steps, k) then Outcome(c, was, now, k) else At(was, k)
    decreases |steps|
  {
    if steps == [] {
      SameTypeReflexive(was);
    } else {
      var n := |steps| - 1;
      var s := steps[n];
      TouchedLast(steps, k);
      ApplyAllAt(c, was, now, steps[..n], k);
      StepTowards(c, was, now, ApplyAll(c, was, steps[..n]), s, k);
    }
  }

  /** The step due at `k` leaves the outcome, whether or not it ran before. */
  lemma DueOutcome(c: Codec, was: VaultEntry, now: VaultEntry, k: Key, s: Step, v: Option<Val>)
    requires SameType(was, now) && DistinctItems(now)
    requires Due(c, was, now, k, s) && (v == At(was, k) || v == Outcome(c, was, now, k))
    ensures Outcome(c, was, now, k) == if s.Set? then Write(c, k, v, s.text) else if k.Scalar? then v else None
  {
    ChangedFieldKeysMeaning(was, now, k);
    ItemKeysMeaning(was, k);
    ItemKeysMeaning(now, k);
    WriteTwice(c, k, At(was, k), TextOf(c, now, k));
  }

  // ----- diff and patch -----

  /** Whether writing text can turn the old value under `k` into the new one. */
  predicate Expressible(k: Key, was: Option<Val>, now: Option<Val>) {
    match k
    case Scalar(CredentialBlock) => now.Some? && now.value.Blob? && ParseCredential(now.value.bytes).Some?
    case Scalar(_) => now != Some(Opt(None))
    case Attach(_) => false
    case Pair(caption) =>
      match now
      case Some(PairVal(p)) =>
        (match was
         case Some(PairVal(q)) => p.hidden == q.hidden && p.caption == q.caption
         case _ => !p.hidden && p.caption == caption)
      case _ => false
  }

  /** No optional is cleared, no attachment changes, pairs change by value only, and key material parses. */
  predicate Patchable(was: VaultEntry, now: VaultEntry) {
    forall k :: k in ChangedFieldKeys(was, now) ==> Expressible(k, At(was, k), At(now, k))
  }

  ghost predicate NoDifference(a: VaultEntry, b: VaultEntry) {
    ChangedFieldKeys(a, b) == [] && ItemKeys(a) == ItemKeys(b)
  }

  lemma NoDifferenceMeaning(a: VaultEntry, b: VaultEntry)
    requires SameType(a, b) && DistinctItems(b)
    ensures NoDifference(a, b) <==> forall k :: At(a, k) == At(b, k)
  {
    forall k ensures k in ItemKeys(a) <==> !k.Scalar? && At(a, k).Some?
             ensures k in ItemKeys(b) <==> !k.Scalar? && At(b, k).Some?
             ensures k in ChangedFieldKeys(a, b) <==> At(b, k).Some? && At(a, k) != At(b, k)
             ensures k.Scalar? ==> (At(a, k).Some? <==> At(b, k).Some?)
    {
      ItemKeysMeaning(a, k);
      ItemKeysMeaning(b, k);
      ChangedFieldKeysMeaning(a, b, k);
      if k.Scalar? {
        SameTypeSameFields(a, b, k.f);
      }
    }
    if ChangedFieldKeys(a, b) != [] {
      assert ChangedFieldKeys(a, b)[0] in ChangedFieldKeys(a, b);
    }
  }

  lemma SameTypeSameShape(a: VaultEntry, b: VaultEntry, f: Field)
    requires SameType(a, b) && ScalarAt(b, f).Some?
    ensures ScalarAt(a, f).Some?
    ensures ScalarAt(a, f).value.Text? <==> ScalarAt(b, f).value.Text?
    ensures ScalarAt(a, f).value.Opt? <==> ScalarAt(b, f).value.Opt?
    ensures ScalarAt(a, f).value.Blob? <==> ScalarAt(b, f).value.Blob?
    ensures !ScalarAt(a, f).value.PairVal? && !ScalarAt(a, f).value.FileVal?
    ensures ScalarAt(b, f).value.Blob? <==> f == Data || f == CredentialBlock
  {
  }

  /** Writing a value's own text reproduces it exactly when the change is one text can express. */
  lemma WriteReproduces(c: Codec, was: VaultEntry, now: VaultEntry, k: Key)
    requires RoundTrips(c) && SameType(was, now)
    requires At(now, k).Some? && At(was, k) != At(now, k)
    ensures Write(c, k, At(was, k), TextOf(c, now, k)) == At(now, k) <==> Expressible(k, At(was, k), At(now, k))
  {
    match k
    case Scalar(f) =>
      SameTypeSameShape(was, now, f);
      WriteScalarReproduces(c, f, ScalarAt(was, f).value, ScalarAt(now, f).value);
    case Pair(_) =>
    case Attach(_) =>
  }

  lemma WriteScalarReproduces(c: Codec, f: Field, was: Val, now: Val)
    requires RoundTrips(c) && was != now
    requires (was.Text? && now.Text?) || (was.Opt? && now.Opt?) || (was.Blob? && now.Blob?)
    requires now.Blob? <==> f == Data || f == CredentialBlock
    ensures Write(c, Scalar(f), Some(was), ValueText(c, now)) == Some(now)
            <==> Expressible(Scalar(f), Some(was), Some(now))
  {
    match now
    case Blob(b) =>
      assert c.decode(c.encode(b)) == Some(b);
      if ParseCredential(b).Some? {
        ParsedBlobRebuilds(b);
      }
    case Opt(_) =>
    case Text(_) =>
  }

  /**
   Diff and patch are inverse exactly on patchable changes: carrying out the diff's steps, in
   any order, gives an entry that no longer differs from the target if and only if no changed
   optional was cleared, no attachment changed, every changed pair changed by value alone and
   changed key material fits its block.
   */
  lemma PatchInvertsDiffExactly(c: Codec, was: VaultEntry, now: VaultEntry, steps: seq<Step>)
    requires RoundTrips(c)
    requires SameType(was, now) && DistinctItems(was) && DistinctItems(now)
    requires PatchSteps(c, was, now, steps)
    ensures NoDifference(ApplyAll(c, was, steps), now) <==> Patchable(was, now)
  {
    var e := ApplyAll(c, was, steps);
    forall k ensures At(e, k) == At(now, k) <==>
                     (k in ChangedFieldKeys(was, now) ==> Expressible(k, At(was, k), At(now, k)))
    {
      PatchedAt(c, was, now, steps, k);
    }
    ApplyAllAt(c, was, now, steps, Scalar(Title));
    SameTypeTransitive(e, was, now);
    NoDifferenceMeaning(e, now);
  }

  lemma PatchedAt(c: Codec, was: VaultEntry, now: VaultEntry, steps: seq<Step>, k: Key)
    requires RoundTrips(c)
    requires SameType(was, now) && DistinctItems(was) && DistinctItems(now)
    requires PatchSteps(c, was, now, steps)
    ensures At(ApplyAll(c, was, steps), k) == At(now, k) <==>
            (k in ChangedFieldKeys(was, now) ==> Expressible(k, At(was, k), At(now, k)))
  {
    ApplyAllAt(c, was, now, steps, k);
    ChangedFieldKeysMeaning(was, now, k);
    ItemKeysMeaning(was, k);
    ItemKeysMeaning(now, k);
    if k in ChangedFieldKeys(was, now) {
      WriteReproduces(c, was, now, k);
      assert Touches(Set(Render(k), TextOf(c, now, k)), k);
    } else if Gone(was, now, k) {
      assert Touches(Remove(Render(k)), k);
    } else if k.Scalar? {
      SameTypeSameFields(was, now, k.f);
    }
  }

  function NotedFile(notes: Option<string>): VaultEntry {
    File(Meta("f", "", "", "", map[], []), "f", [], notes, [])
  }

  const NOTED: VaultEntry := NotedFile(Some("n"))
  const CLEARED: VaultEntry := NotedFile(None)
  const CLEARING: seq<Step> := [Set("notes", "")]

  lemma NotedHasNoItems(notes: Option<string>, k: Key)
    ensures DistinctItems(NotedFile(notes)) && (!k.Scalar? ==> At(NotedFile(notes), k).None?)
    ensures k != Scalar(Notes) ==> At(NotedFile(notes), k) == At(NOTED, k)
  {
  }

  lemma OnlyNotesChanged(k: Key)
    ensures k in ChangedFieldKeys(NOTED, CLEARED) <==> k == Scalar(Notes)
    ensures !Gone(NOTED, CLEARED, k)
  {
    NotedHasNoItems(Some("n"), k);
    NotedHasNoItems(None, k);
    ChangedFieldKeysMeaning(NOTED, CLEARED, k);
    ItemKeysMeaning(NOTED, k);
  }

  lemma ClearingIsThePatch(c: Codec)
    ensures PatchSteps(c, NOTED, CLEARED, CLEARING) && !Patchable(NOTED, CLEARED)
  {
    var k := Scalar(Notes);
    forall j ensures j in ChangedFieldKeys(NOTED, CLEARED) <==> j == k
             ensures !Gone(NOTED, CLEARED, j)
    {
      OnlyNotesChanged(j);
    }
    assert TextOf(c, CLEARED, k) == "" && Render(k) == "notes";
    assert Due(c, NOTED, CLEARED, k, CLEARING[0]);
  }

  /** For instance: notes that were cleared are patched to empty notes, and the entry still differs. */
  lemma ClearedNotesComeBackEmpty(c: Codec)
    requires RoundTrips(c)
    ensures PatchSteps(c, NOTED, CLEARED, CLEARING)
    ensures At(ApplyAll(c, NOTED, CLEARING), Scalar(Notes)) == Some(Opt(Some("")))
    ensures !NoDifference(ApplyAll(c, NOTED, CLEARING), CLEARED)
  {
    var k := Scalar(Notes);
    NotedHasNoItems(Some("n"), k);
    NotedHasNoItems(None, k);
    ClearingIsThePatch(c);
    assert CLEARING[..0] == [] && ApplyAll(c, NOTED, []) == NOTED;
    StepAt(c, NOTED, CLEARING[0], k, k);
    PatchInvertsDiffExactly(c, NOTED, CLEARED, CLEARING);
  }
}
