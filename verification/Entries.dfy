/** The vault's seven entry types, seen both field by field and through their keys. */
module Entries {
  import opened Basics
  import opened Retention
  import opened FieldKeys

  datatype CustomField = CustomField(caption: string, value: string, hidden: bool)

  datatype Attachment = Attachment(uuid: string, name: string, kind: string, data: seq<byte>)

  datatype Meta = Meta(
    id: string, createdAt: string, updatedAt: string, folder: string,
    fieldTimes: map<string, nat>, history: seq<HistoryRecord>)

  /** A passkey's key material: one atomic block for diffing and syncing. */
  datatype Credential = Credential(
    credentialId: seq<byte>, privateKey: seq<byte>, publicKeyCose: seq<byte>, userHandle: seq<byte>, algorithm: int)

  datatype VaultEntry =
    | Login(meta: Meta, title: string, url: string, username: string, password: string, notes: Option<string>,
            customFields: seq<CustomField>, attachments: seq<Attachment>, appId: Option<string>, email: Option<string>)
    | Note(meta: Meta, title: string, content: string, customFields: seq<CustomField>, attachments: seq<Attachment>)
    | Identity(meta: Meta, firstName: string, lastName: string, mail: string, phone: Option<string>,
               address: Option<string>, customFields: seq<CustomField>, attachments: seq<Attachment>)
    | Card(meta: Meta, cardName: Option<string>, status: string, cardholderName: string, cardNumber: string,
           expiry: string, cvv: string, creditLimit: Option<string>, cardAccountNumber: Option<string>,
           paymentNetwork: Option<string>, pin: Option<string>, bankName: Option<string>,
           transactionPassword: Option<string>, notes: Option<string>,
           customFields: seq<CustomField>, attachments: seq<Attachment>)
    | File(meta: Meta, filename: string, data: seq<byte>, notes: Option<string>, customFields: seq<CustomField>)
    | Custom(meta: Meta, title: string, fields: seq<(string, CustomField)>, attachments: seq<Attachment>)
    | Passkey(meta: Meta, rpId: string, userName: string, userDisplayName: string, credential: Credential,
              notes: Option<string>, customFields: seq<CustomField>)

  predicate SameType(a: VaultEntry, b: VaultEntry) {
    match a
    case Login(_, _, _, _, _, _, _, _, _, _) => b.Login?
    case Note(_, _, _, _, _) => b.Note?
    case Identity(_, _, _, _, _, _, _, _) => b.Identity?
    case Card(_, _, _, _, _, _, _, _, _, _, _, _, _, _, _, _) => b.Card?
    case File(_, _, _, _, _) => b.File?
    case Custom(_, _, _, _) => b.Custom?
    case Passkey(_, _, _, _, _, _, _) => b.Passkey?
  }

  lemma SameTypeSymmetric(a: VaultEntry, b: VaultEntry)
    ensures SameType(a, b) <==> SameType(b, a)
  {
  }

  lemma SameTypeTransitive(a: VaultEntry, b: VaultEntry, c: VaultEntry)
    requires (SameType(a, b) || SameType(b, a)) && (SameType(b, c) || SameType(c, b))
    ensures SameType(a, c) && SameType(c, a)
  {
  }

  // ----- key material as one block -----

  /** Length prefix (truncated to 16 bits) and bytes. */
  function LengthPrefixed(part: seq<byte>): seq<byte> {
    Be16(|part| % U16_MODULUS) + part
  }

  /** `i64::to_be_bytes`, by repeated division. */
  function BigEndian(n: nat, width: nat): (s: seq<byte>)
    ensures |s| == width
  {
    if width == 0 then [] else BigEndian(n / 256, width - 1) + [n % 256]
  }

  function FromBigEndian(s: seq<byte>): nat {
    if s == [] then 0 else FromBigEndian(s[..|s| - 1]) * 256 + s[|s| - 1]
  }

  const I64_MIN: int := -0x8000_0000_0000_0000
  const I64_MAX: int := 0x7fff_ffff_ffff_ffff
  const U64_MODULUS: int := 0x1_0000_0000_0000_0000

  function AlgorithmBytes(a: int): seq<byte> {
    BigEndian(a % U64_MODULUS, 8)
  }

  function AlgorithmOf(s: seq<byte>): int {
    var n := FromBigEndian(s);
    if n > I64_MAX then n - U64_MODULUS else n
  }

  function CredentialBlob(c: Credential): seq<byte> {
    LengthPrefixed(c.credentialId)
    + (LengthPrefixed(c.privateKey)
       + (LengthPrefixed(c.publicKeyCose) + (LengthPrefixed(c.userHandle) + AlgorithmBytes(c.algorithm))))
  }

  /** Take one length-prefixed part off the front. */
  function TakePart(blob: seq<byte>): Option<(seq<byte>, seq<byte>)> {
    if |blob| < 2 then None
    else
      var len := FromBe16(blob[0], blob[1]);
      if |blob| < 2 + len then None else Some((blob[2..2 + len], blob[2 + len..]))
  }

  function ParseCredential(blob: seq<byte>): Option<Credential> {
    match TakePart(blob)
    case None => None
    case Some((credentialId, r1)) =>
      match TakePart(r1)
      case None => None
      case Some((privateKey, r2)) =>
        match TakePart(r2)
        case None => None
        case Some((publicKeyCose, r3)) =>
          match TakePart(r3)
          case None => None
          case Some((userHandle, r4)) =>
            if |r4| != 8 then None
            else Some(Credential(credentialId, privateKey, publicKeyCose, userHandle, AlgorithmOf(r4)))
  }

  predicate Representable(c: Credential) {
    && |c.credentialId| < U16_MODULUS && |c.privateKey| < U16_MODULUS
    && |c.publicKeyCose| < U16_MODULUS && |c.userHandle| < U16_MODULUS
    && I64_MIN <= c.algorithm <= I64_MAX
  }

  lemma TakePartInverts(part: seq<byte>, rest: seq<byte>)
    requires |part| < U16_MODULUS
    ensures TakePart(LengthPrefixed(part) + rest) == Some((part, rest))
  {
    var blob := LengthPrefixed(part) + rest;
    Be16RoundTrip(|part|);
    assert blob[0] == Be16(|part|)[0] && blob[1] == Be16(|part|)[1];
    assert blob[2..2 + |part|] == part && blob[2 + |part|..] == rest;
  }

  function Pow256(k: nat): nat {
    if k == 0 then 1 else 256 * Pow256(k - 1)
  }

  lemma {:induction false} BigEndianInverts(n: nat, width: nat)
    requires n < Pow256(width)
    ensures FromBigEndian(BigEndian(n, width)) == n
    decreases width
  {
    if width > 0 {
      BigEndianInverts(n / 256, width - 1);
      assert BigEndian(n, width)[..width - 1] == BigEndian(n / 256, width - 1);
    }
  }

  lemma AlgorithmInverts(a: int)
    requires I64_MIN <= a <= I64_MAX
    ensures AlgorithmOf(AlgorithmBytes(a)) == a
  {
    PowersOf256();
    BigEndianInverts(a % U64_MODULUS, 8);
  }

  lemma {:induction false} FromBigEndianBound(s: seq<byte>)
    ensures FromBigEndian(s) < Pow256(|s|)
  {
    if s != [] {
      FromBigEndianBound(s[..|s| - 1]);
    }
  }

  lemma ParsedIsRepresentable(blob: seq<byte>)
    ensures ParseCredential(blob).Some? ==> Representable(ParseCredential(blob).value)
  {
    forall s: seq<byte> | |s| == 8 ensures I64_MIN <= AlgorithmOf(s) <= I64_MAX {
      FromBigEndianBound(s);
      PowersOf256();
    }
  }

  lemma PowersOf256()
    ensures Pow256(8) == U64_MODULUS
  {
    assert Pow256(2) == 0x1_0000 && Pow256(4) == 0x1_0000_0000;
    assert Pow256(6) == 0x1_0000_0000_0000;
  }

  /** Applying a credential block recovers every byte of the key material, exactly when its parts fit 16-bit lengths. */
  lemma CredentialRoundTrip(c: Credential)
    ensures ParseCredential(CredentialBlob(c)) == Some(c) <==> Representable(c)
  {
    ParsedIsRepresentable(CredentialBlob(c));
    if Representable(c) {
      BlobParses(c);
    }
  }

  lemma {:induction false} BigEndianRebuilds(s: seq<byte>)
    ensures BigEndian(FromBigEndian(s), |s|) == s
  {
    if s != [] {
      var n := |s| - 1;
      var front, last: int := FromBigEndian(s[..n]), s[n];
      BigEndianRebuilds(s[..n]);
      assert (front * 256 + last) / 256 == front && (front * 256 + last) % 256 == last;
      assert s[..n] + [s[n]] == s;
    }
  }

  lemma AlgorithmRebuilds(s: seq<byte>)
    requires |s| == 8
    ensures AlgorithmBytes(AlgorithmOf(s)) == s
  {
    FromBigEndianBound(s);
    PowersOf256();
    BigEndianRebuilds(s);
  }

  lemma TakePartRebuilds(blob: seq<byte>)
    requires TakePart(blob).Some?
    ensures LengthPrefixed(TakePart(blob).value.0) + TakePart(blob).value.1 == blob
  {
    var len := FromBe16(blob[0], blob[1]);
    var (part, rest) := TakePart(blob).value;
    assert Be16(len) == [blob[0], blob[1]];
    assert blob == [blob[0], blob[1]] + blob[2..2 + len] + blob[2 + len..];
  }

  /** A block that parses is the block of what it parses to. */
  lemma ParsedBlobRebuilds(blob: seq<byte>)
    requires ParseCredential(blob).Some?
    ensures CredentialBlob(ParseCredential(blob).value) == blob
  {
    var r1 := TakePart(blob).value.1;
    var r2 := TakePart(r1).value.1;
    var r3 := TakePart(r2).value.1;
    var r4 := TakePart(r3).value.1;
    TakePartRebuilds(blob);
    TakePartRebuilds(r1);
    TakePartRebuilds(r2);
    TakePartRebuilds(r3);
    AlgorithmRebuilds(r4);
  }

  lemma BlobParses(c: Credential)
    requires Representable(c)
    ensures ParseCredential(CredentialBlob(c)) == Some(c)
  {
    var r4 := AlgorithmBytes(c.algorithm);
    var r3 := LengthPrefixed(c.userHandle) + r4;
    var r2 := LengthPrefixed(c.publicKeyCose) + r3;
    var r1 := LengthPrefixed(c.privateKey) + r2;
    TakePartInverts(c.credentialId, r1);
    TakePartInverts(c.privateKey, r2);
    TakePartInverts(c.publicKeyCose, r3);
    TakePartInverts(c.userHandle, r4);
    AlgorithmInverts(c.algorithm);
  }

  // ----- an entry through its keys -----

  datatype Val =
    | Text(text: string)
    | Opt(opt: Option<string>)
    | Blob(bytes: seq<byte>)
    | PairVal(pair: CustomField)
    | FileVal(name: string, kind: string, data: seq<byte>)

  /** The scalar fields an entry type has, in the order they are compared. */
  function FieldsOf(e: VaultEntry): seq<Field> {
    match e
    case Login(_, _, _, _, _, _, _, _, _, _) => [Title, Url, Username, Password, Notes, AppId, Email]
    case Note(_, _, _, _, _) => [Title, Content]
    case Identity(_, _, _, _, _, _, _, _) => [FirstName, LastName, Email, Phone, Address]
    case Card(_, _, _, _, _, _, _, _, _, _, _, _, _, _, _, _) =>
      [CardName, Status, CardholderName, CardNumber, Expiry, Cvv, CreditLimit, CardAccountNumber,
       PaymentNetwork, Pin, BankName, TransactionPassword, Notes]
    case File(_, _, _, _, _) => [Filename, Data, Notes]
    case Custom(_, _, _, _) => [Title]
    case Passkey(_, _, _, _, _, _, _) => [RpId, UserName, UserDisplayName, Notes, CredentialBlock]
  }

  function ScalarAt(e: VaultEntry, f: Field): Option<Val> {
    match e
    case Login(_, title, url, username, password, notes, _, _, appId, email) =>
      (match f
       case Title => Some(Text(title)) case Url => Some(Text(url)) case Username => Some(Text(username))
       case Password => Some(Text(password)) case Notes => Some(Opt(notes)) case AppId => Some(Opt(appId))
       case Email => Some(Opt(email)) case _ => None)
    case Note(_, title, content, _, _) =>
      (match f case Title => Some(Text(title)) case Content => Some(Text(content)) case _ => None)
    case Identity(_, firstName, lastName, mail, phone, address, _, _) =>
      (match f
       case FirstName => Some(Text(firstName)) case LastName => Some(Text(lastName)) case Email => Some(Text(mail))
       case Phone => Some(Opt(phone)) case Address => Some(Opt(address)) case _ => None)
    case Card(_, cardName, status, holder, number, expiry, cvv, limit, account, network, pin, bank, transaction,
              notes, _, _) =>
      (match f
       case CardName => Some(Opt(cardName)) case Status => Some(Text(status)) case CardholderName => Some(Text(holder))
       case CardNumber => Some(Text(number)) case Expiry => Some(Text(expiry)) case Cvv => Some(Text(cvv))
       case CreditLimit => Some(Opt(limit)) case CardAccountNumber => Some(Opt(account))
       case PaymentNetwork => Some(Opt(network)) case Pin => Some(Opt(pin)) case BankName => Some(Opt(bank))
       case TransactionPassword => Some(Opt(transaction)) case Notes => Some(Opt(notes)) case _ => None)
    case File(_, filename, data, notes, _) =>
      (match f
       case Filename => Some(Text(filename)) case Data => Some(Blob(data)) case Notes => Some(Opt(notes))
       case _ => None)
    case Custom(_, title, _, _) => (match f case Title => Some(Text(title)) case _ => None)
    case Passkey(_, rpId, userName, displayName, credential, notes, _) =>
      (match f
       case RpId => Some(Text(rpId)) case UserName => Some(Text(userName))
       case UserDisplayName => Some(Text(displayName))
       case Notes => Some(Opt(notes)) case CredentialBlock => Some(Blob(CredentialBlob(credential))) case _ => None)
  }

  function Keyed(fields: seq<CustomField>): (pairs: seq<(string, CustomField)>)
    ensures |pairs| == |fields|
    ensures forall i :: 0 <= i < |fields| ==> pairs[i] == (fields[i].caption, fields[i])
  {
    seq(|fields|, i requires 0 <= i < |fields| => (fields[i].caption, fields[i]))
  }

  /** Custom pairs under their keys: an explicit key for a Custom entry, the caption otherwise. */
  function PairsOf(e: VaultEntry): seq<(string, CustomField)> {
    if e.Custom? then e.fields else Keyed(e.customFields)
  }

  function AttachmentsOf(e: VaultEntry): seq<Attachment> {
    if e.File? || e.Passkey? then [] else e.attachments
  }

  /** What a hash map collected from the list holds under `key`: the last one wins. */
  function PairAt(pairs: seq<(string, CustomField)>, key: string): Option<CustomField> {
    if pairs == [] then None
    else if pairs[|pairs| - 1].0 == key then Some(pairs[|pairs| - 1].1)
    else PairAt(pairs[..|pairs| - 1], key)
  }

  function AttachmentAt(atts: seq<Attachment>, uuid: string): Option<Attachment> {
    if atts == [] then None
    else if atts[|atts| - 1].uuid == uuid then Some(atts[|atts| - 1])
    else AttachmentAt(atts[..|atts| - 1], uuid)
  }

  /** The value an entry has under a key, if it has that field or item. */
  function At(e: VaultEntry, k: Key): Option<Val> {
    match k
    case Scalar(f) => ScalarAt(e, f)
    case Pair(caption) =>
      (match PairAt(PairsOf(e), caption) case Some(p) => Some(PairVal(p)) case None => None)
    case Attach(uuid) =>
      (match AttachmentAt(AttachmentsOf(e), uuid)
       case Some(a) => Some(FileVal(a.name, a.kind, a.data))
       case None => None)
  }

  /** Pair keys and attachment ids are distinct within an entry. */
  ghost predicate DistinctItems(e: VaultEntry) {
    && (forall i, j :: 0 <= i < j < |PairsOf(e)| ==> PairsOf(e)[i].0 != PairsOf(e)[j].0)
    && (forall i, j :: 0 <= i < j < |AttachmentsOf(e)| ==> AttachmentsOf(e)[i].uuid != AttachmentsOf(e)[j].uuid)
  }

  lemma {:induction false} PairAtMeaning(pairs: seq<(string, CustomField)>, key: string)
    ensures PairAt(pairs, key).Some? ==> (key, PairAt(pairs, key).value) in pairs
    ensures PairAt(pairs, key).None? <==> forall i :: 0 <= i < |pairs| ==> pairs[i].0 != key
  {
    if pairs != [] && pairs[|pairs| - 1].0 != key {
      PairAtMeaning(pairs[..|pairs| - 1], key);
    }
  }

  lemma {:induction false} AttachmentAtMeaning(atts: seq<Attachment>, uuid: string)
    ensures AttachmentAt(atts, uuid).Some? ==>
              AttachmentAt(atts, uuid).value in atts && AttachmentAt(atts, uuid).value.uuid == uuid
    ensures AttachmentAt(atts, uuid).None? <==> forall i :: 0 <= i < |atts| ==> atts[i].uuid != uuid
  {
    if atts != [] && atts[|atts| - 1].uuid != uuid {
      AttachmentAtMeaning(atts[..|atts| - 1], uuid);
    }
  }

  lemma {:induction false} DistinctPairAt(pairs: seq<(string, CustomField)>, i: nat)
    requires i < |pairs| && forall a, b :: 0 <= a < b < |pairs| ==> pairs[a].0 != pairs[b].0
    ensures PairAt(pairs, pairs[i].0) == Some(pairs[i].1)
    decreases |pairs|
  {
    if i < |pairs| - 1 {
      DistinctPairAt(pairs[..|pairs| - 1], i);
    }
  }

  lemma {:induction false} DistinctAttachmentAt(atts: seq<Attachment>, i: nat)
    requires i < |atts| && forall a, b :: 0 <= a < b < |atts| ==> atts[a].uuid != atts[b].uuid
    ensures AttachmentAt(atts, atts[i].uuid) == Some(atts[i])
    decreases |atts|
  {
    if i < |atts| - 1 {
      DistinctAttachmentAt(atts[..|atts| - 1], i);
    }
  }

  lemma CardFieldsAreAll(e: VaultEntry, f: Field)
    requires e.Card? && ScalarAt(e, f).Some?
    ensures f in FieldsOf(e)
  {
    var fields := FieldsOf(e);
    match f
    case CardName => assert fields[0] == f;
    case Status => assert fields[1] == f;
    case CardholderName => assert fields[2] == f;
    case CardNumber => assert fields[3] == f;
    case Expiry => assert fields[4] == f;
    case Cvv => assert fields[5] == f;
    case CreditLimit => assert fields[6] == f;
    case CardAccountNumber => assert fields[7] == f;
    case PaymentNetwork => assert fields[8] == f;
    case Pin => assert fields[9] == f;
    case BankName => assert fields[10] == f;
    case TransactionPassword => assert fields[11] == f;
    case Notes => assert fields[12] == f;
  }

  lemma LoginFieldsAreAll(e: VaultEntry, f: Field)
    requires e.Login? && ScalarAt(e, f).Some?
    ensures f in FieldsOf(e)
  {
    var fields := FieldsOf(e);
    match f
    case Title => assert fields[0] == f;
    case Url => assert fields[1] == f;
    case Username => assert fields[2] == f;
    case Password => assert fields[3] == f;
    case Notes => assert fields[4] == f;
    case AppId => assert fields[5] == f;
    case Email => assert fields[6] == f;
  }

  /** The listed fields have values. */
  lemma ListedFieldHasValue(e: VaultEntry, i: nat)
    requires i < |FieldsOf(e)|
    ensures ScalarAt(e, FieldsOf(e)[i]).Some?
  {
  }

  lemma FieldHasPlace(e: VaultEntry, f: Field)
    requires ScalarAt(e, f).Some?
    ensures f in FieldsOf(e)
  {
    if e.Card? {
      CardFieldsAreAll(e, f);
    } else if e.Login? {
      LoginFieldsAreAll(e, f);
    }
  }

  lemma FieldsAreAll(e: VaultEntry, f: Field)
    ensures ScalarAt(e, f).Some? <==> f in FieldsOf(e)
  {
    if f in FieldsOf(e) {
      var i :| 0 <= i < |FieldsOf(e)| && FieldsOf(e)[i] == f;
      ListedFieldHasValue(e, i);
    } else if ScalarAt(e, f).Some? {
      FieldHasPlace(e, f);
    }
  }

  // ----- item keys and differences -----

  function ItemKeys(e: VaultEntry): set<Key> {
    (set p | p in PairsOf(e) :: Pair(p.0)) + (set a | a in AttachmentsOf(e) :: Attach(a.uuid))
  }

  /** An item key is on an entry exactly when the entry has a value there. */
  lemma ItemKeysMeaning(e: VaultEntry, k: Key)
    ensures k in ItemKeys(e) <==> !k.Scalar? && At(e, k).Some?
  {
    match k
    case Scalar(_) =>
    case Pair(caption) =>
      PairAtMeaning(PairsOf(e), caption);
    case Attach(uuid) =>
      AttachmentAtMeaning(AttachmentsOf(e), uuid);
  }

  function ChangedScalars(was: VaultEntry, now: VaultEntry, fields: seq<Field>): seq<Key> {
    if fields == [] then []
    else (if ScalarAt(was, fields[0]) != ScalarAt(now, fields[0]) then [Scalar(fields[0])] else [])
         + ChangedScalars(was, now, fields[1..])
  }

  function ChangedPairs(was: seq<(string, CustomField)>, now: seq<(string, CustomField)>): seq<Key> {
    if now == [] then []
    else (if PairAt(was, now[0].0) == Some(now[0].1) then [] else [Pair(now[0].0)]) + ChangedPairs(was, now[1..])
  }

  predicate SameContent(a: Option<Attachment>, b: Attachment) {
    a.Some? && a.value.name == b.name && a.value.kind == b.kind && a.value.data == b.data
  }

  function ChangedAttachments(was: seq<Attachment>, now: seq<Attachment>): seq<Key> {
    if now == [] then []
    else (if SameContent(AttachmentAt(was, now[0].uuid), now[0]) then [] else [Attach(now[0].uuid)])
         + ChangedAttachments(was, now[1..])
  }

  function ChangedFieldKeys(was: VaultEntry, now: VaultEntry): seq<Key> {
    if !SameType(was, now) then []
    else ChangedScalars(was, now, FieldsOf(now)) + ChangedPairs(PairsOf(was), PairsOf(now))
         + ChangedAttachments(AttachmentsOf(was), AttachmentsOf(now))
  }

  lemma {:induction false} ChangedScalarsMeaning(was: VaultEntry, now: VaultEntry, fields: seq<Field>, k: Key)
    ensures k in ChangedScalars(was, now, fields)
            <==> k.Scalar? && k.f in fields && ScalarAt(was, k.f) != ScalarAt(now, k.f)
    decreases |fields|
  {
    if fields != [] {
      ChangedScalarsMeaning(was, now, fields[1..], k);
    }
  }

  lemma {:induction false} ChangedPairsMeaning(was: seq<(string, CustomField)>, now: seq<(string, CustomField)>, k: Key)
    ensures k in ChangedPairs(was, now)
            <==> k.Pair? && exists i :: 0 <= i < |now| && now[i].0 == k.caption
                                        && PairAt(was, k.caption) != Some(now[i].1)
    decreases |now|
  {
    if now != [] {
      ChangedPairsMeaning(was, now[1..], k);
      assert forall i :: 0 < i < |now| ==> now[i] == now[1..][i - 1];
      if k.Pair? && k in ChangedPairs(was, now[1..]) {
        var i :| 0 <= i < |now[1..]| && now[1..][i].0 == k.caption && PairAt(was, k.caption) != Some(now[1..][i].1);
        assert now[i + 1] == now[1..][i];
      }
    }
  }

  lemma {:induction false} ChangedAttachmentsMeaning(was: seq<Attachment>, now: seq<Attachment>, k: Key)
    ensures k in ChangedAttachments(was, now)
            <==> k.Attach? && exists i :: 0 <= i < |now| && now[i].uuid == k.uuid
                                          && !SameContent(AttachmentAt(was, k.uuid), now[i])
    decreases |now|
  {
    if now != [] {
      ChangedAttachmentsMeaning(was, now[1..], k);
      assert forall i :: 0 < i < |now| ==> now[i] == now[1..][i - 1];
      if k.Attach? && k in ChangedAttachments(was, now[1..]) {
        var i :| 0 <= i < |now[1..]| && now[1..][i].uuid == k.uuid
                 && !SameContent(AttachmentAt(was, k.uuid), now[1..][i]);
        assert now[i + 1] == now[1..][i];
      }
    }
  }

  /**
   The changed keys are exactly the keys present in the new entry whose value is not the old
   entry's: added or altered scalars, pairs and attachments; removals are not among them.
   */
  lemma ChangedFieldKeysMeaning(was: VaultEntry, now: VaultEntry, k: Key)
    requires SameType(was, now) && DistinctItems(now)
    ensures k in ChangedFieldKeys(was, now) <==> At(now, k).Some? && At(was, k) != At(now, k)
  {
    match k
    case Scalar(f) => ChangedScalarKey(was, now, f);
    case Pair(caption) => ChangedPairKey(was, now, caption);
    case Attach(uuid) => ChangedAttachmentKey(was, now, uuid);
  }

  lemma ChangedScalarKey(was: VaultEntry, now: VaultEntry, f: Field)
    requires SameType(was, now)
    ensures Scalar(f) in ChangedFieldKeys(was, now)
            <==> At(now, Scalar(f)).Some? && At(was, Scalar(f)) != At(now, Scalar(f))
  {
    ChangedKeysByKind(was, now, Scalar(f));
  }

  lemma ChangedPairKey(was: VaultEntry, now: VaultEntry, caption: string)
    requires SameType(was, now) && DistinctItems(now)
    ensures Pair(caption) in ChangedFieldKeys(was, now)
            <==> At(now, Pair(caption)).Some? && At(was, Pair(caption)) != At(now, Pair(caption))
  {
    ChangedKeysByKind(was, now, Pair(caption));
    PairChange(PairsOf(was), PairsOf(now), caption);
  }

  lemma ChangedAttachmentKey(was: VaultEntry, now: VaultEntry, uuid: string)
    requires SameType(was, now) && DistinctItems(now)
    ensures Attach(uuid) in ChangedFieldKeys(was, now)
            <==> At(now, Attach(uuid)).Some? && At(was, Attach(uuid)) != At(now, Attach(uuid))
  {
    ChangedKeysByKind(was, now, Attach(uuid));
    AttachmentChange(AttachmentsOf(was), AttachmentsOf(now), uuid);
  }

  lemma SameTypeSameFields(a: VaultEntry, b: VaultEntry, f: Field)
    requires SameType(a, b)
    ensures ScalarAt(a, f).Some? <==> ScalarAt(b, f).Some?
  {
    FieldsAreAll(a, f);
    FieldsAreAll(b, f);
    assert FieldsOf(a) == FieldsOf(b);
  }

  lemma ChangedKeysByKind(was: VaultEntry, now: VaultEntry, k: Key)
    requires SameType(was, now)
    ensures k in ChangedFieldKeys(was, now) <==>
            match k
            case Scalar(f) => ScalarAt(now, f).Some? && ScalarAt(was, f) != ScalarAt(now, f)
            case Pair(caption) =>
              exists i :: 0 <= i < |PairsOf(now)| && PairsOf(now)[i].0 == caption
                          && PairAt(PairsOf(was), caption) != Some(PairsOf(now)[i].1)
            case Attach(uuid) =>
              exists i :: 0 <= i < |AttachmentsOf(now)| && AttachmentsOf(now)[i].uuid == uuid
                          && !SameContent(AttachmentAt(AttachmentsOf(was), uuid), AttachmentsOf(now)[i])
  {
    ChangedScalarsMeaning(was, now, FieldsOf(now), k);
    ChangedPairsMeaning(PairsOf(was), PairsOf(now), k);
    ChangedAttachmentsMeaning(AttachmentsOf(was), AttachmentsOf(now), k);
    if k.Scalar? {
      FieldsAreAll(now, k.f);
    }
  }

  lemma PairChange(was: seq<(string, CustomField)>, now: seq<(string, CustomField)>, caption: string)
    requires forall i, j :: 0 <= i < j < |now| ==> now[i].0 != now[j].0
    ensures (exists i :: 0 <= i < |now| && now[i].0 == caption && PairAt(was, caption) != Some(now[i].1))
            <==> PairAt(now, caption).Some? && PairAt(was, caption) != PairAt(now, caption)
  {
    PairAtMeaning(now, caption);
    forall i | 0 <= i < |now| && now[i].0 == caption ensures PairAt(now, caption) == Some(now[i].1) {
      DistinctPairAt(now, i);
    }
  }

  lemma AttachmentChange(was: seq<Attachment>, now: seq<Attachment>, uuid: string)
    requires forall i, j :: 0 <= i < j < |now| ==> now[i].uuid != now[j].uuid
    ensures (exists i :: 0 <= i < |now| && now[i].uuid == uuid && !SameContent(AttachmentAt(was, uuid), now[i]))
            <==> AttachmentAt(now, uuid).Some? && !SameContent(AttachmentAt(was, uuid), AttachmentAt(now, uuid).value)
  {
    AttachmentAtMeaning(now, uuid);
    forall i | 0 <= i < |now| && now[i].uuid == uuid ensures AttachmentAt(now, uuid) == Some(now[i]) {
      DistinctAttachmentAt(now, i);
    }
  }
}
