/** Syncing twice with the same version: the second merge returns the very entry the first one made. */
module MergeStability {
  import opened Basics
  import opened TextOrder
  import opened Retention
  import opened FieldKeys
  import opened Entries
  import opened EntryUpdate
  import opened EntryPatch
  import opened EntryMerge

  // ----- key order -----

  ghost predicate Ordered(names: seq<string>) {
    forall a, b :: 0 <= a < b < |names| ==> !Before(names[b], names[a])
  }

  lemma {:induction false} InsertKeepsOrder(name: string, sorted: seq<string>)
    requires Ordered(sorted)
    ensures Ordered(Insert(name, sorted))
    decreases |sorted|
  {
    if sorted == [] || Before(name, sorted[0]) {
      forall j | 0 <= j < |sorted| ensures !Before(sorted[j], name) {
        if Before(sorted[j], name) {
          BeforeIsTransitive(sorted[j], name, sorted[0]);
          BeforeIsAsymmetric(sorted[j], sorted[0]);
        }
      }
    } else {
      var rest := Insert(name, sorted[1..]);
      InsertKeepsOrder(name, sorted[1..]);
      InsertMeaning(name, sorted[1..]);
      forall j | 0 <= j < |rest| ensures !Before(rest[j], sorted[0]) {
        assert rest[j] in rest;
        if rest[j] != name {
          var b :| 0 <= b < |sorted[1..]| && sorted[1..][b] == rest[j];
          assert sorted[b + 1] == rest[j];
        }
      }
    }
  }

  /** Keys come out in order. */
  lemma {:induction false} SortOrders(names: seq<string>)
    ensures Ordered(Sort(names))
    decreases |names|
  {
    if names != [] {
      SortOrders(names[..|names| - 1]);
      InsertKeepsOrder(names[|names| - 1], Sort(names[..|names| - 1]));
    }
  }

  lemma {:induction false} InsertLast(name: string, sorted: seq<string>)
    requires forall j :: 0 <= j < |sorted| ==> !Before(name, sorted[j])
    ensures Insert(name, sorted) == sorted + [name]
    decreases |sorted|
  {
    if sorted != [] {
      InsertLast(name, sorted[1..]);
      assert [sorted[0]] + sorted[1..] == sorted;
    }
  }

  lemma {:induction false} SortFixesOrdered(names: seq<string>)
    requires Ordered(names)
    ensures Sort(names) == names
    decreases |names|
  {
    if names != [] {
      var n := |names| - 1;
      SortFixesOrdered(names[..n]);
      InsertLast(names[n], names[..n]);
      assert names[..n] + [names[n]] == names;
    }
  }

  lemma {:induction false} FirstsAbsorbs(keys: seq<string>, names: seq<string>)
    requires Distinct(keys) && forall s :: s in names ==> s in keys
    ensures Firsts(keys + names) == keys
    decreases |keys| + |names|
  {
    if names != [] {
      var n := |names| - 1;
      assert (keys + names)[..|keys| + n] == keys + names[..n];
      FirstsAbsorbs(keys, names[..n]);
    } else if keys != [] {
      var n := |keys| - 1;
      assert keys + names == keys && keys[..n] + [] == keys[..n];
      FirstsAbsorbs(keys[..n], []);
      assert keys[..n] + [keys[n]] == keys;
    }
  }

  // ----- the second merge decides for the first one's result, everywhere -----

  lemma SecondMergeKeeps(l: VaultEntry, i: VaultEntry, k: Key)
    requires SameType(l, i)
    ensures var m := MergeEntry(l, i);
            && (At(i, k).Some? ==> At(m, k).Some?)
            && (At(m, k).Some? && At(i, k).Some? ==> Rule(Seen(m, k), Seen(i, k)).side.Mine?)
            && MergedTime(m, i, k) == MergedTime(l, i, k)
  {
    MergedSeen(l, i, k);
    Stable(Seen(l, k), Seen(i, k), Seen(MergeEntry(l, i), k));
  }

  // ----- scalars -----

  ghost predicate DecidesForMine(m: VaultEntry, i: VaultEntry) {
    forall f :: ScalarAt(m, f).Some? ==>
                  DecideAt(m.meta, i.meta, Scalar(f), ScalarAt(m, f) == ScalarAt(i, f)).side.Mine?
  }

  lemma CardPicksMine(m: VaultEntry, i: VaultEntry)
    requires m.Card? && i.Card? && DecidesForMine(m, i)
    ensures MergeCardScalars(m, i) == m
  {
    CardTextsStay(m, i);
    CardOptionsStay(m, i);
  }

  lemma CardTextsStay(m: VaultEntry, i: VaultEntry)
    requires m.Card? && i.Card? && DecidesForMine(m, i)
    ensures Pick(m, i, Status, m.status, i.status) == m.status
    ensures Pick(m, i, CardholderName, m.cardholderName, i.cardholderName) == m.cardholderName
    ensures Pick(m, i, CardNumber, m.cardNumber, i.cardNumber) == m.cardNumber
    ensures Pick(m, i, Expiry, m.expiry, i.expiry) == m.expiry
    ensures Pick(m, i, Cvv, m.cvv, i.cvv) == m.cvv
  {
    PickIsMine(m, i, Status, m.status, i.status);
    PickIsMine(m, i, CardholderName, m.cardholderName, i.cardholderName);
    PickIsMine(m, i, CardNumber, m.cardNumber, i.cardNumber);
    PickIsMine(m, i, Expiry, m.expiry, i.expiry);
    PickIsMine(m, i, Cvv, m.cvv, i.cvv);
  }

  lemma CardOptionsStay(m: VaultEntry, i: VaultEntry)
    requires m.Card? && i.Card? && DecidesForMine(m, i)
    ensures Pick(m, i, CardName, m.cardName, i.cardName) == m.cardName
    ensures Pick(m, i, CreditLimit, m.creditLimit, i.creditLimit) == m.creditLimit
    ensures Pick(m, i, CardAccountNumber, m.cardAccountNumber, i.cardAccountNumber) == m.cardAccountNumber
    ensures Pick(m, i, PaymentNetwork, m.paymentNetwork, i.paymentNetwork) == m.paymentNetwork
    ensures Pick(m, i, Pin, m.pin, i.pin) == m.pin
    ensures Pick(m, i, BankName, m.bankName, i.bankName) == m.bankName
    ensures Pick(m, i, TransactionPassword, m.transactionPassword, i.transactionPassword) == m.transactionPassword
    ensures Pick(m, i, Notes, m.notes, i.notes) == m.notes
  {
    PickIsMine(m, i, CardName, m.cardName, i.cardName);
    PickIsMine(m, i, CreditLimit, m.creditLimit, i.creditLimit);
    PickIsMine(m, i, CardAccountNumber, m.cardAccountNumber, i.cardAccountNumber);
    PickIsMine(m, i, PaymentNetwork, m.paymentNetwork, i.paymentNetwork);
    PickIsMine(m, i, Pin, m.pin, i.pin);
    PickIsMine(m, i, BankName, m.bankName, i.bankName);
    PickIsMine(m, i, TransactionPassword, m.transactionPassword, i.transactionPassword);
    PickIsMine(m, i, Notes, m.notes, i.notes);
  }

  lemma PickIsMine<T>(m: VaultEntry, i: VaultEntry, f: Field, mine: T, theirs: T)
    requires DecidesForMine(m, i) && ScalarAt(m, f).Some?
    requires mine == theirs <==> ScalarAt(m, f) == ScalarAt(i, f)
    ensures Pick(m, i, f, mine, theirs) == mine
  {
  }

  lemma LoginPicksMine(m: VaultEntry, i: VaultEntry)
    requires m.Login? && i.Login? && DecidesForMine(m, i)
    ensures MergeScalars(m, i) == m
  {
    PickIsMine(m, i, Title, m.title, i.title);
    PickIsMine(m, i, Url, m.url, i.url);
    PickIsMine(m, i, Username, m.username, i.username);
    PickIsMine(m, i, Password, m.password, i.password);
    PickIsMine(m, i, Notes, m.notes, i.notes);
    PickIsMine(m, i, AppId, m.appId, i.appId);
    PickIsMine(m, i, Email, m.email, i.email);
  }

  lemma IdentityPicksMine(m: VaultEntry, i: VaultEntry)
    requires m.Identity? && i.Identity? && DecidesForMine(m, i)
    ensures MergeScalars(m, i) == m
  {
    PickIsMine(m, i, FirstName, m.firstName, i.firstName);
    PickIsMine(m, i, LastName, m.lastName, i.lastName);
    PickIsMine(m, i, Email, m.mail, i.mail);
    PickIsMine(m, i, Phone, m.phone, i.phone);
    PickIsMine(m, i, Address, m.address, i.address);
  }

  lemma PasskeyPicksMine(m: VaultEntry, i: VaultEntry)
    requires m.Passkey? && i.Passkey? && DecidesForMine(m, i)
    ensures MergeScalars(m, i) == m
  {
    PickIsMine(m, i, RpId, m.rpId, i.rpId);
    PickIsMine(m, i, UserName, m.userName, i.userName);
    PickIsMine(m, i, UserDisplayName, m.userDisplayName, i.userDisplayName);
    PickIsMine(m, i, Notes, m.notes, i.notes);
    assert ScalarAt(m, CredentialBlock) == ScalarAt(i, CredentialBlock)
           <==> CredentialBlob(m.credential) == CredentialBlob(i.credential);
  }

  lemma SmallPicksMine(m: VaultEntry, i: VaultEntry)
    requires (m.Note? && i.Note?) || (m.File? && i.File?) || (m.Custom? && i.Custom?)
    requires DecidesForMine(m, i)
    ensures MergeScalars(m, i) == m
  {
    match m
    case Note(_, title, content, _, _) =>
      PickIsMine(m, i, Title, title, i.title);
      PickIsMine(m, i, Content, content, i.content);
    case File(_, filename, data, notes, _) =>
      PickIsMine(m, i, Filename, filename, i.filename);
      PickIsMine(m, i, Data, data, i.data);
      PickIsMine(m, i, Notes, notes, i.notes);
    case Custom(_, title, _, _) => PickIsMine(m, i, Title, title, i.title);
  }

  lemma ScalarsStay(m: VaultEntry, i: VaultEntry)
    requires SameType(m, i) && DecidesForMine(m, i)
    ensures MergeScalars(m, i) == m
  {
    if m.Card? {
      CardPicksMine(m, i);
    } else if m.Login? {
      LoginPicksMine(m, i);
    } else if m.Identity? {
      IdentityPicksMine(m, i);
    } else if m.Passkey? {
      PasskeyPicksMine(m, i);
    } else {
      SmallPicksMine(m, i);
    }
  }

  // ----- items -----

  lemma {:induction false} PairsForOwnKeys(m: VaultEntry, i: VaultEntry, pairs: seq<(string, CustomField)>)
    requires forall j :: 0 <= j < |pairs| ==> ChosenPair(m, i, pairs[j].0) == Some(pairs[j].1)
    ensures PairsFor(m, i, PairKeys(pairs)) == pairs
    decreases |pairs|
  {
    if pairs != [] {
      var n := |pairs| - 1;
      var before := pairs[..n];
      assert pairs == before + [pairs[n]];
      PairsForOwnKeys(m, i, before);
      OwnKeysStep(m, i, before, pairs[n]);
    }
  }

  lemma OwnKeysStep(m: VaultEntry, i: VaultEntry, pairs: seq<(string, CustomField)>, p: (string, CustomField))
    requires PairsFor(m, i, PairKeys(pairs)) == pairs && ChosenPair(m, i, p.0) == Some(p.1)
    ensures PairsFor(m, i, PairKeys(pairs + [p])) == pairs + [p]
  {
    PairKeysSnoc(pairs, p);
    PairsForSnoc(m, i, PairKeys(pairs), p.0);
  }

  lemma PairKeysSnoc(pairs: seq<(string, CustomField)>, p: (string, CustomField))
    ensures PairKeys(pairs + [p]) == PairKeys(pairs) + [p.0]
  {
  }

  lemma {:induction false} AttachmentsForOwnKeys(m: VaultEntry, i: VaultEntry, atts: seq<Attachment>)
    requires forall j :: 0 <= j < |atts| ==> ChosenAttachment(m, i, atts[j].uuid) == Some(atts[j])
    ensures AttachmentsFor(m, i, Uuids(atts)) == atts
    decreases |atts|
  {
    if atts != [] {
      var n := |atts| - 1;
      AttachmentsForOwnKeys(m, i, atts[..n]);
      UuidsSnoc(atts[..n], atts[n]);
      assert atts[..n] + [atts[n]] == atts;
      AttachmentsForSnoc(m, i, Uuids(atts[..n]), atts[n].uuid);
    }
  }

  lemma UuidsSnoc(atts: seq<Attachment>, a: Attachment)
    ensures Uuids(atts + [a]) == Uuids(atts) + [a.uuid]
  {
  }

  ghost predicate AllChosen(l: VaultEntry, i: VaultEntry, keys: seq<string>) {
    forall n :: 0 <= n < |keys| ==> ChosenPair(l, i, keys[n]).Some?
  }

  lemma {:induction false} KeysOfPairsFor(l: VaultEntry, i: VaultEntry, keys: seq<string>)
    requires AllChosen(l, i, keys)
    ensures PairKeys(PairsFor(l, i, keys)) == keys
    decreases |keys|
  {
    if keys != [] {
      var n := |keys| - 1;
      KeysOfPairsFor(l, i, keys[..n]);
      KeysOfOneMore(l, i, keys[..n], keys[n]);
      assert keys[..n] + [keys[n]] == keys;
    }
  }

  lemma KeysOfOneMore(l: VaultEntry, i: VaultEntry, keys: seq<string>, key: string)
    requires PairKeys(PairsFor(l, i, keys)) == keys && ChosenPair(l, i, key).Some?
    ensures PairKeys(PairsFor(l, i, keys + [key])) == keys + [key]
  {
    PairsForSnoc(l, i, keys, key);
    PairKeysSnoc(PairsFor(l, i, keys), (key, ChosenPair(l, i, key).value));
  }

  /** A Custom entry's merged keys are in order. */
  lemma MergedKeysOrdered(l: VaultEntry, i: VaultEntry)
    requires l.Custom? && i.Custom?
    ensures Ordered(PairKeys(MergedPairs(l, i)))
  {
    var names := PairKeys(PairsOf(l)) + PairKeys(PairsOf(i));
    var keys := Sort(Firsts(names));
    FirstsMeaning(names);
    SortMeaning(Firsts(names));
    SortOrders(Firsts(names));
    forall n | 0 <= n < |keys| ensures ChosenPair(l, i, keys[n]).Some? {
      assert keys[n] in keys;
      PairKeysMeaning(PairsOf(l), keys[n]);
      PairKeysMeaning(PairsOf(i), keys[n]);
    }
    KeysOfPairsFor(l, i, keys);
  }

  /** The names of a list that are not among `keys`, in order. */
  function NotAmong(names: seq<string>, keys: seq<string>): seq<string> {
    if names == [] then []
    else
      var n := |names| - 1;
      NotAmong(names[..n], keys) + if names[n] in keys then [] else [names[n]]
  }

  lemma {:induction false} NotAmongMembers(names: seq<string>, keys: seq<string>)
    ensures forall s :: s in NotAmong(names, keys) <==> s in names && s !in keys
    decreases |names|
  {
    if names != [] {
      var n := |names| - 1;
      NotAmongMembers(names[..n], keys);
      assert forall s :: s in names <==> s in names[..n] || s == names[n];
    }
  }

  lemma {:induction false} FirstsStartWith(keys: seq<string>, names: seq<string>)
    requires Distinct(keys) && Distinct(names)
    ensures Firsts(keys + names) == keys + NotAmong(names, keys)
    decreases |names|
  {
    if names == [] {
      FirstsAbsorbs(keys, []);
      assert keys + [] == keys;
    } else {
      var n := |names| - 1;
      var before := names[..n];
      assert names == before + [names[n]];
      FirstsStartWith(keys, before);
      FirstsGoOn(keys, before, names[n]);
    }
  }

  lemma FirstsGoOn(keys: seq<string>, names: seq<string>, s: string)
    requires Firsts(keys + names) == keys + NotAmong(names, keys) && s !in names
    ensures Firsts(keys + (names + [s])) == keys + NotAmong(names + [s], keys)
  {
    var rest := NotAmong(names, keys);
    NotAmongMembers(names, keys);
    NotAmongNext(names, keys, s);
    OneMoreName(keys + names, s);
    Joining(keys, names, rest, s);
  }

  lemma NotAmongNext(names: seq<string>, keys: seq<string>, s: string)
    ensures NotAmong(names + [s], keys) == NotAmong(names, keys) + if s in keys then [] else [s]
  {
    assert (names + [s])[..|names|] == names;
  }

  lemma Joining(keys: seq<string>, names: seq<string>, rest: seq<string>, s: string)
    ensures keys + (names + [s]) == (keys + names) + [s] && (keys + rest) + [s] == keys + (rest + [s])
    ensures (keys + rest) + [] == keys + (rest + []) && (s in keys + rest <==> s in keys || s in rest)
  {
  }

  lemma OneMoreName(names: seq<string>, s: string)
    ensures Firsts(names + [s]) == Firsts(names) + if s in Firsts(names) then [] else [s]
  {
    assert (names + [s])[..|names|] == names;
  }

  lemma KeysDistinct(pairs: seq<(string, CustomField)>)
    requires DistinctPairs(pairs)
    ensures Distinct(PairKeys(pairs))
  {
  }

  /** Local pairs come first and the incoming new ones follow, both in order; a Custom entry's are sorted instead. */
  lemma LocalPairsFirst(l: VaultEntry, i: VaultEntry)
    requires SameType(l, i) && !l.Custom? && DistinctItems(l) && DistinctItems(i)
    ensures var mine, theirs := PairKeys(PairsOf(l)), PairKeys(PairsOf(i));
            PairKeys(PairsOf(MergeEntry(l, i))) == mine + NotAmong(theirs, mine)
  {
    var names := PairKeys(PairsOf(l)) + PairKeys(PairsOf(i));
    var keys := Firsts(names);
    KeysDistinct(PairsOf(l));
    KeysDistinct(PairsOf(i));
    FirstsStartWith(PairKeys(PairsOf(l)), PairKeys(PairsOf(i)));
    FirstsMeaning(names);
    forall n | 0 <= n < |keys| ensures ChosenPair(l, i, keys[n]).Some? {
      assert keys[n] in keys;
      PairKeysMeaning(PairsOf(l), keys[n]);
      PairKeysMeaning(PairsOf(i), keys[n]);
    }
    KeysOfPairsFor(l, i, keys);
    MergeItems(l, i);
  }

  /** Likewise for attachments. */
  lemma LocalAttachmentsFirst(l: VaultEntry, i: VaultEntry)
    requires SameType(l, i) && DistinctItems(l) && DistinctItems(i)
    ensures var mine, theirs := Uuids(AttachmentsOf(l)), Uuids(AttachmentsOf(i));
            Uuids(AttachmentsOf(MergeEntry(l, i))) == mine + NotAmong(theirs, mine)
  {
    MergeItems(l, i);
    if !l.File? && !l.Passkey? {
      var mine, theirs := Uuids(AttachmentsOf(l)), Uuids(AttachmentsOf(i));
      FirstsStartWith(mine, theirs);
      FirstsMeaning(mine + theirs);
      UuidsOfFor(l, i, Firsts(mine + theirs));
    }
  }

  lemma {:induction false} UuidsOfFor(l: VaultEntry, i: VaultEntry, keys: seq<string>)
    requires forall n :: 0 <= n < |keys| ==> keys[n] in Uuids(AttachmentsOf(l)) + Uuids(AttachmentsOf(i))
    ensures Uuids(AttachmentsFor(l, i, keys)) == keys
    decreases |keys|
  {
    if keys != [] {
      var n := |keys| - 1;
      UuidsOfFor(l, i, keys[..n]);
      UuidsMeaning(AttachmentsOf(l), keys[n]);
      UuidsMeaning(AttachmentsOf(i), keys[n]);
      assert keys[n] in Uuids(AttachmentsOf(l)) + Uuids(AttachmentsOf(i));
      ChosenAttachmentHasUuid(l, i, keys[n]);
      assert keys[..n] + [keys[n]] == keys;
      AttachmentsForSnoc(l, i, keys[..n], keys[n]);
      UuidsSnoc(AttachmentsFor(l, i, keys[..n]), ChosenAttachment(l, i, keys[n]).value);
    }
  }

  lemma OwnPairChosen(l: VaultEntry, i: VaultEntry, key: string)
    requires SameType(l, i)
    ensures var m := MergeEntry(l, i);
            && ChosenPair(m, i, key) == PairAt(PairsOf(m), key)
            && (PairAt(PairsOf(i), key).Some? ==> PairAt(PairsOf(m), key).Some?)
  {
    SecondMergeKeeps(l, i, Pair(key));
    PairChoiceIsMine(MergeEntry(l, i), i, key);
  }

  lemma PairChoiceIsMine(m: VaultEntry, i: VaultEntry, key: string)
    requires At(i, Pair(key)).Some? ==> At(m, Pair(key)).Some?
    requires At(m, Pair(key)).Some? && At(i, Pair(key)).Some? ==>
               Rule(Seen(m, Pair(key)), Seen(i, Pair(key))).side.Mine?
    ensures ChosenPair(m, i, key) == PairAt(PairsOf(m), key)
    ensures PairAt(PairsOf(i), key).Some? ==> PairAt(PairsOf(m), key).Some?
  {
  }

  lemma AttachmentChoiceIsMine(m: VaultEntry, i: VaultEntry, uuid: string)
    requires At(i, Attach(uuid)).Some? ==> At(m, Attach(uuid)).Some?
    requires At(m, Attach(uuid)).Some? && At(i, Attach(uuid)).Some? ==>
               Rule(Seen(m, Attach(uuid)), Seen(i, Attach(uuid))).side.Mine?
    ensures ChosenAttachment(m, i, uuid) == AttachmentAt(AttachmentsOf(m), uuid)
    ensures AttachmentAt(AttachmentsOf(i), uuid).Some? ==> AttachmentAt(AttachmentsOf(m), uuid).Some?
  {
  }

  lemma PairsStay(l: VaultEntry, i: VaultEntry)
    requires SameType(l, i)
    ensures var m := MergeEntry(l, i);
            MergedPairs(m, i) == PairsOf(m)
  {
    var m := MergeEntry(l, i);
    var pairs, theirs := PairsOf(m), PairKeys(PairsOf(i));
    MergeKeepsDistinct(l, i);
    forall j | 0 <= j < |pairs| ensures ChosenPair(m, i, pairs[j].0) == Some(pairs[j].1) {
      OwnPairChosen(l, i, pairs[j].0);
      DistinctPairAt(pairs, j);
    }
    PairsForOwnKeys(m, i, pairs);
    forall s | s in theirs ensures s in PairKeys(pairs) {
      OwnPairChosen(l, i, s);
      PairKeysMeaning(PairsOf(i), s);
      PairKeysMeaning(pairs, s);
    }
    FirstsAbsorbs(PairKeys(pairs), theirs);
    if m.Custom? {
      MergeItems(l, i);
      MergedKeysOrdered(l, i);
      SortFixesOrdered(PairKeys(pairs));
    }
  }

  lemma AttachmentsStay(l: VaultEntry, i: VaultEntry)
    requires SameType(l, i)
    ensures var m := MergeEntry(l, i);
            MergedAttachments(m, i) == AttachmentsOf(m)
  {
    var m := MergeEntry(l, i);
    var atts, theirs := AttachmentsOf(m), Uuids(AttachmentsOf(i));
    MergeKeepsDistinct(l, i);
    forall j | 0 <= j < |atts| ensures ChosenAttachment(m, i, atts[j].uuid) == Some(atts[j]) {
      SecondMergeKeeps(l, i, Attach(atts[j].uuid));
      AttachmentChoiceIsMine(m, i, atts[j].uuid);
      DistinctAttachmentAt(atts, j);
    }
    AttachmentsForOwnKeys(m, i, atts);
    forall s | s in theirs ensures s in Uuids(atts) {
      SecondMergeKeeps(l, i, Attach(s));
      AttachmentChoiceIsMine(m, i, s);
      UuidsMeaning(AttachmentsOf(i), s);
      UuidsMeaning(atts, s);
    }
    FirstsAbsorbs(Uuids(atts), theirs);
  }

  // ----- times, marks and history -----

  lemma DecidedTimesStay(l: VaultEntry, i: VaultEntry)
    requires SameType(l, i)
    ensures DecidedTimes(MergeEntry(l, i), i) == DecidedTimes(l, i)
  {
    var m := MergeEntry(l, i);
    forall s ensures Get(DecidedTimes(m, i), s) == Get(DecidedTimes(l, i), s) {
      OnlyKeysDecided(l, i, s);
      OnlyKeysDecided(m, i, s);
      if ParseKey(s).Some? && Render(ParseKey(s).value) == s {
        var k := ParseKey(s).value;
        SecondMergeKeeps(l, i, k);
        DecidedTimeAt(l, i, k);
        DecidedTimeAt(m, i, k);
      }
    }
    SameGets(DecidedTimes(m, i), DecidedTimes(l, i));
  }

  lemma MarkOfMerged(l: VaultEntry, i: VaultEntry, s: string)
    requires DEL_PREFIX <= s
    ensures Get(MergedTimes(l, i), s) == MarkAt(DecidedTimes(l, i), l.meta, i.meta, s)
  {
    OnlyKeysDecided(l, i, s);
  }

  lemma MarkTwice(x: Option<nat>, y: Option<nat>, t: Option<nat>)
    ensures var m := MaxStamp(SurvivingMark(x, t), SurvivingMark(y, t));
            MaxStamp(SurvivingMark(m, t), SurvivingMark(y, t)) == m
  {
  }

  lemma TimeStaysAt(l: VaultEntry, i: VaultEntry, m: VaultEntry, s: string)
    requires m.meta.fieldTimes == MergedTimes(l, i) && DecidedTimes(m, i) == DecidedTimes(l, i)
    ensures Get(MergedTimes(m, i), s) == Get(MergedTimes(l, i), s)
  {
    if DEL_PREFIX <= s {
      MarkOfMerged(l, i, s);
      MarkOfMerged(m, i, s);
      MarkTwice(Get(l.meta.fieldTimes, s), Get(i.meta.fieldTimes, s), Get(DecidedTimes(l, i), s[|DEL_PREFIX|..]));
    } else {
      UnmarkedAt(l, i, s);
      UnmarkedAt(m, i, s);
    }
  }

  lemma UnmarkedAt(l: VaultEntry, i: VaultEntry, s: string)
    requires !(DEL_PREFIX <= s)
    ensures Get(MergedTimes(l, i), s) == Get(DecidedTimes(l, i), s)
  {
  }

  lemma TimesStay(l: VaultEntry, i: VaultEntry, m: VaultEntry)
    requires m.meta.fieldTimes == MergedTimes(l, i) && DecidedTimes(m, i) == DecidedTimes(l, i)
    ensures MergedTimes(m, i) == MergedTimes(l, i)
  {
    forall s ensures Get(MergedTimes(m, i), s) == Get(MergedTimes(l, i), s) {
      TimeStaysAt(l, i, m, s);
    }
    SameGets(MergedTimes(m, i), MergedTimes(l, i));
  }

  lemma {:induction false} UnionAbsorbs(mine: seq<HistoryRecord>, theirs: seq<HistoryRecord>)
    requires forall r :: r in theirs ==> r in mine
    ensures UnionHistory(mine, theirs) == mine
    decreases |theirs|
  {
    if theirs != [] {
      UnionAbsorbs(mine, theirs[..|theirs| - 1]);
    }
  }

  lemma MetaStays(l: VaultEntry, i: VaultEntry)
    requires SameType(l, i)
    ensures MergedMeta(MergeEntry(l, i), i) == MergeEntry(l, i).meta
  {
    var m := MergeEntry(l, i);
    assert m.meta == MergedMeta(l, i);
    DecidedTimesStay(l, i);
    TimesStay(l, i, m);
    UnionHistoryMeaning(l.meta.history, i.meta.history);
    UnionAbsorbs(m.meta.history, i.meta.history);
  }

  // ----- the whole entry -----

  lemma OwnPartsStay(m: VaultEntry)
    ensures WithPairs(m, PairsOf(m)) == m && WithAttachments(m, AttachmentsOf(m)) == m
  {
    if !m.Custom? {
      assert Unkeyed(Keyed(m.customFields)) == m.customFields;
    }
  }

  /**
   Merging the same version again returns the same entry: values, order, change times,
   deletion marks, history and stamp.
   */
  lemma MergeIsStable(l: VaultEntry, i: VaultEntry)
    requires SameType(l, i)
    ensures MergeEntry(MergeEntry(l, i), i) == MergeEntry(l, i)
  {
    var m := MergeEntry(l, i);
    MergeKeepsDistinct(l, i);
    SameTypeTransitive(m, l, i);
    forall f | ScalarAt(m, f).Some?
      ensures DecideAt(m.meta, i.meta, Scalar(f), ScalarAt(m, f) == ScalarAt(i, f)).side.Mine?
    {
      SecondMergeKeeps(l, i, Scalar(f));
      SameTypeSameFields(m, i, f);
    }
    ScalarsStay(m, i);
    PairsStay(l, i);
    AttachmentsStay(l, i);
    MetaStays(l, i);
    OwnPartsStay(m);
  }

  /** And it reports the same clashes as the first time, and nothing brought over. */
  lemma SecondMergeReports(l: VaultEntry, i: VaultEntry, k: Key)
    requires SameType(l, i)
    ensures var m := MergeEntry(l, i);
            (Clash(m, i, k) <==> Clash(l, i, k)) && !BroughtOver(m, i, k)
  {
    MergedSeen(l, i, k);
    Stable(Seen(l, k), Seen(i, k), Seen(MergeEntry(l, i), k));
  }

  // ----- merging an entry with itself -----

  /** The string of a key the entry has a value under. */
  predicate Live(e: VaultEntry, s: string) {
    ParseKey(s).Some? && Render(ParseKey(s).value) == s && At(e, ParseKey(s).value).Some?
  }

  /** Some present value changed at or after this deletion mark was set. */
  predicate Overtaken(e: VaultEntry, s: string)
    requires DEL_PREFIX <= s && s in e.meta.fieldTimes
  {
    var key := s[|DEL_PREFIX|..];
    Live(e, key) && key in e.meta.fieldTimes && e.meta.fieldTimes[key] >= e.meta.fieldTimes[s]
  }

  /** Change times only of values that are there, and no mark overtaken. */
  predicate TidyTimes(e: VaultEntry) {
    forall s :: s in e.meta.fieldTimes ==> if DEL_PREFIX <= s then !Overtaken(e, s) else Live(e, s)
  }

  /** Items distinct, a Custom entry's keys in order, and times tidy. */
  ghost predicate Tidy(e: VaultEntry) {
    DistinctItems(e) && (e.Custom? ==> Ordered(PairKeys(PairsOf(e)))) && TidyTimes(e)
  }

  lemma SelfTime(e: VaultEntry, k: Key)
    ensures MergedTime(e, e, k) == if At(e, k).Some? then Get(e.meta.fieldTimes, Render(k)) else None
  {
  }

  lemma SelfDecidedTime(e: VaultEntry, s: string)
    ensures Get(DecidedTimes(e, e), s) == if Live(e, s) then Get(e.meta.fieldTimes, s) else None
  {
    OnlyKeysDecided(e, e, s);
    if ParseKey(s).Some? && Render(ParseKey(s).value) == s {
      DecidedTimeAt(e, e, ParseKey(s).value);
      SelfTime(e, ParseKey(s).value);
    }
  }

  lemma SelfTimeAt(e: VaultEntry, s: string)
    ensures Get(MergedTimes(e, e), s) == Get(e.meta.fieldTimes, s)
            <==> (s in e.meta.fieldTimes ==> if DEL_PREFIX <= s then !Overtaken(e, s) else Live(e, s))
  {
    SelfDecidedTime(e, s);
    if DEL_PREFIX <= s {
      MarkOfMerged(e, e, s);
      SelfDecidedTime(e, s[|DEL_PREFIX|..]);
    }
  }

  lemma SelfTimesExactly(e: VaultEntry)
    ensures MergedTimes(e, e) == e.meta.fieldTimes <==> TidyTimes(e)
  {
    forall s ensures Get(MergedTimes(e, e), s) == Get(e.meta.fieldTimes, s)
                     <==> (s in e.meta.fieldTimes ==> if DEL_PREFIX <= s then !Overtaken(e, s) else Live(e, s))
    {
      SelfTimeAt(e, s);
    }
    if TidyTimes(e) {
      SameGets(MergedTimes(e, e), e.meta.fieldTimes);
    }
  }

  lemma SelfMetaExactly(e: VaultEntry)
    ensures MergedMeta(e, e) == e.meta <==> TidyTimes(e)
  {
    SelfTimesExactly(e);
    UnionAbsorbs(e.meta.history, e.meta.history);
  }

  lemma SelfScalars(e: VaultEntry)
    ensures SameType(e, e) && MergeScalars(e, e) == e
  {
    SameTypeReflexive(e);
    ScalarsStay(e, e);
  }

  lemma SelfPairsExactly(e: VaultEntry)
    ensures MergedPairs(e, e) == PairsOf(e)
            <==> DistinctPairs(PairsOf(e)) && (e.Custom? ==> Ordered(PairKeys(PairsOf(e))))
  {
    var pairs := PairsOf(e);
    SameTypeReflexive(e);
    MergedPairsAt(e, e, "");
    if e.Custom? {
      MergedKeysOrdered(e, e);
    }
    if DistinctPairs(pairs) && (e.Custom? ==> Ordered(PairKeys(pairs))) {
      forall j | 0 <= j < |pairs| ensures ChosenPair(e, e, pairs[j].0) == Some(pairs[j].1) {
        DistinctPairAt(pairs, j);
      }
      PairsForOwnKeys(e, e, pairs);
      FirstsAbsorbs(PairKeys(pairs), PairKeys(pairs));
      if e.Custom? {
        SortFixesOrdered(PairKeys(pairs));
      }
    }
  }

  lemma SelfAttachmentsExactly(e: VaultEntry)
    ensures MergedAttachments(e, e) == AttachmentsOf(e) <==> DistinctAttachments(AttachmentsOf(e))
  {
    var atts := AttachmentsOf(e);
    MergedAttachmentsAt(e, e, "");
    if DistinctAttachments(atts) {
      forall j | 0 <= j < |atts| ensures ChosenAttachment(e, e, atts[j].uuid) == Some(atts[j]) {
        DistinctAttachmentAt(atts, j);
      }
      AttachmentsForOwnKeys(e, e, atts);
      FirstsAbsorbs(Uuids(atts), Uuids(atts));
    }
  }

  lemma SelfParts(e: VaultEntry)
    ensures MergeEntry(e, e) == e
            <==> && MergedPairs(e, e) == PairsOf(e) && MergedMeta(e, e) == e.meta
                 && (e.File? || e.Passkey? || MergedAttachments(e, e) == AttachmentsOf(e))
  {
    SelfScalars(e);
    MergeItems(e, e);
    assert MergeEntry(e, e).meta == MergedMeta(e, e);
    OwnPartsStay(e);
  }

  /**
   Merging an entry with itself returns it unchanged exactly when it is tidy: items distinct, a
   Custom entry's keys in order, no change time of a value that is gone, no mark overtaken.
   */
  lemma MergeWithSelfExactly(e: VaultEntry)
    ensures MergeEntry(e, e) == e <==> Tidy(e)
  {
    SelfParts(e);
    SelfPairsExactly(e);
    SelfMetaExactly(e);
    SelfAttachmentsExactly(e);
  }

  const UNSORTED: VaultEntry :=
    Custom(Meta("c", "", "", "", map[], []), "t",
           [("b", CustomField("b", "1", false)), ("a", CustomField("a", "2", false))], [])

  /** For instance: a Custom entry whose keys are not in order changes. */
  lemma UnsortedEntryChanges()
    ensures MergeEntry(UNSORTED, UNSORTED) != UNSORTED
  {
    var keys := PairKeys(PairsOf(UNSORTED));
    assert keys[0] == "b" && keys[1] == "a" && Before("a", "b");
    MergeWithSelfExactly(UNSORTED);
  }

  /** An edit that removes a pair with a change time leaves the time behind, and the entry untidy. */
  lemma RemovedItemLeavesItsTime(e: VaultEntry, edits: seq<Edit>, k: Key)
    requires EditsFor(e, edits) && Render(k) in e.meta.fieldTimes && At(Run(e, edits), k).None?
    ensures MergeEntry(Run(e, edits), Run(e, edits)) != Run(e, edits)
  {
    var now := Run(e, edits);
    FieldTimesTrackTheRun(e, edits, k);
    assert Render(k) in now.meta.fieldTimes;
    KeyRoundTrip(k);
    NotAMark(k);
    assert !Live(now, Render(k));
    MergeWithSelfExactly(now);
  }
}
