/** Which string names which field of which entry type. */
module KeyTables {
  import opened Basics
  import opened FieldKeys
  import opened Entries
  import opened EntryPatch

  /** The value an entry shows under a key string. */
  function Under(e: VaultEntry, key: string): Option<Val> {
    match ParseKey(key) case Some(k) => At(e, k) case None => None
  }

  lemma ByName(e: VaultEntry, f: Field)
    ensures Under(e, Name(f)) == ScalarAt(e, f)
  {
    KeyRoundTrip(Scalar(f));
  }

  lemma LoginKeys(e: VaultEntry)
    requires e.Login?
    ensures Under(e, "title") == Some(Text(e.title))
    ensures Under(e, "url") == Some(Text(e.url))
    ensures Under(e, "username") == Some(Text(e.username))
    ensures Under(e, "password") == Some(Text(e.password))
    ensures Under(e, "notes") == Some(Opt(e.notes))
    ensures Under(e, "app_id") == Some(Opt(e.appId))
    ensures Under(e, "email") == Some(Opt(e.email))
  {
    ByName(e, Title);
    ByName(e, Url);
    ByName(e, Username);
    ByName(e, Password);
    ByName(e, Notes);
    ByName(e, AppId);
    ByName(e, Email);
  }

  lemma NoteKeys(e: VaultEntry)
    requires e.Note?
    ensures Under(e, "title") == Some(Text(e.title))
    ensures Under(e, "content") == Some(Text(e.content))
  {
    ByName(e, Title);
    ByName(e, Content);
  }

  lemma IdentityKeys(e: VaultEntry)
    requires e.Identity?
    ensures Under(e, "first_name") == Some(Text(e.firstName))
    ensures Under(e, "last_name") == Some(Text(e.lastName))
    ensures Under(e, "email") == Some(Text(e.mail))
    ensures Under(e, "phone") == Some(Opt(e.phone))
    ensures Under(e, "address") == Some(Opt(e.address))
  {
    ByName(e, FirstName);
    ByName(e, LastName);
    ByName(e, Email);
    ByName(e, Phone);
    ByName(e, Address);
  }

  lemma CardKeys(e: VaultEntry)
    requires e.Card?
    ensures Under(e, "card_name") == Some(Opt(e.cardName))
    ensures Under(e, "status") == Some(Text(e.status))
    ensures Under(e, "cardholder_name") == Some(Text(e.cardholderName))
    ensures Under(e, "credit_limit") == Some(Opt(e.creditLimit))
  {
    ByName(e, CardName);
    ByName(e, Status);
    ByName(e, CardholderName);
    ByName(e, CreditLimit);
  }

  lemma CardSecretKeys(e: VaultEntry)
    requires e.Card?
    ensures Under(e, "card_number") == Some(Text(e.cardNumber))
    ensures Under(e, "expiry") == Some(Text(e.expiry))
    ensures Under(e, "cvv") == Some(Text(e.cvv))
    ensures Under(e, "pin") == Some(Opt(e.pin))
  {
    ByName(e, CardNumber);
    ByName(e, Expiry);
    ByName(e, Cvv);
    ByName(e, Pin);
  }

  lemma CardAccountKeys(e: VaultEntry)
    requires e.Card?
    ensures Under(e, "card_account_number") == Some(Opt(e.cardAccountNumber))
    ensures Under(e, "payment_network") == Some(Opt(e.paymentNetwork))
  {
    ByName(e, CardAccountNumber);
    ByName(e, PaymentNetwork);
  }

  lemma CardBankKeys(e: VaultEntry)
    requires e.Card?
    ensures Under(e, "bank_name") == Some(Opt(e.bankName))
    ensures Under(e, "transaction_password") == Some(Opt(e.transactionPassword))
  {
    ByName(e, BankName);
    ByName(e, TransactionPassword);
  }

  lemma CardNotesKey(e: VaultEntry)
    requires e.Card?
    ensures Under(e, "notes") == Some(Opt(e.notes))
  {
    ByName(e, Notes);
  }

  lemma FileKeys(e: VaultEntry)
    requires e.File?
    ensures Under(e, "filename") == Some(Text(e.filename))
    ensures Under(e, "notes") == Some(Opt(e.notes))
    ensures Under(e, "data") == Some(Blob(e.data))
  {
    ByName(e, Filename);
    ByName(e, Notes);
    ByName(e, Data);
  }

  lemma CustomKeys(e: VaultEntry)
    requires e.Custom?
    ensures Under(e, "title") == Some(Text(e.title))
  {
    ByName(e, Title);
  }

  lemma PasskeyKeys(e: VaultEntry)
    requires e.Passkey?
    ensures Under(e, "rp_id") == Some(Text(e.rpId))
    ensures Under(e, "user_name") == Some(Text(e.userName))
    ensures Under(e, "user_display_name") == Some(Text(e.userDisplayName))
    ensures Under(e, "notes") == Some(Opt(e.notes))
  {
    ByName(e, RpId);
    ByName(e, UserName);
    ByName(e, UserDisplayName);
    ByName(e, Notes);
  }

  /** What is written to a passkey's key material: the block the text decodes to, as a whole. */
  function Rekeyed(e: VaultEntry, k: Option<Credential>): VaultEntry
    requires e.Passkey?
  {
    if k.Some? then e.(credential := k.value) else e
  }

  lemma CredentialWritten(c: Codec, e: VaultEntry, v: string)
    requires e.Passkey?
    ensures SetScalar(c, e, CredentialBlock, v) == Rekeyed(e, DecodeCredential(c, v))
  {
  }

  /** The text of a passkey's key material replaces it as a whole, and text that does not decode changes nothing. */
  lemma CredentialKey(c: Codec, e: VaultEntry, key: string, k: Credential, v: string)
    requires e.Passkey? && key == "credential"
    ensures c.decode(v).None? ==> SetFieldByKey(c, e, key, v) == e
    ensures Representable(k) && c.decode(v) == Some(CredentialBlob(k)) ==>
              SetFieldByKey(c, e, key, v) == Rekeyed(e, Some(k))
  {
    WriteByName(c, e, CredentialBlock, v);
    CredentialWritten(c, e, v);
    CredentialDecodes(c, k, v);
  }

  lemma CredentialDecodes(c: Codec, k: Credential, v: string)
    ensures c.decode(v).None? ==> DecodeCredential(c, v).None?
    ensures Representable(k) && c.decode(v) == Some(CredentialBlob(k)) ==> DecodeCredential(c, v) == Some(k)
  {
    CredentialRoundTrip(k);
  }

  lemma WriteByName(c: Codec, e: VaultEntry, f: Field, v: string)
    ensures SetFieldByKey(c, e, Name(f), v) == SetScalar(c, e, f, v)
  {
    KeyRoundTrip(Scalar(f));
  }

  /** Pairs and attachments under their strings; no value can be written to an attachment. */
  lemma ItemKeys(c: Codec, e: VaultEntry, name: string, v: string)
    ensures Under(e, "custom_fields:" + name) == At(e, Pair(name))
    ensures Under(e, "attachments:" + name) == At(e, Attach(name))
    ensures SetFieldByKey(c, e, "attachments:" + name, v) == e
    ensures RemoveItemByKey(e, "attachments:" + name) == RemoveKey(e, Attach(name))
  {
    KeyRoundTrip(Pair(name));
    KeyRoundTrip(Attach(name));
  }
}
