/**
 Field keys: the strings that name an entry's fields, custom pairs and attachments in
 `field_times` and in sync decisions.
 */
module FieldKeys {
  import opened Basics

  /** Scalar fields of the seven entry types. */
  datatype Field =
    | Title | Url | Username | Password | Notes | AppId | Email | Content
    | FirstName | LastName | Phone | Address
    | CardName | Status | CardholderName | CardNumber | Expiry | Cvv | CreditLimit | CardAccountNumber
    | PaymentNetwork | Pin | BankName | TransactionPassword
    | Filename | Data
    | RpId | UserName | UserDisplayName | CredentialBlock

  /** A scalar field, a custom pair or an attachment. */
  datatype Key = Scalar(f: Field) | Pair(caption: string) | Attach(uuid: string)

  const PAIR_PREFIX := "custom_fields:"
  const ATTACH_PREFIX := "attachments:"
  const DEL_PREFIX := "del:"

  function Name(f: Field): string {
    match f
    case Title => "title" case Url => "url" case Username => "username" case Password => "password"
    case Notes => "notes" case AppId => "app_id" case Email => "email" case Content => "content"
    case FirstName => "first_name" case LastName => "last_name" case Phone => "phone" case Address => "address"
    case CardName => "card_name" case Status => "status" case CardholderName => "cardholder_name"
    case CardNumber => "card_number" case Expiry => "expiry" case Cvv => "cvv"
    case CreditLimit => "credit_limit" case CardAccountNumber => "card_account_number"
    case PaymentNetwork => "payment_network" case Pin => "pin" case BankName => "bank_name"
    case TransactionPassword => "transaction_password"
    case Filename => "filename" case Data => "data"
    case RpId => "rp_id" case UserName => "user_name" case UserDisplayName => "user_display_name"
    case CredentialBlock => "credential"
  }

  /** The key as it is written into `field_times`. */
  function Render(k: Key): string {
    match k
    case Scalar(f) => Name(f)
    case Pair(caption) => PAIR_PREFIX + caption
    case Attach(uuid) => ATTACH_PREFIX + uuid
  }

  /** The deletion mark of an item. */
  function Tombstone(k: Key): string {
    DEL_PREFIX + Render(k)
  }

  function StripPrefix(s: string, prefix: string): Option<string> {
    if prefix <= s then Some(s[|prefix|..]) else None
  }

  function FieldNamed(s: string): Option<Field> {
    match s
    case "title" => Some(Title) case "url" => Some(Url) case "username" => Some(Username)
    case "password" => Some(Password) case "notes" => Some(Notes) case "app_id" => Some(AppId)
    case "email" => Some(Email) case "content" => Some(Content) case "first_name" => Some(FirstName)
    case "last_name" => Some(LastName) case "phone" => Some(Phone) case "address" => Some(Address)
    case "card_name" => Some(CardName) case "status" => Some(Status)
    case "cardholder_name" => Some(CardholderName) case "card_number" => Some(CardNumber)
    case "expiry" => Some(Expiry) case "cvv" => Some(Cvv) case "credit_limit" => Some(CreditLimit)
    case "card_account_number" => Some(CardAccountNumber) case "payment_network" => Some(PaymentNetwork)
    case "pin" => Some(Pin) case "bank_name" => Some(BankName)
    case "transaction_password" => Some(TransactionPassword) case "filename" => Some(Filename)
    case "data" => Some(Data) case "rp_id" => Some(RpId) case "user_name" => Some(UserName)
    case "user_display_name" => Some(UserDisplayName) case "credential" => Some(CredentialBlock)
    case _ => None
  }

  /** How a key string is taken apart when a value is applied by key. */
  function ParseKey(s: string): Option<Key> {
    match StripPrefix(s, PAIR_PREFIX)
    case Some(caption) => Some(Pair(caption))
    case None =>
      match StripPrefix(s, ATTACH_PREFIX)
      case Some(uuid) => Some(Attach(uuid))
      case None =>
        match FieldNamed(s) case Some(f) => Some(Scalar(f)) case None => None
  }

  /** The fields named first in `FieldNamed`; the split keeps each case analysis small. */
  predicate Early(f: Field) {
    match f
    case Title | Url | Username | Password | Notes | AppId | Email | Content => true
    case FirstName | LastName | Phone | Address | CardName | Status | CardholderName => true
    case _ => false
  }

  lemma EarlyNames(f: Field)
    requires Early(f)
    ensures FieldNamed(Name(f)) == Some(f)
  {
  }

  lemma LateNames(f: Field)
    requires !Early(f)
    ensures FieldNamed(Name(f)) == Some(f)
  {
  }

  lemma NameRoundTrip(f: Field)
    ensures FieldNamed(Name(f)) == Some(f)
  {
    if Early(f) {
      EarlyNames(f);
    } else {
      LateNames(f);
    }
  }

  lemma EarlyNamesPlain(f: Field)
    requires Early(f)
    ensures ':' !in Name(f)
  {
  }

  lemma LateNamesPlain(f: Field)
    requires !Early(f)
    ensures ':' !in Name(f)
  {
  }

  lemma NameHasNoColon(f: Field)
    ensures ':' !in Name(f)
  {
    if Early(f) {
      EarlyNamesPlain(f);
    } else {
      LateNamesPlain(f);
    }
  }

  /** A key string names exactly one field, pair or attachment. */
  lemma KeyRoundTrip(k: Key)
    ensures ParseKey(Render(k)) == Some(k)
  {
    match k
    case Scalar(f) =>
      NameRoundTrip(f);
      NameHasNoColon(f);
      assert PAIR_PREFIX[13] == ':' && ATTACH_PREFIX[11] == ':';
    case Pair(caption) =>
      assert Render(k)[|PAIR_PREFIX|..] == caption;
    case Attach(uuid) =>
      assert Render(k)[0] == 'a' && PAIR_PREFIX[0] == 'c';
      assert Render(k)[|ATTACH_PREFIX|..] == uuid;
  }

  /** The key spaces never collide: keys determine their strings and conversely, and a deletion mark is never a key. */
  lemma KeySpacesDisjoint(k: Key, j: Key)
    ensures Render(k) == Render(j) <==> k == j
    ensures Tombstone(k) == Tombstone(j) <==> k == j
    ensures Render(k) != Tombstone(j)
  {
    KeyRoundTrip(k);
    KeyRoundTrip(j);
    assert Tombstone(k)[|DEL_PREFIX|..] == Render(k) && Tombstone(j)[|DEL_PREFIX|..] == Render(j);
    assert Tombstone(j)[3] == ':' && Tombstone(j)[0] == 'd';
    match k
    case Scalar(f) =>
      NameHasNoColon(f);
      assert Tombstone(j)[3] in Tombstone(j);
    case Pair(caption) => assert Render(k)[0] == 'c';
    case Attach(uuid) => assert Render(k)[0] == 'a';
  }
}
