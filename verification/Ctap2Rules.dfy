/** What each request does, stated on the decoded members of its body, code by code and field by field. */
module Ctap2Rules {
  import opened Basics
  import opened Entries
  import opened VaultSessions
  import opened Ctap2

  // ----- members of a map -----

  /** The first member with this key has this value. */
  ghost predicate FirstMember(m: Members, key: Cbor, v: Cbor) {
    exists i :: 0 <= i < |m| && m[i] == (key, v) && forall j :: 0 <= j < i ==> m[j].0 != key
  }

  lemma {:induction false} IntKeyMeaning(m: Members, key: int, v: Cbor)
    ensures IntKey(m, key) == Some(v) <==> FirstMember(m, Number(key), v)
    ensures IntKey(m, key).None? <==> forall i :: 0 <= i < |m| ==> m[i].0 != Number(key)
    decreases |m|
  {
    if m != [] {
      IntKeyMeaning(m[1..], key, v);
      FirstMemberStep(m, Number(key), v);
      assert forall i :: 0 < i < |m| ==> m[i] == m[1..][i - 1];
    }
  }

  lemma {:induction false} TextKeyMeaning(m: Members, key: string, v: Cbor)
    ensures TextKey(m, key) == Some(v) <==> FirstMember(m, Str(key), v)
    ensures TextKey(m, key).None? <==> forall i :: 0 <= i < |m| ==> m[i].0 != Str(key)
    decreases |m|
  {
    if m != [] {
      TextKeyMeaning(m[1..], key, v);
      FirstMemberStep(m, Str(key), v);
      assert forall i :: 0 < i < |m| ==> m[i] == m[1..][i - 1];
    }
  }

  lemma FirstMemberStep(m: Members, key: Cbor, v: Cbor)
    requires m != []
    ensures FirstMember(m, key, v) <==> if m[0].0 == key then m[0].1 == v else FirstMember(m[1..], key, v)
  {
    var tail := m[1..];
    if m[0].0 == key {
      assert m[0].1 == v ==> m[0] == (key, v);
    } else {
      if FirstMember(tail, key, v) {
        var i :| 0 <= i < |tail| && tail[i] == (key, v) && forall j :: 0 <= j < i ==> tail[j].0 != key;
        assert m[i + 1] == (key, v);
        forall j | 0 <= j < i + 1 ensures m[j].0 != key {
          assert j > 0 ==> m[j] == tail[j - 1];
        }
      }
      if FirstMember(m, key, v) {
        var i :| 0 <= i < |m| && m[i] == (key, v) && forall j :: 0 <= j < i ==> m[j].0 != key;
        assert i > 0 && tail[i - 1] == (key, v);
        forall j | 0 <= j < i - 1 ensures tail[j].0 != key {
          assert tail[j] == m[j + 1];
        }
      }
    }
  }

  // ----- sign-in -----

  /** The body is a map, with these members. */
  ghost predicate Decodes(env: Env, body: seq<byte>, m: Members) {
    env.decode(body) == Some(Dict(m))
  }

  /** The options carry `up: false`. */
  ghost predicate AsksSilently(m: Members) {
    exists o :: IntKey(m, 5) == Some(Dict(o)) && TextKey(o, "up") == Some(Bool(false))
  }

  /** A descriptor in the list carries this credential id. */
  ghost predicate NamedIn(list: seq<Cbor>, id: seq<byte>) {
    exists i, j :: 0 <= i < |list| && list[i].Dict? && 0 <= j < |list[i].members|
                   && list[i].members[j] == (Str("id"), Bytes(id))
  }

  lemma NamedInMeaning(list: seq<Cbor>, id: seq<byte>)
    ensures Lists(list, id) <==> NamedIn(list, id)
  {
  }

  /** An account of the site, named in the allowList if that is a non-empty array. */
  ghost predicate MayAnswer(m: Members, site: string, e: VaultEntry) {
    && e.Passkey? && e.rpId == site
    && (forall list :: IntKey(m, 3) == Some(Array(list)) && list != [] ==> NamedIn(list, e.credential.credentialId))
  }

  lemma EligibleMeaning(env: Env, body: seq<byte>, m: Members, site: string, e: VaultEntry)
    requires Decodes(env, body, m)
    ensures Eligible(env, body, site, e) <==> MayAnswer(m, site, e)
  {
    if e.Passkey? {
      NamedInMeaning(AllowList(env, body), e.credential.credentialId);
    }
  }

  /** The site and the hash a sign-in must carry. */
  ghost predicate SignInFor(m: Members, site: string, hash: seq<byte>) {
    IntKey(m, 1) == Some(Str(site)) && IntKey(m, 2) == Some(Bytes(hash))
  }

  /** The accounts offered for a sign-in: those that may answer, and at least one. */
  ghost predicate Offered(m: Members, site: string, entries: seq<VaultEntry>, es: seq<VaultEntry>) {
    && es != [] && forall e :: e in es <==> e in entries && MayAnswer(m, site, e)
  }

  /** Why a sign-in is refused before anyone is asked: each code for exactly its reason. */
  lemma SignInRefusals(env: Env, s: Session, body: seq<byte>)
    ensures var r := AssertionMatches(env, s, body);
            && (s.Locked? ==> r == Err(0x27))
            && (s.Unlocked? && (forall m :: !Decodes(env, body, m)) ==> r == Err(0x12))
            && (forall m :: s.Unlocked? && Decodes(env, body, m) ==>
                  && ((forall site, hash :: !SignInFor(m, site, hash)) ==> r == Err(0x14))
                  && (forall site, hash :: SignInFor(m, site, hash) ==>
                        if exists e :: e in s.entries && MayAnswer(m, site, e)
                        then r.Ok? && r.value.0 == site && Offered(m, site, s.entries, r.value.1)
                        else r == Err(0x2e)))
  {
    var r := AssertionMatches(env, s, body);
    if s.Locked? {
    } else if Request(env, body).None? {
      forall m ensures !Decodes(env, body, m) {
      }
    } else {
      var m := Request(env, body).value;
      assert Decodes(env, body, m);
      forall site, hash | SignInFor(m, site, hash)
        ensures if exists e :: e in s.entries && MayAnswer(m, site, e)
                then r.Ok? && r.value.0 == site && Offered(m, site, s.entries, r.value.1)
                else r == Err(0x2e)
      {
        SignInOutcome(env, s, body, m, site, hash);
      }
      if forall site, hash :: !SignInFor(m, site, hash) {
        NoSiteOrHash(env, s, body, m);
      }
    }
  }

  lemma NoSiteOrHash(env: Env, s: Session, body: seq<byte>, m: Members)
    requires s.Unlocked? && Decodes(env, body, m) && forall site, hash :: !SignInFor(m, site, hash)
    ensures AssertionMatches(env, s, body) == Err(0x14)
  {
    var site, hash := IntKey(m, 1), IntKey(m, 2);
    if site.Some? && site.value.Str? && hash.Some? && hash.value.Bytes? {
      assert SignInFor(m, site.value.text, hash.value.bytes);
    }
  }

  lemma SignInOutcome(env: Env, s: Session, body: seq<byte>, m: Members, site: string, hash: seq<byte>)
    requires s.Unlocked? && Decodes(env, body, m) && SignInFor(m, site, hash)
    ensures var r := AssertionMatches(env, s, body);
            if exists e :: e in s.entries && MayAnswer(m, site, e)
            then r.Ok? && r.value.0 == site && Offered(m, site, s.entries, r.value.1)
            else r == Err(0x2e)
  {
    var es := Candidates(env, s.entries, body, site);
    forall e ensures e in es <==> e in s.entries && MayAnswer(m, site, e) {
      EligibleMeaning(env, body, m, site, e);
    }
    if es != [] {
      assert es[0] in es;
    }
  }

  /**
   A sign-in that some account may answer is answered without asking exactly when its options
   carry `up: false`: signed by the first such account, without claiming presence, if the
   allowList is a non-empty array, and refused otherwise. Anything else asks the user.
   */
  lemma DescribeSignIn(env: Env, s: Session, body: seq<byte>, m: Members, site: string, hash: seq<byte>)
    requires s.Unlocked? && Decodes(env, body, m) && SignInFor(m, site, hash)
    requires exists e :: e in s.entries && MayAnswer(m, site, e)
    ensures var es, plan := AssertionMatches(env, s, body).value.1, Describe(env, s, [0x02] + body);
            && AssertionMatches(env, s, body).Ok? && es != [] && es[0].Passkey?
            && (plan.Respond? <==> AsksSilently(m))
            && (!AsksSilently(m) ==>
                  plan.site == site && !plan.isCreate && |plan.accounts| == |es|
                  && forall i :: 0 <= i < |es| ==> es[i].Passkey? && plan.accounts[i] == es[i].userName)
            && (AsksSilently(m) ==>
                  plan.response == if exists list :: IntKey(m, 3) == Some(Array(list)) && list != []
                                   then SignedBy(env, es[0], false, hash) else Status(0x2e))
  {
    SignInOutcome(env, s, body, m, site, hash);
    var es := AssertionMatches(env, s, body).value.1;
    assert es[0] in es;
    assert ([0x02] + body)[1..] == body;
    assert forall i :: 0 <= i < |es| ==> es[i] in es;
    SilentMeaning(env, body, m);
    assert ClientHash(env, body) == hash;
  }

  lemma SilentMeaning(env: Env, body: seq<byte>, m: Members)
    requires Decodes(env, body, m)
    ensures UpOptionIsFalse(env, body) <==> AsksSilently(m)
    ensures AllowList(env, body) != [] <==> exists list :: IntKey(m, 3) == Some(Array(list)) && list != []
  {
  }

  /** A signature by this very account, or a refusal if its key is not one the signer accepts. */
  function SignedBy(env: Env, e: VaultEntry, present: bool, hash: seq<byte>): Response {
    if e.Passkey? && env.usable(e.credential.privateKey) then Assertion(e.credential, e.rpId, present, hash)
    else Status(0x27)
  }

  /** A whole sign-in: shown the accounts `names` of the entries `es`, what each answer of the user leads to. */
  lemma HandleSignIn(
    env: Env, s: Session, body: seq<byte>, m: Members, site: string, hash: seq<byte>, es: seq<VaultEntry>,
    names: seq<string>, c: Consent, mint: Mint)
    requires s.Unlocked? && UniqueIds(s.entries) && Decodes(env, body, m) && SignInFor(m, site, hash)
    requires AssertionMatches(env, s, body) == Ok((site, es))
    requires Describe(env, s, [0x02] + body) == Ask(false, site, names)
    ensures var r := HandleRequest(env, s, Step([0x02] + body, c, mint));
            && r.0 == s && |names| == |es| > 0
            && (|names| == 1 ==>
                  r.1 == if c.signIn(site, names[0]) then SignedBy(env, es[0], true, hash) else Status(0x27))
            && (|names| > 1 ==>
                  r.1 == match c.choose(site, names)
                         case None => Status(0x27)
                         case Some(i) => if i < |es| then SignedBy(env, es[i], true, hash) else Status(0x2e))
  {
    var payload := [0x02] + body;
    assert payload[1..] == body && ClientHash(env, body) == hash;
    var answer := Approved(c, false, site, names);
    if answer.Some? {
      PerformSignsTheListedAccount(env, s, mint, payload, answer.value);
    }
  }

  /** The other commands: getInfo is answered at once, anything else is refused with 0x01. */
  lemma OtherCommands(env: Env, s: Session, payload: seq<byte>, c: Consent, mint: Mint)
    requires payload == [] || (payload[0] != 0x01 && payload[0] != 0x02)
    ensures HandleRequest(env, s, Step(payload, c, mint))
            == (s, if payload != [] && payload[0] == 0x04 then Info else Status(0x01))
  {
  }

  // ----- registration -----

  /** What a registration must carry: site, user name, user handle, and ES256 among the algorithms. */
  ghost predicate Registers(m: Members, site: string, user: string, handle: seq<byte>, fields: Members) {
    && (exists rp :: IntKey(m, 2) == Some(Dict(rp)) && TextKey(rp, "id") == Some(Str(site)))
    && IntKey(m, 3) == Some(Dict(fields))
    && TextKey(fields, "name") == Some(Str(user)) && TextKey(fields, "id") == Some(Bytes(handle))
  }

  ghost predicate OffersEs256(m: Members) {
    exists params: seq<Cbor>, i: int, j: int ::
      && IntKey(m, 4) == Some(Array(params)) && 0 <= i < |params| && params[i].Dict?
      && 0 <= j < |params[i].members| && params[i].members[j] == (Str("alg"), Number(-7))
  }

  ghost predicate HasAlgorithms(m: Members) {
    exists params :: IntKey(m, 4) == Some(Array(params))
  }

  /** The name shown for a user: the display name if it is a text, the user name otherwise. */
  function ShownName(fields: Members, user: string): string {
    match TextKey(fields, "displayName") case Some(Str(t)) => t case _ => user
  }

  /** Why a registration is refused before anyone is asked, and what it asks otherwise. */
  lemma RegistrationParses(env: Env, s: Session, body: seq<byte>, m: Members, site: string, user: string,
                           handle: seq<byte>, fields: Members)
    requires s.Unlocked? && Decodes(env, body, m) && Registers(m, site, user, handle, fields) && HasAlgorithms(m)
    ensures ParseCreate(env, s, body)
            == if OffersEs256(m) then Ok(CreateFields(site, user, ShownName(fields, user), handle, m)) else Err(0x26)
    ensures Describe(env, s, [0x01] + body) == if OffersEs256(m) then Ask(true, site, [user]) else Respond(Status(0x26))
  {
    assert ([0x01] + body)[1..] == body;
    var rp :| IntKey(m, 2) == Some(Dict(rp)) && TextKey(rp, "id") == Some(Str(site));
    var params :| IntKey(m, 4) == Some(Array(params));
    Es256Meaning(m, params);
  }

  lemma Es256Meaning(m: Members, params: seq<Cbor>)
    requires IntKey(m, 4) == Some(Array(params))
    ensures AcceptsEs256(params) <==> OffersEs256(m)
  {
    if AcceptsEs256(params) {
      var i :| 0 <= i < |params| && params[i].Dict?
               && exists j :: 0 <= j < |params[i].members| && params[i].members[j] == (Str("alg"), Number(ES256));
      var j :| 0 <= j < |params[i].members| && params[i].members[j] == (Str("alg"), Number(ES256));
    }
  }

  lemma RegistrationRefusals(env: Env, s: Session, body: seq<byte>)
    ensures s.Locked? ==> ParseCreate(env, s, body) == Err(0x27)
    ensures s.Unlocked? && (forall m :: !Decodes(env, body, m)) ==> ParseCreate(env, s, body) == Err(0x12)
    ensures forall m :: s.Unlocked? && Decodes(env, body, m)
                        && (|| (forall site, user, handle, fields :: !Registers(m, site, user, handle, fields))
                            || !HasAlgorithms(m))
                        ==> ParseCreate(env, s, body) == Err(0x14)
  {
    if s.Unlocked? && Request(env, body).Some? {
      var m := Request(env, body).value;
      assert Decodes(env, body, m);
      if ParseCreate(env, s, body) != Err(0x14) {
        IncompleteOtherwise(env, s, body, m);
      }
    }
  }

  lemma IncompleteOtherwise(env: Env, s: Session, body: seq<byte>, m: Members)
    requires s.Unlocked? && Decodes(env, body, m) && ParseCreate(env, s, body) != Err(0x14)
    ensures HasAlgorithms(m) && exists site, user, handle, fields :: Registers(m, site, user, handle, fields)
  {
    var rp, fields := IntKey(m, 2).value.members, IntKey(m, 3).value.members;
    assert IntKey(m, 2) == Some(Dict(rp)) && IntKey(m, 4) == Some(Array(IntKey(m, 4).value.items));
    var site, user := TextField(rp, "id").value, TextField(fields, "name").value;
    assert TextKey(rp, "id") == Some(Str(site));
    assert Registers(m, site, user, TextKey(fields, "id").value.bytes, fields);
  }

  /** The excludeList names a credential this vault holds for the site. */
  ghost predicate Forbidden(m: Members, site: string, entries: seq<VaultEntry>) {
    exists list, e :: IntKey(m, 5) == Some(Array(list)) && e in entries && e.Passkey? && e.rpId == site
                      && NamedIn(list, e.credential.credentialId)
  }

  lemma ExcludedMeaning(entries: seq<VaultEntry>, c: CreateFields)
    ensures Excluded(entries, c) <==> Forbidden(c.raw, c.rpId, entries)
  {
    PasskeysForRpMeaning(entries, c.rpId);
    var ours := PasskeysForRp(entries, c.rpId);
    forall list: seq<Cbor>, e: VaultEntry | e.Passkey?
      ensures Allowed(list, e) <==> NamedIn(list, e.credential.credentialId)
    {
      NamedInMeaning(list, e.credential.credentialId);
    }
    if Forbidden(c.raw, c.rpId, entries) {
      var list, e :| IntKey(c.raw, 5) == Some(Array(list)) && e in entries && e.Passkey? && e.rpId == c.rpId
                     && NamedIn(list, e.credential.credentialId);
      assert e in ours;
      var i :| 0 <= i < |ours| && ours[i] == e;
    }
    if Excluded(entries, c) {
      var list := IntKey(c.raw, 5).value.items;
      var i :| 0 <= i < |ours| && Allowed(list, ours[i]);
      assert ours[i] in ours;
    }
  }

  /** The passkey a registration stores, field by field from the request and the mint. */
  ghost predicate Stored(e: VaultEntry, site: string, user: string, shown: string, handle: seq<byte>, mint: Mint) {
    && e.Passkey? && e.rpId == site && e.userName == user && e.userDisplayName == shown
    && e.meta.id == mint.id && e.meta.createdAt == mint.stamp && e.meta.updatedAt == mint.stamp
    && e.meta.folder == "" && e.meta.fieldTimes == map[] && e.meta.history == []
    && e.credential.credentialId == mint.credentialId && e.credential.privateKey == mint.privateKey
    && e.credential.publicKeyCose == mint.publicKeyCose && e.credential.userHandle == handle
    && e.credential.algorithm == -7 && e.notes == None && e.customFields == []
  }

  /**
   A whole registration: a refusal by the user or the excludeList leaves the vault alone;
   otherwise it gains exactly the passkey described, and the answer says whether it was saved.
   */
  lemma HandleRegistration(
    env: Env, s: Session, body: seq<byte>, m: Members, site: string, user: string, handle: seq<byte>, fields: Members,
    c: Consent, mint: Mint)
    requires s.Unlocked? && Decodes(env, body, m) && Registers(m, site, user, handle, fields) && HasAlgorithms(m)
    requires OffersEs256(m)
    ensures var r := HandleRequest(env, s, Step([0x01] + body, c, mint));
            && (!c.create(site, user) ==> r == (s, Status(0x27)))
            && (c.create(site, user) && Forbidden(m, site, s.entries) ==> r == (s, Status(0x19)))
            && (c.create(site, user) && !Forbidden(m, site, s.entries) ==>
                  && r.0.Unlocked? && |r.0.entries| == |s.entries| + 1 && s.entries <= r.0.entries
                  && Stored(r.0.entries[|s.entries|], site, user, ShownName(fields, user), handle, mint)
                  && r.1 == (if mint.saveOk then Registered(site, mint.credentialId, mint.publicKeyCose)
                             else Status(0x27)))
  {
    assert ([0x01] + body)[1..] == body;
    RegistrationParses(env, s, body, m, site, user, handle, fields);
    ExcludedMeaning(s.entries, ParseCreate(env, s, body).value);
  }
}
