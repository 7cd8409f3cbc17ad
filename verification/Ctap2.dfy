/**
 The CTAP2 consent seam (sections 6.1 and 6.2 of CTAP 2.1): describe a request, ask the user,
 perform what was approved. CBOR decoding is a parameter; a signature is an opaque value
 tagged with the key material that made it.
 */
module Ctap2 {
  import opened Basics
  import opened Entries
  import opened VaultStore
  import opened VaultSessions

  const CMD_MAKE_CREDENTIAL: byte := 0x01
  const CMD_GET_ASSERTION: byte := 0x02
  const CMD_GET_INFO: byte := 0x04
  const ERR_INVALID_COMMAND: byte := 0x01
  const ERR_INVALID_CBOR: byte := 0x12
  const ERR_MISSING_PARAMETER: byte := 0x14
  const ERR_CREDENTIAL_EXCLUDED: byte := 0x19
  const ERR_UNSUPPORTED_ALGORITHM: byte := 0x26
  const ERR_OPERATION_DENIED: byte := 0x27
  const ERR_NO_CREDENTIALS: byte := 0x2e
  const ES256: int := -7

  datatype Cbor =
    | Number(n: int)
    | Bytes(bytes: seq<byte>)
    | Str(text: string)
    | Bool(flag: bool)
    | Array(items: seq<Cbor>)
    | Dict(members: Members)
    | Other

  type Members = seq<(Cbor, Cbor)>

  /** The codec, and which private keys the signer accepts. */
  datatype Env = Env(decode: seq<byte> -> Option<Cbor>, usable: seq<byte> -> bool)

  /** What a registration draws from the outside: ids, key pair, clock, and whether the save succeeds. */
  datatype Mint = Mint(
    id: string, stamp: string, credentialId: seq<byte>, privateKey: seq<byte>, publicKeyCose: seq<byte>, saveOk: bool)

  datatype Response =
    | Status(code: byte)
    | Info
    | Registered(site: string, credentialId: seq<byte>, publicKeyCose: seq<byte>)
    | Assertion(signer: Credential, site: string, present: bool, hash: seq<byte>)

  datatype Plan = Ask(isCreate: bool, site: string, accounts: seq<string>) | Respond(response: Response)

  /** The user's answers. */
  datatype Consent = Consent(
    create: (string, string) -> bool, signIn: (string, string) -> bool, choose: (string, seq<string>) -> Option<nat>)

  // ----- reading a request -----

  function IntKey(m: Members, key: int): Option<Cbor> {
    if m == [] then None else if m[0].0 == Number(key) then Some(m[0].1) else IntKey(m[1..], key)
  }

  function TextKey(m: Members, key: string): Option<Cbor> {
    if m == [] then None else if m[0].0 == Str(key) then Some(m[0].1) else TextKey(m[1..], key)
  }

  function TextField(m: Members, key: string): Option<string> {
    match TextKey(m, key) case Some(Str(t)) => Some(t) case _ => None
  }

  function Request(env: Env, body: seq<byte>): Option<Members> {
    match env.decode(body) case Some(Dict(m)) => Some(m) case _ => None
  }

  /** A credential descriptor naming `id`. */
  predicate Names(d: Cbor, id: seq<byte>) {
    d.Dict? && exists i :: 0 <= i < |d.members| && d.members[i] == (Str("id"), Bytes(id))
  }

  predicate Lists(descriptors: seq<Cbor>, id: seq<byte>) {
    exists i :: 0 <= i < |descriptors| && Names(descriptors[i], id)
  }

  predicate AcceptsEs256(params: seq<Cbor>) {
    exists i :: 0 <= i < |params| && params[i].Dict?
                && exists j :: 0 <= j < |params[i].members| && params[i].members[j] == (Str("alg"), Number(ES256))
  }

  /** The allowList of a getAssertion; empty when there is none. */
  function AllowList(env: Env, body: seq<byte>): seq<Cbor> {
    match Request(env, body)
    case Some(m) => (match IntKey(m, 3) case Some(Array(a)) => a case _ => [])
    case None => []
  }

  predicate UpOptionIsFalse(env: Env, body: seq<byte>) {
    match Request(env, body)
    case Some(m) => (match IntKey(m, 5) case Some(Dict(o)) => TextKey(o, "up") == Some(Bool(false)) case _ => false)
    case None => false
  }

  function ClientHash(env: Env, body: seq<byte>): seq<byte> {
    match Request(env, body)
    case Some(m) => (match IntKey(m, 2) case Some(Bytes(h)) => h case _ => [])
    case None => []
  }

  /** The site a getAssertion is for. */
  function AssertionSite(env: Env, body: seq<byte>): Option<string> {
    match Request(env, body)
    case Some(m) => (match IntKey(m, 1) case Some(Str(t)) => Some(t) case _ => None)
    case None => None
  }

  // ----- makeCredential -----

  datatype CreateFields = CreateFields(
    rpId: string, userName: string, displayName: string, userHandle: seq<byte>, raw: Members)

  function ParseCreate(env: Env, s: Session, body: seq<byte>): Result<CreateFields, byte> {
    if s.Locked? then Err(ERR_OPERATION_DENIED)
    else
      match Request(env, body)
      case None => Err(ERR_INVALID_CBOR)
      case Some(req) =>
        match (IntKey(req, 2), IntKey(req, 3), IntKey(req, 4))
        case (Some(Dict(rp)), Some(Dict(user)), Some(Array(params))) =>
          (match (TextField(rp, "id"), TextField(user, "name"), TextKey(user, "id"))
           case (Some(rpId), Some(userName), Some(Bytes(handle))) =>
             if !AcceptsEs256(params) then Err(ERR_UNSUPPORTED_ALGORITHM)
             else
               var display := match TextField(user, "displayName") case Some(d) => d case None => userName;
               Ok(CreateFields(rpId, userName, display, handle, req))
           case _ => Err(ERR_MISSING_PARAMETER))
        case _ => Err(ERR_MISSING_PARAMETER)
  }

  /** The excludeList names a credential the vault already holds for this site. */
  predicate Excluded(entries: seq<VaultEntry>, c: CreateFields) {
    match IntKey(c.raw, 5)
    case Some(Array(exclude)) =>
      var ours := PasskeysForRp(entries, c.rpId);
      PasskeysForRpMeaning(entries, c.rpId);
      exists i :: 0 <= i < |ours| && Allowed(exclude, ours[i])
    case _ => false
  }

  function NewPasskey(c: CreateFields, mint: Mint): VaultEntry {
    Passkey(Meta(mint.id, mint.stamp, mint.stamp, "", map[], []), c.rpId, c.userName, c.displayName,
            Credential(mint.credentialId, mint.privateKey, mint.publicKeyCose, c.userHandle, ES256), None, [])
  }

  /** The new entry joins the session before the save: a failed save answers "denied" but keeps it in memory. */
  function PerformCreate(s: Session, c: CreateFields, mint: Mint): (Session, Response) {
    if s.Locked? then (s, Status(ERR_OPERATION_DENIED))
    else if Excluded(s.entries, c) then (s, Status(ERR_CREDENTIAL_EXCLUDED))
    else
      (Unlocked(s.entries + [NewPasskey(c, mint)]),
       if mint.saveOk then Registered(c.rpId, mint.credentialId, mint.publicKeyCose) else Status(ERR_OPERATION_DENIED))
  }

  // ----- getAssertion -----

  predicate Allowed(allow: seq<Cbor>, e: VaultEntry) {
    e.Passkey? && Lists(allow, e.credential.credentialId)
  }

  /** `retain` by the allowList. */
  function Retained(es: seq<VaultEntry>, allow: seq<Cbor>): seq<VaultEntry> {
    if es == [] then []
    else
      var n := |es| - 1;
      Retained(es[..n], allow) + if Allowed(allow, es[n]) then [es[n]] else []
  }

  lemma {:induction false} RetainedMeaning(es: seq<VaultEntry>, allow: seq<Cbor>)
    ensures forall e :: e in Retained(es, allow) <==> e in es && Allowed(allow, e)
  {
    if es != [] {
      var n := |es| - 1;
      RetainedMeaning(es[..n], allow);
      assert forall e :: e in es <==> e in es[..n] || e == es[n];
    }
  }

  /** An account that may answer a getAssertion for `site`. */
  predicate Eligible(env: Env, body: seq<byte>, site: string, e: VaultEntry) {
    && e.Passkey? && e.rpId == site
    && (AllowList(env, body) != [] ==> Allowed(AllowList(env, body), e))
  }

  function Candidates(env: Env, entries: seq<VaultEntry>, body: seq<byte>, site: string): (es: seq<VaultEntry>)
    ensures forall e :: e in es <==> e in entries && Eligible(env, body, site, e)
  {
    var ours := PasskeysForRp(entries, site);
    PasskeysForRpMeaning(entries, site);
    RetainedMeaning(ours, AllowList(env, body));
    if AllowList(env, body) == [] then ours else Retained(ours, AllowList(env, body))
  }

  /** The accounts answering a getAssertion: never none, each of the requested site and on its allowList. */
  function AssertionMatches(env: Env, s: Session, body: seq<byte>): (r: Result<(string, seq<VaultEntry>), byte>)
    ensures r.Ok? ==>
              && s.Unlocked? && AssertionSite(env, body) == Some(r.value.0) && r.value.1 != []
              && forall e :: e in r.value.1 <==> e in s.entries && Eligible(env, body, r.value.0, e)
  {
    if s.Locked? then Err(ERR_OPERATION_DENIED)
    else
      match Request(env, body)
      case None => Err(ERR_INVALID_CBOR)
      case Some(req) =>
        match (AssertionSite(env, body), IntKey(req, 2))
        case (Some(site), Some(Bytes(_))) =>
          var matches := Candidates(env, s.entries, body, site);
          if matches == [] then Err(ERR_NO_CREDENTIALS) else Ok((site, matches))
        case _ => Err(ERR_MISSING_PARAMETER)
  }

  /** Signing with a passkey's own key, claiming the user's presence or not. */
  function SignWith(env: Env, e: VaultEntry, present: bool, hash: seq<byte>): Response
    requires e.Passkey?
  {
    if env.usable(e.credential.privateKey) then Assertion(e.credential, e.rpId, present, hash)
    else Status(ERR_OPERATION_DENIED)
  }

  /** A consented signature looks its entry up again by id. */
  function PerformAssert(env: Env, s: Session, id: string, hash: seq<byte>): Response {
    if s.Locked? then Status(ERR_OPERATION_DENIED)
    else
      match Lookup(s.entries, id)
      case Some(e) => if e.Passkey? then SignWith(env, e, true, hash) else Status(ERR_OPERATION_DENIED)
      case None => Status(ERR_OPERATION_DENIED)
  }

  // ----- the seam -----

  function AccountNames(es: seq<VaultEntry>): (names: seq<string>)
    requires forall e :: e in es ==> e.Passkey?
    ensures |names| == |es| && forall i :: 0 <= i < |es| ==> names[i] == es[i].userName
  {
    seq(|es|, i requires 0 <= i < |es| => assert es[i] in es; es[i].userName)
  }

  function Describe(env: Env, s: Session, payload: seq<byte>): (plan: Plan)
    ensures plan.Ask? ==> plan.accounts != []
  {
    if payload == [] then Respond(Status(ERR_INVALID_COMMAND))
    else
      var body := payload[1..];
      if payload[0] == CMD_GET_INFO then Respond(Info)
      else if payload[0] == CMD_MAKE_CREDENTIAL then
        match ParseCreate(env, s, body)
        case Ok(c) => Ask(true, c.rpId, [c.userName])
        case Err(code) => Respond(Status(code))
      else if payload[0] == CMD_GET_ASSERTION then
        match AssertionMatches(env, s, body)
        case Err(code) => Respond(Status(code))
        case Ok((site, matches)) =>
          if !UpOptionIsFalse(env, body) then Ask(false, site, AccountNames(matches))
          else if AllowList(env, body) != [] then
            assert matches[0] in matches;
            Respond(SignWith(env, matches[0], false, ClientHash(env, body)))
          else Respond(Status(ERR_NO_CREDENTIALS))
      else Respond(Status(ERR_INVALID_COMMAND))
  }

  function PerformApproved(env: Env, s: Session, mint: Mint, payload: seq<byte>, account: nat): (Session, Response) {
    if payload == [] then (s, Status(ERR_INVALID_COMMAND))
    else
      var body := payload[1..];
      if payload[0] == CMD_MAKE_CREDENTIAL then
        match ParseCreate(env, s, body)
        case Ok(c) => PerformCreate(s, c, mint)
        case Err(code) => (s, Status(code))
      else if payload[0] == CMD_GET_ASSERTION then
        match AssertionMatches(env, s, body)
        case Err(code) => (s, Status(code))
        case Ok((_, matches)) =>
          if account < |matches| then (s, PerformAssert(env, s, matches[account].meta.id, ClientHash(env, body)))
          else (s, Status(ERR_NO_CREDENTIALS))
      else (s, Status(ERR_INVALID_COMMAND))
  }

  /** The account the user approved, if any. */
  function Approved(consent: Consent, isCreate: bool, site: string, accounts: seq<string>): Option<nat>
    requires accounts != []
  {
    if isCreate then (if consent.create(site, accounts[0]) then Some(0) else None)
    else if |accounts| == 1 then (if consent.signIn(site, accounts[0]) then Some(0) else None)
    else consent.choose(site, accounts)
  }

  datatype Step = Step(payload: seq<byte>, consent: Consent, mint: Mint)

  function HandleRequest(env: Env, s: Session, step: Step): (Session, Response) {
    match Describe(env, s, step.payload)
    case Respond(r) => (s, r)
    case Ask(isCreate, site, accounts) =>
      match Approved(step.consent, isCreate, site, accounts)
      case Some(i) => PerformApproved(env, s, step.mint, step.payload, i)
      case None => (s, Status(ERR_OPERATION_DENIED))
  }

  // ----- what an approved request does -----

  /** Performing lists the same accounts describing did, and signs with exactly the chosen one. */
  lemma PerformSignsTheListedAccount(env: Env, s: Session, mint: Mint, payload: seq<byte>, i: nat)
    requires s.Unlocked? && UniqueIds(s.entries)
    requires Describe(env, s, payload).Ask? && !Describe(env, s, payload).isCreate
    ensures var plan, r := Describe(env, s, payload), PerformApproved(env, s, mint, payload, i);
            && r.0 == s
            && (i >= |plan.accounts| ==> r.1 == Status(ERR_NO_CREDENTIALS))
            && (i < |plan.accounts| ==>
                  exists e :: && e in s.entries && Eligible(env, payload[1..], plan.site, e)
                              && e.userName == plan.accounts[i]
                              && e == AssertionMatches(env, s, payload[1..]).value.1[i]
                              && r.1 == SignWith(env, e, true, ClientHash(env, payload[1..])))
  {
    var matches := AssertionMatches(env, s, payload[1..]).value.1;
    if i < |matches| {
      assert matches[i] in matches;
      LookupFinds(s.entries, matches[i]);
    }
  }

  /**
   Whatever the vault became since the request was described, performing never signs for
   another site nor with a credential outside a non-empty allowList.
   */
  lemma PerformStaysWithinTheRequest(env: Env, s: Session, mint: Mint, payload: seq<byte>, i: nat)
    requires s.Unlocked? ==> UniqueIds(s.entries)
    ensures var r := PerformApproved(env, s, mint, payload, i).1;
            r.Assertion? ==>
              && payload != [] && AssertionSite(env, payload[1..]) == Some(r.site) && r.present
              && (AllowList(env, payload[1..]) != [] ==> Lists(AllowList(env, payload[1..]), r.signer.credentialId))
              && s.Unlocked? && exists e :: e in s.entries && e.Passkey? && e.credential == r.signer && e.rpId == r.site
  {
    var r := PerformApproved(env, s, mint, payload, i).1;
    if r.Assertion? {
      var matches := AssertionMatches(env, s, payload[1..]).value.1;
      assert matches[i] in matches;
      LookupFinds(s.entries, matches[i]);
    }
  }

  /**
   An approved create adds its entry exactly when the excludeList does not forbid it - even if
   the save then fails.
   */
  lemma CreateAddsUnlessExcluded(env: Env, s: Session, mint: Mint, payload: seq<byte>, i: nat)
    requires payload != [] && payload[0] == CMD_MAKE_CREDENTIAL && ParseCreate(env, s, payload[1..]).Ok?
    ensures var c, (s', r) := ParseCreate(env, s, payload[1..]).value, PerformApproved(env, s, mint, payload, i);
            && s.Unlocked?
            && (s' == s <==> Excluded(s.entries, c))
            && (s' != s ==> s' == Unlocked(s.entries + [NewPasskey(c, mint)]))
            && (r.Registered? <==> s' != s && mint.saveOk)
  {
    var c := ParseCreate(env, s, payload[1..]).value;
    assert |s.entries + [NewPasskey(c, mint)]| != |s.entries|;
  }

  // ----- consent over whole runs -----

  /** What the request itself asks to register. */
  ghost predicate Requests(env: Env, payload: seq<byte>, site: string, user: string) {
    && payload != [] && payload[0] == CMD_MAKE_CREDENTIAL
    && var m := Request(env, payload[1..]);
       && m.Some?
       && (exists rp :: IntKey(m.value, 2) == Some(Dict(rp)) && TextField(rp, "id") == Some(site))
       && (exists u :: IntKey(m.value, 3) == Some(Dict(u)) && TextField(u, "name") == Some(user))
  }

  /** The step in which a passkey was gained: requested by that payload and approved for that site and user. */
  ghost predicate GainedIn(env: Env, e: VaultEntry, step: Step) {
    && e.Passkey? && e.meta.id == step.mint.id
    && Requests(env, step.payload, e.rpId, e.userName)
    && step.consent.create(e.rpId, e.userName)
  }

  ghost predicate Grows(env: Env, s: Session, s': Session, step: Step) {
    s' == s || (s.Unlocked? && exists e :: s' == Unlocked(s.entries + [e]) && GainedIn(env, e, step))
  }

  lemma StepGrows(env: Env, s: Session, step: Step)
    ensures Grows(env, s, HandleRequest(env, s, step).0, step)
  {
    if step.payload != [] && step.payload[0] == CMD_MAKE_CREDENTIAL {
      var parsed := ParseCreate(env, s, step.payload[1..]);
      if && parsed.Ok? && step.consent.create(parsed.value.rpId, parsed.value.userName)
         && !Excluded(s.entries, parsed.value) {
        var e := NewPasskey(parsed.value, step.mint);
        CreateIsRequested(env, s, step.payload);
        assert GainedIn(env, e, step);
      }
    }
  }

  lemma CreateIsRequested(env: Env, s: Session, payload: seq<byte>)
    requires payload != [] && payload[0] == CMD_MAKE_CREDENTIAL && ParseCreate(env, s, payload[1..]).Ok?
    ensures var c := ParseCreate(env, s, payload[1..]).value;
            Requests(env, payload, c.rpId, c.userName)
  {
    var m := Request(env, payload[1..]).value;
    var rp, user := IntKey(m, 2).value.members, IntKey(m, 3).value.members;
    assert IntKey(m, 2) == Some(Dict(rp)) && IntKey(m, 3) == Some(Dict(user));
  }

  /** The account at `i` in the list a sign-in offers. */
  ghost predicate ListedAt(env: Env, s: Session, payload: seq<byte>, i: nat, e: VaultEntry) {
    && payload != [] && e.Passkey?
    && var matches := AssertionMatches(env, s, payload[1..]);
       matches.Ok? && i < |matches.value.1| && matches.value.1[i] == e
  }

  /** The user's own answer: yes to the only account shown, or account `i` picked from several. */
  ghost predicate SaidYes(consent: Consent, site: string, accounts: seq<string>, i: nat) {
    && i < |accounts|
    && if |accounts| == 1 then consent.signIn(site, accounts[0]) else consent.choose(site, accounts) == Some(i)
  }

  /**
   A signature the user approved: the user was shown exactly the accounts the request matches,
   chose one of them, and that very account signed for that site.
   */
  ghost predicate Consented(env: Env, s: Session, step: Step, r: Response) {
    && r.Assertion? && r.present && s.Unlocked?
    && exists accounts, i, e ::
         && accounts != [] && Describe(env, s, step.payload) == Ask(false, r.site, accounts)
         && SaidYes(step.consent, r.site, accounts, i)
         && ListedAt(env, s, step.payload, i, e)
         && accounts[i] == e.userName && e.rpId == r.site && e.credential == r.signer && e in s.entries
  }

  /**
   A sign-in for `site` whose options say `up: false` and whose allowList names this credential,
   read off the members of its body.
   */
  ghost predicate SilentRequest(env: Env, body: seq<byte>, site: string, id: seq<byte>) {
    exists m, o, list ::
      && env.decode(body) == Some(Dict(m))
      && IntKey(m, 1) == Some(Str(site))
      && IntKey(m, 3) == Some(Array(list)) && Lists(list, id)
      && IntKey(m, 5) == Some(Dict(o)) && TextKey(o, "up") == Some(Bool(false))
  }

  /** A signature without consent: presence not claimed, and the site named the credential, one of its own. */
  ghost predicate Silent(env: Env, s: Session, step: Step, r: Response) {
    && r.Assertion? && !r.present && step.payload != [] && s.Unlocked?
    && (exists e :: e in s.entries && e.Passkey? && e.rpId == r.site && e.credential == r.signer)
    && SilentRequest(env, step.payload[1..], r.site, r.signer.credentialId)
  }

  lemma SilentIsRequested(env: Env, body: seq<byte>, site: string, id: seq<byte>)
    requires UpOptionIsFalse(env, body) && Lists(AllowList(env, body), id) && AssertionSite(env, body) == Some(site)
    ensures SilentRequest(env, body, site, id)
  {
    var m := Request(env, body).value;
    var o, list := IntKey(m, 5).value.members, AllowList(env, body);
    assert env.decode(body) == Some(Dict(m)) && IntKey(m, 5) == Some(Dict(o)) && IntKey(m, 3) == Some(Array(list));
  }

  lemma StepSigns(env: Env, s: Session, step: Step)
    requires s.Unlocked? ==> UniqueIds(s.entries)
    ensures var r := HandleRequest(env, s, step).1;
            r.Assertion? ==> Consented(env, s, step, r) || Silent(env, s, step, r)
  {
    var r := HandleRequest(env, s, step).1;
    if r.Assertion? {
      var matches := AssertionMatches(env, s, step.payload[1..]).value.1;
      var plan := Describe(env, s, step.payload);
      assert matches[0] in matches;
      if plan.Ask? {
        var i := Approved(step.consent, false, plan.site, plan.accounts).value;
        PerformSignsTheListedAccount(env, s, step.mint, step.payload, i);
        assert ListedAt(env, s, step.payload, i, matches[i]) && SaidYes(step.consent, r.site, plan.accounts, i);
      } else {
        SilentIsRequested(env, step.payload[1..], r.site, r.signer.credentialId);
      }
    }
  }

  function Run(env: Env, s: Session, steps: seq<Step>): Session {
    if steps == [] then s
    else HandleRequest(env, Run(env, s, steps[..|steps| - 1]), steps[|steps| - 1]).0
  }

  /** Registrations draw ids the vault does not hold. */
  ghost predicate FreshMints(env: Env, s: Session, steps: seq<Step>) {
    forall k :: 0 <= k < |steps| && Run(env, s, steps[..k]).Unlocked? ==>
                  steps[k].mint.id !in IdSet(Run(env, s, steps[..k]).entries)
  }

  lemma AppendKeepsUnique(entries: seq<VaultEntry>, e: VaultEntry)
    requires UniqueIds(entries) && e.meta.id !in IdSet(entries)
    ensures UniqueIds(entries + [e])
  {
    forall i | 0 <= i < |entries| ensures entries[i].meta.id != e.meta.id {
      assert entries[i] in entries;
    }
  }

  lemma {:induction false} RunKeepsIdsUnique(env: Env, s: Session, steps: seq<Step>)
    requires s.Unlocked? ==> UniqueIds(s.entries)
    requires FreshMints(env, s, steps)
    ensures Run(env, s, steps).Unlocked? ==> UniqueIds(Run(env, s, steps).entries)
    decreases |steps|
  {
    if steps != [] {
      var n := |steps| - 1;
      assert forall k :: 0 <= k <= n ==> steps[..n][..k] == steps[..k];
      RunKeepsIdsUnique(env, s, steps[..n]);
      var t, t' := Run(env, s, steps[..n]), Run(env, s, steps);
      StepGrows(env, t, steps[n]);
      if t' != t {
        var e :| t' == Unlocked(t.entries + [e]) && GainedIn(env, e, steps[n]);
        AppendKeepsUnique(t.entries, e);
      }
    }
  }

  /**
   Consent safety over every run: the vault keeps all it had, and each passkey it gained was
   gained in a step of its own, which requested it and in which the user approved creating it
   for that site and user.
   */
  lemma {:induction false} RunGainsOnlyApproved(env: Env, s: Session, steps: seq<Step>) returns (gainedAt: seq<nat>)
    ensures s.Locked? ==> Run(env, s, steps).Locked? && gainedAt == []
    ensures s.Unlocked? ==>
              var t := Run(env, s, steps);
              && t.Unlocked? && s.entries <= t.entries && |t.entries| == |s.entries| + |gainedAt|
              && (forall j :: 0 <= j < |gainedAt| ==>
                                gainedAt[j] < |steps| && GainedIn(env, t.entries[|s.entries| + j], steps[gainedAt[j]]))
    ensures forall i, j :: 0 <= i < j < |gainedAt| ==> gainedAt[i] < gainedAt[j]
    decreases |steps|
  {
    gainedAt := [];
    if steps != [] {
      var n := |steps| - 1;
      gainedAt := RunGainsOnlyApproved(env, s, steps[..n]);
      var t, t' := Run(env, s, steps[..n]), Run(env, s, steps);
      StepGrows(env, t, steps[n]);
      if t' != t {
        gainedAt := gainedAt + [n];
      }
    }
  }

  /** Over every run, every signature was consented to, or was silent and for a credential the site named. */
  lemma RunSignsOnlyApproved(env: Env, s: Session, steps: seq<Step>, k: nat)
    requires s.Unlocked? ==> UniqueIds(s.entries)
    requires FreshMints(env, s, steps) && k < |steps|
    ensures var at := Run(env, s, steps[..k]);
            var r := HandleRequest(env, at, steps[k]).1;
            r.Assertion? ==> Consented(env, at, steps[k], r) || Silent(env, at, steps[k], r)
  {
    assert forall j :: 0 <= j <= k ==> steps[..k][..j] == steps[..j];
    RunKeepsIdsUnique(env, s, steps[..k]);
    StepSigns(env, Run(env, s, steps[..k]), steps[k]);
  }

  ghost predicate DeniesAll(c: Consent) {
    && (forall site, user :: !c.create(site, user) && !c.signIn(site, user))
    && (forall site, accounts :: c.choose(site, accounts).None?)
  }

  /** A run that denies everything leaves the vault unchanged. */
  lemma {:induction false} DenyingRunChangesNothing(env: Env, s: Session, steps: seq<Step>)
    requires forall k :: 0 <= k < |steps| ==> DeniesAll(steps[k].consent)
    ensures Run(env, s, steps) == s
    decreases |steps|
  {
    if steps != [] {
      var n := |steps| - 1;
      DenyingRunChangesNothing(env, s, steps[..n]);
      StepGrows(env, s, steps[n]);
    }
  }

  // ----- the vault changing between the two halves -----

  /** Describing and performing a create agree on site and user, whatever happened to the vault in between. */
  lemma CreateIsWhatWasDescribed(env: Env, s1: Session, s2: Session, mint: Mint, payload: seq<byte>, i: nat)
    requires Describe(env, s1, payload).Ask? && Describe(env, s1, payload).isCreate
    ensures var plan, s' := Describe(env, s1, payload), PerformApproved(env, s2, mint, payload, i).0;
            s' == s2
            || (s2.Unlocked? && exists e :: s' == Unlocked(s2.entries + [e]) && e.Passkey? && e.rpId == plan.site
                                            && [e.userName] == plan.accounts)
  {
    var parsed := ParseCreate(env, s2, payload[1..]);
    if parsed.Ok? && !Excluded(s2.entries, parsed.value) {
      var e := NewPasskey(parsed.value, mint);
      assert PerformApproved(env, s2, mint, payload, i).0 == Unlocked(s2.entries + [e]);
    }
  }

  lemma {:induction false} RetainedAppend(a: seq<VaultEntry>, b: seq<VaultEntry>, allow: seq<Cbor>)
    ensures Retained(a + b, allow) == Retained(a, allow) + Retained(b, allow)
    decreases |b|
  {
    if b == [] {
      assert a + b == a;
    } else {
      var n := |b| - 1;
      var last := if Allowed(allow, b[n]) then [b[n]] else [];
      assert (a + b)[..|a| + n] == a + b[..n];
      RetainedAppend(a, b[..n], allow);
      Regroup(Retained(a, allow), Retained(b[..n], allow), last);
    }
  }

  lemma CandidatesAppend(env: Env, a: seq<VaultEntry>, b: seq<VaultEntry>, body: seq<byte>, site: string)
    ensures Candidates(env, a + b, body, site) == Candidates(env, a, body, site) + Candidates(env, b, body, site)
  {
    PasskeysForRpAppend(a, b, site);
    RetainedAppend(PasskeysForRp(a, site), PasskeysForRp(b, site), AllowList(env, body));
  }

  // Between the two halves entries may be deleted and others added: what is left of `entries` is `Without`.

  /** `entries` without those whose id is in `gone`. */
  function Without(entries: seq<VaultEntry>, gone: set<string>): seq<VaultEntry> {
    if entries == [] then []
    else
      var n := |entries| - 1;
      Without(entries[..n], gone) + if entries[n].meta.id in gone then [] else [entries[n]]
  }

  lemma {:induction false} WithoutAppend(a: seq<VaultEntry>, b: seq<VaultEntry>, gone: set<string>)
    ensures Without(a + b, gone) == Without(a, gone) + Without(b, gone)
    decreases |b|
  {
    if b == [] {
      assert a + b == a;
    } else {
      var n := |b| - 1;
      var last := if b[n].meta.id in gone then [] else [b[n]];
      assert (a + b)[..|a| + n] == a + b[..n];
      WithoutAppend(a, b[..n], gone);
      Regroup(Without(a, gone), Without(b[..n], gone), last);
    }
  }

  lemma WithoutOne(e: VaultEntry, gone: set<string>)
    ensures Without([e], gone) == if e.meta.id in gone then [] else [e]
  {
    assert [e][..0] == [];
  }

  /** The accounts offered after a deletion are those offered before it, without the deleted ones. */
  lemma {:induction false} CandidatesWithout(
    env: Env, entries: seq<VaultEntry>, gone: set<string>, body: seq<byte>, site: string)
    ensures Candidates(env, Without(entries, gone), body, site) == Without(Candidates(env, entries, body, site), gone)
    decreases |entries|
  {
    if entries == [] {
      NoneWithout(env, gone, body, site);
    } else {
      var n := |entries| - 1;
      assert entries == entries[..n] + [entries[n]];
      CandidatesWithout(env, entries[..n], gone, body, site);
      OneMoreWithout(env, entries[..n], entries[n], gone, body, site);
    }
  }

  lemma NoneWithout(env: Env, gone: set<string>, body: seq<byte>, site: string)
    ensures Candidates(env, Without([], gone), body, site) == Without(Candidates(env, [], body, site), gone)
  {
  }

  lemma OneMoreWithout(
    env: Env, entries: seq<VaultEntry>, e: VaultEntry, gone: set<string>, body: seq<byte>, site: string)
    requires Candidates(env, Without(entries, gone), body, site) == Without(Candidates(env, entries, body, site), gone)
    ensures Candidates(env, Without(entries + [e], gone), body, site)
            == Without(Candidates(env, entries + [e], body, site), gone)
  {
    var left, last := Without(entries, gone), Without([e], gone);
    var all, one := Candidates(env, entries, body, site), Candidates(env, [e], body, site);
    WithoutAppend(entries, [e], gone);
    CandidatesAppend(env, left, last, body, site);
    CandidatesAppend(env, entries, [e], body, site);
    WithoutAppend(all, one, gone);
    OneWithout(env, e, gone, body, site);
  }

  lemma OneWithout(env: Env, e: VaultEntry, gone: set<string>, body: seq<byte>, site: string)
    ensures Candidates(env, Without([e], gone), body, site) == Without(Candidates(env, [e], body, site), gone)
  {
    WithoutOne(e, gone);
    CandidatesOfOne(env, e, body, site);
    assert Without([], gone) == [] && PasskeysForRp([], site) == [] && Retained([], AllowList(env, body)) == [];
  }

  predicate NoneGone(es: seq<VaultEntry>, gone: set<string>) {
    forall j :: 0 <= j < |es| ==> es[j].meta.id !in gone
  }

  /** Nothing up to and including place `i` was deleted. */
  predicate UntouchedThrough(es: seq<VaultEntry>, gone: set<string>, i: nat)
    requires i < |es|
  {
    NoneGone(es[..i + 1], gone)
  }

  lemma NoneGoneSnoc(es: seq<VaultEntry>, e: VaultEntry, gone: set<string>)
    ensures NoneGone(es + [e], gone) <==> NoneGone(es, gone) && e.meta.id !in gone
  {
    var all := es + [e];
    assert all[|es|] == e && forall j :: 0 <= j < |es| ==> all[j] == es[j];
  }

  lemma {:induction false} WithoutShorter(es: seq<VaultEntry>, gone: set<string>)
    ensures |Without(es, gone)| <= |es|
    ensures |Without(es, gone)| == |es| <==> NoneGone(es, gone)
    decreases |es|
  {
    if es != [] {
      var n := |es| - 1;
      WithoutShorter(es[..n], gone);
      NoneGoneSnoc(es[..n], es[n], gone);
      assert es[..n] + [es[n]] == es;
    }
  }

  /** Every passkey has its own key material. */
  ghost predicate DistinctKeys(entries: seq<VaultEntry>) {
    forall i, j :: 0 <= i < j < |entries| && entries[i].Passkey? && entries[j].Passkey? ==>
                     entries[i].credential != entries[j].credential
  }

  lemma {:induction false} WithoutMembers(es: seq<VaultEntry>, gone: set<string>)
    ensures forall e :: e in Without(es, gone) <==> e in es && e.meta.id !in gone
    decreases |es|
  {
    if es != [] {
      var n := |es| - 1;
      WithoutMembers(es[..n], gone);
      assert forall e :: e in es <==> e in es[..n] || e == es[n];
    }
  }

  lemma CandidatesSnoc(env: Env, entries: seq<VaultEntry>, e: VaultEntry, body: seq<byte>, site: string)
    ensures Candidates(env, entries + [e], body, site)
            == Candidates(env, entries, body, site) + if Eligible(env, body, site, e) then [e] else []
  {
    CandidatesAppend(env, entries, [e], body, site);
    CandidatesOfOne(env, e, body, site);
  }

  lemma CandidatesOfNone(env: Env, body: seq<byte>, site: string)
    ensures Candidates(env, [], body, site) == []
  {
  }

  /** The place in the vault of the account listed at `i`: the list up to it comes from the entries before it. */
  lemma {:induction false} PlaceInVault(env: Env, entries: seq<VaultEntry>, body: seq<byte>, site: string, i: nat)
    returns (p: nat)
    requires i < |Candidates(env, entries, body, site)|
    ensures p < |entries| && entries[p] == Candidates(env, entries, body, site)[i]
    ensures Candidates(env, entries[..p], body, site) == Candidates(env, entries, body, site)[..i]
    decreases |entries|
  {
    CandidatesOfNone(env, body, site);
    var n := |entries| - 1;
    var front, e := entries[..n], entries[n];
    assert entries == front + [e];
    CandidatesSnoc(env, front, e, body, site);
    if i < |Candidates(env, front, body, site)| {
      p := PlaceInVault(env, front, body, site, i);
      assert front[..p] == entries[..p];
    } else {
      p := n;
    }
  }

  ghost predicate KeyNotIn(e: VaultEntry, entries: seq<VaultEntry>)
    requires e.Passkey?
  {
    forall x :: x in entries && x.Passkey? ==> x.credential != e.credential
  }

  /**
   The account chosen at the consent screen is the one that signs exactly when its own place
   still holds an account that may answer the request, with its key, and as many such accounts
   precede it as were listed before it. The vault may have changed in any way: `mid` is what
   became of the account's own place, `pre` and `post` are whatever now surrounds it.
   */
  lemma ChoiceHoldsExactly(
    env: Env, before: seq<VaultEntry>, pre: seq<VaultEntry>, mid: seq<VaultEntry>, post: seq<VaultEntry>,
    mint: Mint, payload: seq<byte>, i: nat)
    requires var plan := Describe(env, Unlocked(before), payload); plan.Ask? && !plan.isCreate && i < |plan.accounts|
    requires var e := AssertionMatches(env, Unlocked(before), payload[1..]).value.1[i];
             e.Passkey? && env.usable(e.credential.privateKey) && KeyNotIn(e, pre) && KeyNotIn(e, post)
    requires |mid| <= 1 && UniqueIds(pre + mid + post)
    ensures var e := AssertionMatches(env, Unlocked(before), payload[1..]).value.1[i];
            PerformApproved(env, Unlocked(pre + mid + post), mint, payload, i).1
            == SignWith(env, e, true, ClientHash(env, payload[1..]))
            <==> && |mid| == 1 && Eligible(env, payload[1..], e.rpId, mid[0]) && mid[0].credential == e.credential
                 && |Candidates(env, pre, payload[1..], e.rpId)| == i
  {
    var body := payload[1..];
    var (site, es) := AssertionMatches(env, Unlocked(before), body).value;
    var e := es[i];
    assert e in es;
    SignsByPlace(env, pre + mid + post, mint, payload, i, e);
    CandidatesAppend(env, pre + mid, post, body, site);
    CandidatesAppend(env, pre, mid, body, site);
    if mid == [] {
      assert Candidates(env, mid, body, site) == [];
    } else {
      assert mid == [mid[0]];
      CandidatesOfOne(env, mid[0], body, site);
    }
    var head, own := Candidates(env, pre, body, site), Candidates(env, mid, body, site);
    var tail := Candidates(env, post, body, site);
    KeyAmong(head, own, tail, e, i);
  }

  /** A key that is in neither end of a list sits at place `i` only if the middle does. */
  lemma KeyAmong(pre: seq<VaultEntry>, mid: seq<VaultEntry>, post: seq<VaultEntry>, e: VaultEntry, i: nat)
    requires |mid| <= 1 && e.Passkey? && KeyNotIn(e, pre) && KeyNotIn(e, post)
    requires forall x :: x in mid ==> x.Passkey?
    ensures var es := pre + mid + post;
            i < |es| && es[i].Passkey? && es[i].credential == e.credential
            <==> |mid| == 1 && mid[0].credential == e.credential && |pre| == i
  {
    var es := pre + mid + post;
    if i < |es| {
      assert i < |pre| ==> es[i] in pre;
      assert i >= |pre| + |mid| ==> es[i] in post;
      assert |pre| <= i < |pre| + |mid| ==> es[i] == mid[0];
    }
    assert |mid| == 1 ==> es[|pre|] == mid[0] && mid[0] in mid;
  }

  /**
   In particular, when entries with ids in `gone` were deleted and `more` appended: the chosen
   account signs exactly when no account listed up to its place was deleted.
   */
  lemma ChoiceAfterDeletionExactly(
    env: Env, before: seq<VaultEntry>, gone: set<string>, more: seq<VaultEntry>, mint: Mint, payload: seq<byte>, i: nat)
    requires var plan := Describe(env, Unlocked(before), payload); plan.Ask? && !plan.isCreate && i < |plan.accounts|
    requires UniqueIds(Without(before, gone) + more) && DistinctKeys(before + more)
    requires var e := AssertionMatches(env, Unlocked(before), payload[1..]).value.1[i];
             e.Passkey? && env.usable(e.credential.privateKey)
    ensures var es := AssertionMatches(env, Unlocked(before), payload[1..]).value.1;
            PerformApproved(env, Unlocked(Without(before, gone) + more), mint, payload, i).1
            == SignWith(env, es[i], true, ClientHash(env, payload[1..]))
            <==> UntouchedThrough(es, gone, i)
  {
    var body := payload[1..];
    var (site, es) := AssertionMatches(env, Unlocked(before), body).value;
    var p := PlaceInVault(env, before, body, site, i);
    assert es[i] in es;
    LeftAround(before, gone, more, p);
    KeysBefore(before, gone, more, p);
    KeysAfter(before, gone, more, p);
    WithoutOne(es[i], gone);
    ChoiceHoldsExactly(env, before, Without(before[..p], gone), Without([es[i]], gone),
                       Without(before[p + 1..], gone) + more, mint, payload, i);
    CandidatesWithout(env, before[..p], gone, body, site);
    CountUpTo(es, gone, i);
  }

  lemma CountUpTo(es: seq<VaultEntry>, gone: set<string>, i: nat)
    requires i < |es|
    ensures |Without(es[..i], gone)| == i && es[i].meta.id !in gone <==> UntouchedThrough(es, gone, i)
  {
    WithoutShorter(es[..i], gone);
    NoneGoneSnoc(es[..i], es[i], gone);
    assert es[..i + 1] == es[..i] + [es[i]];
  }

  lemma LeftAround(before: seq<VaultEntry>, gone: set<string>, more: seq<VaultEntry>, p: nat)
    requires p < |before|
    ensures Without(before, gone) + more
            == Without(before[..p], gone) + Without([before[p]], gone) + (Without(before[p + 1..], gone) + more)
  {
    assert before == before[..p] + [before[p]] + before[p + 1..];
    WithoutAppend(before[..p] + [before[p]], before[p + 1..], gone);
    WithoutAppend(before[..p], [before[p]], gone);
  }

  lemma KeysBefore(before: seq<VaultEntry>, gone: set<string>, more: seq<VaultEntry>, p: nat)
    requires p < |before| && before[p].Passkey? && DistinctKeys(before + more)
    ensures KeyNotIn(before[p], Without(before[..p], gone))
  {
    var all := before + more;
    WithoutMembers(before[..p], gone);
    forall x | x in Without(before[..p], gone) && x.Passkey? ensures x.credential != before[p].credential {
      assert x in before[..p];
      var q :| 0 <= q < p && before[q] == x;
      assert all[q] == x && all[p] == before[p];
    }
  }

  lemma KeysAfter(before: seq<VaultEntry>, gone: set<string>, more: seq<VaultEntry>, p: nat)
    requires p < |before| && before[p].Passkey? && DistinctKeys(before + more)
    ensures KeyNotIn(before[p], Without(before[p + 1..], gone) + more)
  {
    var all, tail := before + more, before[p + 1..];
    WithoutMembers(tail, gone);
    forall x | x in Without(tail, gone) + more && x.Passkey? ensures x.credential != before[p].credential {
      var q: int;
      if x in more {
        var t :| 0 <= t < |more| && more[t] == x;
        q := |before| + t;
      } else {
        assert x in Without(tail, gone) && x in tail;
        var t :| 0 <= t < |tail| && tail[t] == x;
        q := p + 1 + t;
      }
      assert all[q] == x && all[p] == before[p];
    }
  }

  /** Which account signs is read off the current list at the place chosen. */
  lemma SignsByPlace(env: Env, now: seq<VaultEntry>, mint: Mint, payload: seq<byte>, i: nat, e: VaultEntry)
    requires UniqueIds(now) && e.Passkey? && env.usable(e.credential.privateKey)
    requires payload != [] && payload[0] == CMD_GET_ASSERTION && AssertionSite(env, payload[1..]) == Some(e.rpId)
    requires var hash := IntKey(Request(env, payload[1..]).value, 2); hash.Some? && hash.value.Bytes?
    ensures PerformApproved(env, Unlocked(now), mint, payload, i).1
            == SignWith(env, e, true, ClientHash(env, payload[1..]))
            <==> var es := Candidates(env, now, payload[1..], e.rpId);
                 i < |es| && es[i].Passkey? && es[i].credential == e.credential
  {
    var es := Candidates(env, now, payload[1..], e.rpId);
    if i < |es| {
      assert es[i] in es;
      LookupFinds(now, es[i]);
    }
  }

  /** While the vault has only grown since, the account chosen at the consent screen is the account that signs. */
  lemma GrowthKeepsTheChoice(
    env: Env, before: seq<VaultEntry>, more: seq<VaultEntry>, mint: Mint, payload: seq<byte>, i: nat)
    requires UniqueIds(before + more)
    requires var plan := Describe(env, Unlocked(before), payload); plan.Ask? && !plan.isCreate && i < |plan.accounts|
    ensures var plan, e := Describe(env, Unlocked(before), payload),
                           AssertionMatches(env, Unlocked(before), payload[1..]).value.1[i];
            && e in before && Eligible(env, payload[1..], plan.site, e) && e.userName == plan.accounts[i]
            && PerformApproved(env, Unlocked(before + more), mint, payload, i).1
               == SignWith(env, e, true, ClientHash(env, payload[1..]))
  {
    var body := payload[1..];
    var (site, matches) := AssertionMatches(env, Unlocked(before), body).value;
    CandidatesAppend(env, before, more, body, site);
    var e := matches[i];
    assert e in matches && e in before + more;
    assert AssertionMatches(env, Unlocked(before + more), body).value.1[i] == e;
    LookupFinds(before + more, e);
  }

  /**
   Without unique ids: a listed account signs with its own key exactly when no earlier entry
   carries its id. `p` is its place in the vault, `i` its place in the list.
   */
  lemma OwnKeySignsExactly(env: Env, s: Session, mint: Mint, payload: seq<byte>, i: nat, p: nat)
    requires s.Unlocked? && DistinctKeys(s.entries) && p < |s.entries|
    requires payload != [] && payload[0] == CMD_GET_ASSERTION && ListedAt(env, s, payload, i, s.entries[p])
    requires env.usable(s.entries[p].credential.privateKey)
    ensures PerformApproved(env, s, mint, payload, i).1
            == SignWith(env, s.entries[p], true, ClientHash(env, payload[1..]))
            <==> forall q :: 0 <= q < p ==> s.entries[q].meta.id != s.entries[p].meta.id
  {
    var e := s.entries[p];
    var q := PositionOf(s.entries, e.meta.id);
    assert q <= p;
    assert q < p ==> s.entries[q].Passkey? ==> s.entries[q].credential != e.credential;
  }

  // ----- the same selection on the JSON path -----

  /** `passkeys_for_request`: filtered by a list of accepted ids, empty meaning any. */
  function PasskeysForRequest(entries: seq<VaultEntry>, site: string, allow: seq<seq<byte>>): seq<VaultEntry> {
    if entries == [] then []
    else
      var n := |entries| - 1;
      var e := entries[n];
      PasskeysForRequest(entries[..n], site, allow)
      + if e.Passkey? && e.rpId == site && (allow == [] || e.credential.credentialId in allow) then [e] else []
  }

  /** Both paths offer the same accounts in the same order whenever they were given the same accepted ids. */
  lemma {:induction false} BothPathsSelectAlike(
    env: Env, entries: seq<VaultEntry>, body: seq<byte>, site: string, allow: seq<seq<byte>>)
    requires allow == [] <==> AllowList(env, body) == []
    requires forall id :: id in allow <==> Lists(AllowList(env, body), id)
    ensures PasskeysForRequest(entries, site, allow) == Candidates(env, entries, body, site)
    decreases |entries|
  {
    if entries != [] {
      var n := |entries| - 1;
      BothPathsSelectAlike(env, entries[..n], body, site, allow);
      CandidatesAppend(env, entries[..n], [entries[n]], body, site);
      assert entries == entries[..n] + [entries[n]];
      CandidatesOfOne(env, entries[n], body, site);
    }
  }

  lemma CandidatesOfOne(env: Env, e: VaultEntry, body: seq<byte>, site: string)
    ensures Candidates(env, [e], body, site) == if Eligible(env, body, site, e) then [e] else []
  {
    assert [e][..0] == [];
    assert PasskeysForRp([], site) == [];
    assert PasskeysForRp([e], site) == if e.Passkey? && e.rpId == site then [e] else [];
    assert Retained([], AllowList(env, body)) == [];
  }

  // ----- why ids must be unique, and the vault must only grow -----

  const TWIN_REQUEST: seq<byte> := [CMD_GET_ASSERTION]
  const TWIN_SITE := "b.example"
  const TWIN_MEMBERS: Members := [(Number(1), Str(TWIN_SITE)), (Number(2), Bytes([]))]

  /** Every body decodes to a sign-in for `b.example` without an allowList. */
  function TwinEnv(): Env {
    Env(_ => Some(Dict(TWIN_MEMBERS)), _ => true)
  }

  function Twin(id: string, site: string, user: string, key: byte): VaultEntry {
    Passkey(Meta(id, "", "", "", map[], []), site, user, user, Credential([key], [key], [], [], ES256), None, [])
  }

  lemma TwinBody()
    ensures TWIN_REQUEST[1..] == [] && AssertionSite(TwinEnv(), []) == Some(TWIN_SITE)
    ensures AllowList(TwinEnv(), []) == [] && !UpOptionIsFalse(TwinEnv(), []) && ClientHash(TwinEnv(), []) == []
    ensures Request(TwinEnv(), []) == Some(TWIN_MEMBERS) && IntKey(TWIN_MEMBERS, 2) == Some(Bytes([]))
  {
    var m := TWIN_MEMBERS;
    forall k: int ensures k != 1 ==> IntKey(m, k) == if k == 2 then Some(Bytes([])) else None {
      assert m[0].0 != Number(k) || k == 1;
      assert IntKey(m[1..], k) == if m[1].0 == Number(k) then Some(m[1].1) else IntKey(m[1..][1..], k);
      assert m[1..][1..] == [];
    }
    assert IntKey(m, 1) == Some(Str(TWIN_SITE));
  }

  lemma TwinAnswer(entries: seq<VaultEntry>, ours: seq<VaultEntry>, i: nat, e: VaultEntry, mint: Mint)
    requires PasskeysForRp(entries, TWIN_SITE) == ours && i < |ours|
    requires Lookup(entries, ours[i].meta.id) == Some(e) && e.Passkey?
    ensures AssertionMatches(TwinEnv(), Unlocked(entries), []) == Ok((TWIN_SITE, ours))
    ensures Describe(TwinEnv(), Unlocked(entries), TWIN_REQUEST) == Ask(false, TWIN_SITE, AccountNames(ours))
    ensures PerformApproved(TwinEnv(), Unlocked(entries), mint, TWIN_REQUEST, i).1
            == Assertion(e.credential, e.rpId, true, [])
  {
    TwinBody();
  }

  lemma PasskeysOfOne(e: VaultEntry)
    requires e.Passkey?
    ensures PasskeysForRp([e], TWIN_SITE) == if e.rpId == TWIN_SITE then [e] else []
    ensures Lookup([e], e.meta.id) == Some(e)
  {
    assert [e][..0] == [];
    assert PasskeysForRp([], TWIN_SITE) == [];
  }

  lemma PasskeysOfTwo(a: VaultEntry, b: VaultEntry)
    requires a.Passkey? && b.Passkey? && b.rpId == TWIN_SITE
    ensures PasskeysForRp([a, b], TWIN_SITE) == if a.rpId == TWIN_SITE then [a, b] else [b]
    ensures Lookup([a, b], a.meta.id) == Some(a)
    ensures AccountNames([a, b]) == [a.userName, b.userName]
  {
    PasskeysOfOne(a);
    PasskeysOfOne(b);
    PasskeysForRpAppend([a], [b], TWIN_SITE);
    assert [a] + [b] == [a, b];
  }

  /** With two entries under one id, a sign-in approved for one site is signed with the other site's key. */
  lemma DuplicateIdSignsForAnotherSite(mint: Mint)
    ensures var s := Unlocked([Twin("x", "a.example", "u", 1), Twin("x", TWIN_SITE, "u", 2)]);
            && Describe(TwinEnv(), s, TWIN_REQUEST) == Ask(false, TWIN_SITE, ["u"])
            && PerformApproved(TwinEnv(), s, mint, TWIN_REQUEST, 0).1
               == Assertion(Credential([1], [1], [], [], ES256), "a.example", true, [])
  {
    var a, b := Twin("x", "a.example", "u", 1), Twin("x", TWIN_SITE, "u", 2);
    PasskeysOfTwo(a, b);
    assert a.rpId != TWIN_SITE by {
      assert a.rpId[0] != TWIN_SITE[0];
    }
    TwinAnswer([a, b], [b], 0, a, mint);
    assert AccountNames([b]) == ["u"];
  }

  /** An account moved to another site after the consent screen shifts the choice, with nothing deleted. */
  lemma EditedSiteShiftsTheChoice(mint: Mint)
    ensures var a, b := Twin("x", TWIN_SITE, "u", 1), Twin("y", TWIN_SITE, "v", 2);
            && Describe(TwinEnv(), Unlocked([a, b]), TWIN_REQUEST) == Ask(false, TWIN_SITE, ["u", "v"])
            && PerformApproved(TwinEnv(), Unlocked([a.(rpId := "a.example"), b]), mint, TWIN_REQUEST, 0).1
               == Assertion(Credential([2], [2], [], [], ES256), TWIN_SITE, true, [])
  {
    var a, b := Twin("x", TWIN_SITE, "u", 1), Twin("y", TWIN_SITE, "v", 2);
    var moved := a.(rpId := "a.example");
    assert moved.rpId[0] != TWIN_SITE[0];
    PasskeysOfTwo(a, b);
    PasskeysOfTwo(moved, b);
    TwinAnswer([a, b], [a, b], 0, a, mint);
    SecondOfTwo(moved, b);
    TwinAnswer([moved, b], [b], 0, b, mint);
  }

  lemma SecondOfTwo(a: VaultEntry, b: VaultEntry)
    requires a.meta.id == "x" && b.meta.id == "y"
    ensures Lookup([a, b], "y") == Some(b)
  {
    assert "x"[0] != "y"[0];
    PositionIs([a, b], "y", 1);
  }

  /** An entry deleted after the consent screen shifts the choice: the account approved is not the one that signs. */
  lemma DeletionShiftsTheChoice(mint: Mint)
    ensures var a, b := Twin("x", TWIN_SITE, "u", 1), Twin("y", TWIN_SITE, "v", 2);
            && Describe(TwinEnv(), Unlocked([a, b]), TWIN_REQUEST) == Ask(false, TWIN_SITE, ["u", "v"])
            && PerformApproved(TwinEnv(), Unlocked([b]), mint, TWIN_REQUEST, 0).1
               == Assertion(Credential([2], [2], [], [], ES256), TWIN_SITE, true, [])
  {
    var a, b := Twin("x", TWIN_SITE, "u", 1), Twin("y", TWIN_SITE, "v", 2);
    PasskeysOfTwo(a, b);
    PasskeysOfOne(b);
    TwinAnswer([a, b], [a, b], 0, a, mint);
    TwinAnswer([b], [b], 0, b, mint);
  }
}
