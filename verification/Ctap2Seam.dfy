/** The consent seam at work on the session: each method does exactly what its function says. */
module Ctap2Seam {
  import opened Basics
  import opened Entries
  import opened VaultSessions
  import opened Ctap2

  method RetainAllowed(es: seq<VaultEntry>, allow: seq<Cbor>) returns (kept: seq<VaultEntry>)
    ensures kept == Retained(es, allow)
  {
    kept := [];
    for i := 0 to |es|
      invariant kept == Retained(es[..i], allow)
    {
      assert es[..i + 1][..i] == es[..i];
      if Allowed(allow, es[i]) {
        kept := kept + [es[i]];
      }
    }
    assert es[..|es|] == es;
  }

  method FindMatches(session: VaultSession, env: Env, body: seq<byte>)
    returns (r: Result<(string, seq<VaultEntry>), byte>)
    ensures r == AssertionMatches(env, session.View(), body)
  {
    if !session.unlocked {
      return Err(ERR_OPERATION_DENIED);
    }
    var req := Request(env, body);
    if req.None? {
      return Err(ERR_INVALID_CBOR);
    }
    var site := AssertionSite(env, body);
    var hash := IntKey(req.value, 2);
    if site.None? || hash.None? || !hash.value.Bytes? {
      return Err(ERR_MISSING_PARAMETER);
    }
    var found := session.FindPasskeys(site.value);
    var matches := found.value;
    var allow := AllowList(env, body);
    if allow != [] {
      matches := RetainAllowed(matches, allow);
    }
    r := if matches == [] then Err(ERR_NO_CREDENTIALS) else Ok((site.value, matches));
  }

  method IsExcluded(session: VaultSession, c: CreateFields) returns (excluded: bool)
    requires session.unlocked
    ensures excluded == Excluded(session.entries, c)
  {
    match IntKey(c.raw, 5) {
      case Some(Array(exclude)) =>
        var found := session.FindPasskeys(c.rpId);
        var ours := found.value;
        var i := 0;
        while i < |ours| && !Allowed(exclude, ours[i])
          invariant i <= |ours| && forall j :: 0 <= j < i ==> !Allowed(exclude, ours[j])
        {
          i := i + 1;
        }
        excluded := i < |ours|;
      case _ => excluded := false;
    }
  }

  method Create(session: VaultSession, c: CreateFields, mint: Mint) returns (r: Response)
    modifies session
    ensures (session.View(), r) == PerformCreate(old(session.View()), c, mint)
  {
    if !session.unlocked {
      return Status(ERR_OPERATION_DENIED);
    }
    var excluded := IsExcluded(session, c);
    if excluded {
      return Status(ERR_CREDENTIAL_EXCLUDED);
    }
    var stored := session.CreateEntry(NewPasskey(c, mint), mint.saveOk);
    r := if stored.Ok? then Registered(c.rpId, mint.credentialId, mint.publicKeyCose) else Status(ERR_OPERATION_DENIED);
  }

  method Sign(session: VaultSession, env: Env, id: string, hash: seq<byte>) returns (r: Response)
    ensures r == PerformAssert(env, session.View(), id, hash)
  {
    var found := session.GetEntry(id);
    r := match found
      case Ok(e) => if e.Passkey? then SignWith(env, e, true, hash) else Status(ERR_OPERATION_DENIED)
      case Err(_) => Status(ERR_OPERATION_DENIED);
  }

  method Perform(session: VaultSession, env: Env, mint: Mint, payload: seq<byte>, account: nat) returns (r: Response)
    modifies session
    ensures (session.View(), r) == PerformApproved(env, old(session.View()), mint, payload, account)
  {
    if payload == [] || (payload[0] != CMD_MAKE_CREDENTIAL && payload[0] != CMD_GET_ASSERTION) {
      return Status(ERR_INVALID_COMMAND);
    }
    if payload[0] == CMD_MAKE_CREDENTIAL {
      var parsed := ParseCreate(env, if session.unlocked then Unlocked(session.entries) else Locked, payload[1..]);
      if parsed.Err? {
        return Status(parsed.error);
      }
      r := Create(session, parsed.value, mint);
    } else {
      var found := FindMatches(session, env, payload[1..]);
      if found.Err? {
        return Status(found.error);
      }
      var matches := found.value.1;
      if account >= |matches| {
        return Status(ERR_NO_CREDENTIALS);
      }
      r := Sign(session, env, matches[account].meta.id, ClientHash(env, payload[1..]));
    }
  }

  /** Describe, ask, perform: end to end on the session. */
  method Handle(session: VaultSession, env: Env, step: Step) returns (r: Response)
    modifies session
    ensures (session.View(), r) == HandleRequest(env, old(session.View()), step)
  {
    var plan := Describe(env, if session.unlocked then Unlocked(session.entries) else Locked, step.payload);
    match plan {
      case Respond(answer) => r := answer;
      case Ask(isCreate, site, accounts) =>
        var approved := Approved(step.consent, isCreate, site, accounts);
        if approved.None? {
          return Status(ERR_OPERATION_DENIED);
        }
        r := Perform(session, env, step.mint, step.payload, approved.value);
    }
  }
}
