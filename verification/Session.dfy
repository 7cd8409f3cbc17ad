/** The unlocked vault held in memory, as the callers that add entries or look them up see it. */
module VaultSessions {
  import opened Basics
  import opened Entries
  import opened VaultStore

  datatype Session = Locked | Unlocked(entries: seq<VaultEntry>)

  datatype SessionError = VaultLocked | NoSuchEntry | SaveFailed

  ghost predicate UniqueIds(entries: seq<VaultEntry>) {
    forall i, j :: 0 <= i < j < |entries| ==> entries[i].meta.id != entries[j].meta.id
  }

  function IdSet(entries: seq<VaultEntry>): set<string> {
    set e | e in entries :: e.meta.id
  }

  /** The first entry with this id. */
  function Lookup(entries: seq<VaultEntry>, id: string): Option<VaultEntry> {
    var p := PositionOf(entries, id);
    if p < |entries| then Some(entries[p]) else None
  }

  /** The passkeys of exactly this relying party, in vault order. */
  function PasskeysForRp(entries: seq<VaultEntry>, rpId: string): seq<VaultEntry> {
    if entries == [] then []
    else
      var n := |entries| - 1;
      PasskeysForRp(entries[..n], rpId) + if entries[n].Passkey? && entries[n].rpId == rpId then [entries[n]] else []
  }

  lemma {:induction false} PasskeysForRpMeaning(entries: seq<VaultEntry>, rpId: string)
    ensures forall e :: e in PasskeysForRp(entries, rpId) <==> e in entries && e.Passkey? && e.rpId == rpId
  {
    if entries != [] {
      var n := |entries| - 1;
      PasskeysForRpMeaning(entries[..n], rpId);
      assert forall e :: e in entries <==> e in entries[..n] || e == entries[n];
    }
  }

  lemma {:induction false} PasskeysForRpAppend(a: seq<VaultEntry>, b: seq<VaultEntry>, rpId: string)
    ensures PasskeysForRp(a + b, rpId) == PasskeysForRp(a, rpId) + PasskeysForRp(b, rpId)
    decreases |b|
  {
    if b == [] {
      assert a + b == a;
    } else {
      var n := |b| - 1;
      var last := if b[n].Passkey? && b[n].rpId == rpId then [b[n]] else [];
      assert (a + b)[..|a| + n] == a + b[..n];
      PasskeysForRpAppend(a, b[..n], rpId);
      Regroup(PasskeysForRp(a, rpId), PasskeysForRp(b[..n], rpId), last);
    }
  }

  /** With unique ids, looking an entry up by its id finds that entry. */
  lemma LookupFinds(entries: seq<VaultEntry>, e: VaultEntry)
    requires UniqueIds(entries) && e in entries
    ensures Lookup(entries, e.meta.id) == Some(e)
  {
    var i :| 0 <= i < |entries| && entries[i] == e;
    var p := PositionOf(entries, e.meta.id);
    assert p <= i;
  }

  class VaultSession {
    var unlocked: bool
    var entries: seq<VaultEntry>

    ghost function View(): Session
      reads this
    {
      if unlocked then Unlocked(entries) else Locked
    }

    constructor (initial: Session)
      ensures View() == initial
    {
      unlocked := initial.Unlocked?;
      entries := if initial.Unlocked? then initial.entries else [];
    }

    method EntryIds() returns (r: Result<set<string>, SessionError>)
      ensures r == if unlocked then Ok(IdSet(entries)) else Err(VaultLocked)
    {
      if !unlocked {
        return Err(VaultLocked);
      }
      var ids: set<string> := {};
      for i := 0 to |entries|
        invariant unlocked && ids == IdSet(entries[..i])
      {
        assert entries[..i + 1] == entries[..i] + [entries[i]];
        ids := ids + {entries[i].meta.id};
      }
      assert entries[..|entries|] == entries;
      return Ok(ids);
    }

    method GetEntry(id: string) returns (r: Result<VaultEntry, SessionError>)
      ensures r == if !unlocked then Err(VaultLocked)
                   else match Lookup(entries, id) case Some(e) => Ok(e) case None => Err(NoSuchEntry)
    {
      if !unlocked {
        return Err(VaultLocked);
      }
      var i := 0;
      while i < |entries| && entries[i].meta.id != id
        invariant i <= |entries| && forall j :: 0 <= j < i ==> entries[j].meta.id != id
      {
        i := i + 1;
      }
      PositionIs(entries, id, i);
      r := if i < |entries| then Ok(entries[i]) else Err(NoSuchEntry);
    }

    method FindPasskeys(rpId: string) returns (r: Result<seq<VaultEntry>, SessionError>)
      ensures r == if unlocked then Ok(PasskeysForRp(entries, rpId)) else Err(VaultLocked)
    {
      if !unlocked {
        return Err(VaultLocked);
      }
      var found := [];
      for i := 0 to |entries|
        invariant found == PasskeysForRp(entries[..i], rpId)
      {
        assert entries[..i + 1][..i] == entries[..i];
        if entries[i].Passkey? && entries[i].rpId == rpId {
          found := found + [entries[i]];
        }
      }
      assert entries[..|entries|] == entries;
      return Ok(found);
    }

    method AddEntryNoSave(e: VaultEntry) returns (r: Result<(), SessionError>)
      modifies this
      ensures unlocked == old(unlocked)
      ensures r == if unlocked then Ok(()) else Err(VaultLocked)
      ensures entries == if unlocked then old(entries) + [e] else old(entries)
    {
      if !unlocked {
        return Err(VaultLocked);
      }
      entries := entries + [e];
      return Ok(());
    }

    /** The entry joins the session before the save, and stays when the save fails. */
    method CreateEntry(e: VaultEntry, saveOk: bool) returns (r: Result<(), SessionError>)
      modifies this
      ensures unlocked == old(unlocked)
      ensures r == if !unlocked then Err(VaultLocked) else if saveOk then Ok(()) else Err(SaveFailed)
      ensures entries == if unlocked then old(entries) + [e] else old(entries)
    {
      r := AddEntryNoSave(e);
      if r.Ok? && !saveOk {
        r := Err(SaveFailed);
      }
    }

    method Save(saveOk: bool) returns (r: Result<(), SessionError>)
      ensures r == if !unlocked then Err(VaultLocked) else if saveOk then Ok(()) else Err(SaveFailed)
    {
      r := if !unlocked then Err(VaultLocked) else if saveOk then Ok(()) else Err(SaveFailed);
    }
  }
}
