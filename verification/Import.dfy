/** Merging an opened vault into the session: every entry is added, under its own id unless that is taken. */
module ImportMerge {
  import opened Basics
  import opened Entries
  import opened VaultStore
  import opened VaultSessions

  /**
   The id generator as a sequence of draws. All that is assumed of a draw is that it is not
   among the ids held when it is made.
   */
  datatype Generator = Generator(draw: (set<string>, nat) -> string)

  ghost predicate Avoids(g: Generator) {
    forall ids, n :: g.draw(ids, n) !in ids
  }

  function Rekeyed(e: VaultEntry, id: string): VaultEntry {
    e.(meta := e.meta.(id := id))
  }

  /** The entries as they are added, one id decided after another. */
  function Additions(held: set<string>, source: seq<VaultEntry>, g: Generator): (added: seq<VaultEntry>)
    ensures |added| == |source|
  {
    if source == [] then []
    else
      var n := |source| - 1;
      var before := Additions(held, source[..n], g);
      var ids := held + IdSet(before);
      var e := source[n];
      before + [if e.meta.id in ids then Rekeyed(e, g.draw(ids, n)) else e]
  }

  lemma IdSetGrows(entries: seq<VaultEntry>, e: VaultEntry)
    ensures IdSet(entries + [e]) == IdSet(entries) + {e.meta.id}
  {
    assert forall x :: x in entries + [e] <==> x in entries || x == e;
  }

  lemma IdInSet(entries: seq<VaultEntry>, id: string)
    ensures id in IdSet(entries) <==> exists i :: 0 <= i < |entries| && entries[i].meta.id == id
  {
  }

  lemma {:induction false} AdditionsPrefix(held: set<string>, source: seq<VaultEntry>, g: Generator, i: nat)
    requires i <= |source|
    ensures Additions(held, source, g)[..i] == Additions(held, source[..i], g)
    decreases |source|
  {
    if i == |source| {
      assert source[..i] == source;
    } else {
      var n := |source| - 1;
      AdditionsPrefix(held, source[..n], g, i);
      assert source[..n][..i] == source[..i];
    }
  }

  /**
   Each source entry is added, in order and unchanged but for its id, which is kept exactly
   when neither the session nor an earlier addition holds it and is otherwise one they do not hold.
   */
  lemma AdditionsMeaning(held: set<string>, source: seq<VaultEntry>, g: Generator, i: nat)
    requires Avoids(g) && i < |source|
    ensures var added := Additions(held, source, g);
            && added[i].(meta := added[i].meta.(id := source[i].meta.id)) == source[i]
            && added[i].meta.id !in held
            && (forall j :: 0 <= j < i ==> added[j].meta.id != added[i].meta.id)
            && (added[i].meta.id == source[i].meta.id
                <==> source[i].meta.id !in held && forall j :: 0 <= j < i ==> added[j].meta.id != source[i].meta.id)
  {
    var added := Additions(held, source, g);
    AdditionsPrefix(held, source, g, i);
    AdditionsPrefix(held, source, g, i + 1);
    assert source[..i + 1][..i] == source[..i];
    var before := Additions(held, source[..i], g);
    assert forall j :: 0 <= j < i ==> added[j] == before[j];
    assert added[i] == added[..i + 1][i] == Additions(held, source[..i + 1], g)[i];
    IdInSet(before, source[i].meta.id);
    IdInSet(before, added[i].meta.id);
  }

  /** Import keeps ids unique, whatever duplicates the source holds, and leaves earlier entries in place. */
  lemma ImportKeepsIdsUnique(entries: seq<VaultEntry>, source: seq<VaultEntry>, g: Generator)
    requires Avoids(g) && UniqueIds(entries)
    ensures UniqueIds(entries + Additions(IdSet(entries), source, g))
  {
    var added := Additions(IdSet(entries), source, g);
    var all := entries + added;
    forall i, j | 0 <= i < j < |all| ensures all[i].meta.id != all[j].meta.id {
      if j >= |entries| {
        AdditionsMeaning(IdSet(entries), source, g, j - |entries|);
        IdInSet(entries, all[j].meta.id);
      }
    }
  }

  /**
   When draws avoid the source's ids as well, an entry is re-keyed only for a clash with the
   session or an earlier source entry.
   */
  lemma ClashExactly(held: set<string>, source: seq<VaultEntry>, g: Generator, i: nat)
    requires Avoids(g) && i < |source|
    requires forall ids, n :: g.draw(ids, n) !in IdSet(source)
    ensures Additions(held, source, g)[i].meta.id == source[i].meta.id
            <==> source[i].meta.id !in held && forall j :: 0 <= j < i ==> source[j].meta.id != source[i].meta.id
  {
    var added, id := Additions(held, source, g), source[i].meta.id;
    AdditionsMeaning(held, source, g, i);
    if id !in held && (forall j :: 0 <= j < i ==> source[j].meta.id != id) {
      forall j | 0 <= j < i ensures added[j].meta.id != id {
        DrawnOrOwn(held, source, g, j);
        assert source[i] in source;
      }
    } else if id !in held {
      var j :| 0 <= j < i && source[j].meta.id == id;
      IdInUse(held, source, g, j);
    }
  }

  lemma DrawnOrOwn(held: set<string>, source: seq<VaultEntry>, g: Generator, j: nat)
    requires j < |source|
    ensures var id := Additions(held, source, g)[j].meta.id;
            id == source[j].meta.id || exists ids, n :: g.draw(ids, n) == id
  {
    var added := Additions(held, source, g);
    AdditionsPrefix(held, source, g, j + 1);
    assert added[j] == added[..j + 1][j] == Additions(held, source[..j + 1], g)[j];
  }

  /** An id the session does not hold is in use once its bearer has been added, by it or by an earlier addition. */
  lemma IdInUse(held: set<string>, source: seq<VaultEntry>, g: Generator, j: nat)
    requires Avoids(g) && j < |source| && source[j].meta.id !in held
    ensures exists m :: 0 <= m <= j && Additions(held, source, g)[m].meta.id == source[j].meta.id
  {
    AdditionsMeaning(held, source, g, j);
  }

  lemma AddOne(held: set<string>, source: seq<VaultEntry>, g: Generator, i: nat)
    requires i < |source|
    ensures var before := Additions(held, source[..i], g);
            var ids := held + IdSet(before);
            var e := if source[i].meta.id in ids then Rekeyed(source[i], g.draw(ids, i)) else source[i];
            && Additions(held, source[..i + 1], g) == before + [e]
            && IdSet(before + [e]) == IdSet(before) + {e.meta.id}
  {
    assert source[..i + 1][..i] == source[..i];
    var before := Additions(held, source[..i], g);
    IdSetGrows(before, Additions(held, source[..i + 1], g)[i]);
  }

  /** `merge_source_into_session`: the loop over the source, in place on the session. */
  method MergeSourceIntoSession(session: VaultSession, source: seq<VaultEntry>, g: Generator, saveOk: bool)
    returns (r: Result<nat, SessionError>)
    modifies session
    ensures session.unlocked == old(session.unlocked)
    ensures !session.unlocked ==> r == Err(VaultLocked) && session.entries == old(session.entries)
    ensures session.unlocked ==>
              && session.entries == old(session.entries) + Additions(IdSet(old(session.entries)), source, g)
              && r == if saveOk then Ok(|source|) else Err(SaveFailed)
  {
    var ids := session.EntryIds();
    if ids.Err? {
      return Err(ids.error);
    }
    var existing := ids.value;
    ghost var held, before := existing, Additions(existing, [], g);
    ghost var start := session.entries;
    var imported := 0;
    assert start + [] == start;
    for i := 0 to |source|
      invariant session.unlocked && imported == i
      invariant before == Additions(held, source[..i], g) && session.entries == start + before
      invariant existing == held + IdSet(before)
    {
      var e := source[i];
      AddOne(held, source, g, i);
      if e.meta.id in existing {
        e := Rekeyed(e, g.draw(existing, i));
      }
      existing := existing + {e.meta.id};
      var added := session.AddEntryNoSave(e);
      Regroup(start, before, [e]);
      before := before + [e];
      imported := imported + 1;
    }
    assert source[..|source|] == source;
    var saved := session.Save(saveOk);
    return if saved.Err? then Err(saved.error) else Ok(imported);
  }
}
