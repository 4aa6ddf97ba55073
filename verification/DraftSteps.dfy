/** Each transaction extends the history and keeps the invariant, whatever its
    arguments. */
module DraftSteps {
  import opened Wrappers
  import opened DraftModel
  import opened DraftInvariant

  // ---------- what survives any extension of the history ----------

  lemma VersionsKept(db: Db, db': Db)
    requires VersionsOk(db) && Later(db, db')
    requires forall v :: v in db'.versions && v !in db.versions ==>
               VersionOk(db', v) && db'.versions[v].source != Generated
    ensures VersionsOk(db')
  {
    forall v: Uuid | v in db'.versions ensures VersionOk(db', v) {
      if v in db.versions { assert VersionOk(db, v); }
    }
    forall v: Uuid, w: Uuid | Twins(db', v, w) ensures v == w {
      assert Twins(db, v, w);
    }
  }

  lemma SameRevisions(db: Db, db': Db)
    requires RevisionsOk(db) && db'.versions == db.versions
    ensures RevisionsOk(db')
  {
    forall v: Uuid, w: Uuid | SameRevision(db', v, w) ensures v == w { assert SameRevision(db, v, w); }
    forall p: Uuid, r: nat | r in Revisions(db', p) ensures Contiguous(db', p, r) {
      assert Revisions(db', p) == Revisions(db, p);
      assert Contiguous(db, p, r);
    }
  }

  /** max + 1 is the one revision that keeps a project's revisions 1..n. */
  lemma NextRevisionExtends(db: Db, db': Db, version: Uuid)
    requires RevisionsOk(db) && version !in db.versions && version in db'.versions
    requires db'.versions == db.versions[version := db'.versions[version]]
    requires db'.versions[version].revision == NextRevision(db, db'.versions[version].project)
    ensures RevisionsOk(db')
    ensures forall w :: w in db.versions && db.versions[w].project == db'.versions[version].project ==>
              db.versions[w].revision < db'.versions[version].revision
  {
    var row := db'.versions[version];
    var p := row.project;
    forall w | w in db.versions && db.versions[w].project == p ensures db.versions[w].revision < row.revision {
      assert db.versions[w].revision in Revisions(db, p);
    }
    forall v: Uuid, w: Uuid | SameRevision(db', v, w) ensures v == w {
      if v != version && w != version { assert SameRevision(db, v, w); }
    }
    forall q: Uuid, r: nat | r in Revisions(db', q) ensures Contiguous(db', q, r) {
      RevisionInserted(db, db', version, q);
      if r in Revisions(db, q) {
        assert Contiguous(db, q, r);
      } else {
        var top := MaxRevision(Revisions(db, p));
        assert top in Revisions(db, p) ==> Contiguous(db, p, top);
      }
    }
  }

  lemma RevisionInserted(db: Db, db': Db, version: Uuid, q: Uuid)
    requires version !in db.versions && version in db'.versions
    requires db'.versions == db.versions[version := db'.versions[version]]
    ensures Revisions(db', q) ==
            Revisions(db, q) + (if q == db'.versions[version].project then {db'.versions[version].revision} else {})
  {
    forall r | r in Revisions(db, q) ensures r in Revisions(db', q) {
      var v :| v in db.versions && db.versions[v].project == q && db.versions[v].revision == r;
      assert db'.versions[v] == db.versions[v];
    }
    if q == db'.versions[version].project {
      assert db'.versions[version].revision in Revisions(db', q);
    }
  }

  /** Only the head and the editing sessions of project `p` changed. */
  lemma HeadsKept(db: Db, db': Db, p: Uuid)
    requires HeadsOk(db) && Later(db, db')
    requires forall q :: q != p ==> (q in db'.heads <==> q in db.heads)
    requires forall q :: q in db.heads && q != p ==> db'.heads[q] == db.heads[q]
    requires forall q :: q in db.projects && q != p ==> db'.projects[q] == db.projects[q]
    requires forall s :: s in db.saves && db.saves[s].project != p ==> s in db'.saves && db'.saves[s] == db.saves[s]
    requires forall q: Uuid, k: Uuid {:trigger Editing(db', q, k)} :: q != p ==> Editing(db', q, k) == Editing(db, q, k)
    requires p in db'.heads ==> HeadOk(db', p)
    requires forall k: Uuid {:trigger Editing(db', p, k)} :: Editing(db', p, k) ==> Holds(db', p, k)
    ensures HeadsOk(db')
  {
    forall q: Uuid | q in db'.heads ensures HeadOk(db', q) {
      if q != p {
        assert HeadOk(db, q);
        if db.heads[q].session.Some? { assert Editing(db', q, db.heads[q].session.value); }
        if db.heads[q].pending.Some? { assert Awaited(db, q, db.heads[q].pending.value); }
      }
    }
    forall q: Uuid, k: Uuid | Editing(db', q, k) ensures Holds(db', q, k) {
      if q != p { assert Editing(db, q, k); }
    }
  }

  lemma SessionsKept(db: Db, db': Db)
    requires SessionsOk(db) && Later(db, db')
    requires db'.sessions.Keys == db.sessions.Keys
    ensures SessionsOk(db')
  {
    forall k: Uuid | k in db'.sessions ensures SessionOk(db', k) {
      assert SessionOk(db, k) && SessionLater(db, db', k);
    }
    forall k: Uuid, l: Uuid | SameOpening(db', k, l) ensures k == l {
      assert SessionLater(db, db', k) && SessionLater(db, db', l);
      assert SameOpening(db, k, l);
    }
  }

  /** No save was added and none became Saved; a pending save keeps its head. */
  lemma SavesKept(db: Db, db': Db)
    requires SavesOk(db) && Later(db, db')
    requires db'.saves.Keys == db.saves.Keys
    requires forall s :: s in db'.saves && db'.saves[s] != db.saves[s] ==>
               db'.saves[s].state == Failed && db'.saves[s].result.None? && db'.saves[s].callbackSha.None?
    requires forall s: Uuid {:trigger IsPending(db', s)} :: IsPending(db', s) ==>
               var p := db.saves[s].project; p in db.heads ==> db'.heads[p].pending == db.heads[p].pending
    requires forall v :: v in db'.versions && db'.versions[v].source == Manual ==> v in db.versions
    ensures SavesOk(db')
  {
    forall s: Uuid | s in db'.saves ensures SaveOk(db', s) {
      assert SaveOk(db, s) && SaveLater(db, db', s) && SessionLater(db, db', db.saves[s].session);
    }
    forall s: Uuid | IsPending(db', s)
      ensures db'.saves[s].project in db'.heads && db'.heads[db'.saves[s].project].pending == Some(s)
    {
      assert IsPending(db, s);
    }
    forall s: Uuid, t: Uuid | SameRequest(db', s, t) ensures s == t {
      assert SaveLater(db, db', s) && SaveLater(db, db', t);
      assert SameRequest(db, s, t);
    }
    forall s: Uuid, t: Uuid | SameResult(db', s, t) ensures s == t { assert SameResult(db, s, t); }
    forall v: Uuid | v in db'.versions && db'.versions[v].source == Manual ensures HasSave(db', v) {
      SaveStays(db, db', v);
    }
  }

  lemma SaveStays(db: Db, db': Db, v: Uuid)
    requires SavesOk(db) && Later(db, db') && v in db.versions && db.versions[v].source == Manual
    ensures HasSave(db', v)
  {
    assert HasSave(db, v);
    var s :| s in db.saves && db.saves[s].result == Some(v);
    assert SaveOk(db, s) && SaveLater(db, db', s);
  }

  lemma RecoveriesKept(db: Db, db': Db)
    requires RecoveriesOk(db) && Later(db, db')
    requires db'.recoveries == db.recoveries
    requires forall v :: v in db'.versions && db'.versions[v].source == Recovered ==> v in db.versions
    ensures RecoveriesOk(db')
  {
    forall k: Uuid | k in db'.recoveries ensures RecoveryOk(db', k) {
      assert RecoveryOk(db, k) && SessionLater(db, db', k);
    }
    forall k: Uuid, l: Uuid | SameRecovery(db', k, l) ensures k == l { assert SameRecovery(db, k, l); }
    forall v: Uuid | v in db'.versions && db'.versions[v].source == Recovered ensures HasRecovery(db', v) {
      assert HasRecovery(db, v);
    }
  }

  lemma LineageKept(db: Db, db': Db, k: Uuid, c: seq<Uuid>, ss: seq<Uuid>)
    requires Lineage(db, k, c, ss) && Later(db, db')
    requires forall s: Uuid {:trigger SavedIn(db', k, s)} :: SavedIn(db', k, s) ==> SavedIn(db, k, s)
    ensures Lineage(db', k, c, ss)
  {
    assert SessionLater(db, db', k);
    forall i | 0 <= i < |ss| ensures Published(db', k, ss[i], c[i], c[i + 1]) {
      assert Published(db, k, ss[i], c[i], c[i + 1]) && SaveLater(db, db', ss[i]);
    }
    forall s: Uuid | SavedIn(db', k, s) ensures s in ss { assert SavedIn(db, k, s); }
  }

  /** No save became Saved and no editor was moved to another version. */
  lemma ChainsKept(db: Db, db': Db)
    requires ChainsOk(db) && Later(db, db')
    requires db'.sessions.Keys == db.sessions.Keys
    requires forall s :: s in db'.saves && db'.saves[s].state == Saved ==> s in db.saves && db.saves[s] == db'.saves[s]
    requires forall p :: p in db'.heads && db'.heads[p].session.Some? ==>
               p in db.heads && db.heads[p].session == db'.heads[p].session
               && db.heads[p].version == db'.heads[p].version
    ensures ChainsOk(db')
  {
    forall k: Uuid | k in db'.sessions ensures Chained(db', k) {
      assert Chained(db, k);
      var c, ss :| Lineage(db, k, c, ss) && EndsAtHead(db, k, c);
      forall s: Uuid | SavedIn(db', k, s) ensures SavedIn(db, k, s) {}
      LineageKept(db, db', k, c, ss);
      assert SessionLater(db, db', k);
      assert EndsAtHead(db', k, c);
    }
  }

  // ---------- history ----------

  lemma LaterReflexive(db: Db)
    ensures Later(db, db)
  {
    forall k: Uuid | k in db.sessions ensures SessionLater(db, db, k) {}
    forall s: Uuid | s in db.saves ensures SaveLater(db, db, s) {}
  }

  /** A transaction that touches at most one session and one save, and only adds
      elsewhere, extends the history. */
  lemma RowsLater(db: Db, db': Db, key: Uuid, save: Uuid)
    requires db.projects.Keys == db'.projects.Keys && db.heads.Keys <= db'.heads.Keys
    requires forall v :: v in db.versions ==> v in db'.versions && db'.versions[v] == db.versions[v]
    requires forall k :: k in db.recoveries ==> k in db'.recoveries && db'.recoveries[k] == db.recoveries[k]
    requires forall k :: k in db.sessions && k != key ==> k in db'.sessions && db'.sessions[k] == db.sessions[k]
    requires forall s :: s in db.saves && s != save ==> s in db'.saves && db'.saves[s] == db.saves[s]
    requires key in db.sessions ==> SessionLater(db, db', key)
    requires save in db.saves ==> SaveLater(db, db', save)
    ensures Later(db, db')
  {
    forall k: Uuid | k in db.sessions ensures SessionLater(db, db', k) {}
    forall s: Uuid | s in db.saves ensures SaveLater(db, db', s) {}
  }

  // ---------- the transactions ----------

  lemma ImportExtends(db: Db, p: Uuid, execution: string, sha: Digest, version: Uuid, round: Uuid)
    ensures Later(db, ImportTx(db, p, execution, sha, version, round).0)
  {
    var db' := ImportTx(db, p, execution, sha, version, round).0;
    if db' == db { LaterReflexive(db); } else { RowsLater(db, db', version, version); }
  }

  lemma ImportKeeps(db: Db, p: Uuid, execution: string, sha: Digest, version: Uuid, round: Uuid)
    requires Inv(db)
    requires forall v :: v in db.versions ==> db.versions[v].round != round
    ensures Inv(ImportTx(db, p, execution, sha, version, round).0)
  {
    var db' := ImportTx(db, p, execution, sha, version, round).0;
    ImportExtends(db, p, execution, sha, version, round);
    if db' != db {
      NextRevisionExtends(db, db', version);
      ImportVersions(db, p, execution, sha, version, round);
      ImportHeads(db, p, execution, sha, version, round);
      SessionsKept(db, db'); SavesKept(db, db'); RecoveriesKept(db, db'); ChainsKept(db, db');
    }
  }

  lemma ImportHeads(db: Db, p: Uuid, execution: string, sha: Digest, version: Uuid, round: Uuid)
    requires HeadsOk(db)
    ensures HeadsOk(ImportTx(db, p, execution, sha, version, round).0)
  {
    var db' := ImportTx(db, p, execution, sha, version, round).0;
    ImportExtends(db, p, execution, sha, version, round);
    if db' != db {
      if p in db.heads { assert HeadOk(db, p); }
      forall q: Uuid, k: Uuid
        ensures Editing(db', q, k) == Editing(db, q, k)
        ensures Editing(db, q, k) ==> Holds(db, q, k)
      {
      }
      HeadsKept(db, db', p);
    }
  }

  lemma ImportVersions(db: Db, p: Uuid, execution: string, sha: Digest, version: Uuid, round: Uuid)
    requires VersionsOk(db)
    requires forall v :: v in db.versions ==> db.versions[v].round != round
    ensures VersionsOk(ImportTx(db, p, execution, sha, version, round).0)
  {
    var db' := ImportTx(db, p, execution, sha, version, round).0;
    if db' != db {
      forall v: Uuid | v in db'.versions ensures VersionOk(db', v) {
        if v != version { assert VersionOk(db, v); }
      }
      forall v: Uuid, w: Uuid | Twins(db', v, w) ensures v == w {
        if v != version && w != version { assert Twins(db, v, w); }
        else if v != w { assert IsGenerated(db, p, execution, if v == version then w else v); }
      }
    }
  }

  lemma PublishExtends(db: Db, p: Uuid, key: Uuid, save: Uuid, callbackSha: Digest, sha: Digest, version: Uuid)
    ensures Later(db, PublishTx(db, p, key, save, callbackSha, sha, version).0)
  {
    var db' := PublishTx(db, p, key, save, callbackSha, sha, version).0;
    if db' == db { LaterReflexive(db); } else { RowsLater(db, db', key, save); }
  }

  lemma PublishKeeps(db: Db, p: Uuid, key: Uuid, save: Uuid, callbackSha: Digest, sha: Digest, version: Uuid)
    requires Inv(db)
    ensures Inv(PublishTx(db, p, key, save, callbackSha, sha, version).0)
  {
    var db' := PublishTx(db, p, key, save, callbackSha, sha, version).0;
    PublishExtends(db, p, key, save, callbackSha, sha, version);
    if db' != db {
      NextRevisionExtends(db, db', version);
      assert HeadOk(db, p) && VersionOk(db, db.heads[p].version);
      assert VersionOk(db', version);
      VersionsKept(db, db');
      PublishHeads(db, p, key, save, callbackSha, sha, version);
      SessionsKept(db, db'); RecoveriesKept(db, db');
      PublishSaves(db, p, key, save, callbackSha, sha, version);
      PublishChains(db, p, key, save, callbackSha, sha, version);
    }
  }

  lemma PublishHeads(db: Db, p: Uuid, key: Uuid, save: Uuid, callbackSha: Digest, sha: Digest, version: Uuid)
    requires HeadsOk(db)
    ensures HeadsOk(PublishTx(db, p, key, save, callbackSha, sha, version).0)
  {
    var db' := PublishTx(db, p, key, save, callbackSha, sha, version).0;
    PublishExtends(db, p, key, save, callbackSha, sha, version);
    if db' != db {
      assert HeadOk(db, p);
      forall q: Uuid, k: Uuid
        ensures Editing(db', q, k) == Editing(db, q, k)
        ensures Editing(db, q, k) ==> Holds(db, q, k)
      {
      }
      assert HeadOk(db', p);
      HeadsKept(db, db', p);
    }
  }

  lemma PublishSaves(db: Db, p: Uuid, key: Uuid, save: Uuid, callbackSha: Digest, sha: Digest, version: Uuid)
    requires SavesOk(db)
    ensures SavesOk(PublishTx(db, p, key, save, callbackSha, sha, version).0)
  {
    var db' := PublishTx(db, p, key, save, callbackSha, sha, version).0;
    PublishExtends(db, p, key, save, callbackSha, sha, version);
    if db' != db {
      forall s: Uuid | s in db'.saves ensures SaveOk(db', s) { assert SaveOk(db, s); }
      forall s: Uuid | IsPending(db', s)
        ensures db'.saves[s].project in db'.heads && db'.heads[db'.saves[s].project].pending == Some(s)
      {
        assert IsPending(db, s);
      }
      forall s: Uuid, t: Uuid | SameRequest(db', s, t) ensures s == t { assert SameRequest(db, s, t); }
      forall s: Uuid, t: Uuid | SameResult(db', s, t) ensures s == t {
        assert SaveOk(db, s) && SaveOk(db, t);
        if s != save && t != save { assert SameResult(db, s, t); }
      }
      forall v: Uuid | v in db'.versions && db'.versions[v].source == Manual ensures HasSave(db', v) {
        if v == version { assert db'.saves[save].result == Some(v); } else { SaveStays(db, db', v); }
      }
    }
  }

  /** The published version is appended to the lineage of its session. */
  lemma PublishChains(db: Db, p: Uuid, key: Uuid, save: Uuid, callbackSha: Digest, sha: Digest, version: Uuid)
    requires ChainsOk(db) && HeadsOk(db)
    ensures ChainsOk(PublishTx(db, p, key, save, callbackSha, sha, version).0)
  {
    var db' := PublishTx(db, p, key, save, callbackSha, sha, version).0;
    PublishExtends(db, p, key, save, callbackSha, sha, version);
    if db' != db {
      assert HeadOk(db, p);
      forall k: Uuid | k in db'.sessions ensures Chained(db', k) {
        assert Chained(db, k);
        var c, ss :| Lineage(db, k, c, ss) && EndsAtHead(db, k, c);
        if k == key {
          LineageAppended(db, db', k, c, ss, save, version);
          assert EndsAtHead(db', k, c + [version]);
        } else {
          forall s: Uuid | SavedIn(db', k, s) ensures SavedIn(db, k, s) {}
          LineageKept(db, db', k, c, ss);
          assert EndsAtHead(db', k, c);
        }
      }
    }
  }

  lemma LineageAppended(db: Db, db': Db, k: Uuid, c: seq<Uuid>, ss: seq<Uuid>, save: Uuid, version: Uuid)
    requires Lineage(db, k, c, ss) && Later(db, db')
    requires Published(db', k, save, c[|c| - 1], version)
    requires forall s: Uuid {:trigger SavedIn(db', k, s)} :: SavedIn(db', k, s) ==> s == save || SavedIn(db, k, s)
    ensures Lineage(db', k, c + [version], ss + [save])
  {
    var c', ss' := c + [version], ss + [save];
    assert SessionLater(db, db', k);
    forall i | 0 <= i < |ss'| ensures Published(db', k, ss'[i], c'[i], c'[i + 1]) {
      if i < |ss| { assert Published(db, k, ss[i], c[i], c[i + 1]) && SaveLater(db, db', ss[i]); }
    }
    forall s: Uuid | SavedIn(db', k, s) ensures s in ss' {
      if s == save { assert ss'[|ss|] == s; } else { assert SavedIn(db, k, s); }
    }
  }

  lemma SelectExtends(db: Db, p: Uuid, version: Uuid)
    ensures Later(db, SelectTx(db, p, version).0)
  {
    var db' := SelectTx(db, p, version).0;
    if db' == db { LaterReflexive(db); } else { RowsLater(db, db', version, version); }
  }

  lemma SelectKeeps(db: Db, p: Uuid, version: Uuid)
    requires Inv(db)
    ensures Inv(SelectTx(db, p, version).0)
  {
    var db' := SelectTx(db, p, version).0;
    SelectExtends(db, p, version);
    if db' != db {
      assert HeadOk(db, p);
      forall q: Uuid, k: Uuid ensures Editing(db', q, k) == Editing(db, q, k) {}
      UneditedKept(db, db', p);
    }
  }

  /** Shared by the transactions that insert nothing and publish nothing. */
  lemma UneditedKept(db: Db, db': Db, p: Uuid)
    requires Inv(db) && Later(db, db')
    requires db'.versions == db.versions && db'.recoveries == db.recoveries
    requires db'.sessions.Keys == db.sessions.Keys && db'.saves.Keys == db.saves.Keys
    requires db'.heads.Keys == db.heads.Keys
    requires forall q :: q in db.heads && q != p ==> db'.heads[q] == db.heads[q]
    requires forall q :: q in db.projects && q != p ==> db'.projects[q] == db.projects[q]
    requires forall s :: s in db.saves && db.saves[s].project != p ==> db'.saves[s] == db.saves[s]
    requires forall s :: s in db.saves && db'.saves[s] != db.saves[s] ==>
               db'.saves[s].state == Failed && db'.saves[s].result.None? && db'.saves[s].callbackSha.None?
    requires forall s: Uuid {:trigger IsPending(db', s)} ::
               IsPending(db', s) && db.saves[s].project == p && p in db.heads ==>
               db'.heads[p].pending == db.heads[p].pending
    requires p in db'.heads && db'.heads[p].session.Some? ==>
               db.heads[p].session == db'.heads[p].session && db.heads[p].version == db'.heads[p].version
    requires forall q: Uuid, k: Uuid {:trigger Editing(db', q, k)} :: q != p ==> Editing(db', q, k) == Editing(db, q, k)
    requires p in db'.heads ==> HeadOk(db', p)
    requires forall k: Uuid {:trigger Editing(db', p, k)} :: Editing(db', p, k) ==> Holds(db', p, k)
    ensures Inv(db')
  {
    VersionsKept(db, db'); SameRevisions(db, db'); HeadsKept(db, db', p);
    SessionsKept(db, db'); SavesKept(db, db'); RecoveriesKept(db, db'); ChainsKept(db, db');
  }

  lemma CloseExtends(db: Db, p: Uuid, key: Uuid)
    ensures Later(db, CloseTx(db, p, key).0)
  {
    var db' := CloseTx(db, p, key).0;
    if db' == db { LaterReflexive(db); } else { RowsLater(db, db', key, key); }
  }

  lemma CloseKeeps(db: Db, p: Uuid, key: Uuid)
    requires Inv(db)
    ensures Inv(CloseTx(db, p, key).0)
  {
    var db' := CloseTx(db, p, key).0;
    CloseExtends(db, p, key);
    if db' != db {
      if p in db.heads { assert HeadOk(db, p); }
      forall q: Uuid, k: Uuid ensures Editing(db', q, k) ==> Editing(db, q, k) && Holds(db, q, k) && k != key {
        if Editing(db', q, k) { assert Editing(db, q, k); }
      }
      UneditedKept(db, db', p);
    }
  }

  lemma DetachExtends(db: Db, p: Uuid, key: Uuid)
    ensures Later(db, DetachTx(db, p, key).0)
  {
    var db' := DetachTx(db, p, key).0;
    if db' == db { LaterReflexive(db); } else { RowsLater(db, db', key, key); }
  }

  lemma DetachEditors(db: Db, p: Uuid, key: Uuid)
    requires HeadsOk(db)
    ensures var db' := DetachTx(db, p, key).0;
            forall q: Uuid, k: Uuid {:trigger Editing(db', q, k)} ::
              (Editing(db', q, k) ==> Holds(db', q, k)) && (q != p ==> Editing(db', q, k) == Editing(db, q, k))
  {
    var db' := DetachTx(db, p, key).0;
    forall q | q in db.heads && db.heads[q].session == Some(key) ensures Editing(db, q, key) { assert HeadOk(db, q); }
    forall q: Uuid, k: Uuid
      ensures Editing(db', q, k) ==> Holds(db', q, k)
      ensures q != p ==> Editing(db', q, k) == Editing(db, q, k)
    {
      if Editing(db', q, k) { assert Editing(db, q, k) && Holds(db, q, k); }
      if Editing(db, q, key) { assert Holds(db, q, key); }
    }
  }

  lemma DetachKeeps(db: Db, p: Uuid, key: Uuid)
    requires Inv(db)
    ensures Inv(DetachTx(db, p, key).0)
  {
    var db' := DetachTx(db, p, key).0;
    DetachExtends(db, p, key);
    if db' != db {
      DetachEditors(db, p, key);
      if p in db.heads { assert HeadOk(db, p); }
      UneditedKept(db, db', p);
    }
  }

  lemma RecordFailureExtends(db: Db, p: Uuid, key: Uuid, save: Uuid, error: EditorError)
    ensures Later(db, RecordFailureTx(db, p, key, save, error))
  {
    var db' := RecordFailureTx(db, p, key, save, error);
    if db' == db { LaterReflexive(db); } else { RowsLater(db, db', key, save); }
  }

  lemma RecordFailureKeeps(db: Db, p: Uuid, key: Uuid, save: Uuid, error: EditorError)
    requires Inv(db)
    ensures Inv(RecordFailureTx(db, p, key, save, error))
  {
    var db' := RecordFailureTx(db, p, key, save, error);
    RecordFailureExtends(db, p, key, save, error);
    if db' != db {
      if p in db.heads { assert HeadOk(db, p); }
      if save in db.saves { assert SaveOk(db, save); }
      forall s: Uuid | IsPending(db', s) ensures IsPending(db, s) {}
      forall q: Uuid, k: Uuid ensures Editing(db', q, k) == Editing(db, q, k) {}
      UneditedKept(db, db', p);
    }
  }

  lemma PatchExtends(db: Db, p: Uuid, status: Option<ProjectStatus>)
    ensures Later(db, PatchTx(db, p, status).0)
  {
    var db' := PatchTx(db, p, status).0;
    if db' == db { LaterReflexive(db); } else { RowsLater(db, db', p, p); }
  }

  lemma PatchKeeps(db: Db, p: Uuid, status: Option<ProjectStatus>)
    requires Inv(db)
    ensures Inv(PatchTx(db, p, status).0)
  {
    var db' := PatchTx(db, p, status).0;
    PatchExtends(db, p, status);
    if p in db.heads { assert HeadOk(db, p); }
    forall q: Uuid, k: Uuid ensures Editing(db', q, k) == Editing(db, q, k) {}
    UneditedKept(db, db', p);
  }

  lemma OpenExtends(db: Db, p: Uuid, version: Uuid, mode: EditorMode, requestKey: string, requestSha: Digest, key: Uuid)
    ensures Later(db, OpenTx(db, p, version, mode, requestKey, requestSha, key).0)
  {
    var db' := OpenTx(db, p, version, mode, requestKey, requestSha, key).0;
    if db' == db { LaterReflexive(db); } else { RowsLater(db, db', key, key); }
  }

  lemma OpenKeeps(db: Db, p: Uuid, version: Uuid, mode: EditorMode, requestKey: string, requestSha: Digest, key: Uuid)
    requires Inv(db)
    ensures Inv(OpenTx(db, p, version, mode, requestKey, requestSha, key).0)
  {
    var db' := OpenTx(db, p, version, mode, requestKey, requestSha, key).0;
    OpenExtends(db, p, version, mode, requestKey, requestSha, key);
    if db' != db {
      VersionsKept(db, db'); SameRevisions(db, db');
      OpenHeads(db, p, version, mode, requestKey, requestSha, key);
      OpenSaves(db, p, version, mode, requestKey, requestSha, key);
      RecoveriesKept(db, db');
      OpenSessions(db, p, version, mode, requestKey, requestSha, key);
      OpenChains(db, p, version, mode, requestKey, requestSha, key);
    }
  }

  lemma OpenHeads(db: Db, p: Uuid, version: Uuid, mode: EditorMode, requestKey: string, requestSha: Digest, key: Uuid)
    requires HeadsOk(db)
    ensures HeadsOk(OpenTx(db, p, version, mode, requestKey, requestSha, key).0)
  {
    var db' := OpenTx(db, p, version, mode, requestKey, requestSha, key).0;
    OpenExtends(db, p, version, mode, requestKey, requestSha, key);
    if db' != db {
      if p in db.heads { assert HeadOk(db, p); }
      forall q: Uuid, k: Uuid | k != key ensures Editing(db', q, k) == Editing(db, q, k) {}
      HeadsKept(db, db', p);
    }
  }

  lemma OpenSaves(db: Db, p: Uuid, version: Uuid, mode: EditorMode, requestKey: string, requestSha: Digest, key: Uuid)
    requires SavesOk(db)
    ensures SavesOk(OpenTx(db, p, version, mode, requestKey, requestSha, key).0)
  {
    var db' := OpenTx(db, p, version, mode, requestKey, requestSha, key).0;
    OpenExtends(db, p, version, mode, requestKey, requestSha, key);
    if db' != db { SavesKept(db, db'); }
  }

  lemma OpenSessions(db: Db, p: Uuid, version: Uuid, mode: EditorMode, requestKey: string, requestSha: Digest,
                     key: Uuid)
    requires SessionsOk(db)
    ensures SessionsOk(OpenTx(db, p, version, mode, requestKey, requestSha, key).0)
  {
    var db' := OpenTx(db, p, version, mode, requestKey, requestSha, key).0;
    if db' != db {
      forall k: Uuid | k in db'.sessions ensures SessionOk(db', k) {
        if k != key { assert SessionOk(db, k); }
      }
      forall k: Uuid, l: Uuid | SameOpening(db', k, l) ensures k == l {
        if k != key && l != key { assert SameOpening(db, k, l); }
        else if k != l { assert IsOpening(db, p, requestKey, if k == key then l else k); }
      }
    }
  }

  lemma OpenChains(db: Db, p: Uuid, version: Uuid, mode: EditorMode, requestKey: string, requestSha: Digest, key: Uuid)
    requires ChainsOk(db) && SavesOk(db) && HeadsOk(db)
    ensures ChainsOk(OpenTx(db, p, version, mode, requestKey, requestSha, key).0)
  {
    var db' := OpenTx(db, p, version, mode, requestKey, requestSha, key).0;
    OpenExtends(db, p, version, mode, requestKey, requestSha, key);
    if db' != db {
      forall k: Uuid | k in db'.sessions ensures Chained(db', k) {
        if k == key {
          forall s: Uuid ensures !SavedIn(db', key, s) {
            if s in db.saves { assert SaveOk(db, s); }
          }
          assert Lineage(db', key, [version], []);
          if p in db.heads { assert HeadOk(db, p); }
          assert EndsAtHead(db', key, [version]);
        } else {
          assert Chained(db, k);
          var c, ss :| Lineage(db, k, c, ss) && EndsAtHead(db, k, c);
          forall s: Uuid | SavedIn(db', k, s) ensures SavedIn(db, k, s) {}
          LineageKept(db, db', k, c, ss);
          assert EndsAtHead(db', k, c);
        }
      }
    }
  }

  lemma PrepareSaveExtends(db: Db, p: Uuid, requestKey: string, requestSha: Digest, editorKey: Uuid,
                           version: Uuid, sha: Digest, save: Uuid)
    ensures Later(db, PrepareSaveTx(db, p, requestKey, requestSha, editorKey, version, sha, save).0)
  {
    var db' := PrepareSaveTx(db, p, requestKey, requestSha, editorKey, version, sha, save).0;
    if db' == db { LaterReflexive(db); } else { RowsLater(db, db', save, save); }
  }

  lemma PrepareSaveKeeps(db: Db, p: Uuid, requestKey: string, requestSha: Digest, editorKey: Uuid,
                         version: Uuid, sha: Digest, save: Uuid)
    requires Inv(db)
    ensures Inv(PrepareSaveTx(db, p, requestKey, requestSha, editorKey, version, sha, save).0)
  {
    var db' := PrepareSaveTx(db, p, requestKey, requestSha, editorKey, version, sha, save).0;
    PrepareSaveExtends(db, p, requestKey, requestSha, editorKey, version, sha, save);
    if db' != db {
      assert HeadOk(db, p);
      VersionsKept(db, db'); SameRevisions(db, db');
      forall q: Uuid, k: Uuid ensures Editing(db', q, k) == Editing(db, q, k) {}
      HeadsKept(db, db', p);
      SessionsKept(db, db'); RecoveriesKept(db, db'); ChainsKept(db, db');
      PrepareSaveSaves(db, p, requestKey, requestSha, editorKey, version, sha, save);
    }
  }

  lemma PrepareSaveSaves(db: Db, p: Uuid, requestKey: string, requestSha: Digest, editorKey: Uuid,
                         version: Uuid, sha: Digest, save: Uuid)
    requires SavesOk(db) && HeadsOk(db)
    ensures SavesOk(PrepareSaveTx(db, p, requestKey, requestSha, editorKey, version, sha, save).0)
  {
    var db' := PrepareSaveTx(db, p, requestKey, requestSha, editorKey, version, sha, save).0;
    PrepareSaveExtends(db, p, requestKey, requestSha, editorKey, version, sha, save);
    if db' != db {
      assert HeadOk(db, p) && Editing(db, p, editorKey);
      forall s: Uuid | s in db'.saves ensures SaveOk(db', s) {
        if s != save { assert SaveOk(db, s); }
      }
      forall s: Uuid | IsPending(db', s)
        ensures db'.saves[s].project in db'.heads && db'.heads[db'.saves[s].project].pending == Some(s)
      {
        if s != save { assert IsPending(db, s); }
      }
      forall s: Uuid, t: Uuid | SameRequest(db', s, t) ensures s == t {
        if s != save && t != save { assert SameRequest(db, s, t); }
        else if s != t { assert IsRequest(db, p, requestKey, if s == save then t else s); }
      }
      forall s: Uuid, t: Uuid | SameResult(db', s, t) ensures s == t { assert SameResult(db, s, t); }
      forall v: Uuid | v in db'.versions && db'.versions[v].source == Manual ensures HasSave(db', v) {
        SaveStays(db, db', v);
      }
    }
  }

  lemma RecoverExtends(db: Db, p: Uuid, key: Uuid, callbackSha: Digest, sha: Digest, version: Uuid)
    ensures Later(db, RecoverTx(db, p, key, callbackSha, sha, version).0)
  {
    var db' := RecoverTx(db, p, key, callbackSha, sha, version).0;
    if db' == db {
      LaterReflexive(db);
    } else {
      forall k: Uuid | k in db.sessions ensures SessionLater(db, db', k) {}
      forall s: Uuid | s in db.saves ensures SaveLater(db, db', s) {}
    }
  }

  lemma RecoverKeeps(db: Db, p: Uuid, key: Uuid, callbackSha: Digest, sha: Digest, version: Uuid)
    requires Inv(db)
    ensures Inv(RecoverTx(db, p, key, callbackSha, sha, version).0)
  {
    var db' := RecoverTx(db, p, key, callbackSha, sha, version).0;
    RecoverExtends(db, p, key, callbackSha, sha, version);
    if db' != db {
      NextRevisionExtends(db, db', version);
      assert HeadOk(db, p) && VersionOk(db, db.heads[p].version);
      assert VersionOk(db', version);
      VersionsKept(db, db');
      RecoverHeads(db, p, key, callbackSha, sha, version);
      RecoverSaves(db, p, key, callbackSha, sha, version);
      SessionsKept(db, db'); ChainsKept(db, db');
      RecoverRecoveries(db, p, key, callbackSha, sha, version);
    }
  }

  lemma RecoverHeads(db: Db, p: Uuid, key: Uuid, callbackSha: Digest, sha: Digest, version: Uuid)
    requires HeadsOk(db)
    ensures HeadsOk(RecoverTx(db, p, key, callbackSha, sha, version).0)
  {
    var db' := RecoverTx(db, p, key, callbackSha, sha, version).0;
    RecoverExtends(db, p, key, callbackSha, sha, version);
    if db' != db {
      assert HeadOk(db, p);
      forall q: Uuid, k: Uuid ensures Editing(db', q, k) ==> Editing(db, q, k) && Holds(db, q, k) && k != key {
        if Editing(db', q, k) { assert Editing(db, q, k); }
      }
      HeadsKept(db, db', p);
    }
  }

  lemma RecoverSaves(db: Db, p: Uuid, key: Uuid, callbackSha: Digest, sha: Digest, version: Uuid)
    requires SavesOk(db) && HeadsOk(db)
    ensures SavesOk(RecoverTx(db, p, key, callbackSha, sha, version).0)
  {
    var db' := RecoverTx(db, p, key, callbackSha, sha, version).0;
    RecoverExtends(db, p, key, callbackSha, sha, version);
    if db' != db {
      assert HeadOk(db, p);
      forall s: Uuid ensures IsPending(db', s) ==> IsPending(db, s) && db.saves[s].project != p {
        if IsPending(db', s) { assert IsPending(db, s); }
      }
      forall s | s in db'.saves && db'.saves[s] != db.saves[s]
        ensures db'.saves[s].state == Failed && db'.saves[s].result.None? && db'.saves[s].callbackSha.None?
      {
        assert SaveOk(db, s);
      }
      SavesKept(db, db');
    }
  }

  lemma RecoverRecoveries(db: Db, p: Uuid, key: Uuid, callbackSha: Digest, sha: Digest, version: Uuid)
    requires RecoveriesOk(db) && HeadsOk(db)
    ensures RecoveriesOk(RecoverTx(db, p, key, callbackSha, sha, version).0)
  {
    var db' := RecoverTx(db, p, key, callbackSha, sha, version).0;
    if db' != db {
      assert HeadOk(db, p);
      forall k: Uuid | k in db'.recoveries ensures RecoveryOk(db', k) {
        if k != key { assert RecoveryOk(db, k); }
      }
      forall k: Uuid, l: Uuid | SameRecovery(db', k, l) ensures k == l {
        if k != key { assert RecoveryOk(db, k); }
        if l != key { assert RecoveryOk(db, l); }
        if k != key && l != key { assert SameRecovery(db, k, l); }
      }
      forall v: Uuid | v in db'.versions && db'.versions[v].source == Recovered ensures HasRecovery(db', v) {
        if v == version {
          assert db'.recoveries[key].version == v;
        } else {
          assert HasRecovery(db, v);
          var k :| k in db.recoveries && db.recoveries[k].version == v;
          assert db'.recoveries[k].version == v;
        }
      }
    }
  }

  lemma InitOk(db: Db)
    requires Init(db)
    ensures Inv(db)
  {}

  lemma StepExtends(db: Db, a: Action)
    ensures Later(db, Apply(db, a))
  {
    match a
    case Import(p, execution, sha, version, round) =>
      ImportExtends(db, p, execution, sha, version, round);
    case Select(p, version) =>
      SelectExtends(db, p, version);
    case OpenEditor(p, version, mode, requestKey, requestSha, key) =>
      OpenExtends(db, p, version, mode, requestKey, requestSha, key);
    case Close(p, key) =>
      CloseExtends(db, p, key);
    case PrepareSave(p, requestKey, requestSha, key, version, sha, save) =>
      PrepareSaveExtends(db, p, requestKey, requestSha, key, version, sha, save);
    case RecordFailure(p, key, save, error) =>
      RecordFailureExtends(db, p, key, save, error);
    case Detach(p, key) =>
      DetachExtends(db, p, key);
    case Publish(p, key, save, callbackSha, sha, version) =>
      PublishExtends(db, p, key, save, callbackSha, sha, version);
    case Recover(p, key, callbackSha, sha, version) =>
      RecoverExtends(db, p, key, callbackSha, sha, version);
    case Patch(p, status) =>
      PatchExtends(db, p, status);
  }

  /** Every step, with any arguments, keeps the invariant and extends the history. */
  lemma StepKeeps(db: Db, a: Action, db': Db)
    requires Inv(db) && Step(db, a, db')
    ensures Inv(db') && Later(db, db')
  {
    StepExtends(db, a);
    match a
    case Import(p, execution, sha, version, round) =>
      ImportKeeps(db, p, execution, sha, version, round);
    case Select(p, version) =>
      SelectKeeps(db, p, version);
    case OpenEditor(p, version, mode, requestKey, requestSha, key) =>
      OpenKeeps(db, p, version, mode, requestKey, requestSha, key);
    case Close(p, key) =>
      CloseKeeps(db, p, key);
    case PrepareSave(p, requestKey, requestSha, key, version, sha, save) =>
      PrepareSaveKeeps(db, p, requestKey, requestSha, key, version, sha, save);
    case RecordFailure(p, key, save, error) =>
      RecordFailureKeeps(db, p, key, save, error);
    case Detach(p, key) =>
      DetachKeeps(db, p, key);
    case Publish(p, key, save, callbackSha, sha, version) =>
      PublishKeeps(db, p, key, save, callbackSha, sha, version);
    case Recover(p, key, callbackSha, sha, version) =>
      RecoverKeeps(db, p, key, callbackSha, sha, version);
    case Patch(p, status) =>
      PatchKeeps(db, p, status);
  }
}
