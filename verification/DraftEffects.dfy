/** What each transaction does to the rows, field by field: when it succeeds, what
    it then writes, and what stays.  A refused transaction changes nothing. */
module DraftEffects {
  import opened Wrappers
  import opened DraftModel

  /** An import succeeds unless its project is unknown or its new id is taken.  A new
      version holds the imported content, and becomes the head if there is none. */
  lemma ImportEffect(db: Db, p: Uuid, execution: string, sha: Digest, version: Uuid, round: Uuid)
    ensures var (db', r) := ImportTx(db, p, execution, sha, version, round);
            && (r.Ok? <==> p in db.projects
                           && (version !in db.versions
                               || exists v :: v in db.versions && db.versions[v].project == p
                                              && db.versions[v].execution == execution
                                              && db.versions[v].source == Generated))
            && (r.Err? || !r.value.1 ==> db' == db)
            && (r.Ok? && !r.value.1 ==>
                  && r.value.0 in db.versions && db.versions[r.value.0].project == p
                  && db.versions[r.value.0].execution == execution && db.versions[r.value.0].source == Generated)
            && (r.Ok? && r.value.1 ==>
                  && r.value.0 == version && version in db'.versions && db'.versions[version].sha == sha
                  && db'.versions[version].project == p && db'.versions[version].execution == execution
                  && db'.versions[version].round == round && db'.versions[version].source == Generated
                  && db'.versions[version].parent.None? && db'.versions == db.versions[version := db'.versions[version]]
                  && db'.heads == (if p in db.heads then db.heads else db.heads[p := Head(version, None, None, None)])
                  && db'.sessions == db.sessions && db'.saves == db.saves && db'.recoveries == db.recoveries)
  {
    if exists v :: IsGenerated(db, p, execution, v) {
      var v :| IsGenerated(db, p, execution, v);
      assert v in db.versions;
    }
    if v :| v in db.versions && db.versions[v].project == p && db.versions[v].execution == execution
            && db.versions[v].source == Generated {
      assert IsGenerated(db, p, execution, v);
    }
  }

  /** Selecting succeeds in an open project without editor and pending save; the head
      then is the selected version of the project. */
  lemma SelectEffect(db: Db, p: Uuid, version: Uuid)
    ensures var (db', r) := SelectTx(db, p, version);
            && (r.Ok? <==> && p in db.projects && db.projects[p] == Open
                           && (p in db.heads ==>
                                 && db.heads[p].session.None? && db.heads[p].pending.None?
                                 && version in db.versions && db.versions[version].project == p))
            && (r == Err(ProjectEnded) <==> p in db.projects && db.projects[p] == Ended)
            && db' == db.(heads := db'.heads)
            && db'.heads == (if r.Ok?
                             && p in db.heads then db.heads[p := Head(version, None, None, None)] else db.heads)
  {
  }

  /** A repeated opening answers the stored session; a new one stores the request, and
      an edit session takes the head. */
  lemma OpenEffect(db: Db, p: Uuid, version: Uuid, mode: EditorMode, requestKey: string, requestSha: Digest, key: Uuid)
    requires forall k :: k in db.sessions ==> !(db.sessions[k].project == p && db.sessions[k].requestKey == requestKey)
    ensures var (db', r) := OpenTx(db, p, version, mode, requestKey, requestSha, key);
            && (r.Ok? <==> && p in db.projects && key !in db.sessions
                           && version in db.versions && db.versions[version].project == p
                           && (mode == Edit ==>
                                 && db.projects[p] == Open && p in db.heads && db.heads[p].version == version
                                 && db.heads[p].session.None? && db.heads[p].pending.None?))
            && (p in db.projects && mode == Edit && db.projects[p] == Ended ==> r == Err(ProjectEnded))
            && (r.Err? ==> db' == db)
            && (r.Ok? ==>
                  && r.value == key && key in db'.sessions && db' == db.(sessions := db'.sessions, heads := db'.heads)
                  && db'.sessions[key].project == p && db'.sessions[key].base == version
                  && db'.sessions[key].mode == mode && db'.sessions[key].requestKey == requestKey
                  && db'.sessions[key].requestSha == requestSha && !db'.sessions[key].closed
                  && db'.sessions == db.sessions[key := db'.sessions[key]]
                  && db'.heads == (if mode == View then db.heads
                                   else db.heads[p := Head(version, Some(key), None, None)]))
  {
  }

  lemma ReopenEffect(db: Db, p: Uuid, version: Uuid, mode: EditorMode, requestKey: string, requestSha: Digest,
                     key: Uuid, k: Uuid)
    requires p in db.projects && k in db.sessions && db.sessions[k].project == p
             && db.sessions[k].requestKey == requestKey
    requires forall l :: l in db.sessions && db.sessions[l].project == p && db.sessions[l].requestKey == requestKey ==>
             l == k
    ensures OpenTx(db, p, version, mode, requestKey, requestSha, key) ==
            (db, if db.sessions[k].requestSha == requestSha && !db.sessions[k].closed then Ok(k) else Err(Conflict))
  {
    assert IsOpening(db, p, requestKey, k);
  }

  /** Closing succeeds unless the session waits for a save; the session, of either
      mode, is then closed, and a head it held is free. */
  lemma CloseEffect(db: Db, p: Uuid, key: Uuid)
    ensures var (db', r) := CloseTx(db, p, key);
            && (r.Ok? <==> && p in db.projects
                           && !(p in db.heads && db.heads[p].session == Some(key) && db.heads[p].pending.Some?))
            && (r.Err? ==> db' == db)
            && db' == db.(heads := db'.heads, sessions := db'.sessions)
            && (forall k :: k in db.sessions ==>
                  && k in db'.sessions && db'.sessions[k] == db.sessions[k].(closed := db'.sessions[k].closed)
                  && (db'.sessions[k].closed <==>
                        db.sessions[k].closed || (r.Ok? && k == key && db.sessions[k].project == p)))
            && db'.sessions.Keys == db.sessions.Keys
            && db'.heads == (if r.Ok? && p in db.heads && db.heads[p].session == Some(key)
                             then db.heads[p := Head(db.heads[p].version, None, None, None)] else db.heads)
  {
  }

  /** A new save is stored Pending with its baseline and request, and the head waits
      for it. */
  lemma PrepareSaveEffect(db: Db, p: Uuid, requestKey: string, requestSha: Digest, editorKey: Uuid,
                          version: Uuid, sha: Digest, save: Uuid)
    requires forall s :: s in db.saves ==> !(db.saves[s].project == p && db.saves[s].requestKey == requestKey)
    ensures var (db', r) := PrepareSaveTx(db, p, requestKey, requestSha, editorKey, version, sha, save);
            && (r.Ok? <==> && p in db.projects && db.projects[p] == Open && p in db.heads && save !in db.saves
                           && db.heads[p].version == version && version in db.versions
                              && db.versions[version].sha == sha
                           && db.heads[p].session == Some(editorKey) && db.heads[p].pending.None?)
            && (p in db.projects && db.projects[p] == Ended ==> r == Err(ProjectEnded))
            && (r.Err? ==> db' == db)
            && (r.Ok? ==>
                  && r.value.id == save && r.value.dispatch && !r.value.replay
                  && save in db'.saves && db' == db.(saves := db'.saves, heads := db'.heads)
                  && db'.saves[save].project == p && db'.saves[save].session == editorKey
                  && db'.saves[save].parent == version && db'.saves[save].parentSha == sha
                  && db'.saves[save].requestKey == requestKey && db'.saves[save].requestSha == requestSha
                  && db'.saves[save].state == Pending && db'.saves[save].result.None?
                  && db'.saves[save].callbackSha.None? && db'.saves[save].errorCode.None?
                  && db'.saves == db.saves[save := db'.saves[save]]
                  && db'.heads == db.heads[p := Head(version, Some(editorKey), Some(save), None)])
  {
  }

  /** A repeated request: other content and failed saves are refused, a Saved one is
      answered, and a Pending one is dispatched again while its baseline holds. */
  lemma RepeatedSaveEffect(db: Db, p: Uuid, requestKey: string, requestSha: Digest, editorKey: Uuid,
                           version: Uuid, sha: Digest, save: Uuid, s: Uuid)
    requires p in db.projects && s in db.saves && db.saves[s].project == p && db.saves[s].requestKey == requestKey
    requires forall t :: t in db.saves && db.saves[t].project == p && db.saves[t].requestKey == requestKey ==> t == s
    ensures var (db', r) := PrepareSaveTx(db, p, requestKey, requestSha, editorKey, version, sha, save);
            && db' == db
            && (db.saves[s].requestSha != requestSha || db.saves[s].state == Failed ==> r == Err(Conflict))
            && (db.saves[s].requestSha == requestSha && db.saves[s].state == Saved ==>
                r == Ok(SavePlan(s, false, true)))
            && (db.saves[s].requestSha == requestSha && db.saves[s].state == Pending ==>
                  && (r.Ok? ==> r == Ok(SavePlan(s, true, true)))
                  && (r.Ok? <==> && p in db.heads && db.heads[p].version == version && version in db.versions
                                 && db.versions[version].sha == sha && db.heads[p].session == Some(editorKey)
                                 && db.heads[p].pending == Some(s)))
  {
    assert IsRequest(db, p, requestKey, s);
  }

  /** A failure is stored for the pending save of that session, and the head that
      waits for it is freed and shows the error. */
  lemma RecordFailureEffect(db: Db, p: Uuid, key: Uuid, save: Uuid, error: EditorError)
    ensures var db' := RecordFailureTx(db, p, key, save, error);
            && db' == db.(saves := db'.saves, heads := db'.heads) && db'.saves.Keys == db.saves.Keys
            && (forall s :: s in db.saves ==>
                  db'.saves[s] ==
                  if s == save && db.saves[s].project == p && db.saves[s].session == key && db.saves[s].state == Pending
                  then db.saves[s].(state := Failed, errorCode := Some(error.code)) else db.saves[s])
            && db'.heads == (if p in db.heads && db.heads[p].session == Some(key) && db.heads[p].pending == Some(save)
                             then db.heads[p := Head(db.heads[p].version, Some(key), None, Some(error))] else db.heads)
  {
  }

  /** A head held without pending save is freed, and the session is closed unless some
      head is still held by it. */
  lemma DetachEffect(db: Db, p: Uuid, key: Uuid)
    ensures var (db', r) := DetachTx(db, p, key);
            && (r.Ok? <==> p in db.projects) && (r.Err? ==> db' == db)
            && db' == db.(heads := db'.heads, sessions := db'.sessions) && db'.sessions.Keys == db.sessions.Keys
            && db'.heads == (if r.Ok? && p in db.heads && db.heads[p].session == Some(key) && db.heads[p].pending.None?
                             then db.heads[p := Head(db.heads[p].version, None, None, None)] else db.heads)
            && (forall k :: k in db.sessions ==>
                  && db'.sessions[k] == db.sessions[k].(closed := db'.sessions[k].closed)
                  && (db'.sessions[k].closed <==>
                        || db.sessions[k].closed
                        || (r.Ok? && k == key && forall q :: q in db'.heads ==> db'.heads[q].session != Some(key))))
  {
  }

  /** A publication is accepted for the pending save the head waits for, on its
      baseline; the new version holds the delivered content and is the head. */
  lemma PublishEffect(db: Db, p: Uuid, key: Uuid, save: Uuid, callbackSha: Digest, sha: Digest, version: Uuid)
    ensures var (db', r) := PublishTx(db, p, key, save, callbackSha, sha, version);
            && (r.Ok? <==>
                  && p in db.projects && save in db.saves && db.saves[save].project == p
                     && db.saves[save].session == key
                  && (|| (db.saves[save].state == Saved && db.saves[save].callbackSha == Some(callbackSha))
                      || (&& db.saves[save].state == Pending && p in db.heads && version !in db.versions
                          && db.heads[p].version == db.saves[save].parent && db.heads[p].version in db.versions
                          && db.versions[db.heads[p].version].sha == db.saves[save].parentSha
                          && db.heads[p].session == Some(key) && db.heads[p].pending == Some(save))))
            && (r.Err? || db.saves[save].state == Saved ==> db' == db)
            && (r.Ok? && db.saves[save].state == Pending ==>
                  && version in db'.versions && db'.versions[version].sha == sha
                  && db'.versions[version].project == p && db'.versions[version].source == Manual
                  && db'.versions[version].parent == Some(db.saves[save].parent)
                  && db'.versions[version].round == db.versions[db.saves[save].parent].round
                  && db'.versions[version].execution == db.versions[db.saves[save].parent].execution
                  && db'.versions == db.versions[version := db'.versions[version]]
                  && db'.heads == db.heads[p := Head(version, Some(key), None, None)]
                  && db'.saves == db.saves[save := db.saves[save].(state := Saved, result := Some(version),
                                                                   callbackSha := Some(callbackSha))]
                  && db'.projects == db.projects && db'.sessions == db.sessions && db'.recoveries == db.recoveries)
  {
  }

  /** A final file is stored for the session that holds the head, as a recovered
      version with the delivered content beside the head version. */
  lemma RecoverEffect(db: Db, p: Uuid, key: Uuid, callbackSha: Digest, sha: Digest, version: Uuid)
    ensures var (db', r) := RecoverTx(db, p, key, callbackSha, sha, version);
            && (r.Ok? <==>
                  && p in db.projects
                  && (if key in db.recoveries then db.recoveries[key].callbackSha == callbackSha
                      else && p in db.heads && db.heads[p].version in db.versions && db.heads[p].session == Some(key)
                           && version !in db.versions && key in db.sessions))
            && (r.Ok? ==> (r.value <==> key !in db.recoveries))
            && (r.Err? || key in db.recoveries ==> db' == db)
            && (r.Ok? && key !in db.recoveries ==>
                  && version in db'.versions && db'.versions[version].sha == sha
                  && db'.versions[version].project == p && db'.versions[version].source == Recovered
                  && db'.versions[version].parent == Some(db.heads[p].version)
                  && db'.versions[version].round == db.versions[db.heads[p].version].round
                  && db'.versions[version].execution == db.versions[db.heads[p].version].execution
                  && db'.versions == db.versions[version := db'.versions[version]]
                  && db'.recoveries == db.recoveries[key := Recovery(callbackSha, version)]
                  && db'.heads == db.heads[p := Head(db.heads[p].version, None, None, None)]
                  && db'.sessions == db.sessions[key := db.sessions[key].(closed := true)]
                  && db'.projects == db.projects)
  {
  }

  /** It fails the saves the session still waits for, and no other. */
  lemma RecoverFailsPending(db: Db, p: Uuid, key: Uuid, callbackSha: Digest, sha: Digest, version: Uuid, s: Uuid)
    requires s in db.saves
    ensures var (db', r) := RecoverTx(db, p, key, callbackSha, sha, version);
            && db'.saves.Keys == db.saves.Keys
            && db'.saves[s] == if r == Ok(true) && db.saves[s].project == p && db.saves[s].session == key
                                  && db.saves[s].state == Pending
                               then db.saves[s].(state := Failed, errorCode := Some(2)) else db.saves[s]
  {
  }

  /** The status changes as asked, except that a project with an active editor or a
      pending save is not ended. */
  lemma PatchEffect(db: Db, p: Uuid, status: Option<ProjectStatus>)
    ensures var (db', r) := PatchTx(db, p, status);
            && (r.Ok? <==> && p in db.projects
                           && !(status == Some(Ended) && db.projects[p] == Open && p in db.heads
                                && (db.heads[p].session.Some? || db.heads[p].pending.Some?)))
            && db' == db.(projects := db'.projects)
            && db'.projects == (if r.Ok? && status.Some? then db.projects[p := status.value] else db.projects)
  {
  }
}
