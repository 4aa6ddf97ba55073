/** Requests that read first, then talk to the Word service, and only then open
    their transaction.  The reads see earlier committed states than the
    transaction does; any other step may have happened in between. */
module DraftRequests {
  import opened Wrappers
  import opened DraftModel
  import opened DraftInvariant
  import opened DraftSteps
  import opened DraftRuns

  /** The facts a capability token was issued for. */
  datatype Capability = Capability(project: Uuid, key: Uuid, version: Uuid, mode: EditorMode)

  predicate SessionVerified(db: Db, cap: Capability) {
    && cap.key in db.sessions && cap.project in db.projects
    && var s := db.sessions[cap.key];
       s.project == cap.project && s.base == cap.version && s.mode == cap.mode && !s.closed
  }

  // ---------- callback statuses 6 and 7 ----------

  datatype SaveStatus = ForceSaved | ForceSaveFailed

  /** `read` is what the save lookup saw, `verified` what verify_session saw and
      `now` what the transaction sees; `file` is the downloaded file, if any. */
  ghost function SaveCallback(read: Db, verified: Db, now: Db, cap: Capability, status: SaveStatus, save: Uuid,
                              callbackSha: Digest, file: Option<Digest>, version: Uuid): (Db, Outcome<()>)
  {
    var found := save in read.saves && read.saves[save].project == cap.project && read.saves[save].session == cap.key;
    if cap.mode != Edit then (now, Err(Forbidden))
    else if found && read.saves[save].state == Saved then
      (now, if read.saves[save].callbackSha == Some(callbackSha) then Ok(()) else Err(Conflict))
    else if !SessionVerified(verified, cap) then (now, Err(Forbidden))
    else if !found || read.saves[save].state != Pending then (now, Err(Conflict))
    else if status == ForceSaveFailed then
      (RecordFailureTx(now, cap.project, cap.key, save, EditorError("callback", 7)), Ok(()))
    else if file.None? then (now, Err(Unavailable))
    else PublishTx(now, cap.project, cap.key, save, callbackSha, file.value, version)
  }

  /** The callback is one step of the protocol, or changes nothing. */
  lemma SaveCallbackIsStep(read: Db, verified: Db, now: Db, cap: Capability, status: SaveStatus, save: Uuid,
                           callbackSha: Digest, file: Option<Digest>, version: Uuid)
    ensures var db' := SaveCallback(read, verified, now, cap, status, save, callbackSha, file, version).0;
            db' == now || (exists a :: Step(now, a, db'))
  {
    var (db', r) := SaveCallback(read, verified, now, cap, status, save, callbackSha, file, version);
    if db' != now && status == ForceSaved {
      assert Step(now, Publish(cap.project, cap.key, save, callbackSha, file.value, version), db');
    } else if db' != now {
      assert Step(now, RecordFailure(cap.project, cap.key, save, EditorError("callback", 7)), db');
    }
  }

  lemma FinishedSaveIgnoresFailure(db: Db, p: Uuid, key: Uuid, save: Uuid, error: EditorError)
    requires HeadsOk(db) && save in db.saves && db.saves[save].state != Pending
    ensures RecordFailureTx(db, p, key, save, error) == db
  {
    assert p in db.heads ==> HeadOk(db, p);
  }

  /** An acknowledged force-save is durably the one publication of its save: the
      save is Saved with this very callback's digest, its version holds the file
      that was fetched, and an acknowledged failure leaves it finished.  A refused callback changed nothing,
        and once a save is
      Saved or Failed no callback changes anything any more. */
  lemma SaveCallbackIsExactlyOnce(read: Db, verified: Db, now: Db, cap: Capability, status: SaveStatus, save: Uuid,
                                  callbackSha: Digest, file: Option<Digest>, version: Uuid)
    requires Later(read, verified) && Later(verified, now) && HeadsOk(now)
    ensures var (db', r) := SaveCallback(read, verified, now, cap, status, save, callbackSha, file, version);
            && (r.Err? ==> db' == now)
            && (r.Ok? ==> save in db'.saves && db'.saves[save].state != Pending)
            && (r.Ok? && status == ForceSaved ==>
                  db'.saves[save].state == Saved && db'.saves[save].callbackSha == Some(callbackSha))
            && (r.Ok? && status == ForceSaved && now.saves[save].state == Pending ==>
                  && file.Some? && db'.saves[save].result == Some(version)
                  && version in db'.versions && db'.versions[version].sha == file.value)
            && (save in now.saves && now.saves[save].state != Pending ==> db' == now)
  {
    if save in read.saves { assert SaveLater(read, verified, save) && SaveLater(verified, now, save); }
    if save in now.saves && now.saves[save].state != Pending {
      FinishedSaveIgnoresFailure(now, cap.project, cap.key, save, EditorError("callback", 7));
    }
  }

  /** When the callback that delivers a pending save publishes it: exactly when its
      session, of the capability's project, version and mode, is still open, the
      file was fetched, and the baseline is the head version. */
  lemma SaveCallbackPublishes(read: Db, verified: Db, now: Db, cap: Capability, save: Uuid, callbackSha: Digest,
                              file: Option<Digest>, version: Uuid)
    requires Later(read, verified) && Later(verified, now) && Inv(now) && IsPending(now, save)
    requires now.saves[save].project == cap.project && now.saves[save].session == cap.key && version !in now.versions
    ensures var (db', r) := SaveCallback(read, verified, now, cap, ForceSaved, save, callbackSha, file, version);
            && (r.Ok? <==>
                  && cap.mode == Edit && save in read.saves && file.Some?
                  && cap.key in verified.sessions && verified.sessions[cap.key].project == cap.project
                  && verified.sessions[cap.key].base == cap.version && verified.sessions[cap.key].mode == cap.mode
                  && !verified.sessions[cap.key].closed)
            && (r.Ok? ==>
                  && version in db'.versions && db'.versions[version].sha == file.value
                  && db'.heads[cap.project].version == version && db'.saves[save].result == Some(version))
  {
    assert HeadOk(now, cap.project) && Awaited(now, cap.project, save) && SaveOk(now, save);
    assert VersionOk(now, now.saves[save].parent);
    if save in read.saves { assert SaveLater(read, verified, save) && SaveLater(verified, now, save); }
  }

  /** A reported failure of a pending save is stored and shown at the head. */
  lemma SaveCallbackFails(read: Db, verified: Db, now: Db, cap: Capability, save: Uuid, callbackSha: Digest,
                          file: Option<Digest>, version: Uuid)
    requires Later(read, verified) && Later(verified, now) && Inv(now) && IsPending(now, save)
    requires now.saves[save].project == cap.project && now.saves[save].session == cap.key && save in read.saves
    requires cap.mode == Edit && SessionVerified(verified, cap)
    ensures var (db', r) := SaveCallback(read, verified, now, cap, ForceSaveFailed, save, callbackSha, file, version);
            && r == Ok(()) && db'.saves[save] == now.saves[save].(state := Failed, errorCode := Some(7))
            && db'.versions == now.versions && cap.project in db'.heads
            && db'.heads[cap.project].pending.None? && db'.heads[cap.project].version == now.heads[cap.project].version
            && db'.heads[cap.project].error == Some(EditorError("callback", 7))
  {
    assert HeadOk(now, cap.project) && Awaited(now, cap.project, save);
    assert SaveLater(read, verified, save) && SaveLater(verified, now, save);
  }

  /** When a replay of a published save is acknowledged: exactly when it carries
      the digest that was published, and its lookup already saw the save Saved, or
      saw it Pending and then found the session still open and fetched the file.
      It never changes a row. */
  lemma SaveCallbackReplay(read: Db, verified: Db, now: Db, cap: Capability, save: Uuid, callbackSha: Digest,
                           file: Option<Digest>, version: Uuid)
    requires Later(read, verified) && Later(verified, now) && Inv(now)
    requires save in now.saves && now.saves[save].state == Saved
    requires now.saves[save].project == cap.project && now.saves[save].session == cap.key
    ensures var (db', r) := SaveCallback(read, verified, now, cap, ForceSaved, save, callbackSha, file, version);
            && db' == now
            && (r.Ok? <==>
                  && cap.mode == Edit && now.saves[save].callbackSha == Some(callbackSha) && save in read.saves
                  && (read.saves[save].state == Saved || (SessionVerified(verified, cap) && file.Some?)))
  {
    if save in read.saves { assert SaveLater(read, verified, save) && SaveLater(verified, now, save); }
  }

  /** So an exact replay can be refused.  From every reachable state with a pending
      save: its lookup reads that state, another delivery publishes the save, the
      editor is closed, and only then is the session verified. */
  lemma LateReplayIsRefused(read: Db, cap: Capability, save: Uuid, callbackSha: Digest, sha: Digest, version: Uuid,
                            unused: Uuid)
    requires Reachable(read) && IsPending(read, save) && version !in read.versions
    requires cap.mode == Edit && read.saves[save].project == cap.project && read.saves[save].session == cap.key
    ensures var mid := Apply(read, Publish(cap.project, cap.key, save, callbackSha, sha, version));
            var now := Apply(mid, Close(cap.project, cap.key));
            && save in now.saves && now.saves[save].state == Saved && now.saves[save].callbackSha == Some(callbackSha)
            && SaveCallback(read, now, now, cap, ForceSaved, save, callbackSha, Some(sha), unused)
               == (now, Err(Forbidden))
  {
    ReachableSafe(read);
    assert HeadOk(read, cap.project) && Awaited(read, cap.project, save);
    assert SaveOk(read, save) && VersionOk(read, read.saves[save].parent);
  }

  // ---------- callback status 2 ----------

  ghost function FinalCallback(read: Db, verified: Db, now: Db, cap: Capability, callbackSha: Digest,
                               file: Option<Digest>, version: Uuid): (Db, Outcome<()>)
  {
    if cap.mode != Edit then (now, Err(Forbidden))
    else if cap.key in read.recoveries then
      (now, if read.recoveries[cap.key].callbackSha == callbackSha then Ok(()) else Err(Conflict))
    else if !SessionVerified(verified, cap) then (now, Err(Forbidden))
    else if file.None? then (now, Err(Unavailable))
    else
      var (db', r) := RecoverTx(now, cap.project, cap.key, callbackSha, file.value, version);
      (db', match r case Ok(_) => Ok(()) case Err(e) => Err(e))
  }

  lemma FinalCallbackIsStep(read: Db, verified: Db, now: Db, cap: Capability, callbackSha: Digest,
                            file: Option<Digest>, version: Uuid)
    ensures var db' := FinalCallback(read, verified, now, cap, callbackSha, file, version).0;
            db' == now || (exists a :: Step(now, a, db'))
  {
    var db' := FinalCallback(read, verified, now, cap, callbackSha, file, version).0;
    if db' != now {
      assert Step(now, Recover(cap.project, cap.key, callbackSha, file.value, version), db');
    }
  }

  /** An acknowledged final callback is durably the one recovery of its session,
      which is then closed with no save of it left pending and every head version
      where it was; a refused or repeated one changes nothing. */
  lemma FinalCallbackIsExactlyOnce(read: Db, verified: Db, now: Db, cap: Capability, callbackSha: Digest,
                                   file: Option<Digest>, version: Uuid)
    requires Later(read, verified) && Later(verified, now) && Inv(now)
    ensures var (db', r) := FinalCallback(read, verified, now, cap, callbackSha, file, version);
            && (r.Err? || cap.key in now.recoveries ==> db' == now)
            && (r.Ok? ==>
                  && cap.key in db'.recoveries && db'.recoveries[cap.key].callbackSha == callbackSha
                  && cap.key in db'.sessions && db'.sessions[cap.key].closed
                  && (forall s | s in db'.saves && db'.saves[s].session == cap.key :: db'.saves[s].state != Pending))
            && (forall p | p in now.heads :: p in db'.heads && db'.heads[p].version == now.heads[p].version)
  {
    var (db', r) := FinalCallback(read, verified, now, cap, callbackSha, file, version);
    RecoverKeeps(now, cap.project, cap.key, callbackSha, if file.Some? then file.value else "", version);
    if r.Ok? {
      RecoveredIsClosed(db', cap.key);
    }
  }

  /** When the final callback of a session that holds the head is stored: exactly
      when the session was verified open and the file fetched.  The recovered version
      holds that file. */
  lemma FinalCallbackRecovers(read: Db, verified: Db, now: Db, cap: Capability, callbackSha: Digest,
                              file: Option<Digest>, version: Uuid)
    requires Later(read, verified) && Later(verified, now) && Inv(now)
    requires Holds(now, cap.project, cap.key) && version !in now.versions
    ensures var (db', r) := FinalCallback(read, verified, now, cap, callbackSha, file, version);
            && (r.Ok? <==>
                  && cap.mode == Edit && file.Some?
                  && cap.key in verified.sessions && verified.sessions[cap.key].project == cap.project
                  && verified.sessions[cap.key].base == cap.version && verified.sessions[cap.key].mode == cap.mode
                  && !verified.sessions[cap.key].closed)
            && (r.Ok? ==>
                  && version in db'.versions && db'.versions[version].sha == file.value
                  && db'.versions[version].source == Recovered && cap.key in db'.recoveries
                  && db'.recoveries[cap.key] == Recovery(callbackSha, version))
  {
    assert HeadOk(now, cap.project) && VersionOk(now, now.heads[cap.project].version);
    assert cap.key in now.recoveries ==> RecoveryOk(now, cap.key);
    assert cap.key in read.recoveries ==> cap.key in now.recoveries;
  }

  /** When a replay of a final callback is acknowledged: exactly when it carries
      the digest that was stored, and its lookup already saw the recovery, or saw
      none and then found the session still open and fetched the file. */
  lemma FinalCallbackReplay(read: Db, verified: Db, now: Db, cap: Capability, callbackSha: Digest,
                            file: Option<Digest>, version: Uuid)
    requires Later(read, verified) && Later(verified, now) && cap.key in now.recoveries
    ensures var (db', r) := FinalCallback(read, verified, now, cap, callbackSha, file, version);
            && db' == now
            && (r.Ok? <==>
                  && cap.mode == Edit && now.recoveries[cap.key].callbackSha == callbackSha
                  && (cap.key in read.recoveries || (SessionVerified(verified, cap) && file.Some?)))
  {
  }

  /** The recovery itself closes the session, so one step between the lookup and
      the verification is enough for an exact replay to be refused. */
  lemma LateFinalReplayIsRefused(read: Db, cap: Capability, callbackSha: Digest, sha: Digest, version: Uuid,
                                 unused: Uuid)
    requires Reachable(read) && cap.mode == Edit && Holds(read, cap.project, cap.key) && version !in read.versions
    ensures var now := Apply(read, Recover(cap.project, cap.key, callbackSha, sha, version));
            && cap.key in now.recoveries && now.recoveries[cap.key].callbackSha == callbackSha
            && FinalCallback(read, now, now, cap, callbackSha, Some(sha), unused) == (now, Err(Forbidden))
  {
    ReachableSafe(read);
    assert HeadOk(read, cap.project) && VersionOk(read, read.heads[cap.project].version);
    assert cap.key in read.recoveries ==> RecoveryOk(read, cap.key);
  }

  lemma RecoveredIsClosed(db: Db, k: Uuid)
    requires Inv(db) && k in db.recoveries
    ensures k in db.sessions && db.sessions[k].closed
    ensures forall s | s in db.saves && db.saves[s].session == k :: db.saves[s].state != Pending
  {
    assert RecoveryOk(db, k);
    forall s | s in db.saves && db.saves[s].session == k ensures db.saves[s].state != Pending {
      NoPendingAfterClose(db, s);
    }
  }

  lemma NoPendingAfterClose(db: Db, s: Uuid)
    requires Inv(db) && s in db.saves && db.saves[s].session in db.sessions && db.sessions[db.saves[s].session].closed
    ensures db.saves[s].state != Pending
  {
    assert IsPending(db, s) ==> HeadOk(db, db.saves[s].project);
  }

  // ---------- importing a generated file ----------

  ghost function ImportRequest(read: Db, now: Db, p: Uuid, execution: string, sha: Digest, version: Uuid, round: Uuid)
    : (Db, Outcome<Uuid>)
  {
    if exists v :: IsGenerated(read, p, execution, v) then
      var v :| IsGenerated(read, p, execution, v);
      (now, if read.versions[v].sha == sha then Ok(v) else Err(Conflict))
    else
      var (db', r) := ImportTx(now, p, execution, sha, version, round);
      (db', match r case Ok(answer) => Ok(answer.0) case Err(e) => Err(e))
  }

  /** The import answers with the generated version of its execution, and that
      version has the imported content unless another import of the same
      execution with other content committed between the lookup and the
      transaction: the duplicate found inside the transaction is returned
      without comparing digests. */
  lemma ImportAnswersItsContentIff(read: Db, now: Db, p: Uuid, execution: string, sha: Digest, version: Uuid,
                                   round: Uuid)
    requires Inv(read) && Inv(now) && Later(read, now)
    ensures var (db', r) := ImportRequest(read, now, p, execution, sha, version, round);
            r.Ok? ==> && IsGenerated(db', p, execution, r.value)
                      && (db'.versions[r.value].sha == sha <==>
                          !(exists v :: IsGenerated(now, p, execution, v) && !IsGenerated(read, p, execution, v)
                                        && now.versions[v].sha != sha))
  {
    forall v, w | IsGenerated(now, p, execution, v) && IsGenerated(now, p, execution, w) ensures v == w {
      assert Twins(now, v, w);
    }
    var (db', r) := ImportRequest(read, now, p, execution, sha, version, round);
    if r.Ok? {
      if v :| IsGenerated(read, p, execution, v) {
        assert IsGenerated(now, p, execution, v);
      } else if v :| IsGenerated(now, p, execution, v) {
        assert r.value == v && db' == now;
      } else {
        assert r.value == version && db'.versions[version].sha == sha;
      }
    }
  }

  /** When an import succeeds: with content that was stored before exactly when it is
      the same, and otherwise exactly when its project is known and its new id or the
      execution's version is usable.  A new version holds the imported content. */
  lemma ImportSucceeds(read: Db, now: Db, p: Uuid, execution: string, sha: Digest, version: Uuid, round: Uuid)
    requires Inv(read) && Inv(now) && Later(read, now)
    ensures var (db', r) := ImportRequest(read, now, p, execution, sha, version, round);
            && (forall v :: IsGenerated(read, p, execution, v) ==>
                  db' == now && r == if read.versions[v].sha == sha then Ok(v) else Err(Conflict))
            && ((forall v :: !IsGenerated(now, p, execution, v)) ==>
                  && (r.Ok? <==> p in now.projects && version !in now.versions)
                  && (r.Ok? ==> r.value == version && version in db'.versions && db'.versions[version].sha == sha))
  {
    forall v, w | IsGenerated(read, p, execution, v) && IsGenerated(read, p, execution, w) ensures v == w {
      assert Twins(read, v, w);
    }
    forall v | IsGenerated(read, p, execution, v) ensures IsGenerated(now, p, execution, v) {}
  }

  /** A run with a race in which an import is answered with a version of other
      content: its lookup reads one state and its transaction the next. */
  lemma ImportRaceExample()
    ensures exists states, actions, execution, sha, version, round ::
              && Run(states, actions) && |states| == 2
              && var (db', r) := ImportRequest(states[0], states[1], 0, execution, sha, version, round);
                 r.Ok? && r.value in db'.versions && db'.versions[r.value].sha != sha
  {
    var read := Db(map[0 := Open], map[], map[], map[], map[], map[]);
    var first := Import(0, "job", "first", 1, 2);
    var now := Apply(read, first);
    FirstImport(read, now);
    var states, actions := [read, now], [first];
    assert StepAt(states, actions, 0);
    assert Run(states, actions);
    var (db', r) := ImportRequest(read, now, 0, "job", "second", 3, 4);
    assert IsGenerated(now, 0, "job", 1);
    assert r == Ok(1) && db' == now;
    assert Run(states, actions) && |states| == 2 && states[0] == read && states[1] == now;
  }

  lemma FirstImport(read: Db, now: Db)
    requires read == Db(map[0 := Open], map[], map[], map[], map[], map[])
             && now == ImportTx(read, 0, "job", "first", 1, 2).0
    ensures forall v :: !IsGenerated(read, 0, "job", v)
    ensures 0 in now.projects && 1 in now.versions && now.versions[1].sha == "first"
    ensures forall v :: IsGenerated(now, 0, "job", v) <==> v == 1
  {
    assert forall v :: !IsGenerated(read, 0, "job", v);
  }
}
