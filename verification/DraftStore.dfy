/** The draft tables as mutable state: each method runs one transaction as its
    sequence of reads and row updates, and is proved to commit exactly the
    transaction function of DraftModel. */
module DraftStore {
  import opened Wrappers
  import opened DraftModel
  import opened DraftInvariant
  import opened DraftSteps

  class DraftTables {
    var projects: map<Uuid, ProjectStatus>
    var versions: map<Uuid, Version>
    var heads: map<Uuid, Head>
    var sessions: map<Uuid, Session>
    var saves: map<Uuid, Save>
    var recoveries: map<Uuid, Recovery>

    ghost function Rows(): (db: Db)
      reads this
    {
      Db(projects, versions, heads, sessions, saves, recoveries)
    }

    ghost predicate Valid()
      reads this
    {
      Inv(Rows())
    }

    constructor (initial: map<Uuid, ProjectStatus>)
      ensures Valid() && Init(Rows()) && projects == initial
    {
      projects, versions, heads, sessions, saves, recoveries := initial, map[], map[], map[], map[], map[];
      new;
      InitOk(Rows());
    }

    /** SELECT COALESCE(max(revision),0)+1 */
    method NextRevisionOf(p: Uuid) returns (revision: nat)
      ensures revision == NextRevision(Rows(), p)
    {
      var todo := versions.Keys;
      var top := 0;
      while todo != {}
        invariant todo <= versions.Keys
        invariant forall v :: v in versions.Keys - todo && versions[v].project == p ==> versions[v].revision <= top
        invariant top == 0 || top in Revisions(Rows(), p)
        decreases todo
      {
        var v :| v in todo;
        if versions[v].project == p && top < versions[v].revision {
          top := versions[v].revision;
          assert top in Revisions(Rows(), p);
        }
        todo := todo - {v};
      }
      forall r | r in Revisions(Rows(), p) ensures r <= top {
        var v :| v in versions && versions[v].project == p && versions[v].revision == r;
        assert v in versions.Keys - todo;
      }
      revision := top + 1;
    }

    method ImportGenerated(p: Uuid, execution: string, sha: Digest, version: Uuid, round: Uuid)
      returns (r: Outcome<(Uuid, bool)>)
      requires Valid() && forall v :: v in versions ==> versions[v].round != round
      modifies this
      ensures (Rows(), r) == ImportTx(old(Rows()), p, execution, sha, version, round)
      ensures r.Ok? && r.value.1 ==> r.value.0 == version && version in versions && versions[version].sha == sha
      ensures Valid()
    {
      ghost var db := Rows();
      ImportKeeps(db, p, execution, sha, version, round);
      if p !in projects { return Err(Forbidden); }
      if v :| v in versions && versions[v].project == p && versions[v].execution == execution
              && versions[v].source == Generated {
        assert IsGenerated(db, p, execution, v);
        forall w | IsGenerated(db, p, execution, w) ensures w == v { assert Twins(db, v, w); }
        return Ok((v, false));
      }
      assert forall v :: !IsGenerated(db, p, execution, v);
      var revision := NextRevisionOf(p);
      if version in versions { return Err(Storage); }
      versions := versions[version := Version(p, execution, round, revision, None, Generated, sha)];
      if p !in heads {
        heads := heads[p := Head(version, None, None, None)];
      }
      r := Ok((version, true));
    }

    method SelectVersion(p: Uuid, version: Uuid) returns (r: Outcome<()>)
      requires Valid()
      modifies this
      ensures (Rows(), r) == SelectTx(old(Rows()), p, version)
      ensures r.Ok? && p in heads ==> heads[p].version == version
      ensures Valid()
    {
      SelectKeeps(Rows(), p, version);
      if p !in projects { return Err(NotFound); }
      if projects[p] == Ended { return Err(ProjectEnded); }
      if p !in heads { return Ok(()); }
      if heads[p].session.Some? || heads[p].pending.Some? { return Err(Conflict); }
      if version !in versions || versions[version].project != p { return Err(Storage); }
      heads := heads[p := heads[p].(version := version, error := None)];
      r := Ok(());
    }

    method OpenEditor(p: Uuid, version: Uuid, mode: EditorMode, requestKey: string, requestSha: Digest, key: Uuid)
      returns (r: Outcome<Uuid>)
      requires Valid()
      modifies this
      ensures (Rows(), r) == OpenTx(old(Rows()), p, version, mode, requestKey, requestSha, key)
      ensures r.Ok? ==> r.value in sessions && sessions[r.value].requestSha == requestSha && !sessions[r.value].closed
      ensures r == Ok(key) && key !in old(sessions) && mode == Edit ==> p in heads && heads[p].session == Some(key)
      ensures Valid()
    {
      ghost var db := Rows();
      OpenKeeps(db, p, version, mode, requestKey, requestSha, key);
      if p !in projects { return Err(Forbidden); }
      if k :| k in sessions && sessions[k].project == p && sessions[k].requestKey == requestKey {
        assert IsOpening(db, p, requestKey, k);
        forall l | IsOpening(db, p, requestKey, l) ensures l == k { assert SameOpening(db, k, l); }
        if sessions[k].requestSha != requestSha || sessions[k].closed { return Err(Conflict); }
        return Ok(k);
      }
      assert forall k :: !IsOpening(db, p, requestKey, k);
      if mode == Edit {
        if projects[p] == Ended { return Err(ProjectEnded); }
        if p !in heads { return Err(Storage); }
        if heads[p].version != version || heads[p].pending.Some? { return Err(Conflict); }
        if heads[p].session.Some? { return Err(Conflict); }
      }
      if key in sessions || version !in versions || versions[version].project != p { return Err(Storage); }
      sessions := sessions[key := Session(p, version, mode, requestKey, requestSha, false)];
      if mode == Edit {
        heads := heads[p := heads[p].(session := Some(key), error := None)];
      }
      r := Ok(key);
    }

    method CloseEditor(p: Uuid, key: Uuid) returns (r: Outcome<()>)
      requires Valid()
      modifies this
      ensures (Rows(), r) == CloseTx(old(Rows()), p, key)
      ensures r.Ok? && key in sessions && sessions[key].project == p ==> sessions[key].closed
      ensures Valid()
    {
      CloseKeeps(Rows(), p, key);
      if p !in projects { return Err(Forbidden); }
      if p in heads && heads[p].session == Some(key) && heads[p].pending.Some? { return Err(Conflict); }
      if p in heads && heads[p].session == Some(key) {
        heads := heads[p := heads[p].(session := None, error := None)];
      }
      if key in sessions && sessions[key].project == p {
        sessions := sessions[key := sessions[key].(closed := true)];
      }
      r := Ok(());
    }

    method PrepareSave(p: Uuid, requestKey: string, requestSha: Digest, editorKey: Uuid,
                       version: Uuid, sha: Digest, save: Uuid) returns (r: Outcome<SavePlan>)
      requires Valid()
      modifies this
      ensures (Rows(), r) == PrepareSaveTx(old(Rows()), p, requestKey, requestSha, editorKey, version, sha, save)
      ensures r.Ok? && !r.value.replay ==>
              && save in saves && saves[save].state == Pending && saves[save].parent == version
                                           && p in heads && heads[p].pending == Some(save)
      ensures Valid()
    {
      ghost var db := Rows();
      PrepareSaveKeeps(db, p, requestKey, requestSha, editorKey, version, sha, save);
      if p !in projects { return Err(Forbidden); }
      var repeated: Option<Uuid> := None;
      if s :| s in saves && saves[s].project == p && saves[s].requestKey == requestKey {
        assert IsRequest(db, p, requestKey, s);
        forall t | IsRequest(db, p, requestKey, t) ensures t == s { assert SameRequest(db, s, t); }
        if saves[s].requestSha != requestSha { return Err(Conflict); }
        if saves[s].state == Saved { return Ok(SavePlan(s, false, true)); }
        if saves[s].state != Pending { return Err(Conflict); }
        repeated := Some(s);
      } else {
        assert forall s :: !IsRequest(db, p, requestKey, s);
        if projects[p] == Ended { return Err(ProjectEnded); }
      }
      if p !in heads || heads[p].version !in versions { return Err(Storage); }
      var head := heads[p];
      if head.version != version || versions[head.version].sha != sha || head.session != Some(editorKey)
         || head.pending != repeated { return Err(Conflict); }
      if repeated.Some? { return Ok(SavePlan(repeated.value, true, true)); }
      if save in saves { return Err(Storage); }
      saves := saves[save := Save(p, editorKey, version, sha, requestKey, requestSha, Pending, None, None, None)];
      heads := heads[p := heads[p].(pending := Some(save), error := None)];
      r := Ok(SavePlan(save, true, false));
    }

    method RecordFailure(p: Uuid, key: Uuid, save: Uuid, error: EditorError)
      requires Valid()
      modifies this
      ensures Rows() == RecordFailureTx(old(Rows()), p, key, save, error)
      ensures Valid()
    {
      RecordFailureKeeps(Rows(), p, key, save, error);
      if save in saves && saves[save].project == p && saves[save].session == key && saves[save].state == Pending {
        saves := saves[save := saves[save].(state := Failed, errorCode := Some(error.code))];
      }
      if p in heads && heads[p].session == Some(key) && heads[p].pending == Some(save) {
        heads := heads[p := heads[p].(pending := None, error := Some(error))];
      }
    }

    method Detach(p: Uuid, key: Uuid) returns (r: Outcome<()>)
      requires Valid()
      modifies this
      ensures (Rows(), r) == DetachTx(old(Rows()), p, key)
      ensures r.Ok? && key in sessions && (forall q :: q in heads ==> heads[q].session != Some(key)) ==>
              sessions[key].closed
      ensures Valid()
    {
      DetachKeeps(Rows(), p, key);
      if p !in projects { return Err(Forbidden); }
      if p in heads && heads[p].session == Some(key) && heads[p].pending.None? {
        heads := heads[p := heads[p].(session := None, error := None)];
      }
      if key in sessions && !(exists q :: q in heads && heads[q].session == Some(key)) {
        sessions := sessions[key := sessions[key].(closed := true)];
      }
      r := Ok(());
    }

    method PublishSave(p: Uuid, key: Uuid, save: Uuid, callbackSha: Digest, sha: Digest, version: Uuid)
      returns (r: Outcome<()>)
      requires Valid()
      modifies this
      ensures (Rows(), r) == PublishTx(old(Rows()), p, key, save, callbackSha, sha, version)
      ensures r.Ok? && old(save in saves && saves[save].state == Pending) ==>
                && version in versions && versions[version].sha == sha && p in heads && heads[p].version == version
                && save in saves && saves[save].state == Saved && saves[save].result == Some(version)
      ensures Valid()
    {
      PublishKeeps(Rows(), p, key, save, callbackSha, sha, version);
      if p !in projects { return Err(Forbidden); }
      if save !in saves || saves[save].project != p || saves[save].session != key { return Err(Storage); }
      var previous := saves[save];
      if previous.state == Saved {
        return if previous.callbackSha == Some(callbackSha) then Ok(()) else Err(Conflict);
      }
      if p !in heads || heads[p].version !in versions { return Err(Storage); }
      var head, parent := heads[p], versions[heads[p].version];
      if previous.state != Pending || head.version != previous.parent || parent.sha != previous.parentSha
         || head.session != Some(key) || head.pending != Some(save) { return Err(Conflict); }
      var revision := NextRevisionOf(p);
      if version in versions { return Err(Storage); }
      versions := versions[version := Version(p, parent.execution, parent.round, revision, Some(previous.parent),
                                              Manual, sha)];
      heads := heads[p := heads[p].(version := version, pending := None, error := None)];
      saves := saves[save := saves[save].(state := Saved, result := Some(version), callbackSha := Some(callbackSha))];
      r := Ok(());
    }

    method RecoverFinal(p: Uuid, key: Uuid, callbackSha: Digest, sha: Digest, version: Uuid)
      returns (r: Outcome<bool>)
      requires Valid()
      modifies this
      ensures (Rows(), r) == RecoverTx(old(Rows()), p, key, callbackSha, sha, version)
      ensures r == Ok(true) ==> && version in versions && versions[version].sha == sha
                                && key in recoveries && recoveries[key] == Recovery(callbackSha, version)
      ensures Valid()
    {
      RecoverKeeps(Rows(), p, key, callbackSha, sha, version);
      if p !in projects { return Err(Forbidden); }
      if key in recoveries {
        return if recoveries[key].callbackSha == callbackSha then Ok(false) else Err(Conflict);
      }
      if p !in heads || heads[p].version !in versions { return Err(Storage); }
      var head, parent := heads[p], versions[heads[p].version];
      if head.session != Some(key) { return Err(Conflict); }
      var revision := NextRevisionOf(p);
      if version in versions || key !in sessions { return Err(Storage); }
      versions := versions[version := Version(p, parent.execution, parent.round, revision, Some(head.version),
                                              Recovered, sha)];
      recoveries := recoveries[key := Recovery(callbackSha, version)];
      saves := FailPending(saves, p, key);
      heads := heads[p := heads[p].(session := None, pending := None, error := None)];
      sessions := sessions[key := sessions[key].(closed := true)];
      r := Ok(true);
    }

    method PatchProject(p: Uuid, status: Option<ProjectStatus>) returns (r: Outcome<()>)
      requires Valid()
      modifies this
      ensures (Rows(), r) == PatchTx(old(Rows()), p, status)
      ensures r.Ok? && status.Some? ==> p in projects && projects[p] == status.value
      ensures Valid()
    {
      PatchKeeps(Rows(), p, status);
      if p !in projects { return Err(NotFound); }
      if status == Some(Ended) && projects[p] == Open {
        if p in heads && (heads[p].session.Some? || heads[p].pending.Some?) { return Err(ActiveEditor); }
      }
      projects := projects[p := if status.Some? then status.value else projects[p]];
      r := Ok(());
    }
  }
}
