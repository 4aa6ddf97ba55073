/** The tables behind the Word draft editor and one function per database
    transaction of the save protocol.  A transaction maps the committed tables to
    the committed tables it leaves behind and the reply of the request; a rejected
    transaction leaves every row as it was.  Primary-key and foreign-key violations
    are the `Storage` failure, so no argument of a transaction is excluded. */
module DraftModel {
  import opened Wrappers

  type Outcome<T> = Result<T, Failure>
  datatype Failure = Forbidden | NotFound | Conflict | ProjectEnded | ActiveEditor | Storage | Unavailable

  type Uuid = nat
  type Digest = string

  datatype ProjectStatus = Open | Ended
  datatype EditorMode = View | Edit
  datatype SaveState = Pending | Saved | Failed
  datatype Source = Generated | Manual | Recovered

  datatype Version = Version(project: Uuid, execution: string, round: Uuid, revision: nat,
                             parent: Option<Uuid>, source: Source, sha: Digest)
  datatype Session = Session(project: Uuid, base: Uuid, mode: EditorMode,
                             requestKey: string, requestSha: Digest, closed: bool)
  datatype EditorError = EditorError(kind: string, code: int)
  datatype Head = Head(version: Uuid, session: Option<Uuid>, pending: Option<Uuid>, error: Option<EditorError>)
  datatype Save = Save(project: Uuid, session: Uuid, parent: Uuid, parentSha: Digest,
                       requestKey: string, requestSha: Digest, state: SaveState,
                       result: Option<Uuid>, callbackSha: Option<Digest>, errorCode: Option<int>)
  datatype Recovery = Recovery(callbackSha: Digest, version: Uuid)
  datatype SavePlan = SavePlan(id: Uuid, dispatch: bool, replay: bool)

  datatype Db = Db(
    projects: map<Uuid, ProjectStatus>,
    versions: map<Uuid, Version>,
    heads: map<Uuid, Head>,
    sessions: map<Uuid, Session>,
    saves: map<Uuid, Save>,
    recoveries: map<Uuid, Recovery>)

  // ---------- queries ----------

  predicate IsGenerated(db: Db, p: Uuid, execution: string, v: Uuid) {
    v in db.versions && db.versions[v].project == p && db.versions[v].execution == execution
    && db.versions[v].source == Generated
  }

  predicate IsOpening(db: Db, p: Uuid, requestKey: string, k: Uuid) {
    k in db.sessions && db.sessions[k].project == p && db.sessions[k].requestKey == requestKey
  }

  predicate IsRequest(db: Db, p: Uuid, requestKey: string, s: Uuid) {
    s in db.saves && db.saves[s].project == p && db.saves[s].requestKey == requestKey
  }

  predicate VersionOf(db: Db, p: Uuid, v: Uuid) {
    v in db.versions && db.versions[v].project == p
  }

  predicate EditorActive(db: Db, p: Uuid) {
    p in db.heads && (db.heads[p].session.Some? || db.heads[p].pending.Some?)
  }

  ghost function Revisions(db: Db, p: Uuid): set<nat> {
    set v | v in db.versions && db.versions[v].project == p :: db.versions[v].revision
  }

  /** COALESCE(max(revision), 0). */
  ghost function MaxRevision(revisions: set<nat>): (m: nat)
    ensures forall r :: r in revisions ==> r <= m
    ensures revisions == {} ==> m == 0
    ensures revisions != {} ==> m in revisions
  {
    if revisions == {} then 0 else
      var r :| r in revisions;
      var rest := MaxRevision(revisions - {r});
      assert revisions == (revisions - {r}) + {r};
      if r < rest then rest else r
  }

  ghost function NextRevision(db: Db, p: Uuid): nat {
    MaxRevision(Revisions(db, p)) + 1
  }

  // ---------- transactions ----------

  ghost function ImportTx(db: Db, p: Uuid, execution: string, sha: Digest, version: Uuid, round: Uuid)
    : (Db, Outcome<(Uuid, bool)>)
  {
    if p !in db.projects then (db, Err(Forbidden))
    else if exists v :: IsGenerated(db, p, execution, v) then
      var v :| IsGenerated(db, p, execution, v);
      (db, Ok((v, false)))
    else if version in db.versions then (db, Err(Storage))
    else
      var row := Version(p, execution, round, NextRevision(db, p), None, Generated, sha);
      var heads := if p in db.heads then db.heads else db.heads[p := Head(version, None, None, None)];
      (db.(versions := db.versions[version := row], heads := heads), Ok((version, true)))
  }

  ghost function SelectTx(db: Db, p: Uuid, version: Uuid): (Db, Outcome<()>) {
    if p !in db.projects then (db, Err(NotFound))
    else if db.projects[p] == Ended then (db, Err(ProjectEnded))
    else if EditorActive(db, p) then (db, Err(Conflict))
    else if p !in db.heads then (db, Ok(()))
    else if !VersionOf(db, p, version) then (db, Err(Storage))
    else (db.(heads := db.heads[p := db.heads[p].(version := version, error := None)]), Ok(()))
  }

  ghost function OpenTx(db: Db, p: Uuid, version: Uuid, mode: EditorMode,
                        requestKey: string, requestSha: Digest, key: Uuid): (Db, Outcome<Uuid>)
  {
    if p !in db.projects then (db, Err(Forbidden))
    else if exists k :: IsOpening(db, p, requestKey, k) then
      var k :| IsOpening(db, p, requestKey, k);
      if db.sessions[k].requestSha != requestSha || db.sessions[k].closed
      then (db, Err(Conflict)) else (db, Ok(k))
    else if mode == Edit && db.projects[p] == Ended then (db, Err(ProjectEnded))
    else if mode == Edit && p !in db.heads then (db, Err(Storage))
    else if mode == Edit && (db.heads[p].version != version || EditorActive(db, p)) then (db, Err(Conflict))
    else if key in db.sessions || !VersionOf(db, p, version) then (db, Err(Storage))
    else
      var row := Session(p, version, mode, requestKey, requestSha, false);
      var heads := if mode == Edit
                   then db.heads[p := db.heads[p].(session := Some(key), error := None)] else db.heads;
      (db.(sessions := db.sessions[key := row], heads := heads), Ok(key))
  }

  ghost function CloseTx(db: Db, p: Uuid, key: Uuid): (Db, Outcome<()>) {
    if p !in db.projects then (db, Err(Forbidden))
    else
      var mine := p in db.heads && db.heads[p].session == Some(key);
      if mine && db.heads[p].pending.Some? then (db, Err(Conflict))
      else
        var heads := if mine then db.heads[p := db.heads[p].(session := None, error := None)] else db.heads;
        var sessions := if key in db.sessions && db.sessions[key].project == p
                        then db.sessions[key := db.sessions[key].(closed := true)] else db.sessions;
        (db.(heads := heads, sessions := sessions), Ok(()))
  }

  ghost function PrepareSaveTx(db: Db, p: Uuid, requestKey: string, requestSha: Digest, editorKey: Uuid,
                               version: Uuid, sha: Digest, save: Uuid): (Db, Outcome<SavePlan>)
  {
    if p !in db.projects then (db, Err(Forbidden))
    else if exists s :: IsRequest(db, p, requestKey, s) then
      var s :| IsRequest(db, p, requestKey, s);
      if db.saves[s].requestSha != requestSha then (db, Err(Conflict))
      else match db.saves[s].state
        case Saved => (db, Ok(SavePlan(s, false, true)))
        case Failed => (db, Err(Conflict))
        case Pending =>
          if p !in db.heads || db.heads[p].version !in db.versions then (db, Err(Storage))
          else if !Baseline(db, p, editorKey, version, sha) || db.heads[p].pending != Some(s)
          then (db, Err(Conflict)) else (db, Ok(SavePlan(s, true, true)))
    else if db.projects[p] == Ended then (db, Err(ProjectEnded))
    else if p !in db.heads || db.heads[p].version !in db.versions then (db, Err(Storage))
    else if !Baseline(db, p, editorKey, version, sha) || db.heads[p].pending.Some? then (db, Err(Conflict))
    else if save in db.saves then (db, Err(Storage))
    else
      var row := Save(p, editorKey, version, sha, requestKey, requestSha, Pending, None, None, None);
      (db.(saves := db.saves[save := row],
           heads := db.heads[p := db.heads[p].(pending := Some(save), error := None)]),
       Ok(SavePlan(save, true, false)))
  }

  predicate Baseline(db: Db, p: Uuid, editorKey: Uuid, version: Uuid, sha: Digest)
    requires p in db.heads && db.heads[p].version in db.versions
  {
    db.heads[p].version == version && db.versions[version].sha == sha && db.heads[p].session == Some(editorKey)
  }

  /** record_failure takes no project lock and no answer depends on it. */
  ghost function RecordFailureTx(db: Db, p: Uuid, key: Uuid, save: Uuid, error: EditorError): Db {
    var failing := save in db.saves && db.saves[save].project == p && db.saves[save].session == key
                   && db.saves[save].state == Pending;
    var held := p in db.heads && db.heads[p].session == Some(key) && db.heads[p].pending == Some(save);
    db.(saves := if failing
                 then db.saves[save := db.saves[save].(state := Failed, errorCode := Some(error.code))] else db.saves,
        heads := if held
                 then db.heads[p := db.heads[p].(pending := None, error := Some(error))] else db.heads)
  }

  /** Callback status 4: the document was closed without changes. */
  ghost function DetachTx(db: Db, p: Uuid, key: Uuid): (Db, Outcome<()>) {
    if p !in db.projects then (db, Err(Forbidden))
    else
      var free := p in db.heads && db.heads[p].session == Some(key) && db.heads[p].pending.None?;
      var heads := if free then db.heads[p := db.heads[p].(session := None, error := None)] else db.heads;
      var closing := key in db.sessions && !(exists q :: q in heads && heads[q].session == Some(key));
      var sessions := if closing then db.sessions[key := db.sessions[key].(closed := true)] else db.sessions;
      (db.(heads := heads, sessions := sessions), Ok(()))
  }

  /** Callback status 6, inside its transaction. */
  ghost function PublishTx(db: Db, p: Uuid, key: Uuid, save: Uuid, callbackSha: Digest,
                           sha: Digest, version: Uuid): (Db, Outcome<()>)
  {
    if p !in db.projects then (db, Err(Forbidden))
    else if save !in db.saves || db.saves[save].project != p || db.saves[save].session != key then (db, Err(Storage))
    else if db.saves[save].state == Saved then
      (db, if db.saves[save].callbackSha == Some(callbackSha) then Ok(()) else Err(Conflict))
    else if p !in db.heads || db.heads[p].version !in db.versions then (db, Err(Storage))
    else if db.saves[save].state != Pending
         || !Baseline(db, p, key, db.saves[save].parent, db.saves[save].parentSha)
         || db.heads[p].pending != Some(save) then (db, Err(Conflict))
    else if version in db.versions then (db, Err(Storage))
    else
      var parent := db.versions[db.heads[p].version];
      var row := Version(p, parent.execution, parent.round, NextRevision(db, p),
                         Some(db.saves[save].parent), Manual, sha);
      (db.(versions := db.versions[version := row],
           heads := db.heads[p := db.heads[p].(version := version, pending := None, error := None)],
           saves := db.saves[save := db.saves[save].(state := Saved, result := Some(version),
                                                     callbackSha := Some(callbackSha))]),
       Ok(()))
  }

  function FailPending(saves: map<Uuid, Save>, p: Uuid, key: Uuid): map<Uuid, Save> {
    map s | s in saves ::
      if saves[s].project == p && saves[s].session == key && saves[s].state == Pending
      then saves[s].(state := Failed, errorCode := Some(2)) else saves[s]
  }

  /** Callback status 2, inside its transaction: the final file is kept as a
      recovered version, the editor is closed and the head keeps its version. */
  ghost function RecoverTx(db: Db, p: Uuid, key: Uuid, callbackSha: Digest, sha: Digest, version: Uuid)
    : (Db, Outcome<bool>)
  {
    if p !in db.projects then (db, Err(Forbidden))
    else if key in db.recoveries then
      (db, if db.recoveries[key].callbackSha == callbackSha then Ok(false) else Err(Conflict))
    else if p !in db.heads || db.heads[p].version !in db.versions then (db, Err(Storage))
    else if db.heads[p].session != Some(key) then (db, Err(Conflict))
    else if version in db.versions || key !in db.sessions then (db, Err(Storage))
    else
      var head := db.versions[db.heads[p].version];
      var row := Version(p, head.execution, head.round, NextRevision(db, p),
                         Some(db.heads[p].version), Recovered, sha);
      (db.(versions := db.versions[version := row],
           recoveries := db.recoveries[key := Recovery(callbackSha, version)],
           saves := FailPending(db.saves, p, key),
           heads := db.heads[p := db.heads[p].(session := None, pending := None, error := None)],
           sessions := db.sessions[key := db.sessions[key].(closed := true)]),
       Ok(true))
  }

  ghost function PatchTx(db: Db, p: Uuid, status: Option<ProjectStatus>): (Db, Outcome<()>) {
    if p !in db.projects then (db, Err(NotFound))
    else if status == Some(Ended) && db.projects[p] == Open && EditorActive(db, p) then (db, Err(ActiveEditor))
    else (db.(projects := db.projects[p := if status.Some? then status.value else db.projects[p]]), Ok(()))
  }

  // ---------- steps ----------

  datatype Action =
    | Import(p: Uuid, execution: string, sha: Digest, version: Uuid, round: Uuid)
    | Select(p: Uuid, version: Uuid)
    | OpenEditor(p: Uuid, version: Uuid, mode: EditorMode, requestKey: string, requestSha: Digest, key: Uuid)
    | Close(p: Uuid, key: Uuid)
    | PrepareSave(p: Uuid, requestKey: string, requestSha: Digest, key: Uuid, version: Uuid, sha: Digest, save: Uuid)
    | RecordFailure(p: Uuid, key: Uuid, save: Uuid, error: EditorError)
    | Detach(p: Uuid, key: Uuid)
    | Publish(p: Uuid, key: Uuid, save: Uuid, callbackSha: Digest, sha: Digest, version: Uuid)
    | Recover(p: Uuid, key: Uuid, callbackSha: Digest, sha: Digest, version: Uuid)
    | Patch(p: Uuid, status: Option<ProjectStatus>)

  ghost function Apply(db: Db, a: Action): Db {
    match a
    case Import(p, execution, sha, version, round) => ImportTx(db, p, execution, sha, version, round).0
    case Select(p, version) => SelectTx(db, p, version).0
    case OpenEditor(p, version, mode, requestKey, requestSha, key) =>
      OpenTx(db, p, version, mode, requestKey, requestSha, key).0
    case Close(p, key) => CloseTx(db, p, key).0
    case PrepareSave(p, requestKey, requestSha, key, version, sha, save) =>
      PrepareSaveTx(db, p, requestKey, requestSha, key, version, sha, save).0
    case RecordFailure(p, key, save, error) => RecordFailureTx(db, p, key, save, error)
    case Detach(p, key) => DetachTx(db, p, key).0
    case Publish(p, key, save, callbackSha, sha, version) =>
      PublishTx(db, p, key, save, callbackSha, sha, version).0
    case Recover(p, key, callbackSha, sha, version) => RecoverTx(db, p, key, callbackSha, sha, version).0
    case Patch(p, status) => PatchTx(db, p, status).0
  }

  /** A round id comes from Uuid::new_v4 and no constraint guards it, so it is
      the one generated id that a step must pick unused. */
  ghost predicate Step(db: Db, a: Action, db': Db) {
    db' == Apply(db, a)
    && (a.Import? ==> forall v :: v in db.versions ==> db.versions[v].round != a.round)
  }

  ghost predicate Init(db: Db) {
    db.versions == map[] && db.heads == map[] && db.sessions == map[] && db.saves == map[] && db.recoveries == map[]
  }
}
