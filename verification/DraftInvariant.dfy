/** What every committed state of the save protocol satisfies, row by row.  The
    quantifiers are triggered by the named row predicates alone, so that a proof
    unfolds only the rows it mentions. */
module DraftInvariant {
  import opened Wrappers
  import opened DraftModel

  // ---------- versions ----------

  ghost predicate VersionOk(db: Db, v: Uuid) {
    && v in db.versions
    && var row := db.versions[v];
    && row.project in db.projects && row.project in db.heads
    && row.revision > 0
    && (row.source == Generated <==> row.parent.None?)
    && (row.parent.Some? ==> Child(db, row, row.parent.value))
  }

  ghost predicate Child(db: Db, row: Version, parent: Uuid) {
    && parent in db.versions
    && var up := db.versions[parent];
       up.project == row.project && up.round == row.round && up.execution == row.execution
       && up.revision < row.revision
  }

  /** Two generated rows that claim one round, or one execution of a project. */
  ghost predicate Twins(db: Db, v: Uuid, w: Uuid) {
    && v in db.versions && w in db.versions
    && var a, b := db.versions[v], db.versions[w];
    && a.source == Generated && b.source == Generated
    && (a.round == b.round || (a.project == b.project && a.execution == b.execution))
  }

  ghost predicate SameRevision(db: Db, v: Uuid, w: Uuid) {
    v in db.versions && w in db.versions && db.versions[v].project == db.versions[w].project
    && db.versions[v].revision == db.versions[w].revision
  }

  ghost predicate Contiguous(db: Db, p: Uuid, r: nat) {
    forall lower: nat :: 0 < lower <= r ==> lower in Revisions(db, p)
  }

  ghost predicate VersionsOk(db: Db) {
    && (forall v: Uuid {:trigger VersionOk(db, v)} :: v in db.versions ==> VersionOk(db, v))
    && (forall v: Uuid, w: Uuid {:trigger Twins(db, v, w)} :: Twins(db, v, w) ==> v == w)
  }

  /** The revisions of each project are exactly 1..n. */
  ghost predicate RevisionsOk(db: Db) {
    && (forall v: Uuid, w: Uuid {:trigger SameRevision(db, v, w)} :: SameRevision(db, v, w) ==> v == w)
    && (forall p: Uuid, r: nat {:trigger Contiguous(db, p, r)} :: r in Revisions(db, p) ==> Contiguous(db, p, r))
  }

  // ---------- heads and sessions ----------

  /** `k` is an unclosed edit session of project `p`. */
  ghost predicate Editing(db: Db, p: Uuid, k: Uuid) {
    k in db.sessions && db.sessions[k].project == p && db.sessions[k].mode == Edit && !db.sessions[k].closed
  }

  ghost predicate Holds(db: Db, p: Uuid, k: Uuid) {
    p in db.heads && db.heads[p].session == Some(k)
  }

  ghost predicate HeadOk(db: Db, p: Uuid) {
    && p in db.heads
    && var head := db.heads[p];
    && p in db.projects && VersionOf(db, p, head.version)
    && (head.session.Some? ==> Editing(db, p, head.session.value))
    && (head.pending.Some? ==> Awaited(db, p, head.pending.value))
    && (db.projects[p] == Ended ==> head.session.None? && head.pending.None?)
  }

  /** The pending save of a head: its session holds the head and its baseline is the head version. */
  ghost predicate Awaited(db: Db, p: Uuid, s: Uuid) {
    && p in db.heads && s in db.saves
    && db.saves[s].project == p && db.saves[s].state == Pending
    && db.heads[p].session == Some(db.saves[s].session)
    && db.saves[s].parent == db.heads[p].version && db.saves[s].parent in db.versions
    && db.saves[s].parentSha == db.versions[db.saves[s].parent].sha
  }

  ghost predicate HeadsOk(db: Db) {
    && (forall p: Uuid {:trigger HeadOk(db, p)} :: p in db.heads ==> HeadOk(db, p))
    && (forall p: Uuid, k: Uuid {:trigger Editing(db, p, k)} :: Editing(db, p, k) ==> Holds(db, p, k))
  }

  ghost predicate SessionOk(db: Db, k: Uuid) {
    k in db.sessions && VersionOf(db, db.sessions[k].project, db.sessions[k].base)
  }

  ghost predicate SameOpening(db: Db, k: Uuid, l: Uuid) {
    k in db.sessions && l in db.sessions && db.sessions[k].project == db.sessions[l].project
    && db.sessions[k].requestKey == db.sessions[l].requestKey
  }

  ghost predicate SessionsOk(db: Db) {
    && (forall k: Uuid {:trigger SessionOk(db, k)} :: k in db.sessions ==> SessionOk(db, k))
    && (forall k: Uuid, l: Uuid {:trigger SameOpening(db, k, l)} :: SameOpening(db, k, l) ==> k == l)
  }

  // ---------- saves and recoveries ----------

  ghost predicate SaveOk(db: Db, s: Uuid) {
    && s in db.saves
    && var row := db.saves[s];
    && row.session in db.sessions && db.sessions[row.session].project == row.project
    && db.sessions[row.session].mode == Edit
    && VersionOf(db, row.project, row.parent) && db.versions[row.parent].sha == row.parentSha
    && (row.state == Saved <==> row.result.Some?) && (row.state == Saved <==> row.callbackSha.Some?)
    && (row.result.Some? ==> ResultOk(db, row, row.result.value))
  }

  ghost predicate ResultOk(db: Db, row: Save, v: Uuid) {
    VersionOf(db, row.project, v) && db.versions[v].source == Manual && db.versions[v].parent == Some(row.parent)
  }

  ghost predicate IsPending(db: Db, s: Uuid) {
    s in db.saves && db.saves[s].state == Pending
  }

  ghost predicate SameRequest(db: Db, s: Uuid, t: Uuid) {
    s in db.saves && t in db.saves && db.saves[s].project == db.saves[t].project
    && db.saves[s].requestKey == db.saves[t].requestKey
  }

  ghost predicate SameResult(db: Db, s: Uuid, t: Uuid) {
    s in db.saves && t in db.saves && db.saves[s].result.Some? && db.saves[s].result == db.saves[t].result
  }

  ghost predicate HasSave(db: Db, v: Uuid) {
    exists s :: s in db.saves && db.saves[s].result == Some(v)
  }

  ghost predicate SavesOk(db: Db) {
    && (forall s: Uuid {:trigger SaveOk(db, s)} :: s in db.saves ==> SaveOk(db, s))
    && (forall s: Uuid {:trigger IsPending(db, s)} :: IsPending(db, s) ==>
          db.saves[s].project in db.heads && db.heads[db.saves[s].project].pending == Some(s))
    && (forall s: Uuid, t: Uuid {:trigger SameRequest(db, s, t)} :: SameRequest(db, s, t) ==> s == t)
    && (forall s: Uuid, t: Uuid {:trigger SameResult(db, s, t)} :: SameResult(db, s, t) ==> s == t)
    && (forall v: Uuid {:trigger HasSave(db, v)} ::
          v in db.versions && db.versions[v].source == Manual ==> HasSave(db, v))
  }

  ghost predicate RecoveryOk(db: Db, k: Uuid) {
    && k in db.recoveries && k in db.sessions && db.sessions[k].closed
    && VersionOf(db, db.sessions[k].project, db.recoveries[k].version)
    && db.versions[db.recoveries[k].version].source == Recovered
  }

  ghost predicate SameRecovery(db: Db, k: Uuid, l: Uuid) {
    k in db.recoveries && l in db.recoveries && db.recoveries[k].version == db.recoveries[l].version
  }

  ghost predicate HasRecovery(db: Db, v: Uuid) {
    exists k :: k in db.recoveries && db.recoveries[k].version == v
  }

  ghost predicate RecoveriesOk(db: Db) {
    && (forall k: Uuid {:trigger RecoveryOk(db, k)} :: k in db.recoveries ==> RecoveryOk(db, k))
    && (forall k: Uuid, l: Uuid {:trigger SameRecovery(db, k, l)} :: SameRecovery(db, k, l) ==> k == l)
    && (forall v: Uuid {:trigger HasRecovery(db, v)} ::
          v in db.versions && db.versions[v].source == Recovered ==> HasRecovery(db, v))
  }

  // ---------- the lineage of an editing session ----------

  /** Save `s` of session `k` published version `v` on top of `parent`. */
  ghost predicate Published(db: Db, k: Uuid, s: Uuid, parent: Uuid, v: Uuid) {
    && s in db.saves && db.saves[s].session == k && db.saves[s].state == Saved
    && db.saves[s].parent == parent && db.saves[s].result == Some(v)
    && v in db.versions && db.versions[v].parent == Some(parent) && db.versions[v].source == Manual
  }

  ghost predicate SavedIn(db: Db, k: Uuid, s: Uuid) {
    s in db.saves && db.saves[s].session == k && db.saves[s].state == Saved
  }

  /** The Saved saves `ss` of session `k` in publication order, and the versions
      `c` they published, each on top of the one before, from the base of `k`. */
  ghost predicate Lineage(db: Db, k: Uuid, c: seq<Uuid>, ss: seq<Uuid>) {
    && k in db.sessions
    && |c| == |ss| + 1 && c[0] == db.sessions[k].base
    && (forall i :: 0 <= i < |ss| ==> Published(db, k, ss[i], c[i], c[i + 1]))
    && (forall s: Uuid {:trigger SavedIn(db, k, s)} :: SavedIn(db, k, s) ==> s in ss)
  }

  ghost predicate EndsAtHead(db: Db, k: Uuid, c: seq<Uuid>) {
    k in db.sessions && Holds(db, db.sessions[k].project, k) ==>
      |c| > 0 && c[|c| - 1] == db.heads[db.sessions[k].project].version
  }

  /** Session `k` has a lineage, which ends at the head version while `k` holds the head. */
  ghost predicate Chained(db: Db, k: Uuid) {
    exists c, ss :: Lineage(db, k, c, ss) && EndsAtHead(db, k, c)
  }

  ghost predicate ChainsOk(db: Db) {
    forall k: Uuid {:trigger Chained(db, k)} :: k in db.sessions ==> Chained(db, k)
  }

  ghost predicate Inv(db: Db) {
    VersionsOk(db) && RevisionsOk(db) && HeadsOk(db) && SessionsOk(db) && SavesOk(db) && RecoveriesOk(db)
      && ChainsOk(db)
  }

  // ---------- history ----------

  ghost predicate SessionLater(db: Db, db': Db, k: Uuid) {
    && k in db.sessions && k in db'.sessions
    && db'.sessions[k] == db.sessions[k].(closed := db'.sessions[k].closed)
    && (db.sessions[k].closed ==> db'.sessions[k].closed)
  }

  /** Saved and Failed are absorbing, and the request of a save never changes. */
  ghost predicate SaveLater(db: Db, db': Db, s: Uuid) {
    && s in db.saves && s in db'.saves
    && var a, b := db.saves[s], db'.saves[s];
    && (a.state != Pending ==> b == a)
    && b == a.(state := b.state, result := b.result, callbackSha := b.callbackSha, errorCode := b.errorCode)
  }

  /** `db'` extends the history of `db`: versions and recoveries are append-only,
      finished saves are final, closed sessions stay closed, heads are never dropped. */
  ghost predicate Later(db: Db, db': Db) {
    && db.projects.Keys == db'.projects.Keys
    && (forall v :: v in db.versions ==> v in db'.versions && db'.versions[v] == db.versions[v])
    && db.heads.Keys <= db'.heads.Keys
    && (forall k: Uuid {:trigger SessionLater(db, db', k)} :: k in db.sessions ==> SessionLater(db, db', k))
    && (forall s: Uuid {:trigger SaveLater(db, db', s)} :: s in db.saves ==> SaveLater(db, db', s))
    && (forall k :: k in db.recoveries ==> k in db'.recoveries && db'.recoveries[k] == db.recoveries[k])
  }
}
