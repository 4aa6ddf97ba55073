/** Theorems about whole runs of the save protocol: any finite interleaving of
    the transactions of any number of requests, retries and callbacks. */
module DraftRuns {
  import opened Wrappers
  import opened Collections
  import opened DraftModel
  import opened DraftInvariant
  import opened DraftSteps

  ghost predicate Run(states: seq<Db>, actions: seq<Action>) {
    && |states| == |actions| + 1
    && Init(states[0])
    && (forall i: nat {:trigger StepAt(states, actions, i)} :: i < |actions| ==> StepAt(states, actions, i))
  }

  ghost predicate StepAt(states: seq<Db>, actions: seq<Action>, i: nat) {
    i < |actions| && i + 1 < |states| && Step(states[i], actions[i], states[i + 1])
  }

  ghost predicate Reachable(db: Db) {
    exists states, actions :: Run(states, actions) && states[|actions|] == db
  }

  lemma NextSafe(states: seq<Db>, actions: seq<Action>, i: nat)
    requires Run(states, actions) && i < |actions| && Inv(states[i])
    ensures Inv(states[i + 1]) && Later(states[i], states[i + 1])
  {
    assert StepAt(states, actions, i);
    StepKeeps(states[i], actions[i], states[i + 1]);
  }

  lemma {:induction false} RunSafe(states: seq<Db>, actions: seq<Action>, i: nat)
    requires Run(states, actions) && i < |states|
    ensures Inv(states[i])
  {
    if i == 0 {
      InitOk(states[0]);
    } else {
      RunSafe(states, actions, i - 1);
      NextSafe(states, actions, i - 1);
    }
  }

  lemma ReachableSafe(db: Db)
    requires Reachable(db)
    ensures Inv(db)
  {
    var states, actions :| Run(states, actions) && states[|actions|] == db;
    RunSafe(states, actions, |actions|);
  }

  lemma LaterTransitive(a: Db, b: Db, c: Db)
    requires Later(a, b) && Later(b, c)
    ensures Later(a, c)
  {
    forall k: Uuid | k in a.sessions ensures SessionLater(a, c, k) {
      assert SessionLater(a, b, k) && SessionLater(b, c, k);
    }
    forall s: Uuid | s in a.saves ensures SaveLater(a, c, s) {
      assert SaveLater(a, b, s) && SaveLater(b, c, s);
    }
  }

  /** History only grows along a run. */
  lemma {:induction false} RunExtends(states: seq<Db>, actions: seq<Action>, i: nat, j: nat)
    requires Run(states, actions) && i <= j < |states|
    ensures Later(states[i], states[j])
    decreases j
  {
    if i < j {
      RunExtends(states, actions, i, j - 1);
      RunSafe(states, actions, j - 1);
      NextSafe(states, actions, j - 1);
      LaterTransitive(states[i], states[j - 1], states[j]);
    }
  }

  // ---------- one editor, one pending save ----------

  /** A save is Pending exactly when its project's head waits for it; it then
      belongs to the session that holds the head and was taken of the head version. */
  lemma OnePendingSave(db: Db)
    requires Reachable(db)
    ensures forall s | s in db.saves :: db.saves[s].state == Pending <==>
              db.saves[s].project in db.heads && db.heads[db.saves[s].project].pending == Some(s)
    ensures forall s | s in db.saves && db.saves[s].state == Pending ::
              var head := db.heads[db.saves[s].project];
              head.session == Some(db.saves[s].session) && head.version == db.saves[s].parent
              && head.version in db.versions && db.versions[head.version].sha == db.saves[s].parentSha
    ensures forall s, t | s in db.saves && t in db.saves && db.saves[s].project == db.saves[t].project
                          && db.saves[s].state == Pending && db.saves[t].state == Pending :: s == t
  {
    ReachableSafe(db);
    forall s | s in db.saves && db.saves[s].state == Pending
      ensures db.saves[s].project in db.heads && db.heads[db.saves[s].project].pending == Some(s)
      ensures Awaited(db, db.saves[s].project, s)
    {
      assert IsPending(db, s);
      assert HeadOk(db, db.saves[s].project);
    }
    forall s | s in db.saves && db.saves[s].project in db.heads && db.heads[db.saves[s].project].pending == Some(s)
      ensures db.saves[s].state == Pending
    {
      assert HeadOk(db, db.saves[s].project);
    }
  }

  /** The session of a head is exactly the one unclosed edit session of its project. */
  lemma OneEditor(db: Db, p: Uuid, k: Uuid)
    requires Reachable(db)
    ensures k in db.sessions && db.sessions[k].project == p && db.sessions[k].mode == Edit && !db.sessions[k].closed
            <==> p in db.heads && db.heads[p].session == Some(k)
  {
    ReachableSafe(db);
    if Editing(db, p, k) { assert Holds(db, p, k); }
    if p in db.heads { assert HeadOk(db, p); }
  }

  ghost predicate Addresses(a: Action, k: Uuid) {
    match a
    case OpenEditor(_, _, mode, _, _, _) => mode == View
    case Close(_, key) => key == k
    case PrepareSave(_, _, _, key, _, _, _) => key == k
    case RecordFailure(_, key, _, _) => key == k
    case Detach(_, key) => key == k
    case Publish(_, key, _, _, _, _) => key == k
    case Recover(_, key, _, _, _) => key == k
    case _ => false
  }

  /** Opening a view session, and any request that carries the key of one, leaves every head row alone. */
  lemma ViewSessionsLeaveHeads(db: Db, a: Action, k: Uuid)
    requires Reachable(db) && Addresses(a, k)
    requires a.OpenEditor? || (k in db.sessions && db.sessions[k].mode == View)
    ensures Apply(db, a).heads == db.heads
  {
    ReachableSafe(db);
    if !a.OpenEditor? {
      forall p | p in db.heads ensures db.heads[p].session != Some(k) { assert HeadOk(db, p); }
      if a.Publish? && a.save in db.saves { assert SaveOk(db, a.save); }
    }
  }

  // ---------- no lost update ----------

  /** While session `k` holds the head of `p`, only publishing its own pending
      save moves the head, and the new version is a child of the old one.  In
      particular a recovered final file moves no head. */
  lemma OnlyPublishMovesHead(db: Db, a: Action, p: Uuid)
    requires p in db.heads && db.heads[p].session.Some?
    ensures p in Apply(db, a).heads
    ensures var db' := Apply(db, a);
            var v, v' := db.heads[p].version, db'.heads[p].version;
            v' != v ==> a.Publish? && a.p == p && Some(a.key) == db.heads[p].session
                        && db.heads[p].pending == Some(a.save) && a.version == v'
                        && v' in db'.versions && db'.versions[v'].source == Manual && db'.versions[v'].parent == Some(v)
    ensures a.Recover? ==> Apply(db, a).heads[p].version == db.heads[p].version
  {}

  lemma LineageStep(db: Db, k: Uuid, c: seq<Uuid>, ss: seq<Uuid>, i: nat)
    requires Inv(db) && Lineage(db, k, c, ss) && i < |ss|
    ensures c[i] in db.versions && c[i + 1] in db.versions
    ensures db.versions[c[i]].revision < db.versions[c[i + 1]].revision
  {
    assert Published(db, k, ss[i], c[i], c[i + 1]);
    assert VersionOk(db, c[i + 1]);
  }

  lemma {:induction false} LineageIncreases(db: Db, k: Uuid, c: seq<Uuid>, ss: seq<Uuid>, i: nat, j: nat)
    requires Inv(db) && Lineage(db, k, c, ss) && i < j < |c|
    ensures c[i] in db.versions && c[j] in db.versions && db.versions[c[i]].revision < db.versions[c[j]].revision
    decreases j
  {
    LineageStep(db, k, c, ss, j - 1);
    if i < j - 1 { LineageIncreases(db, k, c, ss, i, j - 1); }
  }

  /** No save stands twice in a lineage: its versions have increasing revisions. */
  lemma LineageDistinct(db: Db, k: Uuid, c: seq<Uuid>, ss: seq<Uuid>, i: nat, j: nat)
    requires Inv(db) && Lineage(db, k, c, ss) && i < j < |ss|
    ensures ss[i] != ss[j]
  {
    LineageIncreases(db, k, c, ss, i + 1, j + 1);
    assert Published(db, k, ss[i], c[i], c[i + 1]) && Published(db, k, ss[j], c[j], c[j + 1]);
  }

  /** The lineage of a session is determined by the state and only ever extended. */
  lemma {:induction false} LineagePrefix(db: Db, db': Db, k: Uuid, c: seq<Uuid>, ss: seq<Uuid>, c': seq<Uuid>,
                                         ss': seq<Uuid>, n: nat)
    requires Inv(db') && Later(db, db')
    requires Lineage(db, k, c, ss) && Lineage(db', k, c', ss') && n <= |ss|
    ensures n <= |ss'| && c[..n + 1] == c'[..n + 1] && ss[..n] == ss'[..n]
    decreases n
  {
    assert SessionLater(db, db', k);
    if n > 0 {
      LineagePrefix(db, db', k, c, ss, c', ss', n - 1);
      var s := ss[n - 1];
      assert Published(db, k, s, c[n - 1], c[n]) && SaveLater(db, db', s);
      assert c[n - 1] == c[..n][n - 1] == c'[..n][n - 1] == c'[n - 1];
      assert SavedIn(db', k, s);
      var m :| 0 <= m < |ss'| && ss'[m] == s;
      assert Published(db', k, ss'[m], c'[m], c'[m + 1]);
      if m < n - 1 { LineageIncreases(db', k, c', ss', m, n - 1); }
      if n - 1 < m { LineageIncreases(db', k, c', ss', n - 1, m); }
      assert m == n - 1;
      assert c[..n + 1] == c[..n] + [c[n]] && c'[..n + 1] == c'[..n] + [c'[n]];
      assert ss[..n] == ss[..n - 1] + [s] && ss'[..n] == ss'[..n - 1] + [s];
    }
  }

  /** No lost update.  Between two states in which session `k` holds the head of
      `p`, the lineage of `k` was only extended: the earlier head version is still
      on it, and each version after it was published by one Saved save of `k`, no
      two by the same. */
  lemma NoLostUpdate(states: seq<Db>, actions: seq<Action>, i: nat, j: nat, p: Uuid, k: Uuid)
    returns (c: seq<Uuid>, ss: seq<Uuid>, c': seq<Uuid>, ss': seq<Uuid>)
    requires Run(states, actions) && i <= j < |states|
    requires Holds(states[i], p, k) && Holds(states[j], p, k)
    ensures Lineage(states[i], k, c, ss) && Lineage(states[j], k, c', ss')
    ensures c <= c' && ss <= ss'
    ensures c[|c| - 1] == states[i].heads[p].version && c'[|c'| - 1] == states[j].heads[p].version
    ensures forall a, b :: 0 <= a < b < |ss'| ==> ss'[a] != ss'[b]
  {
    var db, db' := states[i], states[j];
    RunSafe(states, actions, i); RunSafe(states, actions, j); RunExtends(states, actions, i, j);
    assert HeadOk(db, p) && HeadOk(db', p) && Chained(db, k) && Chained(db', k);
    c, ss :| Lineage(db, k, c, ss) && EndsAtHead(db, k, c);
    c', ss' :| Lineage(db', k, c', ss') && EndsAtHead(db', k, c');
    LineagePrefix(db, db', k, c, ss, c', ss', |ss|);
    assert c == c[..|ss| + 1] && ss == ss[..|ss|];
    forall a, b | 0 <= a < b < |ss'| ensures ss'[a] != ss'[b] { LineageDistinct(db', k, c', ss', a, b); }
  }

  // ---------- exactly-once publication ----------

  /** Sets in one-to-one correspondence have the same size. */
  lemma {:induction false} SameSize<A, B>(a: set<A>, b: set<B>, f: map<A, B>)
    requires f.Keys == a && (forall y :: y in b <==> exists x :: x in a && f[x] == y)
    requires forall x, y :: x in a && y in a && f[x] == f[y] ==> x == y
    ensures |a| == |b|
  {
    if a == {} {
      assert forall y :: y in b ==> false;
      assert b == {};
    } else {
      var x :| x in a;
      var a', b', f' := a - {x}, b - {f[x]}, f - {x};
      forall y ensures y in b' <==> exists z :: z in a' && f'[z] == y {
        if y in b' {
          var z :| z in a && f[z] == y;
          assert z in a' && f'[z] == y;
        }
      }
      SameSize(a', b', f');
    }
  }

  ghost function VersionsFrom(db: Db, source: Source): set<Uuid> {
    set v | v in db.versions && db.versions[v].source == source
  }

  ghost function SavedSaves(db: Db): set<Uuid> {
    set s | s in db.saves && db.saves[s].state == Saved
  }

  /** Manual versions and Saved saves are in bijection, as are recovered versions
      and recoveries; the version a save published is a child of its baseline. */
  lemma ExactlyOncePublication(db: Db)
    requires Reachable(db)
    ensures |VersionsFrom(db, Manual)| == |SavedSaves(db)|
    ensures |VersionsFrom(db, Recovered)| == |db.recoveries.Keys|
    ensures forall s, t | s in db.saves && t in db.saves && db.saves[s].result.Some?
                          && db.saves[s].result == db.saves[t].result :: s == t
    ensures forall s | s in db.saves :: db.saves[s].state == Saved <==> db.saves[s].result.Some?
    ensures forall s | s in db.saves && db.saves[s].result.Some? ::
              var v := db.saves[s].result.value;
              v in db.versions && db.versions[v].source == Manual && db.versions[v].parent == Some(db.saves[s].parent)
  {
    ReachableSafe(db);
    forall s | s in db.saves ensures SaveOk(db, s) {}
    forall s, t | s in db.saves && t in db.saves && db.saves[s].result.Some? && db.saves[s].result == db.saves[t].result
      ensures s == t
    {
      assert SameResult(db, s, t);
    }
    PublishedCount(db);
    RecoveredCount(db);
  }

  lemma PublishedCount(db: Db)
    requires SavesOk(db)
    ensures |VersionsFrom(db, Manual)| == |SavedSaves(db)|
  {
    forall s | s in SavedSaves(db) ensures db.saves[s].result.Some? { assert SaveOk(db, s); }
    var f := map s | s in SavedSaves(db) :: db.saves[s].result.value;
    forall v ensures v in VersionsFrom(db, Manual) <==> exists s :: s in SavedSaves(db) && f[s] == v {
      if v in VersionsFrom(db, Manual) {
        assert HasSave(db, v);
        var s :| s in db.saves && db.saves[s].result == Some(v);
        assert SaveOk(db, s);
        assert s in SavedSaves(db) && f[s] == v;
      }
      if s :| s in SavedSaves(db) && f[s] == v { assert SaveOk(db, s); }
    }
    forall s, t | s in SavedSaves(db) && t in SavedSaves(db) && f[s] == f[t] ensures s == t {
      assert SameResult(db, s, t);
    }
    SameSize(SavedSaves(db), VersionsFrom(db, Manual), f);
  }

  lemma RecoveredCount(db: Db)
    requires RecoveriesOk(db)
    ensures |VersionsFrom(db, Recovered)| == |db.recoveries.Keys|
  {
    var f := map k | k in db.recoveries :: db.recoveries[k].version;
    forall v ensures v in VersionsFrom(db, Recovered) <==> exists k :: k in db.recoveries.Keys && f[k] == v {
      if v in VersionsFrom(db, Recovered) {
        assert HasRecovery(db, v);
        var k :| k in db.recoveries && db.recoveries[k].version == v;
        assert k in db.recoveries.Keys && f[k] == v;
      }
      if k :| k in db.recoveries.Keys && f[k] == v { assert RecoveryOk(db, k); }
    }
    forall k, l | k in db.recoveries.Keys && l in db.recoveries.Keys && f[k] == f[l] ensures k == l {
      assert SameRecovery(db, k, l);
    }
    SameSize(db.recoveries.Keys, VersionsFrom(db, Recovered), f);
  }

  /** What was delivered is what is kept: from the step on that publishes a save, the
      version of the save holds the delivered content. */
  lemma PublishedContentIsKept(states: seq<Db>, actions: seq<Action>, i: nat, j: nat)
    requires Run(states, actions) && i < |actions| && i < j < |states| && actions[i].Publish?
    requires states[i + 1] != states[i]
    ensures var a := actions[i];
            && a.save in states[j].saves && states[j].saves[a.save].state == Saved
            && states[j].saves[a.save].result == Some(a.version)
            && states[j].saves[a.save].callbackSha == Some(a.callbackSha)
            && a.version in states[j].versions && states[j].versions[a.version].sha == a.sha
  {
    assert StepAt(states, actions, i);
    RunExtends(states, actions, i + 1, j);
    assert SaveLater(states[i + 1], states[j], actions[i].save);
  }

  /** Saved and Failed are absorbing: a finished save never changes again. */
  lemma FinishedSavesAreFinal(states: seq<Db>, actions: seq<Action>, i: nat, j: nat, s: Uuid)
    requires Run(states, actions) && i <= j < |states|
    requires s in states[i].saves && states[i].saves[s].state != Pending
    ensures s in states[j].saves && states[j].saves[s] == states[i].saves[s]
  {
    RunExtends(states, actions, i, j);
    assert SaveLater(states[i], states[j], s);
  }

  // ---------- history of versions ----------

  /** The version at the start of the parent chain of `v`. */
  ghost function Root(db: Db, v: Uuid): (root: Uuid)
    requires VersionsOk(db) && v in db.versions
    ensures root in db.versions && db.versions[root].source == Generated && db.versions[root].parent.None?
    ensures db.versions[root].project == db.versions[v].project
    ensures db.versions[root].round == db.versions[v].round
    ensures db.versions[root].execution == db.versions[v].execution
    decreases db.versions[v].revision
  {
    assert VersionOk(db, v);
    match db.versions[v].parent
    case None => v
    case Some(parent) => Root(db, parent)
  }

  /** Every parent chain ends at the single generated version of its round, and
      that is also the single generated version of its execution. */
  lemma HistoryIsRooted(db: Db, v: Uuid, w: Uuid)
    requires Reachable(db) && v in db.versions && w in db.versions && db.versions[w].source == Generated
    requires db.versions[w].round == db.versions[v].round
             || (db.versions[w].project == db.versions[v].project
                 && db.versions[w].execution == db.versions[v].execution)
    ensures VersionsOk(db) && Root(db, v) == w
  {
    ReachableSafe(db);
    assert Twins(db, Root(db, v), w);
  }

  ghost function VersionsOfProject(db: Db, p: Uuid): set<Uuid> {
    set v | v in db.versions && db.versions[v].project == p
  }

  /** The revisions of a project are exactly 1..n, for its n versions. */
  lemma RevisionsAreContiguous(db: Db, p: Uuid)
    requires Reachable(db)
    ensures Revisions(db, p) == Interval(1, |VersionsOfProject(db, p)| + 1)
  {
    ReachableSafe(db);
    RevisionCount(db, p);
    RevisionsFromOne(db, p);
  }

  lemma RevisionCount(db: Db, p: Uuid)
    requires RevisionsOk(db)
    ensures |Revisions(db, p)| == |VersionsOfProject(db, p)|
  {
    var vs := VersionsOfProject(db, p);
    var f := map v | v in vs :: db.versions[v].revision;
    forall v, w | v in vs && w in vs && f[v] == f[w] ensures v == w { assert SameRevision(db, v, w); }
    forall r ensures r in Revisions(db, p) <==> exists v :: v in vs && f[v] == r {
      if r in Revisions(db, p) {
        var v :| v in db.versions && db.versions[v].project == p && db.versions[v].revision == r;
        assert v in vs && f[v] == r;
      }
    }
    SameSize(vs, Revisions(db, p), f);
  }

  lemma RevisionsFromOne(db: Db, p: Uuid)
    requires VersionsOk(db) && RevisionsOk(db)
    ensures Revisions(db, p) == Interval(1, MaxRevision(Revisions(db, p)) + 1)
  {
    var revisions := Revisions(db, p);
    var top := MaxRevision(revisions);
    forall r: nat ensures r in revisions <==> 1 <= r < top + 1 {
      if r in revisions {
        var v :| v in db.versions && db.versions[v].project == p && db.versions[v].revision == r;
        assert VersionOk(db, v);
      }
      if top in revisions { assert Contiguous(db, p, top); }
    }
    IsInterval(revisions, 1, top + 1);
  }

  // ---------- ended projects ----------

  /** An Ended project has no editor and no pending save. */
  lemma EndedIsQuiet(db: Db, p: Uuid)
    requires Reachable(db) && p in db.projects && db.projects[p] == Ended
    ensures p in db.heads ==> db.heads[p].session.None? && db.heads[p].pending.None?
    ensures forall k :: !Editing(db, p, k)
    ensures forall s | s in db.saves && db.saves[s].project == p :: db.saves[s].state != Pending
  {
    ReachableSafe(db);
    if p in db.heads { assert HeadOk(db, p); }
    forall k: Uuid ensures !Editing(db, p, k) {
      assert Editing(db, p, k) ==> Holds(db, p, k);
    }
    forall s | s in db.saves && db.saves[s].project == p ensures db.saves[s].state != Pending {
      assert IsPending(db, s) ==> p in db.heads;
    }
  }

  lemma EndedHeadStep(db: Db, a: Action, p: Uuid)
    requires HeadsOk(db) && p in db.heads && p in db.projects && db.projects[p] == Ended
    ensures p in Apply(db, a).heads
    ensures Apply(db, a).heads[p] == db.heads[p]
  {
    assert HeadOk(db, p);
  }

  lemma EndedHeadNext(states: seq<Db>, actions: seq<Action>, m: nat, p: Uuid)
    requires Run(states, actions) && m < |actions|
    requires p in states[m].heads && p in states[m].projects && states[m].projects[p] == Ended
    ensures p in states[m + 1].heads && states[m + 1].heads[p] == states[m].heads[p]
  {
    RunSafe(states, actions, m);
    assert StepAt(states, actions, m);
    EndedHeadStep(states[m], actions[m], p);
  }

  /** While a project stays Ended its head row never changes. */
  lemma {:induction false} EndedHeadIsFrozen(states: seq<Db>, actions: seq<Action>, i: nat, j: nat, p: Uuid)
    requires Run(states, actions) && i <= j < |states| && p in states[i].heads
    requires forall m :: i <= m <= j ==> p in states[m].projects && states[m].projects[p] == Ended
    ensures p in states[j].heads && states[j].heads[p] == states[i].heads[p]
    decreases j
  {
    if i < j {
      EndedHeadIsFrozen(states, actions, i, j - 1, p);
      EndedHeadNext(states, actions, j - 1, p);
    }
  }

  /** An exact replay of a Saved request is answered with the same save and no new
      dispatch in every later state, Ended or not; any other content is refused.
      Neither changes a row. */
  lemma SavedRequestReplays(states: seq<Db>, actions: seq<Action>, i: nat, j: nat, s: Uuid, requestSha: Digest,
                            editorKey: Uuid, version: Uuid, sha: Digest, unused: Uuid)
    requires Run(states, actions) && i <= j < |states|
    requires s in states[i].saves && states[i].saves[s].state == Saved
    ensures var row := states[i].saves[s];
            PrepareSaveTx(states[j], row.project, row.requestKey, requestSha, editorKey, version, sha, unused) ==
            (states[j], if requestSha == row.requestSha then Ok(SavePlan(s, false, true)) else Err(Conflict))
  {
    FinishedSavesAreFinal(states, actions, i, j, s);
    RunSafe(states, actions, j);
    var db, row := states[j], states[i].saves[s];
    assert SaveOk(db, s) && VersionOk(db, row.parent);
    assert IsRequest(db, row.project, row.requestKey, s);
    forall t | IsRequest(db, row.project, row.requestKey, t) ensures t == s { assert SameRequest(db, s, t); }
  }
}
