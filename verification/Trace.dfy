/** The trace tree of one processing attempt: rows are attached one by one to the
    first node carrying their parent id, and missing stages are filled in. */
module Trace {
  import opened Wrappers

  type Uuid = nat

  datatype Status = Pending | Running | Done | Failed | Skipped | Cancelled
  datatype ParseStatus =
    | ParsePending | Processing | Finalizing | Completed | ParseFailed | ParseCancelled | Deleting | Deleted

  /** The fields a node only copies from its row. */
  datatype Detail = Detail(output: Option<string>, error: string, started: Option<int>, finished: Option<int>,
                           duration: Option<int>)

  datatype Span = Span(id: Uuid, parent: Option<Uuid>, name: string, kind: string, status: Status, attempt: int,
                       detail: Detail)

  /** A node without its children. */
  datatype Facts = Facts(id: Option<Uuid>, parent: Option<Uuid>, name: string, kind: string, status: Status,
                         attempt: int, detail: Detail)
  datatype Node = Node(facts: Facts, children: seq<Node>)

  const ROOT: string := "root"
  const STAGE: string := "stage"
  const ROOT_NAME: string := "document_processing"
  const ALL_STAGES: seq<string> := ["docreader", "chunking", "embedding", "multimodal", "postprocess"]
  const BLANK: Detail := Detail(None, "", None, None, None)

  function FactsOf(r: Span): Facts { Facts(Some(r.id), r.parent, r.name, r.kind, r.status, r.attempt, r.detail) }
  function Leaf(f: Facts): Node { Node(f, []) }
  function Push(n: Node, c: Node): Node { Node(n.facts, n.children + [c]) }

  // ---------- attaching one node ----------

  /** attach_child, as a value: the tree with `c` attached, if the id is in it. */
  function Attach(n: Node, id: Uuid, c: Node): Option<Node>
    decreases n, |n.children| + 1
  {
    if n.facts.id == Some(id) then Some(Push(n, c)) else AttachFrom(n, 0, id, c)
  }

  function AttachFrom(n: Node, k: nat, id: Uuid, c: Node): Option<Node>
    requires k <= |n.children|
    decreases n, |n.children| - k
  {
    if k == |n.children| then None
    else match Attach(n.children[k], id, c)
      case Some(child) => Some(Node(n.facts, n.children[k := child]))
      case None => AttachFrom(n, k + 1, id, c)
  }

  method AttachChild(n: Node, id: Uuid, c: Node) returns (attached: bool, result: Node)
    ensures attached <==> Attach(n, id, c).Some?
    ensures result == if attached then Attach(n, id, c).value else n
    decreases n
  {
    if n.facts.id == Some(id) { return true, Node(n.facts, n.children + [c]); }
    for k := 0 to |n.children|
      invariant AttachFrom(n, k, id, c) == AttachFrom(n, 0, id, c)
    {
      var done, child := AttachChild(n.children[k], id, c);
      if done { return true, Node(n.facts, n.children[k := child]); }
    }
    return false, n;
  }

  // ---------- what a tree holds ----------

  /** Every node of the tree. */
  ghost function Bag(n: Node): multiset<Facts>
    decreases n, |n.children| + 1
  {
    multiset{n.facts} + BagUpTo(n, |n.children|)
  }

  ghost function BagUpTo(n: Node, k: nat): multiset<Facts>
    requires k <= |n.children|
    decreases n, k
  {
    if k == 0 then multiset{} else BagUpTo(n, k - 1) + Bag(n.children[k - 1])
  }

  /** Every parent and child of the tree. */
  ghost function Edges(n: Node): multiset<(Facts, Facts)>
    decreases n, |n.children| + 1
  {
    EdgesUpTo(n, |n.children|)
  }

  ghost function EdgesUpTo(n: Node, k: nat): multiset<(Facts, Facts)>
    requires k <= |n.children|
    decreases n, k
  {
    if k == 0 then multiset{}
    else EdgesUpTo(n, k - 1) + multiset{(n.facts, n.children[k - 1].facts)} + Edges(n.children[k - 1])
  }

  /** The nodes in the order of a search from the root. */
  ghost function Flat(n: Node): seq<Facts>
    decreases n, |n.children| + 1
  {
    [n.facts] + FlatUpTo(n, |n.children|)
  }

  ghost function FlatUpTo(n: Node, k: nat): seq<Facts>
    requires k <= |n.children|
    decreases n, k
  {
    if k == 0 then [] else FlatUpTo(n, k - 1) + Flat(n.children[k - 1])
  }

  ghost function FirstIn(s: seq<Facts>, id: Uuid): Option<Facts> {
    if s == [] then None else if s[0].id == Some(id) then Some(s[0]) else FirstIn(s[1..], id)
  }

  /** The first node with the id. */
  ghost function First(n: Node, id: Uuid): Option<Facts> { FirstIn(Flat(n), id) }

  lemma {:induction false} FirstSplits(a: seq<Facts>, b: seq<Facts>, id: Uuid)
    ensures FirstIn(a + b, id) == if FirstIn(a, id).Some? then FirstIn(a, id) else FirstIn(b, id)
  {
    if a == [] {
      assert a + b == b;
    } else {
      assert (a + b)[1..] == a[1..] + b;
      FirstSplits(a[1..], b, id);
    }
  }

  lemma FirstFromRoot(n: Node, id: Uuid)
    ensures First(n, id) == if n.facts.id == Some(id) then Some(n.facts) else FirstIn(FlatUpTo(n, |n.children|), id)
  {
    assert Flat(n)[1..] == FlatUpTo(n, |n.children|);
  }

  lemma {:induction false} FirstStays(n: Node, k: nat, m: nat, id: Uuid)
    requires k <= m <= |n.children| && FirstIn(FlatUpTo(n, k), id).Some?
    ensures FirstIn(FlatUpTo(n, m), id) == FirstIn(FlatUpTo(n, k), id)
    decreases m
  {
    if k < m {
      FirstStays(n, k, m - 1, id);
      FirstSplits(FlatUpTo(n, m - 1), Flat(n.children[m - 1]), id);
    }
  }

  // ---------- one more leaf ----------

  /** `m` is `n` with one more node `f`, under `p`. */
  ghost predicate Grown(n: Node, m: Node, p: Facts, f: Facts) {
    m.facts == n.facts && Bag(m) == Bag(n) + multiset{f} && Edges(m) == Edges(n) + multiset{(p, f)}
  }

  lemma {:induction false} SamePrefix(n: Node, m: Node, k: nat)
    requires k <= |n.children| && k <= |m.children| && n.facts == m.facts
    requires forall i :: 0 <= i < k ==> n.children[i] == m.children[i]
    ensures BagUpTo(n, k) == BagUpTo(m, k) && EdgesUpTo(n, k) == EdgesUpTo(m, k)
    decreases k
  {
    if k > 0 { SamePrefix(n, m, k - 1); }
  }

  lemma LeafAlone(f: Facts)
    ensures Bag(Leaf(f)) == multiset{f} && Edges(Leaf(f)) == multiset{}
  {
  }

  lemma PushGrows(n: Node, f: Facts)
    ensures Grown(n, Push(n, Leaf(f)), n.facts, f)
  {
    var m, k := Push(n, Leaf(f)), |n.children|;
    SamePrefix(n, m, k);
    LeafAlone(f);
    assert m.children[k] == Leaf(f) && |m.children| == k + 1;
  }

  function WithChild(n: Node, k: nat, child: Node): Node
    requires k < |n.children|
  {
    Node(n.facts, n.children[k := child])
  }

  lemma {:induction false} ChildBag(n: Node, k: nat, child: Node, f: Facts, j: nat)
    requires k < j <= |n.children| && Bag(child) == Bag(n.children[k]) + multiset{f}
    ensures BagUpTo(WithChild(n, k, child), j) == BagUpTo(n, j) + multiset{f}
    decreases j
  {
    var m := WithChild(n, k, child);
    if j == k + 1 {
      SamePrefix(n, m, k);
      assert m.children[k] == child;
    } else {
      ChildBag(n, k, child, f, j - 1);
      assert m.children[j - 1] == n.children[j - 1];
    }
  }

  lemma EdgeHere(n: Node, k: nat, child: Node, e: (Facts, Facts))
    requires k < |n.children| && Edges(child) == Edges(n.children[k]) + multiset{e}
             && child.facts == n.children[k].facts
    ensures EdgesUpTo(WithChild(n, k, child), k + 1) == EdgesUpTo(n, k + 1) + multiset{e}
  {
    var m := WithChild(n, k, child);
    SamePrefix(n, m, k);
    assert m.children[k] == child;
    assert EdgesUpTo(m, k + 1) == EdgesUpTo(n, k) + multiset{(n.facts, child.facts)} + Edges(child);
  }

  lemma EdgeLater(n: Node, m: Node, e: (Facts, Facts), j: nat)
    requires 0 < j <= |n.children| && j <= |m.children| && n.facts == m.facts && n.children[j - 1] == m.children[j - 1]
    requires EdgesUpTo(m, j - 1) == EdgesUpTo(n, j - 1) + multiset{e}
    ensures EdgesUpTo(m, j) == EdgesUpTo(n, j) + multiset{e}
  {
  }

  lemma {:induction false} ChildEdges(n: Node, k: nat, child: Node, e: (Facts, Facts), j: nat)
    requires k < j <= |n.children| && Edges(child) == Edges(n.children[k]) + multiset{e}
             && child.facts == n.children[k].facts
    ensures EdgesUpTo(WithChild(n, k, child), j) == EdgesUpTo(n, j) + multiset{e}
    decreases j
  {
    if j == k + 1 {
      EdgeHere(n, k, child, e);
    } else {
      ChildEdges(n, k, child, e, j - 1);
      EdgeLater(n, WithChild(n, k, child), e, j);
    }
  }

  lemma ChildGrows(n: Node, k: nat, child: Node, p: Facts, f: Facts)
    requires k < |n.children| && Grown(n.children[k], child, p, f)
    ensures Grown(n, WithChild(n, k, child), p, f)
  {
    ChildBag(n, k, child, f, |n.children|);
    ChildEdges(n, k, child, (p, f), |n.children|);
  }

  /** A leaf is attached exactly when its parent id is in the tree, and then under
      the first node with that id; nothing else changes. */
  lemma {:induction false} AttachGrows(n: Node, id: Uuid, f: Facts)
    ensures Attach(n, id, Leaf(f)).Some? <==> First(n, id).Some?
    ensures First(n, id).Some? ==> Grown(n, Attach(n, id, Leaf(f)).value, First(n, id).value, f)
    decreases n, |n.children| + 1
  {
    FirstFromRoot(n, id);
    if n.facts.id == Some(id) { PushGrows(n, f); } else { AttachFromGrows(n, 0, id, f); }
  }

  lemma {:induction false} AttachFromGrows(n: Node, k: nat, id: Uuid, f: Facts)
    requires k <= |n.children| && FirstIn(FlatUpTo(n, k), id).None?
    ensures var p := FirstIn(FlatUpTo(n, |n.children|), id);
            && (AttachFrom(n, k, id, Leaf(f)).Some? <==> p.Some?)
            && (p.Some? ==> Grown(n, AttachFrom(n, k, id, Leaf(f)).value, p.value, f))
    decreases n, |n.children| - k
  {
    if k < |n.children| {
      AttachGrows(n.children[k], id, f);
      FirstSplits(FlatUpTo(n, k), Flat(n.children[k]), id);
      if Attach(n.children[k], id, Leaf(f)).Some? {
        FirstStays(n, k + 1, |n.children|, id);
        ChildGrows(n, k, Attach(n.children[k], id, Leaf(f)).value, First(n.children[k], id).value, f);
      } else {
        AttachFromGrows(n, k + 1, id, f);
      }
    }
  }

  // ---------- one row ----------

  /** The rows that become no node: those with the root's id, and parentless
      rows of the root kind. */
  ghost predicate IsSkipped(root: Facts, r: Span) {
    root.id == Some(r.id) || (r.parent.None? && r.kind == "root")
  }

  /** Where a row belongs: the first node with its parent id, else the root. */
  ghost function ParentOf(t: Node, r: Span): Facts {
    if r.parent.Some? && First(t, r.parent.value).Some? then First(t, r.parent.value).value else t.facts
  }

  /** One turn of the row loop. */
  function AddRow(t: Node, r: Span): Node {
    if t.facts.id == Some(r.id) then t
    else if r.parent.Some? && r.parent == t.facts.id then Push(t, Leaf(FactsOf(r)))
    else if r.parent.Some? then
      var attached := Attach(t, r.parent.value, Leaf(FactsOf(r)));
      if attached.Some? then attached.value else Push(t, Leaf(FactsOf(r)))
    else if r.kind != ROOT then Push(t, Leaf(FactsOf(r)))
    else t
  }

  /** A row that is not skipped becomes one node in its place. */
  lemma AddRowGrows(t: Node, r: Span)
    ensures AddRow(t, r).facts == t.facts
    ensures IsSkipped(t.facts, r) ==> AddRow(t, r) == t
    ensures !IsSkipped(t.facts, r) ==> Grown(t, AddRow(t, r), ParentOf(t, r), FactsOf(r))
  {
    PushGrows(t, FactsOf(r));
    if r.parent.Some? {
      AttachGrows(t, r.parent.value, FactsOf(r));
      FirstFromRoot(t, r.parent.value);
    }
  }

  // ---------- all rows ----------

  function AddRows(root: Facts, rows: seq<Span>, n: nat): Node
    requires n <= |rows|
  {
    if n == 0 then Leaf(root) else AddRow(AddRows(root, rows, n - 1), rows[n - 1])
  }

  /** The nodes the first `n` rows become. */
  ghost function Kept(root: Facts, rows: seq<Span>, n: nat): multiset<Facts>
    requires n <= |rows|
  {
    if n == 0 then multiset{}
    else Kept(root, rows, n - 1) + (if IsSkipped(root, rows[n - 1]) then multiset{} else multiset{FactsOf(rows[n - 1])})
  }

  /** Each with the node it belongs under when it comes. */
  ghost function KeptEdges(root: Facts, rows: seq<Span>, n: nat): multiset<(Facts, Facts)>
    requires n <= |rows|
  {
    if n == 0 then multiset{}
    else KeptEdges(root, rows, n - 1)
         + (if IsSkipped(root, rows[n - 1]) then multiset{}
            else multiset{(ParentOf(AddRows(root, rows, n - 1), rows[n - 1]), FactsOf(rows[n - 1]))})
  }

  /** The row loop conserves rows: every row that is not skipped is exactly one
      node, placed where it belongs, and there is nothing else but the root. */
  lemma {:induction false} RowsAreConserved(root: Facts, rows: seq<Span>, n: nat)
    requires n <= |rows|
    ensures AddRows(root, rows, n).facts == root
    ensures Bag(AddRows(root, rows, n)) == multiset{root} + Kept(root, rows, n)
    ensures Edges(AddRows(root, rows, n)) == KeptEdges(root, rows, n)
  {
    if n == 0 {
      LeafAlone(root);
    } else {
      RowsAreConserved(root, rows, n - 1);
      AddRowGrows(AddRows(root, rows, n - 1), rows[n - 1]);
    }
  }

  ghost predicate HasId(s: multiset<Facts>, id: Uuid) { exists f :: f in s && f.id == Some(id) }

  lemma {:induction false} FirstIsMember(s: seq<Facts>, id: Uuid)
    ensures FirstIn(s, id).Some? ==> FirstIn(s, id).value in s && FirstIn(s, id).value.id == Some(id)
    ensures FirstIn(s, id).None? ==> forall f :: f in s ==> f.id != Some(id)
  {
    if s != [] {
      FirstIsMember(s[1..], id);
      assert s == [s[0]] + s[1..];
    }
  }

  lemma {:induction false} FlatIsBag(n: Node)
    ensures multiset(Flat(n)) == Bag(n)
    decreases n, |n.children| + 1
  {
    FlatUpToIsBag(n, |n.children|);
  }

  lemma {:induction false} FlatUpToIsBag(n: Node, k: nat)
    requires k <= |n.children|
    ensures multiset(FlatUpTo(n, k)) == BagUpTo(n, k)
    decreases n, k
  {
    if k > 0 {
      FlatUpToIsBag(n, k - 1);
      FlatIsBag(n.children[k - 1]);
    }
  }

  lemma HasOneMore(s: multiset<Facts>, f: Facts, id: Uuid)
    ensures HasId(s + multiset{f}, id) <==> HasId(s, id) || f.id == Some(id)
  {
    assert forall g :: g in s + multiset{f} <==> g in s || g == f;
    if HasId(s, id) {
      var g :| g in s && g.id == Some(id);
      assert g in s + multiset{f};
    }
    if f.id == Some(id) { assert f in s + multiset{f}; }
  }

  /** One of the first `n` rows is a node with the id. */
  ghost predicate KeptId(root: Facts, rows: seq<Span>, n: nat, id: Uuid)
    requires n <= |rows|
  {
    exists j :: 0 <= j < n && !IsSkipped(root, rows[j]) && rows[j].id == id
  }

  lemma KeptIdNext(root: Facts, rows: seq<Span>, n: nat, id: Uuid)
    requires n < |rows|
    ensures KeptId(root, rows, n + 1, id) <==>
            KeptId(root, rows, n, id) || (!IsSkipped(root, rows[n]) && rows[n].id == id)
  {
  }

  lemma {:induction false} KeptIds(root: Facts, rows: seq<Span>, n: nat, id: Uuid)
    requires n <= |rows|
    ensures HasId(Kept(root, rows, n), id) <==> KeptId(root, rows, n, id)
  {
    if n > 0 {
      KeptIds(root, rows, n - 1, id);
      KeptIdNext(root, rows, n - 1, id);
      if IsSkipped(root, rows[n - 1]) {
        assert Kept(root, rows, n) == Kept(root, rows, n - 1);
      } else {
        HasOneMore(Kept(root, rows, n - 1), FactsOf(rows[n - 1]), id);
      }
    }
  }

  /** A row with a parent id stands under a node with that id if the root or an
      earlier row has it, and under the root otherwise. */
  lemma RowIsUnderItsParent(root: Facts, rows: seq<Span>, i: nat)
    requires i < |rows|
    ensures var p, r := ParentOf(AddRows(root, rows, i), rows[i]), rows[i];
            if r.parent.Some? && (root.id == r.parent || KeptId(root, rows, i, r.parent.value))
            then p.id == r.parent && p in multiset{root} + Kept(root, rows, i)
            else p == root
  {
    var t, r := AddRows(root, rows, i), rows[i];
    RowsAreConserved(root, rows, i);
    if r.parent.Some? {
      FlatIsBag(t);
      FirstIsMember(Flat(t), r.parent.value);
      KeptIds(root, rows, i, r.parent.value);
      var kept := Kept(root, rows, i);
      assert forall f :: f in Flat(t) <==> f in multiset(Flat(t));
      assert forall f :: f in Bag(t) <==> f == root || f in kept;
    }
  }

  // ---------- the whole trace ----------

  function Synthetic(status: ParseStatus): Status {
    match status
    case Completed => Done
    case ParseFailed => Failed
    case ParseCancelled | Deleting | Deleted => Cancelled
    case _ => Pending
  }

  function SyntheticRoot(attempt: int, status: ParseStatus): Facts {
    Facts(None, None, ROOT_NAME, ROOT, Synthetic(status), attempt, BLANK)
  }

  function SyntheticStage(root: Facts, name: string, attempt: int, status: ParseStatus): Facts {
    Facts(None, root.id, name, STAGE, Synthetic(status), attempt, BLANK)
  }

  ghost predicate FirstRoot(rows: seq<Span>, n: nat, found: Option<Span>)
    requires n <= |rows|
  {
    match found
    case None => forall i :: 0 <= i < n ==> rows[i].kind != "root"
    case Some(r) =>
      exists i :: 0 <= i < n && rows[i] == r && r.kind == "root" && forall j :: 0 <= j < i ==> rows[j].kind != "root"
  }

  ghost predicate RunningStage(r: Span) { r.kind == "stage" && r.status == Running && r.name != "" }

  ghost predicate FirstRunning(rows: seq<Span>, n: nat, name: string)
    requires n <= |rows|
  {
    if name == "" then forall i :: 0 <= i < n ==> !RunningStage(rows[i])
    else
      exists i :: 0 <= i < n && RunningStage(rows[i]) && rows[i].name == name
                  && forall j :: 0 <= j < i ==> !RunningStage(rows[j])
  }

  ghost predicate LastFailed(rows: seq<Span>, n: nat, found: Option<Span>)
    requires n <= |rows|
  {
    match found
    case None => forall i :: 0 <= i < n ==> rows[i].status != Failed
    case Some(r) =>
      exists i :: 0 <= i < n && rows[i] == r && r.status == Failed && forall j :: i < j < n ==> rows[j].status != Failed
  }

  /** The first pass: the root row, the running stage and the last failure. */
  method Scan(rows: seq<Span>) returns (root: Option<Span>, stage: string, failed: Option<Span>)
    ensures FirstRoot(rows, |rows|, root) && FirstRunning(rows, |rows|, stage) && LastFailed(rows, |rows|, failed)
  {
    root, stage, failed := None, "", None;
    for n := 0 to |rows|
      invariant FirstRoot(rows, n, root)
      invariant FirstRunning(rows, n, stage)
      invariant LastFailed(rows, n, failed)
    {
      var r := rows[n];
      if r.kind == ROOT && root.None? { root := Some(r); }
      if r.kind == STAGE && r.status == Running && stage == "" { stage := r.name; }
      if r.status == Failed { failed := Some(r); }
    }
  }

  /** A stage row that is not the root's. */
  ghost predicate StageRow(root: Facts, r: Span) { root.id != Some(r.id) && r.kind == "stage" }

  ghost predicate Seen(root: Facts, rows: seq<Span>, name: string) {
    exists i :: 0 <= i < |rows| && StageRow(root, rows[i]) && rows[i].name == name
  }

  /** The nodes added for the first `k` stages. */
  ghost function Missing(stages: seq<string>, root: Facts, rows: seq<Span>, attempt: int, status: ParseStatus, k: nat)
    : multiset<Facts>
    requires k <= |stages|
  {
    if k == 0 then multiset{}
    else Missing(stages, root, rows, attempt, status, k - 1)
         + (if Seen(root, rows, stages[k - 1]) then multiset{}
            else multiset{SyntheticStage(root, stages[k - 1], attempt, status)})
  }

  ghost function MissingEdges(stages: seq<string>, root: Facts, rows: seq<Span>, attempt: int,
                              status: ParseStatus, k: nat)
    : multiset<(Facts, Facts)>
    requires k <= |stages|
  {
    if k == 0 then multiset{}
    else MissingEdges(stages, root, rows, attempt, status, k - 1)
         + (if Seen(root, rows, stages[k - 1]) then multiset{}
            else multiset{(root, SyntheticStage(root, stages[k - 1], attempt, status))})
  }

  method PlaceRows(root: Facts, rows: seq<Span>) returns (tree: Node, seen: set<string>)
    ensures tree == AddRows(root, rows, |rows|)
    ensures forall name :: name in seen <==> Seen(root, rows, name)
  {
    tree, seen := Leaf(root), {};
    for n := 0 to |rows|
      invariant tree == AddRows(root, rows, n) && tree.facts == root
      invariant forall name :: name in seen <==>
                exists i :: 0 <= i < n && StageRow(root, rows[i]) && rows[i].name == name
    {
      var r := rows[n];
      AddRowGrows(tree, r);
      if tree.facts.id == Some(r.id) { continue; }
      if r.kind == STAGE { seen := seen + {r.name}; }
      var child := Leaf(FactsOf(r));
      if r.parent.Some? && r.parent == tree.facts.id {
        tree := Push(tree, child);
      } else if r.parent.Some? {
        var attached, grown := AttachChild(tree, r.parent.value, child);
        tree := if attached then grown else Push(tree, child);
      } else if r.kind != ROOT {
        tree := Push(tree, child);
      }
    }
  }

  /** `tree` is `before` with the nodes and edges added. */
  ghost predicate Extended(before: Node, tree: Node, nodes: multiset<Facts>, edges: multiset<(Facts, Facts)>) {
    tree.facts == before.facts && Bag(tree) == Bag(before) + nodes && Edges(tree) == Edges(before) + edges
  }

  lemma ExtendedByOne(before: Node, tree: Node, nodes: multiset<Facts>, edges: multiset<(Facts, Facts)>, f: Facts)
    requires Extended(before, tree, nodes, edges)
    ensures Extended(before, Push(tree, Leaf(f)), nodes + multiset{f}, edges + multiset{(before.facts, f)})
  {
    PushGrows(tree, f);
  }

  method PlaceStages(stages: seq<string>, before: Node, seen: set<string>, attempt: int, status: ParseStatus,
                     ghost rows: seq<Span>)
    returns (tree: Node)
    requires forall name :: name in seen <==> Seen(before.facts, rows, name)
    ensures Extended(before, tree, Missing(stages, before.facts, rows, attempt, status, |stages|),
                     MissingEdges(stages, before.facts, rows, attempt, status, |stages|))
  {
    tree := before;
    ghost var nodes: multiset<Facts>, edges: multiset<(Facts, Facts)> := multiset{}, multiset{};
    for k := 0 to |stages|
      invariant nodes == Missing(stages, before.facts, rows, attempt, status, k)
      invariant edges == MissingEdges(stages, before.facts, rows, attempt, status, k)
      invariant Extended(before, tree, nodes, edges)
    {
      if stages[k] !in seen {
        var stage := SyntheticStage(before.facts, stages[k], attempt, status);
        ExtendedByOne(before, tree, nodes, edges, stage);
        tree := Push(tree, Leaf(stage));
        nodes, edges := nodes + multiset{stage}, edges + multiset{(before.facts, stage)};
      }
    }
  }

  /** build_trace: the tree holds the root, each row that is not skipped once and
      one synthetic node per missing stage, each under the node it belongs to. */
  method BuildTrace(attempt: int, status: ParseStatus, rows: seq<Span>)
    returns (tree: Node, stage: string, failed: Option<Span>)
    ensures exists root: Option<Span> :: FirstRoot(rows, |rows|, root)
              && tree.facts == if root.Some? then FactsOf(root.value) else SyntheticRoot(attempt, status)
    ensures FirstRunning(rows, |rows|, stage) && LastFailed(rows, |rows|, failed)
    ensures Bag(tree) == multiset{tree.facts} + Kept(tree.facts, rows, |rows|)
                         + Missing(ALL_STAGES, tree.facts, rows, attempt, status, |ALL_STAGES|)
    ensures Edges(tree) == KeptEdges(tree.facts, rows, |rows|)
            + MissingEdges(ALL_STAGES, tree.facts, rows, attempt, status, |ALL_STAGES|)
  {
    var root, running, last := Scan(rows);
    var facts := if root.Some? then FactsOf(root.value) else SyntheticRoot(attempt, status);
    var placed, seen := PlaceRows(facts, rows);
    RowsAreConserved(facts, rows, |rows|);
    tree := PlaceStages(ALL_STAGES, placed, seen, attempt, status, rows);
    stage, failed := running, last;
  }

  lemma {:induction false} KeptHolds(root: Facts, rows: seq<Span>, n: nat, i: nat)
    requires i < n <= |rows| && !IsSkipped(root, rows[i])
    ensures FactsOf(rows[i]) in Kept(root, rows, n)
  {
    if i < n - 1 { KeptHolds(root, rows, n - 1, i); }
  }

  lemma {:induction false} MissingHolds(stages: seq<string>, root: Facts, rows: seq<Span>, attempt: int,
                                        status: ParseStatus, n: nat, i: nat)
    requires i < n <= |stages| && !Seen(root, rows, stages[i])
    ensures SyntheticStage(root, stages[i], attempt, status) in Missing(stages, root, rows, attempt, status, n)
  {
    var before := Missing(stages, root, rows, attempt, status, n - 1);
    if i < n - 1 {
      MissingHolds(stages, root, rows, attempt, status, n - 1, i);
      assert Missing(stages, root, rows, attempt, status, n) >= before;
    }
  }

  /** All five stages appear in every trace. */
  lemma EveryStageAppears(root: Facts, rows: seq<Span>, attempt: int, status: ParseStatus, i: nat) returns (f: Facts)
    requires i < |ALL_STAGES|
    ensures f.kind == "stage" && f.name == ["docreader", "chunking", "embedding", "multimodal", "postprocess"][i]
    ensures f in Kept(root, rows, |rows|) + Missing(ALL_STAGES, root, rows, attempt, status, |ALL_STAGES|)
  {
    if Seen(root, rows, ALL_STAGES[i]) {
      var j :| 0 <= j < |rows| && StageRow(root, rows[j]) && rows[j].name == ALL_STAGES[i];
      KeptHolds(root, rows, |rows|, j);
      f := FactsOf(rows[j]);
    } else {
      MissingHolds(ALL_STAGES, root, rows, attempt, status, |ALL_STAGES|, i);
      f := SyntheticStage(root, ALL_STAGES[i], attempt, status);
    }
  }

  /** The node of a row has all that the row has. */
  lemma NodesCopyRows(root: Facts, rows: seq<Span>, i: nat) returns (f: Facts)
    requires i < |rows| && root.id != Some(rows[i].id) && (rows[i].parent.Some? || rows[i].kind != "root")
    ensures f in Kept(root, rows, |rows|)
    ensures f.id == Some(rows[i].id) && f.parent == rows[i].parent && f.name == rows[i].name && f.kind == rows[i].kind
    ensures f.status == rows[i].status && f.attempt == rows[i].attempt && f.detail == rows[i].detail
  {
    KeptHolds(root, rows, |rows|, i);
    f := FactsOf(rows[i]);
  }

  /** And every node that is not synthetic is the node of a row. */
  lemma {:induction false} KeptIsCopied(root: Facts, rows: seq<Span>, n: nat, f: Facts) returns (i: nat)
    requires n <= |rows| && f in Kept(root, rows, n)
    ensures i < n && root.id != Some(rows[i].id) && (rows[i].parent.Some? || rows[i].kind != "root")
    ensures f.id == Some(rows[i].id) && f.parent == rows[i].parent && f.name == rows[i].name && f.kind == rows[i].kind
    ensures f.status == rows[i].status && f.attempt == rows[i].attempt && f.detail == rows[i].detail
  {
    if !IsSkipped(root, rows[n - 1]) && f == FactsOf(rows[n - 1]) {
      i := n - 1;
    } else {
      i := KeptIsCopied(root, rows, n - 1, f);
    }
  }

  /** The nodes that stand for no row, field by field. */
  lemma SyntheticNodes(root: Facts, name: string, attempt: int, status: ParseStatus)
    ensures var s := if status == Completed then Done
                     else if status == ParseFailed then Failed
                     else if status == ParseCancelled || status == Deleting || status == Deleted then Cancelled
                     else Pending;
            var none := Detail(None, "", None, None, None);
            && SyntheticRoot(attempt, status) == Facts(None, None, "document_processing", "root", s, attempt, none)
            && SyntheticStage(root, name, attempt, status) == Facts(None, root.id, name, "stage", s, attempt, none)
  {
  }
}
