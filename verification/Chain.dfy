/** Process chains: the script's tree or flat form, and its normalisation to the flat form whose
    edges the orchestrator consumes. */
module Chain {
  import opened Options
  import opened Graph
  import opened Settings

  datatype Dependency = Dependency(name: string, waitFor: string)

  datatype Edge = Edge(name: string, waitFor: Wait)

  /** A process node, as far as dependencies and validation look at it. */
  datatype Node = Node(name: string, optional: bool, needParentReady: bool, exec: bool, oneshot: bool,
                       scheduler: bool, health: bool, log: Option<StreamLog>, logRotate: Option<LogRotate>,
                       children: seq<Node>, dependsOn: seq<string>, dependsOnEdges: seq<Dependency>, edges: seq<Edge>)

  datatype Chain = Chain(nodes: seq<Node>, execDefault: Option<bool>, roots: seq<Node>)

  datatype ChainError =
    | EmptyName(index: nat)
    | DuplicateName(name: string)
    | ChildrenAndDependsOn(name: string)
    | ChildrenAndEdges(name: string)
    | BadSettings(name: string, why: SettingsError)
    | OneshotWithExec(name: string)
    | OneshotWithScheduler(name: string)
    | OneshotWithHealth(name: string)
    | OneshotWithNeedParentReady(name: string)
    | BothForms(name: string)
    | UnknownWaitFor(name: string, edge: string, waitFor: string)
    | UnknownDependency(name: string, dep: string)
    | SelfDependency(name: string)
    | DependsOnExec(name: string, dep: string)
    | ExecDependsOn(name: string, dep: string)
    | ManyExecs(count: nat)
    | Cycle(names: seq<string>)

  // ---- Canonical edges ----

  const STARTED := "started"
  const READY := "ready"
  const EXIT := "exit"

  /** The wait mode a waitFor string stands for; an omitted one means started. */
  function WaitOf(w: string): Option<Wait> {
    if w == "" || w == STARTED then Some(Started)
    else if w == READY then Some(Ready)
    else if w == EXIT then Some(Exit)
    else None
  }

  ghost predicate EdgesOk(n: Node) {
    && (n.dependsOn == [] || n.dependsOnEdges == [])
    && forall k :: 0 <= k < |n.dependsOnEdges| ==> WaitOf(n.dependsOnEdges[k].waitFor).Some?
  }

  /** The canonical edges of a node, whichever form it uses. */
  ghost function EdgesOf(n: Node): (edges: seq<Edge>)
    requires EdgesOk(n)
  {
    if n.dependsOnEdges != [] then
      seq(|n.dependsOnEdges|, k requires 0 <= k < |n.dependsOnEdges| =>
        Edge(n.dependsOnEdges[k].name, WaitOf(n.dependsOnEdges[k].waitFor).value))
    else
      seq(|n.dependsOn|, k requires 0 <= k < |n.dependsOn| =>
        Edge(n.dependsOn[k], if n.needParentReady then Ready else Started))
  }

  /** What is wrong with a node's edges: both forms at once, or the first unknown wait mode. */
  ghost predicate EdgeError(n: Node, e: ChainError) {
    if n.dependsOn != [] && n.dependsOnEdges != [] then e == BothForms(n.name)
    else exists k :: 0 <= k < |n.dependsOnEdges| && IsFirstUnknown(n, k, e)
  }

  ghost predicate IsFirstUnknown(n: Node, k: nat, e: ChainError)
    requires k < |n.dependsOnEdges|
  {
    && WaitOf(n.dependsOnEdges[k].waitFor).None?
    && e == UnknownWaitFor(n.name, n.dependsOnEdges[k].name, n.dependsOnEdges[k].waitFor)
    && forall j :: 0 <= j < k ==> WaitOf(n.dependsOnEdges[j].waitFor).Some?
  }

  method CanonicalEdges(n: Node) returns (r: Result<seq<Edge>, ChainError>)
    ensures r.Ok? <==> EdgesOk(n)
    ensures r.Ok? ==> r.value == EdgesOf(n)
    ensures r.Err? ==> EdgeError(n, r.error)
  {
    if |n.dependsOn| > 0 && |n.dependsOnEdges| > 0 {
      return Err(BothForms(n.name));
    }
    var edges: seq<Edge> := [];
    if |n.dependsOnEdges| > 0 {
      for k := 0 to |n.dependsOnEdges|
        invariant |edges| == k
        invariant forall j :: 0 <= j < k ==> WaitOf(n.dependsOnEdges[j].waitFor).Some?
        invariant forall j :: 0 <= j < k ==>
                    edges[j] == Edge(n.dependsOnEdges[j].name, WaitOf(n.dependsOnEdges[j].waitFor).value)
      {
        var d := n.dependsOnEdges[k];
        var w := WaitOf(d.waitFor);
        if w.None? {
          assert IsFirstUnknown(n, k, UnknownWaitFor(n.name, d.name, d.waitFor));
          return Err(UnknownWaitFor(n.name, d.name, d.waitFor));
        }
        edges := edges + [Edge(d.name, w.value)];
      }
      return Ok(edges);
    }
    for k := 0 to |n.dependsOn|
      invariant |edges| == k
      invariant forall j :: 0 <= j < k ==>
                  edges[j] == Edge(n.dependsOn[j], if n.needParentReady then Ready else Started)
    {
      edges := edges + [Edge(n.dependsOn[k], if n.needParentReady then Ready else Started)];
    }
    return Ok(edges);
  }

  // ---- Desugaring the tree ----

  ghost predicate MixesForms(n: Node) {
    n.children != [] && (n.dependsOn != [] || n.dependsOnEdges != [])
  }

  /** The flat form of a tree node: its children dropped, and its parent, if that has a name,
      added as its last dependency. */
  function Desugar(n: Node, parent: string): Node {
    var flat := n.(children := []);
    if parent == "" then flat
    else if n.dependsOnEdges != [] then
      flat.(dependsOnEdges := n.dependsOnEdges + [Dependency(parent, if n.needParentReady then READY else STARTED)])
    else flat.(dependsOn := n.dependsOn + [parent])
  }

  /** The trees ns[k..] under a parent, flattened. */
  ghost function Flatten(ns: seq<Node>, k: nat, parent: string): seq<Node>
    requires k <= |ns|
    decreases ns, |ns| - k
  {
    if k == |ns| then []
    else [Desugar(ns[k], parent)] + Flatten(ns[k].children, 0, ns[k].name) + Flatten(ns, k + 1, parent)
  }

  /** No node of the trees ns[k..] has both children and dependencies. */
  ghost predicate Unmixed(ns: seq<Node>, k: nat)
    requires k <= |ns|
    decreases ns, |ns| - k
  {
    k < |ns| ==> !MixesForms(ns[k]) && Unmixed(ns[k].children, 0) && Unmixed(ns, k + 1)
  }

  /** What is wrong with a node that mixes forms. */
  function MixError(n: Node): (e: Option<ChainError>)
    ensures e.Some? <==> MixesForms(n)
  {
    if n.children == [] then None
    else if n.dependsOn != [] then Some(ChildrenAndDependsOn(n.name))
    else if n.dependsOnEdges != [] then Some(ChildrenAndEdges(n.name))
    else None
  }

  /** The error of the first node in preorder of the trees ns[k..] that mixes forms. */
  function FirstMixed(ns: seq<Node>, k: nat): (e: Option<ChainError>)
    requires k <= |ns|
    ensures e.None? <==> Unmixed(ns, k)
    decreases ns, |ns| - k
  {
    if k == |ns| then None
    else if MixError(ns[k]).Some? then MixError(ns[k])
    else if FirstMixed(ns[k].children, 0).Some? then FirstMixed(ns[k].children, 0)
    else FirstMixed(ns, k + 1)
  }

  /** The walk over the tree, appending each node to the flat form as it is reached. */
  class Walker {
    var nodes: seq<Node>

    constructor ()
      ensures nodes == []
    {
      nodes := [];
    }

    method Walk(n: Node, parent: string) returns (err: Option<ChainError>)
      modifies this
      ensures err == if MixError(n).Some? then MixError(n) else FirstMixed(n.children, 0)
      ensures err.None? ==> nodes == old(nodes) + [Desugar(n, parent)] + Flatten(n.children, 0, n.name)
      decreases n, 0
    {
      if |n.children| > 0 && |n.dependsOn| > 0 { return Some(ChildrenAndDependsOn(n.name)); }
      if |n.children| > 0 && |n.dependsOnEdges| > 0 { return Some(ChildrenAndEdges(n.name)); }
      nodes := nodes + [Desugar(n, parent)];
      err := WalkAll(n.children, n.name);
    }

    method WalkAll(ns: seq<Node>, parent: string) returns (err: Option<ChainError>)
      modifies this
      ensures err == FirstMixed(ns, 0)
      ensures err.None? ==> nodes == old(nodes) + Flatten(ns, 0, parent)
      decreases ns
    {
      hide Desugar, MixError, Unmixed;
      var k := 0;
      while k < |ns|
        invariant 0 <= k <= |ns|
        invariant FirstMixed(ns, 0) == FirstMixed(ns, k)
        invariant nodes + Flatten(ns, k, parent) == old(nodes) + Flatten(ns, 0, parent)
      {
        err := Walk(ns[k], parent);
        if err.Some? { return; }
        k := k + 1;
      }
      return None;
    }
  }

  // ---- Normalisation ----

  /** The nodes before their edges are derived. */
  ghost function FlatNodes(c: Chain): seq<Node> {
    if c.nodes != [] then c.nodes else Flatten(c.roots, 0, "")
  }

  ghost predicate NormalizeOk(c: Chain) {
    && (c.nodes != [] || Unmixed(c.roots, 0))
    && forall i :: 0 <= i < |FlatNodes(c)| ==> EdgesOk(FlatNodes(c)[i])
  }

  ghost function WithEdges(n: Node): Node
    requires EdgesOk(n)
  {
    n.(edges := EdgesOf(n))
  }

  ghost function NormalForm(c: Chain): Chain
    requires NormalizeOk(c)
  {
    var flat := FlatNodes(c);
    Chain(seq(|flat|, i requires 0 <= i < |flat| => WithEdges(flat[i])), c.execDefault, [])
  }

  method Normalized(c: Chain) returns (r: Result<Chain, ChainError>)
    ensures r.Ok? <==> NormalizeOk(c)
    ensures r.Ok? ==> r.value == NormalForm(c)
    ensures c.nodes == [] && FirstMixed(c.roots, 0).Some? ==> r == Err(FirstMixed(c.roots, 0).value)
    ensures r.Err? && (c.nodes != [] || FirstMixed(c.roots, 0).None?) ==>
              exists i :: 0 <= i < |FlatNodes(c)| && EdgeError(FlatNodes(c)[i], r.error)
  {
    var nodes := c.nodes;
    if |c.nodes| == 0 {
      var walker := new Walker();
      var err := walker.WalkAll(c.roots, "");
      if err.Some? { return Err(err.value); }
      nodes := walker.nodes;
    }
    ghost var flat := nodes;
    assert flat == FlatNodes(c);
    for i := 0 to |nodes|
      invariant |nodes| == |flat|
      invariant forall j :: 0 <= j < i ==> EdgesOk(flat[j]) && nodes[j] == WithEdges(flat[j])
      invariant forall j :: i <= j < |flat| ==> nodes[j] == flat[j]
    {
      var edges := CanonicalEdges(nodes[i]);
      if edges.Err? { return Err(edges.error); }
      nodes := nodes[i := nodes[i].(edges := edges.value)];
    }
    assert nodes == NormalForm(c).nodes;
    return Ok(Chain(nodes, c.execDefault, []));
  }

  /** Normalising twice is normalising once. */
  lemma NormalizeIdempotent(c: Chain)
    requires NormalizeOk(c)
    ensures NormalizeOk(NormalForm(c)) && NormalForm(NormalForm(c)) == NormalForm(c)
  {
    var n := NormalForm(c);
    assert FlatNodes(n) == n.nodes;
    forall i | 0 <= i < |n.nodes| ensures EdgesOk(n.nodes[i]) && WithEdges(n.nodes[i]) == n.nodes[i] {
      assert EdgesOk(FlatNodes(c)[i]);
      assert EdgesOf(n.nodes[i]) == EdgesOf(FlatNodes(c)[i]);
    }
    assert NormalForm(n).nodes == n.nodes;
  }

  /** A child of a named parent keeps its own edges and gains the parent as its last one, in mode
      ready exactly when it sets needParentReady. */
  lemma ParentEdge(n: Node, parent: string)
    requires parent != ""
    ensures EdgesOk(Desugar(n, parent)) <==> EdgesOk(n)
    ensures EdgesOk(n) ==> EdgesOf(Desugar(n, parent))
                           == EdgesOf(n) + [Edge(parent, if n.needParentReady then Ready else Started)]
  {
    var flat := Desugar(n, parent);
    if n.dependsOnEdges != [] {
      assert flat.dependsOnEdges[|n.dependsOnEdges|].name == parent;
      assert forall k :: 0 <= k < |n.dependsOnEdges| ==> flat.dependsOnEdges[k] == n.dependsOnEdges[k];
    }
  }

  /** A tree node as it is but for its children and its dependencies; those are untouched too if its
      parent has no name, and otherwise the list that it uses gains the parent at its end. */
  ghost predicate IsFlatForm(flat: Node, n: Node, parent: string) {
    && flat == n.(children := [], dependsOn := flat.dependsOn, dependsOnEdges := flat.dependsOnEdges)
    && if parent == "" then flat.dependsOn == n.dependsOn && flat.dependsOnEdges == n.dependsOnEdges
       else if n.dependsOnEdges == [] then flat.dependsOn == n.dependsOn + [parent] && flat.dependsOnEdges == []
       else flat.dependsOn == n.dependsOn && n.dependsOnEdges < flat.dependsOnEdges
            && |flat.dependsOnEdges| == |n.dependsOnEdges| + 1
            && flat.dependsOnEdges[|n.dependsOnEdges|].name == parent
  }

  lemma DesugarKeeps(n: Node, parent: string)
    ensures IsFlatForm(Desugar(n, parent), n, parent)
  {
  }

  /** The plain form is short for the one with modes. */
  lemma FormsAgree(n: Node)
    requires n.dependsOnEdges == []
    ensures var mode := if n.needParentReady then "ready" else "started";
            var long := n.(dependsOn := [], dependsOnEdges := seq(|n.dependsOn|, k requires 0 <= k < |n.dependsOn| =>
                                                                    Dependency(n.dependsOn[k], mode)));
            EdgesOk(n) && EdgesOk(long) && EdgesOf(long) == EdgesOf(n)
  {
  }

  /** What the wait modes are called. An edge without a mode is one to a plain dependency. */
  lemma WaitNames(w: string)
    ensures WaitOf(w) == Some(Started) <==> w in ["started", ""]
    ensures WaitOf(w) == Some(Ready) <==> w == "ready"
    ensures WaitOf(w) == Some(Exit) <==> w == "exit"
  {
  }

  // ---- The flat form is the preorder of the tree ----

  /** A position in a forest: the index of a root, then of a child, and so on. */
  type Path = seq<nat>

  predicate IsPath(ns: seq<Node>, p: Path)
    decreases |p|
  {
    |p| > 0 && p[0] < |ns| && (|p| > 1 ==> IsPath(ns[p[0]].children, p[1..]))
  }

  function At(ns: seq<Node>, p: Path): Node
    requires IsPath(ns, p)
    decreases |p|
  {
    if |p| == 1 then ns[p[0]] else At(ns[p[0]].children, p[1..])
  }

  function ParentName(ns: seq<Node>, p: Path, top: string): string
    requires IsPath(ns, p)
    decreases |p|
  {
    if |p| == 1 then top else ParentName(ns[p[0]].children, p[1..], ns[p[0]].name)
  }

  /** Preorder: a node comes before what is below it, and before what is to its right. */
  predicate Precedes(p: Path, q: Path)
    decreases |p|
  {
    q != [] && (p == [] || p[0] < q[0] || (p[0] == q[0] && Precedes(p[1..], q[1..])))
  }

  /** Of two positions exactly one comes first, and what is above comes before what is below. */
  lemma {:induction false} PrecedesOrders(p: Path, q: Path)
    ensures p != q ==> (Precedes(p, q) <==> !Precedes(q, p))
    ensures !Precedes(p, p)
    ensures p < q ==> Precedes(p, q)
    decreases |p|
  {
    if p != [] && q != [] {
      PrecedesOrders(p[1..], q[1..]);
      assert p == [p[0]] + p[1..] && q == [q[0]] + q[1..];
    }
    if p != [] { PrecedesOrders(p[1..], p[1..]); }
  }

  function Under(k: nat, ps: seq<Path>): seq<Path> {
    seq(|ps|, i requires 0 <= i < |ps| => [k] + ps[i])
  }

  ghost function Paths(ns: seq<Node>, k: nat): seq<Path>
    requires k <= |ns|
    decreases ns, |ns| - k
  {
    if k == |ns| then [] else [[k]] + Under(k, Paths(ns[k].children, 0)) + Paths(ns, k + 1)
  }

  lemma {:induction false} UnmixedAt(ns: seq<Node>, k: nat, p: Path)
    requires k <= |ns| && Unmixed(ns, k) && IsPath(ns, p) && p[0] >= k
    ensures !MixesForms(At(ns, p))
    decreases ns, |ns| - k
  {
    if p[0] > k {
      UnmixedAt(ns, k + 1, p);
    } else if |p| > 1 {
      UnmixedAt(ns[k].children, 0, p[1..]);
    }
  }

  /** p is the first position in preorder, from the k-th tree on, of a node that mixes forms. */
  ghost predicate IsFirstMixed(ns: seq<Node>, k: nat, p: Path) {
    && IsPath(ns, p) && p[0] >= k && MixesForms(At(ns, p))
    && forall q :: IsPath(ns, q) && q[0] >= k && Precedes(q, p) ==> !MixesForms(At(ns, q))
  }

  /** The reported error names the first node in preorder that mixes forms; if it has both kinds of
      dependencies, the error is about the plain ones. */
  lemma {:induction false} FirstMixedAt(ns: seq<Node>, k: nat) returns (p: Path)
    requires k <= |ns| && FirstMixed(ns, k).Some?
    ensures IsFirstMixed(ns, k, p)
    ensures var n := At(ns, p);
            FirstMixed(ns, k)
            == Some(if n.dependsOn != [] then ChildrenAndDependsOn(n.name) else ChildrenAndEdges(n.name))
    decreases ns, |ns| - k
  {
    if MixError(ns[k]).Some? {
      p := [k];
    } else if FirstMixed(ns[k].children, 0).Some? {
      var below := FirstMixedAt(ns[k].children, 0);
      p := [k] + below;
      assert p[1..] == below;
      forall q | IsPath(ns, q) && q[0] >= k && Precedes(q, p) ensures !MixesForms(At(ns, q)) {
        if |q| > 1 { assert IsPath(ns[k].children, q[1..]) && Precedes(q[1..], below); }
      }
    } else {
      p := FirstMixedAt(ns, k + 1);
      forall q | IsPath(ns, q) && q[0] >= k && Precedes(q, p) ensures !MixesForms(At(ns, q)) {
        if q[0] == k && |q| > 1 { UnmixedAt(ns[k].children, 0, q[1..]); }
      }
    }
  }

  lemma {:induction false} FlattenFollowsPaths(ns: seq<Node>, k: nat, parent: string, i: nat)
    requires k <= |ns| && i < |Paths(ns, k)|
    ensures |Flatten(ns, k, parent)| == |Paths(ns, k)|
    ensures var p := Paths(ns, k)[i];
            IsPath(ns, p) && p[0] >= k && Flatten(ns, k, parent)[i] == Desugar(At(ns, p), ParentName(ns, p, parent))
    decreases ns, |ns| - k
  {
    var below := Paths(ns[k].children, 0);
    PathsLength(ns, k, parent);
    PathsLength(ns[k].children, 0, ns[k].name);
    if 0 < i <= |below| {
      FlattenFollowsPaths(ns[k].children, 0, ns[k].name, i - 1);
      assert Paths(ns, k)[i] == [k] + below[i - 1];
      assert ([k] + below[i - 1])[1..] == below[i - 1];
    } else if i > |below| {
      FlattenFollowsPaths(ns, k + 1, parent, i - 1 - |below|);
    }
  }

  lemma {:induction false} PathsLength(ns: seq<Node>, k: nat, parent: string)
    requires k <= |ns|
    ensures |Flatten(ns, k, parent)| == |Paths(ns, k)|
    decreases ns, |ns| - k
  {
    if k < |ns| {
      PathsLength(ns[k].children, 0, ns[k].name);
      PathsLength(ns, k + 1, parent);
    }
  }

  lemma {:induction false} PathsComplete(ns: seq<Node>, k: nat, p: Path)
    requires k <= |ns| && IsPath(ns, p) && p[0] >= k
    ensures p in Paths(ns, k)
    decreases ns, |ns| - k
  {
    var below := Paths(ns[k].children, 0);
    if p[0] > k {
      PathsComplete(ns, k + 1, p);
    } else if |p| == 1 {
      assert p == [k] == Paths(ns, k)[0];
    } else {
      PathsComplete(ns[k].children, 0, p[1..]);
      var i :| 0 <= i < |below| && below[i] == p[1..];
      assert Paths(ns, k)[1 + i] == [k] + below[i] == p;
    }
  }

  /** The three parts of the listing. */
  lemma PathsAt(ns: seq<Node>, k: nat, i: nat)
    requires k < |ns| && i < |Paths(ns, k)|
    ensures var below, p := Paths(ns[k].children, 0), Paths(ns, k)[i];
            if i == 0 then p == [k]
            else if i <= |below| then p == [k] + below[i - 1] && p[1..] == below[i - 1] && below[i - 1] != []
            else p == Paths(ns, k + 1)[i - 1 - |below|] && p != [] && p[0] > k
  {
    var below := Paths(ns[k].children, 0);
    if 0 < i <= |below| {
      FlattenFollowsPaths(ns[k].children, 0, "", i - 1);
    } else if i > |below| {
      FlattenFollowsPaths(ns, k + 1, "", i - 1 - |below|);
    }
  }

  lemma {:induction false} PathsInOrder(ns: seq<Node>, k: nat, i: nat, j: nat)
    requires k <= |ns| && i < j < |Paths(ns, k)|
    ensures Precedes(Paths(ns, k)[i], Paths(ns, k)[j])
    decreases ns, |ns| - k
  {
    var below := Paths(ns[k].children, 0);
    PathsAt(ns, k, i);
    PathsAt(ns, k, j);
    if 0 < i && j <= |below| {
      PathsInOrder(ns[k].children, 0, i - 1, j - 1);
    } else if i > |below| {
      PathsInOrder(ns, k + 1, i - 1 - |below|, j - 1 - |below|);
    }
  }

  /** The parent's name is that of the node one step up the path. */
  lemma {:induction false} ParentIsAbove(ns: seq<Node>, p: Path, top: string)
    requires IsPath(ns, p)
    ensures |p| > 1 ==> IsPath(ns, p[..|p| - 1])
    ensures ParentName(ns, p, top) == if |p| == 1 then top else At(ns, p[..|p| - 1]).name
    decreases |p|
  {
    if |p| > 1 {
      ParentIsAbove(ns[p[0]].children, p[1..], ns[p[0]].name);
      assert p[..|p| - 1][1..] == p[1..][..|p| - 2];
    }
  }

  /** The flat form of a forest holds one node per tree node, in preorder: there is an enumeration of
      all its positions, in order, whose i-th node is the i-th flat node, with all its settings. */
  lemma FlattenIsPreorder(roots: seq<Node>) returns (ps: seq<Path>)
    ensures |ps| == |Flatten(roots, 0, "")|
    ensures forall p :: IsPath(roots, p) <==> p in ps
    ensures forall i, j :: 0 <= i < j < |ps| ==> Precedes(ps[i], ps[j])
    ensures forall i :: 0 <= i < |ps| ==>
              IsPath(roots, ps[i])
              && Flatten(roots, 0, "")[i] == Desugar(At(roots, ps[i]), ParentName(roots, ps[i], ""))
    ensures forall i :: 0 <= i < |ps| ==>
              IsFlatForm(Flatten(roots, 0, "")[i], At(roots, ps[i]), ParentName(roots, ps[i], ""))
  {
    ps := Paths(roots, 0);
    PathsLength(roots, 0, "");
    forall i | 0 <= i < |ps|
      ensures IsPath(roots, ps[i])
              && Flatten(roots, 0, "")[i] == Desugar(At(roots, ps[i]), ParentName(roots, ps[i], ""))
              && IsFlatForm(Flatten(roots, 0, "")[i], At(roots, ps[i]), ParentName(roots, ps[i], ""))
    {
      FlattenFollowsPaths(roots, 0, "", i);
      DesugarKeeps(At(roots, ps[i]), ParentName(roots, ps[i], ""));
    }
    forall p | IsPath(roots, p) ensures p in ps {
      PathsComplete(roots, 0, p);
    }
    forall i, j | 0 <= i < j < |ps| ensures Precedes(ps[i], ps[j]) {
      PathsInOrder(roots, 0, i, j);
    }
  }

  /** The normal form of a tree node: its settings, and as edges its own and then one to its parent. */
  ghost predicate IsNormalOf(f: Node, n: Node, parent: string) {
    && EdgesOk(n)
    && f == n.(children := [], dependsOn := f.dependsOn, dependsOnEdges := f.dependsOnEdges, edges := f.edges)
    && f.edges == EdgesOf(n) + if parent == "" then []
                               else [Edge(parent, if n.needParentReady then Ready else Started)]
  }

  lemma NormalOfDesugared(n: Node, parent: string)
    requires EdgesOk(Desugar(n, parent))
    ensures IsNormalOf(WithEdges(Desugar(n, parent)), n, parent)
  {
    if parent != "" {
      ParentEdge(n, parent);
    } else {
      assert EdgesOf(Desugar(n, parent)) == EdgesOf(n);
    }
  }

  /** What normalisation makes of a tree: all its nodes, in preorder, with their own settings, waiting
      for what they name and for their parents. */
  lemma TreeNormalForm(c: Chain) returns (ps: seq<Path>)
    requires NormalizeOk(c) && c.nodes == []
    ensures |ps| == |NormalForm(c).nodes| && NormalForm(c).roots == [] && NormalForm(c).execDefault == c.execDefault
    ensures forall p :: IsPath(c.roots, p) <==> p in ps
    ensures forall i, j :: 0 <= i < j < |ps| ==> Precedes(ps[i], ps[j])
    ensures forall i :: 0 <= i < |ps| ==>
              IsPath(c.roots, ps[i])
              && IsNormalOf(NormalForm(c).nodes[i], At(c.roots, ps[i]), ParentName(c.roots, ps[i], ""))
  {
    ps := FlattenIsPreorder(c.roots);
    forall i | 0 <= i < |ps|
      ensures IsNormalOf(NormalForm(c).nodes[i], At(c.roots, ps[i]), ParentName(c.roots, ps[i], ""))
    {
      assert EdgesOk(FlatNodes(c)[i]);
      NormalOfDesugared(At(c.roots, ps[i]), ParentName(c.roots, ps[i], ""));
    }
  }

  /** What normalisation makes of a flat chain: the same nodes, with their edges. */
  lemma FlatNormalForm(c: Chain)
    requires NormalizeOk(c) && c.nodes != []
    ensures |NormalForm(c).nodes| == |c.nodes| && NormalForm(c).execDefault == c.execDefault
    ensures forall i :: 0 <= i < |c.nodes| ==>
              EdgesOk(c.nodes[i]) && NormalForm(c).nodes[i] == c.nodes[i].(edges := EdgesOf(c.nodes[i]))
  {
    assert forall i :: 0 <= i < |c.nodes| ==> EdgesOk(FlatNodes(c)[i]);
  }
}
