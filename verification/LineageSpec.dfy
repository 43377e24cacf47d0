/** The declarative lineage spec: validation, its graph, and who is affected by a change. */
module LineageSpec {
  import opened Basics
  import opened Lineage

  function DatasetIdList(spec: Spec): seq<string> {
    seq(|spec.datasets|, i requires 0 <= i < |spec.datasets| => spec.datasets[i].id)
  }

  function JobIdList(spec: Spec): seq<string> {
    seq(|spec.jobs|, i requires 0 <= i < |spec.jobs| => spec.jobs[i].id)
  }

  function Elements(s: seq<string>): set<string> {
    set x | x in s
  }

  function DatasetIds(spec: Spec): set<string> {
    Elements(DatasetIdList(spec))
  }

  function JobIds(spec: Spec): set<string> {
    Elements(JobIdList(spec))
  }

  function Nodes(spec: Spec): set<string> {
    DatasetIds(spec) + JobIds(spec)
  }

  predicate References(job: Job, ref: string) {
    ref in job.inputs || ref in job.outputs
  }

  ghost predicate Resolves(spec: Spec, job: Job) {
    forall ref :: References(job, ref) ==> ref in DatasetIds(spec)
  }

  ghost predicate Distinct(s: seq<string>) {
    forall i, j :: 0 <= i < j < |s| ==> s[i] != s[j]
  }

  ghost predicate UniqueIds(spec: Spec) {
    Distinct(DatasetIdList(spec)) && Distinct(JobIdList(spec))
  }

  /** Unique ids, no id shared by a dataset and a job, no dangling reference. */
  ghost predicate Validated(spec: Spec) {
    UniqueIds(spec) && DatasetIds(spec) !! JobIds(spec) && forall job :: job in spec.jobs ==> Resolves(spec, job)
  }

  datatype LineageError = NotUnique | SharedId | UnknownDataset(job: string, ref: string) | UnknownNode | KeyError

  /** A list has as many distinct elements as entries exactly when it has no duplicates. */
  lemma {:induction false} CountElements(s: seq<string>)
    ensures |Elements(s)| <= |s| && (|Elements(s)| == |s| <==> Distinct(s))
  {
    if s != [] {
      var n := |s| - 1;
      var front, last := s[..n], s[n];
      CountElements(front);
      assert s == front + [last];
      assert Elements(s) == Elements(front) + {last};
      if last in front {
        var i :| 0 <= i < n && s[i] == last;
        assert Elements(s) == Elements(front);
      } else {
        assert Distinct(s) <==> Distinct(front);
      }
    }
  }

  method CheckReferences(spec: Spec, job: Job) returns (r: Result<(), LineageError>)
    ensures r.Ok? <==> Resolves(spec, job)
    ensures r.Err? ==> r.error.UnknownDataset? && r.error.job == job.id && References(job, r.error.ref) &&
                       r.error.ref !in DatasetIds(spec)
  {
    var datasets := DatasetIds(spec);
    var refs := job.inputs + job.outputs;
    assert forall ref :: References(job, ref) <==> ref in refs;
    var j := 0;
    while j < |refs|
      invariant 0 <= j <= |refs|
      invariant forall k :: 0 <= k < j ==> refs[k] in datasets
    {
      if refs[j] !in datasets {
        assert References(job, refs[j]);
        return Err(UnknownDataset(job.id, refs[j]));
      }
      j := j + 1;
    }
    r := Ok(());
  }

  method ValidateSpec(spec: Spec) returns (r: Result<(), LineageError>)
    ensures r.Ok? <==> Validated(spec)
    ensures r == Err(NotUnique) <==> !UniqueIds(spec)
    ensures r == Err(SharedId) <==> UniqueIds(spec) && !(DatasetIds(spec) !! JobIds(spec))
    ensures r.Err? && r.error.UnknownDataset? ==>
              exists job :: job in spec.jobs && job.id == r.error.job && References(job, r.error.ref) &&
                            r.error.ref !in DatasetIds(spec)
  {
    hide Distinct, Elements, DatasetIdList, JobIdList, Resolves, References;
    var datasets, jobs := DatasetIds(spec), JobIds(spec);
    CountElements(DatasetIdList(spec));
    CountElements(JobIdList(spec));
    ListLengths(spec);
    if |datasets| != |spec.datasets| || |jobs| != |spec.jobs| { return Err(NotUnique); }
    if datasets * jobs != {} { return Err(SharedId); }
    assert datasets !! jobs by { DisjointSets(datasets, jobs); }
    var i := 0;
    while i < |spec.jobs|
      invariant 0 <= i <= |spec.jobs|
      invariant forall k :: 0 <= k < i ==> Resolves(spec, spec.jobs[k])
    {
      r := CheckReferences(spec, spec.jobs[i]);
      if r.Err? {
        assert spec.jobs[i] in spec.jobs;
        return;
      }
      i := i + 1;
    }
    r := Ok(());
  }

  lemma DisjointSets(a: set<string>, b: set<string>)
    requires a * b == {}
    ensures a !! b
  {
    forall x | x in a ensures x !in b {
      assert x in b ==> x in a * b;
    }
  }

  lemma ListLengths(spec: Spec)
    ensures |DatasetIdList(spec)| == |spec.datasets| && |JobIdList(spec)| == |spec.jobs|
  {
  }

  // ------------------------------------------------------------------------ the graph

  /** dataset -> job for every input, job -> dataset for every output. */
  predicate Links(job: Job, a: string, b: string) {
    (a in job.inputs && b == job.id) || (a == job.id && b in job.outputs)
  }

  ghost predicate HasEdge(jobs: seq<Job>, a: string, b: string) {
    exists i :: 0 <= i < |jobs| && Links(jobs[i], a, b)
  }

  /** graph.setdefault(node, []).extend(children) */
  function Extend(g: Graph, node: string, children: seq<string>): (r: Graph)
    ensures forall a, b {:trigger Child(r, a, b)} :: Child(r, a, b) <==> Child(g, a, b) || (a == node && b in children)
  {
    g[node := (if node in g then g[node] else []) + children]
  }

  method Edges(spec: Spec) returns (g: Graph)
    ensures forall a, b {:trigger Child(g, a, b)} :: Child(g, a, b) <==> HasEdge(spec.jobs, a, b)
  {
    hide Child, Extend;
    g := map[];
    NoEdges();
    var i := 0;
    while i < |spec.jobs|
      invariant 0 <= i <= |spec.jobs|
      invariant forall a, b {:trigger Child(g, a, b)} :: Child(g, a, b) <==> HasEdge(spec.jobs[..i], a, b)
    {
      var job := spec.jobs[i];
      var before := g;
      var j := 0;
      while j < |job.inputs|
        invariant 0 <= j <= |job.inputs|
        invariant forall a, b {:trigger Child(g, a, b)} ::
          Child(g, a, b) <==> Child(before, a, b) || (a in job.inputs[..j] && b == job.id)
      {
        g := Extend(g, job.inputs[j], [job.id]);
        j := j + 1;
      }
      g := Extend(g, job.id, job.outputs);
      forall a, b {:trigger Child(g, a, b)} ensures Child(g, a, b) <==> HasEdge(spec.jobs[..i + 1], a, b) {
        OneMoreJob(spec.jobs, i, a, b);
        assert Child(before, a, b) <==> HasEdge(spec.jobs[..i], a, b);
      }
      i := i + 1;
    }
    assert spec.jobs[..i] == spec.jobs;
  }

  lemma NoEdges()
    ensures forall a, b {:trigger Child(map[], a, b)} :: !Child(map[], a, b)
  {
  }

  lemma OneMoreJob(jobs: seq<Job>, i: nat, a: string, b: string)
    requires i < |jobs|
    ensures HasEdge(jobs[..i + 1], a, b) <==> HasEdge(jobs[..i], a, b) || Links(jobs[i], a, b)
  {
    if HasEdge(jobs[..i], a, b) {
      var k :| 0 <= k < i && Links(jobs[..i][k], a, b);
      assert Links(jobs[..i + 1][k], a, b);
    }
    if Links(jobs[i], a, b) { assert Links(jobs[..i + 1][i], a, b); }
    if HasEdge(jobs[..i + 1], a, b) {
      var k :| 0 <= k < i + 1 && Links(jobs[..i + 1][k], a, b);
      if k < i { assert Links(jobs[..i][k], a, b); }
    }
  }

  method Reverse(g: Graph) returns (r: Graph)
    ensures IsReverse(g, r)
  {
    r := map[];
    var todo := g.Keys;
    while todo != {}
      invariant todo <= g.Keys
      invariant forall a, b {:trigger Child(r, b, a)} :: Child(r, b, a) <==> Child(g, a, b) && a !in todo
    {
      var node :| node in todo;
      var before := r;
      var c := 0;
      while c < |g[node]|
        invariant 0 <= c <= |g[node]|
        invariant forall a, b {:trigger Child(r, b, a)} ::
          Child(r, b, a) <==> Child(before, b, a) || (a == node && b in g[node][..c])
      {
        r := Extend(r, g[node][c], [node]);
        c := c + 1;
      }
      todo := todo - {node};
    }
  }

  // ---------------------------------------------------------------------- the queries

  method Downstream(spec: Spec, id: string) returns (r: Result<seq<Item>, LineageError>)
    ensures r == Err(UnknownNode) <==> id !in Nodes(spec)
    ensures r.Ok? <==> id in Nodes(spec)
    ensures r.Ok? ==> exists g :: IsGraphOf(spec, g) && IsWalk(g, id, r.value)
  {
    if id !in Nodes(spec) { return Err(UnknownNode); }
    var g := Edges(spec);
    var out := Walk(g, id);
    assert IsGraphOf(spec, g);
    r := Ok(out);
  }

  method Upstream(spec: Spec, id: string) returns (r: Result<seq<Item>, LineageError>)
    ensures r == Err(UnknownNode) <==> id !in Nodes(spec)
    ensures r.Ok? <==> id in Nodes(spec)
    ensures r.Ok? ==> exists g, b :: IsGraphOf(spec, g) && IsReverse(g, b) && IsWalk(b, id, r.value)
  {
    if id !in Nodes(spec) { return Err(UnknownNode); }
    var g := Edges(spec);
    var back := Reverse(g);
    var out := Walk(back, id);
    assert IsGraphOf(spec, g) && IsReverse(g, back);
    r := Ok(out);
  }

  ghost predicate IsGraphOf(spec: Spec, g: Graph) {
    forall a, b {:trigger Child(g, a, b)} :: Child(g, a, b) <==> HasEdge(spec.jobs, a, b)
  }

  datatype Affected = Affected(id: string, depth: nat, isJob: bool, owner: Option<string>)

  datatype Impact = Impact(affected: seq<Affected>, datasets: seq<string>, jobs: seq<string>, owners: set<string>)

  datatype Node = Node(isJob: bool, owner: Option<string>)

  /** The node dict: the last entry of an id wins, jobs after datasets. */
  function NodeDict(spec: Spec): (nodes: map<string, Node>)
    ensures nodes.Keys == Nodes(spec)
    ensures forall id :: id in nodes ==> (nodes[id].isJob <==> id in JobIds(spec))
    ensures forall id :: id in nodes ==> IsOwner(spec, id, nodes[id].isJob, nodes[id].owner)
  {
    map id | id in Nodes(spec) ::
      if id in JobIds(spec) then Node(true, JobOwner(spec.jobs, id)) else Node(false, DatasetOwner(spec.datasets, id))
  }

  ghost predicate IsOwner(spec: Spec, id: string, isJob: bool, owner: Option<string>) {
    if isJob then exists i :: IsLastJob(spec.jobs, id, i) && spec.jobs[i].owner == owner
    else exists i :: IsLastDataset(spec.datasets, id, i) && spec.datasets[i].owner == owner
  }

  /** The last entry of the list with this id. */
  predicate IsLastJob(jobs: seq<Job>, id: string, i: int) {
    0 <= i < |jobs| && jobs[i].id == id && forall k :: i < k < |jobs| ==> jobs[k].id != id
  }

  predicate IsLastDataset(datasets: seq<Dataset>, id: string, i: int) {
    0 <= i < |datasets| && datasets[i].id == id && forall k :: i < k < |datasets| ==> datasets[k].id != id
  }

  function JobOwner(jobs: seq<Job>, id: string): (owner: Option<string>)
    requires exists i :: 0 <= i < |jobs| && jobs[i].id == id
    ensures exists i :: IsLastJob(jobs, id, i) && jobs[i].owner == owner
  {
    var n := |jobs| - 1;
    assert forall i :: jobs[n].id != id && IsLastJob(jobs[..n], id, i) ==> IsLastJob(jobs, id, i);
    assert jobs[n].id == id ==> IsLastJob(jobs, id, n);
    if jobs[n].id == id then jobs[n].owner else JobOwner(jobs[..n], id)
  }

  function DatasetOwner(datasets: seq<Dataset>, id: string): (owner: Option<string>)
    requires exists i :: 0 <= i < |datasets| && datasets[i].id == id
    ensures exists i :: IsLastDataset(datasets, id, i) && datasets[i].owner == owner
  {
    var n := |datasets| - 1;
    assert forall i :: datasets[n].id != id && IsLastDataset(datasets[..n], id, i) ==> IsLastDataset(datasets, id, i);
    assert datasets[n].id == id ==> IsLastDataset(datasets, id, n);
    if datasets[n].id == id then datasets[n].owner else DatasetOwner(datasets[..n], id)
  }

  predicate Names(owner: Option<string>) {
    owner.Some? && owner.value != ""
  }

  ghost predicate SameItems(out: seq<Affected>, walk: seq<Item>) {
    |out| == |walk| && forall i :: 0 <= i < |out| ==> out[i].id == walk[i].id && out[i].depth == walk[i].depth
  }

  /** The ids of one kind, in order. */
  function IdsOf(out: seq<Affected>, isJob: bool): seq<string> {
    if out == [] then []
    else
      var n := |out| - 1;
      IdsOf(out[..n], isJob) + if out[n].isJob == isJob then [out[n].id] else []
  }

  /** Every affected item with its kind and owner; the ids by kind; the owners that have a name. */
  ghost predicate IsImpact(impact: Impact, walk: seq<Item>, nodes: map<string, Node>) {
    var out := impact.affected;
    && SameItems(out, walk)
    && (forall a :: a in out ==> a.id in nodes && nodes[a.id] == Node(a.isJob, a.owner))
    && impact.jobs == IdsOf(out, true) && impact.datasets == IdsOf(out, false)
    && (forall o :: o in impact.owners <==> exists a :: a in out && a.owner == Some(o) && o != "")
  }

  lemma ImpactSnoc(impact: Impact, walk: seq<Item>, nodes: map<string, Node>, item: Item)
    requires IsImpact(impact, walk, nodes) && item.id in nodes
    ensures IsImpact(AddAffected(impact, item, nodes[item.id]), walk + [item], nodes)
  {
    var a := Affected(item.id, item.depth, nodes[item.id].isJob, nodes[item.id].owner);
    assert forall x :: x in impact.affected + [a] <==> x in impact.affected || x == a;
  }

  function AddAffected(impact: Impact, item: Item, node: Node): Impact {
    Impact(impact.affected + [Affected(item.id, item.depth, node.isJob, node.owner)],
           impact.datasets + if node.isJob then [] else [item.id],
           impact.jobs + if node.isJob then [item.id] else [],
           impact.owners + if Names(node.owner) then {node.owner.value} else {})
  }

  /** What breaks, and who to notify. Looking up an affected id can only fail on a spec that was not validated. */
  method ImpactOf(spec: Spec, id: string) returns (r: Result<Impact, LineageError>)
    ensures r == Err(UnknownNode) <==> id !in Nodes(spec)
    ensures Validated(spec) && id in Nodes(spec) ==> r.Ok?
    ensures r.Ok? ==> exists g, walk :: IsGraphOf(spec, g) && IsWalk(g, id, walk) &&
                                        IsImpact(r.value, walk, NodeDict(spec))
  {
    hide IsGraphOf, IsWalk, IsImpact, Validated, Nodes, ReachIn, AddAffected;
    if id !in Nodes(spec) { return Err(UnknownNode); }
    var nodes := NodeDict(spec);
    var g := Edges(spec);
    GraphFromEdges(spec, g);
    var walk := Walk(g, id);
    var impact := Impact([], [], [], {});
    NoImpact(nodes);
    var i := 0;
    assert walk[..i] == [];
    while i < |walk|
      invariant 0 <= i <= |walk| && IsImpact(impact, walk[..i], nodes)
    {
      if walk[i].id !in nodes {
        if Validated(spec) { AffectedIsNode(spec, g, id, walk, i); }
        return Err(KeyError);
      }
      assert walk[..i + 1] == walk[..i] + [walk[i]];
      ImpactSnoc(impact, walk[..i], nodes, walk[i]);
      impact := AddAffected(impact, walk[i], nodes[walk[i].id]);
      i := i + 1;
    }
    assert walk[..i] == walk;
    r := Ok(impact);
  }

  lemma GraphFromEdges(spec: Spec, g: Graph)
    requires forall a, b {:trigger Child(g, a, b)} :: Child(g, a, b) <==> HasEdge(spec.jobs, a, b)
    ensures IsGraphOf(spec, g)
  {
  }

  lemma NoImpact(nodes: map<string, Node>)
    ensures IsImpact(Impact([], [], [], {}), [], nodes)
  {
  }

  lemma AffectedIsNode(spec: Spec, g: Graph, id: string, walk: seq<Item>, i: nat)
    requires Validated(spec) && IsGraphOf(spec, g) && id in Nodes(spec) && IsWalk(g, id, walk) && i < |walk|
    ensures walk[i].id in Nodes(spec)
  {
    assert Item(walk[i].id, walk[i].depth) in walk;
    ReachesNodes(spec, g, id, walk[i].id, walk[i].depth);
  }

  /** In a validated spec every edge leads to a declared dataset or job. */
  lemma ReachesNodes(spec: Spec, g: Graph, id: string, n: string, d: nat)
    requires Validated(spec) && IsGraphOf(spec, g) && id in Nodes(spec) && ReachIn(g, id, n, d)
    ensures n in Nodes(spec)
  {
    if d > 0 {
      var m :| ReachIn(g, id, m, d - 1) && Child(g, m, n);
      assert HasEdge(spec.jobs, m, n);
      var i :| 0 <= i < |spec.jobs| && Links(spec.jobs[i], m, n);
      assert JobIdList(spec)[i] == spec.jobs[i].id;
      assert spec.jobs[i] in spec.jobs && Resolves(spec, spec.jobs[i]);
      if n in spec.jobs[i].outputs { assert References(spec.jobs[i], n); }
    }
  }

  /** Edges of a validated spec lead from datasets to jobs and from jobs to datasets only. */
  lemma GraphAlternates(spec: Spec, g: Graph, a: string, b: string)
    requires Validated(spec) && IsGraphOf(spec, g) && Child(g, a, b)
    ensures (a in DatasetIds(spec) && b in JobIds(spec)) || (a in JobIds(spec) && b in DatasetIds(spec))
    ensures a in DatasetIds(spec) <==> b in JobIds(spec)
  {
    assert HasEdge(spec.jobs, a, b);
    var i :| 0 <= i < |spec.jobs| && Links(spec.jobs[i], a, b);
    assert JobIdList(spec)[i] == spec.jobs[i].id;
    assert spec.jobs[i] in spec.jobs && Resolves(spec, spec.jobs[i]);
    if a in spec.jobs[i].inputs { assert References(spec.jobs[i], a); }
    if b in spec.jobs[i].outputs { assert References(spec.jobs[i], b); }
  }

  lemma JobLinks(spec: Spec, g: Graph, job: Job, a: string, b: string)
    requires IsGraphOf(spec, g) && job in spec.jobs && Links(job, a, b)
    ensures Child(g, a, b)
  {
    var i :| 0 <= i < |spec.jobs| && spec.jobs[i] == job;
    assert HasEdge(spec.jobs, a, b);
  }

  /** The direction of the graph: what a dataset flows into. Every job that reads it is one step downstream, and what
      such a job writes is two steps downstream, unless it is the dataset itself. */
  lemma ReadersAreDownstream(spec: Spec, g: Graph, id: string, down: seq<Item>, job: Job, b: string)
    requires Validated(spec) && IsGraphOf(spec, g) && IsWalk(g, id, down)
    requires job in spec.jobs && id in job.inputs && b in job.outputs
    ensures Item(job.id, 1) in down
    ensures b == id || Item(b, 2) in down
  {
    JobLinks(spec, g, job, id, job.id);
    JobLinks(spec, g, job, job.id, b);
    GraphAlternates(spec, g, id, job.id);
    GraphAlternates(spec, g, job.id, b);
    ChildInWalk(g, id, down, job.id);
    if b != id {
      if Child(g, id, b) { GraphAlternates(spec, g, id, b); }
      GrandchildInWalk(g, id, down, job.id, b);
    }
  }

  /** And upstream of what a job writes are the job, one step, and what it reads, two steps. */
  lemma WritersAreUpstream(spec: Spec, g: Graph, back: Graph, id: string, up: seq<Item>, job: Job, a: string)
    requires Validated(spec) && IsGraphOf(spec, g) && IsReverse(g, back) && IsWalk(back, id, up)
    requires job in spec.jobs && id in job.outputs && a in job.inputs
    ensures Item(job.id, 1) in up
    ensures a == id || Item(a, 2) in up
  {
    JobLinks(spec, g, job, a, job.id);
    JobLinks(spec, g, job, job.id, id);
    assert Child(back, id, job.id) && Child(back, job.id, a);
    GraphAlternates(spec, g, a, job.id);
    GraphAlternates(spec, g, job.id, id);
    ChildInWalk(back, id, up, job.id);
    if a != id {
      if Child(back, id, a) {
        assert Child(g, a, id);
        GraphAlternates(spec, g, a, id);
      }
      GrandchildInWalk(back, id, up, job.id, a);
    }
  }

  /** Impact and provenance agree for every pair of nodes of one spec. */
  lemma DownstreamIsUpstream(spec: Spec, g: Graph, back: Graph, g': Graph, y: string, down: seq<Item>, x: string,
                             up: seq<Item>, d: nat)
    requires IsGraphOf(spec, g) && IsGraphOf(spec, g') && IsReverse(g', back)
    requires IsWalk(g, y, down) && IsWalk(back, x, up)
    ensures Item(x, d) in down <==> Item(y, d) in up
  {
    assert IsReverse(g, back) by {
      forall a, b ensures Child(back, b, a) <==> Child(g, a, b) {
        assert Child(g', a, b) <==> Child(g, a, b);
      }
    }
    Duality(g, back, y, down, x, up, d);
  }
}
