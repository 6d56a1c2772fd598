/** Validation of strategy graphs (packages/domain-strategy/src/index.ts). */
module StrategyGraph {
  import opened Wrappers

  datatype NodeType =
    | CorporateStrategy | Theme | Objective | StrategicPlay | Portfolio | AreaOfFocus

  datatype EdgeType = Contains | ExecutedBy | BelongsToPortfolio | AlignsTo

  datatype Node = Node(id: string, kind: NodeType, plan: string)

  datatype Edge = Edge(from: string, to: string, kind: EdgeType, plan: string)

  datatype Rule =
    Rule(fromType: NodeType, toType: NodeType, edgeType: EdgeType, minCount: int, maxCount: Option<int>)

  /** The two fields of an edge that cycle detection looks at. */
  datatype Link = Link(from: string, to: string)

  const DEFAULT_RULES: seq<Rule> := [
    Rule(CorporateStrategy, Theme, Contains, 1, None),
    Rule(Theme, Objective, Contains, 1, None),
    Rule(Objective, StrategicPlay, ExecutedBy, 1, None),
    Rule(StrategicPlay, Portfolio, BelongsToPortfolio, 0, Some(1)),
    Rule(StrategicPlay, AreaOfFocus, AlignsTo, 0, None)
  ]

  // ---------------------------------------------------------------------------
  // Walks and cycles
  // ---------------------------------------------------------------------------

  ghost predicate IsWalk(links: seq<Link>, p: seq<string>) {
    && 0 < |p|
    && forall i | 0 <= i < |p| - 1 :: Link(p[i], p[i + 1]) in links
  }

  /** A walk of at least one link that comes back to where it started. */
  ghost predicate IsCycle(links: seq<Link>, p: seq<string>) {
    2 <= |p| && IsWalk(links, p) && p[0] == p[|p| - 1]
  }

  ghost predicate HasCycle(links: seq<Link>) {
    exists p :: IsCycle(links, p)
  }

  // ---------------------------------------------------------------------------
  // Depth-first search
  // ---------------------------------------------------------------------------

  /** No edge leaves s. */
  ghost predicate Closed(links: seq<Link>, s: set<string>) {
    forall l | l in links && l.from in s :: l.to in s
  }

  /** No cycle starts inside s. */
  ghost predicate CycleFree(links: seq<Link>, s: set<string>) {
    forall p | IsCycle(links, p) :: p[0] !in s
  }

  lemma WalkStaysInside(links: seq<Link>, s: set<string>, p: seq<string>, k: nat)
    requires IsWalk(links, p) && Closed(links, s)
    requires k < |p| && p[k] in s
    ensures p[|p| - 1] in s
    decreases |p| - k
  {
    if k < |p| - 1 {
      assert Link(p[k], p[k + 1]) in links;
      WalkStaysInside(links, s, p, k + 1);
    }
  }

  /** Retiring a vertex whose successors are all in a closed cycle-free set keeps both. */
  lemma CycleFreeExtends(links: seq<Link>, s: set<string>, v: string)
    requires Closed(links, s) && CycleFree(links, s) && v !in s
    requires forall l | l in links && l.from == v :: l.to in s
    ensures Closed(links, s + {v}) && CycleFree(links, s + {v})
  {
    forall p | IsCycle(links, p) ensures p[0] !in s + {v} {
      if p[0] == v {
        assert Link(p[0], p[1]) in links;
        WalkStaysInside(links, s, p, 1);
      }
    }
  }

  lemma CyclesStartAmongSources(links: seq<Link>, s: set<string>)
    requires forall l | l in links :: l.from in s
    ensures forall p | IsCycle(links, p) :: p[0] in s
  {
    forall p | IsCycle(links, p) ensures p[0] in s {
      assert Link(p[0], p[1]) in links;
    }
  }

  class CycleSearch {
    ghost const links: seq<Link>
    var adjacency: map<string, seq<string>>
    var nodes: seq<string>
    var visiting: set<string>
    var visited: set<string>

    /** The adjacency map and the vertex list say exactly what the links say. */
    ghost predicate Indexed(count: nat)
      requires count <= |links|
      reads this
    {
      && (forall l | l in links[..count] :: l.from in adjacency && l.to in adjacency[l.from])
      && (forall a, b | a in adjacency && b in adjacency[a] :: Link(a, b) in links[..count])
      && (forall l | l in links[..count] :: l.from in nodes && l.to in nodes)
    }

    ghost predicate Invariant()
      reads this
    {
      && Indexed(|links|)
      && visiting !! visited
      && Closed(links, visited)
      && CycleFree(links, visited)
    }

    /** The vertices being visited are those of one walk, the recursion stack. */
    ghost predicate OnStack(stack: seq<string>, current: string)
      reads this
    {
      && (forall v :: v in visiting <==> v in stack)
      && IsWalk(links, stack + [current])
    }

    constructor (edges: seq<Link>)
      ensures links == edges && Invariant()
      ensures visiting == {} && visited == {}
    {
      links := edges;
      adjacency, nodes, visiting, visited := map[], [], {}, {};
      new;
      var i := 0;
      while i < |edges|
        invariant 0 <= i <= |edges|
        invariant Indexed(i)
        invariant visiting == {} && visited == {}
      {
        var e := edges[i];
        assert edges[..i + 1] == edges[..i] + [e];
        if e.from !in nodes { nodes := nodes + [e.from]; }
        if e.to !in nodes { nodes := nodes + [e.to]; }
        var targets := if e.from in adjacency then adjacency[e.from] else [];
        adjacency := adjacency[e.from := targets + [e.to]];
        i := i + 1;
      }
      assert edges[..|edges|] == edges;
    }

    /** Explores everything reachable from current that is not yet visited. */
    method Visit(current: string, ghost stack: seq<string>) returns (found: bool)
      requires Invariant() && OnStack(stack, current) && current in nodes
      modifies this`visiting, this`visited
      ensures Indexed(|links|)
      ensures found ==> HasCycle(links)
      ensures !found ==> Invariant() && visiting == old(visiting)
      ensures !found ==> old(visited) <= visited && current in visited
      decreases (set v | v in nodes) - visiting - visited
    {
      if current in visiting {
        ghost var k :| 0 <= k < |stack| && stack[k] == current;
        assert IsCycle(links, (stack + [current])[k..]);
        return true;
      }
      if current in visited {
        return false;
      }
      visiting := visiting + {current};
      var targets := if current in adjacency then adjacency[current] else [];
      var i := 0;
      while i < |targets|
        invariant 0 <= i <= |targets|
        invariant Invariant()
        invariant visiting == old(visiting) + {current}
        invariant old(visited) <= visited
        invariant forall j | 0 <= j < i :: targets[j] in visited
      {
        assert targets[i] in adjacency[current];
        ghost var extended := stack + [current];
        assert IsWalk(links, extended + [targets[i]]) by {
          assert Link(current, targets[i]) in links;
        }
        assert current in old((set v | v in nodes) - visiting - visited);
        found := Visit(targets[i], extended);
        if found {
          return true;
        }
        i := i + 1;
      }
      assert forall l | l in links && l.from == current :: l.to in visited;
      CycleFreeExtends(links, visited, current);
      visiting := visiting - {current};
      visited := visited + {current};
      return false;
    }
  }

  method HasDirectedCycle(links: seq<Link>) returns (found: bool)
    ensures found <==> HasCycle(links)
  {
    var search := new CycleSearch(links);
    var i := 0;
    while i < |search.nodes|
      invariant 0 <= i <= |search.nodes|
      invariant search.links == links
      invariant search.Invariant() && search.visiting == {}
      invariant forall j | 0 <= j < i :: search.nodes[j] in search.visited
    {
      found := search.Visit(search.nodes[i], []);
      if found {
        return true;
      }
      i := i + 1;
    }
    assert links[..|links|] == links;
    CyclesStartAmongSources(links, search.visited);
    return false;
  }

  // ---------------------------------------------------------------------------
  // Whole-graph validation
  // ---------------------------------------------------------------------------

  datatype Verdict =
    | Accepted
    | CrossPlanVersion
    | InvalidRelationship(fromType: NodeType, toType: NodeType, edgeType: EdgeType)
    | StrategyCycle
    | CardinalityViolated(rule: Rule, count: int)

  predicate Matches(rule: Rule, fromType: NodeType, toType: NodeType, edgeType: EdgeType) {
    rule.fromType == fromType && rule.toType == toType && rule.edgeType == edgeType
  }

  predicate Allowed(rules: seq<Rule>, fromType: NodeType, toType: NodeType, edgeType: EdgeType) {
    exists rule | rule in rules :: Matches(rule, fromType, toType, edgeType)
  }

  /** The last node listed under an id, as a JavaScript Map built from the list keeps it. */
  function NodeById(nodes: seq<Node>): map<string, Node> {
    if nodes == [] then map[]
    else var last := nodes[|nodes| - 1]; NodeById(nodes[..|nodes| - 1])[last.id := last]
  }

  /** What validating one edge reports; Accepted when it is fine. */
  function EdgeVerdict(byId: map<string, Node>, e: Edge, rules: seq<Rule>): Verdict {
    if e.from !in byId || e.to !in byId || byId[e.from].plan != e.plan || byId[e.to].plan != e.plan then
      CrossPlanVersion
    else if !Allowed(rules, byId[e.from].kind, byId[e.to].kind, e.kind) then
      InvalidRelationship(byId[e.from].kind, byId[e.to].kind, e.kind)
    else Accepted
  }

  function Links(edges: seq<Edge>): (r: seq<Link>)
    ensures |r| == |edges|
    ensures forall i | 0 <= i < |edges| :: r[i] == Link(edges[i].from, edges[i].to)
  {
    seq(|edges|, i requires 0 <= i < |edges| => Link(edges[i].from, edges[i].to))
  }

  predicate Counts(byId: map<string, Node>, e: Edge, node: Node, rule: Rule) {
    e.from == node.id && e.kind == rule.edgeType && e.to in byId && byId[e.to].kind == rule.toType
  }

  function CountEdges(byId: map<string, Node>, edges: seq<Edge>, node: Node, rule: Rule): nat {
    if edges == [] then 0
    else CountEdges(byId, edges[..|edges| - 1], node, rule)
         + if Counts(byId, edges[|edges| - 1], node, rule) then 1 else 0
  }

  predicate InRange(rule: Rule, count: int) {
    rule.minCount <= count && (rule.maxCount.Some? ==> count <= rule.maxCount.value)
  }

  // What the checks are about, in terms of the graph as it is listed.

  /** The node an id stands for: the last one listed under it, which with distinct ids is the only one. */
  ghost predicate Named(nodes: seq<Node>, id: string, n: Node) {
    exists i | 0 <= i < |nodes| ::
      nodes[i] == n && n.id == id && forall j | i < j < |nodes| :: nodes[j].id != id
  }

  /** The edge joins two listed nodes, and all three are of one plan version. */
  ghost predicate InPlan(nodes: seq<Node>, e: Edge) {
    exists m, n | Named(nodes, e.from, m) && Named(nodes, e.to, n) :: m.plan == e.plan && n.plan == e.plan
  }

  /** Some rule allows an edge of its type between nodes of their types. */
  ghost predicate Typed(nodes: seq<Node>, e: Edge, rules: seq<Rule>) {
    exists m, n, rule | Named(nodes, e.from, m) && Named(nodes, e.to, n) && rule in rules ::
      rule.fromType == m.kind && rule.toType == n.kind && rule.edgeType == e.kind
  }

  /** The edges that count for a rule at a node: they start there, have the rule's type and lead to a node of its target type. */
  ghost function Counted(nodes: seq<Node>, edges: seq<Edge>, n: Node, rule: Rule): set<int> {
    set i | 0 <= i < |edges| && edges[i].from == n.id && edges[i].kind == rule.edgeType && Leads(nodes, edges[i], rule.toType)
  }

  ghost predicate Leads(nodes: seq<Node>, e: Edge, kind: NodeType) {
    exists m :: Named(nodes, e.to, m) && m.kind == kind
  }

  ghost predicate CountAllowed(nodes: seq<Node>, edges: seq<Edge>, n: Node, rule: Rule) {
    var count := |Counted(nodes, edges, n, rule)|;
    rule.minCount <= count && (rule.maxCount != None ==> count <= rule.maxCount.value)
  }

  ghost predicate EdgesFine(nodes: seq<Node>, edges: seq<Edge>, rules: seq<Rule>) {
    forall e | e in edges :: InPlan(nodes, e) && Typed(nodes, e, rules)
  }

  ghost predicate CountsFine(nodes: seq<Node>, edges: seq<Edge>, rules: seq<Rule>) {
    forall n, rule | n in nodes && rule in rules && rule.fromType == n.kind :: CountAllowed(nodes, edges, n, rule)
  }

  lemma {:induction false} NodeByIdNames(nodes: seq<Node>, id: string, n: Node)
    ensures id in NodeById(nodes) && NodeById(nodes)[id] == n <==> Named(nodes, id, n)
  {
    if nodes != [] {
      var front, last := nodes[..|nodes| - 1], nodes[|nodes| - 1];
      NodeByIdNames(front, id, n);
      if last.id == id {
        assert nodes[|nodes| - 1] == last;
      } else if Named(front, id, n) {
        var i :| 0 <= i < |front| && front[i] == n && n.id == id && forall j | i < j < |front| :: front[j].id != id;
        assert nodes[i] == n && forall j | i < j < |nodes| :: nodes[j].id != id;
      }
    }
  }

  /** With distinct ids a node is named by its id exactly when it is listed. */
  lemma DistinctNames(nodes: seq<Node>, id: string, n: Node)
    requires forall i, j | 0 <= i < j < |nodes| :: nodes[i].id != nodes[j].id
    ensures Named(nodes, id, n) <==> n in nodes && n.id == id
  {
  }

  /** The error names the types of the two nodes and of the edge. */
  ghost predicate Misfit(nodes: seq<Node>, e: Edge, r: Verdict)
    requires r.InvalidRelationship?
  {
    r.edgeType == e.kind
    && exists m, n | Named(nodes, e.from, m) && Named(nodes, e.to, n) :: r.fromType == m.kind && r.toType == n.kind
  }

  lemma EdgeVerdictMeans(nodes: seq<Node>, e: Edge, rules: seq<Rule>)
    ensures var r := EdgeVerdict(NodeById(nodes), e, rules);
            && (r.Accepted? <==> InPlan(nodes, e) && Typed(nodes, e, rules))
            && (r == CrossPlanVersion <==> !InPlan(nodes, e))
            && (r.InvalidRelationship? <==> InPlan(nodes, e) && !Typed(nodes, e, rules))
            && (r.InvalidRelationship? ==> Misfit(nodes, e, r))
  {
    var byId := NodeById(nodes);
    forall m ensures Named(nodes, e.from, m) <==> e.from in byId && byId[e.from] == m {
      NodeByIdNames(nodes, e.from, m);
    }
    forall n ensures Named(nodes, e.to, n) <==> e.to in byId && byId[e.to] == n {
      NodeByIdNames(nodes, e.to, n);
    }
  }

  lemma LeadsById(nodes: seq<Node>, e: Edge, kind: NodeType)
    ensures Leads(nodes, e, kind) <==> e.to in NodeById(nodes) && NodeById(nodes)[e.to].kind == kind
  {
    if e.to in NodeById(nodes) {
      NodeByIdNames(nodes, e.to, NodeById(nodes)[e.to]);
    }
    if m :| Named(nodes, e.to, m) && m.kind == kind {
      NodeByIdNames(nodes, e.to, m);
    }
  }

  lemma CountedGrows(nodes: seq<Node>, front: seq<Edge>, last: Edge, n: Node, rule: Rule)
    ensures |Counted(nodes, front + [last], n, rule)|
            == |Counted(nodes, front, n, rule)|
               + if last.from == n.id && last.kind == rule.edgeType && Leads(nodes, last, rule.toType) then 1 else 0
  {
    var more := last.from == n.id && last.kind == rule.edgeType && Leads(nodes, last, rule.toType);
    assert Counted(nodes, front + [last], n, rule) == Counted(nodes, front, n, rule) + if more then {|front|} else {};
  }

  lemma {:induction false} CountEdgesCounts(nodes: seq<Node>, edges: seq<Edge>, n: Node, rule: Rule)
    ensures CountEdges(NodeById(nodes), edges, n, rule) == |Counted(nodes, edges, n, rule)|
  {
    if edges != [] {
      var front, last := edges[..|edges| - 1], edges[|edges| - 1];
      CountEdgesCounts(nodes, front, n, rule);
      LeadsById(nodes, last, rule.toType);
      CountedGrows(nodes, front, last, n, rule);
      assert edges == front + [last];
    }
  }

  method ValidateEdges(byId: map<string, Node>, edges: seq<Edge>, rules: seq<Rule>, ghost nodes: seq<Node>) returns (r: Verdict)
    requires byId == NodeById(nodes)
    ensures r.Accepted? <==> EdgesFine(nodes, edges, rules)
    ensures !r.Accepted? ==>
              exists k | 0 <= k < |edges| && EdgesFine(nodes, edges[..k], rules) ::
                if !InPlan(nodes, edges[k]) then r == CrossPlanVersion
                else !Typed(nodes, edges[k], rules) && r.InvalidRelationship? && Misfit(nodes, edges[k], r)
  {
    var i := 0;
    while i < |edges|
      invariant 0 <= i <= |edges|
      invariant EdgesFine(nodes, edges[..i], rules)
    {
      EdgeVerdictMeans(nodes, edges[i], rules);
      r := EdgeVerdict(byId, edges[i], rules);
      if !r.Accepted? { return; }
      assert edges[..i + 1] == edges[..i] + [edges[i]];
      i := i + 1;
    }
    assert edges[..|edges|] == edges;
    r := Accepted;
  }

  method CountFor(byId: map<string, Node>, edges: seq<Edge>, n: Node, rule: Rule, ghost nodes: seq<Node>) returns (count: nat)
    requires byId == NodeById(nodes)
    ensures count == |Counted(nodes, edges, n, rule)|
  {
    count := 0;
    var k := 0;
    while k < |edges|
      invariant 0 <= k <= |edges|
      invariant count == CountEdges(byId, edges[..k], n, rule)
    {
      assert edges[..k + 1][..k] == edges[..k];
      if Counts(byId, edges[k], n, rule) { count := count + 1; }
      k := k + 1;
    }
    assert edges[..|edges|] == edges;
    CountEdgesCounts(nodes, edges, n, rule);
  }

  /** The first of the rules for the node that its edges break, if any. */
  method CheckCardinality(byId: map<string, Node>, edges: seq<Edge>, n: Node, rules: seq<Rule>, ghost nodes: seq<Node>)
    returns (r: Verdict)
    requires byId == NodeById(nodes)
    ensures r.Accepted? || r.CardinalityViolated?
    ensures r.Accepted? <==> RulesKept(nodes, edges, n, rules)
    ensures r.CardinalityViolated? ==> FirstBroken(nodes, edges, n, rules, r)
  {
    var i := 0;
    while i < |rules|
      invariant 0 <= i <= |rules|
      invariant RulesKept(nodes, edges, n, rules[..i])
    {
      if rules[i].fromType == n.kind {
        var count := CountFor(byId, edges, n, rules[i], nodes);
        if !InRange(rules[i], count) {
          assert !CountAllowed(nodes, edges, n, rules[i]);
          return CardinalityViolated(rules[i], count);
        }
      }
      assert rules[..i + 1] == rules[..i] + [rules[i]];
      i := i + 1;
    }
    assert rules[..|rules|] == rules;
    r := Accepted;
  }

  ghost predicate RulesKept(nodes: seq<Node>, edges: seq<Edge>, n: Node, rules: seq<Rule>) {
    forall rule | rule in rules && rule.fromType == n.kind :: CountAllowed(nodes, edges, n, rule)
  }

  ghost predicate FirstBroken(nodes: seq<Node>, edges: seq<Edge>, n: Node, rules: seq<Rule>, r: Verdict)
    requires r.CardinalityViolated?
  {
    && r.count == |Counted(nodes, edges, n, r.rule)| && r.rule.fromType == n.kind && !CountAllowed(nodes, edges, n, r.rule)
    && exists k | 0 <= k < |rules| && rules[k] == r.rule :: RulesKept(nodes, edges, n, rules[..k])
  }

  /** Edge checks first, then acyclicity, then cardinality; the first failure is reported. */
  method ValidateGraph(nodes: seq<Node>, edges: seq<Edge>, rules: seq<Rule>) returns (r: Verdict)
    ensures r.Accepted? <==> EdgesFine(nodes, edges, rules) && !HasCycle(Links(edges))
                             && CountsFine(nodes, edges, rules)
    ensures r.CrossPlanVersion? || r.InvalidRelationship? <==> !EdgesFine(nodes, edges, rules)
    ensures !EdgesFine(nodes, edges, rules) ==>
              exists k | 0 <= k < |edges| && EdgesFine(nodes, edges[..k], rules) ::
                if !InPlan(nodes, edges[k]) then r == CrossPlanVersion
                else !Typed(nodes, edges[k], rules) && r.InvalidRelationship? && Misfit(nodes, edges[k], r)
    ensures r.StrategyCycle? <==> EdgesFine(nodes, edges, rules) && HasCycle(Links(edges))
    ensures r.CardinalityViolated? ==>
              exists i | 0 <= i < |nodes| && FirstBroken(nodes, edges, nodes[i], rules, r) ::
                forall j | 0 <= j < i :: RulesKept(nodes, edges, nodes[j], rules)
  {
    var byId := NodeById(nodes);
    r := ValidateEdges(byId, edges, rules, nodes);
    if !r.Accepted? { return; }
    var cyclic := HasDirectedCycle(Links(edges));
    if cyclic { return StrategyCycle; }
    var i := 0;
    while i < |nodes|
      invariant 0 <= i <= |nodes|
      invariant forall j | 0 <= j < i :: RulesKept(nodes, edges, nodes[j], rules)
    {
      r := CheckCardinality(byId, edges, nodes[i], rules, nodes);
      if !r.Accepted? { return; }
      i := i + 1;
    }
    r := Accepted;
  }

  // ---------------------------------------------------------------------------
  // What the edge checks already force
  // ---------------------------------------------------------------------------

  function TypeName(t: NodeType): (r: string)
    ensures |r| == 1
  {
    match t
    case CorporateStrategy => "c"
    case Theme => "t"
    case Objective => "o"
    case StrategicPlay => "s"
    case Portfolio => "p"
    case AreaOfFocus => "a"
  }

  /** The rules themselves read as links between node types. */
  function TypeLinks(rules: seq<Rule>): (r: seq<Link>)
    ensures |r| == |rules|
    ensures forall i | 0 <= i < |rules| :: r[i] == Link(TypeName(rules[i].fromType), TypeName(rules[i].toType))
  {
    seq(|rules|, i requires 0 <= i < |rules| => Link(TypeName(rules[i].fromType), TypeName(rules[i].toType)))
  }

  function TypeOf(name: string): NodeType {
    if name == "c" then CorporateStrategy else if name == "t" then Theme
    else if name == "o" then Objective else if name == "s" then StrategicPlay
    else if name == "p" then Portfolio else AreaOfFocus
  }

  /** The witness graph: one node per type, one edge per rule. */
  function OneNodePerType(): seq<Node> {
    [Node("c", CorporateStrategy, "v"), Node("t", Theme, "v"), Node("o", Objective, "v"),
     Node("s", StrategicPlay, "v"), Node("p", Portfolio, "v"), Node("a", AreaOfFocus, "v")]
  }

  function OneEdgePerRule(rules: seq<Rule>): (r: seq<Edge>)
    ensures |r| == |rules|
    ensures forall i | 0 <= i < |rules| ::
              r[i] == Edge(TypeName(rules[i].fromType), TypeName(rules[i].toType), rules[i].edgeType, "v")
  {
    seq(|rules|, i requires 0 <= i < |rules| =>
      Edge(TypeName(rules[i].fromType), TypeName(rules[i].toType), rules[i].edgeType, "v"))
  }

  lemma OneNodePerTypeById()
    ensures forall t: NodeType :: TypeName(t) in NodeById(OneNodePerType())
              && NodeById(OneNodePerType())[TypeName(t)] == Node(TypeName(t), t, "v")
  {
    var n := OneNodePerType();
    assert n[..5][..4] == n[..4] && n[..4][..3] == n[..3] && n[..3][..2] == n[..2] && n[..2][..1] == n[..1];
    assert NodeById(n[..1]) == map["c" := n[0]];
    assert NodeById(n[..2]) == NodeById(n[..1])["t" := n[1]];
    assert NodeById(n[..3]) == NodeById(n[..2])["o" := n[2]];
    assert NodeById(n[..4]) == NodeById(n[..3])["s" := n[3]];
    assert NodeById(n[..5]) == NodeById(n[..4])["p" := n[4]];
  }

  lemma FineEdgeById(nodes: seq<Node>, e: Edge, rules: seq<Rule>) returns (j: nat)
    requires InPlan(nodes, e) && Typed(nodes, e, rules)
    ensures e.from in NodeById(nodes) && e.to in NodeById(nodes)
    ensures j < |rules| && Matches(rules[j], NodeById(nodes)[e.from].kind, NodeById(nodes)[e.to].kind, e.kind)
  {
    EdgeVerdictMeans(nodes, e, rules);
    var rule :| rule in rules && Matches(rule, NodeById(nodes)[e.from].kind, NodeById(nodes)[e.to].kind, e.kind);
    j :| 0 <= j < |rules| && rules[j] == rule;
  }

  /** Each link of a well-typed graph projects onto a link of the rule types. */
  lemma TypedLinkProjects(nodes: seq<Node>, edges: seq<Edge>, rules: seq<Rule>, l: Link)
    requires EdgesFine(nodes, edges, rules) && l in Links(edges)
    ensures l.from in NodeById(nodes) && l.to in NodeById(nodes)
    ensures Link(TypeName(NodeById(nodes)[l.from].kind), TypeName(NodeById(nodes)[l.to].kind)) in TypeLinks(rules)
  {
    var byId := NodeById(nodes);
    var k :| 0 <= k < |edges| && Links(edges)[k] == l;
    var j := FineEdgeById(nodes, edges[k], rules);
    assert TypeLinks(rules)[j] == Link(TypeName(byId[l.from].kind), TypeName(byId[l.to].kind));
  }

  /** Every cycle of a well-typed graph projects onto a cycle of the rule types. */
  lemma TypedCycleProjects(nodes: seq<Node>, edges: seq<Edge>, rules: seq<Rule>, p: seq<string>)
    requires EdgesFine(nodes, edges, rules) && IsCycle(Links(edges), p)
    ensures HasCycle(TypeLinks(rules))
  {
    var byId := NodeById(nodes);
    forall l | l in Links(edges)
      ensures l.from in byId && l.to in byId
      ensures Link(TypeName(byId[l.from].kind), TypeName(byId[l.to].kind)) in TypeLinks(rules)
    {
      TypedLinkProjects(nodes, edges, rules, l);
    }
    forall i | 0 <= i < |p| ensures p[i] in byId {
      assert Link(p[if i == 0 then 0 else i - 1], p[if i == 0 then 1 else i]) in Links(edges) by {
        if i != 0 { assert Link(p[i - 1], p[i - 1 + 1]) in Links(edges); }
      }
    }
    var q := seq(|p|, i requires 0 <= i < |p| && p[i] in byId => TypeName(byId[p[i]].kind));
    assert IsCycle(TypeLinks(rules), q) by {
      forall i | 0 <= i < |q| - 1 ensures Link(q[i], q[i + 1]) in TypeLinks(rules) {
        assert Link(p[i], p[i + 1]) in Links(edges);
      }
    }
  }

  lemma WitnessIsFine(rules: seq<Rule>)
    ensures EdgesFine(OneNodePerType(), OneEdgePerRule(rules), rules)
  {
    forall e | e in OneEdgePerRule(rules) ensures InPlan(OneNodePerType(), e) && Typed(OneNodePerType(), e, rules) {
      var k :| 0 <= k < |rules| && OneEdgePerRule(rules)[k] == e;
      WitnessEdgeIsFine(rules, rules[k], e);
    }
  }

  lemma WitnessEdgeIsFine(rules: seq<Rule>, rule: Rule, e: Edge)
    requires rule in rules && e == Edge(TypeName(rule.fromType), TypeName(rule.toType), rule.edgeType, "v")
    ensures InPlan(OneNodePerType(), e) && Typed(OneNodePerType(), e, rules)
  {
    OneNodePerTypeById();
    var m, n := Node(TypeName(rule.fromType), rule.fromType, "v"), Node(TypeName(rule.toType), rule.toType, "v");
    NodeByIdNames(OneNodePerType(), e.from, m);
    NodeByIdNames(OneNodePerType(), e.to, n);
  }

  /** The edge checks alone keep every graph acyclic exactly when the rules, read as
      links between node types, are themselves acyclic. */
  lemma EdgeChecksForceAcyclicIff(rules: seq<Rule>)
    ensures (forall nodes, edges | EdgesFine(nodes, edges, rules) :: !HasCycle(Links(edges)))
            <==> !HasCycle(TypeLinks(rules))
  {
    if HasCycle(TypeLinks(rules)) {
      var nodes, edges := OneNodePerType(), OneEdgePerRule(rules);
      WitnessIsFine(rules);
      assert Links(edges) == TypeLinks(rules);
      assert EdgesFine(nodes, edges, rules) && HasCycle(Links(edges));
    } else {
      forall nodes, edges | EdgesFine(nodes, edges, rules) ensures !HasCycle(Links(edges)) {
        if p :| IsCycle(Links(edges), p) {
          TypedCycleProjects(nodes, edges, rules, p);
        }
      }
    }
  }

  function Rank(t: NodeType): nat {
    match t
    case CorporateStrategy => 0
    case Theme => 1
    case Objective => 2
    case StrategicPlay => 3
    case Portfolio => 4
    case AreaOfFocus => 4
  }

  lemma {:induction false} RankRisesAlongWalk(p: seq<string>, k: nat)
    requires IsWalk(TypeLinks(DEFAULT_RULES), p) && k < |p|
    ensures 0 < k ==> Rank(TypeOf(p[0])) < Rank(TypeOf(p[k]))
  {
    if 0 < k {
      RankRisesAlongWalk(p, k - 1);
      assert Link(p[k - 1], p[k - 1 + 1]) in TypeLinks(DEFAULT_RULES);
    }
  }

  /** Under the default rules no graph that passes the edge checks has a cycle. */
  lemma DefaultRulesForceAcyclic(nodes: seq<Node>, edges: seq<Edge>)
    requires EdgesFine(nodes, edges, DEFAULT_RULES)
    ensures !HasCycle(Links(edges))
  {
    forall p | IsWalk(TypeLinks(DEFAULT_RULES), p) && 2 <= |p| ensures p[0] != p[|p| - 1] {
      RankRisesAlongWalk(p, |p| - 1);
    }
    EdgeChecksForceAcyclicIff(DEFAULT_RULES);
  }

  /** A listed node whose rule demands at least one successor has one, and it is listed. */
  lemma MandatoryStep(nodes: seq<Node>, edges: seq<Edge>, n: Node, rule: Rule) returns (next: Node)
    requires CountsFine(nodes, edges, DEFAULT_RULES) && n in nodes
    requires rule in DEFAULT_RULES && rule.fromType == n.kind && 1 <= rule.minCount
    ensures next in nodes && next.kind == rule.toType && Link(n.id, next.id) in Links(edges)
  {
    assert CountAllowed(nodes, edges, n, rule);
    var k :| k in Counted(nodes, edges, n, rule);
    next :| Named(nodes, edges[k].to, next) && next.kind == rule.toType;
    assert Links(edges)[k] == Link(n.id, next.id);
  }

  lemma DefaultStep(nodes: seq<Node>, edges: seq<Edge>, n: Node, k: nat) returns (next: Node)
    requires CountsFine(nodes, edges, DEFAULT_RULES) && n in nodes
    requires k < 3 && DEFAULT_RULES[k].fromType == n.kind
    ensures next in nodes && next.kind == DEFAULT_RULES[k].toType && Link(n.id, next.id) in Links(edges)
  {
    assert DEFAULT_RULES[k] in DEFAULT_RULES && DEFAULT_RULES[k].minCount == 1;
    next := MandatoryStep(nodes, edges, n, DEFAULT_RULES[k]);
  }

  lemma ThreeLinks(links: seq<Link>, a: string, b: string, c: string, d: string)
    requires Link(a, b) in links && Link(b, c) in links && Link(c, d) in links
    ensures IsWalk(links, [a, b, c, d])
  {
  }

  /** In a graph that validates under the default rules every corporate strategy is
      carried out: a walk of three links leads from it to some strategic play. */
  lemma CorporateStrategyReachesPlay(nodes: seq<Node>, edges: seq<Edge>, n: Node)
    requires CountsFine(nodes, edges, DEFAULT_RULES)
    requires n in nodes && n.kind == CorporateStrategy
    ensures exists p, play | IsWalk(Links(edges), p) && play in nodes ::
              |p| == 4 && p[0] == n.id && p[3] == play.id && play.kind == StrategicPlay
  {
    var theme := DefaultStep(nodes, edges, n, 0);
    var objective := DefaultStep(nodes, edges, theme, 1);
    var play := DefaultStep(nodes, edges, objective, 2);
    ThreeLinks(Links(edges), n.id, theme.id, objective.id, play.id);
  }
}
