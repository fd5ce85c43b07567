/** Detection of cycles among environment variable references: a three-colour depth-first search. */
module EnvCycle {
  import opened Prelude

  /** Outgoing edges by service; a service without any has no entry. */
  type Graph = map<string, seq<string>>

  predicate Edge(g: Graph, a: string, b: string) {
    a in g && b in g[a]
  }

  function Successors(g: Graph, a: string): seq<string> {
    if a in g then g[a] else []
  }

  ghost function Nodes(g: Graph): set<string> {
    g.Keys + set a, b | a in g && b in g[a] :: b
  }

  ghost predicate IsPath(g: Graph, p: seq<string>) {
    forall i | 0 <= i < |p| - 1 :: Edge(g, p[i], p[i + 1])
  }

  ghost predicate Distinct(p: seq<string>) {
    forall i, j | 0 <= i < j < |p| :: p[i] != p[j]
  }

  /** A walk that ends where it starts. */
  ghost predicate ClosedWalk(g: Graph, c: seq<string>) {
    |c| >= 2 && c[0] == c[|c| - 1] && IsPath(g, c)
  }

  ghost predicate IsCycle(g: Graph, c: seq<string>) {
    ClosedWalk(g, c) && Distinct(c[..|c| - 1])
  }

  ghost predicate Acyclic(g: Graph) {
    forall c :: !ClosedWalk(g, c)
  }

  /** Every edge out of an element leads to an earlier one. */
  ghost predicate FinishOrder(g: Graph, order: seq<string>) {
    && Distinct(order)
    && forall i, b | 0 <= i < |order| && Edge(g, order[i], b) :: b in order[..i]
  }

  /** The position of a node in a finish order. */
  function Rank(order: seq<string>, node: string): (r: nat)
    requires node in order
    ensures r < |order| && order[r] == node
  {
    if order[0] == node then 0 else 1 + Rank(order[1..], node)
  }

  /** The rank strictly decreases along every edge. */
  lemma RankDecreases(g: Graph, order: seq<string>, a: string, b: string)
    requires FinishOrder(g, order) && a in order && Edge(g, a, b)
    ensures b in order && Rank(order, b) < Rank(order, a)
  {
    var i := Rank(order, a);
    assert b in order[..i];
    var j :| 0 <= j < i && order[j] == b;
  }

  /** Along a path every step loses at least one rank. */
  lemma {:induction false} RankAlongPath(g: Graph, order: seq<string>, p: seq<string>, k: nat)
    requires FinishOrder(g, order) && IsPath(g, p) && k < |p| && p[0] in order
    ensures p[k] in order && Rank(order, p[k]) + k <= Rank(order, p[0])
  {
    if k > 0 {
      RankAlongPath(g, order, p, k - 1);
      RankDecreases(g, order, p[k - 1], p[k]);
    }
  }

  lemma FinishOrderAcyclic(g: Graph, order: seq<string>)
    requires FinishOrder(g, order) && forall a | a in g :: a in order
    ensures Acyclic(g)
  {
    forall c
      ensures !ClosedWalk(g, c)
    {
      if |c| >= 2 && IsPath(g, c) {
        assert Edge(g, c[0], c[1]);
        RankAlongPath(g, order, c, |c| - 1);
      }
    }
  }

  // ---------- counting edges ----------

  /** The number of edges leaving the nodes of `s`. */
  ghost function EdgeCount(g: Graph, s: set<string>): nat {
    if s == {} then 0
    else var a :| a in s; |Successors(g, a)| + EdgeCount(g, s - {a})
  }

  lemma {:induction false} EdgeCountRemove(g: Graph, s: set<string>, a: string)
    requires a in s
    ensures EdgeCount(g, s) == |Successors(g, a)| + EdgeCount(g, s - {a})
    decreases |s|
  {
    var b :| b in s && EdgeCount(g, s) == |Successors(g, b)| + EdgeCount(g, s - {b});
    if a != b {
      EdgeCountRemove(g, s - {b}, a);
      EdgeCountRemove(g, s - {a}, b);
      assert s - {a} - {b} == s - {b} - {a};
    }
  }


  // ---------- the search ----------

  datatype Mark = Visiting | Done

  /** `iter().position(...)`. */
  function Position(s: seq<string>, x: string): (r: Option<nat>)
    ensures r.Some? <==> x in s
    ensures r.Some? ==> r.value < |s| && s[r.value] == x
  {
    if s == [] then None
    else if s[0] == x then Some(0)
    else
      match Position(s[1..], x)
      case None => None
      case Some(i) => Some(i + 1)
  }

  /** The visiting nodes are the stack, a path; the finished ones are in finish order. */
  ghost predicate Consistent(g: Graph, states: map<string, Mark>, stack: seq<string>, finished: seq<string>) {
    && states.Keys <= Nodes(g)
    && (forall n :: n in stack <==> n in states && states[n] == Visiting)
    && (forall n :: n in finished <==> n in states && states[n] == Done)
    && Distinct(stack)
    && IsPath(g, stack)
    && FinishOrder(g, finished)
  }

  lemma PushKeeps(g: Graph, states: map<string, Mark>, stack: seq<string>, finished: seq<string>, node: string)
    requires Consistent(g, states, stack, finished)
    requires node in Nodes(g) && node !in states
    requires stack != [] ==> Edge(g, stack[|stack| - 1], node)
    ensures Consistent(g, states[node := Visiting], stack + [node], finished)
  {
  }

  /** Marking a node uses up the edges that leave it, once. */
  lemma Reaching(g: Graph, states: map<string, Mark>, node: string, mark: Mark)
    requires node in Nodes(g)
    ensures states[node := mark].Keys == states.Keys + {node}
    ensures EdgeCount(g, Nodes(g) - states.Keys) ==
            EdgeCount(g, Nodes(g) - states[node := mark].Keys) +
            if node in states then 0 else |Successors(g, node)|
  {
    var left := Nodes(g) - states.Keys;
    assert left - {node} == Nodes(g) - states[node := mark].Keys;
    if node in left {
      EdgeCountRemove(g, left, node);
    } else {
      assert left - {node} == left;
    }
  }

  lemma PopKeeps(g: Graph, states: map<string, Mark>, stack: seq<string>, finished: seq<string>, node: string)
    requires Consistent(g, states, stack + [node], finished)
    requires forall b | b in Successors(g, node) :: b in finished
    ensures Consistent(g, states[node := Done], stack, finished + [node])
  {
    var pushed := stack + [node];
    assert forall i | 0 <= i < |stack| :: pushed[i] == stack[i];
    assert pushed[|stack|] == node && node in pushed && node !in stack;
    assert forall n :: n in stack <==> n in pushed && n != node;
    assert IsPath(g, stack) by {
      forall i | 0 <= i < |stack| - 1
        ensures Edge(g, stack[i], stack[i + 1])
      {
        assert Edge(g, pushed[i], pushed[i + 1]);
      }
    }
    var done := finished + [node];
    forall i, b | 0 <= i < |done| && Edge(g, done[i], b)
      ensures b in done[..i]
    {
      if i < |finished| {
        assert b in finished[..i];
        assert done[..i] == finished[..i];
      } else {
        assert done[..i] == finished;
      }
    }
  }

  lemma EdgeTarget(g: Graph, a: string, i: nat)
    requires i < |Successors(g, a)|
    ensures Edge(g, a, Successors(g, a)[i]) && Successors(g, a)[i] in Nodes(g)
  {
    assert a in g;
  }

  class CycleSearch {
    const edges: Graph
    var states: map<string, Mark>
    var stack: seq<string>
    ghost var finished: seq<string>
    ghost var inspections: nat

    constructor (edges: Graph)
      ensures Valid() && this.edges == edges
      ensures states == map[] && stack == [] && finished == [] && inspections == 0
    {
      this.edges := edges;
      states, stack := map[], [];
      finished, inspections := [], 0;
    }

    ghost predicate Valid()
      reads this
    {
      Consistent(edges, states, stack, finished)
    }

    /** Edges inspected so far plus those of services not yet reached. */
    ghost function Work(): nat
      reads this
    {
      inspections + EdgeCount(edges, Nodes(edges) - states.Keys)
    }

    method Visit(node: string) returns (cycle: Option<seq<string>>)
      requires Valid()
      requires node in Nodes(edges)
      requires stack != [] ==> Edge(edges, stack[|stack| - 1], node)
      modifies this
      ensures old(states.Keys) <= states.Keys
      ensures Work() <= old(Work())
      ensures cycle.Some? ==> IsCycle(edges, cycle.value)
      ensures cycle.None? ==> Valid() && stack == old(stack) && node in finished
      ensures cycle.None? ==> forall n | n in old(finished) :: n in finished
      decreases Nodes(edges) - states.Keys, 0
    {
      if node in states {
        if states[node] == Done {
          return None;
        }
        assert Position(stack, node).Some?;  // so the default is never used
        var start := Position(stack, node).UnwrapOr(0);
        cycle := Some(stack[start..] + [node]);
        CloseCycle(edges, stack, node, start);
        return;
      }
      Push(node);
      cycle := VisitTargets(node, Successors(edges, node));
      if cycle.None? {
        Pop(node);
      }
    }

    method Push(node: string)
      requires Valid()
      requires node in Nodes(edges) && node !in states
      requires stack != [] ==> Edge(edges, stack[|stack| - 1], node)
      modifies this
      ensures Valid() && stack == old(stack) + [node] && finished == old(finished)
      ensures states == old(states)[node := Visiting]
      ensures Work() + |Successors(edges, node)| == old(Work())
    {
      PushKeeps(edges, states, stack, finished, node);
      Reaching(edges, states, node, Visiting);
      states := states[node := Visiting];
      stack := stack + [node];
    }

    method Pop(node: string)
      requires Valid()
      requires stack != [] && stack[|stack| - 1] == node
      requires forall b | b in Successors(edges, node) :: b in finished
      modifies this
      ensures Valid() && stack == old(stack)[..|old(stack)| - 1] && finished == old(finished) + [node]
      ensures states.Keys == old(states).Keys && Work() == old(Work())
    {
      ghost var below := stack[..|stack| - 1];
      assert stack == below + [node];
      PopKeeps(edges, states, below, finished, node);
      Reaching(edges, states, node, Done);
      assert node in stack;
      stack := stack[..|stack| - 1];
      states := states[node := Done];
      finished := finished + [node];
    }

    /** The loop over the edges of the service on top of the stack. */
    method VisitTargets(node: string, targets: seq<string>) returns (cycle: Option<seq<string>>)
      requires Valid()
      requires stack != [] && stack[|stack| - 1] == node && targets == Successors(edges, node)
      modifies this
      ensures old(states.Keys) <= states.Keys
      ensures Work() <= old(Work()) + |targets|
      ensures cycle.Some? ==> IsCycle(edges, cycle.value)
      ensures cycle.None? ==> Valid() && stack == old(stack)
      ensures cycle.None? ==> forall n | n in old(finished) || n in targets :: n in finished
      decreases Nodes(edges) - states.Keys, 1
    {
      for i := 0 to |targets|
        invariant Valid() && stack == old(stack)
        invariant old(states.Keys) <= states.Keys
        invariant forall n | n in old(finished) || n in targets[..i] :: n in finished
        invariant Work() <= old(Work()) + i
      {
        EdgeTarget(edges, node, i);
        inspections := inspections + 1;
        cycle := Visit(targets[i]);
        if cycle.Some? {
          return;
        }
        TakeOneMore(targets, i);
      }
      assert targets[..|targets|] == targets;
      return None;
    }

    /** Visit every service with outgoing edges, in any order. */
    method FindCycle() returns (cycle: Option<seq<string>>)
      requires states == map[] && stack == [] && finished == [] && inspections == 0
      modifies this
      ensures cycle.Some? ==> IsCycle(edges, cycle.value)
      ensures cycle.None? ==> FinishOrder(edges, finished) && forall a | a in edges :: a in finished
      ensures cycle.None? <==> Acyclic(edges)
      ensures inspections <= EdgeCount(edges, edges.Keys)
    {
      InitialWork(edges);
      assert Nodes(edges) - states.Keys == Nodes(edges);
      var roots := edges.Keys;
      while roots != {}
        invariant Valid() && stack == [] && roots <= edges.Keys
        invariant forall a | a in edges && a !in roots :: a in finished
        invariant Work() <= EdgeCount(edges, edges.Keys)
      {
        var node :| node in roots;
        roots := roots - {node};
        cycle := Visit(node);
        if cycle.Some? {
          return;
        }
      }
      FinishOrderAcyclic(edges, finished);
      return None;
    }
  }

  lemma {:induction false} InitialWork(g: Graph)
    ensures EdgeCount(g, Nodes(g)) == EdgeCount(g, g.Keys)
  {
    EdgeCountSplit(g, Nodes(g));
    assert Nodes(g) * g.Keys == g.Keys;
  }

  lemma {:induction false} EdgeCountSplit(g: Graph, s: set<string>)
    ensures EdgeCount(g, s) == EdgeCount(g, s * g.Keys)
    decreases |s|
  {
    if s != {} {
      var a :| a in s;
      EdgeCountRemove(g, s, a);
      EdgeCountSplit(g, s - {a});
      if a in g {
        EdgeCountRemove(g, s * g.Keys, a);
        assert s * g.Keys - {a} == (s - {a}) * g.Keys;
      } else {
        assert s * g.Keys == (s - {a}) * g.Keys;
      }
    }
  }

  lemma CloseCycle(g: Graph, stack: seq<string>, node: string, start: nat)
    requires IsPath(g, stack) && Distinct(stack)
    requires start < |stack| && stack[start] == node && Edge(g, stack[|stack| - 1], node)
    ensures IsCycle(g, stack[start..] + [node])
  {
    var c := stack[start..] + [node];
    assert c[..|c| - 1] == stack[start..];
  }
}
