/**
 * The node set of the Monte-Carlo planner (monte-carlo-planning/node.go): a
 * map from node name to node, and the check that every prerequisite named by
 * a node of the set is itself in the set.
 *
 * Nodes are never changed once built, so a node is a value; the set is an
 * object whose map its constructor fills.
 */
module MctsNode {

  /** `Node`: a name, a description, a cost and the names of its prerequisites. */
  datatype PlanNode = PlanNode(name: string, desc: string, duration: int, preqs: seq<string>)

  /** The names of `nodes`. */
  function Names(nodes: seq<PlanNode>): set<string>
  {
    set i | 0 <= i < |nodes| :: nodes[i].name
  }

  /** Node `i` is the last of `nodes` with its name. */
  predicate LastOfName(nodes: seq<PlanNode>, i: int)
  {
    0 <= i < |nodes| && forall j :: i < j < |nodes| ==> nodes[j].name != nodes[i].name
  }

  /** The map `NewNodeSet` builds: each node under its name, a later node replacing an earlier one. */
  function Keyed(nodes: seq<PlanNode>): map<string, PlanNode>
  {
    if nodes == [] then map[]
    else Keyed(nodes[..|nodes| - 1])[nodes[|nodes| - 1].name := nodes[|nodes| - 1]]
  }

  /** The keys are exactly the names of the nodes. */
  lemma {:induction false} KeyedNames(nodes: seq<PlanNode>)
    ensures Keyed(nodes).Keys == Names(nodes)
  {
    if nodes != [] {
      var init := nodes[..|nodes| - 1];
      KeyedNames(init);
      assert Names(nodes) == Names(init) + {nodes[|nodes| - 1].name} by {
        forall n | n in Names(nodes) ensures n in Names(init) + {nodes[|nodes| - 1].name} {
          var i :| 0 <= i < |nodes| && nodes[i].name == n;
          if i < |nodes| - 1 {
            assert init[i] == nodes[i];
          }
        }
        forall n | n in Names(init) ensures n in Names(nodes) {
          var i :| 0 <= i < |init| && init[i].name == n;
          assert nodes[i] == init[i];
        }
      }
    }
  }

  /** Each name maps to the last node that has it: later duplicates replace earlier ones. */
  lemma {:induction false} KeyedLast(nodes: seq<PlanNode>, i: int)
    requires LastOfName(nodes, i)
    ensures nodes[i].name in Keyed(nodes) && Keyed(nodes)[nodes[i].name] == nodes[i]
  {
    if i < |nodes| - 1 {
      var init := nodes[..|nodes| - 1];
      assert init[i] == nodes[i];
      assert LastOfName(init, i) by {
        forall j | i < j < |init| ensures init[j].name != init[i].name {
          assert init[j] == nodes[j];
        }
      }
      KeyedLast(init, i);
    }
  }

  /** Every name in `nodes` has a last node with that name. */
  lemma LastExists(nodes: seq<PlanNode>, n: string) returns (i: int)
    requires n in Names(nodes)
    ensures LastOfName(nodes, i) && nodes[i].name == n
  {
    var k :| 0 <= k < |nodes| && nodes[k].name == n;
    i := |nodes| - 1;
    while nodes[i].name != n
      invariant k <= i < |nodes|
      invariant forall j :: i < j < |nodes| ==> nodes[j].name != n
      decreases i
    {
      i := i - 1;
    }
  }

  /** Every prerequisite of every node of `m` is a key of `m`. */
  predicate Satisfied(m: map<string, PlanNode>)
  {
    forall k, p :: k in m && p in m[k].preqs ==> p in m
  }

  class NodeSet {
    var nodes: map<string, PlanNode>

    /** `NewNodeSet`: the nodes keyed by name, in the order given. */
    constructor (list: seq<PlanNode>)
      ensures nodes == Keyed(list)
    {
      var m := map[];
      for i := 0 to |list|
        invariant m == Keyed(list[..i])
      {
        assert list[..i + 1][..i] == list[..i];
        m := m[list[i].name := list[i]];
      }
      assert list[..|list|] == list;
      nodes := m;
    }

    /**
     * `Verify`: whether every prerequisite of every node is in the set. The
     * nodes are visited in an unspecified order, as Go iterates a map; the
     * set is left as it is.
     */
    method Verify() returns (ok: bool)
      ensures ok == Satisfied(nodes)
    {
      var todo := nodes.Keys;
      while todo != {}
        invariant todo <= nodes.Keys
        invariant forall k, p :: k in nodes && k !in todo && p in nodes[k].preqs ==> p in nodes
        decreases todo
      {
        var k :| k in todo;
        var preqs := nodes[k].preqs;
        for j := 0 to |preqs|
          invariant forall p :: p in preqs[..j] ==> p in nodes
        {
          if preqs[j] !in nodes {
            return false;
          }
        }
        assert preqs[..|preqs|] == preqs;
        todo := todo - {k};
      }
      return true;
    }
  }

  /**
   * The set built from `nodes` verifies exactly when, for each name, the
   * prerequisites of the last node with that name are all names in
   * `nodes`: nodes replaced by a later duplicate are not checked.
   */
  lemma KeyedSatisfied(nodes: seq<PlanNode>)
    ensures Satisfied(Keyed(nodes)) <==>
      forall i, p :: LastOfName(nodes, i) && p in nodes[i].preqs ==> p in Names(nodes)
  {
    KeyedNames(nodes);
    var m := Keyed(nodes);
    if Satisfied(m) {
      forall i, p | LastOfName(nodes, i) && p in nodes[i].preqs ensures p in Names(nodes) {
        KeyedLast(nodes, i);
      }
    }
    if forall i, p :: LastOfName(nodes, i) && p in nodes[i].preqs ==> p in Names(nodes) {
      forall k, p | k in m && p in m[k].preqs ensures p in m {
        var i := LastExists(nodes, k);
        KeyedLast(nodes, i);
      }
    }
  }

  /** No two of `nodes` share a name. */
  predicate DistinctNames(nodes: seq<PlanNode>)
  {
    forall i, j :: 0 <= i < j < |nodes| ==> nodes[i].name != nodes[j].name
  }

  /** Nodes with distinct names key the same map in any order, so verifying them ignores their order. */
  lemma KeyedAnyOrder(a: seq<PlanNode>, b: seq<PlanNode>)
    requires DistinctNames(a) && DistinctNames(b) && multiset(a) == multiset(b)
    ensures Keyed(a) == Keyed(b)
  {
    KeyedNames(a);
    KeyedNames(b);
    assert Names(a) == Names(b) by {
      forall n | n in Names(a) ensures n in Names(b) {
        var i :| 0 <= i < |a| && a[i].name == n;
        assert a[i] in multiset(b);
      }
      forall n | n in Names(b) ensures n in Names(a) {
        var i :| 0 <= i < |b| && b[i].name == n;
        assert b[i] in multiset(a);
      }
    }
    forall k | k in Keyed(a) ensures Keyed(a)[k] == Keyed(b)[k] {
      var i :| 0 <= i < |a| && a[i].name == k;
      assert a[i] in multiset(b);
      var j :| 0 <= j < |b| && b[j] == a[i];
      KeyedLast(a, i);
      KeyedLast(b, j);
    }
  }

  // ----- the examples of node_test.go -----

  const Prereq1 := PlanNode("prereq1", "this is a prereq node", 5, [])
  const Prereq2 := PlanNode("prereq2", "this is a prereq node", 6, [])
  const Test := PlanNode("test", "this is a test node", 10, ["prereq1", "prereq2"])

  /** A node listed before its prerequisites verifies just as when listed after them. */
  lemma ExampleOrders()
    ensures Satisfied(Keyed([Prereq1, Prereq2, Test]))
    ensures Satisfied(Keyed([Test, Prereq1, Prereq2]))
  {
    assert [Prereq1, Prereq2, Test][..2] == [Prereq1, Prereq2];
    assert [Prereq1, Prereq2][..1] == [Prereq1];
    assert Keyed([Prereq1]) == map["prereq1" := Prereq1];
    assert Keyed([Prereq1, Prereq2]) == map["prereq1" := Prereq1, "prereq2" := Prereq2];
    assert Keyed([Prereq1, Prereq2, Test]) == map["prereq1" := Prereq1, "prereq2" := Prereq2, "test" := Test];
    KeyedAnyOrder([Prereq1, Prereq2, Test], [Test, Prereq1, Prereq2]);
  }

  const Circle1 := PlanNode("circle1", "", 0, ["circle2"])
  const Circle2 := PlanNode("circle2", "", 0, ["circle1"])
  const MissingPre := PlanNode("missingPre", "", 0, ["nonexistent"])

  /** A missing prerequisite fails; a node that requires itself passes, as does the empty set. */
  lemma PrerequisiteExamples()
    ensures !Satisfied(Keyed([Circle1, Circle2, MissingPre]))
    ensures Satisfied(Keyed([PlanNode("selfRef", "", 0, ["selfRef"])]))
    ensures Satisfied(Keyed([]))
  {
    assert [Circle1, Circle2, MissingPre][..2] == [Circle1, Circle2];
    assert [Circle1, Circle2][..1] == [Circle1];
    assert Keyed([Circle1]) == map["circle1" := Circle1];
    assert Keyed([Circle1, Circle2]) == map["circle1" := Circle1, "circle2" := Circle2];
    var m := Keyed([Circle1, Circle2, MissingPre]);
    assert m == map["circle1" := Circle1, "circle2" := Circle2, "missingPre" := MissingPre];
    assert "nonexistent" in m["missingPre"].preqs && "nonexistent" !in m;
  }

  /** Of two nodes with one name, the set keeps one entry, the later node. */
  lemma DuplicateExample()
    ensures var m := Keyed([PlanNode("test", "Original", 10, []), PlanNode("test", "Duplicate", 5, [])]);
      |m| == 1 && m["test"].duration == 5
  {
    var m := Keyed([PlanNode("test", "Original", 10, []), PlanNode("test", "Duplicate", 5, [])]);
    assert m.Keys == {"test"};
  }
}
