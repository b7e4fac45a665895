/** What one `tell` does, place by place in the list of connections. */
module EnginePlans {
  import opened Messages
  import opened Engine
  import opened EngineSafety

  /** The places are in order, and are exactly those of the routes with this relation. */
  ghost predicate Selects(routes: seq<Route>, relation: string, places: seq<nat>)
  {
    && (forall k :: 0 <= k < |places| ==> places[k] < |routes| && routes[places[k]].relation == relation)
    && (forall j, k :: 0 <= j < k < |places| ==> places[j] < places[k])
    && (forall i :: 0 <= i < |routes| && routes[i].relation == relation ==> i in places)
  }

  lemma {:induction false} TargetsAppend(routes: seq<Route>, last: Route, relation: string)
    ensures Targets(routes + [last], relation) ==
            Targets(routes, relation) + if last.relation == relation then [last.target] else []
  {
    if routes == [] {
      assert routes + [last] == [last] && [last][1..] == [];
    } else {
      TargetsAppend(routes[1..], last, relation);
      assert (routes + [last])[1..] == routes[1..] + [last];
    }
  }

  /** The targets of a relation are those of its routes, all of them, in definition order. */
  lemma {:induction false} TargetsExact(routes: seq<Route>, relation: string) returns (places: seq<nat>)
    ensures Selects(routes, relation, places) && |Targets(routes, relation)| == |places|
    ensures forall k :: 0 <= k < |places| ==> Targets(routes, relation)[k] == routes[places[k]].target
  {
    if routes == [] {
      places := [];
    } else {
      var n := |routes| - 1;
      var before := TargetsExact(routes[..n], relation);
      places := before + if routes[n].relation == relation then [n] else [];
      TargetsAppend(routes[..n], routes[n], relation);
      assert routes == routes[..n] + [routes[n]];
      SelectsNext(routes, n, relation, before);
    }
  }

  lemma SelectsNext(routes: seq<Route>, n: nat, relation: string, before: seq<nat>)
    requires |routes| == n + 1 && Selects(routes[..n], relation, before)
    ensures Selects(routes, relation, before + if routes[n].relation == relation then [n] else [])
  {
    forall i | 0 <= i < |routes| && routes[i].relation == relation
      ensures i in before + if routes[n].relation == relation then [n] else []
    {
      if i < n {
        assert routes[..n][i] == routes[i] && i in before;
      }
    }
  }

  /** Telling one relation submits the target of each of its routes, in order, or ends the branch if it has none. */
  lemma PlanExact(sys: System, self: NodeRef, relation: string) returns (places: seq<nat>)
    ensures Selects(sys.routes(self), relation, places)
    ensures var plan := Plan(sys, self, Given([relation]));
            if places == [] then plan == [Finish(relation)]
            else |plan| == |places| && forall k :: 0 <= k < |plan| ==>
                   plan[k] == Spawn(sys.routes(self)[places[k]].target, relation)
  {
    places := TargetsExact(sys.routes(self), relation);
    var targets := Targets(sys.routes(self), relation);
    SpawnAllIndex(targets, relation);
    assert [relation][1..] == [];
    assert PlanEach(sys, self, [relation]) == PlanOne(sys, self, relation) + PlanEach(sys, self, []);
  }

  /** Several relations are told one after the other; no relation at all ends the branch without one. */
  lemma {:induction false} PlansInOrder(sys: System, self: NodeRef, a: seq<string>, b: seq<string>)
    ensures Plan(sys, self, Given(a + b)) == Plan(sys, self, Given(a)) + Plan(sys, self, Given(b))
    ensures Plan(sys, self, Given([])) == [] && Plan(sys, self, NoRelation) == [Finish("")]
  {
    if a == [] {
      assert a + b == b;
    } else {
      PlansInOrder(sys, self, a[1..], b);
      assert (a + b)[0] == a[0] && (a + b)[1..] == a[1..] + b;
    }
  }
}
