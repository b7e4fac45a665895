/** The routes that a run follows are the ones a chain context finds. */
module ChainRoutes {
  import opened Messages
  import opened Engine
  import opened EnginePlans
  import opened ChainContexts

  /** The connections out of a node whose targets exist, as the step machine sees them. */
  function RoutesFrom(chain: string, connections: seq<Connection>, nodes: map<string, RuleNodeCtx>, id: string):
    seq<Route>
  {
    if connections == [] then [] else
    var n := |connections| - 1;
    var c := connections[n];
    RoutesFrom(chain, connections[..n], nodes, id) +
    (if c.fromId == id && c.toId in nodes then [Route(c.relation, NodeRef(chain, c.toId))] else [])
  }

  function RefsOf(chain: string, list: seq<RuleNodeCtx>): (r: seq<NodeRef>)
    ensures |r| == |list|
  {
    seq(|list|, i requires 0 <= i < |list| => NodeRef(chain, list[i].def.id))
  }

  /**
  In a chain whose nodes are stored under their own ids, the children that `tell` plans for are the nodes
  that a scan of the definition finds, in the same order.
  */
  lemma {:induction false} TargetsAreScanned(chain: string, connections: seq<Connection>,
                                             nodes: map<string, RuleNodeCtx>, id: string, relation: string)
    requires forall a :: a in nodes ==> nodes[a].def.id == a
    ensures Targets(RoutesFrom(chain, connections, nodes, id), relation) ==
            RefsOf(chain, Scan(connections, nodes, id, relation))
  {
    if connections == [] {
    } else {
      var n := |connections| - 1;
      var c := connections[n];
      TargetsAreScanned(chain, connections[..n], nodes, id, relation);
      if c.fromId == id && c.toId in nodes {
        var last := Route(c.relation, NodeRef(chain, c.toId));
        TargetsAppend(RoutesFrom(chain, connections[..n], nodes, id), last, relation);
      } else {
        assert RoutesFrom(chain, connections, nodes, id) == RoutesFrom(chain, connections[..n], nodes, id);
        assert Scan(connections, nodes, id, relation) == Scan(connections[..n], nodes, id, relation);
      }
    }
  }

  /** So a lookup through the cache and the index drives exactly the fan-out of the step machine. */
  method NextTargets(ctx: RuleChainCtx, chain: string, id: string, relation: string) returns (targets: seq<NodeRef>)
    requires ctx.Valid()
    modifies ctx`relationCache
    ensures ctx.Valid()
    ensures targets == Targets(RoutesFrom(chain, ctx.def.connections, ctx.nodes, id), relation)
  {
    var list, ok := ctx.GetNextNodes(id, relation);
    TargetsAreScanned(chain, ctx.def.connections, ctx.nodes, id, relation);
    targets := RefsOf(chain, list);
  }
}
