/**
Chain contexts as objects: the routing index and its cache, in-place reloads of chains and nodes, and
the life of the component instances they hold. Definitions, nodes and chain contexts are shared by
reference, as in the engine.
*/
module ChainContexts {
  import opened Messages

  /** What becomes of a node definition when its component is created. */
  datatype Loading = Loads | UnknownType | InitFails

  datatype NodeDsl = NodeDsl(id: string, kind: string, config: string, loading: Loading)
  datatype Connection = Connection(fromId: string, toId: string, relation: string)
  datatype ChainDsl = ChainDsl(nodes: seq<NodeDsl>, connections: seq<Connection>, first: nat)

  datatype Blueprint = Blueprint(kind: string, config: string)

  /** A component instance in use, and what its definition says. */
  datatype Instance = Instance(component: nat, says: Blueprint)

  /**
  How many instances loading a list of nodes makes, in order: one for each node up to the first that
  fails, and one more if that one fails only in its `Init`.
  */
  function Instantiated(dsl: seq<NodeDsl>): nat
  {
    if dsl == [] || dsl[0].loading == UnknownType then 0
    else if dsl[0].loading == InitFails then 1
    else 1 + Instantiated(dsl[1..])
  }

  /** The place of the first node that does not load. */
  function FirstFailing(dsl: seq<NodeDsl>): (m: nat)
    ensures m <= |dsl| && (forall i :: 0 <= i < m ==> dsl[i].loading == Loads)
    ensures m < |dsl| ==> dsl[m].loading != Loads
  {
    if dsl == [] || dsl[0].loading != Loads then 0 else 1 + FirstFailing(dsl[1..])
  }

  /**
  A load makes as many instances as nodes precede the first failing one, plus one if that one fails in
  `Init`. So a load that fails leaves something behind if and only if its very first node has a known type.
  */
  lemma {:induction false} LeftBehind(dsl: seq<NodeDsl>)
    ensures var m := FirstFailing(dsl);
            Instantiated(dsl) == m + if m < |dsl| && dsl[m].loading == InitFails then 1 else 0
    ensures Instantiated(dsl) > 0 <==> dsl != [] && dsl[0].loading != UnknownType
  {
    if dsl == [] || dsl[0].loading != Loads {
    } else {
      LeftBehind(dsl[1..]);
    }
  }

  /** After `k` nodes that load, the load goes on, ends with what one more node makes, or is over. */
  lemma MadeUpTo(dsl: seq<NodeDsl>, k: nat)
    requires k <= |dsl| && forall i :: 0 <= i < k ==> dsl[i].loading == Loads
    ensures k == |dsl| ==> Instantiated(dsl) == k
    ensures k < |dsl| && dsl[k].loading != Loads ==> Instantiated(dsl) == k + Instantiated([dsl[k]])
    ensures k < |dsl| && dsl[k].loading == Loads ==> Instantiated([dsl[k]]) == 1
  {
    LeftBehind(dsl);
    assert k < |dsl| ==> [dsl[k]][1..] == [];
  }

  /** Component instances, by number: what each was built from, and how often it was destroyed. */
  class Registry {
    var next: nat
    var built: map<nat, Blueprint>
    var destroyed: multiset<nat>

    constructor ()
      ensures Valid() && next == 0 && destroyed == multiset{}
    {
      next, built, destroyed := 0, map[], multiset{};
    }

    ghost predicate Valid()
      reads this
    {
      (forall c :: c in built <==> 0 <= c < next) && (forall c :: c in destroyed ==> c < next)
    }

    /** An unknown type makes no instance; a failing `Init` leaves one behind that nobody will hold. */
    method NewNode(dsl: NodeDsl) returns (component: Option<nat>)
      requires Valid()
      modifies this`next, this`built
      ensures Valid() && next == old(next) + Instantiated([dsl])
      ensures forall c :: c in old(built) ==> c in built && built[c] == old(built)[c]
      ensures component.Some? <==> dsl.loading == Loads
      ensures component.Some? ==> component.value == old(next) < next
      ensures component.Some? ==> built[component.value] == Blueprint(dsl.kind, dsl.config)
    {
      if dsl.loading == UnknownType {
        return None;
      }
      built := built[next := Blueprint(dsl.kind, dsl.config)];
      component := if dsl.loading == Loads then Some(next) else None;
      next := next + 1;
    }

    method Destroy(component: nat)
      requires Valid() && component < next
      modifies this`destroyed
      ensures Valid() && destroyed == old(destroyed) + multiset{component}
    {
      destroyed := destroyed + multiset{component};
    }
  }

  /** A node definition, shared between the chain definition and the node context. */
  class RuleNode {
    const id: string
    var kind: string
    var config: string

    constructor (id: string, kind: string, config: string)
      ensures this.id == id && this.kind == kind && this.config == config
    {
      this.id, this.kind, this.config := id, kind, config;
    }
  }

  class RuleNodeCtx {
    const def: RuleNode
    var component: nat

    constructor (def: RuleNode, component: nat)
      ensures this.def == def && this.component == component
    {
      this.def, this.component := def, component;
    }

    /** The instance in use, and what the definition says it should be. */
    ghost function Holding(): Instance
      reads this, def
    {
      Instance(component, Blueprint(def.kind, def.config))
    }

    /** Replaces the component and the contents of the definition; the id stays. */
    method ReloadSelf(reg: Registry, dsl: Option<NodeDsl>) returns (ok: bool)
      requires reg.Valid() && component < reg.next
      modifies this`component, def`kind, def`config, reg
      ensures reg.Valid() && reg.next == old(reg.next) + if dsl.Some? then Instantiated([dsl.value]) else 0
      ensures forall c :: c in old(reg.built) ==> c in reg.built && reg.built[c] == old(reg.built)[c]
      ensures ok <==> dsl.Some? && dsl.value.loading == Loads
      ensures ok ==>
                && Holding() == Instance(old(reg.next), Blueprint(dsl.value.kind, dsl.value.config))
                && Genuine(Holding(), reg.built)
                && reg.destroyed == old(reg.destroyed) + multiset{old(component)}
      ensures !ok ==>
                Holding() == old(Holding()) && reg.destroyed == old(reg.destroyed)
    {
      if dsl.None? {
        return false;
      }
      var created := reg.NewNode(dsl.value);
      if created.None? {
        return false;
      }
      reg.Destroy(component);
      component := created.value;
      def.kind, def.config := dsl.value.kind, dsl.value.config;
      return true;
    }
  }

  class RuleChain {
    const nodes: seq<RuleNode>
    const connections: seq<Connection>
    const first: nat

    constructor (nodes: seq<RuleNode>, connections: seq<Connection>, first: nat)
      ensures this.nodes == nodes && this.connections == connections && this.first == first
    {
      this.nodes, this.connections, this.first := nodes, connections, first;
    }
  }

  // ---------- a direct scan of the definition ----------

  /** The connections out of a node, in definition order. */
  function From(connections: seq<Connection>, id: string): seq<Connection>
  {
    if connections == [] then [] else
    From(connections[..|connections| - 1], id) +
    (if connections[|connections| - 1].fromId == id then [connections[|connections| - 1]] else [])
  }

  /** The nodes that the connections with this source and relation lead to, in definition order. */
  function Scan(connections: seq<Connection>, nodes: map<string, RuleNodeCtx>, id: string, relation: string):
    seq<RuleNodeCtx>
  {
    if connections == [] then [] else
    var c := connections[|connections| - 1];
    Scan(connections[..|connections| - 1], nodes, id, relation) +
    (if c.fromId == id && c.relation == relation && c.toId in nodes then [nodes[c.toId]] else [])
  }

  /** What the index holds for a node under one relation. */
  function Resolve(routes: seq<Connection>, nodes: map<string, RuleNodeCtx>, relation: string): seq<RuleNodeCtx>
  {
    if routes == [] then [] else
    var c := routes[|routes| - 1];
    Resolve(routes[..|routes| - 1], nodes, relation) +
    (if c.relation == relation && c.toId in nodes then [nodes[c.toId]] else [])
  }

  lemma {:induction false} ResolveAppend(routes: seq<Connection>, c: Connection,
                                         nodes: map<string, RuleNodeCtx>, relation: string)
    ensures Resolve(routes + [c], nodes, relation) ==
            Resolve(routes, nodes, relation) +
            (if c.relation == relation && c.toId in nodes then [nodes[c.toId]] else [])
  {
    assert (routes + [c])[..|routes|] == routes;
  }

  /** Looking through the index finds what a scan of the whole definition finds. */
  lemma {:induction false} IndexAgrees(connections: seq<Connection>, nodes: map<string, RuleNodeCtx>,
                                       id: string, relation: string)
    ensures Resolve(From(connections, id), nodes, relation) == Scan(connections, nodes, id, relation)
  {
    if connections == [] {
    } else {
      var n := |connections| - 1;
      IndexAgrees(connections[..n], nodes, id, relation);
      if connections[n].fromId == id {
        ResolveAppend(From(connections[..n], id), connections[n], nodes, relation);
      } else {
        assert From(connections, id) == From(connections[..n], id);
      }
    }
  }

  /** A connection that leads from the node, under the relation, to a node that exists. */
  predicate Leads(c: Connection, nodes: map<string, RuleNodeCtx>, id: string, relation: string)
  {
    c.fromId == id && c.relation == relation && c.toId in nodes
  }

  /** The places are in order, and are exactly those of the connections that lead on. */
  ghost predicate Follows(connections: seq<Connection>, nodes: map<string, RuleNodeCtx>, id: string, relation: string,
                          places: seq<nat>)
  {
    && (forall k :: 0 <= k < |places| ==>
          places[k] < |connections| && Leads(connections[places[k]], nodes, id, relation))
    && (forall j, k :: 0 <= j < k < |places| ==> places[j] < places[k])
    && (forall i :: 0 <= i < |connections| && Leads(connections[i], nodes, id, relation) ==> i in places)
  }

  /** The scan finds the targets of the connections that lead on, all of them, in definition order. */
  lemma {:induction false} ScanExact(connections: seq<Connection>, nodes: map<string, RuleNodeCtx>,
                                     id: string, relation: string)
    returns (places: seq<nat>)
    ensures Follows(connections, nodes, id, relation, places)
    ensures |Scan(connections, nodes, id, relation)| == |places|
    ensures forall k :: 0 <= k < |places| ==>
              Scan(connections, nodes, id, relation)[k] == nodes[connections[places[k]].toId]
  {
    if connections == [] {
      places := [];
    } else {
      var n := |connections| - 1;
      var before := ScanExact(connections[..n], nodes, id, relation);
      places := before + if Leads(connections[n], nodes, id, relation) then [n] else [];
      FollowsNext(connections, nodes, id, relation, before);
    }
  }

  lemma FollowsNext(connections: seq<Connection>, nodes: map<string, RuleNodeCtx>, id: string, relation: string,
                    before: seq<nat>)
    requires connections != [] && Follows(connections[..|connections| - 1], nodes, id, relation, before)
    ensures var n := |connections| - 1;
            Follows(connections, nodes, id, relation,
                    before + if Leads(connections[n], nodes, id, relation) then [n] else [])
  {
    var n := |connections| - 1;
    forall i | 0 <= i < |connections| && Leads(connections[i], nodes, id, relation)
      ensures i in before + if Leads(connections[n], nodes, id, relation) then [n] else []
    {
      if i < n {
        assert connections[..n][i] == connections[i] && i in before;
      }
    }
  }

  function RoutesOf(routes: map<string, seq<Connection>>, id: string): seq<Connection>
  {
    if id in routes then routes[id] else []
  }

  // ---------- chain contexts ----------

  class RuleChainCtx {
    var def: RuleChain
    var nodeIds: seq<string>
    var nodes: map<string, RuleNodeCtx>
    var nodeRoutes: map<string, seq<Connection>>
    var relationCache: map<(string, string), seq<RuleNodeCtx>>
    /** The chain context inside the root rule context: messages run through this one. */
    var running: RuleChainCtx?

    constructor (def: RuleChain, nodeIds: seq<string>, nodes: map<string, RuleNodeCtx>,
                 nodeRoutes: map<string, seq<Connection>>)
      ensures this.def == def && this.nodeIds == nodeIds && this.nodes == nodes && this.nodeRoutes == nodeRoutes
      ensures relationCache == map[] && running == null
    {
      this.def, this.nodeIds, this.nodes, this.nodeRoutes := def, nodeIds, nodes, nodeRoutes;
      relationCache, running := map[], null;
    }

    /** Every node is stored under its own id, and is the last one defined with that id. */
    ghost predicate NodesOk()
      reads this
    {
      && |nodeIds| == |def.nodes| && (forall i :: 0 <= i < |nodeIds| ==> def.nodes[i].id == nodeIds[i])
      && Indexed(def.nodes, nodes)
    }

    ghost predicate IndexOk()
      reads this
    {
      forall id :: RoutesOf(nodeRoutes, id) == From(def.connections, id)
    }

    ghost predicate CacheOk()
      reads this
    {
      forall key :: key in relationCache ==>
        relationCache[key] == Scan(def.connections, nodes, key.0, key.1)
    }

    ghost predicate Valid()
      reads this
    {
      NodesOk() && IndexOk() && CacheOk()
    }

    /** The loop over the indexed connections of one node. */
    method Follow(relations: seq<Connection>, relation: string) returns (list: seq<RuleNodeCtx>, ok: bool)
      ensures list == Resolve(relations, nodes, relation) && ok == (list != [])
    {
      list, ok := [], false;
      for i := 0 to |relations|
        invariant list == Resolve(relations[..i], nodes, relation) && ok == (list != [])
      {
        assert relations[..i + 1] == relations[..i] + [relations[i]];
        ResolveAppend(relations[..i], relations[i], nodes, relation);
        if relations[i].relation == relation && relations[i].toId in nodes {
          list := list + [nodes[relations[i].toId]];
          ok := true;
        }
      }
      assert relations[..|relations|] == relations;
    }

    /** Cached or not, the list is the scan of the definition, and the flag says whether it is non-empty. */
    method GetNextNodes(id: string, relation: string) returns (list: seq<RuleNodeCtx>, ok: bool)
      requires Valid()
      modifies this`relationCache
      ensures Valid()
      ensures list == Scan(def.connections, nodes, id, relation) && ok == (list != [])
    {
      var key := (id, relation);
      if key in relationCache {
        list := relationCache[key];
        ok := list != [];
      } else {
        list, ok := Follow(RoutesOf(nodeRoutes, id), relation);
        assert RoutesOf(nodeRoutes, id) == From(def.connections, id);
        IndexAgrees(def.connections, nodes, id, relation);
        relationCache := relationCache[key := list];
        assert NodesOk() && IndexOk();
      }
    }

    /** The node that messages start from: the one that the definition points to, if it points to one. */
    method GetFirstNode() returns (node: RuleNodeCtx?)
      requires Valid()
      ensures node == null <==> def.first >= |def.nodes|
      ensures node != null ==> LastWith(def.nodes, def.nodes[def.first].id, node.def)
    {
      if def.first >= |nodeIds| {
        return null;
      }
      assert def.nodes[def.first].id == nodeIds[def.first];
      return nodes[nodeIds[def.first]];
    }

    /** Overwrites everything except the identity of the object, and clears the cache. */
    method Copy(other: RuleChainCtx)
      requires other.Valid()
      modifies this
      ensures Valid()
      ensures def == old(other.def) && nodeIds == old(other.nodeIds) && nodes == old(other.nodes)
      ensures nodeRoutes == old(other.nodeRoutes) && running == old(other.running)
    {
      def, nodeIds, nodes, nodeRoutes := other.def, other.nodeIds, other.nodes, other.nodeRoutes;
      running := other.running;
      relationCache := map[];
    }

    /**
    Reloading the chain: a definition that cannot be loaded changes nothing here. Otherwise every old
    component is destroyed and this object takes over the parts of the freshly made one, which is
    also the one that messages now run through.
    */
    method ReloadSelf(reg: Registry, dsl: Option<ChainDsl>) returns (ok: bool)
      requires Valid() && reg.Valid() && Healthy(Instances(nodes), reg.built)
      modifies this, reg
      ensures Valid() && reg.Valid() && Grown(old(reg.built), reg.built)
      ensures reg.next == old(reg.next) + if dsl.Some? then Instantiated(dsl.value.nodes) else 0
      ensures ok <==> dsl.Some? && AllLoad(dsl.value.nodes, |dsl.value.nodes|)
      ensures !ok ==> unchanged(this) && reg.destroyed == old(reg.destroyed)
      ensures ok ==>
                && fresh(nodes.Values) && fresh(Defs(nodes))
                && LoadedUpTo(dsl.value.nodes, |dsl.value.nodes|, def.nodes, nodes, reg.built, old(reg.next))
                && def.connections == dsl.value.connections && def.first == dsl.value.first
                && reg.destroyed == old(reg.destroyed) + multiset(old(Components(Instances(nodes))))
                && (running != null <==> def.first < |def.nodes|)
                && (running != null ==> fresh(running) && running.Valid() && Shares(running))
    {
      var ctx := Decode(reg, dsl);
      if ctx == null {
        return false;
      }
      Replace(reg, ctx);
      return true;
    }

    /** The first half of a reload leaves this chain as it is. */
    method Decode(reg: Registry, dsl: Option<ChainDsl>) returns (ctx: RuleChainCtx?)
      requires reg.Valid() && Healthy(Instances(nodes), reg.built)
      modifies reg`next, reg`built
      ensures reg.Valid() && Grown(old(reg.built), reg.built)
      ensures reg.next == old(reg.next) + if dsl.Some? then Instantiated(dsl.value.nodes) else 0
      ensures ctx != null <==> dsl.Some? && AllLoad(dsl.value.nodes, |dsl.value.nodes|)
      ensures ctx != null ==>
                && fresh(ctx) && fresh(ctx.nodes.Values) && fresh(Defs(ctx.nodes))
                && Made(ctx, dsl.value, reg.built, old(reg.next))
      ensures Healthy(Instances(nodes), reg.built) && Instances(nodes) == old(Instances(nodes))
    {
      ctx := null;
      if dsl.Some? {
        ctx := InitRuleChainCtx(reg, dsl.value);
      }
    }

    /** The second half: out with the old components, in with the new parts. */
    method Replace(reg: Registry, ctx: RuleChainCtx)
      requires ctx != this && ctx.Valid() && reg.Valid() && Healthy(Instances(nodes), reg.built)
      modifies this, reg`destroyed
      ensures Valid() && reg.Valid() && ctx.Valid() && Shares(ctx) && running == ctx.running
      ensures Instances(nodes) == old(Instances(ctx.nodes)) && Printed(def.nodes) == old(Printed(ctx.def.nodes))
      ensures reg.destroyed == old(reg.destroyed) + multiset(old(Components(Instances(nodes))))
    {
      DestroyAll(nodes, reg);
      Copy(ctx);
      SameInstances(nodes);
    }

    /** The objects behind a node id. */
    ghost function Named(id: string): set<object>
      reads this
    {
      if id in nodes then {nodes[id], nodes[id].def} else {}
    }

    /** Reloads one node in place; an unknown id is not an error. */
    method ReloadChild(reg: Registry, id: string, dsl: Option<NodeDsl>) returns (ok: bool)
      requires NodesOk() && reg.Valid() && Healthy(Instances(nodes), reg.built)
      modifies Named(id), reg
      ensures reg.Valid() && Grown(old(reg.built), reg.built)
      ensures reg.next == old(reg.next) + if id in nodes && dsl.Some? then Instantiated([dsl.value]) else 0
      ensures ok <==> id !in nodes || (dsl.Some? && dsl.value.loading == Loads)
      ensures ok && id in nodes ==>
                && Instances(nodes) ==
                   old(Instances(nodes))[id := Instance(old(reg.next), Blueprint(dsl.value.kind, dsl.value.config))]
                && Genuine(nodes[id].Holding(), reg.built)
                && reg.destroyed == old(reg.destroyed) + multiset{old(Instances(nodes))[id].component}
      ensures !ok || id !in nodes ==>
                Instances(nodes) == old(Instances(nodes)) && reg.destroyed == old(reg.destroyed)
    {
      if id !in nodes {
        return true;
      }
      ok := ReloadKnown(reg, id, dsl);
    }

    method ReloadKnown(reg: Registry, id: string, dsl: Option<NodeDsl>) returns (ok: bool)
      requires NodesOk() && id in nodes && reg.Valid() && Healthy(Instances(nodes), reg.built)
      modifies nodes[id], nodes[id].def, reg
      ensures reg.Valid() && Grown(old(reg.built), reg.built)
      ensures reg.next == old(reg.next) + if dsl.Some? then Instantiated([dsl.value]) else 0
      ensures ok <==> dsl.Some? && dsl.value.loading == Loads
      ensures Instances(nodes) == old(Instances(nodes))[id := nodes[id].Holding()]
      ensures ok ==>
                && nodes[id].Holding() == Instance(old(reg.next), Blueprint(dsl.value.kind, dsl.value.config))
                && Genuine(nodes[id].Holding(), reg.built)
                && reg.destroyed == old(reg.destroyed) + multiset{old(nodes[id].component)}
      ensures !ok ==> nodes[id].Holding() == old(nodes[id].Holding()) && reg.destroyed == old(reg.destroyed)
    {
      ghost var was := Instances(nodes);
      assert Genuine(was[id], reg.built);
      OthersApart(nodes, id);
      ok := nodes[id].ReloadSelf(reg, dsl);
      AreInstances(nodes, was[id := nodes[id].Holding()]);
    }

    /** Both objects hold the same definition, the same nodes and the same routing index. */
    ghost predicate Shares(other: RuleChainCtx)
      reads this, other
    {
      def == other.def && nodeIds == other.nodeIds && nodes == other.nodes && nodeRoutes == other.nodeRoutes
    }
  }

  /** `d` is the last definition in the list with this id. */
  ghost predicate LastWith(defs: seq<RuleNode>, id: string, d: RuleNode)
  {
    exists i :: 0 <= i < |defs| && defs[i] == d && d.id == id && forall j :: i < j < |defs| ==> defs[j].id != id
  }

  // ---------- loading a definition ----------

  function Decimal(n: nat): string
  {
    if n < 10 then ["0123456789"[n]] else Decimal(n / 10) + ["0123456789"[n % 10]]
  }

  /** A node without an id is named after its place. */
  function IdAt(dsl: seq<NodeDsl>, i: nat): string
    requires i < |dsl|
  {
    if dsl[i].id == "" then "node" + Decimal(i) else dsl[i].id
  }

  function Digit(c: char): nat
  {
    if '0' <= c <= '9' then (c - '0') as nat else 0
  }

  /** The number that a string of digits stands for. */
  function Value(digits: string): nat
  {
    if digits == "" then 0 else 10 * Value(digits[..|digits| - 1]) + Digit(digits[|digits| - 1])
  }

  lemma {:induction false} DecimalReads(n: nat)
    ensures Decimal(n) != "" && (forall i :: 0 <= i < |Decimal(n)| ==> '0' <= Decimal(n)[i] <= '9')
    ensures Value(Decimal(n)) == n
  {
    var last := "0123456789"[n % 10];
    assert Digit(last) == n % 10;
    if n < 10 {
      assert Decimal(n) == [last] && Decimal(n)[..0] == "";
    } else {
      DecimalReads(n / 10);
      assert Decimal(n) == Decimal(n / 10) + [last];
      assert Decimal(n)[..|Decimal(n)| - 1] == Decimal(n / 10);
    }
  }

  /** The definitions and node contexts that a list of nodes is loaded into. */
  ghost predicate Indexed(defs: seq<RuleNode>, nodes: map<string, RuleNodeCtx>)
  {
    && (forall i :: 0 <= i < |defs| ==> defs[i].id in nodes)
    && (forall id :: id in nodes ==> nodes[id].def.id == id && LastWith(defs, id, nodes[id].def))
  }

  /** A chain definition printed node by node, as `DSL` does. */
  ghost function Printed(defs: seq<RuleNode>): seq<(string, Blueprint)>
    reads set d | d in defs
  {
    seq(|defs|, i requires 0 <= i < |defs| reads set d | d in defs =>
      (defs[i].id, Blueprint(defs[i].kind, defs[i].config)))
  }

  /** What a definition that was given as input should print, once ids are filled in. */
  ghost function Given(dsl: seq<NodeDsl>): seq<(string, Blueprint)>
  {
    seq(|dsl|, i requires 0 <= i < |dsl| => (IdAt(dsl, i), Blueprint(dsl[i].kind, dsl[i].config)))
  }

  function Defs(nodes: map<string, RuleNodeCtx>): set<RuleNode>
  {
    set id | id in nodes :: nodes[id].def
  }

  /** The instances in use, by node id. */
  ghost function Instances(nodes: map<string, RuleNodeCtx>): map<string, Instance>
    reads nodes.Values, Defs(nodes)
  {
    map id | id in nodes :: nodes[id].Holding()
  }

  twostate lemma SameInstances(nodes: map<string, RuleNodeCtx>)
    requires forall id :: id in nodes ==> old(allocated(nodes[id])) && old(allocated(nodes[id].def))
    requires forall id :: id in nodes ==> unchanged(nodes[id]) && unchanged(nodes[id].def)
    ensures old(allocated(nodes)) && Instances(nodes) == old(Instances(nodes))
  {
    assert forall id :: id in nodes ==> nodes[id].Holding() == old(nodes[id].Holding());
  }

  /** Nodes stored under their own ids share neither contexts nor definitions. */
  lemma OthersApart(nodes: map<string, RuleNodeCtx>, id: string)
    requires id in nodes && forall a :: a in nodes ==> nodes[a].def.id == a
    ensures forall a :: a in nodes && a != id ==> nodes[a] != nodes[id] && nodes[a].def != nodes[id].def
  {
  }

  lemma AreInstances(nodes: map<string, RuleNodeCtx>, instances: map<string, Instance>)
    requires instances.Keys == nodes.Keys && forall id :: id in nodes ==> nodes[id].Holding() == instances[id]
    ensures Instances(nodes) == instances
  {
  }

  twostate lemma SamePrinted(defs: seq<RuleNode>)
    requires forall d :: d in defs ==> old(allocated(d)) && unchanged(d)
    ensures old(allocated(defs)) && Printed(defs) == old(Printed(defs))
  {
  }

  /** The instance was built from what its definition says now. */
  ghost predicate Genuine(instance: Instance, built: map<nat, Blueprint>)
  {
    instance.component in built && built[instance.component] == instance.says
  }

  /** Every instance is genuine, and no two nodes share one. */
  ghost predicate Healthy(instances: map<string, Instance>, built: map<nat, Blueprint>)
  {
    && (forall id :: id in instances ==> Genuine(instances[id], built))
    && (forall a, b :: a in instances && b in instances && a != b ==> instances[a].component != instances[b].component)
  }

  ghost function Components(instances: map<string, Instance>): set<nat>
  {
    set id | id in instances :: instances[id].component
  }

  ghost predicate Grown(before: map<nat, Blueprint>, after: map<nat, Blueprint>)
  {
    forall c :: c in before ==> c in after && after[c] == before[c]
  }

  lemma IndexedAppend(defs: seq<RuleNode>, nodes: map<string, RuleNodeCtx>, node: RuleNodeCtx)
    requires Indexed(defs, nodes)
    ensures Indexed(defs + [node.def], nodes[node.def.id := node])
  {
    var defs', nodes' := defs + [node.def], nodes[node.def.id := node];
    forall id | id in nodes'
      ensures nodes'[id].def.id == id && LastWith(defs', id, nodes'[id].def)
    {
      if id == node.def.id {
        assert defs'[|defs|] == node.def;
      } else {
        var i :| 0 <= i < |defs| && defs[i] == nodes[id].def && forall j :: i < j < |defs| ==> defs[j].id != id;
        assert defs'[i] == nodes[id].def;
      }
    }
  }

  /** One node: a new definition object, a new component, a new node context. */
  method LoadNode(reg: Registry, dsl: NodeDsl, id: string) returns (node: RuleNodeCtx?)
    requires reg.Valid()
    modifies reg`next, reg`built
    ensures reg.Valid() && reg.next == old(reg.next) + Instantiated([dsl]) && Grown(old(reg.built), reg.built)
    ensures node == null <==> dsl.loading != Loads
    ensures node != null ==>
              && fresh(node) && fresh(node.def) && node.def.id == id
              && node.Holding() == Instance(old(reg.next), Blueprint(dsl.kind, dsl.config))
              && Genuine(node.Holding(), reg.built)
  {
    var created := reg.NewNode(dsl);
    if created.None? {
      return null;
    }
    var def := new RuleNode(id, dsl.kind, dsl.config);
    node := new RuleNodeCtx(def, created.value);
  }

  /** All components are numbered from `start` on. */
  ghost predicate Since(instances: map<string, Instance>, start: nat)
  {
    forall id :: id in instances ==> start <= instances[id].component
  }

  /** The first `k` nodes have been loaded, with components numbered from `start` on. */
  ghost predicate LoadedUpTo(dsl: seq<NodeDsl>, k: nat, defs: seq<RuleNode>, nodes: map<string, RuleNodeCtx>,
                             built: map<nat, Blueprint>, start: nat)
    requires k <= |dsl|
    reads nodes.Values, Defs(nodes), set d | d in defs
  {
    && Printed(defs) == Given(dsl[..k]) && Indexed(defs, nodes)
    && Healthy(Instances(nodes), built) && Since(Instances(nodes), start)
  }

  lemma HealthyNext(instances: map<string, Instance>, id: string, instance: Instance,
                    before: map<nat, Blueprint>, built: map<nat, Blueprint>, start: nat)
    requires Healthy(instances, before) && Since(instances, start)
    requires Grown(before, built) && instance.component !in before && start <= instance.component
    requires Genuine(instance, built)
    ensures Healthy(instances[id := instance], built) && Since(instances[id := instance], start)
  {
  }

  /** Adding a freshly loaded node to the ones before it. */
  lemma LoadedNext(dsl: seq<NodeDsl>, k: nat, defs: seq<RuleNode>, nodes: map<string, RuleNodeCtx>,
                   before: map<nat, Blueprint>, built: map<nat, Blueprint>, start: nat, node: RuleNodeCtx)
    requires k < |dsl| && LoadedUpTo(dsl, k, defs, nodes, before, start)
    requires Grown(before, built) && node.component !in before && start <= node.component
    requires Genuine(node.Holding(), built) && node.def.id == IdAt(dsl, k)
    requires node.Holding().says == Blueprint(dsl[k].kind, dsl[k].config)
    ensures LoadedUpTo(dsl, k + 1, defs + [node.def], nodes[node.def.id := node], built, start)
  {
    IndexedAppend(defs, nodes, node);
    HealthyNext(Instances(nodes), node.def.id, node.Holding(), before, built, start);
    assert Instances(nodes[node.def.id := node]) == Instances(nodes)[node.def.id := node.Holding()];
    assert Printed(defs + [node.def]) == Printed(defs) + [(node.def.id, node.Holding().says)];
    assert Given(dsl[..k + 1]) == Given(dsl[..k]) + [(node.def.id, node.Holding().says)];
  }

  method AddNode(reg: Registry, dsl: seq<NodeDsl>, k: nat, defs: seq<RuleNode>,
                 nodes: map<string, RuleNodeCtx>, ghost start: nat)
    returns (ok: bool, defs': seq<RuleNode>, nodes': map<string, RuleNodeCtx>, ghost made: set<object>)
    requires k < |dsl| && reg.Valid() && start <= reg.next && LoadedUpTo(dsl, k, defs, nodes, reg.built, start)
    modifies reg`next, reg`built
    ensures reg.Valid() && reg.next == old(reg.next) + Instantiated([dsl[k]]) && Grown(old(reg.built), reg.built)
    ensures ok <==> dsl[k].loading == Loads
    ensures ok ==> LoadedUpTo(dsl, k + 1, defs', nodes', reg.built, start)
    ensures fresh(made)
    ensures ok ==> nodes'.Values <= nodes.Values + made && Defs(nodes') <= Defs(nodes) + made
  {
    ghost var before := reg.built;
    var node := LoadNode(reg, dsl[k], IdAt(dsl, k));
    if node == null {
      return false, defs, nodes, {};
    }
    SameInstances(nodes);
    LoadedNext(dsl, k, defs, nodes, before, reg.built, start, node);
    return true, defs + [node.def], nodes[node.def.id := node], {node, node.def};
  }

  ghost predicate AllLoad(dsl: seq<NodeDsl>, k: nat)
    requires k <= |dsl|
  {
    forall i :: 0 <= i < k ==> dsl[i].loading == Loads
  }

  lemma AllLoadNext(dsl: seq<NodeDsl>, k: nat)
    requires k < |dsl| && AllLoad(dsl, k)
    ensures AllLoad(dsl, k + 1) <==> dsl[k].loading == Loads
    ensures dsl[k].loading != Loads ==> !AllLoad(dsl, |dsl|)
  {
  }

  /** Loads node after node; the first one that fails ends the load. */
  method LoadNodes(reg: Registry, dsl: seq<NodeDsl>)
    returns (ok: bool, defs: seq<RuleNode>, nodes: map<string, RuleNodeCtx>)
    requires reg.Valid()
    modifies reg`next, reg`built
    ensures reg.Valid() && reg.next == old(reg.next) + Instantiated(dsl) && Grown(old(reg.built), reg.built)
    ensures ok <==> AllLoad(dsl, |dsl|)
    ensures ok ==> LoadedUpTo(dsl, |dsl|, defs, nodes, reg.built, old(reg.next))
    ensures ok ==> fresh(nodes.Values) && fresh(Defs(nodes))
  {
    ok, defs, nodes := true, [], map[];
    ghost var made: set<object> := {};
    for k := 0 to |dsl|
      invariant reg.Valid() && Grown(old(reg.built), reg.built) && reg.next == old(reg.next) + k
      invariant LoadedUpTo(dsl, k, defs, nodes, reg.built, old(reg.next))
      invariant fresh(made) && nodes.Values <= made && Defs(nodes) <= made
      invariant AllLoad(dsl, k)
    {
      ghost var more;
      AllLoadNext(dsl, k);
      MadeUpTo(dsl, k);
      ok, defs, nodes, more := AddNode(reg, dsl, k, defs, nodes, old(reg.next));
      if !ok {
        return;
      }
      made := made + more;
    }
    MadeUpTo(dsl, |dsl|);
  }

  /** Builds the routing index, connection after connection. */
  method LoadRoutes(connections: seq<Connection>) returns (routes: map<string, seq<Connection>>)
    ensures forall id :: RoutesOf(routes, id) == From(connections, id)
  {
    routes := map[];
    for k := 0 to |connections|
      invariant forall id :: RoutesOf(routes, id) == From(connections[..k], id)
    {
      var c := connections[k];
      assert connections[..k + 1][..k] == connections[..k];
      if c.fromId in routes {
        routes := routes[c.fromId := routes[c.fromId] + [c]];
      } else {
        routes := routes[c.fromId := [c]];
      }
    }
    assert connections[..|connections|] == connections;
  }

  /** The ids in a list of definitions are all different. */
  ghost predicate DistinctIds(defs: seq<RuleNode>)
  {
    forall i, j :: 0 <= i < j < |defs| ==> defs[i].id != defs[j].id
  }

  // ---------- which of the loaded instances are used ----------

  ghost function Span(start: nat, next: nat): (r: set<nat>)
    ensures forall c :: c in r <==> start <= c < next
  {
    if start >= next then {} else Span(start, next - 1) + {next - 1}
  }

  lemma {:induction false} SpanCard(start: nat, next: nat)
    requires start <= next
    ensures |Span(start, next)| == next - start
    decreases next
  {
    if start == next {
      assert Span(start, next) == {};
    } else {
      SpanCard(start, next - 1);
      assert Span(start, next) == Span(start, next - 1) + {next - 1};
    }
  }

  /** Different nodes hold different instances. */
  lemma {:induction false} ComponentsCard(instances: map<string, Instance>, built: map<nat, Blueprint>)
    requires Healthy(instances, built)
    ensures |Components(instances)| == |instances|
    decreases |instances|
  {
    if instances == map[] {
      assert Components(instances) == {};
    } else {
      var id :| id in instances;
      var others := instances - {id};
      ComponentsCard(others, built);
      ComponentsWithout(instances, id);
    }
  }

  lemma ComponentsWithout(instances: map<string, Instance>, id: string)
    requires id in instances
    ensures Components(instances) == Components(instances - {id}) + {instances[id].component}
  {
    forall c | c in Components(instances)
      ensures c in Components(instances - {id}) + {instances[id].component}
    {
      var a :| a in instances && instances[a].component == c;
      assert a != id ==> (instances - {id})[a] == instances[a];
    }
  }

  ghost function Ids(defs: seq<RuleNode>): set<string>
  {
    set i | 0 <= i < |defs| :: defs[i].id
  }

  lemma {:induction false} IdsCard(defs: seq<RuleNode>)
    ensures |Ids(defs)| <= |defs|
    ensures |Ids(defs)| == |defs| <==> DistinctIds(defs)
  {
    if defs == [] {
      assert Ids(defs) == {};
    } else {
      var n := |defs| - 1;
      var before := defs[..n];
      IdsCard(before);
      IdsNext(before, defs[n]);
      assert defs == before + [defs[n]];
    }
  }

  lemma IdsNext(defs: seq<RuleNode>, d: RuleNode)
    ensures Ids(defs + [d]) == Ids(defs) + {d.id}
    ensures DistinctIds(defs + [d]) <==> DistinctIds(defs) && d.id !in Ids(defs)
  {
    var longer := defs + [d];
    assert longer[|defs|] == d && forall i :: 0 <= i < |defs| ==> longer[i] == defs[i];
    forall id | id in Ids(longer)
      ensures id in Ids(defs) + {d.id}
    {
      var i :| 0 <= i < |longer| && longer[i].id == id;
    }
    if d.id in Ids(defs) {
      var i :| 0 <= i < |defs| && defs[i].id == d.id;
      assert longer[i].id == longer[|defs|].id;
    }
  }

  lemma {:induction false} SameSize(a: set<nat>, b: set<nat>)
    requires a <= b
    ensures a == b <==> |a| == |b|
  {
    assert |b - a| == |b| - |a|;
  }

  /** A load that succeeds puts every instance it made to use if and only if the ids are distinct. */
  lemma AllUsedIff(defs: seq<RuleNode>, instances: map<string, Instance>, built: map<nat, Blueprint>, start: nat)
    requires instances.Keys == Ids(defs) && Healthy(instances, built) && Since(instances, start)
    requires forall c :: c in built ==> c < start + |defs|
    ensures Components(instances) == Span(start, start + |defs|) <==> DistinctIds(defs)
  {
    UsedAreMade(instances, built, start, start + |defs|);
    SameSize(Components(instances), Span(start, start + |defs|));
    SpanCard(start, start + |defs|);
    ComponentsCard(instances, built);
    assert |instances| == |instances.Keys|;
    IdsCard(defs);
  }

  lemma UsedAreMade(instances: map<string, Instance>, built: map<nat, Blueprint>, start: nat, next: nat)
    requires Healthy(instances, built) && Since(instances, start) && forall c :: c in built ==> c < next
    ensures Components(instances) <= Span(start, next)
  {
    forall c | c in Components(instances)
      ensures c in Span(start, next)
    {
      var id :| id in instances && instances[id].component == c;
      assert Genuine(instances[id], built);
    }
  }

  lemma KeysAreIds(defs: seq<RuleNode>, nodes: map<string, RuleNodeCtx>)
    requires Indexed(defs, nodes)
    ensures nodes.Keys == Ids(defs)
  {
    forall id | id in nodes
      ensures id in Ids(defs)
    {
      assert LastWith(defs, id, nodes[id].def);
    }
  }

  /** An id made up for place `i`. */
  ghost predicate MadeUp(id: string, i: nat)
  {
    "node" <= id && id[4..] != "" && Value(id[4..]) == i &&
    forall k :: 4 <= k < |id| ==> '0' <= id[k] <= '9'
  }

  /** Every node is loaded with the id it was given, or one made up from its place, and with its type and settings. */
  lemma LoadedAsGiven(dsl: seq<NodeDsl>, defs: seq<RuleNode>, nodes: map<string, RuleNodeCtx>,
                      built: map<nat, Blueprint>, start: nat, i: nat)
    requires LoadedUpTo(dsl, |dsl|, defs, nodes, built, start) && i < |dsl|
    ensures |defs| == |dsl| && defs[i].id in nodes
    ensures dsl[i].id != "" ==> defs[i].id == dsl[i].id
    ensures dsl[i].id == "" ==> MadeUp(defs[i].id, i)
    ensures defs[i].kind == dsl[i].kind && defs[i].config == dsl[i].config
  {
    assert dsl[..|dsl|] == dsl;
    assert |Printed(defs)| == |Given(dsl)|;
    assert Printed(defs)[i] == Given(dsl)[i];
    if dsl[i].id == "" {
      DecimalReads(i);
      assert ("node" + Decimal(i))[4..] == Decimal(i);
    }
  }

  /** A connection between given ids is followed by lookups in the loaded chain. */
  lemma ConnectionsLead(dsl: ChainDsl, defs: seq<RuleNode>, nodes: map<string, RuleNodeCtx>,
                        built: map<nat, Blueprint>, start: nat, c: nat, to: nat) returns (k: nat)
    requires LoadedUpTo(dsl.nodes, |dsl.nodes|, defs, nodes, built, start)
    requires c < |dsl.connections| && to < |dsl.nodes|
    requires dsl.nodes[to].id != "" && dsl.connections[c].toId == dsl.nodes[to].id
    ensures var found := Scan(dsl.connections, nodes, dsl.connections[c].fromId, dsl.connections[c].relation);
            k < |found| && found[k].def.id == dsl.nodes[to].id
  {
    var Connection(fromId, toId, relation) := dsl.connections[c];
    LoadedAsGiven(dsl.nodes, defs, nodes, built, start, to);
    var places := ScanExact(dsl.connections, nodes, fromId, relation);
    assert Leads(dsl.connections[c], nodes, fromId, relation) && c in places;
    k :| 0 <= k < |places| && places[k] == c;
  }

  /** A chain context freshly made from `dsl`, running through itself if it has a first node. */
  ghost predicate Made(ctx: RuleChainCtx, dsl: ChainDsl, built: map<nat, Blueprint>, start: nat)
    reads ctx, ctx.nodes.Values, Defs(ctx.nodes), set d | d in ctx.def.nodes
  {
    && ctx.Valid() && LoadedUpTo(dsl.nodes, |dsl.nodes|, ctx.def.nodes, ctx.nodes, built, start)
    && ctx.def.connections == dsl.connections && ctx.def.first == dsl.first
    && ctx.running == if dsl.first < |dsl.nodes| then ctx else null
  }

  /** The same, and what it says about the instances that were made. */
  method LoadAll(reg: Registry, dsl: seq<NodeDsl>)
    returns (ok: bool, defs: seq<RuleNode>, nodes: map<string, RuleNodeCtx>)
    requires reg.Valid()
    modifies reg`next, reg`built
    ensures reg.Valid() && reg.next == old(reg.next) + Instantiated(dsl) && Grown(old(reg.built), reg.built)
    ensures ok <==> AllLoad(dsl, |dsl|)
    ensures ok ==> LoadedUpTo(dsl, |dsl|, defs, nodes, reg.built, old(reg.next))
    ensures ok ==> fresh(nodes.Values) && fresh(Defs(nodes))
    ensures ok ==> (Components(Instances(nodes)) == Span(old(reg.next), reg.next) <==> DistinctIds(defs))
  {
    ok, defs, nodes := LoadNodes(reg, dsl);
    if ok {
      LeftBehind(dsl);
      assert |Printed(defs)| == |Given(dsl[..|dsl|])|;
      KeysAreIds(defs, nodes);
      AllUsedIff(defs, Instances(nodes), reg.built, old(reg.next));
    }
  }

  /** Puts the loaded parts together; the chain runs through the new object if it has a first node. */
  method Assemble(dsl: ChainDsl, defs: seq<RuleNode>, nodes: map<string, RuleNodeCtx>,
                  routes: map<string, seq<Connection>>)
    returns (ctx: RuleChainCtx)
    requires Indexed(defs, nodes)
    requires forall id :: RoutesOf(routes, id) == From(dsl.connections, id)
    ensures fresh(ctx) && ctx.Valid() && ctx.nodes == nodes && ctx.def.nodes == defs
    ensures ctx.def.connections == dsl.connections && ctx.def.first == dsl.first
    ensures ctx.running == if dsl.first < |defs| then ctx else null
  {
    var def := new RuleChain(defs, dsl.connections, dsl.first);
    var ids := seq(|defs|, i requires 0 <= i < |defs| => defs[i].id);
    ctx := new RuleChainCtx(def, ids, nodes, routes);
    if dsl.first < |ids| {
      ctx.running := ctx;
    }
  }

  /** Loads a whole chain, or nothing; components of a load that failed are left behind. */
  method InitRuleChainCtx(reg: Registry, dsl: ChainDsl) returns (ctx: RuleChainCtx?)
    requires reg.Valid()
    modifies reg`next, reg`built
    ensures reg.Valid() && reg.next == old(reg.next) + Instantiated(dsl.nodes) && Grown(old(reg.built), reg.built)
    ensures ctx != null <==> AllLoad(dsl.nodes, |dsl.nodes|)
    ensures ctx != null ==>
              && fresh(ctx) && fresh(ctx.nodes.Values) && fresh(Defs(ctx.nodes))
              && Made(ctx, dsl, reg.built, old(reg.next))
    ensures ctx != null ==>
              (Components(Instances(ctx.nodes)) == Span(old(reg.next), reg.next) <==> DistinctIds(ctx.def.nodes))
  {
    var ok, defs, nodes := LoadAll(reg, dsl.nodes);
    if !ok {
      return null;
    }
    var routes := LoadRoutes(dsl.connections);
    ctx := Assemble(dsl, defs, nodes, routes);
  }

  /** The components of the nodes that are not left. */
  ghost function Visited(instances: map<string, Instance>, left: set<string>): set<nat>
  {
    set id | id in instances && id !in left :: instances[id].component
  }

  lemma VisitNext(instances: map<string, Instance>, built: map<nat, Blueprint>, left: set<string>, id: string)
    requires id in left && id in instances && Healthy(instances, built)
    ensures multiset(Visited(instances, left - {id})) ==
            multiset(Visited(instances, left)) + multiset{instances[id].component}
  {
    assert Visited(instances, left - {id}) == Visited(instances, left) + {instances[id].component};
  }

  /** Destroys every component once, in whatever order the map is iterated. */
  method DestroyAll(nodes: map<string, RuleNodeCtx>, reg: Registry)
    requires reg.Valid() && Healthy(Instances(nodes), reg.built)
    modifies reg`destroyed
    ensures reg.Valid() && reg.destroyed == old(reg.destroyed) + multiset(old(Components(Instances(nodes))))
  {
    ghost var instances := Instances(nodes);
    assert Visited(instances, {}) == Components(instances);
    DestroyEach(nodes, reg, instances);
  }

  method DestroyEach(nodes: map<string, RuleNodeCtx>, reg: Registry, ghost instances: map<string, Instance>)
    requires reg.Valid() && instances.Keys == nodes.Keys && Healthy(instances, reg.built)
    requires forall id :: id in nodes ==> nodes[id].component == instances[id].component
    modifies reg`destroyed
    ensures reg.Valid() && reg.destroyed == old(reg.destroyed) + multiset(Visited(instances, {}))
  {
    ghost var start := reg.destroyed;
    var left := nodes.Keys;
    assert Visited(instances, left) == {};
    while left != {}
      invariant left <= nodes.Keys && reg.Valid()
      invariant reg.destroyed == start + multiset(Visited(instances, left))
      decreases |left|
    {
      var id :| id in left;
      VisitNext(instances, reg.built, left, id);
      ghost var seen := multiset(Visited(instances, left));
      reg.Destroy(nodes[id].component);
      left := left - {id};
      assert reg.destroyed == start + (seen + multiset{instances[id].component});
    }
  }
}
