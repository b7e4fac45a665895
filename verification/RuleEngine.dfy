/**
The engine's hold on its chain: creating, reloading, reloading one node, stopping. Whatever the order
of these calls, messages run through the definition that the engine prints, and no component
instance is destroyed while in use, destroyed twice, or dropped without being destroyed.
*/
module RuleEngines {
  import opened Messages
  import opened ChainContexts

  /** The bytes handed to a reload: what they decode to, read as a chain and read as a node. */
  datatype Text = Empty | Text(chain: Option<ChainDsl>, node: Option<NodeDsl>)

  // ---------- the books kept on component instances ----------

  /** Of all instances ever put to use, exactly those not in use now were destroyed, each once. */
  ghost predicate Ledger(inUse: set<nat>, ever: set<nat>, destroyed: multiset<nat>)
  {
    && inUse <= ever
    && (forall c :: c in ever ==> destroyed[c] == if c in inUse then 0 else 1)
    && (forall c :: c in destroyed ==> c in ever)
  }

  /** Taking instances out of use and putting new ones in keeps the books. */
  lemma LedgerSwap(inUse: set<nat>, out: set<nat>, put: set<nat>, ever: set<nat>, destroyed: multiset<nat>)
    requires Ledger(inUse, ever, destroyed) && out <= inUse && put !! ever
    ensures Ledger(inUse - out + put, ever + put, destroyed + multiset(out))
  {
    forall c | c in ever + put
      ensures (destroyed + multiset(out))[c] == if c in inUse - out + put then 0 else 1
    {
      assert c in put ==> c !in destroyed && c !in out;
    }
  }

  /** Only instances made since then were put to use: one that was passed over once is passed over for good. */
  ghost predicate OnlyNew(was: set<nat>, now: set<nat>, start: nat)
  {
    was <= now && forall c :: c in now && c !in was ==> start <= c
  }

  /** An instance that was never put to use is never destroyed. */
  lemma PassedOver(instances: map<string, Instance>, built: map<nat, Blueprint>, ever: set<nat>,
                   destroyed: multiset<nat>, next: nat, c: nat)
    requires Books(instances, built, ever, destroyed, next) && c !in ever
    ensures destroyed[c] == 0 && c !in Components(instances)
  {
  }

  /** Every instance in use is genuine, the books balance, and all instances are numbered below `next`. */
  ghost predicate Books(instances: map<string, Instance>, built: map<nat, Blueprint>, ever: set<nat>,
                        destroyed: multiset<nat>, next: nat)
  {
    && Healthy(instances, built) && Ledger(Components(instances), ever, destroyed)
    && (forall c :: c in ever ==> c < next)
  }

  /** All instances go out of use and new ones take their place. */
  lemma BooksReplaced(was: map<string, Instance>, now: map<string, Instance>, before: map<nat, Blueprint>,
                      built: map<nat, Blueprint>, ever: set<nat>, destroyed: multiset<nat>, start: nat, next: nat)
    requires Books(was, before, ever, destroyed, start) && start <= next
    requires Healthy(now, built) && Since(now, start) && forall c :: c in built ==> c < next
    ensures Books(now, built, ever + Components(now), destroyed + multiset(Components(was)), next)
  {
    var out, put := Components(was), Components(now);
    LedgerSwap(out, out, put, ever, destroyed);
    assert out - out + put == put;
    forall c | c in put
      ensures c < next
    {
      var id :| id in now && now[id].component == c;
      assert Genuine(now[id], built);
    }
  }

  /** One node gets a new instance. */
  lemma BooksSwapped(was: map<string, Instance>, id: string, instance: Instance, before: map<nat, Blueprint>,
                     built: map<nat, Blueprint>, ever: set<nat>, destroyed: multiset<nat>, start: nat, next: nat)
    requires Books(was, before, ever, destroyed, start) && id in was && Grown(before, built)
    requires Genuine(instance, built) && start <= instance.component < next
    ensures Books(was[id := instance], built, ever + {instance.component},
                  destroyed + multiset{was[id].component}, next)
  {
    var inUse, out, put := Components(was), {was[id].component}, {instance.component};
    LedgerSwap(inUse, out, put, ever, destroyed);
    forall a | a in was && a != id
      ensures was[a].component in inUse && was[a].component < start && Genuine(was[a], built)
    {
      assert Genuine(was[a], before);
    }
    var now := was[id := instance];
    forall c
      ensures c in Components(now) <==> c in inUse - out + put
    {
      if c in inUse - out {
        var a :| a in was && was[a].component == c;
        assert a in now && now[a].component == c;
      }
      if c in put {
        assert id in now && now[id].component == c;
      }
    }
    assert Components(now) == inUse - out + put;
    assert multiset(out) == multiset{was[id].component};
  }

  lemma NoneLeft(ever: set<nat>, destroyed: multiset<nat>)
    ensures Components(map[]) == {}
    ensures Ledger({}, ever, destroyed) ==> forall c :: c in ever ==> destroyed[c] == 1
  {
  }

  /** Instances that nobody put to use may have been made in between. */
  lemma BooksGrown(instances: map<string, Instance>, before: map<nat, Blueprint>, built: map<nat, Blueprint>,
                   ever: set<nat>, destroyed: multiset<nat>, start: nat, next: nat)
    requires Books(instances, before, ever, destroyed, start) && start <= next && Grown(before, built)
    ensures Books(instances, built, ever, destroyed, next)
  {
    assert forall id :: id in instances ==> Genuine(instances[id], before);
  }

  // ---------- a chain and the object its messages run through ----------

  /** The chain context that messages run through holds the same parts as the root. */
  ghost predicate Consistent(root: RuleChainCtx)
    reads root, root.running
  {
    && root.Valid() && (root.running != null <==> root.def.first < |root.def.nodes|)
    && (root.running != null ==> root.running.Valid() && root.Shares(root.running))
  }

  /**
  What `DSL` prints for a node is what the running node with that id holds and was built from,
  exactly for the nodes not hidden by a later one with the same id.
  */
  lemma PrintedIsRunning(root: RuleChainCtx, built: map<nat, Blueprint>, i: nat)
    requires Consistent(root) && root.running != null && Healthy(Instances(root.nodes), built)
    requires i < |root.def.nodes|
    ensures var def := root.def.nodes[i];
            && def.id in root.running.nodes
            && (root.running.nodes[def.id].def == def <==> LastWith(root.def.nodes, def.id, def))
            && (LastWith(root.def.nodes, def.id, def) ==>
                  var c := root.running.nodes[def.id].component;
                  c in built && Printed(root.def.nodes)[i] == (def.id, built[c]))
  {
    var def := root.def.nodes[i];
    assert root.nodeIds[i] == def.id;
    var node := root.nodes[def.id];
    assert LastWith(root.def.nodes, def.id, node.def);
    assert Genuine(Instances(root.nodes)[def.id], built);
    if LastWith(root.def.nodes, def.id, def) {
      LastUnique(root.def.nodes, def.id, def, node.def);
    }
  }

  lemma LastUnique(defs: seq<RuleNode>, id: string, a: RuleNode, b: RuleNode)
    requires LastWith(defs, id, a) && LastWith(defs, id, b)
    ensures a == b
  {
    var i :| 0 <= i < |defs| && defs[i] == a && forall j :: i < j < |defs| ==> defs[j].id != id;
    var k :| 0 <= k < |defs| && defs[k] == b && forall j :: k < j < |defs| ==> defs[j].id != id;
    assert !(i < k) && !(k < i);
  }

  /** With distinct ids nothing is hidden. */
  lemma DistinctAreLast(defs: seq<RuleNode>, i: nat)
    requires DistinctIds(defs) && i < |defs|
    ensures LastWith(defs, defs[i].id, defs[i])
  {
  }

  // ---------- the engine ----------

  class RuleEngine {
    const reg: Registry
    var root: RuleChainCtx?
    /** Every instance ever put to use. */
    ghost var ever: set<nat>

    constructor ()
      ensures Valid() && root == null && fresh(reg) && ever == {}
    {
      reg := new Registry();
      root, ever := null, {};
    }

    ghost function Nodes(): map<string, RuleNodeCtx>
      reads this, root
    {
      if root == null then map[] else root.nodes
    }

    ghost predicate Valid()
      reads this, reg, root, if root == null then {} else {root.running}, Nodes().Values, Defs(Nodes())
    {
      && reg.Valid() && (root == null || Consistent(root))
      && Books(Instances(Nodes()), reg.built, ever, reg.destroyed, reg.next)
    }

    /** The chain being run is the one given by `dsl`. */
    ghost predicate Serves(dsl: ChainDsl)
      reads this, root, if root == null then {} else set d | d in root.def.nodes
    {
      && root != null && Printed(root.def.nodes) == Given(dsl.nodes)
      && root.def.connections == dsl.connections && root.def.first == dsl.first
    }

    /** Enters the instances of a newly loaded chain in the books. */
    ghost method Record(was: map<string, Instance>, before: map<nat, Blueprint>, gone: multiset<nat>, start: nat,
                        dsl: ChainDsl)
      requires reg.Valid() && root != null && Consistent(root) && Serves(dsl)
      requires Books(was, before, ever, gone, start) && start <= reg.next
      requires Healthy(Instances(root.nodes), reg.built) && Since(Instances(root.nodes), start)
      requires reg.destroyed == gone + multiset(Components(was))
      modifies this`ever
      ensures Valid() && Serves(dsl) && OnlyNew(old(ever), ever, start)
    {
      BooksReplaced(was, Instances(root.nodes), before, reg.built, ever, gone, start, reg.next);
      label made:
      ever := ever + Components(Instances(root.nodes));
      SameInstances@made(root.nodes);
      SamePrinted@made(root.def.nodes);
    }

    /** Without a chain, a reload creates one. */
    method Create(dsl: Option<ChainDsl>) returns (ok: bool)
      requires Valid() && root == null
      modifies this`root, this`ever, reg
      ensures Valid() && OnlyNew(old(ever), ever, old(reg.next))
      ensures reg.next == old(reg.next) + if dsl.Some? then Instantiated(dsl.value.nodes) else 0
      ensures ok <==> dsl.Some? && AllLoad(dsl.value.nodes, |dsl.value.nodes|)
      ensures if ok then Serves(dsl.value) && fresh(root) else root == null && ever == old(ever)
      ensures reg.destroyed == old(reg.destroyed)
    {
      if dsl.None? {
        return false;
      }
      ghost var was, before, start := Instances(Nodes()), reg.built, reg.next;
      var ctx := InitRuleChainCtx(reg, dsl.value);
      if ctx == null {
        BooksGrown(was, before, reg.built, ever, reg.destroyed, start, reg.next);
        return false;
      }
      Install(ctx, was, before, start, dsl.value);
      return true;
    }

    method Install(ctx: RuleChainCtx, ghost was: map<string, Instance>, ghost before: map<nat, Blueprint>,
                   ghost start: nat, ghost dsl: ChainDsl)
      requires reg.Valid() && was == map[] && start <= reg.next
      requires Books(was, before, ever, reg.destroyed, start) && Made(ctx, dsl, reg.built, start)
      modifies this`root, this`ever
      ensures Valid() && Serves(dsl) && OnlyNew(old(ever), ever, start) && root == ctx
    {
      label made:
      root := ctx;
      SameInstances@made(ctx.nodes);
      SamePrinted@made(ctx.def.nodes);
      Record(was, before, reg.destroyed, start, dsl);
    }

    /** With a chain, its parts are replaced; the root object itself stays. */
    method Reload(dsl: Option<ChainDsl>) returns (ok: bool)
      requires Valid() && root != null
      modifies root, this`ever, reg
      ensures Valid() && OnlyNew(old(ever), ever, old(reg.next))
      ensures reg.next == old(reg.next) + if dsl.Some? then Instantiated(dsl.value.nodes) else 0
      ensures ok <==> dsl.Some? && AllLoad(dsl.value.nodes, |dsl.value.nodes|)
      ensures ok ==> Serves(dsl.value) && fresh(root.nodes.Values)
      ensures ok ==> reg.destroyed == old(reg.destroyed) + multiset(old(Components(Instances(root.nodes))))
      ensures !ok ==> unchanged(root) && ever == old(ever) && reg.destroyed == old(reg.destroyed)
    {
      ghost var was, before, start, gone := Instances(Nodes()), reg.built, reg.next, reg.destroyed;
      ok := root.ReloadSelf(reg, dsl);
      if ok {
        Record(was, before, gone, start, dsl.value);
      } else {
        SameInstances(root.nodes);
        BooksGrown(was, before, reg.built, ever, gone, start, reg.next);
      }
    }

    method ReloadSelf(dsl: Option<ChainDsl>) returns (ok: bool)
      requires Valid()
      modifies this, root, reg
      ensures Valid() && OnlyNew(old(ever), ever, old(reg.next))
      ensures reg.next == old(reg.next) + if dsl.Some? then Instantiated(dsl.value.nodes) else 0
      ensures ok <==> dsl.Some? && AllLoad(dsl.value.nodes, |dsl.value.nodes|)
      ensures ok ==> Serves(dsl.value)
      ensures !ok ==> root == old(root) && ever == old(ever) && reg.destroyed == old(reg.destroyed)
      ensures !ok && root != null ==> unchanged(root)
      ensures old(root) != null ==> root == old(root)
      ensures !ok ==> forall c :: old(reg.next) <= c < reg.next ==> Abandoned(c)
    {
      if root != null {
        ok := Reload(dsl);
      } else {
        ok := Create(dsl);
      }
      if !ok {
        ghost var instances := Instances(Nodes());
        forall c: nat | old(reg.next) <= c < reg.next
          ensures Abandoned(c)
        {
          PassedOver(instances, reg.built, ever, reg.destroyed, reg.next, c);
        }
      }
    }

    /** An instance that was made, was never used, and was not destroyed; as `ever` shows, it never will be. */
    ghost predicate Abandoned(c: nat)
      reads this, reg
    {
      c < reg.next && c !in ever && reg.destroyed[c] == 0
    }

    /** Enters the new instance of a reloaded node in the books. */
    ghost method RecordOne(was: map<string, Instance>, id: string, before: map<nat, Blueprint>, gone: multiset<nat>,
                           start: nat)
      requires reg.Valid() && root != null && Consistent(root) && id in root.nodes && id in was
      requires Books(was, before, ever, gone, start) && start <= reg.next && Grown(before, reg.built)
      requires Instances(root.nodes) == was[id := root.nodes[id].Holding()]
      requires Genuine(root.nodes[id].Holding(), reg.built) && start <= root.nodes[id].component
      requires reg.destroyed == gone + multiset{was[id].component}
      modifies this`ever
      ensures Valid() && OnlyNew(old(ever), ever, start)
      ensures Instances(root.nodes) == old(Instances(root.nodes))
    {
      BooksSwapped(was, id, root.nodes[id].Holding(), before, reg.built, ever, gone, start, reg.next);
      label made:
      ever := ever + {root.nodes[id].component};
      SameInstances@made(root.nodes);
    }

    /** Gives one node a new instance and new definition contents; an unknown id is not an error. */
    method ReloadNode(id: string, dsl: Option<NodeDsl>) returns (ok: bool)
      requires Valid() && root != null
      modifies root.Named(id), this`ever, reg
      ensures Valid() && OnlyNew(old(ever), ever, old(reg.next))
      ensures ok <==> id !in root.nodes || (dsl.Some? && dsl.value.loading == Loads)
      ensures ok && id in root.nodes ==>
                Instances(root.nodes) ==
                old(Instances(root.nodes))[id := Instance(old(reg.next), Blueprint(dsl.value.kind, dsl.value.config))]
      ensures !ok || id !in root.nodes ==> Instances(root.nodes) == old(Instances(root.nodes))
    {
      ghost var was, before, start, gone := Instances(root.nodes), reg.built, reg.next, reg.destroyed;
      ok := root.ReloadChild(reg, id, dsl);
      if ok && id in root.nodes {
        RecordOne(was, id, before, gone, start);
      } else {
        BooksGrown(was, before, reg.built, ever, gone, start, reg.next);
      }
    }

    /** An empty text, or no chain to reload, is an error; no id means the whole chain. */
    method ReloadChild(id: string, text: Text) returns (ok: bool)
      requires Valid()
      modifies this, root, reg, if root == null then {} else root.Named(id)
      ensures Valid() && OnlyNew(old(ever), ever, old(reg.next))
      ensures ok <==>
                && text.Text? && old(root) != null
                && if id == "" then text.chain.Some? && AllLoad(text.chain.value.nodes, |text.chain.value.nodes|)
                   else id !in old(Nodes()) || (text.node.Some? && text.node.value.loading == Loads)
      ensures ok && id == "" ==> Serves(text.chain.value)
      ensures id != "" ==> root == old(root) && (root != null ==> unchanged(root))
      ensures id != "" && root != null && text.Text? ==>
                Instances(root.nodes) ==
                if ok && id in root.nodes
                then old(Instances(Nodes()))[id :=
                       Instance(old(reg.next), Blueprint(text.node.value.kind, text.node.value.config))]
                else old(Instances(Nodes()))
    {
      if text.Empty? || root == null {
        return false;
      }
      if id == "" {
        ok := ReloadSelf(text.chain);
      } else {
        ok := ReloadNode(id, text.node);
      }
    }

    /** What a running message finds next is a scan of the definition that the engine prints. */
    method NextNodes(id: string, relation: string) returns (list: seq<RuleNodeCtx>, ok: bool)
      requires Valid() && root != null && root.running != null
      modifies root.running`relationCache
      ensures Valid()
      ensures list == Scan(root.def.connections, root.nodes, id, relation) && ok == (list != [])
    {
      list, ok := root.running.GetNextNodes(id, relation);
      SameInstances(root.nodes);
    }

    /** Destroys every instance and forgets the chain. */
    method Stop()
      requires Valid()
      modifies this`root, reg`destroyed
      ensures Valid() && root == null
      ensures forall c :: c in ever ==> reg.destroyed[c] == 1
    {
      if root != null {
        DestroyRoot();
        root := null;
      }
      assert Instances(Nodes()) == map[];
      NoneLeft(ever, reg.destroyed);
    }

    method DestroyRoot()
      requires Valid() && root != null
      modifies reg`destroyed
      ensures reg.Valid() && Books(map[], reg.built, ever, reg.destroyed, reg.next)
    {
      ghost var was, gone := Instances(root.nodes), reg.destroyed;
      DestroyAll(root.nodes, reg);
      BooksReplaced(was, map[], reg.built, reg.built, ever, gone, reg.next, reg.next);
      assert ever + Components(map[]) == ever;
    }
  }
}
