/** The numbered boundary conditions and loads and the edges they add: the
    counters start at 1 and name the nodes `bc_k` and `load_k`, every condition
    and load hangs off the model node, each load also off its load case, and
    `applied_to` links them to the instances their ids name. */
module Links {
  import opened Wrappers
  import opened Document
  import opened Rdf
  import opened Resolver
  import opened Builder
  import opened Stages
  import opened Conversion
  import opened Provenance
  import Sso
  import Decimal

  // ---------------------------------------------------------------------------
  // Node numbering (OSAMtoSSO.py:177-182, 208-216)

  /** Different counter values give different condition nodes. */
  lemma ConditionNodeInjective(a: int, b: int)
    ensures BoundaryConditionNode(a) == BoundaryConditionNode(b) <==> a == b
  {
    Decimal.TaggedDecimalInjective("bc_", a, b);
  }

  /** Different counter values give different load nodes. */
  lemma LoadNodeInjective(a: int, b: int)
    ensures LoadNode(a) == LoadNode(b) <==> a == b
  {
    Decimal.TaggedDecimalInjective("load_", a, b);
  }

  /** A condition node is never a load node. */
  lemma ConditionNodeNotLoadNode(a: int, b: int)
    ensures BoundaryConditionNode(a) != LoadNode(b)
  {
    assert BoundaryConditionNode(a).local[0] == 'b';
    assert LoadNode(b).local[0] == 'l';
  }

  // ---------------------------------------------------------------------------
  // Instances and their objects (OSAMtoSSO.py:162-173)

  /** What one instance states as its `referenced_object`. */
  lemma InstanceOne(t: Triple, asmNode: Term, objects: seq<Object>, inst: Instance)
    ensures InstanceContributes(t, asmNode, objects, inst) && t.p == Prop(Sso.ReferencedObject) <==>
              && t.s == Inst(inst.name) && t.p == Prop(Sso.ReferencedObject)
              && MatchedObject(ObjectKeys(objects), inst.referencedObject, t.o)
  {
  }

  lemma AssemblyReferences(t: Triple, sa: Term, objects: seq<Object>, asm: Assembly)
    ensures AssemblyContributes(t, sa, objects, asm) && t.p == Prop(Sso.ReferencedObject) <==>
              exists i :: 0 <= i < |asm.instances| && t.s == Inst(asm.instances[i].name) &&
                t.p == Prop(Sso.ReferencedObject) && MatchedObject(ObjectKeys(objects), asm.instances[i].referencedObject, t.o)
  {
    var insts := asm.instances;
    if AssemblyContributes(t, sa, objects, asm) && t.p == Prop(Sso.ReferencedObject) {
      assert t !in AssemblyTriples(sa, asm);
      var i :| 0 <= i < |insts| && InstanceContributes(t, Inst(asm.name), objects, insts[i]);
      InstanceOne(t, Inst(asm.name), objects, insts[i]);
    }
    if exists i :: 0 <= i < |insts| && t.s == Inst(insts[i].name) &&
         t.p == Prop(Sso.ReferencedObject) && MatchedObject(ObjectKeys(objects), insts[i].referencedObject, t.o) {
      var i :| 0 <= i < |insts| && t.s == Inst(insts[i].name) &&
         t.p == Prop(Sso.ReferencedObject) && MatchedObject(ObjectKeys(objects), insts[i].referencedObject, t.o);
      InstanceOne(t, Inst(asm.name), objects, insts[i]);
      assert FromInstances(t, Inst(asm.name), objects, insts);
    }
  }

  lemma ReferenceOnlyAssembly(doc: Osam, t: Triple)
    requires t.p == Prop(Sso.ReferencedObject)
    ensures Contributes(doc, t) <==> AssemblyContributes(t, ModelNode(doc), doc.objects, doc.assembly)
  {
    OnlyAssembly(doc, t);
  }

  /** Among a document's contributions, the `referenced_object` edges run from each
      instance to the nodes of the objects whose id is its referenced id. */
  lemma ContributedReferences(doc: Osam, t: Triple)
    ensures Contributes(doc, t) && t.p == Prop(Sso.ReferencedObject) <==>
              exists i :: 0 <= i < |doc.assembly.instances| && t.s == Inst(doc.assembly.instances[i].name) &&
                t.p == Prop(Sso.ReferencedObject) &&
                MatchedObject(ObjectKeys(doc.objects), doc.assembly.instances[i].referencedObject, t.o)
  {
    if t.p == Prop(Sso.ReferencedObject) {
      ReferenceOnlyAssembly(doc, t);
    }
    AssemblyReferences(t, ModelNode(doc), doc.objects, doc.assembly);
  }

  /** Each instance links by `referenced_object` to the nodes of the objects whose
      id is its referenced id, and there are no other such edges. */
  lemma InstanceReferences(doc: Osam, g: Graph, t: Triple)
    requires Build(doc) == Success(g)
    ensures t in g && t.p == Prop(Sso.ReferencedObject) <==>
              exists i :: 0 <= i < |doc.assembly.instances| && t.s == Inst(doc.assembly.instances[i].name) &&
                t.p == Prop(Sso.ReferencedObject) &&
                MatchedObject(ObjectKeys(doc.objects), doc.assembly.instances[i].referencedObject, t.o)
  {
    InGraph(doc, g, t);
    ContributedReferences(doc, t);
  }

  /** Because the look-up of lines 167-173 runs inside the loop over the objects, it
      uses the first object's id before any later object is scanned: a document
      converts only when every instance references the id of the first object. */
  lemma InstancesNeedFirstObject(doc: Osam, i: int)
    requires 0 <= i < |doc.assembly.instances| && |doc.objects| > 0
    requires doc.assembly.instances[i].referencedObject != doc.objects[0].id
    ensures Build(doc).Failure? && Build(doc).error.UnresolvedReference?
  {
    BuildSucceedsIff(doc);
    assert !InstanceLinkable(doc.objects, doc.assembly.instances[i]);
  }

  /** In a converted document every instance references the first object. */
  lemma InstancesReferenceFirstObject(doc: Osam, g: Graph, i: int)
    requires Build(doc) == Success(g)
    requires 0 <= i < |doc.assembly.instances| && |doc.objects| > 0
    ensures Triple(Inst(doc.assembly.instances[i].name), Prop(Sso.ReferencedObject), Inst(doc.objects[0].name)) in g
  {
    var inst := doc.assembly.instances[i];
    var t := Triple(Inst(inst.name), Prop(Sso.ReferencedObject), Inst(doc.objects[0].name));
    BuildSucceedsIff(doc);
    assert InstanceLinkable(doc.objects, inst);
    assert MatchedObject(ObjectKeys(doc.objects), inst.referencedObject, t.o) by {
      assert ObjectKeys(doc.objects)[0].id == inst.referencedObject;
    }
    InstanceReferences(doc, g, t);
  }

  // ---------------------------------------------------------------------------
  // Boundary conditions (OSAMtoSSO.py:176-193)

  /** `t` is contributed by condition `bcs[j]`, which the loop numbers `counter + j`. */
  predicate NumberedCondition(t: Triple, sa: Term, instances: seq<Instance>, bcs: seq<BoundaryCondition>, counter: int) {
    exists j :: 0 <= j < |bcs| && BoundaryConditionContributes(t, sa, instances, bcs[j], counter + j)
  }

  /** The loop numbers the conditions consecutively from the counter's start value. */
  lemma {:induction false} ConditionsNumbered(t: Triple, sa: Term, instances: seq<Instance>,
                                              bcs: seq<BoundaryCondition>, counter: int)
    ensures FromBoundaryConditions(t, sa, instances, bcs, counter) <==> NumberedCondition(t, sa, instances, bcs, counter)
    decreases |bcs|
  {
    if |bcs| > 0 {
      ConditionsNumbered(t, sa, instances, bcs[1..], counter + 1);
      NumberedConditionCons(t, sa, instances, bcs, counter);
    }
  }

  lemma NumberedConditionCons(t: Triple, sa: Term, instances: seq<Instance>, bcs: seq<BoundaryCondition>, counter: int)
    requires |bcs| > 0
    ensures NumberedCondition(t, sa, instances, bcs, counter) <==>
              || BoundaryConditionContributes(t, sa, instances, bcs[0], counter)
              || NumberedCondition(t, sa, instances, bcs[1..], counter + 1)
  {
    if NumberedCondition(t, sa, instances, bcs, counter) {
      NumberedConditionSplit(t, sa, instances, bcs, counter);
    }
    if NumberedCondition(t, sa, instances, bcs[1..], counter + 1) {
      NumberedConditionTail(t, sa, instances, bcs, counter);
    }
    if BoundaryConditionContributes(t, sa, instances, bcs[0], counter) {
      assert BoundaryConditionContributes(t, sa, instances, bcs[0], counter + 0);
    }
  }

  lemma NumberedConditionSplit(t: Triple, sa: Term, instances: seq<Instance>, bcs: seq<BoundaryCondition>, counter: int)
    requires |bcs| > 0 && NumberedCondition(t, sa, instances, bcs, counter)
    ensures BoundaryConditionContributes(t, sa, instances, bcs[0], counter) || NumberedCondition(t, sa, instances, bcs[1..], counter + 1)
  {
    var j :| 0 <= j < |bcs| && BoundaryConditionContributes(t, sa, instances, bcs[j], counter + j);
    if j > 0 {
      assert bcs[1..][j - 1] == bcs[j];
      assert counter + 1 + (j - 1) == counter + j;
    }
  }

  lemma NumberedConditionTail(t: Triple, sa: Term, instances: seq<Instance>, bcs: seq<BoundaryCondition>, counter: int)
    requires |bcs| > 0 && NumberedCondition(t, sa, instances, bcs[1..], counter + 1)
    ensures NumberedCondition(t, sa, instances, bcs, counter)
  {
    var j :| 0 <= j < |bcs[1..]| && BoundaryConditionContributes(t, sa, instances, bcs[1..][j], counter + 1 + j);
    assert bcs[1..][j] == bcs[j + 1];
  }

  /** What the condition numbered `k` states under each of its predicates. */
  lemma ConditionOne(t: Triple, sa: Term, instances: seq<Instance>, bc: BoundaryCondition, k: int)
    ensures BoundaryConditionContributes(t, sa, instances, bc, k) && t.p == RdfType <==>
              t == Triple(BoundaryConditionNode(k), RdfType, Class(Sso.BoundaryCondition))
    ensures BoundaryConditionContributes(t, sa, instances, bc, k) && t.p == Prop(Sso.HasBoundaryCondition) <==>
              t == Triple(sa, Prop(Sso.HasBoundaryCondition), BoundaryConditionNode(k))
    ensures BoundaryConditionContributes(t, sa, instances, bc, k) && t.p == Prop(Sso.AppliedTo) <==>
              AppliedEdge(t, BoundaryConditionNode(k), InstanceRefNames(instances, bc.instances))
  {
  }

  /** `t` has the shape of a triple only the condition loop writes. */
  predicate ConditionShaped(t: Triple) {
    t.p == Prop(Sso.HasBoundaryCondition) || (t.p == RdfType && t.o == Class(Sso.BoundaryCondition))
  }

  lemma ConditionShapedOnlyConditions(doc: Osam, t: Triple)
    requires ConditionShaped(t)
    ensures Contributes(doc, t) <==> FromBoundaryConditions(t, ModelNode(doc), doc.assembly.instances, doc.bc, 1)
  {
    OnlyBoundaryConditions(doc, t);
  }

  /** A condition-shaped triple is in a converted graph exactly when one of the
      numbered conditions contributes it. */
  lemma ConditionInGraph(doc: Osam, g: Graph, t: Triple)
    requires Build(doc) == Success(g) && ConditionShaped(t)
    ensures t in g <==> NumberedCondition(t, ModelNode(doc), doc.assembly.instances, doc.bc, 1)
  {
    InGraph(doc, g, t);
    ConditionShapedOnlyConditions(doc, t);
    ConditionsNumbered(t, ModelNode(doc), doc.assembly.instances, doc.bc, 1);
  }

  /** The condition loop, started at 1, writes one `has_boundary_condition` edge
      per condition, from the model node to `bc_1` … `bc_n`, and no others. */
  lemma ConditionLoopEdges(t: Triple, sa: Term, insts: seq<Instance>, bcs: seq<BoundaryCondition>)
    ensures FromBoundaryConditions(t, sa, insts, bcs, 1) && t.p == Prop(Sso.HasBoundaryCondition) <==>
              exists k :: 1 <= k <= |bcs| && t == Triple(sa, Prop(Sso.HasBoundaryCondition), BoundaryConditionNode(k))
  {
    ConditionsNumbered(t, sa, insts, bcs, 1);
    NumberedConditionEdges(t, sa, insts, bcs);
  }

  /** The condition loop, started at 1, types exactly `bc_1` … `bc_n` as `BoundaryCondition`. */
  lemma ConditionLoopTyping(t: Triple, sa: Term, insts: seq<Instance>, bcs: seq<BoundaryCondition>)
    ensures FromBoundaryConditions(t, sa, insts, bcs, 1) && t.p == RdfType <==>
              exists k :: 1 <= k <= |bcs| && t == Triple(BoundaryConditionNode(k), RdfType, Class(Sso.BoundaryCondition))
  {
    ConditionsNumbered(t, sa, insts, bcs, 1);
    NumberedConditionTyping(t, sa, insts, bcs);
  }

  /** The condition loop, started at 1, links `bc_k` by `applied_to` to the instance
      nodes the id scan names for the k-th condition, and nothing else. */
  lemma ConditionLoopApplied(t: Triple, sa: Term, insts: seq<Instance>, bcs: seq<BoundaryCondition>)
    ensures FromBoundaryConditions(t, sa, insts, bcs, 1) && t.p == Prop(Sso.AppliedTo) <==>
              exists k :: 1 <= k <= |bcs| && AppliedEdge(t, BoundaryConditionNode(k), InstanceRefNames(insts, bcs[k - 1].instances))
  {
    ConditionsNumbered(t, sa, insts, bcs, 1);
    NumberedConditionApplied(t, sa, insts, bcs);
  }

  /** The model node has one `has_boundary_condition` edge per condition, to the
      nodes `bc_1` … `bc_n` in document order, and no others. */
  lemma ConditionEdges(doc: Osam, g: Graph, t: Triple)
    requires Build(doc) == Success(g)
    ensures t in g && t.p == Prop(Sso.HasBoundaryCondition) <==>
              exists k :: 1 <= k <= |doc.bc| &&
                t == Triple(ModelNode(doc), Prop(Sso.HasBoundaryCondition), BoundaryConditionNode(k))
  {
    if t.p == Prop(Sso.HasBoundaryCondition) {
      InGraph(doc, g, t);
      ConditionShapedOnlyConditions(doc, t);
      ConditionLoopEdges(t, ModelNode(doc), doc.assembly.instances, doc.bc);
    }
  }

  lemma NumberedConditionEdges(t: Triple, sa: Term, insts: seq<Instance>, bcs: seq<BoundaryCondition>)
    ensures NumberedCondition(t, sa, insts, bcs, 1) && t.p == Prop(Sso.HasBoundaryCondition) <==>
              exists k :: 1 <= k <= |bcs| && t == Triple(sa, Prop(Sso.HasBoundaryCondition), BoundaryConditionNode(k))
  {
    if NumberedCondition(t, sa, insts, bcs, 1) && t.p == Prop(Sso.HasBoundaryCondition) {
      var j :| 0 <= j < |bcs| && BoundaryConditionContributes(t, sa, insts, bcs[j], 1 + j);
      ConditionOne(t, sa, insts, bcs[j], 1 + j);
    }
    if exists k :: 1 <= k <= |bcs| && t == Triple(sa, Prop(Sso.HasBoundaryCondition), BoundaryConditionNode(k)) {
      var k :| 1 <= k <= |bcs| && t == Triple(sa, Prop(Sso.HasBoundaryCondition), BoundaryConditionNode(k));
      ConditionOne(t, sa, insts, bcs[k - 1], k);
      assert BoundaryConditionContributes(t, sa, insts, bcs[k - 1], 1 + (k - 1));
    }
  }

  /** Exactly the nodes `bc_1` … `bc_n` are typed `BoundaryCondition`. */
  lemma ConditionTyping(doc: Osam, g: Graph, t: Triple)
    requires Build(doc) == Success(g)
    ensures t in g && t.p == RdfType && t.o == Class(Sso.BoundaryCondition) <==>
              exists k :: 1 <= k <= |doc.bc| && t == Triple(BoundaryConditionNode(k), RdfType, Class(Sso.BoundaryCondition))
  {
    if t.p == RdfType && t.o == Class(Sso.BoundaryCondition) {
      InGraph(doc, g, t);
      ConditionShapedOnlyConditions(doc, t);
      ConditionLoopTyping(t, ModelNode(doc), doc.assembly.instances, doc.bc);
    }
  }

  lemma NumberedConditionTyping(t: Triple, sa: Term, insts: seq<Instance>, bcs: seq<BoundaryCondition>)
    ensures NumberedCondition(t, sa, insts, bcs, 1) && t.p == RdfType <==>
              exists k :: 1 <= k <= |bcs| && t == Triple(BoundaryConditionNode(k), RdfType, Class(Sso.BoundaryCondition))
  {
    if NumberedCondition(t, sa, insts, bcs, 1) && t.p == RdfType {
      var j :| 0 <= j < |bcs| && BoundaryConditionContributes(t, sa, insts, bcs[j], 1 + j);
      ConditionOne(t, sa, insts, bcs[j], 1 + j);
    }
    if exists k :: 1 <= k <= |bcs| && t == Triple(BoundaryConditionNode(k), RdfType, Class(Sso.BoundaryCondition)) {
      var k :| 1 <= k <= |bcs| && t == Triple(BoundaryConditionNode(k), RdfType, Class(Sso.BoundaryCondition));
      ConditionOne(t, sa, insts, bcs[k - 1], k);
      assert BoundaryConditionContributes(t, sa, insts, bcs[k - 1], 1 + (k - 1));
    }
  }

  /** The edges of the condition numbered `k` to the instances its ids name. */
  lemma NumberedConditionApplied(t: Triple, sa: Term, insts: seq<Instance>, bcs: seq<BoundaryCondition>)
    ensures NumberedCondition(t, sa, insts, bcs, 1) && t.p == Prop(Sso.AppliedTo) <==>
              exists k :: 1 <= k <= |bcs| && AppliedEdge(t, BoundaryConditionNode(k), InstanceRefNames(insts, bcs[k - 1].instances))
  {
    if NumberedCondition(t, sa, insts, bcs, 1) && t.p == Prop(Sso.AppliedTo) {
      var j :| 0 <= j < |bcs| && BoundaryConditionContributes(t, sa, insts, bcs[j], 1 + j);
      ConditionOne(t, sa, insts, bcs[j], 1 + j);
      assert bcs[(1 + j) - 1] == bcs[j];
    }
    if exists k :: 1 <= k <= |bcs| && AppliedEdge(t, BoundaryConditionNode(k), InstanceRefNames(insts, bcs[k - 1].instances)) {
      var k :| 1 <= k <= |bcs| && AppliedEdge(t, BoundaryConditionNode(k), InstanceRefNames(insts, bcs[k - 1].instances));
      ConditionOne(t, sa, insts, bcs[k - 1], k);
      assert BoundaryConditionContributes(t, sa, insts, bcs[k - 1], 1 + (k - 1));
    }
  }

  // ---------------------------------------------------------------------------
  // Loads (OSAMtoSSO.py:207-232)

  /** `t` is contributed by load `loads[j]`, which the loop numbers `counter + j`. */
  predicate NumberedLoad(t: Triple, sa: Term, instances: seq<Instance>, loads: seq<Load>, counter: int) {
    exists j :: 0 <= j < |loads| && LoadContributes(t, sa, instances, loads[j], counter + j)
  }

  /** The loop numbers the loads consecutively from the counter's start value. */
  lemma {:induction false} LoadsNumbered(t: Triple, sa: Term, instances: seq<Instance>, loads: seq<Load>, counter: int)
    ensures FromLoads(t, sa, instances, loads, counter) <==> NumberedLoad(t, sa, instances, loads, counter)
    decreases |loads|
  {
    if |loads| > 0 {
      LoadsNumbered(t, sa, instances, loads[1..], counter + 1);
      NumberedLoadCons(t, sa, instances, loads, counter);
    }
  }

  lemma NumberedLoadCons(t: Triple, sa: Term, instances: seq<Instance>, loads: seq<Load>, counter: int)
    requires |loads| > 0
    ensures NumberedLoad(t, sa, instances, loads, counter) <==>
              || LoadContributes(t, sa, instances, loads[0], counter)
              || NumberedLoad(t, sa, instances, loads[1..], counter + 1)
  {
    if NumberedLoad(t, sa, instances, loads, counter) {
      NumberedLoadSplit(t, sa, instances, loads, counter);
    }
    if NumberedLoad(t, sa, instances, loads[1..], counter + 1) {
      NumberedLoadTail(t, sa, instances, loads, counter);
    }
    if LoadContributes(t, sa, instances, loads[0], counter) {
      assert LoadContributes(t, sa, instances, loads[0], counter + 0);
    }
  }

  lemma NumberedLoadSplit(t: Triple, sa: Term, instances: seq<Instance>, loads: seq<Load>, counter: int)
    requires |loads| > 0 && NumberedLoad(t, sa, instances, loads, counter)
    ensures LoadContributes(t, sa, instances, loads[0], counter) || NumberedLoad(t, sa, instances, loads[1..], counter + 1)
  {
    var j :| 0 <= j < |loads| && LoadContributes(t, sa, instances, loads[j], counter + j);
    if j > 0 {
      assert loads[1..][j - 1] == loads[j];
      assert counter + 1 + (j - 1) == counter + j;
    }
  }

  lemma NumberedLoadTail(t: Triple, sa: Term, instances: seq<Instance>, loads: seq<Load>, counter: int)
    requires |loads| > 0 && NumberedLoad(t, sa, instances, loads[1..], counter + 1)
    ensures NumberedLoad(t, sa, instances, loads, counter)
  {
    var j :| 0 <= j < |loads[1..]| && LoadContributes(t, sa, instances, loads[1..][j], counter + 1 + j);
    assert loads[1..][j] == loads[j + 1];
  }

  /** What the load numbered `k` states under each of its predicates. */
  lemma LoadOne(t: Triple, sa: Term, instances: seq<Instance>, load: Load, k: int)
    ensures LoadContributes(t, sa, instances, load, k) && t.p == RdfType <==>
              t == Triple(LoadNode(k), RdfType, Class(Sso.Load))
    ensures LoadContributes(t, sa, instances, load, k) && t.p == Prop(Sso.LoadType) <==>
              t == Triple(LoadNode(k), Prop(Sso.LoadType), Str(load.kind))
    ensures LoadContributes(t, sa, instances, load, k) && t.p == Prop(Sso.HasLoad) <==>
              t == Triple(sa, Prop(Sso.HasLoad), LoadNode(k)) || t == Triple(Inst(load.caseName), Prop(Sso.HasLoad), LoadNode(k))
    ensures LoadContributes(t, sa, instances, load, k) && t.p == Prop(Sso.AppliedTo) <==>
              AppliedEdge(t, LoadNode(k), InstanceRefNames(instances, load.instances))
  {
  }

  /** `t` has the shape of a triple only the load loop writes. */
  predicate LoadShaped(t: Triple) {
    t.p == Prop(Sso.HasLoad) || t.p == Prop(Sso.LoadType) || (t.p == RdfType && t.o == Class(Sso.Load))
  }

  lemma LoadShapedOnlyLoads(doc: Osam, t: Triple)
    requires LoadShaped(t)
    ensures Contributes(doc, t) <==> FromLoads(t, ModelNode(doc), doc.assembly.instances, doc.loads, 1)
  {
    OnlyLoads(doc, t);
  }

  /** A load-shaped triple is in a converted graph exactly when one of the numbered
      loads contributes it. */
  lemma LoadInGraph(doc: Osam, g: Graph, t: Triple)
    requires Build(doc) == Success(g) && LoadShaped(t)
    ensures t in g <==> NumberedLoad(t, ModelNode(doc), doc.assembly.instances, doc.loads, 1)
  {
    InGraph(doc, g, t);
    LoadShapedOnlyLoads(doc, t);
    LoadsNumbered(t, ModelNode(doc), doc.assembly.instances, doc.loads, 1);
  }

  /** The load loop, started at 1, hangs each `load_k` by `has_load` off the model
      node and off its load case's node, and writes no other `has_load` edges. */
  lemma LoadLoopEdges(t: Triple, sa: Term, insts: seq<Instance>, loads: seq<Load>)
    ensures FromLoads(t, sa, insts, loads, 1) && t.p == Prop(Sso.HasLoad) <==>
              exists k :: 1 <= k <= |loads| &&
                (t == Triple(sa, Prop(Sso.HasLoad), LoadNode(k)) || t == Triple(Inst(loads[k - 1].caseName), Prop(Sso.HasLoad), LoadNode(k)))
  {
    LoadsNumbered(t, sa, insts, loads, 1);
    NumberedLoadEdges(t, sa, insts, loads);
  }

  /** The load loop, started at 1, types exactly `load_1` … `load_m` as `Load`. */
  lemma LoadLoopTyping(t: Triple, sa: Term, insts: seq<Instance>, loads: seq<Load>)
    ensures FromLoads(t, sa, insts, loads, 1) && t.p == RdfType <==>
              exists k :: 1 <= k <= |loads| && t == Triple(LoadNode(k), RdfType, Class(Sso.Load))
  {
    LoadsNumbered(t, sa, insts, loads, 1);
    NumberedLoadTyping(t, sa, insts, loads);
  }

  /** The load loop, started at 1, gives each `load_k` the `type` of the k-th load, and no other. */
  lemma LoadLoopKinds(t: Triple, sa: Term, insts: seq<Instance>, loads: seq<Load>)
    ensures FromLoads(t, sa, insts, loads, 1) && t.p == Prop(Sso.LoadType) <==>
              exists k :: 1 <= k <= |loads| && t == Triple(LoadNode(k), Prop(Sso.LoadType), Str(loads[k - 1].kind))
  {
    LoadsNumbered(t, sa, insts, loads, 1);
    NumberedLoadKinds(t, sa, insts, loads);
  }

  /** The load loop, started at 1, links `load_k` by `applied_to` to the instance
      nodes the id scan names for the k-th load, and nothing else. */
  lemma LoadLoopApplied(t: Triple, sa: Term, insts: seq<Instance>, loads: seq<Load>)
    ensures FromLoads(t, sa, insts, loads, 1) && t.p == Prop(Sso.AppliedTo) <==>
              exists k :: 1 <= k <= |loads| && AppliedEdge(t, LoadNode(k), InstanceRefNames(insts, loads[k - 1].instances))
  {
    LoadsNumbered(t, sa, insts, loads, 1);
    NumberedLoadApplied(t, sa, insts, loads);
  }

  /** Every load `load_k` hangs by `has_load` off the model node and off the node of
      its load case, and there are no other `has_load` edges. */
  lemma LoadEdges(doc: Osam, g: Graph, t: Triple)
    requires Build(doc) == Success(g)
    ensures t in g && t.p == Prop(Sso.HasLoad) <==>
              exists k :: 1 <= k <= |doc.loads| &&
                (|| t == Triple(ModelNode(doc), Prop(Sso.HasLoad), LoadNode(k))
                 || t == Triple(Inst(doc.loads[k - 1].caseName), Prop(Sso.HasLoad), LoadNode(k)))
  {
    if t.p == Prop(Sso.HasLoad) {
      InGraph(doc, g, t);
      LoadShapedOnlyLoads(doc, t);
      LoadLoopEdges(t, ModelNode(doc), doc.assembly.instances, doc.loads);
    }
  }

  lemma NumberedLoadEdges(t: Triple, sa: Term, insts: seq<Instance>, loads: seq<Load>)
    ensures NumberedLoad(t, sa, insts, loads, 1) && t.p == Prop(Sso.HasLoad) <==>
              exists k :: 1 <= k <= |loads| &&
                (t == Triple(sa, Prop(Sso.HasLoad), LoadNode(k)) || t == Triple(Inst(loads[k - 1].caseName), Prop(Sso.HasLoad), LoadNode(k)))
  {
    if NumberedLoad(t, sa, insts, loads, 1) && t.p == Prop(Sso.HasLoad) {
      var j :| 0 <= j < |loads| && LoadContributes(t, sa, insts, loads[j], 1 + j);
      LoadOne(t, sa, insts, loads[j], 1 + j);
      assert loads[(1 + j) - 1] == loads[j];
    }
    if exists k :: 1 <= k <= |loads| &&
         (t == Triple(sa, Prop(Sso.HasLoad), LoadNode(k)) || t == Triple(Inst(loads[k - 1].caseName), Prop(Sso.HasLoad), LoadNode(k))) {
      var k :| 1 <= k <= |loads| &&
         (t == Triple(sa, Prop(Sso.HasLoad), LoadNode(k)) || t == Triple(Inst(loads[k - 1].caseName), Prop(Sso.HasLoad), LoadNode(k)));
      LoadOne(t, sa, insts, loads[k - 1], k);
      assert LoadContributes(t, sa, insts, loads[k - 1], 1 + (k - 1));
    }
  }

  /** Exactly the nodes `load_1` … `load_m` are typed `Load`. */
  lemma LoadTyping(doc: Osam, g: Graph, t: Triple)
    requires Build(doc) == Success(g)
    ensures t in g && t.p == RdfType && t.o == Class(Sso.Load) <==>
              exists k :: 1 <= k <= |doc.loads| && t == Triple(LoadNode(k), RdfType, Class(Sso.Load))
  {
    if t.p == RdfType && t.o == Class(Sso.Load) {
      InGraph(doc, g, t);
      LoadShapedOnlyLoads(doc, t);
      LoadLoopTyping(t, ModelNode(doc), doc.assembly.instances, doc.loads);
    }
  }

  lemma NumberedLoadTyping(t: Triple, sa: Term, insts: seq<Instance>, loads: seq<Load>)
    ensures NumberedLoad(t, sa, insts, loads, 1) && t.p == RdfType <==>
              exists k :: 1 <= k <= |loads| && t == Triple(LoadNode(k), RdfType, Class(Sso.Load))
  {
    if NumberedLoad(t, sa, insts, loads, 1) && t.p == RdfType {
      var j :| 0 <= j < |loads| && LoadContributes(t, sa, insts, loads[j], 1 + j);
      LoadOne(t, sa, insts, loads[j], 1 + j);
    }
    if exists k :: 1 <= k <= |loads| && t == Triple(LoadNode(k), RdfType, Class(Sso.Load)) {
      var k :| 1 <= k <= |loads| && t == Triple(LoadNode(k), RdfType, Class(Sso.Load));
      LoadOne(t, sa, insts, loads[k - 1], k);
      assert LoadContributes(t, sa, insts, loads[k - 1], 1 + (k - 1));
    }
  }

  /** Each load node `load_k` states the `type` of the k-th load, and no other. */
  lemma LoadKinds(doc: Osam, g: Graph, t: Triple)
    requires Build(doc) == Success(g)
    ensures t in g && t.p == Prop(Sso.LoadType) <==>
              exists k :: 1 <= k <= |doc.loads| && t == Triple(LoadNode(k), Prop(Sso.LoadType), Str(doc.loads[k - 1].kind))
  {
    if t.p == Prop(Sso.LoadType) {
      InGraph(doc, g, t);
      LoadShapedOnlyLoads(doc, t);
      LoadLoopKinds(t, ModelNode(doc), doc.assembly.instances, doc.loads);
    }
  }

  lemma NumberedLoadKinds(t: Triple, sa: Term, insts: seq<Instance>, loads: seq<Load>)
    ensures NumberedLoad(t, sa, insts, loads, 1) && t.p == Prop(Sso.LoadType) <==>
              exists k :: 1 <= k <= |loads| && t == Triple(LoadNode(k), Prop(Sso.LoadType), Str(loads[k - 1].kind))
  {
    if NumberedLoad(t, sa, insts, loads, 1) && t.p == Prop(Sso.LoadType) {
      var j :| 0 <= j < |loads| && LoadContributes(t, sa, insts, loads[j], 1 + j);
      LoadOne(t, sa, insts, loads[j], 1 + j);
      assert loads[(1 + j) - 1] == loads[j];
    }
    if exists k :: 1 <= k <= |loads| && t == Triple(LoadNode(k), Prop(Sso.LoadType), Str(loads[k - 1].kind)) {
      var k :| 1 <= k <= |loads| && t == Triple(LoadNode(k), Prop(Sso.LoadType), Str(loads[k - 1].kind));
      LoadOne(t, sa, insts, loads[k - 1], k);
      assert LoadContributes(t, sa, insts, loads[k - 1], 1 + (k - 1));
    }
  }

  /** The edges of the load numbered `k` to the instances its ids name. */
  lemma NumberedLoadApplied(t: Triple, sa: Term, insts: seq<Instance>, loads: seq<Load>)
    ensures NumberedLoad(t, sa, insts, loads, 1) && t.p == Prop(Sso.AppliedTo) <==>
              exists k :: 1 <= k <= |loads| && AppliedEdge(t, LoadNode(k), InstanceRefNames(insts, loads[k - 1].instances))
  {
    if NumberedLoad(t, sa, insts, loads, 1) && t.p == Prop(Sso.AppliedTo) {
      var j :| 0 <= j < |loads| && LoadContributes(t, sa, insts, loads[j], 1 + j);
      LoadOne(t, sa, insts, loads[j], 1 + j);
      assert loads[(1 + j) - 1] == loads[j];
    }
    if exists k :: 1 <= k <= |loads| && AppliedEdge(t, LoadNode(k), InstanceRefNames(insts, loads[k - 1].instances)) {
      var k :| 1 <= k <= |loads| && AppliedEdge(t, LoadNode(k), InstanceRefNames(insts, loads[k - 1].instances));
      LoadOne(t, sa, insts, loads[k - 1], k);
      assert LoadContributes(t, sa, insts, loads[k - 1], 1 + (k - 1));
    }
  }

  // ---------------------------------------------------------------------------
  // applied_to (OSAMtoSSO.py:184-193, 223-232)

  lemma AppliedOnlyConditionsAndLoads(doc: Osam, t: Triple)
    requires t.p == Prop(Sso.AppliedTo)
    ensures Contributes(doc, t) <==>
              || FromBoundaryConditions(t, ModelNode(doc), doc.assembly.instances, doc.bc, 1)
              || FromLoads(t, ModelNode(doc), doc.assembly.instances, doc.loads, 1)
  {
    OnlyConditionsAndLoads(doc, t);
  }

  /** The `applied_to` edges are exactly those from each condition `bc_k` and each
      load `load_k` to the instance nodes named by the id scan over its instance
      ids, where an id no instance has repeats the previous id's name. */
  lemma AppliedEdges(doc: Osam, g: Graph, t: Triple)
    requires Build(doc) == Success(g)
    ensures t in g && t.p == Prop(Sso.AppliedTo) <==>
              || (exists k :: 1 <= k <= |doc.bc| &&
                    AppliedEdge(t, BoundaryConditionNode(k), InstanceRefNames(doc.assembly.instances, doc.bc[k - 1].instances)))
              || (exists k :: 1 <= k <= |doc.loads| &&
                    AppliedEdge(t, LoadNode(k), InstanceRefNames(doc.assembly.instances, doc.loads[k - 1].instances)))
  {
    var sa := ModelNode(doc);
    var insts := doc.assembly.instances;
    if t.p == Prop(Sso.AppliedTo) {
      InGraph(doc, g, t);
      AppliedOnlyConditionsAndLoads(doc, t);
      ConditionLoopApplied(t, sa, insts, doc.bc);
      LoadLoopApplied(t, sa, insts, doc.loads);
    }
  }
}
