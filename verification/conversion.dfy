/** The whole conversion, stage by stage: exactly which documents convert, and the
    converted graph as the union of what every record of the document contributes. */
module Conversion {
  import opened Wrappers
  import opened Document
  import opened Rdf
  import opened Resolver
  import opened Builder
  import opened Stages
  import Sso

  // ---------------------------------------------------------------------------
  // Which documents convert

  predicate MaterialNamed(ms: seq<Material>, n: string) {
    exists i :: 0 <= i < |ms| && ms[i].name == n
  }

  predicate SectionNamed(ss: seq<Section>, n: string) {
    exists i :: 0 <= i < |ss| && ss[i].name == n
  }

  predicate LoadCaseNamed(lcs: seq<LoadCase>, n: string) {
    exists i :: 0 <= i < |lcs| && lcs[i].name == n
  }

  /** An element's section id matches some section, and its material name is the
      name of some material. */
  predicate ElementConverts(doc: Osam, e: Element) {
    !Unmatched(SectionKeys(doc.sections), e.section) && MaterialNamed(doc.materials, e.material)
  }

  predicate ObjectConverts(doc: Osam, o: Object) {
    forall j :: 0 <= j < |o.mesh.elements| ==> ElementConverts(doc, o.mesh.elements[j])
  }

  predicate ObjectsConvert(doc: Osam) {
    forall i :: 0 <= i < |doc.objects| ==> ObjectConverts(doc, doc.objects[i])
  }

  /** A load's case is a declared load case and its first instance id matches an instance. */
  predicate LoadConverts(doc: Osam, load: Load) {
    LoadCaseNamed(doc.loadCases, load.caseName) && RefsLinkable(doc.assembly.instances, load.instances)
  }

  predicate LoadsConvert(doc: Osam) {
    forall i :: 0 <= i < |doc.loads| ==> LoadConverts(doc, doc.loads[i])
  }

  /** Every reference the script resolves by name finds its node. */
  predicate Converts(doc: Osam) {
    && ObjectsConvert(doc)
    && InstancesLinkable(doc.objects, doc.assembly.instances)
    && BoundaryConditionsLinkable(doc.assembly.instances, doc.bc)
    && LoadsConvert(doc)
  }

  // ---------------------------------------------------------------------------
  // Stage by stage

  /** A material's name triple comes from a material carrying that name. */
  lemma MaterialNameFrom(sa: Term, ms: seq<Material>, n: string)
    ensures FromMaterials(Triple(Inst(n), Prop(Sso.MaterialName), Str(n)), sa, ms) <==> MaterialNamed(ms, n)
  {
    var t := Triple(Inst(n), Prop(Sso.MaterialName), Str(n));
    if MaterialNamed(ms, n) {
      var i :| 0 <= i < |ms| && ms[i].name == n;
      assert t in MaterialTriples(sa, ms[i]);
    }
  }

  lemma SectionNameFrom(sa: Term, ss: seq<Section>, n: string)
    ensures FromSections(Triple(Inst(n), Prop(Sso.SectionName), Str(n)), sa, ss) <==> SectionNamed(ss, n)
  {
    var t := Triple(Inst(n), Prop(Sso.SectionName), Str(n));
    if SectionNamed(ss, n) {
      var i :| 0 <= i < |ss| && ss[i].name == n;
      assert t in SectionTriples(sa, ss[i]);
    }
  }

  lemma LoadCaseNameFrom(sa: Term, lcs: seq<LoadCase>, n: string)
    ensures FromLoadCases(Triple(Inst(n), Prop(Sso.LoadCaseName), Str(n)), sa, lcs) <==> LoadCaseNamed(lcs, n)
  {
    var t := Triple(Inst(n), Prop(Sso.LoadCaseName), Str(n));
    if LoadCaseNamed(lcs, n) {
      var i :| 0 <= i < |lcs| && lcs[i].name == n;
      assert t in LoadCaseTriples(sa, lcs[i]);
    }
  }

  lemma AfterMaterialsFacts(doc: Osam)
    ensures AllKeyed(AfterMaterials(doc))
  {
    GrowsKeepsKeyed(RootTriples(doc), AfterMaterials(doc), MaterialProps);
  }

  /** After the material stage, the material name triples are exactly those of the
      declared materials. */
  lemma AfterMaterialsName(doc: Osam, n: string)
    ensures HasName(AfterMaterials(doc), Sso.MaterialName, n) <==> MaterialNamed(doc.materials, n)
  {
    assert Triple(Inst(n), Prop(Sso.MaterialName), Str(n)) !in RootTriples(doc);
    MaterialsStageContents(RootTriples(doc), ModelNode(doc), doc.materials);
    MaterialNameFrom(ModelNode(doc), doc.materials, n);
  }

  lemma AfterSectionsFacts(doc: Osam)
    ensures AllKeyed(AfterSections(doc))
  {
    var g0 := AfterMaterials(doc);
    AfterMaterialsFacts(doc);
    GrowsKeepsKeyed(g0, AfterSections(doc), SectionProps);
  }

  /** A stage that does not write predicate `p` keeps the `p` name triple of `n`. */
  lemma NameKept(g0: Graph, g: Graph, preds: set<Term>, p: Sso.Property, n: string)
    requires Grows(g0, g, preds) && Prop(p) !in preds
    ensures HasName(g, p, n) <==> HasName(g0, p, n)
  {
  }

  /** The section stage keeps the material name triples. */
  lemma AfterSectionsMaterialName(doc: Osam, n: string)
    ensures HasName(AfterSections(doc), Sso.MaterialName, n) <==> MaterialNamed(doc.materials, n)
  {
    AfterMaterialsName(doc, n);
    NameKept(AfterMaterials(doc), AfterSections(doc), SectionProps, Sso.MaterialName, n);
  }

  /** A section stage started without a name triple for `n` ends with one exactly
      when some section is named `n`. */
  lemma SectionNameAfterStage(g0: Graph, sa: Term, ss: seq<Section>, n: string)
    requires !HasName(g0, Sso.SectionName, n)
    ensures HasName(SectionsStage(g0, sa, ss), Sso.SectionName, n) <==> SectionNamed(ss, n)
  {
    SectionsStageContents(g0, sa, ss);
    SectionNameFrom(sa, ss, n);
  }

  /** After the section stage, the section name triples are exactly those of the
      declared sections. */
  lemma AfterSectionsSectionName(doc: Osam, n: string)
    ensures HasName(AfterSections(doc), Sso.SectionName, n) <==> SectionNamed(doc.sections, n)
  {
    AfterMaterialsNoSectionName(doc, n);
    SectionNameAfterStage(AfterMaterials(doc), ModelNode(doc), doc.sections, n);
  }

  lemma AfterMaterialsNoSectionName(doc: Osam, n: string)
    ensures !HasName(AfterMaterials(doc), Sso.SectionName, n)
  {
    assert !HasName(RootTriples(doc), Sso.SectionName, n);
    NameKept(RootTriples(doc), AfterMaterials(doc), MaterialProps, Sso.SectionName, n);
  }

  /** An element resolves against the materials and sections exactly when it converts. */
  lemma ElementConvertsIff(doc: Osam, e: Element)
    ensures ElementResolves(AfterSections(doc), doc.sections, e) <==> ElementConverts(doc, e)
  {
    var ks := SectionKeys(doc.sections);
    AfterSectionsMaterialName(doc, e.material);
    ScanIdsSpec(ks, e.section, None);
    var n := ElementSectionName(doc.sections, e);
    if n.Some? {
      var k :| 0 <= k < |ks| && ks[k].id == e.section && n == Some(ks[k].name);
      assert doc.sections[k].name == n.value;
      AfterSectionsSectionName(doc, n.value);
    }
  }

  lemma ObjectsConvertIff(doc: Osam)
    ensures ObjectsResolve(AfterSections(doc), doc.sections, doc.objects) <==> ObjectsConvert(doc)
  {
    forall i, j | 0 <= i < |doc.objects| && 0 <= j < |doc.objects[i].mesh.elements|
      ensures ElementResolves(AfterSections(doc), doc.sections, doc.objects[i].mesh.elements[j])
              <==> ElementConverts(doc, doc.objects[i].mesh.elements[j])
    {
      ElementConvertsIff(doc, doc.objects[i].mesh.elements[j]);
    }
  }

  /** Every object's name triple is among the objects' contributions. */
  lemma ObjectsNamed(g: Graph, sa: Term, sections: seq<Section>, os: seq<Object>)
    requires forall t :: FromObjects(t, sa, sections, os) ==> t in g
    ensures KeysNamed(g, Sso.ObjectName, ObjectKeys(os))
  {
    var ks := ObjectKeys(os);
    forall k | 0 <= k < |ks| ensures HasName(g, Sso.ObjectName, ks[k].name) {
      var t := Triple(Inst(os[k].name), Prop(Sso.ObjectName), Str(os[k].name));
      assert t in ObjectTriples(sa, os[k]);
      assert ObjectContributes(t, sa, sections, os[k]);
    }
  }

  lemma AfterObjectsFacts(doc: Osam)
    ensures var r := AfterObjects(doc);
            && (r.Success? <==> ObjectsConvert(doc))
            && (r.Failure? ==> r.error.UnresolvedReference?)
            && (r.Success? ==> AllKeyed(r.value))
            && (r.Success? ==> forall t :: t in r.value <==>
                  t in AfterSections(doc) || FromObjects(t, ModelNode(doc), doc.sections, doc.objects))
            && (r.Success? ==> KeysNamed(r.value, Sso.ObjectName, ObjectKeys(doc.objects)))
  {
    var g := AfterSections(doc);
    AfterSectionsFacts(doc);
    ObjectsConvertIff(doc);
    ObjectsStageOutcome(g, ModelNode(doc), doc.sections, doc.objects);
    var r := AfterObjects(doc);
    if r.Success? {
      GrowsKeepsKeyed(g, r.value, ObjectProps);
      ObjectsNamed(r.value, ModelNode(doc), doc.sections, doc.objects);
    }
  }

  /** Every instance's name triple is among the assembly's contributions. */
  lemma InstancesNamed(g: Graph, sa: Term, objects: seq<Object>, asm: Assembly)
    requires forall t :: AssemblyContributes(t, sa, objects, asm) ==> t in g
    ensures KeysNamed(g, Sso.InstanceName, InstanceKeys(asm.instances))
  {
    var insts := asm.instances;
    var ks := InstanceKeys(insts);
    forall k | 0 <= k < |ks| ensures HasName(g, Sso.InstanceName, ks[k].name) {
      var t := Triple(Inst(insts[k].name), Prop(Sso.InstanceName), Str(insts[k].name));
      assert t in InstanceTriples(Inst(asm.name), insts[k]);
      assert InstanceContributes(t, Inst(asm.name), objects, insts[k]);
    }
  }

  lemma AfterAssemblyFacts(doc: Osam)
    ensures var r := AfterAssembly(doc);
            && (r.Success? ==> AfterObjects(doc).Success?)
            && (r.Success? <==> ObjectsConvert(doc) && InstancesLinkable(doc.objects, doc.assembly.instances))
            && (r.Failure? ==> r.error.UnresolvedReference?)
            && (r.Success? ==> AllKeyed(r.value))
            && (r.Success? ==> forall t :: t in r.value <==>
                  t in AfterObjects(doc).value || AssemblyContributes(t, ModelNode(doc), doc.objects, doc.assembly))
            && (r.Success? ==> KeysNamed(r.value, Sso.InstanceName, InstanceKeys(doc.assembly.instances)))
  {
    AfterObjectsFacts(doc);
    var r0 := AfterObjects(doc);
    if r0.Success? {
      var g := r0.value;
      AssemblyStageOutcome(g, ModelNode(doc), doc.objects, doc.assembly);
      var r := AfterAssembly(doc);
      assert r == AssemblyStage(g, ModelNode(doc), doc.objects, doc.assembly);
      if r.Success? {
        GrowsKeepsKeyed(g, r.value, AssemblyProps);
        InstancesNamed(r.value, ModelNode(doc), doc.objects, doc.assembly);
      }
    }
  }

  lemma AfterBoundaryConditionsFacts(doc: Osam)
    ensures var r := AfterBoundaryConditions(doc);
            && (r.Success? ==> AfterAssembly(doc).Success?)
            && (r.Success? <==> && ObjectsConvert(doc)
                                && InstancesLinkable(doc.objects, doc.assembly.instances)
                                && BoundaryConditionsLinkable(doc.assembly.instances, doc.bc))
            && (r.Failure? ==> r.error.UnresolvedReference?)
            && (r.Success? ==> AllKeyed(r.value))
            && (r.Success? ==> forall t :: t in r.value <==>
                  t in AfterAssembly(doc).value || FromBoundaryConditions(t, ModelNode(doc), doc.assembly.instances, doc.bc, 1))
            && (r.Success? ==> KeysNamed(r.value, Sso.InstanceName, InstanceKeys(doc.assembly.instances)))
  {
    AfterAssemblyFacts(doc);
    var r0 := AfterAssembly(doc);
    if r0.Success? {
      var g := r0.value;
      BoundaryConditionsStageOutcome(g, ModelNode(doc), doc.assembly.instances, doc.bc, 1);
      var r := AfterBoundaryConditions(doc);
      assert r == BoundaryConditionsStage(g, ModelNode(doc), doc.assembly.instances, doc.bc, 1);
      if r.Success? {
        GrowsKeepsKeyed(g, r.value, BoundaryConditionProps);
      }
    }
  }

  lemma AfterLoadCasesFacts(doc: Osam)
    ensures var r := AfterLoadCases(doc);
            && (r.Success? <==> AfterBoundaryConditions(doc).Success?)
            && (r.Failure? ==> r.error.UnresolvedReference?)
            && (r.Success? ==> AllKeyed(r.value))
            && (r.Success? ==> forall t :: t in r.value <==>
                  t in AfterBoundaryConditions(doc).value || FromLoadCases(t, ModelNode(doc), doc.loadCases))
            && (r.Success? ==> KeysNamed(r.value, Sso.InstanceName, InstanceKeys(doc.assembly.instances)))
  {
    AfterBoundaryConditionsFacts(doc);
    var r0 := AfterBoundaryConditions(doc);
    if r0.Success? {
      var g0 := r0.value;
      var g := LoadCasesStage(g0, ModelNode(doc), doc.loadCases);
      assert AfterLoadCases(doc) == Success(g);
      LoadCasesStageContents(g0, ModelNode(doc), doc.loadCases);
      GrowsKeepsKeyed(g0, g, LoadCaseProps);
    }
  }

  lemma LoadCaseNameAfterStage(g0: Graph, sa: Term, lcs: seq<LoadCase>, n: string)
    requires !HasName(g0, Sso.LoadCaseName, n)
    ensures HasName(LoadCasesStage(g0, sa, lcs), Sso.LoadCaseName, n) <==> LoadCaseNamed(lcs, n)
  {
    LoadCasesStageContents(g0, sa, lcs);
    LoadCaseNameFrom(sa, lcs, n);
  }

  /** After the load-case stage, the load-case name triples are exactly those of the
      declared load cases. */
  lemma AfterLoadCasesName(doc: Osam, n: string)
    requires AfterLoadCases(doc).Success?
    ensures HasName(AfterLoadCases(doc).value, Sso.LoadCaseName, n) <==> LoadCaseNamed(doc.loadCases, n)
  {
    AfterBoundaryConditionsFacts(doc);
    AfterAssemblyFacts(doc);
    AfterObjectsFacts(doc);
    AfterSectionsNoLoadCaseName(doc, n);
    var g5 := AfterBoundaryConditions(doc).value;
    NoLoadCaseNameContributed(ModelNode(doc), doc.sections, doc.objects, doc.assembly, doc.bc,
                              Triple(Inst(n), Prop(Sso.LoadCaseName), Str(n)));
    LoadCaseNameAfterStage(g5, ModelNode(doc), doc.loadCases, n);
    assert AfterLoadCases(doc).value == LoadCasesStage(g5, ModelNode(doc), doc.loadCases);
  }

  lemma AfterSectionsNoLoadCaseName(doc: Osam, n: string)
    ensures !HasName(AfterSections(doc), Sso.LoadCaseName, n)
  {
    assert !HasName(RootTriples(doc), Sso.LoadCaseName, n);
    NameKept(RootTriples(doc), AfterMaterials(doc), MaterialProps, Sso.LoadCaseName, n);
    NameKept(AfterMaterials(doc), AfterSections(doc), SectionProps, Sso.LoadCaseName, n);
  }

  /** No stage between the sections and the load cases writes a load-case name. */
  lemma NoLoadCaseNameContributed(sa: Term, sections: seq<Section>, objects: seq<Object>, asm: Assembly,
                                  bcs: seq<BoundaryCondition>, t: Triple)
    requires t.p == Prop(Sso.LoadCaseName)
    ensures !FromObjects(t, sa, sections, objects)
    ensures !AssemblyContributes(t, sa, objects, asm)
    ensures !FromBoundaryConditions(t, sa, asm.instances, bcs, 1)
  {
    NoLoadCaseNameFromObjects(sa, sections, objects, t);
    NoLoadCaseNameFromAssembly(sa, objects, asm, t);
    NoLoadCaseNameFromConditions(sa, asm.instances, bcs, t);
  }

  lemma NoLoadCaseNameFromObjects(sa: Term, sections: seq<Section>, objects: seq<Object>, t: Triple)
    requires t.p == Prop(Sso.LoadCaseName)
    ensures !FromObjects(t, sa, sections, objects)
  {
    if FromObjects(t, sa, sections, objects) {
      FromObjectsPreds(t, sa, sections, objects);
      assert false;
    }
  }

  lemma NoLoadCaseNameFromAssembly(sa: Term, objects: seq<Object>, asm: Assembly, t: Triple)
    requires t.p == Prop(Sso.LoadCaseName)
    ensures !AssemblyContributes(t, sa, objects, asm)
  {
    if AssemblyContributes(t, sa, objects, asm) {
      AssemblyContributesPreds(t, sa, objects, asm);
      assert false;
    }
  }

  lemma NoLoadCaseNameFromConditions(sa: Term, instances: seq<Instance>, bcs: seq<BoundaryCondition>, t: Triple)
    requires t.p == Prop(Sso.LoadCaseName)
    ensures !FromBoundaryConditions(t, sa, instances, bcs, 1)
  {
    if FromBoundaryConditions(t, sa, instances, bcs, 1) {
      FromBoundaryConditionsPreds(t, sa, instances, bcs, 1);
      assert false;
    }
  }

  /** The conversion (lines 56-232) produces a graph exactly when every reference
      it resolves finds its node; otherwise it stops on an unresolved one. */
  lemma BuildSucceedsIff(doc: Osam)
    ensures Build(doc).Success? <==> Converts(doc)
    ensures Build(doc).Failure? ==> Build(doc).error.UnresolvedReference?
  {
    AfterLoadCasesFacts(doc);
    AfterBoundaryConditionsFacts(doc);
    var r0 := AfterLoadCases(doc);
    if r0.Success? {
      var g := r0.value;
      var instances := doc.assembly.instances;
      LoadsStageOutcome(g, ModelNode(doc), instances, doc.loads, 1);
      assert Build(doc) == LoadsStage(g, ModelNode(doc), instances, doc.loads, 1);
      forall i | 0 <= i < |doc.loads| ensures LoadLinkable(g, instances, doc.loads[i]) <==> LoadConverts(doc, doc.loads[i]) {
        AfterLoadCasesName(doc, doc.loads[i].caseName);
      }
    }
  }

  /** A converted graph keeps every name triple keyed, and holds the load-case stage's
      graph plus the numbered loads' contributions. */
  lemma BuildFacts(doc: Osam)
    requires Build(doc).Success?
    ensures AfterLoadCases(doc).Success?
    ensures AllKeyed(Build(doc).value)
    ensures forall t :: t in Build(doc).value <==>
              t in AfterLoadCases(doc).value || FromLoads(t, ModelNode(doc), doc.assembly.instances, doc.loads, 1)
  {
    AfterLoadCasesFacts(doc);
    var g := AfterLoadCases(doc).value;
    LoadsStageOutcome(g, ModelNode(doc), doc.assembly.instances, doc.loads, 1);
    GrowsKeepsKeyed(g, Build(doc).value, LoadProps);
  }

  // ---------------------------------------------------------------------------
  // The converted graph as a union of contributions

  /** `t` is contributed by the header or by some record of the document, in the
      stage that handles it. */
  predicate Contributes(doc: Osam, t: Triple) {
    var sa := ModelNode(doc);
    || t in RootTriples(doc)
    || FromMaterials(t, sa, doc.materials)
    || FromSections(t, sa, doc.sections)
    || FromObjects(t, sa, doc.sections, doc.objects)
    || AssemblyContributes(t, sa, doc.objects, doc.assembly)
    || FromBoundaryConditions(t, sa, doc.assembly.instances, doc.bc, 1)
    || FromLoadCases(t, sa, doc.loadCases)
    || FromLoads(t, sa, doc.assembly.instances, doc.loads, 1)
  }

  /** A converted graph holds exactly the contributed triples: nothing is lost, and
      nothing else is added. */
  lemma BuildContents(doc: Osam)
    requires Build(doc).Success?
    ensures forall t :: t in Build(doc).value <==> Contributes(doc, t)
  {
    BuildFacts(doc);
    MaterialsStageContents(RootTriples(doc), ModelNode(doc), doc.materials);
    SectionsStageContents(AfterMaterials(doc), ModelNode(doc), doc.sections);
    AfterLoadCasesFacts(doc);
    AfterBoundaryConditionsFacts(doc);
    AfterAssemblyFacts(doc);
    AfterObjectsFacts(doc);
  }


  // ---------------------------------------------------------------------------
  // The predicates each kind of record contributes

  lemma FromElementsPreds(t: Triple, mesh: Term, sections: seq<Section>, es: seq<Element>)
    requires FromElements(t, mesh, sections, es)
    ensures t.p in ElementProps
  {
    var j :| 0 <= j < |es| && ElementContributes(t, mesh, sections, es[j]);
  }

  lemma FromObjectsPreds(t: Triple, sa: Term, sections: seq<Section>, os: seq<Object>)
    requires FromObjects(t, sa, sections, os)
    ensures t.p in ObjectProps
  {
    var i :| 0 <= i < |os| && ObjectContributes(t, sa, sections, os[i]);
    if FromElements(t, MeshNode(os[i].name), sections, os[i].mesh.elements) {
      FromElementsPreds(t, MeshNode(os[i].name), sections, os[i].mesh.elements);
    }
  }

  lemma AssemblyContributesPreds(t: Triple, sa: Term, objects: seq<Object>, asm: Assembly)
    requires AssemblyContributes(t, sa, objects, asm)
    ensures t.p in AssemblyProps
  {
    if FromInstances(t, Inst(asm.name), objects, asm.instances) {
      var i :| 0 <= i < |asm.instances| && InstanceContributes(t, Inst(asm.name), objects, asm.instances[i]);
    }
  }

  lemma {:induction false} FromBoundaryConditionsPreds(t: Triple, sa: Term, instances: seq<Instance>,
                                                       bcs: seq<BoundaryCondition>, counter: int)
    requires FromBoundaryConditions(t, sa, instances, bcs, counter)
    ensures t.p in BoundaryConditionProps
    decreases |bcs|
  {
    if !BoundaryConditionContributes(t, sa, instances, bcs[0], counter) {
      FromBoundaryConditionsPreds(t, sa, instances, bcs[1..], counter + 1);
    }
  }

  lemma {:induction false} FromLoadsPreds(t: Triple, sa: Term, instances: seq<Instance>, loads: seq<Load>, counter: int)
    requires FromLoads(t, sa, instances, loads, counter)
    ensures t.p in LoadProps
    decreases |loads|
  {
    if !LoadContributes(t, sa, instances, loads[0], counter) {
      FromLoadsPreds(t, sa, instances, loads[1..], counter + 1);
    }
  }
}
