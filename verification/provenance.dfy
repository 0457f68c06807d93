/** Which stage can have written a triple. Each stage writes its own predicates
    and types its nodes with its own classes, so the predicate (and, for
    `rdf:type`, the class) of a triple in the converted graph names the stage and
    the kind of record it came from. */
module Provenance {
  import opened Wrappers
  import opened Document
  import opened Rdf
  import opened Resolver
  import opened Builder
  import opened Stages
  import opened Conversion
  import Sso

  /** The element classes: `Element` and its five subclasses. */
  const ElementClasses: set<Sso.Class> :=
    {Sso.Element, Sso.ShellElement, Sso.BeamElement, Sso.SolidElement, Sso.MembraneElement, Sso.TrussElement}

  /** One triple of a converted graph: it is there exactly when some record contributes it. */
  lemma InGraph(doc: Osam, g: Graph, t: Triple)
    requires Build(doc) == Success(g)
    ensures t in g <==> Contributes(doc, t)
  {
    BuildContents(doc);
  }

  // ---------------------------------------------------------------------------
  // What each stage can write

  predicate RootMay(t: Triple) {
    t.p in RootProps && (t.p == RdfType ==> t.o == OwlOntology || t.o == Class(Sso.StructuralAnalysisModel))
  }

  predicate MaterialsMay(t: Triple) {
    t.p in MaterialProps && (t.p == RdfType ==> t.o == Class(Sso.Material))
  }

  predicate SectionsMay(t: Triple) {
    t.p in SectionProps && (t.p == RdfType ==> t.o == Class(Sso.Section))
  }

  predicate ObjectsMay(t: Triple) {
    && t.p in ObjectProps
    && (t.p == RdfType ==> t.o == Class(Sso.Object) || t.o == Class(Sso.Mesh) || (t.o.Class? && t.o.c in ElementClasses))
  }

  predicate AssemblyMay(t: Triple) {
    t.p in AssemblyProps && (t.p == RdfType ==> t.o == Class(Sso.Assembly) || t.o == Class(Sso.Instance))
  }

  predicate BoundaryConditionsMay(t: Triple) {
    t.p in BoundaryConditionProps && (t.p == RdfType ==> t.o == Class(Sso.BoundaryCondition))
  }

  predicate LoadCasesMay(t: Triple) {
    t.p in LoadCaseProps && (t.p == RdfType ==> t.o == Class(Sso.LoadCase))
  }

  predicate LoadsMay(t: Triple) {
    t.p in LoadProps && (t.p == RdfType ==> t.o == Class(Sso.Load))
  }

  lemma RootWrites(doc: Osam, t: Triple)
    ensures t in RootTriples(doc) ==> RootMay(t)
  {
  }

  lemma MaterialsWrite(t: Triple, sa: Term, ms: seq<Material>)
    ensures FromMaterials(t, sa, ms) ==> MaterialsMay(t)
  {
    if FromMaterials(t, sa, ms) {
      var i :| 0 <= i < |ms| && t in MaterialTriples(sa, ms[i]);
    }
  }

  lemma SectionsWrite(t: Triple, sa: Term, ss: seq<Section>)
    ensures FromSections(t, sa, ss) ==> SectionsMay(t)
  {
    if FromSections(t, sa, ss) {
      var i :| 0 <= i < |ss| && t in SectionTriples(sa, ss[i]);
    }
  }

  lemma ObjectsWrite(t: Triple, sa: Term, sections: seq<Section>, os: seq<Object>)
    ensures FromObjects(t, sa, sections, os) ==> ObjectsMay(t)
  {
    if FromObjects(t, sa, sections, os) {
      FromObjectsPreds(t, sa, sections, os);
      if t.p == RdfType {
        ObjectTypes(t, sa, sections, os);
      }
    }
  }

  lemma AssemblyWrites(t: Triple, sa: Term, objects: seq<Object>, asm: Assembly)
    ensures AssemblyContributes(t, sa, objects, asm) ==> AssemblyMay(t)
  {
    if AssemblyContributes(t, sa, objects, asm) {
      AssemblyContributesPreds(t, sa, objects, asm);
      if t.p == RdfType {
        AssemblyTypes(t, sa, objects, asm);
      }
    }
  }

  lemma BoundaryConditionsWrite(t: Triple, sa: Term, instances: seq<Instance>, bcs: seq<BoundaryCondition>)
    ensures FromBoundaryConditions(t, sa, instances, bcs, 1) ==> BoundaryConditionsMay(t)
  {
    if FromBoundaryConditions(t, sa, instances, bcs, 1) {
      FromBoundaryConditionsPreds(t, sa, instances, bcs, 1);
      if t.p == RdfType {
        BoundaryConditionTypes(t, sa, instances, bcs, 1);
      }
    }
  }

  lemma LoadCasesWrite(t: Triple, sa: Term, lcs: seq<LoadCase>)
    ensures FromLoadCases(t, sa, lcs) ==> LoadCasesMay(t)
  {
    if FromLoadCases(t, sa, lcs) {
      var i :| 0 <= i < |lcs| && t in LoadCaseTriples(sa, lcs[i]);
    }
  }

  lemma LoadsWrite(t: Triple, sa: Term, instances: seq<Instance>, loads: seq<Load>)
    ensures FromLoads(t, sa, instances, loads, 1) ==> LoadsMay(t)
  {
    if FromLoads(t, sa, instances, loads, 1) {
      FromLoadsPreds(t, sa, instances, loads, 1);
      if t.p == RdfType {
        LoadTypes(t, sa, instances, loads, 1);
      }
    }
  }

  // ---------------------------------------------------------------------------
  // The classes of the object, assembly, boundary-condition and load stages

  lemma ObjectTypes(t: Triple, sa: Term, sections: seq<Section>, os: seq<Object>)
    requires t.p == RdfType && FromObjects(t, sa, sections, os)
    ensures t.o == Class(Sso.Object) || t.o == Class(Sso.Mesh) || (t.o.Class? && t.o.c in ElementClasses)
  {
    var i :| 0 <= i < |os| && ObjectContributes(t, sa, sections, os[i]);
    var o := os[i];
    if t in ObjectTriples(sa, o) {
      ObjectTriplesTypes(t, sa, o);
    } else {
      var j :| 0 <= j < |o.mesh.elements| && ElementContributes(t, MeshNode(o.name), sections, o.mesh.elements[j]);
      ElementTypes(MeshNode(o.name), sections, o.mesh.elements[j], t);
    }
  }

  lemma ObjectTriplesTypes(t: Triple, sa: Term, o: Object)
    requires t.p == RdfType && t in ObjectTriples(sa, o)
    ensures t.o == Class(Sso.Object) || t.o == Class(Sso.Mesh)
  {
  }

  lemma ElementTypes(mesh: Term, sections: seq<Section>, e: Element, t: Triple)
    requires t.p == RdfType && ElementContributes(t, mesh, sections, e)
    ensures t.o.Class? && t.o.c in ElementClasses
  {
    ElementTypesOne(mesh, sections, e, t);
  }

  lemma AssemblyTypes(t: Triple, sa: Term, objects: seq<Object>, asm: Assembly)
    requires t.p == RdfType && AssemblyContributes(t, sa, objects, asm)
    ensures t.o == Class(Sso.Assembly) || t.o == Class(Sso.Instance)
  {
    if t in AssemblyTriples(sa, asm) {
      AssemblyTriplesTypes(t, sa, asm);
    } else {
      var i :| 0 <= i < |asm.instances| && InstanceContributes(t, Inst(asm.name), objects, asm.instances[i]);
    }
  }

  lemma AssemblyTriplesTypes(t: Triple, sa: Term, asm: Assembly)
    requires t.p == RdfType && t in AssemblyTriples(sa, asm)
    ensures t.o == Class(Sso.Assembly)
  {
  }

  lemma {:induction false} BoundaryConditionTypes(t: Triple, sa: Term, instances: seq<Instance>,
                                                  bcs: seq<BoundaryCondition>, counter: int)
    requires t.p == RdfType && FromBoundaryConditions(t, sa, instances, bcs, counter)
    ensures t.o == Class(Sso.BoundaryCondition)
    decreases |bcs|
  {
    if !BoundaryConditionContributes(t, sa, instances, bcs[0], counter) {
      BoundaryConditionTypes(t, sa, instances, bcs[1..], counter + 1);
    }
  }

  lemma {:induction false} LoadTypes(t: Triple, sa: Term, instances: seq<Instance>, loads: seq<Load>, counter: int)
    requires t.p == RdfType && FromLoads(t, sa, instances, loads, counter)
    ensures t.o == Class(Sso.Load)
    decreases |loads|
  {
    if !LoadContributes(t, sa, instances, loads[0], counter) {
      LoadTypes(t, sa, instances, loads[1..], counter + 1);
    }
  }

  // ---------------------------------------------------------------------------
  // One element

  /** Everything one element contributes once its section is found. */
  lemma ElementContributesShape(mesh: Term, sections: seq<Section>, e: Element, t: Triple)
    requires ElementSectionName(sections, e).Some?
    ensures ElementContributes(t, mesh, sections, e) <==>
              var node := ElementNode(e.id);
              || t == Triple(node, RdfType, Class(Sso.Element))
              || t in SubtypeTriples(node, e.kind)
              || t == Triple(node, Prop(Sso.NodeCount), Int(e.nodeCount))
              || t == Triple(node, Prop(Sso.FaceCount), Int(e.faceCount))
              || t == Triple(node, Prop(Sso.Dofs), Int(|e.dofs|))
              || t == Triple(mesh, Prop(Sso.HasElement), node)
              || t == Triple(node, Prop(Sso.ElementSection), Inst(ElementSectionName(sections, e).value))
              || t == Triple(node, Prop(Sso.ElementMaterial), Inst(e.material))
  {
  }

  lemma SubtypeTriplesMembers(node: Term, kind: string, t: Triple)
    ensures t in SubtypeTriples(node, kind) <==>
              t.s == node && t.p == RdfType && t.o.Class? && ElementSubtype(kind) == Some(t.o.c)
  {
  }

  /** `SubtypeKind` undoes `ElementSubtype`: the five subclasses and the five kinds
      correspond one to one. */
  lemma SubtypeKindInverse(c: Sso.Class, kind: string)
    ensures ElementSubtype(kind) == Some(c) <==> SubtypeKind(c) == Some(kind)
  {
  }

  /** An element node is typed `Element`, and also by the subclass of its kind when
      the kind is one of the five; by no other class. */
  lemma ElementTypesOne(mesh: Term, sections: seq<Section>, e: Element, t: Triple)
    requires ElementSectionName(sections, e).Some?
    ensures ElementContributes(t, mesh, sections, e) && t.p == RdfType <==>
              && t.p == RdfType && t.s == ElementNode(e.id)
              && (t.o == Class(Sso.Element) || (t.o.Class? && e.kind in ElementKinds && SubtypeKind(t.o.c) == Some(e.kind)))
  {
    ElementContributesShape(mesh, sections, e, t);
    SubtypeTriplesMembers(ElementNode(e.id), e.kind, t);
    if t.o.Class? && e.kind in ElementKinds && SubtypeKind(t.o.c) == Some(e.kind) {
      SubtypeKindInverse(t.o.c, e.kind);
    }
  }

  // ---------------------------------------------------------------------------
  // Ruling stages out

  lemma NotFromRoot(doc: Osam, t: Triple)
    requires !RootMay(t)
    ensures t !in RootTriples(doc)
  {
    RootWrites(doc, t);
  }

  lemma NotFromMaterials(t: Triple, sa: Term, ms: seq<Material>)
    requires !MaterialsMay(t)
    ensures !FromMaterials(t, sa, ms)
  {
    MaterialsWrite(t, sa, ms);
  }

  lemma NotFromSections(t: Triple, sa: Term, ss: seq<Section>)
    requires !SectionsMay(t)
    ensures !FromSections(t, sa, ss)
  {
    SectionsWrite(t, sa, ss);
  }

  lemma NotFromObjects(t: Triple, sa: Term, sections: seq<Section>, os: seq<Object>)
    requires !ObjectsMay(t)
    ensures !FromObjects(t, sa, sections, os)
  {
    ObjectsWrite(t, sa, sections, os);
  }

  lemma NotFromAssembly(t: Triple, sa: Term, objects: seq<Object>, asm: Assembly)
    requires !AssemblyMay(t)
    ensures !AssemblyContributes(t, sa, objects, asm)
  {
    AssemblyWrites(t, sa, objects, asm);
  }

  lemma NotFromBoundaryConditions(t: Triple, sa: Term, instances: seq<Instance>, bcs: seq<BoundaryCondition>)
    requires !BoundaryConditionsMay(t)
    ensures !FromBoundaryConditions(t, sa, instances, bcs, 1)
  {
    BoundaryConditionsWrite(t, sa, instances, bcs);
  }

  lemma NotFromLoadCases(t: Triple, sa: Term, lcs: seq<LoadCase>)
    requires !LoadCasesMay(t)
    ensures !FromLoadCases(t, sa, lcs)
  {
    LoadCasesWrite(t, sa, lcs);
  }

  lemma NotFromLoads(t: Triple, sa: Term, instances: seq<Instance>, loads: seq<Load>)
    requires !LoadsMay(t)
    ensures !FromLoads(t, sa, instances, loads, 1)
  {
    LoadsWrite(t, sa, instances, loads);
  }

  // ---------------------------------------------------------------------------
  // Triples only one stage can write

  lemma OnlyMaterials(doc: Osam, t: Triple)
    requires !RootMay(t) && !SectionsMay(t) && !ObjectsMay(t) && !AssemblyMay(t)
    requires !BoundaryConditionsMay(t) && !LoadCasesMay(t) && !LoadsMay(t)
    ensures Contributes(doc, t) <==> FromMaterials(t, ModelNode(doc), doc.materials)
  {
    var sa := ModelNode(doc);
    NotFromRoot(doc, t);
    NotFromSections(t, sa, doc.sections);
    NotFromObjects(t, sa, doc.sections, doc.objects);
    NotFromAssembly(t, sa, doc.objects, doc.assembly);
    NotFromBoundaryConditions(t, sa, doc.assembly.instances, doc.bc);
    NotFromLoadCases(t, sa, doc.loadCases);
    NotFromLoads(t, sa, doc.assembly.instances, doc.loads);
  }

  lemma OnlySections(doc: Osam, t: Triple)
    requires !RootMay(t) && !MaterialsMay(t) && !ObjectsMay(t) && !AssemblyMay(t)
    requires !BoundaryConditionsMay(t) && !LoadCasesMay(t) && !LoadsMay(t)
    ensures Contributes(doc, t) <==> FromSections(t, ModelNode(doc), doc.sections)
  {
    var sa := ModelNode(doc);
    NotFromRoot(doc, t);
    NotFromMaterials(t, sa, doc.materials);
    NotFromObjects(t, sa, doc.sections, doc.objects);
    NotFromAssembly(t, sa, doc.objects, doc.assembly);
    NotFromBoundaryConditions(t, sa, doc.assembly.instances, doc.bc);
    NotFromLoadCases(t, sa, doc.loadCases);
    NotFromLoads(t, sa, doc.assembly.instances, doc.loads);
  }

  lemma OnlyObjects(doc: Osam, t: Triple)
    requires !RootMay(t) && !MaterialsMay(t) && !SectionsMay(t) && !AssemblyMay(t)
    requires !BoundaryConditionsMay(t) && !LoadCasesMay(t) && !LoadsMay(t)
    ensures Contributes(doc, t) <==> FromObjects(t, ModelNode(doc), doc.sections, doc.objects)
  {
    var sa := ModelNode(doc);
    NotFromRoot(doc, t);
    NotFromMaterials(t, sa, doc.materials);
    NotFromSections(t, sa, doc.sections);
    NotFromAssembly(t, sa, doc.objects, doc.assembly);
    NotFromBoundaryConditions(t, sa, doc.assembly.instances, doc.bc);
    NotFromLoadCases(t, sa, doc.loadCases);
    NotFromLoads(t, sa, doc.assembly.instances, doc.loads);
  }

  lemma OnlyAssembly(doc: Osam, t: Triple)
    requires !RootMay(t) && !MaterialsMay(t) && !SectionsMay(t) && !ObjectsMay(t)
    requires !BoundaryConditionsMay(t) && !LoadCasesMay(t) && !LoadsMay(t)
    ensures Contributes(doc, t) <==> AssemblyContributes(t, ModelNode(doc), doc.objects, doc.assembly)
  {
    var sa := ModelNode(doc);
    NotFromRoot(doc, t);
    NotFromMaterials(t, sa, doc.materials);
    NotFromSections(t, sa, doc.sections);
    NotFromObjects(t, sa, doc.sections, doc.objects);
    NotFromBoundaryConditions(t, sa, doc.assembly.instances, doc.bc);
    NotFromLoadCases(t, sa, doc.loadCases);
    NotFromLoads(t, sa, doc.assembly.instances, doc.loads);
  }

  lemma OnlyBoundaryConditions(doc: Osam, t: Triple)
    requires !RootMay(t) && !MaterialsMay(t) && !SectionsMay(t) && !ObjectsMay(t)
    requires !AssemblyMay(t) && !LoadCasesMay(t) && !LoadsMay(t)
    ensures Contributes(doc, t) <==> FromBoundaryConditions(t, ModelNode(doc), doc.assembly.instances, doc.bc, 1)
  {
    var sa := ModelNode(doc);
    NotFromRoot(doc, t);
    NotFromMaterials(t, sa, doc.materials);
    NotFromSections(t, sa, doc.sections);
    NotFromObjects(t, sa, doc.sections, doc.objects);
    NotFromAssembly(t, sa, doc.objects, doc.assembly);
    NotFromLoadCases(t, sa, doc.loadCases);
    NotFromLoads(t, sa, doc.assembly.instances, doc.loads);
  }

  lemma OnlyLoadCases(doc: Osam, t: Triple)
    requires !RootMay(t) && !MaterialsMay(t) && !SectionsMay(t) && !ObjectsMay(t)
    requires !AssemblyMay(t) && !BoundaryConditionsMay(t) && !LoadsMay(t)
    ensures Contributes(doc, t) <==> FromLoadCases(t, ModelNode(doc), doc.loadCases)
  {
    var sa := ModelNode(doc);
    NotFromRoot(doc, t);
    NotFromMaterials(t, sa, doc.materials);
    NotFromSections(t, sa, doc.sections);
    NotFromObjects(t, sa, doc.sections, doc.objects);
    NotFromAssembly(t, sa, doc.objects, doc.assembly);
    NotFromBoundaryConditions(t, sa, doc.assembly.instances, doc.bc);
    NotFromLoads(t, sa, doc.assembly.instances, doc.loads);
  }

  lemma OnlyLoads(doc: Osam, t: Triple)
    requires !RootMay(t) && !MaterialsMay(t) && !SectionsMay(t) && !ObjectsMay(t)
    requires !AssemblyMay(t) && !BoundaryConditionsMay(t) && !LoadCasesMay(t)
    ensures Contributes(doc, t) <==> FromLoads(t, ModelNode(doc), doc.assembly.instances, doc.loads, 1)
  {
    var sa := ModelNode(doc);
    NotFromRoot(doc, t);
    NotFromMaterials(t, sa, doc.materials);
    NotFromSections(t, sa, doc.sections);
    NotFromObjects(t, sa, doc.sections, doc.objects);
    NotFromAssembly(t, sa, doc.objects, doc.assembly);
    NotFromBoundaryConditions(t, sa, doc.assembly.instances, doc.bc);
    NotFromLoadCases(t, sa, doc.loadCases);
  }

  /** `applied_to` is written by the boundary conditions and the loads only. */
  lemma OnlyConditionsAndLoads(doc: Osam, t: Triple)
    requires !RootMay(t) && !MaterialsMay(t) && !SectionsMay(t) && !ObjectsMay(t)
    requires !AssemblyMay(t) && !LoadCasesMay(t)
    ensures Contributes(doc, t) <==>
              || FromBoundaryConditions(t, ModelNode(doc), doc.assembly.instances, doc.bc, 1)
              || FromLoads(t, ModelNode(doc), doc.assembly.instances, doc.loads, 1)
  {
    var sa := ModelNode(doc);
    NotFromRoot(doc, t);
    NotFromMaterials(t, sa, doc.materials);
    NotFromSections(t, sa, doc.sections);
    NotFromObjects(t, sa, doc.sections, doc.objects);
    NotFromAssembly(t, sa, doc.objects, doc.assembly);
    NotFromLoadCases(t, sa, doc.loadCases);
  }
}
