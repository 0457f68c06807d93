/** The document-to-graph conversion: one function per stage of the script, each
    taking the graph built so far and returning it extended, composed in the
    script's order. A stage that writes a triple whose subject or object is a
    failed name lookup stops the build with the error that lookup produced. */
module Builder {
  import opened Wrappers
  import opened Document
  import opened Rdf
  import opened Resolver
  import Sso
  import Decimal

  // ---------------------------------------------------------------------------
  // Node names

  /** The root model node, named after the document. */
  function ModelNode(doc: Osam): Term {
    Inst(doc.name)
  }

  function MeshNode(objectName: string): Term {
    Inst(objectName + "_Mesh")
  }

  function ElementNode(id: int): Term {
    Inst("Element_" + Decimal.IntDecimal(id))
  }

  /** The node of the boundary condition numbered `k`: `bc_` followed by the decimal number. */
  function BoundaryConditionNode(k: int): Term {
    Inst("bc_" + Decimal.IntDecimal(k))
  }

  /** The node of the load numbered `k`: `load_` followed by the decimal number. */
  function LoadNode(k: int): Term {
    Inst("load_" + Decimal.IntDecimal(k))
  }

  // ---------------------------------------------------------------------------
  // The predicates each stage writes

  const RootProps: set<Term> := {RdfType, Prop(Sso.Name), Prop(Sso.Id), Prop(Sso.AsOsamJson)}
  const MaterialProps: set<Term> :=
    {RdfType, Prop(Sso.MaterialName), Prop(Sso.HasMaterial), Prop(Sso.Elastic), Prop(Sso.Plastic)}
  const SectionProps: set<Term> :=
    {RdfType, Prop(Sso.SectionName), Prop(Sso.SectionType), Prop(Sso.HasSection)}
  const ElementProps: set<Term> :=
    {RdfType, Prop(Sso.NodeCount), Prop(Sso.FaceCount), Prop(Sso.Dofs), Prop(Sso.HasElement),
     Prop(Sso.ElementSection), Prop(Sso.ElementMaterial)}
  const ObjectProps: set<Term> :=
    ElementProps + {Prop(Sso.ObjectName), Prop(Sso.HasObject), Prop(Sso.Nodes), Prop(Sso.HasMesh)}
  const AssemblyProps: set<Term> :=
    {RdfType, Prop(Sso.AssemblyName), Prop(Sso.HasAssembly), Prop(Sso.InstanceName),
     Prop(Sso.HasInstance), Prop(Sso.ReferencedObject)}
  const BoundaryConditionProps: set<Term> := {RdfType, Prop(Sso.HasBoundaryCondition), Prop(Sso.AppliedTo)}
  const LoadCaseProps: set<Term> :=
    {RdfType, Prop(Sso.LoadCaseName), Prop(Sso.LoadCaseType), Prop(Sso.HasLoadCase)}
  const LoadProps: set<Term> := {RdfType, Prop(Sso.LoadType), Prop(Sso.HasLoad), Prop(Sso.AppliedTo)}

  // ---------------------------------------------------------------------------
  // Ontology header and root model node (OSAMtoSSO.py:57-65)

  function RootTriples(doc: Osam): (g: Graph)
    ensures AllKeyed(g) && Only(g, RootProps)
  {
    var sa := ModelNode(doc);
    { Triple(SsoOntology, RdfType, OwlOntology),
      Triple(sa, RdfType, Class(Sso.StructuralAnalysisModel)),
      Triple(sa, Prop(Sso.Name), Str(doc.name)),
      Triple(sa, Prop(Sso.Id), Str(doc.id)),
      Triple(sa, Prop(Sso.AsOsamJson), Str("OSAM-model-uri")) }
  }

  // ---------------------------------------------------------------------------
  // Materials (OSAMtoSSO.py:68-81)

  /** The triples one material contributes; a flag is false exactly when its field is null. */
  function MaterialTriples(sa: Term, m: Material): (r: Graph)
    ensures Writes(r, MaterialProps)
  {
    var node := Inst(m.name);
    { Triple(node, RdfType, Class(Sso.Material)),
      Triple(node, Prop(Sso.MaterialName), Str(m.name)),
      Triple(sa, Prop(Sso.HasMaterial), node),
      Triple(node, Prop(Sso.Elastic), Bool(!m.elastic.None?)),
      Triple(node, Prop(Sso.Plastic), Bool(!m.plastic.None?)) }
  }

  predicate FromMaterials(t: Triple, sa: Term, ms: seq<Material>) {
    exists i :: 0 <= i < |ms| && t in MaterialTriples(sa, ms[i])
  }

  function MaterialsStage(g: Graph, sa: Term, ms: seq<Material>): (r: Graph)
    ensures Grows(g, r, MaterialProps)
    decreases |ms|
  {
    if |ms| == 0 then g
    else MaterialsStage(g + MaterialTriples(sa, ms[0]), sa, ms[1..])
  }

  // ---------------------------------------------------------------------------
  // Sections (OSAMtoSSO.py:84-92)

  function SectionTriples(sa: Term, s: Section): (r: Graph)
    ensures Writes(r, SectionProps)
  {
    var node := Inst(s.name);
    { Triple(node, RdfType, Class(Sso.Section)),
      Triple(node, Prop(Sso.SectionName), Str(s.name)),
      Triple(node, Prop(Sso.SectionType), Str(s.sectionType)),
      Triple(sa, Prop(Sso.HasSection), node) }
  }

  predicate FromSections(t: Triple, sa: Term, ss: seq<Section>) {
    exists i :: 0 <= i < |ss| && t in SectionTriples(sa, ss[i])
  }

  function SectionsStage(g: Graph, sa: Term, ss: seq<Section>): (r: Graph)
    ensures Grows(g, r, SectionProps)
    decreases |ss|
  {
    if |ss| == 0 then g
    else SectionsStage(g + SectionTriples(sa, ss[0]), sa, ss[1..])
  }

  // ---------------------------------------------------------------------------
  // Objects, meshes and elements (OSAMtoSSO.py:95-147)

  const ElementKinds: set<string> := {"SHELL", "BEAM", "SOLID", "MEMBRANE", "TRUSS"}

  /** The element kind a subclass of SSO.Element stands for. */
  function SubtypeKind(c: Sso.Class): Option<string> {
    match c
    case ShellElement => Some("SHELL")
    case BeamElement => Some("BEAM")
    case SolidElement => Some("SOLID")
    case MembraneElement => Some("MEMBRANE")
    case TrussElement => Some("TRUSS")
    case _ => None
  }

  /** The extra class of an element of the given kind: one of five, or none. */
  function ElementSubtype(kind: string): (c: Option<Sso.Class>)
    ensures c.Some? <==> kind in ElementKinds
    ensures c.Some? ==> c.value != Sso.Element && SubtypeKind(c.value) == Some(kind)
  {
    if kind == "SHELL" then Some(Sso.ShellElement)
    else if kind == "BEAM" then Some(Sso.BeamElement)
    else if kind == "SOLID" then Some(Sso.SolidElement)
    else if kind == "MEMBRANE" then Some(Sso.MembraneElement)
    else if kind == "TRUSS" then Some(Sso.TrussElement)
    else None
  }

  function SubtypeTriples(node: Term, kind: string): Graph {
    match ElementSubtype(kind)
    case Some(c) => {Triple(node, RdfType, Class(c))}
    case None => {}
  }

  /** What an element contributes before its section and material are resolved. */
  function ElementTriples(mesh: Term, e: Element): (r: Graph)
    ensures Writes(r, ElementProps)
  {
    var node := ElementNode(e.id);
    {Triple(node, RdfType, Class(Sso.Element))}
    + SubtypeTriples(node, e.kind)
    + { Triple(node, Prop(Sso.NodeCount), Int(e.nodeCount)),
        Triple(node, Prop(Sso.FaceCount), Int(e.faceCount)),
        Triple(node, Prop(Sso.Dofs), Int(|e.dofs|)),
        Triple(mesh, Prop(Sso.HasElement), node) }
  }

  /** The section name an element's section id resolves to (lines 133-137). */
  function ElementSectionName(sections: seq<Section>, e: Element): Option<string> {
    ScanIds(SectionKeys(sections), e.section, None)
  }

  /** Adds the edge `at via node`, where `node` is the outcome of a name lookup. */
  function AddReference(g: Graph, at: Term, via: Sso.Property, l: Lookup): (r: Result<Graph, BuildError>)
    ensures r.Success? <==> l.Found?
    ensures r.Success? ==> r.value == g + {Triple(at, Prop(via), l.node)}
    ensures l.NotFound? ==> r == Failure(UnresolvedReference(at, via))
    ensures l.Ambiguous? ==> r == Failure(AmbiguousReference(at, via, l.nodes))
    ensures r.Success? && via !in NameProps ==> Grows(g, r.value, {Prop(via)})
  {
    var node :- Resolve(l, at, via);
    Success(g + {Triple(at, Prop(via), node)})
  }

  /** Lines 138-147: look up the section node by the section name found for the
      element (lines 133-137) and the material node by the element's material name,
      adding `element_section` and `element_material`. */
  function ElementReferences(g: Graph, node: Term, sectionName: Option<string>, material: string)
    : (r: Result<Graph, BuildError>)
    ensures r.Success? ==> Grows(g, r.value, {Prop(Sso.ElementSection), Prop(Sso.ElementMaterial)})
  {
    var g1 :- AddReference(g, node, Sso.ElementSection, FindByName(g, Prop(Sso.SectionName), sectionName));
    var r := AddReference(g1, node, Sso.ElementMaterial, FindByName(g1, Prop(Sso.MaterialName), Some(material)));
    if r.Success? then
      GrowsTrans(g, g1, r.value, {Prop(Sso.ElementSection)}, {Prop(Sso.ElementMaterial)});
      r
    else r
  }

  function ElementStep(g: Graph, sections: seq<Section>, mesh: Term, e: Element): (r: Result<Graph, BuildError>)
    ensures r.Success? ==> Grows(g, r.value, ElementProps)
  {
    AddGrows(g, ElementTriples(mesh, e), ElementProps);
    ElementReferences(g + ElementTriples(mesh, e), ElementNode(e.id), ElementSectionName(sections, e), e.material)
  }

  function ElementsStage(g: Graph, sections: seq<Section>, mesh: Term, es: seq<Element>): (r: Result<Graph, BuildError>)
    ensures r.Success? ==> Grows(g, r.value, ElementProps)
    decreases |es|
  {
    if |es| == 0 then Success(g)
    else
      var g1 :- ElementStep(g, sections, mesh, es[0]);
      ElementsStage(g1, sections, mesh, es[1..])
  }

  /** What an object and its mesh contribute (lines 97-108). */
  function ObjectTriples(sa: Term, o: Object): (r: Graph)
    ensures Writes(r, ObjectProps)
  {
    var node := Inst(o.name);
    var mesh := MeshNode(o.name);
    { Triple(node, RdfType, Class(Sso.Object)),
      Triple(node, Prop(Sso.ObjectName), Str(o.name)),
      Triple(sa, Prop(Sso.HasObject), node),
      Triple(mesh, RdfType, Class(Sso.Mesh)),
      Triple(mesh, Prop(Sso.Nodes), Int(o.mesh.nodeCount)),
      Triple(node, Prop(Sso.HasMesh), mesh) }
  }

  function ObjectStep(g: Graph, sa: Term, sections: seq<Section>, o: Object): (r: Result<Graph, BuildError>)
    ensures r.Success? ==> Grows(g, r.value, ObjectProps)
  {
    ElementsStage(g + ObjectTriples(sa, o), sections, MeshNode(o.name), o.mesh.elements)
  }

  function ObjectsStage(g: Graph, sa: Term, sections: seq<Section>, os: seq<Object>): (r: Result<Graph, BuildError>)
    ensures r.Success? ==> Grows(g, r.value, ObjectProps)
    decreases |os|
  {
    if |os| == 0 then Success(g)
    else
      var g1 :- ObjectStep(g, sa, sections, os[0]);
      ObjectsStage(g1, sa, sections, os[1..])
  }

  // ---------------------------------------------------------------------------
  // Assembly and instances (OSAMtoSSO.py:150-173)

  function AssemblyTriples(sa: Term, asm: Assembly): (r: Graph)
    ensures Writes(r, AssemblyProps)
  {
    var node := Inst(asm.name);
    { Triple(node, RdfType, Class(Sso.Assembly)),
      Triple(node, Prop(Sso.AssemblyName), Str(asm.name)),
      Triple(sa, Prop(Sso.HasAssembly), node) }
  }

  function InstanceTriples(asmNode: Term, inst: Instance): (r: Graph)
    ensures Writes(r, AssemblyProps)
  {
    var node := Inst(inst.name);
    { Triple(node, RdfType, Class(Sso.Instance)),
      Triple(node, Prop(Sso.InstanceName), Str(inst.name)),
      Triple(asmNode, Prop(Sso.HasInstance), node) }
  }

  /** Lines 166-173 as indented in the script: the name lookup and the
      `referenced_object` add run once per object, with the name matched so far. */
  function ReferencedObjectLoop(g: Graph, node: Term, objs: seq<Key>, ref: int, carried: Option<string>)
    : (r: Result<Graph, BuildError>)
    ensures r.Success? ==> Grows(g, r.value, {Prop(Sso.ReferencedObject)})
    ensures r.Success? ==> forall t :: t in r.value && t !in g ==> t.s == node
    decreases |objs|
  {
    if |objs| == 0 then Success(g)
    else
      var name := Pick(objs[0], ref, carried);
      var target :- Resolve(FindByName(g, Prop(Sso.ObjectName), name), node, Sso.ReferencedObject);
      ReferencedObjectLoop(g + {Triple(node, Prop(Sso.ReferencedObject), target)}, node, objs[1..], ref, name)
  }

  function InstanceStep(g: Graph, asmNode: Term, objects: seq<Object>, inst: Instance): (r: Result<Graph, BuildError>)
    ensures r.Success? ==> Grows(g, r.value, AssemblyProps)
  {
    ReferencedObjectLoop(g + InstanceTriples(asmNode, inst), Inst(inst.name), ObjectKeys(objects), inst.referencedObject, None)
  }

  function InstancesStage(g: Graph, asmNode: Term, objects: seq<Object>, insts: seq<Instance>)
    : (r: Result<Graph, BuildError>)
    ensures r.Success? ==> Grows(g, r.value, AssemblyProps)
    decreases |insts|
  {
    if |insts| == 0 then Success(g)
    else
      var g1 :- InstanceStep(g, asmNode, objects, insts[0]);
      InstancesStage(g1, asmNode, objects, insts[1..])
  }

  function AssemblyStage(g: Graph, sa: Term, objects: seq<Object>, asm: Assembly): (r: Result<Graph, BuildError>)
    ensures r.Success? ==> Grows(g, r.value, AssemblyProps)
  {
    InstancesStage(g + AssemblyTriples(sa, asm), Inst(asm.name), objects, asm.instances)
  }

  // ---------------------------------------------------------------------------
  // Boundary conditions (OSAMtoSSO.py:176-193)

  /** Lines 190-193 (and 229-232 for loads): for each name the id scan produced
      (see `RefNames`), look up the instance node and add an `applied_to` edge. */
  function AppliedToLoop(g: Graph, node: Term, names: seq<Option<string>>): (r: Result<Graph, BuildError>)
    ensures r.Success? ==> Grows(g, r.value, {Prop(Sso.AppliedTo)})
    ensures r.Success? ==> forall t :: t in r.value && t !in g ==> t.s == node
    decreases |names|
  {
    if |names| == 0 then Success(g)
    else
      var g1 :- AddReference(g, node, Sso.AppliedTo, FindByName(g, Prop(Sso.InstanceName), names[0]));
      AppliedToLoop(g1, node, names[1..])
  }

  /** The names looked up for a list of referenced instance ids (lines 184-189, 223-228). */
  function InstanceRefNames(instances: seq<Instance>, refs: seq<int>): seq<Option<string>> {
    RefNames(InstanceKeys(instances), refs, None)
  }

  function BoundaryConditionTriples(sa: Term, node: Term): (r: Graph)
    ensures Writes(r, BoundaryConditionProps)
  {
    { Triple(node, RdfType, Class(Sso.BoundaryCondition)),
      Triple(sa, Prop(Sso.HasBoundaryCondition), node) }
  }

  /** `counter` is `bcCounter`: the number given to the first remaining condition. */
  function BoundaryConditionsStage(g: Graph, sa: Term, instances: seq<Instance>, bcs: seq<BoundaryCondition>, counter: int)
    : (r: Result<Graph, BuildError>)
    ensures r.Success? ==> Grows(g, r.value, BoundaryConditionProps)
    decreases |bcs|
  {
    if |bcs| == 0 then Success(g)
    else
      var node := BoundaryConditionNode(counter);
      var g1 := g + BoundaryConditionTriples(sa, node);
      var g2 :- AppliedToLoop(g1, node, InstanceRefNames(instances, bcs[0].instances));
      BoundaryConditionsStage(g2, sa, instances, bcs[1..], counter + 1)
  }

  // ---------------------------------------------------------------------------
  // Load cases (OSAMtoSSO.py:196-204)

  function LoadCaseTriples(sa: Term, lc: LoadCase): (r: Graph)
    ensures Writes(r, LoadCaseProps)
  {
    var node := Inst(lc.name);
    { Triple(node, RdfType, Class(Sso.LoadCase)),
      Triple(node, Prop(Sso.LoadCaseName), Str(lc.name)),
      Triple(node, Prop(Sso.LoadCaseType), Str(lc.kind)),
      Triple(sa, Prop(Sso.HasLoadCase), node) }
  }

  predicate FromLoadCases(t: Triple, sa: Term, lcs: seq<LoadCase>) {
    exists i :: 0 <= i < |lcs| && t in LoadCaseTriples(sa, lcs[i])
  }

  function LoadCasesStage(g: Graph, sa: Term, lcs: seq<LoadCase>): (r: Graph)
    ensures Grows(g, r, LoadCaseProps)
    decreases |lcs|
  {
    if |lcs| == 0 then g
    else LoadCasesStage(g + LoadCaseTriples(sa, lcs[0]), sa, lcs[1..])
  }

  // ---------------------------------------------------------------------------
  // Loads (OSAMtoSSO.py:207-232)

  function LoadTriples(sa: Term, node: Term, load: Load): (r: Graph)
    ensures Writes(r, LoadProps)
  {
    { Triple(node, RdfType, Class(Sso.Load)),
      Triple(node, Prop(Sso.LoadType), Str(load.kind)),
      Triple(sa, Prop(Sso.HasLoad), node) }
  }

  function LoadStep(g: Graph, sa: Term, instances: seq<Instance>, load: Load, counter: int)
    : (r: Result<Graph, BuildError>)
    ensures r.Success? ==> Grows(g, r.value, LoadProps)
  {
    var node := LoadNode(counter);
    var g1 := g + LoadTriples(sa, node, load);
    var caseNode :- Resolve(FindByName(g1, Prop(Sso.LoadCaseName), Some(load.caseName)), node, Sso.HasLoad);
    var g2 := g1 + {Triple(caseNode, Prop(Sso.HasLoad), node)};
    AppliedToLoop(g2, node, InstanceRefNames(instances, load.instances))
  }

  /** `counter` is `loadsCounter`: the number given to the first remaining load. */
  function LoadsStage(g: Graph, sa: Term, instances: seq<Instance>, loads: seq<Load>, counter: int)
    : (r: Result<Graph, BuildError>)
    ensures r.Success? ==> Grows(g, r.value, LoadProps)
    decreases |loads|
  {
    if |loads| == 0 then Success(g)
    else
      var g1 :- LoadStep(g, sa, instances, loads[0], counter);
      LoadsStage(g1, sa, instances, loads[1..], counter + 1)
  }

  // ---------------------------------------------------------------------------
  // The whole conversion, stage by stage in the script's order

  function AfterMaterials(doc: Osam): Graph {
    MaterialsStage(RootTriples(doc), ModelNode(doc), doc.materials)
  }

  function AfterSections(doc: Osam): Graph {
    SectionsStage(AfterMaterials(doc), ModelNode(doc), doc.sections)
  }

  function AfterObjects(doc: Osam): Result<Graph, BuildError> {
    ObjectsStage(AfterSections(doc), ModelNode(doc), doc.sections, doc.objects)
  }

  function AfterAssembly(doc: Osam): Result<Graph, BuildError> {
    var g :- AfterObjects(doc);
    AssemblyStage(g, ModelNode(doc), doc.objects, doc.assembly)
  }

  function AfterBoundaryConditions(doc: Osam): Result<Graph, BuildError> {
    var g :- AfterAssembly(doc);
    BoundaryConditionsStage(g, ModelNode(doc), doc.assembly.instances, doc.bc, 1)
  }

  function AfterLoadCases(doc: Osam): Result<Graph, BuildError> {
    var g :- AfterBoundaryConditions(doc);
    Success(LoadCasesStage(g, ModelNode(doc), doc.loadCases))
  }

  /** The graph the script serializes, or the first failed reference. */
  function Build(doc: Osam): Result<Graph, BuildError> {
    var g :- AfterLoadCases(doc);
    LoadsStage(g, ModelNode(doc), doc.assembly.instances, doc.loads, 1)
  }
}
