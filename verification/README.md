# OSAM to SSO conversion, modelled in Dafny

`OSAMtoSSO.py` reads an OSAM structural-analysis document and turns it into an RDF graph
over the SSO structural ontology. The document holds materials, sections, objects with
meshes and elements, an assembly with instances, boundary conditions, load cases and loads.
The body of the script (lines 56-232) is one sequential pass. It adds triples stage by
stage and resolves every cross-reference in two steps:

1. a linear scan over a list of the document maps a numeric id to a name, keeping the last match;
2. a scan over the triples built so far maps the name literal to the node that carries it.

This project models that pass as pure functions over immutable data and proves what the
resulting graph contains.

- `Document` holds the document records. Nullable `elastic`/`plastic` blocks are `Option`s.
- `Sso` is the vocabulary: the 16 classes and 32 properties, as enumerations with their local names.
- `Rdf` holds terms, triples and the graph.
  - A graph is a `set<Triple>`, and `g.add` is set union.
  - Nodes under the instance namespace are `Inst(local)`.
  - Literals carry their XSD type in the constructor: `Str`, `Int` or `Bool`.
  - `FindByName` is the name-literal scan. Its outcome is `Found`, `NotFound` or `Ambiguous`.
- `Decimal` holds the decimal text of integers. It is used in `Element_<id>`, `bc_<k>` and `load_<k>`.
- `Resolver` holds the id-to-name scans.
  - `ScanIds` is the scan over sections (lines 133-137).
  - `RefNames` is the loop over referenced instance ids (lines 184-189 and 223-228). Its name variable is cleared only once, before the loop.
- `Builder` has one function per stage and composes them in the script's order.
  - The stages run `AfterMaterials`, `AfterSections`, `AfterObjects`, `AfterAssembly`, `AfterBoundaryConditions`, `AfterLoadCases`, then `Build`.
  - An `add` whose looked-up node is missing makes the build fail with `UnresolvedReference`.
- `Stages` gives, for each stage, the exact condition under which it succeeds. It also gives the exact set of triples the stage adds.
- `Conversion` gives the condition under which the whole document converts (`Converts`). It also describes the converted graph as the union of what every record contributes (`Contributes`).
- `Provenance` says which stage may write which predicate. From this it proves, for each predicate, the only stage that emits it.
- `Properties` covers materials, elements, meshes, name lookups and the append-only construction.
- `Links` covers instances and their objects, the numbering of boundary conditions and loads, `has_load` and `applied_to`.

Two behaviours of the script are modelled as written.

- **The instance loop (lines 167-173).** The name lookup and the `referenced_object` add sit inside the loop over objects. So the first add happens after only the first object has been compared. An instance therefore converts only when:
  - there are no objects; or
  - its `referenced_object` is the id of the first object.
- **Stale names (lines 185 and 224).** An unmatched instance id after the first one reuses the previous id's name. So only the first referenced id of a condition or load must match an instance.

## Model

| member | source | states |
|---|---|---|
| Builder.RootTriples | OSAMtoSSO.py:57-65 | the ontology header and the model node's triples use only `rdf:type`, `name`, `id` and `as_OSAM-json` |
| Builder.MaterialTriples | OSAMtoSSO.py:69-81 | one material writes only material predicates, and its name triple links the node named after the literal |
| Builder.MaterialsStage | OSAMtoSSO.py:68-81 | the materials loop only adds triples, and only under material predicates |
| Builder.SectionTriples | OSAMtoSSO.py:86-92 | one section writes only section predicates, and its name triple links the node named after the literal |
| Builder.SectionsStage | OSAMtoSSO.py:84-92 | the sections loop only adds triples, and only under section predicates |
| Builder.ElementSubtype | OSAMtoSSO.py:115-124 | an element kind has an extra class exactly when it is one of SHELL, BEAM, SOLID, MEMBRANE, TRUSS; that class is not the generic Element, and it maps back to the same kind |
| Builder.ElementTriples | OSAMtoSSO.py:112-131 | what an element adds before its references are resolved uses only element predicates |
| Builder.AddReference | OSAMtoSSO.py:138-141 | adding an edge to a looked-up node succeeds exactly when the lookup found a node, and then adds that one edge; when nothing was found it fails with an unresolved reference at that node and property, and when several nodes carry the name it fails with an ambiguous reference listing them (`Properties.LookupContributed` shows no lookup in a converted graph is ambiguous) |
| Builder.ElementReferences | OSAMtoSSO.py:133-147 | resolving an element's section and material only adds `element_section`/`element_material` triples |
| Builder.ElementStep | OSAMtoSSO.py:112-147 | one element only adds triples, under element predicates |
| Builder.ElementsStage | OSAMtoSSO.py:111-147 | the elements loop only adds triples, under element predicates |
| Builder.ObjectTriples | OSAMtoSSO.py:97-108 | an object's own triples (object, mesh, `has_mesh`) use only object predicates |
| Builder.ObjectStep | OSAMtoSSO.py:97-147 | one object with its mesh and elements only adds triples, under object predicates |
| Builder.ObjectsStage | OSAMtoSSO.py:95-147 | the objects loop only adds triples, under object predicates |
| Builder.AssemblyTriples | OSAMtoSSO.py:150-154 | the assembly's triples use only assembly predicates |
| Builder.InstanceTriples | OSAMtoSSO.py:159-163 | an instance's own triples use only assembly predicates |
| Builder.ReferencedObjectLoop | OSAMtoSSO.py:165-173 | the per-object `referenced_object` loop only adds `referenced_object` triples, all from the instance's node |
| Builder.InstanceStep | OSAMtoSSO.py:158-173 | one instance only adds triples, under assembly predicates |
| Builder.InstancesStage | OSAMtoSSO.py:157-173 | the instances loop only adds triples, under assembly predicates |
| Builder.AssemblyStage | OSAMtoSSO.py:150-173 | the assembly stage only adds triples, under assembly predicates |
| Builder.AppliedToLoop | OSAMtoSSO.py:186-193 | the loop over referenced ids only adds `applied_to` triples, all from the condition's or load's node |
| Builder.BoundaryConditionTriples | OSAMtoSSO.py:181-182 | a condition's own triples use only boundary-condition predicates |
| Builder.BoundaryConditionsStage | OSAMtoSSO.py:176-193 | the boundary-condition loop only adds triples, under boundary-condition predicates |
| Builder.LoadCaseTriples | OSAMtoSSO.py:198-204 | a load case writes only load-case predicates, and its name triple links the node named after the literal |
| Builder.LoadCasesStage | OSAMtoSSO.py:196-204 | the load-case loop only adds triples, under load-case predicates |
| Builder.LoadTriples | OSAMtoSSO.py:210-216 | a load's own triples use only load predicates |
| Builder.LoadStep | OSAMtoSSO.py:209-232 | one load only adds triples, under load predicates |
| Builder.LoadsStage | OSAMtoSSO.py:207-232 | the loads loop only adds triples, under load predicates |
| Decimal.NatDecimalRoundTrip | OSAMtoSSO.py:113 | reading back the decimal text of a natural number gives the number |
| Decimal.IntDecimal | OSAMtoSSO.py:113 | the decimal text of an integer is non-empty and starts with a minus sign exactly when the integer is negative |
| Decimal.IntDecimalRoundTrip | OSAMtoSSO.py:113 | reading back the decimal text of any integer gives the integer |
| Decimal.IntDecimalInjective | OSAMtoSSO.py:113 | two integers have the same decimal text exactly when they are equal |
| Decimal.TaggedDecimalInjective | OSAMtoSSO.py:179 | a fixed prefix followed by the decimal text identifies the number |
| Rdf.InstIriInjective | OSAMtoSSO.py:15-17 | two nodes under the instance namespace have the same IRI exactly when their local names are equal |
| Rdf.SubjectsNamedSpec | OSAMtoSSO.py:139-140 | the subjects the name scan visits are exactly those carrying the name literal under the property |
| Rdf.FindByNameSpec | OSAMtoSSO.py:139-140 | a found node is the one subject carrying the literal; nothing is found exactly when the name is null or no subject carries it; an ambiguous result lists at least two subjects |
| Rdf.KeyedLookup | OSAMtoSSO.py:139-140 | in a graph whose name triples all link the node named after the literal, the scan finds `INST[n]` exactly when a name triple for `n` exists, and nothing otherwise |
| Rdf.Resolve | OSAMtoSSO.py:138-141 | a lookup outcome resolves to its node exactly when a node was found; when nothing was found it fails with an unresolved reference, and when several nodes were found it fails with an ambiguous reference listing them |
| Resolver.ScanIdsSpec | OSAMtoSSO.py:133-137 | the id-to-name scan keeps the starting name when no id matches, returns the name of the last matching record, and always returns either the starting name or a name with that id |
| Resolver.ScanUniqueId | OSAMtoSSO.py:133-137 | when exactly one record has the id, the scan returns that record's name |
| Resolver.RefNames | OSAMtoSSO.py:184-189 | the referenced-id loop looks up one name per referenced id |
| Resolver.RefNamesStep | OSAMtoSSO.py:185-189 | each id's name is the scan started from the name left by the previous id |
| Resolver.RefNamesSpec | OSAMtoSSO.py:184-189 | an id's name comes from its last matching instance; an unmatched id keeps the previous id's name; once some name is set, every later id has one |
| Stages.MaterialsStageContents | OSAMtoSSO.py:68-81 | after the materials loop the graph holds exactly the earlier triples and the materials' contributions |
| Stages.SectionsStageContents | OSAMtoSSO.py:84-92 | after the sections loop the graph holds exactly the earlier triples and the sections' contributions |
| Stages.LoadCasesStageContents | OSAMtoSSO.py:196-204 | after the load-case loop the graph holds exactly the earlier triples and the load cases' contributions |
| Stages.AppliedToOutcome | OSAMtoSSO.py:186-193 | the `applied_to` loop succeeds exactly when every looked-up name is set; it then adds one edge to each named instance node and nothing else, and otherwise fails at that node |
| Stages.RefNamesPresent | OSAMtoSSO.py:184-192 | every looked-up instance name is the name of a node already in the graph, and all names are set exactly when the first id matches an instance |
| Stages.ReferencedObjectOutcome | OSAMtoSSO.py:165-173 | the per-object loop succeeds exactly when there are no objects, the first object's id matches, or a name was carried in; it then links the instance to every object whose id matches, plus the carried-in name when the first object does not match, and to nothing else |
| Stages.ElementReferencesOutcome | OSAMtoSSO.py:133-147 | resolving an element succeeds exactly when its section name is set and both the section and the material name are in the graph; it then adds exactly the two edges |
| Stages.ElementStepOutcome | OSAMtoSSO.py:112-147 | one element succeeds exactly when its references resolve, and then adds exactly its contribution |
| Stages.ElementsStageOutcome | OSAMtoSSO.py:111-147 | the elements loop succeeds exactly when every element resolves, and then adds exactly the elements' contributions |
| Stages.ObjectStepOutcome | OSAMtoSSO.py:97-147 | one object succeeds exactly when all its elements resolve, and then adds exactly its contribution |
| Stages.ObjectsStageOutcome | OSAMtoSSO.py:95-147 | the objects loop succeeds exactly when every element of every object resolves, and then adds exactly the objects' contributions |
| Stages.InstanceStepOutcome | OSAMtoSSO.py:158-173 | one instance succeeds exactly when its object link resolves as the loop is written, and then adds exactly its contribution |
| Stages.InstancesStageOutcome | OSAMtoSSO.py:157-173 | the instances loop succeeds exactly when every instance's object link resolves, and then adds exactly the instances' contributions |
| Stages.AssemblyStageOutcome | OSAMtoSSO.py:150-173 | the assembly stage succeeds exactly when every instance's object link resolves, and then adds exactly the assembly's contribution |
| Stages.AppliedRefsOutcome | OSAMtoSSO.py:184-193 | the `applied_to` part succeeds exactly when the first referenced id matches an instance (or there is none), and then adds exactly the `applied_to` edges to the looked-up names |
| Stages.BoundaryConditionsStageOutcome | OSAMtoSSO.py:176-193 | the boundary-condition loop succeeds exactly when every condition's first referenced id matches an instance, and then adds exactly the numbered conditions' contributions |
| Stages.LoadStepOutcome | OSAMtoSSO.py:209-232 | one load succeeds exactly when its load case is in the graph and its first referenced id matches an instance, and then adds exactly its contribution |
| Stages.LoadsStageOutcome | OSAMtoSSO.py:207-232 | the loads loop succeeds exactly when every load can be linked, and then adds exactly the numbered loads' contributions |
| Conversion.MaterialNameFrom | OSAMtoSSO.py:72 | the materials stage contributes the name triple of `n` exactly when some material is named `n` |
| Conversion.SectionNameFrom | OSAMtoSSO.py:90 | the sections stage contributes the name triple of `n` exactly when some section is named `n` |
| Conversion.LoadCaseNameFrom | OSAMtoSSO.py:202 | the load-case stage contributes the name triple of `n` exactly when some load case is named `n` |
| Conversion.AfterMaterialsName | OSAMtoSSO.py:68-81 | after the materials a `material_name` for `n` is present exactly when some material is named `n` |
| Conversion.AfterSectionsMaterialName | OSAMtoSSO.py:84-92 | the sections stage keeps the material names as they were |
| Conversion.AfterSectionsSectionName | OSAMtoSSO.py:84-92 | after the sections a `section_name` for `n` is present exactly when some section is named `n` |
| Conversion.ElementConvertsIff | OSAMtoSSO.py:133-147 | an element's references resolve exactly when its section id matches some section and its material name is some material's name |
| Conversion.ObjectsConvertIff | OSAMtoSSO.py:95-147 | the objects' elements all resolve exactly when each element converts in that sense |
| Conversion.AfterObjectsFacts | OSAMtoSSO.py:95-147 | the objects stage succeeds exactly when every element converts; it then adds exactly the objects' contributions and every object's name triple |
| Conversion.AfterAssemblyFacts | OSAMtoSSO.py:150-173 | the graph through the assembly exists exactly when the elements convert and every instance's object link resolves, and then it adds exactly the assembly's contribution |
| Conversion.AfterBoundaryConditionsFacts | OSAMtoSSO.py:176-193 | the graph through the boundary conditions exists exactly when, in addition, every condition can be linked, and then it adds exactly the numbered conditions |
| Conversion.AfterLoadCasesFacts | OSAMtoSSO.py:196-204 | the load-case stage never fails and adds exactly the load cases' contributions |
| Conversion.AfterLoadCasesName | OSAMtoSSO.py:196-204 | after the load cases a `loadCase_name` for `n` is present exactly when some load case is named `n` |
| Conversion.NoLoadCaseNameContributed | OSAMtoSSO.py:95-193 | no stage between sections and load cases writes a `loadCase_name` |
| Conversion.BuildSucceedsIff | OSAMtoSSO.py:57-232 | the conversion succeeds exactly when every reference resolves (elements, instance-object links, condition and load instance links, load cases); otherwise it fails with an unresolved reference |
| Conversion.BuildFacts | OSAMtoSSO.py:207-232 | the converted graph is the graph through the load cases plus exactly the numbered loads' contributions, and every name triple links the node named after the literal |
| Conversion.BuildContents | OSAMtoSSO.py:57-232 | a triple is in the converted graph exactly when some stage contributes it for some record of the document |
| Provenance.InGraph | OSAMtoSSO.py:57-232 | per triple: in the converted graph exactly when contributed |
| Provenance.MaterialsWrite | OSAMtoSSO.py:71-81 | whatever a material contributes uses a material predicate and is typed `Material` |
| Provenance.SectionsWrite | OSAMtoSSO.py:89-92 | whatever a section contributes uses a section predicate and is typed `Section` |
| Provenance.ObjectsWrite | OSAMtoSSO.py:99-147 | whatever the objects contribute uses an object predicate and is typed Object, Mesh or an element class |
| Provenance.AssemblyWrites | OSAMtoSSO.py:152-173 | whatever the assembly contributes uses an assembly predicate and is typed Assembly or Instance |
| Provenance.BoundaryConditionsWrite | OSAMtoSSO.py:181-193 | whatever the conditions contribute uses a boundary-condition predicate and is typed BoundaryCondition |
| Provenance.LoadCasesWrite | OSAMtoSSO.py:201-204 | whatever the load cases contribute uses a load-case predicate and is typed LoadCase |
| Provenance.LoadsWrite | OSAMtoSSO.py:214-232 | whatever the loads contribute uses a load predicate and is typed Load |
| Provenance.ElementTypesOne | OSAMtoSSO.py:113-124 | an element's type triples are `Element` plus the one subclass of its kind, when it has one |
| Provenance.SubtypeKindInverse | OSAMtoSSO.py:115-124 | the kind-to-subclass mapping and its inverse agree |
| Provenance.OnlyMaterials | OSAMtoSSO.py:71-81 | a triple no other stage may write is contributed exactly when the materials contribute it |
| Provenance.OnlySections | OSAMtoSSO.py:89-92 | a triple no other stage may write is contributed exactly when the sections contribute it |
| Provenance.OnlyObjects | OSAMtoSSO.py:99-147 | a triple no other stage may write is contributed exactly when the objects contribute it |
| Provenance.OnlyAssembly | OSAMtoSSO.py:152-173 | a triple no other stage may write is contributed exactly when the assembly contributes it |
| Provenance.OnlyBoundaryConditions | OSAMtoSSO.py:181-193 | a triple no other stage may write is contributed exactly when the conditions contribute it |
| Provenance.OnlyLoadCases | OSAMtoSSO.py:201-204 | a triple no other stage may write is contributed exactly when the load cases contribute it |
| Provenance.OnlyLoads | OSAMtoSSO.py:214-232 | a triple no other stage may write is contributed exactly when the loads contribute it |
| Provenance.OnlyConditionsAndLoads | OSAMtoSSO.py:193 | a triple only conditions and loads may write (`applied_to`) is contributed exactly when one of them contributes it |
| Properties.MaterialFlags | OSAMtoSSO.py:74-81 | the converted graph's `elastic` triples are exactly, per material, `false` when its `elastic` is null and `true` otherwise; the same for `plastic` |
| Properties.MaterialFlagsContributed | OSAMtoSSO.py:74-81 | the same rule for the contributed triples |
| Properties.MaterialFlagsFrom | OSAMtoSSO.py:74-81 | the same rule for the materials stage alone |
| Properties.BuiltSectionsMatched | OSAMtoSSO.py:133-137 | in a converted document every element's section id matches some section |
| Properties.BuiltSectionsFound | OSAMtoSSO.py:133-137 | in a converted document the section scan yields a name for every element |
| Properties.ElementValuesOne | OSAMtoSSO.py:125-131 | one element states exactly its copied `node_count` and `face_count`, `dofs` equal to the length of its dofs list, the mesh's `has_element` edge, and its material node |
| Properties.ElementSectionOne | OSAMtoSSO.py:133-141 | an element's `element_section` edge goes exactly to the last section whose id matches |
| Properties.ScanLast | OSAMtoSSO.py:135-137 | the scan returns the name at the last matching position, whatever it started from |
| Properties.LastIndex | OSAMtoSSO.py:135-137 | an id that matches has exactly one last matching position |
| Properties.FromObjectsElements | OSAMtoSSO.py:111-147 | an element-shaped triple comes from the objects stage exactly when some element of some object contributes it |
| Properties.ElementShapedOnlyObjects | OSAMtoSSO.py:111-147 | element-shaped triples are contributed only by the objects stage |
| Properties.ElementInGraph | OSAMtoSSO.py:111-147 | an element-shaped triple is in the converted graph exactly when some element contributes it |
| Properties.ObjectsNodeCounts | OSAMtoSSO.py:125-126 | when every element's section is found, the objects loop writes exactly one `node_count` triple per element, carrying its copied count |
| Properties.ObjectsFaceCounts | OSAMtoSSO.py:127-128 | when every element's section is found, the objects loop writes exactly one `face_count` triple per element, carrying its copied count |
| Properties.ObjectsDofs | OSAMtoSSO.py:129-130 | when every element's section is found, the objects loop writes exactly one `dofs` triple per element, carrying the length of its dofs list |
| Properties.ObjectsMaterials | OSAMtoSSO.py:143-147 | when every element's section is found, the objects loop writes exactly one `element_material` edge per element, to the node of its material name |
| Properties.ObjectsMeshElements | OSAMtoSSO.py:111-131 | when every element's section is found, the objects loop writes exactly one `has_element` edge per element, from its object's mesh node |
| Properties.ObjectsSections | OSAMtoSSO.py:133-141 | when every element's section id is some section's id, the objects loop's `element_section` edges go, per element, to the last section with that id |
| Properties.ObjectsElementTyping | OSAMtoSSO.py:113-124 | when every element's section is found, the objects loop types each element node `Element` plus the one subclass its kind names, and nothing more |
| Properties.ElementStageFacts | OSAMtoSSO.py:111-147 | in a converted document an element-shaped triple is in the graph exactly when the objects loop writes it, and every element's section is found |
| Properties.ElementNodeCounts | OSAMtoSSO.py:125-126 | the graph's `node_count` triples are exactly, per element, its node with its copied count |
| Properties.ElementFaceCounts | OSAMtoSSO.py:127-128 | the graph's `face_count` triples are exactly, per element, its node with its copied count |
| Properties.ElementDofs | OSAMtoSSO.py:129-130 | the graph's `dofs` triples are exactly, per element, its node with the length of its dofs list |
| Properties.ElementMaterials | OSAMtoSSO.py:143-147 | the graph's `element_material` triples are exactly, per element, an edge to the node of its material name |
| Properties.MeshElements | OSAMtoSSO.py:131 | the graph's `has_element` triples are exactly, per element, an edge from its object's mesh node |
| Properties.ElementSections | OSAMtoSSO.py:133-141 | the graph's `element_section` triples are exactly, per element, an edge to the last section whose id matches its section id |
| Properties.ElementTyping | OSAMtoSSO.py:113-124 | the graph's element type triples are exactly, per element node, `Element` plus one subclass when the kind is SHELL, BEAM, SOLID, MEMBRANE or TRUSS, and nothing more |
| Properties.ObjectInGraph | OSAMtoSSO.py:97-108 | an object-shaped triple is in the converted graph exactly when some object's own triples hold it |
| Properties.ObjectOwnOne | OSAMtoSSO.py:104-108 | one object types its mesh node `<name>_Mesh` as Mesh, links it by `has_mesh`, and gives it the mesh's node count |
| Properties.ContributedMeshTyping | OSAMtoSSO.py:104-106 | among a document's contributions the Mesh type triples are exactly one per object, on `<object name>_Mesh` |
| Properties.ContributedObjectMeshes | OSAMtoSSO.py:104-108 | among a document's contributions the `has_mesh` triples are exactly one per object, to `<object name>_Mesh` |
| Properties.ContributedMeshNodeCounts | OSAMtoSSO.py:105-107 | among a document's contributions the `nodes` triples are exactly one per object, on its mesh node with the mesh's `node_count` |
| Properties.MeshTyping | OSAMtoSSO.py:104-106 | the graph's Mesh type triples are exactly one per object, on `<object name>_Mesh` |
| Properties.ObjectMeshes | OSAMtoSSO.py:104-108 | the graph's `has_mesh` triples are exactly one per object, to `<object name>_Mesh` |
| Properties.MeshNodeCounts | OSAMtoSSO.py:105-107 | the graph's `nodes` triples are exactly one per object, on its mesh node with the mesh's `node_count` |
| Properties.LookupContributed | OSAMtoSSO.py:139-140 | in a converted graph the name scan finds `INST[n]` exactly when the name triple of `n` was contributed, and nothing otherwise |
| Properties.MaterialLookup | OSAMtoSSO.py:145-146 | in a converted graph the `material_name` scan finds `INST[n]` exactly when some material is named `n`, and nothing otherwise |
| Properties.SectionLookup | OSAMtoSSO.py:139-140 | in a converted graph the `section_name` scan finds `INST[n]` exactly when some section is named `n`, and nothing otherwise |
| Properties.LoadCaseLookup | OSAMtoSSO.py:219-220 | in a converted graph the `loadCase_name` scan finds `INST[n]` exactly when some load case is named `n`, and nothing otherwise |
| Properties.ObjectLookup | OSAMtoSSO.py:171-172 | in a converted graph the `object_name` scan finds `INST[n]` exactly when some object is named `n`, and nothing otherwise |
| Properties.InstanceLookup | OSAMtoSSO.py:191-192 | in a converted graph the `instance_name` scan finds `INST[n]` exactly when some instance is named `n`, and nothing otherwise |
| Properties.MaterialNameOnly | OSAMtoSSO.py:72 | only the materials stage writes `material_name` |
| Properties.SectionNameOnly | OSAMtoSSO.py:90 | only the sections stage writes `section_name` |
| Properties.LoadCaseNameOnly | OSAMtoSSO.py:202 | only the load-case stage writes `loadCase_name` |
| Properties.InstanceNameOnly | OSAMtoSSO.py:162 | only the assembly stage writes `instance_name` |
| Properties.ObjectNameOwn | OSAMtoSSO.py:100 | some object's own triples hold the name triple of `n` exactly when some object is named `n` |
| Properties.InstanceNameFrom | OSAMtoSSO.py:162 | the assembly contributes the name triple of `n` exactly when some instance is named `n` |
| Properties.AppendOnly | OSAMtoSSO.py:57-232 | every stage of a successful conversion keeps all triples of the stages before it |
| Links.ConditionNodeInjective | OSAMtoSSO.py:179 | two condition numbers give the same `bc_` node exactly when they are equal |
| Links.LoadNodeInjective | OSAMtoSSO.py:210 | two load numbers give the same `load_` node exactly when they are equal |
| Links.ConditionNodeNotLoadNode | OSAMtoSSO.py:179-210 | no condition node is a load node |
| Links.InstanceOne | OSAMtoSSO.py:165-173 | an instance's `referenced_object` edges go exactly to the objects whose id matches its reference |
| Links.ContributedReferences | OSAMtoSSO.py:157-173 | among a document's contributions the `referenced_object` triples are exactly, per instance, edges to the objects whose id matches its reference |
| Links.AssemblyReferences | OSAMtoSSO.py:157-173 | the assembly's `referenced_object` edges are exactly, per instance, edges to the objects whose id matches its reference |
| Links.ReferenceOnlyAssembly | OSAMtoSSO.py:173 | only the assembly stage writes `referenced_object` |
| Links.InstanceReferences | OSAMtoSSO.py:157-173 | the graph's `referenced_object` triples are exactly, per instance, edges to the objects whose id matches its reference |
| Links.InstancesNeedFirstObject | OSAMtoSSO.py:167-173 | an instance whose reference is not the first object's id makes the conversion fail with an unresolved reference |
| Links.InstancesReferenceFirstObject | OSAMtoSSO.py:167-173 | in a converted document every instance links to the first object |
| Links.ConditionsNumbered | OSAMtoSSO.py:177-182 | the boundary-condition loop numbers the conditions consecutively from the counter's start, in document order |
| Links.NumberedConditionCons | OSAMtoSSO.py:177-180 | the first condition takes the counter's value and the rest are numbered from the next value |
| Links.ConditionOne | OSAMtoSSO.py:179-193 | condition number `k` is typed at `bc_<k>`, linked from the model node, and applied to the named instances |
| Links.ConditionInGraph | OSAMtoSSO.py:176-182 | a condition-shaped triple is in the converted graph exactly when some numbered condition contributes it |
| Links.ConditionLoopEdges | OSAMtoSSO.py:177-182 | the condition loop started at 1 writes exactly the model node's `has_boundary_condition` edges to `bc_1` … `bc_n` |
| Links.ConditionLoopTyping | OSAMtoSSO.py:177-181 | the condition loop started at 1 types exactly `bc_1` … `bc_n`, as BoundaryCondition |
| Links.ConditionLoopApplied | OSAMtoSSO.py:184-193 | the condition loop started at 1 writes exactly, per condition `k`, the `applied_to` edges from `bc_<k>` to the instance names its id scan yields |
| Links.ConditionEdges | OSAMtoSSO.py:177-182 | the graph's `has_boundary_condition` triples are exactly the model node's edges to `bc_1` … `bc_n`, one per condition |
| Links.ConditionTyping | OSAMtoSSO.py:177-181 | the graph's BoundaryCondition type triples are exactly those on `bc_1` … `bc_n` |
| Links.NumberedConditionApplied | OSAMtoSSO.py:184-193 | condition `k`'s `applied_to` edges go exactly to the instance names looked up for its referenced ids |
| Links.LoadsNumbered | OSAMtoSSO.py:208-216 | the loads loop numbers the loads consecutively from the counter's start, in document order |
| Links.NumberedLoadCons | OSAMtoSSO.py:208-213 | the first load takes the counter's value and the rest are numbered from the next value |
| Links.LoadOne | OSAMtoSSO.py:210-232 | load number `k` is typed at `load_<k>` with its `load_type`, linked by `has_load` from the model node and from its load case's node, and applied to the named instances |
| Links.LoadInGraph | OSAMtoSSO.py:207-221 | a load-shaped triple is in the converted graph exactly when some numbered load contributes it |
| Links.LoadLoopEdges | OSAMtoSSO.py:216-221 | the load loop started at 1 writes exactly, per load `k`, the `has_load` edges from the model node and from its load case's node to `load_<k>` |
| Links.LoadLoopTyping | OSAMtoSSO.py:208-214 | the load loop started at 1 types exactly `load_1` … `load_m`, as Load |
| Links.LoadLoopKinds | OSAMtoSSO.py:211-215 | the load loop started at 1 gives each `load_<k>` exactly the `load_type` of the k-th load |
| Links.LoadLoopApplied | OSAMtoSSO.py:223-232 | the load loop started at 1 writes exactly, per load `k`, the `applied_to` edges from `load_<k>` to the instance names its id scan yields |
| Links.LoadEdges | OSAMtoSSO.py:216-221 | the graph's `has_load` triples are exactly, per load `k`, the edges from the model node and from its load case's node to `load_<k>` |
| Links.LoadTyping | OSAMtoSSO.py:208-214 | the graph's Load type triples are exactly those on `load_1` … `load_m` |
| Links.LoadKinds | OSAMtoSSO.py:211-215 | the graph's `load_type` triples are exactly, per load `k`, `load_<k>` with its type |
| Links.NumberedLoadApplied | OSAMtoSSO.py:223-232 | load `k`'s `applied_to` edges go exactly to the instance names looked up for its referenced ids |
| Links.AppliedOnlyConditionsAndLoads | OSAMtoSSO.py:193 | only conditions and loads write `applied_to` |
| Links.AppliedEdges | OSAMtoSSO.py:184-193 | the graph's `applied_to` triples are exactly the conditions' and loads' edges to their looked-up instance names |

## Left out

- Reading the JSON file and resolving its path (lines 5-12) is I/O. The document is a parameter.
- Namespace prefix binding (lines 47-54) only affects how the graph is printed. The namespaces themselves (lines 15-25) are constant strings in `Rdf`.
- Writing the Turtle file (line 235) is I/O through an external library.
- The IFC-SSO namespace (lines 24-26) and `SA_instance` (line 29) are defined but never used in the body, so they are not modelled.
- **Adding a missing node.** rdflib's behaviour when `g.add` receives `None` is outside the model. An add whose looked-up node is missing is therefore an explicit `UnresolvedReference` failure that ends the conversion. This applies at lines 141, 147, 173, 193, 221 and 232.
- **Well-formed documents.** The document is a typed record: every key the script reads is present, names are strings, ids and counts are integers, and the document's `id` is already the text that line 64 writes as the model's `id` literal. The `KeyError` the script raises on a missing key (for example `mat['elastic']` at line 74 or `elem['dofs']` at line 129) and the `TypeError` of line 104 on a non-string name are not modelled. The `str()` of an element id at line 113 is modelled by `Decimal.IntDecimal` for integer ids only.
- **Literal canonicalisation.** rdflib's canonical form of typed literals is not modelled. A literal is its value tagged with its XSD type. A lookup with a `None` name matches no literal.
- **Iteration order of the triples scan.** When several subjects carry the same name literal, the script keeps whichever one rdflib yields last. This order is unspecified, so the model returns `Ambiguous` instead. `LookupContributed` proves that this never happens in a converted graph: every name triple links the node named after the literal.
- **Vocabulary IRIs.** Classes and properties are enumerations whose names the `Sso` module lists. Their IRIs are not compared as strings.
- **Names shared across classes.** Two entities of different classes with the same name share the node `INST[name]`, as in the script. The model adds no check for this.
- **Element materials.** Elements name their material directly, and the script matches that name against `material_name` literals (lines 143-146). There is no id scan for materials, and the model follows the script here.
- **Unmatched instance ids.** Because of the stale-name behaviour, an unmatched instance id other than the first does not make the conversion fail. It reuses the previous id's name.
