/** What a converted graph says, property by property: for each predicate the
    script writes, the triples carrying it are exactly those the records of the
    document call for, and each name lookup finds exactly the declared nodes. */
module Properties {
  import opened Wrappers
  import opened Document
  import opened Rdf
  import opened Resolver
  import opened Builder
  import opened Stages
  import opened Conversion
  import opened Provenance
  import Sso
  import Decimal

  // ---------------------------------------------------------------------------
  // Materials (OSAMtoSSO.py:74-81)

  /** The `elastic` triples are one per material: `true` when the material has an
      elastic block and `false` exactly when that field is null; likewise `plastic`. */
  lemma MaterialFlags(doc: Osam, g: Graph, t: Triple)
    requires Build(doc) == Success(g)
    ensures t in g && t.p == Prop(Sso.Elastic) <==>
              exists i :: 0 <= i < |doc.materials| &&
                t == Triple(Inst(doc.materials[i].name), Prop(Sso.Elastic), Bool(doc.materials[i].elastic != None))
    ensures t in g && t.p == Prop(Sso.Plastic) <==>
              exists i :: 0 <= i < |doc.materials| &&
                t == Triple(Inst(doc.materials[i].name), Prop(Sso.Plastic), Bool(doc.materials[i].plastic != None))
  {
    InGraph(doc, g, t);
    MaterialFlagsContributed(doc, t);
  }

  lemma MaterialFlagsContributed(doc: Osam, t: Triple)
    ensures Contributes(doc, t) && t.p == Prop(Sso.Elastic) <==>
              exists i :: 0 <= i < |doc.materials| &&
                t == Triple(Inst(doc.materials[i].name), Prop(Sso.Elastic), Bool(doc.materials[i].elastic != None))
    ensures Contributes(doc, t) && t.p == Prop(Sso.Plastic) <==>
              exists i :: 0 <= i < |doc.materials| &&
                t == Triple(Inst(doc.materials[i].name), Prop(Sso.Plastic), Bool(doc.materials[i].plastic != None))
  {
    if t.p == Prop(Sso.Elastic) || t.p == Prop(Sso.Plastic) {
      OnlyMaterials(doc, t);
    }
    MaterialFlagsFrom(ModelNode(doc), doc.materials, t);
  }

  lemma MaterialFlagsFrom(sa: Term, ms: seq<Material>, t: Triple)
    ensures FromMaterials(t, sa, ms) && t.p == Prop(Sso.Elastic) <==>
              exists i :: 0 <= i < |ms| && t == Triple(Inst(ms[i].name), Prop(Sso.Elastic), Bool(ms[i].elastic != None))
    ensures FromMaterials(t, sa, ms) && t.p == Prop(Sso.Plastic) <==>
              exists i :: 0 <= i < |ms| && t == Triple(Inst(ms[i].name), Prop(Sso.Plastic), Bool(ms[i].plastic != None))
  {
    if FromMaterials(t, sa, ms) {
      var i :| 0 <= i < |ms| && t in MaterialTriples(sa, ms[i]);
    }
    if exists i :: 0 <= i < |ms| && t == Triple(Inst(ms[i].name), Prop(Sso.Elastic), Bool(ms[i].elastic != None)) {
      var i :| 0 <= i < |ms| && t == Triple(Inst(ms[i].name), Prop(Sso.Elastic), Bool(ms[i].elastic != None));
      assert t in MaterialTriples(sa, ms[i]);
    }
    if exists i :: 0 <= i < |ms| && t == Triple(Inst(ms[i].name), Prop(Sso.Plastic), Bool(ms[i].plastic != None)) {
      var i :| 0 <= i < |ms| && t == Triple(Inst(ms[i].name), Prop(Sso.Plastic), Bool(ms[i].plastic != None));
      assert t in MaterialTriples(sa, ms[i]);
    }
  }

  // ---------------------------------------------------------------------------
  // Objects, meshes and elements (OSAMtoSSO.py:104-147)

  /** Every element of every object had its section id matched. */
  predicate SectionsFound(sections: seq<Section>, os: seq<Object>) {
    forall i, j :: 0 <= i < |os| && 0 <= j < |os[i].mesh.elements| ==>
      ElementSectionName(sections, os[i].mesh.elements[j]).Some?
  }

  /** A converted document matched the section id of every element to some section. */
  lemma BuiltSectionsMatched(doc: Osam)
    requires Build(doc).Success?
    ensures forall i, j :: IsElement(doc.objects, i, j) ==>
              !Unmatched(SectionKeys(doc.sections), doc.objects[i].mesh.elements[j].section)
  {
    BuildSucceedsIff(doc);
    forall i, j | IsElement(doc.objects, i, j)
      ensures !Unmatched(SectionKeys(doc.sections), doc.objects[i].mesh.elements[j].section)
    {
      assert ElementConverts(doc, doc.objects[i].mesh.elements[j]);
    }
  }

  /** A converted document resolved the section name of every element. */
  lemma BuiltSectionsFound(doc: Osam)
    requires Build(doc).Success?
    ensures SectionsFound(doc.sections, doc.objects)
  {
    BuiltSectionsMatched(doc);
    forall i, j | 0 <= i < |doc.objects| && 0 <= j < |doc.objects[i].mesh.elements|
      ensures ElementSectionName(doc.sections, doc.objects[i].mesh.elements[j]).Some?
    {
      assert IsElement(doc.objects, i, j);
      ScanIdsSpec(SectionKeys(doc.sections), doc.objects[i].mesh.elements[j].section, None);
    }
  }

  /** The `element_section` triple of an element whose section id is matched by the
      section at index `k`. */
  function SectionFact(e: Element, s: Section): Triple {
    Triple(ElementNode(e.id), Prop(Sso.ElementSection), Inst(s.name))
  }

  /** The one value an element states under each of its own properties:
      `node_count` and `face_count` copied, `dofs` the number of degrees of freedom
      listed, the mesh linking to it by `has_element`, and its material by name. */
  lemma ElementValuesOne(mesh: Term, sections: seq<Section>, e: Element, t: Triple)
    requires ElementSectionName(sections, e).Some?
    ensures ElementContributes(t, mesh, sections, e) && t.p == Prop(Sso.NodeCount) <==>
              t == Triple(ElementNode(e.id), Prop(Sso.NodeCount), Int(e.nodeCount))
    ensures ElementContributes(t, mesh, sections, e) && t.p == Prop(Sso.FaceCount) <==>
              t == Triple(ElementNode(e.id), Prop(Sso.FaceCount), Int(e.faceCount))
    ensures ElementContributes(t, mesh, sections, e) && t.p == Prop(Sso.Dofs) <==>
              t == Triple(ElementNode(e.id), Prop(Sso.Dofs), Int(|e.dofs|))
    ensures ElementContributes(t, mesh, sections, e) && t.p == Prop(Sso.HasElement) <==>
              t == Triple(mesh, Prop(Sso.HasElement), ElementNode(e.id))
    ensures ElementContributes(t, mesh, sections, e) && t.p == Prop(Sso.ElementMaterial) <==>
              t == Triple(ElementNode(e.id), Prop(Sso.ElementMaterial), Inst(e.material))
  {
    ElementContributesShape(mesh, sections, e, t);
    SubtypeTriplesMembers(ElementNode(e.id), e.kind, t);
  }

  /** An element's `element_section` names the last section whose id matches. */
  lemma ElementSectionOne(mesh: Term, sections: seq<Section>, e: Element, t: Triple)
    requires !Unmatched(SectionKeys(sections), e.section)
    ensures ElementContributes(t, mesh, sections, e) && t.p == Prop(Sso.ElementSection) <==>
              exists k :: LastMatch(SectionKeys(sections), e.section, k) && t == SectionFact(e, sections[k])
  {
    var ks := SectionKeys(sections);
    var k := LastIndex(ks, e.section);
    ScanLast(ks, e.section, None, k);
    ElementContributesShape(mesh, sections, e, t);
    SubtypeTriplesMembers(ElementNode(e.id), e.kind, t);
    if t == SectionFact(e, sections[k]) {
      assert LastMatch(ks, e.section, k);
    }
  }

  lemma ScanLast(ks: seq<Key>, id: int, carried: Option<string>, k: int)
    requires LastMatch(ks, id, k)
    ensures ScanIds(ks, id, carried) == Some(ks[k].name)
  {
    ScanIdsSpec(ks, id, carried);
  }

  /** The index of the last record with the id, when some record has it. */
  function LastIndex(ks: seq<Key>, id: int): (k: int)
    requires !Unmatched(ks, id)
    ensures LastMatch(ks, id, k)
    ensures forall l :: LastMatch(ks, id, l) ==> l == k
    decreases |ks|
  {
    if ks[|ks| - 1].id == id then |ks| - 1
    else
      assert !Unmatched(ks[..|ks| - 1], id) by {
        var l :| 0 <= l < |ks| && ks[l].id == id;
        assert ks[..|ks| - 1][l].id == id;
      }
      var k := LastIndex(ks[..|ks| - 1], id);
      assert ks[..|ks| - 1][k] == ks[k];
      k
  }

  // ---------------------------------------------------------------------------
  // Elements across the document

  /** `(i, j)` indexes element `j` of the mesh of object `i`. */
  predicate IsElement(os: seq<Object>, i: int, j: int) {
    0 <= i < |os| && 0 <= j < |os[i].mesh.elements|
  }

  /** `t` has the shape of an element's triple rather than of an object's own. */
  predicate ElementShaped(t: Triple) {
    t.p in ElementProps && (t.p == RdfType ==> t.o.Class? && t.o.c in ElementClasses)
  }

  /** Among the objects' contributions, the element-shaped ones are the elements'. */
  lemma FromObjectsElements(t: Triple, sa: Term, sections: seq<Section>, os: seq<Object>)
    requires ElementShaped(t)
    ensures FromObjects(t, sa, sections, os) <==>
              exists i, j :: IsElement(os, i, j) && ElementContributes(t, MeshNode(os[i].name), sections, os[i].mesh.elements[j])
  {
    if FromObjects(t, sa, sections, os) {
      ObjectsElementPart(t, sa, sections, os);
    }
    if exists i, j :: IsElement(os, i, j) && ElementContributes(t, MeshNode(os[i].name), sections, os[i].mesh.elements[j]) {
      var i, j :| IsElement(os, i, j) && ElementContributes(t, MeshNode(os[i].name), sections, os[i].mesh.elements[j]);
      assert ObjectContributes(t, sa, sections, os[i]);
    }
  }

  lemma ObjectsElementPart(t: Triple, sa: Term, sections: seq<Section>, os: seq<Object>)
    requires ElementShaped(t) && FromObjects(t, sa, sections, os)
    ensures exists i, j :: IsElement(os, i, j) && ElementContributes(t, MeshNode(os[i].name), sections, os[i].mesh.elements[j])
  {
    var i :| 0 <= i < |os| && ObjectContributes(t, sa, sections, os[i]);
    ObjectTriplesNotElement(t, sa, os[i]);
    var j :| 0 <= j < |os[i].mesh.elements| && ElementContributes(t, MeshNode(os[i].name), sections, os[i].mesh.elements[j]);
    assert IsElement(os, i, j);
  }

  /** An object's own triples and its mesh's are never element-shaped. */
  lemma ObjectTriplesNotElement(t: Triple, sa: Term, o: Object)
    requires ElementShaped(t)
    ensures t !in ObjectTriples(sa, o)
  {
    if t.p == RdfType {
      assert t.o != Class(Sso.Object) && t.o != Class(Sso.Mesh);
    } else {
      assert t.p !in {Prop(Sso.ObjectName), Prop(Sso.HasObject), Prop(Sso.Nodes), Prop(Sso.HasMesh)};
    }
  }

  lemma ElementShapedOnlyObjects(doc: Osam, t: Triple)
    requires ElementShaped(t)
    ensures Contributes(doc, t) <==> FromObjects(t, ModelNode(doc), doc.sections, doc.objects)
  {
    OnlyObjects(doc, t);
  }

  /** An element-shaped triple is in a converted graph exactly when some element
      of some object contributes it. */
  lemma ElementInGraph(doc: Osam, g: Graph, t: Triple)
    requires Build(doc) == Success(g) && ElementShaped(t)
    ensures t in g <==>
              exists i, j :: IsElement(doc.objects, i, j) &&
                ElementContributes(t, MeshNode(doc.objects[i].name), doc.sections, doc.objects[i].mesh.elements[j])
  {
    InGraph(doc, g, t);
    ElementShapedOnlyObjects(doc, t);
    FromObjectsElements(t, ModelNode(doc), doc.sections, doc.objects);
  }

  /** Every element's section id is the id of some section. */
  predicate SectionsMatched(sections: seq<Section>, os: seq<Object>) {
    forall i, j :: 0 <= i < |os| && 0 <= j < |os[i].mesh.elements| ==>
      !Unmatched(SectionKeys(sections), os[i].mesh.elements[j].section)
  }

  /** Among the objects' contributions, the `node_count` triples are one per element,
      carrying that element's count. */
  lemma ObjectsNodeCounts(t: Triple, sa: Term, sections: seq<Section>, os: seq<Object>)
    requires SectionsFound(sections, os)
    ensures FromObjects(t, sa, sections, os) && t.p == Prop(Sso.NodeCount) <==>
              exists i, j :: IsElement(os, i, j) &&
                t == Triple(ElementNode(os[i].mesh.elements[j].id), Prop(Sso.NodeCount), Int(os[i].mesh.elements[j].nodeCount))
  {
    if t.p == Prop(Sso.NodeCount) {
      FromObjectsElements(t, sa, sections, os);
      if FromObjects(t, sa, sections, os) {
        var i, j :| IsElement(os, i, j) && ElementContributes(t, MeshNode(os[i].name), sections, os[i].mesh.elements[j]);
        ElementValuesOne(MeshNode(os[i].name), sections, os[i].mesh.elements[j], t);
      }
      if exists i, j :: IsElement(os, i, j) && t == Triple(ElementNode(os[i].mesh.elements[j].id), Prop(Sso.NodeCount), Int(os[i].mesh.elements[j].nodeCount)) {
        var i, j :| IsElement(os, i, j) && t == Triple(ElementNode(os[i].mesh.elements[j].id), Prop(Sso.NodeCount), Int(os[i].mesh.elements[j].nodeCount));
        ElementValuesOne(MeshNode(os[i].name), sections, os[i].mesh.elements[j], t);
      }
    }
  }

  /** Among the objects' contributions, the `face_count` triples are one per element,
      carrying that element's count. */
  lemma ObjectsFaceCounts(t: Triple, sa: Term, sections: seq<Section>, os: seq<Object>)
    requires SectionsFound(sections, os)
    ensures FromObjects(t, sa, sections, os) && t.p == Prop(Sso.FaceCount) <==>
              exists i, j :: IsElement(os, i, j) &&
                t == Triple(ElementNode(os[i].mesh.elements[j].id), Prop(Sso.FaceCount), Int(os[i].mesh.elements[j].faceCount))
  {
    if t.p == Prop(Sso.FaceCount) {
      FromObjectsElements(t, sa, sections, os);
      if FromObjects(t, sa, sections, os) {
        var i, j :| IsElement(os, i, j) && ElementContributes(t, MeshNode(os[i].name), sections, os[i].mesh.elements[j]);
        ElementValuesOne(MeshNode(os[i].name), sections, os[i].mesh.elements[j], t);
      }
      if exists i, j :: IsElement(os, i, j) && t == Triple(ElementNode(os[i].mesh.elements[j].id), Prop(Sso.FaceCount), Int(os[i].mesh.elements[j].faceCount)) {
        var i, j :| IsElement(os, i, j) && t == Triple(ElementNode(os[i].mesh.elements[j].id), Prop(Sso.FaceCount), Int(os[i].mesh.elements[j].faceCount));
        ElementValuesOne(MeshNode(os[i].name), sections, os[i].mesh.elements[j], t);
      }
    }
  }

  /** Among the objects' contributions, the `dofs` triples are one per element,
      carrying how many degrees of freedom it lists. */
  lemma ObjectsDofs(t: Triple, sa: Term, sections: seq<Section>, os: seq<Object>)
    requires SectionsFound(sections, os)
    ensures FromObjects(t, sa, sections, os) && t.p == Prop(Sso.Dofs) <==>
              exists i, j :: IsElement(os, i, j) &&
                t == Triple(ElementNode(os[i].mesh.elements[j].id), Prop(Sso.Dofs), Int(|os[i].mesh.elements[j].dofs|))
  {
    if t.p == Prop(Sso.Dofs) {
      FromObjectsElements(t, sa, sections, os);
      if FromObjects(t, sa, sections, os) {
        var i, j :| IsElement(os, i, j) && ElementContributes(t, MeshNode(os[i].name), sections, os[i].mesh.elements[j]);
        ElementValuesOne(MeshNode(os[i].name), sections, os[i].mesh.elements[j], t);
      }
      if exists i, j :: IsElement(os, i, j) && t == Triple(ElementNode(os[i].mesh.elements[j].id), Prop(Sso.Dofs), Int(|os[i].mesh.elements[j].dofs|)) {
        var i, j :| IsElement(os, i, j) && t == Triple(ElementNode(os[i].mesh.elements[j].id), Prop(Sso.Dofs), Int(|os[i].mesh.elements[j].dofs|));
        ElementValuesOne(MeshNode(os[i].name), sections, os[i].mesh.elements[j], t);
      }
    }
  }

  /** Among the objects' contributions, the `element_material` edges are one per element,
      to the node its material name designates. */
  lemma ObjectsMaterials(t: Triple, sa: Term, sections: seq<Section>, os: seq<Object>)
    requires SectionsFound(sections, os)
    ensures FromObjects(t, sa, sections, os) && t.p == Prop(Sso.ElementMaterial) <==>
              exists i, j :: IsElement(os, i, j) &&
                t == Triple(ElementNode(os[i].mesh.elements[j].id), Prop(Sso.ElementMaterial), Inst(os[i].mesh.elements[j].material))
  {
    if t.p == Prop(Sso.ElementMaterial) {
      FromObjectsElements(t, sa, sections, os);
      if FromObjects(t, sa, sections, os) {
        var i, j :| IsElement(os, i, j) && ElementContributes(t, MeshNode(os[i].name), sections, os[i].mesh.elements[j]);
        ElementValuesOne(MeshNode(os[i].name), sections, os[i].mesh.elements[j], t);
      }
      if exists i, j :: IsElement(os, i, j) && t == Triple(ElementNode(os[i].mesh.elements[j].id), Prop(Sso.ElementMaterial), Inst(os[i].mesh.elements[j].material)) {
        var i, j :| IsElement(os, i, j) && t == Triple(ElementNode(os[i].mesh.elements[j].id), Prop(Sso.ElementMaterial), Inst(os[i].mesh.elements[j].material));
        ElementValuesOne(MeshNode(os[i].name), sections, os[i].mesh.elements[j], t);
      }
    }
  }

  /** Among the objects' contributions, the `has_element` edges run from each object's
      mesh node to the nodes of that mesh's elements. */
  lemma ObjectsMeshElements(t: Triple, sa: Term, sections: seq<Section>, os: seq<Object>)
    requires SectionsFound(sections, os)
    ensures FromObjects(t, sa, sections, os) && t.p == Prop(Sso.HasElement) <==>
              exists i, j :: IsElement(os, i, j) &&
                t == Triple(MeshNode(os[i].name), Prop(Sso.HasElement), ElementNode(os[i].mesh.elements[j].id))
  {
    if t.p == Prop(Sso.HasElement) {
      FromObjectsElements(t, sa, sections, os);
      if FromObjects(t, sa, sections, os) {
        var i, j :| IsElement(os, i, j) && ElementContributes(t, MeshNode(os[i].name), sections, os[i].mesh.elements[j]);
        ElementValuesOne(MeshNode(os[i].name), sections, os[i].mesh.elements[j], t);
      }
      if exists i, j :: IsElement(os, i, j) && t == Triple(MeshNode(os[i].name), Prop(Sso.HasElement), ElementNode(os[i].mesh.elements[j].id)) {
        var i, j :| IsElement(os, i, j) && t == Triple(MeshNode(os[i].name), Prop(Sso.HasElement), ElementNode(os[i].mesh.elements[j].id));
        ElementValuesOne(MeshNode(os[i].name), sections, os[i].mesh.elements[j], t);
      }
    }
  }

  /** Among the objects' contributions, each element's `element_section` names the last
      section carrying the element's section id. */
  lemma ObjectsSections(t: Triple, sa: Term, sections: seq<Section>, os: seq<Object>)
    requires SectionsMatched(sections, os)
    ensures FromObjects(t, sa, sections, os) && t.p == Prop(Sso.ElementSection) <==>
              exists i, j, k :: IsElement(os, i, j) &&
                LastMatch(SectionKeys(sections), os[i].mesh.elements[j].section, k) &&
                t == SectionFact(os[i].mesh.elements[j], sections[k])
  {
    var ks := SectionKeys(sections);
    if t.p == Prop(Sso.ElementSection) {
      FromObjectsElements(t, sa, sections, os);
      if FromObjects(t, sa, sections, os) {
        var i, j :| IsElement(os, i, j) && ElementContributes(t, MeshNode(os[i].name), sections, os[i].mesh.elements[j]);
        ElementSectionOne(MeshNode(os[i].name), sections, os[i].mesh.elements[j], t);
        var k :| LastMatch(ks, os[i].mesh.elements[j].section, k) && t == SectionFact(os[i].mesh.elements[j], sections[k]);
        assert IsElement(os, i, j);
      }
      if exists i, j, k :: IsElement(os, i, j) && LastMatch(ks, os[i].mesh.elements[j].section, k) && t == SectionFact(os[i].mesh.elements[j], sections[k]) {
        var i, j, k :| IsElement(os, i, j) && LastMatch(ks, os[i].mesh.elements[j].section, k) && t == SectionFact(os[i].mesh.elements[j], sections[k]);
        ElementSectionOne(MeshNode(os[i].name), sections, os[i].mesh.elements[j], t);
      }
    }
  }

  /** Among the objects' contributions, element nodes are typed `Element`, plus the one
      subclass their kind names, and by no other element class. */
  lemma ObjectsElementTyping(t: Triple, sa: Term, sections: seq<Section>, os: seq<Object>)
    requires SectionsFound(sections, os)
    ensures FromObjects(t, sa, sections, os) && t.p == RdfType && t.o.Class? && t.o.c in ElementClasses <==>
              exists i, j :: IsElement(os, i, j) && ElementTyped(os[i].mesh.elements[j], t)
  {
    if t.p == RdfType && t.o.Class? && t.o.c in ElementClasses {
      FromObjectsElements(t, sa, sections, os);
      if FromObjects(t, sa, sections, os) {
        var i, j :| IsElement(os, i, j) && ElementContributes(t, MeshNode(os[i].name), sections, os[i].mesh.elements[j]);
        ElementTypesOne(MeshNode(os[i].name), sections, os[i].mesh.elements[j], t);
      }
      if exists i, j :: IsElement(os, i, j) && ElementTyped(os[i].mesh.elements[j], t) {
        var i, j :| IsElement(os, i, j) && ElementTyped(os[i].mesh.elements[j], t);
        ElementTypesOne(MeshNode(os[i].name), sections, os[i].mesh.elements[j], t);
      }
    }
    if exists i, j :: IsElement(os, i, j) && ElementTyped(os[i].mesh.elements[j], t) {
      var i, j :| IsElement(os, i, j) && ElementTyped(os[i].mesh.elements[j], t);
      ElementTypedClass(os[i].mesh.elements[j], t);
    }
  }

  /** Each element node states its element's `node_count`, and no other value. */
  lemma ElementNodeCounts(doc: Osam, g: Graph, t: Triple)
    requires Build(doc) == Success(g)
    ensures t in g && t.p == Prop(Sso.NodeCount) <==>
              exists i, j :: IsElement(doc.objects, i, j) &&
                t == Triple(ElementNode(doc.objects[i].mesh.elements[j].id), Prop(Sso.NodeCount), Int(doc.objects[i].mesh.elements[j].nodeCount))
  {
    if t.p == Prop(Sso.NodeCount) {
      ElementStageFacts(doc, g, t);
      ObjectsNodeCounts(t, ModelNode(doc), doc.sections, doc.objects);
    }
  }

  /** Each element node states its element's `face_count`, and no other value. */
  lemma ElementFaceCounts(doc: Osam, g: Graph, t: Triple)
    requires Build(doc) == Success(g)
    ensures t in g && t.p == Prop(Sso.FaceCount) <==>
              exists i, j :: IsElement(doc.objects, i, j) &&
                t == Triple(ElementNode(doc.objects[i].mesh.elements[j].id), Prop(Sso.FaceCount), Int(doc.objects[i].mesh.elements[j].faceCount))
  {
    if t.p == Prop(Sso.FaceCount) {
      ElementStageFacts(doc, g, t);
      ObjectsFaceCounts(t, ModelNode(doc), doc.sections, doc.objects);
    }
  }

  /** Each element node states, as `dofs`, how many degrees of freedom its element lists. */
  lemma ElementDofs(doc: Osam, g: Graph, t: Triple)
    requires Build(doc) == Success(g)
    ensures t in g && t.p == Prop(Sso.Dofs) <==>
              exists i, j :: IsElement(doc.objects, i, j) &&
                t == Triple(ElementNode(doc.objects[i].mesh.elements[j].id), Prop(Sso.Dofs), Int(|doc.objects[i].mesh.elements[j].dofs|))
  {
    if t.p == Prop(Sso.Dofs) {
      ElementStageFacts(doc, g, t);
      ObjectsDofs(t, ModelNode(doc), doc.sections, doc.objects);
    }
  }

  /** Each element node links by `element_material` to the node named by its element's material name. */
  lemma ElementMaterials(doc: Osam, g: Graph, t: Triple)
    requires Build(doc) == Success(g)
    ensures t in g && t.p == Prop(Sso.ElementMaterial) <==>
              exists i, j :: IsElement(doc.objects, i, j) &&
                t == Triple(ElementNode(doc.objects[i].mesh.elements[j].id), Prop(Sso.ElementMaterial), Inst(doc.objects[i].mesh.elements[j].material))
  {
    if t.p == Prop(Sso.ElementMaterial) {
      ElementStageFacts(doc, g, t);
      ObjectsMaterials(t, ModelNode(doc), doc.sections, doc.objects);
    }
  }

  /** The `has_element` edges run from each object's mesh node to the nodes of that mesh's elements. */
  lemma MeshElements(doc: Osam, g: Graph, t: Triple)
    requires Build(doc) == Success(g)
    ensures t in g && t.p == Prop(Sso.HasElement) <==>
              exists i, j :: IsElement(doc.objects, i, j) &&
                t == Triple(MeshNode(doc.objects[i].name), Prop(Sso.HasElement), ElementNode(doc.objects[i].mesh.elements[j].id))
  {
    if t.p == Prop(Sso.HasElement) {
      ElementStageFacts(doc, g, t);
      ObjectsMeshElements(t, ModelNode(doc), doc.sections, doc.objects);
    }
  }

  /** The `element_section` of each element names the last section whose id is the
      element's section id; earlier sections with the same id are passed over. */
  lemma ElementSections(doc: Osam, g: Graph, t: Triple)
    requires Build(doc) == Success(g)
    ensures t in g && t.p == Prop(Sso.ElementSection) <==>
              exists i, j, k :: IsElement(doc.objects, i, j) &&
                LastMatch(SectionKeys(doc.sections), doc.objects[i].mesh.elements[j].section, k) &&
                t == SectionFact(doc.objects[i].mesh.elements[j], doc.sections[k])
  {
    if t.p == Prop(Sso.ElementSection) {
      ElementStageFacts(doc, g, t);
      BuiltSectionsMatched(doc);
      ObjectsSections(t, ModelNode(doc), doc.sections, doc.objects);
    }
  }

  /** Element nodes are typed `Element`, plus the one subclass their kind names when
      it is SHELL, BEAM, SOLID, MEMBRANE or TRUSS, and by no other element class. */
  lemma ElementTyping(doc: Osam, g: Graph, t: Triple)
    requires Build(doc) == Success(g)
    ensures t in g && t.p == RdfType && t.o.Class? && t.o.c in ElementClasses <==>
              exists i, j :: IsElement(doc.objects, i, j) && ElementTyped(doc.objects[i].mesh.elements[j], t)
  {
    BuiltSectionsFound(doc);
    if t.p == RdfType && t.o.Class? && t.o.c in ElementClasses {
      ElementStageFacts(doc, g, t);
    }
    ObjectsElementTyping(t, ModelNode(doc), doc.sections, doc.objects);
  }

  /** For an element-shaped triple of a converted graph: membership is decided by the
      objects stage, and every element's section is found. */
  lemma ElementStageFacts(doc: Osam, g: Graph, t: Triple)
    requires Build(doc) == Success(g) && ElementShaped(t)
    ensures t in g <==> FromObjects(t, ModelNode(doc), doc.sections, doc.objects)
    ensures SectionsFound(doc.sections, doc.objects)
  {
    InGraph(doc, g, t);
    ElementShapedOnlyObjects(doc, t);
    BuiltSectionsFound(doc);
  }

  /** `t` types the node of element `e` as an `Element`, or by the subclass of its kind. */
  predicate ElementTyped(e: Element, t: Triple) {
    && t.p == RdfType && t.s == ElementNode(e.id)
    && (t.o == Class(Sso.Element) || (t.o.Class? && e.kind in ElementKinds && SubtypeKind(t.o.c) == Some(e.kind)))
  }

  lemma ElementTypedClass(e: Element, t: Triple)
    requires ElementTyped(e, t)
    ensures t.o.Class? && t.o.c in ElementClasses
  {
  }

  // ---------------------------------------------------------------------------
  // Objects and meshes

  /** `t` has the shape of an object's own triple or its mesh's. */
  predicate ObjectShaped(t: Triple) {
    || t.p in {Prop(Sso.ObjectName), Prop(Sso.HasObject), Prop(Sso.Nodes), Prop(Sso.HasMesh)}
    || (t.p == RdfType && (t.o == Class(Sso.Object) || t.o == Class(Sso.Mesh)))
  }

  /** No element contributes an object-shaped triple. */
  lemma ElementsNotObjectShaped(t: Triple, mesh: Term, sections: seq<Section>, es: seq<Element>)
    requires ObjectShaped(t)
    ensures !FromElements(t, mesh, sections, es)
  {
    if FromElements(t, mesh, sections, es) {
      FromElementsShaped(t, mesh, sections, es);
      ShapesDisjoint(t);
      assert false;
    }
  }

  lemma FromElementsShaped(t: Triple, mesh: Term, sections: seq<Section>, es: seq<Element>)
    requires FromElements(t, mesh, sections, es)
    ensures ElementShaped(t)
  {
    FromElementsPreds(t, mesh, sections, es);
    if t.p == RdfType {
      var j :| 0 <= j < |es| && ElementContributes(t, mesh, sections, es[j]);
      ElementTypes(mesh, sections, es[j], t);
    }
  }

  lemma ShapesDisjoint(t: Triple)
    requires ElementShaped(t)
    ensures !ObjectShaped(t)
  {
    if t.p == RdfType {
      assert t.o != Class(Sso.Object) && t.o != Class(Sso.Mesh);
    } else {
      assert t.p !in {Prop(Sso.ObjectName), Prop(Sso.HasObject), Prop(Sso.Nodes), Prop(Sso.HasMesh)};
    }
  }

  /** Among the objects' contributions, the object-shaped ones are the objects' own. */
  lemma FromObjectsOwn(t: Triple, sa: Term, sections: seq<Section>, os: seq<Object>)
    requires ObjectShaped(t)
    ensures FromObjects(t, sa, sections, os) <==> exists i :: 0 <= i < |os| && t in ObjectTriples(sa, os[i])
  {
    if FromObjects(t, sa, sections, os) {
      var i :| 0 <= i < |os| && ObjectContributes(t, sa, sections, os[i]);
      ElementsNotObjectShaped(t, MeshNode(os[i].name), sections, os[i].mesh.elements);
    }
    if exists i :: 0 <= i < |os| && t in ObjectTriples(sa, os[i]) {
      var i :| 0 <= i < |os| && t in ObjectTriples(sa, os[i]);
      assert ObjectContributes(t, sa, sections, os[i]);
    }
  }

  lemma ObjectShapedOnlyObjects(doc: Osam, t: Triple)
    requires ObjectShaped(t)
    ensures Contributes(doc, t) <==> FromObjects(t, ModelNode(doc), doc.sections, doc.objects)
  {
    OnlyObjects(doc, t);
  }

  /** An object-shaped triple is in a converted graph exactly when some object's own
      triples include it. */
  lemma ObjectInGraph(doc: Osam, g: Graph, t: Triple)
    requires Build(doc) == Success(g) && ObjectShaped(t)
    ensures t in g <==> exists i :: 0 <= i < |doc.objects| && t in ObjectTriples(ModelNode(doc), doc.objects[i])
  {
    InGraph(doc, g, t);
    ObjectShapedOnlyObjects(doc, t);
    FromObjectsOwn(t, ModelNode(doc), doc.sections, doc.objects);
  }

  /** What one object states about its mesh. */
  lemma ObjectOwnOne(sa: Term, o: Object, t: Triple)
    ensures t in ObjectTriples(sa, o) && t.p == RdfType && t.o == Class(Sso.Mesh) <==>
              t == Triple(MeshNode(o.name), RdfType, Class(Sso.Mesh))
    ensures t in ObjectTriples(sa, o) && t.p == Prop(Sso.HasMesh) <==>
              t == Triple(Inst(o.name), Prop(Sso.HasMesh), MeshNode(o.name))
    ensures t in ObjectTriples(sa, o) && t.p == Prop(Sso.Nodes) <==>
              t == Triple(MeshNode(o.name), Prop(Sso.Nodes), Int(o.mesh.nodeCount))
  {
  }

  /** Among a document's contributions, the mesh nodes `<object>_Mesh` are the ones typed `Mesh`. */
  lemma ContributedMeshTyping(doc: Osam, t: Triple)
    ensures Contributes(doc, t) && t.p == RdfType && t.o == Class(Sso.Mesh) <==>
              exists i :: 0 <= i < |doc.objects| && t == Triple(MeshNode(doc.objects[i].name), RdfType, Class(Sso.Mesh))
  {
    var os := doc.objects;
    if t.p == RdfType && t.o == Class(Sso.Mesh) {
      ObjectShapedOnlyObjects(doc, t);
      FromObjectsOwn(t, ModelNode(doc), doc.sections, os);
      if Contributes(doc, t) {
        var i :| 0 <= i < |os| && t in ObjectTriples(ModelNode(doc), os[i]);
        ObjectOwnOne(ModelNode(doc), os[i], t);
        assert t == Triple(MeshNode(os[i].name), RdfType, Class(Sso.Mesh));
      }
      if exists i :: 0 <= i < |os| && t == Triple(MeshNode(os[i].name), RdfType, Class(Sso.Mesh)) {
        var i :| 0 <= i < |os| && t == Triple(MeshNode(os[i].name), RdfType, Class(Sso.Mesh));
        ObjectOwnOne(ModelNode(doc), os[i], t);
      }
    }
  }

  /** Among a document's contributions, the `has_mesh` edges are one per object, to its own mesh node. */
  lemma ContributedObjectMeshes(doc: Osam, t: Triple)
    ensures Contributes(doc, t) && t.p == Prop(Sso.HasMesh) <==>
              exists i :: 0 <= i < |doc.objects| && t == Triple(Inst(doc.objects[i].name), Prop(Sso.HasMesh), MeshNode(doc.objects[i].name))
  {
    var os := doc.objects;
    if t.p == Prop(Sso.HasMesh) {
      ObjectShapedOnlyObjects(doc, t);
      FromObjectsOwn(t, ModelNode(doc), doc.sections, os);
      if Contributes(doc, t) {
        var i :| 0 <= i < |os| && t in ObjectTriples(ModelNode(doc), os[i]);
        ObjectOwnOne(ModelNode(doc), os[i], t);
        assert t == Triple(Inst(os[i].name), Prop(Sso.HasMesh), MeshNode(os[i].name));
      }
      if exists i :: 0 <= i < |os| && t == Triple(Inst(os[i].name), Prop(Sso.HasMesh), MeshNode(os[i].name)) {
        var i :| 0 <= i < |os| && t == Triple(Inst(os[i].name), Prop(Sso.HasMesh), MeshNode(os[i].name));
        ObjectOwnOne(ModelNode(doc), os[i], t);
      }
    }
  }

  /** Among a document's contributions, the `nodes` triples are one per mesh node, carrying its mesh's node count. */
  lemma ContributedMeshNodeCounts(doc: Osam, t: Triple)
    ensures Contributes(doc, t) && t.p == Prop(Sso.Nodes) <==>
              exists i :: 0 <= i < |doc.objects| && t == Triple(MeshNode(doc.objects[i].name), Prop(Sso.Nodes), Int(doc.objects[i].mesh.nodeCount))
  {
    var os := doc.objects;
    if t.p == Prop(Sso.Nodes) {
      ObjectShapedOnlyObjects(doc, t);
      FromObjectsOwn(t, ModelNode(doc), doc.sections, os);
      if Contributes(doc, t) {
        var i :| 0 <= i < |os| && t in ObjectTriples(ModelNode(doc), os[i]);
        ObjectOwnOne(ModelNode(doc), os[i], t);
        assert t == Triple(MeshNode(os[i].name), Prop(Sso.Nodes), Int(os[i].mesh.nodeCount));
      }
      if exists i :: 0 <= i < |os| && t == Triple(MeshNode(os[i].name), Prop(Sso.Nodes), Int(os[i].mesh.nodeCount)) {
        var i :| 0 <= i < |os| && t == Triple(MeshNode(os[i].name), Prop(Sso.Nodes), Int(os[i].mesh.nodeCount));
        ObjectOwnOne(ModelNode(doc), os[i], t);
      }
    }
  }

  /** Every object's mesh node `<object>_Mesh` is typed `Mesh`, and no other node is. */
  lemma MeshTyping(doc: Osam, g: Graph, t: Triple)
    requires Build(doc) == Success(g)
    ensures t in g && t.p == RdfType && t.o == Class(Sso.Mesh) <==>
              exists i :: 0 <= i < |doc.objects| && t == Triple(MeshNode(doc.objects[i].name), RdfType, Class(Sso.Mesh))
  {
    InGraph(doc, g, t);
    ContributedMeshTyping(doc, t);
  }

  /** Each object links by `has_mesh` to its own mesh node, and there are no other `has_mesh` edges. */
  lemma ObjectMeshes(doc: Osam, g: Graph, t: Triple)
    requires Build(doc) == Success(g)
    ensures t in g && t.p == Prop(Sso.HasMesh) <==>
              exists i :: 0 <= i < |doc.objects| && t == Triple(Inst(doc.objects[i].name), Prop(Sso.HasMesh), MeshNode(doc.objects[i].name))
  {
    InGraph(doc, g, t);
    ContributedObjectMeshes(doc, t);
  }

  /** Each mesh node states its mesh's node count as `nodes`, and no other value. */
  lemma MeshNodeCounts(doc: Osam, g: Graph, t: Triple)
    requires Build(doc) == Success(g)
    ensures t in g && t.p == Prop(Sso.Nodes) <==>
              exists i :: 0 <= i < |doc.objects| && t == Triple(MeshNode(doc.objects[i].name), Prop(Sso.Nodes), Int(doc.objects[i].mesh.nodeCount))
  {
    InGraph(doc, g, t);
    ContributedMeshNodeCounts(doc, t);
  }

  // ---------------------------------------------------------------------------
  // Looking nodes up by name in the converted graph (OSAMtoSSO.py:89-90, 139-146,
  // 168-171, 191-192, 219-220)

  predicate ObjectNamed(os: seq<Object>, n: string) {
    exists i :: 0 <= i < |os| && os[i].name == n
  }

  predicate InstanceNamed(insts: seq<Instance>, n: string) {
    exists i :: 0 <= i < |insts| && insts[i].name == n
  }

  /** In a converted graph the scan for a name literal finds the node named after
      it when the name triple was contributed, and nothing otherwise. */
  lemma LookupContributed(doc: Osam, g: Graph, p: Sso.Property, n: string)
    requires Build(doc) == Success(g) && p in NameProps
    ensures FindByName(g, Prop(p), Some(n)) ==
              if Contributes(doc, Triple(Inst(n), Prop(p), Str(n))) then Found(Inst(n)) else NotFound
  {
    BuildFacts(doc);
    KeyedLookup(g, p, n);
    InGraph(doc, g, Triple(Inst(n), Prop(p), Str(n)));
  }

  /** Looking up a material name finds the material's node exactly when some
      material has that name. */
  lemma MaterialLookup(doc: Osam, g: Graph, n: string)
    requires Build(doc) == Success(g)
    ensures FindByName(g, Prop(Sso.MaterialName), Some(n)) ==
              if MaterialNamed(doc.materials, n) then Found(Inst(n)) else NotFound
  {
    var t := Triple(Inst(n), Prop(Sso.MaterialName), Str(n));
    LookupContributed(doc, g, Sso.MaterialName, n);
    MaterialNameOnly(doc, n);
    MaterialNameFrom(ModelNode(doc), doc.materials, n);
  }

  /** Looking up a section name finds the section's node exactly when some section
      has that name. */
  lemma SectionLookup(doc: Osam, g: Graph, n: string)
    requires Build(doc) == Success(g)
    ensures FindByName(g, Prop(Sso.SectionName), Some(n)) ==
              if SectionNamed(doc.sections, n) then Found(Inst(n)) else NotFound
  {
    var t := Triple(Inst(n), Prop(Sso.SectionName), Str(n));
    LookupContributed(doc, g, Sso.SectionName, n);
    SectionNameOnly(doc, n);
    SectionNameFrom(ModelNode(doc), doc.sections, n);
  }

  /** Looking up a load-case name finds the load case's node exactly when some load
      case has that name. */
  lemma LoadCaseLookup(doc: Osam, g: Graph, n: string)
    requires Build(doc) == Success(g)
    ensures FindByName(g, Prop(Sso.LoadCaseName), Some(n)) ==
              if LoadCaseNamed(doc.loadCases, n) then Found(Inst(n)) else NotFound
  {
    var t := Triple(Inst(n), Prop(Sso.LoadCaseName), Str(n));
    LookupContributed(doc, g, Sso.LoadCaseName, n);
    LoadCaseNameOnly(doc, n);
    LoadCaseNameFrom(ModelNode(doc), doc.loadCases, n);
  }

  /** Looking up an object name finds the object's node exactly when some object
      has that name. */
  lemma ObjectLookup(doc: Osam, g: Graph, n: string)
    requires Build(doc) == Success(g)
    ensures FindByName(g, Prop(Sso.ObjectName), Some(n)) ==
              if ObjectNamed(doc.objects, n) then Found(Inst(n)) else NotFound
  {
    var t := Triple(Inst(n), Prop(Sso.ObjectName), Str(n));
    LookupContributed(doc, g, Sso.ObjectName, n);
    ObjectShapedOnlyObjects(doc, t);
    FromObjectsOwn(t, ModelNode(doc), doc.sections, doc.objects);
    ObjectNameOwn(ModelNode(doc), doc.objects, n);
  }

  lemma MaterialNameOnly(doc: Osam, n: string)
    ensures Contributes(doc, Triple(Inst(n), Prop(Sso.MaterialName), Str(n))) <==>
              FromMaterials(Triple(Inst(n), Prop(Sso.MaterialName), Str(n)), ModelNode(doc), doc.materials)
  {
    OnlyMaterials(doc, Triple(Inst(n), Prop(Sso.MaterialName), Str(n)));
  }

  lemma SectionNameOnly(doc: Osam, n: string)
    ensures Contributes(doc, Triple(Inst(n), Prop(Sso.SectionName), Str(n))) <==>
              FromSections(Triple(Inst(n), Prop(Sso.SectionName), Str(n)), ModelNode(doc), doc.sections)
  {
    OnlySections(doc, Triple(Inst(n), Prop(Sso.SectionName), Str(n)));
  }

  lemma LoadCaseNameOnly(doc: Osam, n: string)
    ensures Contributes(doc, Triple(Inst(n), Prop(Sso.LoadCaseName), Str(n))) <==>
              FromLoadCases(Triple(Inst(n), Prop(Sso.LoadCaseName), Str(n)), ModelNode(doc), doc.loadCases)
  {
    OnlyLoadCases(doc, Triple(Inst(n), Prop(Sso.LoadCaseName), Str(n)));
  }

  lemma ObjectNameOwn(sa: Term, os: seq<Object>, n: string)
    ensures (exists i :: 0 <= i < |os| && Triple(Inst(n), Prop(Sso.ObjectName), Str(n)) in ObjectTriples(sa, os[i])) <==>
              ObjectNamed(os, n)
  {
    var t := Triple(Inst(n), Prop(Sso.ObjectName), Str(n));
    if exists i :: 0 <= i < |os| && t in ObjectTriples(sa, os[i]) {
      var i :| 0 <= i < |os| && t in ObjectTriples(sa, os[i]);
      ObjectNameOne(sa, os[i], n);
    }
    if ObjectNamed(os, n) {
      var i :| 0 <= i < |os| && os[i].name == n;
      ObjectNameOne(sa, os[i], n);
    }
  }

  lemma ObjectNameOne(sa: Term, o: Object, n: string)
    ensures Triple(Inst(n), Prop(Sso.ObjectName), Str(n)) in ObjectTriples(sa, o) <==> o.name == n
  {
  }

  /** Looking up an instance name finds the instance's node exactly when some
      instance of the assembly has that name. */
  lemma InstanceLookup(doc: Osam, g: Graph, n: string)
    requires Build(doc) == Success(g)
    ensures FindByName(g, Prop(Sso.InstanceName), Some(n)) ==
              if InstanceNamed(doc.assembly.instances, n) then Found(Inst(n)) else NotFound
  {
    var t := Triple(Inst(n), Prop(Sso.InstanceName), Str(n));
    LookupContributed(doc, g, Sso.InstanceName, n);
    InstanceNameOnly(doc, n);
    InstanceNameFrom(ModelNode(doc), doc.objects, doc.assembly, n);
  }

  lemma InstanceNameOnly(doc: Osam, n: string)
    ensures Contributes(doc, Triple(Inst(n), Prop(Sso.InstanceName), Str(n))) <==>
              AssemblyContributes(Triple(Inst(n), Prop(Sso.InstanceName), Str(n)), ModelNode(doc), doc.objects, doc.assembly)
  {
    OnlyAssembly(doc, Triple(Inst(n), Prop(Sso.InstanceName), Str(n)));
  }

  lemma InstanceNameFrom(sa: Term, objects: seq<Object>, asm: Assembly, n: string)
    ensures AssemblyContributes(Triple(Inst(n), Prop(Sso.InstanceName), Str(n)), sa, objects, asm) <==>
              InstanceNamed(asm.instances, n)
  {
    var t := Triple(Inst(n), Prop(Sso.InstanceName), Str(n));
    var insts := asm.instances;
    if AssemblyContributes(t, sa, objects, asm) {
      assert t !in AssemblyTriples(sa, asm);
      var i :| 0 <= i < |insts| && InstanceContributes(t, Inst(asm.name), objects, insts[i]);
      assert insts[i].name == n;
    }
    if InstanceNamed(insts, n) {
      var i :| 0 <= i < |insts| && insts[i].name == n;
      assert t in InstanceTriples(Inst(asm.name), insts[i]);
      assert InstanceContributes(t, Inst(asm.name), objects, insts[i]);
    }
  }

  // ---------------------------------------------------------------------------
  // Append-only construction

  /** The script only ever adds triples: every stage's graph contains the graph it
      was given, so the converted graph contains the header and every earlier stage. */
  lemma AppendOnly(doc: Osam)
    requires Build(doc).Success?
    ensures RootTriples(doc) <= AfterMaterials(doc) <= AfterSections(doc)
    ensures AfterObjects(doc).Success? && AfterSections(doc) <= AfterObjects(doc).value
    ensures AfterAssembly(doc).Success? && AfterObjects(doc).value <= AfterAssembly(doc).value
    ensures AfterBoundaryConditions(doc).Success? && AfterAssembly(doc).value <= AfterBoundaryConditions(doc).value
    ensures AfterLoadCases(doc).Success? && AfterBoundaryConditions(doc).value <= AfterLoadCases(doc).value
    ensures AfterLoadCases(doc).value <= Build(doc).value
  {
  }
}

