/** What each stage of the conversion adds to the graph, and exactly when it
    stops on an unresolved reference. Every lemma assumes the graph built so far
    has keyed name triples, which the stages themselves maintain. */
module Stages {
  import opened Wrappers
  import opened Document
  import opened Rdf
  import opened Resolver
  import opened Builder
  import Sso

  /** The material loop (lines 68-81) adds exactly the materials' triples. */
  lemma {:induction false} MaterialsStageContents(g: Graph, sa: Term, ms: seq<Material>)
    ensures forall t :: t in MaterialsStage(g, sa, ms) <==> t in g || FromMaterials(t, sa, ms)
    decreases |ms|
  {
    if |ms| > 0 {
      MaterialsStageContents(g + MaterialTriples(sa, ms[0]), sa, ms[1..]);
      forall t ensures FromMaterials(t, sa, ms) <==> t in MaterialTriples(sa, ms[0]) || FromMaterials(t, sa, ms[1..]) {
        if FromMaterials(t, sa, ms) {
          var i :| 0 <= i < |ms| && t in MaterialTriples(sa, ms[i]);
          if i > 0 { assert ms[1..][i - 1] == ms[i]; }
        }
        if FromMaterials(t, sa, ms[1..]) {
          var i :| 0 <= i < |ms[1..]| && t in MaterialTriples(sa, ms[1..][i]);
          assert ms[i + 1] == ms[1..][i];
        }
      }
    }
  }

  /** The section loop (lines 84-92) adds exactly the sections' triples. */
  lemma {:induction false} SectionsStageContents(g: Graph, sa: Term, ss: seq<Section>)
    ensures forall t :: t in SectionsStage(g, sa, ss) <==> t in g || FromSections(t, sa, ss)
    decreases |ss|
  {
    if |ss| > 0 {
      SectionsStageContents(g + SectionTriples(sa, ss[0]), sa, ss[1..]);
      forall t ensures FromSections(t, sa, ss) <==> t in SectionTriples(sa, ss[0]) || FromSections(t, sa, ss[1..]) {
        if FromSections(t, sa, ss) {
          var i :| 0 <= i < |ss| && t in SectionTriples(sa, ss[i]);
          if i > 0 { assert ss[1..][i - 1] == ss[i]; }
        }
        if FromSections(t, sa, ss[1..]) {
          var i :| 0 <= i < |ss[1..]| && t in SectionTriples(sa, ss[1..][i]);
          assert ss[i + 1] == ss[1..][i];
        }
      }
    }
  }

  /** The load-case loop (lines 196-204) adds exactly the load cases' triples. */
  lemma {:induction false} LoadCasesStageContents(g: Graph, sa: Term, lcs: seq<LoadCase>)
    ensures forall t :: t in LoadCasesStage(g, sa, lcs) <==> t in g || FromLoadCases(t, sa, lcs)
    decreases |lcs|
  {
    if |lcs| > 0 {
      LoadCasesStageContents(g + LoadCaseTriples(sa, lcs[0]), sa, lcs[1..]);
      forall t ensures FromLoadCases(t, sa, lcs) <==> t in LoadCaseTriples(sa, lcs[0]) || FromLoadCases(t, sa, lcs[1..]) {
        if FromLoadCases(t, sa, lcs) {
          var i :| 0 <= i < |lcs| && t in LoadCaseTriples(sa, lcs[i]);
          if i > 0 { assert lcs[1..][i - 1] == lcs[i]; }
        }
        if FromLoadCases(t, sa, lcs[1..]) {
          var i :| 0 <= i < |lcs[1..]| && t in LoadCaseTriples(sa, lcs[1..][i]);
          assert lcs[i + 1] == lcs[1..][i];
        }
      }
    }
  }

  /** Every record in `ks` has its name triple under `p`. */
  predicate KeysNamed(g: Graph, p: Sso.Property, ks: seq<Key>) {
    forall k :: 0 <= k < |ks| ==> HasName(g, p, ks[k].name)
  }

  /** `o` is the node of one of the looked-up names. */
  predicate NamedTarget(names: seq<Option<string>>, o: Term) {
    exists j :: 0 <= j < |names| && names[j].Some? && o == Inst(names[j].value)
  }

  lemma NamedTargetCons(n: string, rest: seq<Option<string>>, o: Term)
    ensures NamedTarget([Some(n)] + rest, o) <==> o == Inst(n) || NamedTarget(rest, o)
  {
    var names := [Some(n)] + rest;
    assert names[0] == Some(n);
    if NamedTarget(rest, o) {
      var j :| 0 <= j < |rest| && rest[j].Some? && o == Inst(rest[j].value);
      assert names[j + 1] == rest[j];
    }
    if NamedTarget(names, o) {
      var j :| 0 <= j < |names| && names[j].Some? && o == Inst(names[j].value);
      if j > 0 { assert rest[j - 1] == names[j]; }
    }
  }

  /** Every name in `names` that is present has its name triple under `p`. */
  predicate NamesNamed(g: Graph, p: Sso.Property, names: seq<Option<string>>) {
    forall j :: 0 <= j < |names| && names[j].Some? ==> HasName(g, p, names[j].value)
  }

  /** Lines 190-193: the `applied_to` loop succeeds exactly when every looked-up name
      is present, writing one edge per name; the first absent name stops it. */
  lemma {:induction false} AppliedToOutcome(g: Graph, node: Term, names: seq<Option<string>>)
    requires AllKeyed(g)
    requires NamesNamed(g, Sso.InstanceName, names)
    ensures var r := AppliedToLoop(g, node, names);
            && (r.Success? <==> forall j :: 0 <= j < |names| ==> names[j].Some?)
            && (r.Failure? ==> r.error == UnresolvedReference(node, Sso.AppliedTo))
            && (r.Success? ==> forall o :: Triple(node, Prop(Sso.AppliedTo), o) in r.value <==>
                  Triple(node, Prop(Sso.AppliedTo), o) in g || NamedTarget(names, o))
    decreases |names|
  {
    if |names| > 0 {
      if names[0].Some? {
        var n := names[0].value;
        KeyedLookup(g, Sso.InstanceName, n);
        var g1 := g + {Triple(node, Prop(Sso.AppliedTo), Inst(n))};
        assert AppliedToLoop(g, node, names) == AppliedToLoop(g1, node, names[1..]);
        assert NamesNamed(g1, Sso.InstanceName, names[1..]) by {
          forall j | 0 <= j < |names[1..]| && names[1..][j].Some? ensures HasName(g1, Sso.InstanceName, names[1..][j].value) {
            assert names[1..][j] == names[j + 1];
          }
        }
        AppliedToOutcome(g1, node, names[1..]);
        assert names == [Some(n)] + names[1..];
        forall o ensures NamedTarget(names, o) <==> o == Inst(n) || NamedTarget(names[1..], o) {
          NamedTargetCons(n, names[1..], o);
        }
        assert (forall j :: 0 <= j < |names| ==> names[j].Some?) <==> (forall j :: 0 <= j < |names[1..]| ==> names[1..][j].Some?) by {
          if forall j :: 0 <= j < |names[1..]| ==> names[1..][j].Some? {
            forall j | 0 < j < |names| ensures names[j].Some? { assert names[j] == names[1..][j - 1]; }
          }
        }
      } else {
        assert FindByName(g, Prop(Sso.InstanceName), names[0]) == NotFound;
      }
    }
  }

  /** The names the id scan produces for a referenced-id list all have name triples,
      and they are all present exactly when the first id matches some record. */
  lemma RefNamesPresent(ks: seq<Key>, refs: seq<int>, g: Graph, p: Sso.Property)
    requires KeysNamed(g, p, ks)
    ensures NamesNamed(g, p, RefNames(ks, refs, None))
    ensures (forall j :: 0 <= j < |refs| ==> RefNames(ks, refs, None)[j].Some?) <==> |refs| == 0 || !Unmatched(ks, refs[0])
  {
    var names := RefNames(ks, refs, None);
    RefNamesSpec(ks, refs, None);
    forall j | 0 <= j < |refs| && names[j].Some? ensures HasName(g, p, names[j].value) {
      RefNamePresent(ks, refs, g, p, j);
    }
    if |refs| > 0 && !Unmatched(ks, refs[0]) {
      forall j | 0 <= j < |refs| ensures names[j].Some? {
        RefNameSome(ks, refs, j);
      }
    }
  }

  lemma {:induction false} RefNamePresent(ks: seq<Key>, refs: seq<int>, g: Graph, p: Sso.Property, j: int)
    requires KeysNamed(g, p, ks)
    requires 0 <= j < |refs| && RefNames(ks, refs, None)[j].Some?
    ensures HasName(g, p, RefNames(ks, refs, None)[j].value)
    decreases j
  {
    var names := RefNames(ks, refs, None);
    RefNamesSpec(ks, refs, None);
    if names[j] == Previous(names, j, None) {
      RefNamePresent(ks, refs, g, p, j - 1);
    } else {
      assert NameWithId(ks, refs[j], names[j]);
    }
  }

  lemma {:induction false} RefNameSome(ks: seq<Key>, refs: seq<int>, j: int)
    requires 0 <= j < |refs| && !Unmatched(ks, refs[0])
    ensures RefNames(ks, refs, None)[j].Some?
    decreases j
  {
    RefNamesSpec(ks, refs, None);
    if j > 0 {
      RefNameSome(ks, refs, j - 1);
    }
  }

  /** `o` is the node of an object whose id is `ref`. */
  predicate MatchedObject(objs: seq<Key>, ref: int, o: Term) {
    exists k :: 0 <= k < |objs| && objs[k].id == ref && o == Inst(objs[k].name)
  }

  /** The per-object loop of lines 167-173: it succeeds exactly when its first add
      already has a name (there are no objects, the first object matches, or a name
      was carried in), and then links the instance to every object whose id matches,
      plus the carried name when the first object does not match. */
  lemma {:induction false} ReferencedObjectOutcome(g: Graph, node: Term, objs: seq<Key>, ref: int, carried: Option<string>)
    requires AllKeyed(g)
    requires KeysNamed(g, Sso.ObjectName, objs)
    requires carried.Some? ==> HasName(g, Sso.ObjectName, carried.value)
    ensures var r := ReferencedObjectLoop(g, node, objs, ref, carried);
            && (r.Success? <==> |objs| == 0 || objs[0].id == ref || carried.Some?)
            && (r.Failure? ==> r.error == UnresolvedReference(node, Sso.ReferencedObject))
            && (r.Success? ==> forall o :: Triple(node, Prop(Sso.ReferencedObject), o) in r.value <==>
                  || Triple(node, Prop(Sso.ReferencedObject), o) in g
                  || MatchedObject(objs, ref, o)
                  || (|objs| > 0 && objs[0].id != ref && carried.Some? && o == Inst(carried.value)))
    decreases |objs|
  {
    if |objs| > 0 {
      var name := Pick(objs[0], ref, carried);
      if name.Some? {
        KeyedLookup(g, Sso.ObjectName, name.value);
        var edge := Triple(node, Prop(Sso.ReferencedObject), Inst(name.value));
        var g1 := g + {edge};
        assert ReferencedObjectLoop(g, node, objs, ref, carried) == ReferencedObjectLoop(g1, node, objs[1..], ref, name);
        ReferencedObjectOutcome(g1, node, objs[1..], ref, name);
        var r := ReferencedObjectLoop(g1, node, objs[1..], ref, name);
        if r.Success? {
          forall o ensures MatchedObject(objs, ref, o) <==>
                             (objs[0].id == ref && o == Inst(objs[0].name)) || MatchedObject(objs[1..], ref, o) {
            if MatchedObject(objs[1..], ref, o) {
              var k :| 0 <= k < |objs[1..]| && objs[1..][k].id == ref && o == Inst(objs[1..][k].name);
              assert objs[k + 1] == objs[1..][k];
            }
            if MatchedObject(objs, ref, o) {
              var k :| 0 <= k < |objs| && objs[k].id == ref && o == Inst(objs[k].name);
              if k > 0 { assert objs[1..][k - 1] == objs[k]; }
            }
          }
          if objs[0].id == ref {
            assert MatchedObject(objs, ref, Inst(name.value));
          }
        }
      } else {
        assert FindByName(g, Prop(Sso.ObjectName), name) == NotFound;
      }
    }
  }

  // ---------------------------------------------------------------------------
  // Elements and objects (lines 95-147)

  /** Both references of an element resolve in `g`: its section id names a section
      (lines 133-137) whose name triple exists, and its material name triple exists. */
  predicate ElementResolves(g: Graph, sections: seq<Section>, e: Element) {
    var n := ElementSectionName(sections, e);
    n.Some? && HasName(g, Sso.SectionName, n.value) && HasName(g, Sso.MaterialName, e.material)
  }

  /** Everything one element contributes once both references resolve. */
  function ResolvedElementTriples(mesh: Term, sections: seq<Section>, e: Element): Graph
    requires ElementSectionName(sections, e).Some?
  {
    var node := ElementNode(e.id);
    ElementTriples(mesh, e)
    + { Triple(node, Prop(Sso.ElementSection), Inst(ElementSectionName(sections, e).value)),
        Triple(node, Prop(Sso.ElementMaterial), Inst(e.material)) }
  }

  /** A stage that writes neither `section_name` nor `material_name` keeps every
      element's resolvability. */
  lemma ResolvesStable(g: Graph, h: Graph, preds: set<Term>, sections: seq<Section>, e: Element)
    requires Grows(g, h, preds)
    requires Prop(Sso.SectionName) !in preds && Prop(Sso.MaterialName) !in preds
    ensures ElementResolves(h, sections, e) <==> ElementResolves(g, sections, e)
  {
    GrowsKeepsPred(g, h, preds, Prop(Sso.SectionName));
    GrowsKeepsPred(g, h, preds, Prop(Sso.MaterialName));
  }

  lemma ElementReferencesOutcome(g: Graph, node: Term, sectionName: Option<string>, material: string)
    requires AllKeyed(g)
    ensures var r := ElementReferences(g, node, sectionName, material);
            && (r.Success? <==> sectionName.Some? && HasName(g, Sso.SectionName, sectionName.value)
                                && HasName(g, Sso.MaterialName, material))
            && (r.Failure? ==> r.error.UnresolvedReference?)
            && (r.Success? ==> r.value == g + { Triple(node, Prop(Sso.ElementSection), Inst(sectionName.value)),
                                                Triple(node, Prop(Sso.ElementMaterial), Inst(material)) })
  {
    if sectionName.Some? {
      KeyedLookup(g, Sso.SectionName, sectionName.value);
      if HasName(g, Sso.SectionName, sectionName.value) {
        var g1 := g + {Triple(node, Prop(Sso.ElementSection), Inst(sectionName.value))};
        assert AllKeyed(g1);
        assert HasName(g1, Sso.MaterialName, material) <==> HasName(g, Sso.MaterialName, material);
        KeyedLookup(g1, Sso.MaterialName, material);
      }
    }
  }

  /** One element (lines 112-147): it succeeds exactly when both references resolve,
      and then adds its typed node, counts, mesh edge and the two reference edges. */
  lemma ElementStepOutcome(g: Graph, sections: seq<Section>, mesh: Term, e: Element)
    requires AllKeyed(g)
    ensures var r := ElementStep(g, sections, mesh, e);
            && (r.Success? <==> ElementResolves(g, sections, e))
            && (r.Failure? ==> r.error.UnresolvedReference?)
            && (r.Success? ==> r.value == g + ResolvedElementTriples(mesh, sections, e))
  {
    var g1 := g + ElementTriples(mesh, e);
    AddGrows(g, ElementTriples(mesh, e), ElementProps);
    ResolvesStable(g, g1, ElementProps, sections, e);
    ElementReferencesOutcome(g1, ElementNode(e.id), ElementSectionName(sections, e), e.material);
  }

  predicate AllElementsResolve(g: Graph, sections: seq<Section>, es: seq<Element>) {
    forall j :: 0 <= j < |es| ==> ElementResolves(g, sections, es[j])
  }

  /** `t` is one of the triples element `e` contributes once resolved. */
  predicate ElementContributes(t: Triple, mesh: Term, sections: seq<Section>, e: Element) {
    ElementSectionName(sections, e).Some? && t in ResolvedElementTriples(mesh, sections, e)
  }

  predicate FromElements(t: Triple, mesh: Term, sections: seq<Section>, es: seq<Element>) {
    exists j :: 0 <= j < |es| && ElementContributes(t, mesh, sections, es[j])
  }

  lemma FromElementsCons(t: Triple, mesh: Term, sections: seq<Section>, es: seq<Element>)
    requires |es| > 0
    ensures FromElements(t, mesh, sections, es) <==>
            ElementContributes(t, mesh, sections, es[0]) || FromElements(t, mesh, sections, es[1..])
  {
    if FromElements(t, mesh, sections, es[1..]) {
      var j :| 0 <= j < |es[1..]| && ElementContributes(t, mesh, sections, es[1..][j]);
      assert es[j + 1] == es[1..][j];
    }
    if FromElements(t, mesh, sections, es) {
      var j :| 0 <= j < |es| && ElementContributes(t, mesh, sections, es[j]);
      if j > 0 { assert es[1..][j - 1] == es[j]; }
    }
  }

  /** The element loop (lines 112-147) succeeds exactly when every element's
      references resolve in the graph it starts from, fails only on an unresolved
      reference, and adds exactly the elements' contributions. */
  lemma {:induction false} ElementsStageOutcome(g: Graph, sections: seq<Section>, mesh: Term, es: seq<Element>)
    requires AllKeyed(g)
    ensures var r := ElementsStage(g, sections, mesh, es);
            && (r.Success? <==> AllElementsResolve(g, sections, es))
            && (r.Failure? ==> r.error.UnresolvedReference?)
            && (r.Success? ==> forall t :: t in r.value <==> t in g || FromElements(t, mesh, sections, es))
    decreases |es|
  {
    if |es| > 0 {
      ElementStepOutcome(g, sections, mesh, es[0]);
      var r1 := ElementStep(g, sections, mesh, es[0]);
      if r1.Success? {
        var g1 := r1.value;
        GrowsKeepsKeyed(g, g1, ElementProps);
        ElementsStageOutcome(g1, sections, mesh, es[1..]);
        var r := ElementsStage(g, sections, mesh, es);
        assert r == ElementsStage(g1, sections, mesh, es[1..]);
        ResolveTail(g, g1, sections, es);
        if r.Success? {
          forall t ensures t in r.value <==> t in g || FromElements(t, mesh, sections, es) {
            FromElementsCons(t, mesh, sections, es);
          }
        }
      } else {
        assert !AllElementsResolve(g, sections, es) by {
          assert !ElementResolves(g, sections, es[0]);
        }
      }
    }
  }

  /** After the first element has been added, the remaining elements resolve in the
      new graph exactly when all of them resolve in the old one. */
  lemma ResolveTail(g: Graph, g1: Graph, sections: seq<Section>, es: seq<Element>)
    requires |es| > 0 && Grows(g, g1, ElementProps) && ElementResolves(g, sections, es[0])
    ensures AllElementsResolve(g1, sections, es[1..]) <==> AllElementsResolve(g, sections, es)
  {
    forall j | 0 <= j < |es| ensures ElementResolves(g1, sections, es[j]) <==> ElementResolves(g, sections, es[j]) {
      ResolvesStable(g, g1, ElementProps, sections, es[j]);
    }
    assert forall j :: 1 <= j < |es| ==> es[1..][j - 1] == es[j];
  }

  /** A graph grown without `section_name` or `material_name` triples resolves the
      same elements. */
  lemma AllResolveStable(g: Graph, h: Graph, preds: set<Term>, sections: seq<Section>, es: seq<Element>)
    requires Grows(g, h, preds)
    requires Prop(Sso.SectionName) !in preds && Prop(Sso.MaterialName) !in preds
    ensures AllElementsResolve(h, sections, es) <==> AllElementsResolve(g, sections, es)
  {
    forall j | 0 <= j < |es| ensures ElementResolves(h, sections, es[j]) <==> ElementResolves(g, sections, es[j]) {
      ResolvesStable(g, h, preds, sections, es[j]);
    }
  }

  /** `t` is one of the triples object `o` contributes: its own and its mesh's,
      or one of its elements'. */
  predicate ObjectContributes(t: Triple, sa: Term, sections: seq<Section>, o: Object) {
    t in ObjectTriples(sa, o) || FromElements(t, MeshNode(o.name), sections, o.mesh.elements)
  }

  predicate FromObjects(t: Triple, sa: Term, sections: seq<Section>, os: seq<Object>) {
    exists i :: 0 <= i < |os| && ObjectContributes(t, sa, sections, os[i])
  }

  /** Every element of every object resolves. */
  predicate ObjectsResolve(g: Graph, sections: seq<Section>, os: seq<Object>) {
    forall i :: 0 <= i < |os| ==> AllElementsResolve(g, sections, os[i].mesh.elements)
  }

  lemma FromObjectsCons(t: Triple, sa: Term, sections: seq<Section>, os: seq<Object>)
    requires |os| > 0
    ensures FromObjects(t, sa, sections, os) <==>
            ObjectContributes(t, sa, sections, os[0]) || FromObjects(t, sa, sections, os[1..])
  {
    if FromObjects(t, sa, sections, os[1..]) {
      var i :| 0 <= i < |os[1..]| && ObjectContributes(t, sa, sections, os[1..][i]);
      assert os[i + 1] == os[1..][i];
    }
    if FromObjects(t, sa, sections, os) {
      var i :| 0 <= i < |os| && ObjectContributes(t, sa, sections, os[i]);
      if i > 0 { assert os[1..][i - 1] == os[i]; }
    }
  }

  /** One object (lines 97-147): it succeeds exactly when all of its elements
      resolve, and adds its own triples and its elements'. */
  lemma ObjectStepOutcome(g: Graph, sa: Term, sections: seq<Section>, o: Object)
    requires AllKeyed(g)
    ensures var r := ObjectStep(g, sa, sections, o);
            && (r.Success? <==> AllElementsResolve(g, sections, o.mesh.elements))
            && (r.Failure? ==> r.error.UnresolvedReference?)
            && (r.Success? ==> forall t :: t in r.value <==> t in g || ObjectContributes(t, sa, sections, o))
  {
    var g1 := g + ObjectTriples(sa, o);
    AddGrows(g, ObjectTriples(sa, o), ObjectProps);
    GrowsKeepsKeyed(g, g1, ObjectProps);
    AllResolveStable(g, g1, ObjectProps, sections, o.mesh.elements);
    ElementsStageOutcome(g1, sections, MeshNode(o.name), o.mesh.elements);
  }

  /** The object loop (lines 95-147) succeeds exactly when every element of every
      object resolves in the graph it starts from, and adds exactly the objects'
      contributions. */
  lemma {:induction false} ObjectsStageOutcome(g: Graph, sa: Term, sections: seq<Section>, os: seq<Object>)
    requires AllKeyed(g)
    ensures var r := ObjectsStage(g, sa, sections, os);
            && (r.Success? <==> ObjectsResolve(g, sections, os))
            && (r.Failure? ==> r.error.UnresolvedReference?)
            && (r.Success? ==> forall t :: t in r.value <==> t in g || FromObjects(t, sa, sections, os))
    decreases |os|
  {
    if |os| > 0 {
      ObjectStepOutcome(g, sa, sections, os[0]);
      var r1 := ObjectStep(g, sa, sections, os[0]);
      if r1.Success? {
        var g1 := r1.value;
        GrowsKeepsKeyed(g, g1, ObjectProps);
        ObjectsStageOutcome(g1, sa, sections, os[1..]);
        var r := ObjectsStage(g, sa, sections, os);
        assert r == ObjectsStage(g1, sa, sections, os[1..]);
        ObjectsResolveTail(g, g1, sections, os);
        if r.Success? {
          forall t ensures t in r.value <==> t in g || FromObjects(t, sa, sections, os) {
            FromObjectsCons(t, sa, sections, os);
          }
        }
      } else {
        assert !ObjectsResolve(g, sections, os) by {
          assert !AllElementsResolve(g, sections, os[0].mesh.elements);
        }
      }
    }
  }

  lemma ObjectsResolveTail(g: Graph, g1: Graph, sections: seq<Section>, os: seq<Object>)
    requires |os| > 0 && Grows(g, g1, ObjectProps) && AllElementsResolve(g, sections, os[0].mesh.elements)
    ensures ObjectsResolve(g1, sections, os[1..]) <==> ObjectsResolve(g, sections, os)
  {
    forall i | 0 <= i < |os|
      ensures AllElementsResolve(g1, sections, os[i].mesh.elements) <==> AllElementsResolve(g, sections, os[i].mesh.elements)
    {
      AllResolveStable(g, g1, ObjectProps, sections, os[i].mesh.elements);
    }
    assert forall i :: 1 <= i < |os| ==> os[1..][i - 1] == os[i];
  }

  // ---------------------------------------------------------------------------
  // Assembly and instances (lines 150-173)

  /** `t` is one of the triples instance `inst` contributes: its own, or a
      `referenced_object` edge to an object whose id is the one it references. */
  predicate InstanceContributes(t: Triple, asmNode: Term, objects: seq<Object>, inst: Instance) {
    || t in InstanceTriples(asmNode, inst)
    || (t.s == Inst(inst.name) && t.p == Prop(Sso.ReferencedObject)
        && MatchedObject(ObjectKeys(objects), inst.referencedObject, t.o))
  }

  /** The per-object lookup of lines 167-173 finds a name on its first pass only
      when the first object is the referenced one (or there are no objects). */
  predicate InstanceLinkable(objects: seq<Object>, inst: Instance) {
    |objects| == 0 || objects[0].id == inst.referencedObject
  }

  /** One instance: it succeeds exactly when it is linkable, and then adds its
      triples and an edge to every object carrying the referenced id. */
  lemma InstanceStepOutcome(g: Graph, asmNode: Term, objects: seq<Object>, inst: Instance)
    requires AllKeyed(g)
    requires KeysNamed(g, Sso.ObjectName, ObjectKeys(objects))
    ensures var r := InstanceStep(g, asmNode, objects, inst);
            && (r.Success? <==> InstanceLinkable(objects, inst))
            && (r.Failure? ==> r.error == UnresolvedReference(Inst(inst.name), Sso.ReferencedObject))
            && (r.Success? ==> forall t :: t in r.value <==> t in g || InstanceContributes(t, asmNode, objects, inst))
  {
    var g1 := g + InstanceTriples(asmNode, inst);
    var node := Inst(inst.name);
    var keys := ObjectKeys(objects);
    AddGrows(g, InstanceTriples(asmNode, inst), AssemblyProps);
    GrowsKeepsKeyed(g, g1, AssemblyProps);
    ReferencedObjectOutcome(g1, node, keys, inst.referencedObject, None);
    var r := InstanceStep(g, asmNode, objects, inst);
    if r.Success? {
      forall t ensures t in r.value <==> t in g || InstanceContributes(t, asmNode, objects, inst) {
        if t in r.value && t !in g1 {
          assert t.s == node && t.p == Prop(Sso.ReferencedObject);
          assert t == Triple(node, Prop(Sso.ReferencedObject), t.o);
        }
      }
    }
  }

  predicate FromInstances(t: Triple, asmNode: Term, objects: seq<Object>, insts: seq<Instance>) {
    exists i :: 0 <= i < |insts| && InstanceContributes(t, asmNode, objects, insts[i])
  }

  lemma FromInstancesCons(t: Triple, asmNode: Term, objects: seq<Object>, insts: seq<Instance>)
    requires |insts| > 0
    ensures FromInstances(t, asmNode, objects, insts) <==>
            InstanceContributes(t, asmNode, objects, insts[0]) || FromInstances(t, asmNode, objects, insts[1..])
  {
    if FromInstances(t, asmNode, objects, insts[1..]) {
      var i :| 0 <= i < |insts[1..]| && InstanceContributes(t, asmNode, objects, insts[1..][i]);
      assert insts[i + 1] == insts[1..][i];
    }
    if FromInstances(t, asmNode, objects, insts) {
      var i :| 0 <= i < |insts| && InstanceContributes(t, asmNode, objects, insts[i]);
      if i > 0 { assert insts[1..][i - 1] == insts[i]; }
    }
  }

  predicate InstancesLinkable(objects: seq<Object>, insts: seq<Instance>) {
    forall i :: 0 <= i < |insts| ==> InstanceLinkable(objects, insts[i])
  }

  /** The instance loop (lines 162-173) succeeds exactly when every instance is
      linkable, and adds exactly the instances' contributions. */
  lemma {:induction false} InstancesStageOutcome(g: Graph, asmNode: Term, objects: seq<Object>, insts: seq<Instance>)
    requires AllKeyed(g)
    requires KeysNamed(g, Sso.ObjectName, ObjectKeys(objects))
    ensures var r := InstancesStage(g, asmNode, objects, insts);
            && (r.Success? <==> InstancesLinkable(objects, insts))
            && (r.Failure? ==> r.error.UnresolvedReference? && r.error.via == Sso.ReferencedObject)
            && (r.Success? ==> forall t :: t in r.value <==> t in g || FromInstances(t, asmNode, objects, insts))
    decreases |insts|
  {
    if |insts| > 0 {
      InstanceStepOutcome(g, asmNode, objects, insts[0]);
      var r1 := InstanceStep(g, asmNode, objects, insts[0]);
      if r1.Success? {
        var g1 := r1.value;
        GrowsKeepsKeyed(g, g1, AssemblyProps);
        InstancesStageOutcome(g1, asmNode, objects, insts[1..]);
        var r := InstancesStage(g, asmNode, objects, insts);
        assert r == InstancesStage(g1, asmNode, objects, insts[1..]);
        assert forall i :: 1 <= i < |insts| ==> insts[1..][i - 1] == insts[i];
        if r.Success? {
          forall t ensures t in r.value <==> t in g || FromInstances(t, asmNode, objects, insts) {
            FromInstancesCons(t, asmNode, objects, insts);
          }
        }
      }
    }
  }

  predicate AssemblyContributes(t: Triple, sa: Term, objects: seq<Object>, asm: Assembly) {
    t in AssemblyTriples(sa, asm) || FromInstances(t, Inst(asm.name), objects, asm.instances)
  }

  /** The assembly block (lines 150-173). */
  lemma AssemblyStageOutcome(g: Graph, sa: Term, objects: seq<Object>, asm: Assembly)
    requires AllKeyed(g)
    requires KeysNamed(g, Sso.ObjectName, ObjectKeys(objects))
    ensures var r := AssemblyStage(g, sa, objects, asm);
            && (r.Success? <==> InstancesLinkable(objects, asm.instances))
            && (r.Failure? ==> r.error.UnresolvedReference? && r.error.via == Sso.ReferencedObject)
            && (r.Success? ==> forall t :: t in r.value <==> t in g || AssemblyContributes(t, sa, objects, asm))
  {
    var g1 := g + AssemblyTriples(sa, asm);
    AddGrows(g, AssemblyTriples(sa, asm), AssemblyProps);
    GrowsKeepsKeyed(g, g1, AssemblyProps);
    InstancesStageOutcome(g1, Inst(asm.name), objects, asm.instances);
  }

  // ---------------------------------------------------------------------------
  // Boundary conditions and loads (lines 176-232)

  /** `t` is an `applied_to` edge from `node` to one of the looked-up names. */
  predicate AppliedEdge(t: Triple, node: Term, names: seq<Option<string>>) {
    t.s == node && t.p == Prop(Sso.AppliedTo) && NamedTarget(names, t.o)
  }

  /** The first referenced id matches some instance (or there is none), so every
      look-up of lines 184-193 has a name. */
  predicate RefsLinkable(instances: seq<Instance>, refs: seq<int>) {
    |refs| == 0 || !Unmatched(InstanceKeys(instances), refs[0])
  }

  /** The `applied_to` loop over a list of referenced instance ids: it succeeds
      exactly when the first id matches an instance, and then adds one edge per
      looked-up name and nothing else. */
  lemma AppliedRefsOutcome(g: Graph, node: Term, instances: seq<Instance>, refs: seq<int>)
    requires AllKeyed(g)
    requires KeysNamed(g, Sso.InstanceName, InstanceKeys(instances))
    ensures var names := InstanceRefNames(instances, refs);
            var r := AppliedToLoop(g, node, names);
            && (r.Success? <==> RefsLinkable(instances, refs))
            && (r.Failure? ==> r.error == UnresolvedReference(node, Sso.AppliedTo))
            && (r.Success? ==> forall t :: t in r.value <==> t in g || AppliedEdge(t, node, names))
  {
    var names := InstanceRefNames(instances, refs);
    assert names == RefNames(InstanceKeys(instances), refs, None) && |names| == |refs|;
    RefNamesPresent(InstanceKeys(instances), refs, g, Sso.InstanceName);
    AppliedToOutcome(g, node, names);
    var r := AppliedToLoop(g, node, names);
    if r.Success? {
      forall t ensures t in r.value <==> t in g || AppliedEdge(t, node, names) {
        if t in r.value && t !in g {
          assert t == Triple(node, Prop(Sso.AppliedTo), t.o);
        }
        if AppliedEdge(t, node, names) {
          assert t == Triple(node, Prop(Sso.AppliedTo), t.o);
        }
      }
    }
  }

  /** `t` is one of the triples the boundary condition numbered `k` contributes. */
  predicate BoundaryConditionContributes(t: Triple, sa: Term, instances: seq<Instance>, bc: BoundaryCondition, k: int) {
    || t in BoundaryConditionTriples(sa, BoundaryConditionNode(k))
    || AppliedEdge(t, BoundaryConditionNode(k), InstanceRefNames(instances, bc.instances))
  }

  /** The conditions are numbered from `counter` on, in order. */
  predicate FromBoundaryConditions(t: Triple, sa: Term, instances: seq<Instance>, bcs: seq<BoundaryCondition>, counter: int)
    decreases |bcs|
  {
    && |bcs| > 0
    && (|| BoundaryConditionContributes(t, sa, instances, bcs[0], counter)
        || FromBoundaryConditions(t, sa, instances, bcs[1..], counter + 1))
  }

  predicate BoundaryConditionsLinkable(instances: seq<Instance>, bcs: seq<BoundaryCondition>) {
    forall i :: 0 <= i < |bcs| ==> RefsLinkable(instances, bcs[i].instances)
  }

  /** The boundary-condition loop (lines 176-193) succeeds exactly when every
      condition's first referenced id matches an instance, and adds exactly the
      numbered conditions' contributions. */
  lemma {:induction false} BoundaryConditionsStageOutcome(g: Graph, sa: Term, instances: seq<Instance>,
                                                          bcs: seq<BoundaryCondition>, counter: int)
    requires AllKeyed(g)
    requires KeysNamed(g, Sso.InstanceName, InstanceKeys(instances))
    ensures var r := BoundaryConditionsStage(g, sa, instances, bcs, counter);
            && (r.Success? <==> BoundaryConditionsLinkable(instances, bcs))
            && (r.Failure? ==> r.error.UnresolvedReference? && r.error.via == Sso.AppliedTo)
            && (r.Success? ==> forall t :: t in r.value <==> t in g || FromBoundaryConditions(t, sa, instances, bcs, counter))
    decreases |bcs|
  {
    if |bcs| > 0 {
      var node := BoundaryConditionNode(counter);
      var g1 := g + BoundaryConditionTriples(sa, node);
      AddGrows(g, BoundaryConditionTriples(sa, node), BoundaryConditionProps);
      GrowsKeepsKeyed(g, g1, BoundaryConditionProps);
      AppliedRefsOutcome(g1, node, instances, bcs[0].instances);
      var r2 := AppliedToLoop(g1, node, InstanceRefNames(instances, bcs[0].instances));
      if r2.Success? {
        var g2 := r2.value;
        GrowsKeepsKeyed(g1, g2, {Prop(Sso.AppliedTo)});
        BoundaryConditionsStageOutcome(g2, sa, instances, bcs[1..], counter + 1);
        var r := BoundaryConditionsStage(g, sa, instances, bcs, counter);
        assert r == BoundaryConditionsStage(g2, sa, instances, bcs[1..], counter + 1);
        assert forall i :: 1 <= i < |bcs| ==> bcs[1..][i - 1] == bcs[i];
      }
    }
  }

  /** `t` is one of the triples the load numbered `k` contributes: its own, the
      `has_load` edge from its load case (line 221), and its `applied_to` edges. */
  predicate LoadContributes(t: Triple, sa: Term, instances: seq<Instance>, load: Load, k: int) {
    || t in LoadTriples(sa, LoadNode(k), load)
    || t == Triple(Inst(load.caseName), Prop(Sso.HasLoad), LoadNode(k))
    || AppliedEdge(t, LoadNode(k), InstanceRefNames(instances, load.instances))
  }

  /** The loads are numbered from `counter` on, in order. */
  predicate FromLoads(t: Triple, sa: Term, instances: seq<Instance>, loads: seq<Load>, counter: int)
    decreases |loads|
  {
    && |loads| > 0
    && (|| LoadContributes(t, sa, instances, loads[0], counter)
        || FromLoads(t, sa, instances, loads[1..], counter + 1))
  }

  /** A load's case name has its name triple and its first referenced id matches
      an instance. */
  predicate LoadLinkable(g: Graph, instances: seq<Instance>, load: Load) {
    HasName(g, Sso.LoadCaseName, load.caseName) && RefsLinkable(instances, load.instances)
  }

  predicate LoadsLinkable(g: Graph, instances: seq<Instance>, loads: seq<Load>) {
    forall i :: 0 <= i < |loads| ==> LoadLinkable(g, instances, loads[i])
  }

  /** One load (lines 210-232): it succeeds exactly when its load case exists and
      its first referenced id matches an instance. */
  lemma LoadStepOutcome(g: Graph, sa: Term, instances: seq<Instance>, load: Load, counter: int)
    requires AllKeyed(g)
    requires KeysNamed(g, Sso.InstanceName, InstanceKeys(instances))
    ensures var r := LoadStep(g, sa, instances, load, counter);
            && (r.Success? <==> LoadLinkable(g, instances, load))
            && (r.Failure? ==> r.error.UnresolvedReference?)
            && (r.Success? ==> forall t :: t in r.value <==> t in g || LoadContributes(t, sa, instances, load, counter))
  {
    var node := LoadNode(counter);
    var g1 := g + LoadTriples(sa, node, load);
    AddGrows(g, LoadTriples(sa, node, load), LoadProps);
    GrowsKeepsKeyed(g, g1, LoadProps);
    GrowsKeepsPred(g, g1, LoadProps, Prop(Sso.LoadCaseName));
    assert HasName(g1, Sso.LoadCaseName, load.caseName) <==> HasName(g, Sso.LoadCaseName, load.caseName);
    KeyedLookup(g1, Sso.LoadCaseName, load.caseName);
    if HasName(g, Sso.LoadCaseName, load.caseName) {
      var g2 := g1 + {Triple(Inst(load.caseName), Prop(Sso.HasLoad), node)};
      AddGrows(g1, {Triple(Inst(load.caseName), Prop(Sso.HasLoad), node)}, LoadProps);
      GrowsKeepsKeyed(g1, g2, LoadProps);
      AppliedRefsOutcome(g2, node, instances, load.instances);
    }
  }

  /** After a load has been added, the remaining loads are linkable in the new
      graph exactly when all of them are in the old one. */
  lemma LoadsLinkableTail(g: Graph, g1: Graph, instances: seq<Instance>, loads: seq<Load>)
    requires |loads| > 0 && Grows(g, g1, LoadProps) && LoadLinkable(g, instances, loads[0])
    ensures LoadsLinkable(g1, instances, loads[1..]) <==> LoadsLinkable(g, instances, loads)
  {
    GrowsKeepsPred(g, g1, LoadProps, Prop(Sso.LoadCaseName));
    forall i | 0 <= i < |loads|
      ensures LoadLinkable(g1, instances, loads[i]) <==> LoadLinkable(g, instances, loads[i])
    {
      assert HasName(g1, Sso.LoadCaseName, loads[i].caseName) <==> HasName(g, Sso.LoadCaseName, loads[i].caseName);
    }
    assert forall i :: 1 <= i < |loads| ==> loads[1..][i - 1] == loads[i];
  }

  /** The load loop (lines 207-232) succeeds exactly when every load is linkable in
      the graph it starts from, and adds exactly the numbered loads' contributions. */
  lemma {:induction false} LoadsStageOutcome(g: Graph, sa: Term, instances: seq<Instance>, loads: seq<Load>, counter: int)
    requires AllKeyed(g)
    requires KeysNamed(g, Sso.InstanceName, InstanceKeys(instances))
    ensures var r := LoadsStage(g, sa, instances, loads, counter);
            && (r.Success? <==> LoadsLinkable(g, instances, loads))
            && (r.Failure? ==> r.error.UnresolvedReference?)
            && (r.Success? ==> forall t :: t in r.value <==> t in g || FromLoads(t, sa, instances, loads, counter))
    decreases |loads|
  {
    if |loads| > 0 {
      LoadStepOutcome(g, sa, instances, loads[0], counter);
      var r1 := LoadStep(g, sa, instances, loads[0], counter);
      if r1.Success? {
        var g1 := r1.value;
        GrowsKeepsKeyed(g, g1, LoadProps);
        LoadsStageOutcome(g1, sa, instances, loads[1..], counter + 1);
        LoadsLinkableTail(g, g1, instances, loads);
        assert LoadsStage(g, sa, instances, loads, counter) == LoadsStage(g1, sa, instances, loads[1..], counter + 1);
      }
    }
  }
}
