/** RDF terms, triples and the in-memory graph, with the two graph operations the
    converter uses: adding a triple and scanning for the subject that carries a
    given name literal. */
module Rdf {
  import opened Wrappers
  import Sso

  /** `base_ref`: the namespace of every model node (INST). */
  const BaseRef: string := "http://www.upclabmodelsdigitals.org/Models/OSAM/"
  /** `sso_base_ref`: the namespace of the SSO vocabulary. */
  const SsoBaseRef: string := BaseRef + "SSO#"
  const RdfBaseRef: string := "http://www.w3.org/1999/02/22-rdf-syntax-ns#"
  const OwlBaseRef: string := "http://www.w3.org/2002/07/owl#"

  /** A node or literal. Literals carry their XSD datatype in the constructor:
      `Str` is xsd:string, `Int` xsd:integer and `Bool` xsd:boolean. */
  datatype Term =
    | Inst(local: string)        // INST[local]
    | Class(c: Sso.Class)        // SSO.<class>
    | Prop(p: Sso.Property)      // SSO.<property>
    | RdfType                    // RDF.type
    | OwlOntology                // OWL.Ontology
    | SsoOntology                // the SSO namespace IRI itself
    | Str(s: string)
    | Int(i: int)
    | Bool(b: bool)

  predicate IsIri(t: Term) {
    t.Inst? || t.Class? || t.Prop? || t.RdfType? || t.OwlOntology? || t.SsoOntology?
  }

  /** The IRI string a node term stands for. */
  function Iri(t: Term): string
    requires IsIri(t)
  {
    match t
    case Inst(local) => BaseRef + local
    case Class(c) => SsoBaseRef + Sso.ClassName(c)
    case Prop(p) => SsoBaseRef + Sso.PropertyName(p)
    case RdfType => RdfBaseRef + "type"
    case OwlOntology => OwlBaseRef + "Ontology"
    case SsoOntology => SsoBaseRef
  }

  /** INST[a] and INST[b] are the same IRI only for the same local name. */
  lemma InstIriInjective(a: string, b: string)
    ensures Iri(Inst(a)) == Iri(Inst(b)) <==> a == b
  {
    if Iri(Inst(a)) == Iri(Inst(b)) {
      assert a == Iri(Inst(a))[|BaseRef|..];
      assert b == Iri(Inst(b))[|BaseRef|..];
    }
  }

  datatype Triple = Triple(s: Term, p: Term, o: Term)

  /** An rdflib graph is a set of triples: adding a present triple changes nothing. */
  type Graph = set<Triple>

  /** The properties whose literal is later used to find the node that carries it. */
  const NameProps: set<Sso.Property> :=
    {Sso.MaterialName, Sso.SectionName, Sso.ObjectName, Sso.InstanceName, Sso.LoadCaseName}

  /** A name triple is keyed when its subject is the INST node of its own name literal:
      this is how every `*_name` triple is written. */
  predicate Keyed(t: Triple) {
    t.p.Prop? && t.p.p in NameProps ==> t.o.Str? && t.s == Inst(t.o.s)
  }

  predicate AllKeyed(g: Graph) {
    forall t :: t in g ==> Keyed(t)
  }

  /** The graph holds the name triple `INST[n] p "n"`. */
  predicate HasName(g: Graph, p: Sso.Property, n: string) {
    Triple(Inst(n), Prop(p), Str(n)) in g
  }

  /** Every triple of the graph uses one of the given predicates. */
  predicate Only(g: Graph, preds: set<Term>) {
    forall t :: t in g ==> t.p in preds
  }

  /** `h` extends `g` (append-only) by keyed triples whose predicates are among `preds`. */
  predicate Grows(g: Graph, h: Graph, preds: set<Term>) {
    && g <= h
    && forall t :: t in h && t !in g ==> t.p in preds && Keyed(t)
  }

  /** Every triple of `extra` is keyed and uses one of `preds`. */
  predicate Writes(extra: Graph, preds: set<Term>) {
    forall t :: t in extra ==> t.p in preds && Keyed(t)
  }

  lemma AddGrows(g: Graph, extra: Graph, preds: set<Term>)
    requires Writes(extra, preds)
    ensures Grows(g, g + extra, preds)
  {
  }

  lemma GrowsTrans(g1: Graph, g2: Graph, g3: Graph, p: set<Term>, q: set<Term>)
    requires Grows(g1, g2, p) && Grows(g2, g3, q)
    ensures Grows(g1, g3, p + q)
  {
  }

  lemma GrowsKeepsKeyed(g: Graph, h: Graph, preds: set<Term>)
    requires AllKeyed(g) && Grows(g, h, preds)
    ensures AllKeyed(h)
  {
  }

  /** A stage that does not write predicate `p` leaves the `p` triples unchanged. */
  lemma GrowsKeepsPred(g: Graph, h: Graph, preds: set<Term>, p: Term)
    requires Grows(g, h, preds) && p !in preds
    ensures forall t :: t in h && t.p == p <==> t in g && t.p == p
  {
  }

  // ---------------------------------------------------------------------------
  // Finding the subject that carries a name literal

  /** Outcome of scanning for the subject of a name literal. rdflib iterates the
      matches in an unspecified order and keeps the last one, so more than one
      distinct subject is reported as ambiguous rather than resolved to an arbitrary one. */
  datatype Lookup = Found(node: Term) | NotFound | Ambiguous(nodes: set<Term>)

  function SubjectsNamed(g: Graph, p: Term, n: string): set<Term> {
    set t | t in g && t.p == p && t.o == Str(n) :: t.s
  }

  lemma SubjectsNamedSpec(g: Graph, p: Term, n: string)
    ensures forall s :: s in SubjectsNamed(g, p, n) <==> Triple(s, p, Str(n)) in g
  {
    forall s ensures s in SubjectsNamed(g, p, n) <==> Triple(s, p, Str(n)) in g {
      if Triple(s, p, Str(n)) in g {
        assert Triple(s, p, Str(n)).s == s;
      }
    }
  }

  lemma SingletonMembers<T>(s: set<T>)
    requires |s| == 1
    ensures forall a, b :: a in s && b in s ==> a == b
  {
    var x :| x in s;
    var rest := s - {x};
    assert s == rest + {x};
    assert |rest| == 0;
    assert rest == {};
  }

  /** The one element of a singleton set. */
  function Sole<T>(s: set<T>): (x: T)
    requires |s| == 1
    ensures s == {x}
  {
    SingletonMembers(s);
    var x :| x in s; x
  }

  /** Finds the node carrying the name literal `name` under predicate `p`. A name that
      is None (the source's unmatched id) is a literal nothing was written with.
      Its meaning is stated by `FindByNameSpec`. */
  function FindByName(g: Graph, p: Term, name: Option<string>): Lookup {
    if name.None? then NotFound
    else
      var matches := SubjectsNamed(g, p, name.value);
      if matches == {} then NotFound
      else if |matches| == 1 then Found(Sole(matches))
      else Ambiguous(matches)
  }

  /** The lookup finds the one subject carrying the literal, finds nothing exactly
      when no subject carries it, and is ambiguous only between several subjects. */
  lemma FindByNameSpec(g: Graph, p: Term, name: Option<string>)
    ensures var r := FindByName(g, p, name);
            && (r.Found? ==>
                  && name.Some?
                  && Triple(r.node, p, Str(name.value)) in g
                  && forall s :: Triple(s, p, Str(name.value)) in g ==> s == r.node)
            && (r.NotFound? <==> name.None? || forall s :: Triple(s, p, Str(name.value)) !in g)
            && (r.Ambiguous? ==> name.Some? && r.nodes == SubjectsNamed(g, p, name.value) && |r.nodes| >= 2)
  {
    if name.Some? {
      var matches := SubjectsNamed(g, p, name.value);
      SubjectsNamedSpec(g, p, name.value);
      if |matches| == 1 {
        SingletonMembers(matches);
      } else if matches == {} {
        assert forall s :: Triple(s, p, Str(name.value)) !in g by {
          forall s ensures Triple(s, p, Str(name.value)) !in g {
            assert s !in matches;
          }
        }
      } else {
        var s0 :| s0 in matches;
        assert Triple(s0, p, Str(name.value)) in g;
      }
    }
  }

  /** In a graph whose name triples are all keyed, the scan for a name predicate
      returns INST[n] exactly when the name triple for `n` was added, and never
      reports ambiguity. */
  lemma KeyedLookup(g: Graph, p: Sso.Property, n: string)
    requires AllKeyed(g) && p in NameProps
    ensures FindByName(g, Prop(p), Some(n)) == if HasName(g, p, n) then Found(Inst(n)) else NotFound
  {
    var matches := SubjectsNamed(g, Prop(p), n);
    SubjectsNamedSpec(g, Prop(p), n);
    assert matches <= {Inst(n)} by {
      forall s | s in matches ensures s == Inst(n) {
        assert Keyed(Triple(s, Prop(p), Str(n)));
      }
    }
    if HasName(g, p, n) {
      assert matches == {Inst(n)};
    } else {
      assert matches == {};
    }
  }

  // ---------------------------------------------------------------------------
  // Adding a resolved reference

  /** Why the build stopped: a `g.add` whose subject or object is a lookup that found
      nothing (the source passes `None`), or a lookup with several candidates. */
  datatype BuildError =
    | UnresolvedReference(at: Term, via: Sso.Property)
    | AmbiguousReference(at: Term, via: Sso.Property, candidates: set<Term>)

  /** The node a lookup produced, or the error of using a failed lookup in a triple
      written at `at` with predicate `via`. */
  function Resolve(l: Lookup, at: Term, via: Sso.Property): (r: Result<Term, BuildError>)
    ensures r.Success? <==> l.Found?
    ensures r.Success? ==> r.value == l.node
    ensures l.NotFound? ==> r == Failure(UnresolvedReference(at, via))
    ensures l.Ambiguous? ==> r == Failure(AmbiguousReference(at, via, l.nodes))
  {
    match l
    case Found(n) => Success(n)
    case NotFound => Failure(UnresolvedReference(at, via))
    case Ambiguous(ns) => Failure(AmbiguousReference(at, via, ns))
  }
}
