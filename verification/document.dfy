/** The OSAM structural-analysis document, as the converter reads it from JSON.
    Only the fields the converter uses are modelled, and the document is taken to be
    well formed: every field is present with the type the converter expects. */
module Document {
  import opened Wrappers

  /** A nested `elastic` or `plastic` definition. Its content is never read: only
      whether the field is null matters. */
  datatype PropertyBlock = PropertyBlock(raw: string)

  datatype Material = Material(name: string, elastic: Option<PropertyBlock>, plastic: Option<PropertyBlock>)

  datatype Section = Section(id: int, name: string, sectionType: string)

  /** A mesh element. `kind` is the JSON `type`; `section` is a section id, while
      `material` is compared directly with material names. */
  datatype Element = Element(
    id: int,
    kind: string,
    nodeCount: int,
    faceCount: int,
    dofs: seq<string>,
    section: int,
    material: string)

  datatype Mesh = Mesh(nodeCount: int, elements: seq<Element>)

  datatype Object = Object(id: int, name: string, mesh: Mesh)

  datatype Instance = Instance(id: int, name: string, referencedObject: int)

  datatype Assembly = Assembly(name: string, instances: seq<Instance>)

  /** A boundary condition: the ids of the instances it is applied to. */
  datatype BoundaryCondition = BoundaryCondition(instances: seq<int>)

  datatype LoadCase = LoadCase(name: string, kind: string)

  /** A load: its `type`, the name of its load case and the ids of its instances. */
  datatype Load = Load(kind: string, caseName: string, instances: seq<int>)

  /** The whole document; `bc` is the list of boundary conditions. */
  datatype Osam = Osam(
    name: string,
    id: string,
    materials: seq<Material>,
    sections: seq<Section>,
    objects: seq<Object>,
    assembly: Assembly,
    bc: seq<BoundaryCondition>,
    loadCases: seq<LoadCase>,
    loads: seq<Load>)
}
