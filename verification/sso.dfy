/** The structural-ontology (SSO) vocabulary the converter writes: its classes and
    properties, each named by a local name under the SSO namespace. */
module Sso {

  datatype Class =
    | StructuralAnalysisModel | Material | Section | Object | Mesh
    | Element | ShellElement | BeamElement | SolidElement | MembraneElement | TrussElement
    | Assembly | Instance | BoundaryCondition | LoadCase | Load

  datatype Property =
    | Name | Id | AsOsamJson
    | MaterialName | Elastic | Plastic | HasMaterial
    | SectionName | SectionType | HasSection
    | ObjectName | HasObject | Nodes | HasMesh
    | NodeCount | FaceCount | Dofs | HasElement | ElementSection | ElementMaterial
    | AssemblyName | HasAssembly | InstanceName | HasInstance | ReferencedObject
    | HasBoundaryCondition | AppliedTo
    | LoadCaseName | LoadCaseType | HasLoadCase | LoadType | HasLoad

  function ClassName(c: Class): string {
    match c
    case StructuralAnalysisModel => "StructuralAnalysisModel"
    case Material => "Material"
    case Section => "Section"
    case Object => "Object"
    case Mesh => "Mesh"
    case Element => "Element"
    case ShellElement => "ShellElement"
    case BeamElement => "BeamElement"
    case SolidElement => "SolidElement"
    case MembraneElement => "MembraneElement"
    case TrussElement => "TrussElement"
    case Assembly => "Assembly"
    case Instance => "Instance"
    case BoundaryCondition => "BoundaryCondition"
    case LoadCase => "LoadCase"
    case Load => "Load"
  }

  function PropertyName(p: Property): string {
    match p
    case Name => "name"
    case Id => "id"
    case AsOsamJson => "as_OSAM-json"
    case MaterialName => "material_name"
    case Elastic => "elastic"
    case Plastic => "plastic"
    case HasMaterial => "has_material"
    case SectionName => "section_name"
    case SectionType => "section_type"
    case HasSection => "has_section"
    case ObjectName => "object_name"
    case HasObject => "has_object"
    case Nodes => "nodes"
    case HasMesh => "has_mesh"
    case NodeCount => "node_count"
    case FaceCount => "face_count"
    case Dofs => "dofs"
    case HasElement => "has_element"
    case ElementSection => "element_section"
    case ElementMaterial => "element_material"
    case AssemblyName => "assembly_name"
    case HasAssembly => "has_assembly"
    case InstanceName => "instance_name"
    case HasInstance => "has_instance"
    case ReferencedObject => "referenced_object"
    case HasBoundaryCondition => "has_boundary_condition"
    case AppliedTo => "applied_to"
    case LoadCaseName => "loadCase_name"
    case LoadCaseType => "loadCase_type"
    case HasLoadCase => "has_loadCase"
    case LoadType => "load_type"
    case HasLoad => "has_load"
  }
}
