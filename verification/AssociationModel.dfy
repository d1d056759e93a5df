/** The association graph's stored records (src/contracts/types.ts). */
module AssociationModel {

  datatype NodeKind = Knowledge | Playbook | WorkingMemory | WorkItem

  // The source keys its maps by the text `kind:id`; kinds hold no colon, so the
  // text and the pair identify the same node.
  datatype NodeRef = NodeRef(kind: NodeKind, id: int)

  datatype AssociationType = Supports | Contradicts | Supersedes | RelatedTo | DependsOn | DerivedFrom

  datatype Association = Association(
    id: nat,
    source: NodeRef,
    target: NodeRef,
    associationType: AssociationType,
    confidence: real
  )
}
