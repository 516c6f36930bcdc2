/** What the commit timeline shows of a commit: its id and its edges to shown ancestors. */
module TimelineTypes {
  import opened CommitGraph

  /** An edge to a shown ancestor; `elided` when hidden commits lie between. */
  datatype GraphParent = GraphParent(hash: Oid, elided: bool)

  datatype CommitInfo = Missing(hash: Oid) | Complete(hash: Oid, parents: seq<GraphParent>)
  {
    function Parents(): seq<GraphParent> {
      match this
      case Missing(_) => []
      case Complete(_, parents) => parents
    }
  }
}
