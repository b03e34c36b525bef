/** Entities exchanged between components. Identifiers, sort keys and group names are
    values of an abstract total order; `nat` supplies one and nothing but its order is used. */
module Types {

  type Id = nat
  type Key = nat
  type Group = nat
  type Field = string
  type Value = string

  datatype DecisionKind = Match | NotMatch

  datatype DecisionEdge = DecisionEdge(decision: Id, left: Id, right: Id, kind: DecisionKind)

  datatype PairResult =
    | Prohibited | ManualMatch | AuthorityConflict
    | AutomaticIdentity | AutomaticStrong | Review | NoEdge
  {
    predicate IsAutomaticEdge() {
      AutomaticIdentity? || AutomaticStrong?
    }

    /** The results that `affected::build` follows. */
    predicate Connects() {
      AutomaticIdentity? || AutomaticStrong? || Review?
    }
  }

  /** A decided candidate pair; evidence items and reason codes play no part after this point. */
  datatype PairDecision = PairDecision(
    left: Id, right: Id, leftKey: Key, rightKey: Key,
    result: PairResult, groups: seq<Group>, sortKey: Key)
}
