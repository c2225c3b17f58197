/** The typed blocks of a requirement document (`requirements_render/blocks.py`). */
module Blocks {
  import opened Text

  datatype BlockKind =
    | Intent | UserStory | FunctionalRequirement | SuccessCriterion | Constraint | Scope
    | Directional | OpenQuestion | Evidence | Decision

  /** `level` is 1 for a whole section and 2 for an element of one; `first` and `last` are its lines, from 1. */
  datatype Block = Block(
    kind: BlockKind, level: nat, body: string, heading: Option<string>, ref: Option<string>, first: nat, last: nat)
}
