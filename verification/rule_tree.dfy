/**
 * The parsed rule as the transformer reads it: only the fields it accesses
 * (`rule.domain`, `rule.detectionSelector`, `rule.options`, `rule.chains`,
 * `chain.positive`, `chain.selector`, `chain.actions`, `action.kind`,
 * `action.options`, and the decoded `value` of an identifier).
 */
module RuleTree {
  import opened Wrappers

  /** A token; only its decoded text matters to the transformer. */
  datatype Identifier = Identifier(value: string)

  /** A `name` or `name=value` / `name: value` entry; no value means a boolean flag. */
  datatype OptionDecl = OptionDecl(name: Identifier, value: Option<Identifier>)

  /** The action keywords the transformer handles, and every other keyword. */
  datatype ActionKind =
    | ExistsKind
    | VisibleKind
    | WaitForKind
    | WaitForVisibleKind
    | ClickKind
    | WaitForThenClickKind
    | WaitKind
    | HideKind
    | EvalKind
    | OtherKind(keyword: string)

  datatype ActionDeclaration = ActionDeclaration(kind: ActionKind, options: seq<OptionDecl>)

  /** A `+` (positive, opt-in) or `-` (opt-out) chain of actions on one selector. */
  datatype ChainableDeclaration =
    ChainableDeclaration(positive: bool, selector: Identifier, actions: seq<ActionDeclaration>)

  datatype RuleDeclaration = RuleDeclaration(
    domain: Identifier,
    detectionSelector: Identifier,
    chains: seq<ChainableDeclaration>,
    options: seq<OptionDecl>)
}
