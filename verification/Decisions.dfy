/** What the statement classifier says about one statement. */
module Decisions {
  datatype DecisionKind = AllowRead | AllowOperationalRead | AllowSetup | Reject

  datatype ExpressionKind =
    | ExpressionUnknown | ExpressionColumn | ExpressionLiteral | ExpressionSafeBuiltin | ExpressionCountStar

  datatype ExpressionContext = ExpressionContext(kind: ExpressionKind, functionName: string, safeBuiltin: bool)

  datatype Decision = Decision(kind: DecisionKind, contexts: seq<ExpressionContext>)

  predicate IsAllowedDecision(d: Decision) {
    d.kind == AllowRead || d.kind == AllowOperationalRead || d.kind == AllowSetup
  }
}
