/**
 * The persisted records the views read, as values: the rows of the Rule,
 * Category, SourceAtVersion and Threshold tables.  Rulesets, whose
 * many-to-many relations the views change in place, are objects of the
 * class `Rulesets.Ruleset`.
 */
module Catalog {
  import opened Wrappers

  /** A primary key. */
  type Id = nat

  /** A detection rule: `state` is false when the rule is commented out in its feed. */
  datatype Rule = Rule(pk: Id, sid: nat, category: Id, content: string, state: bool)

  /** A named group of rules belonging to one source. */
  datatype Category = Category(pk: Id, name: string, source: Id)

  /** One version of a source; the current one carries the version name "HEAD". */
  datatype SourceAtVersion = SourceAtVersion(pk: Id, source: Id, version: string)

  /**
   * A threshold or suppress directive.  `rule` and `ruleset` are the foreign
   * keys, absent on a candidate built only to test containment.
   */
  datatype Threshold = Threshold(
    rule: Option<Id>,
    ruleset: Option<Id>,
    thresholdType: string,
    trackBy: string,
    net: Option<string>)

  /** The action a rule can be transformed to. */
  datatype Action = Alert | Allow | Drop
}
