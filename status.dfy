/**
 * The status columns of the rule and category pages: for every ruleset,
 * whether the rule (or category) is active in it, and for a rule whether
 * the ruleset holds a threshold on it.
 */
module Status {
  import opened Wrappers
  import opened Seqs
  import opened Catalog
  import opened Rulesets

  const Active := "Active"
  const Inactive := "Inactive"

  /** A rule is active in a ruleset when it is available, its category is selected and it is not suppressed. */
  function RuleStatus(rule: Rule, categories: set<Id>, suppressed: set<Id>): (status: string)
    ensures status == Active || status == Inactive
  {
    if rule.state && rule.category in categories && rule.pk !in suppressed then Active else Inactive
  }

  /** A category is active in a ruleset when the ruleset selects it. */
  function CategoryStatus(cat: Id, categories: set<Id>): (status: string)
    ensures status == Active || status == Inactive
  {
    if cat in categories then Active else Inactive
  }

  /** `Threshold.objects.filter(rule=rule, ruleset=ruleset)`. */
  function ThresholdsOn(rule: Id, ruleset: Id, thresholds: seq<Threshold>): seq<Threshold> {
    Filter(thresholds, (t: Threshold) => t.rule == Some(rule) && t.ruleset == Some(ruleset))
  }

  /** One row of the rule page's ruleset table. */
  datatype RuleStatusRow = RuleStatusRow(name: string, pk: Id, status: string, validity: string, threshold: string)

  /** One row of the category page's ruleset table. */
  datatype CategoryStatusRow = CategoryStatusRow(name: string, pk: Id, status: string)

  /**
   * The ruleset table of the `rule` view, one row per ruleset in order.
   * Validity is always "Unknown"; the threshold column says "Yes" exactly
   * when some threshold directive names both the rule and the ruleset.
   */
  method RuleRulesetsStatus(rule: Rule, rulesets: seq<Ruleset>, thresholds: seq<Threshold>)
    returns (rows: seq<RuleStatusRow>)
    ensures |rows| == |rulesets|
    ensures forall i :: 0 <= i < |rows| ==>
      && rows[i].name == rulesets[i].name && rows[i].pk == rulesets[i].pk
      && rows[i].status == RuleStatus(rule, rulesets[i].categories, rulesets[i].suppressedRules)
      && rows[i].validity == "Unknown"
      && (rows[i].threshold == "Yes" <==>
            exists t :: t in thresholds && t.rule == Some(rule.pk) && t.ruleset == Some(rulesets[i].pk))
      && (rows[i].threshold == "Yes" || rows[i].threshold == "No")
  {
    rows := [];
    for i := 0 to |rulesets|
      invariant |rows| == i
      invariant forall k :: 0 <= k < i ==>
        && rows[k].name == rulesets[k].name && rows[k].pk == rulesets[k].pk
        && rows[k].status == RuleStatus(rule, rulesets[k].categories, rulesets[k].suppressedRules)
        && rows[k].validity == "Unknown"
        && (rows[k].threshold == "Yes" <==>
              exists t :: t in thresholds && t.rule == Some(rule.pk) && t.ruleset == Some(rulesets[k].pk))
        && (rows[k].threshold == "Yes" || rows[k].threshold == "No")
    {
      var ruleset := rulesets[i];
      var status := Inactive;
      if rule.state && rule.category in ruleset.categories && rule.pk !in ruleset.suppressedRules {
        status := Active;
      }
      var threshold := "No";
      FilterNonEmpty(thresholds, (t: Threshold) => t.rule == Some(rule.pk) && t.ruleset == Some(ruleset.pk));
      if |ThresholdsOn(rule.pk, ruleset.pk, thresholds)| > 0 {
        threshold := "Yes";
      }
      rows := rows + [RuleStatusRow(ruleset.name, ruleset.pk, status, "Unknown", threshold)];
    }
  }

  /** The ruleset table of the `category` view, one row per ruleset in order. */
  method CategoryRulesetsStatus(cat: Category, rulesets: seq<Ruleset>) returns (rows: seq<CategoryStatusRow>)
    ensures |rows| == |rulesets|
    ensures forall i :: 0 <= i < |rows| ==>
      && rows[i].name == rulesets[i].name && rows[i].pk == rulesets[i].pk
      && (rows[i].status == Active <==> cat.pk in rulesets[i].categories)
      && (rows[i].status == Active || rows[i].status == Inactive)
  {
    rows := [];
    for i := 0 to |rulesets|
      invariant |rows| == i
      invariant forall k :: 0 <= k < i ==>
        && rows[k].name == rulesets[k].name && rows[k].pk == rulesets[k].pk
        && (rows[k].status == Active <==> cat.pk in rulesets[k].categories)
        && (rows[k].status == Active || rows[k].status == Inactive)
    {
      var ruleset := rulesets[i];
      var status := Inactive;
      if cat.pk in ruleset.categories {
        status := Active;
      }
      rows := rows + [CategoryStatusRow(ruleset.name, ruleset.pk, status)];
    }
  }

  /** A rule shown active in a ruleset has its category shown active there too. */
  lemma ActiveRuleHasActiveCategory(rule: Rule, categories: set<Id>, suppressed: set<Id>)
    requires RuleStatus(rule, categories, suppressed) == Active
    ensures CategoryStatus(rule.category, categories) == Active
  {
  }

  /** A rule commented out in its feed is inactive in every ruleset. */
  lemma CommentedRuleInactive(rule: Rule, categories: set<Id>, suppressed: set<Id>)
    requires !rule.state
    ensures RuleStatus(rule, categories, suppressed) == Inactive
  {
  }

  /** Suppressing a category makes it and all its rules inactive, and leaves the other categories' status alone. */
  lemma SuppressCategoryDeactivates(rule: Rule, other: Id, categories: set<Id>, suppressed: set<Id>)
    requires other != rule.category
    ensures var after := CategoriesAfter(Suppress, rule.category, categories);
      && RuleStatus(rule, after, suppressed) == Inactive
      && CategoryStatus(rule.category, after) == Inactive
      && CategoryStatus(other, after) == CategoryStatus(other, categories)
  {
  }

  /** Enabling a category activates each of its available, unsuppressed rules. */
  lemma EnableCategoryActivates(rule: Rule, categories: set<Id>, suppressed: set<Id>)
    requires rule.state && rule.pk !in suppressed
    ensures RuleStatus(rule, CategoriesAfter(Enable, rule.category, categories), suppressed) == Active
  {
  }

  /** A transform operation changes no rule's status. */
  lemma TransformKeepsStatus(rule: Rule, cat: Id, action: Action, categories: set<Id>, suppressed: set<Id>)
    ensures RuleStatus(rule, CategoriesAfter(Transform(action), cat, categories), suppressed)
         == RuleStatus(rule, categories, suppressed)
  {
  }

  /**
   * After `activate_source`, every available, unsuppressed rule of the
   * source's categories is active, and no rule active before has become
   * inactive.
   */
  lemma ActivateSourceActivates(rule: Rule, src: Id, allCategories: seq<Category>, categories: set<Id>, suppressed: set<Id>)
    ensures var after := categories + SourceCategoryIds(src, allCategories);
      && (RuleStatus(rule, categories, suppressed) == Active ==> RuleStatus(rule, after, suppressed) == Active)
      && ((rule.state && rule.pk !in suppressed && exists c :: c in allCategories && c.source == src && c.pk == rule.category) ==>
            RuleStatus(rule, after, suppressed) == Active)
  {
  }
}
