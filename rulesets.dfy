/**
 * A ruleset's selections, as the views change them: its categories, its
 * source versions and its suppressed rules are many-to-many relations that
 * `add`, `remove` and `clear` update in place, and `needs_test()` raises a
 * flag saying the ruleset must be tested again.  Calls the views make into
 * the rule model (`transform`, `enable`) are returned as call records.
 */
module Rulesets {
  import opened Wrappers
  import opened Seqs
  import opened Catalog

  /** The operations of the category pages. */
  datatype CategoryOp = Suppress | Enable | Transform(action: Action)

  /** A call `rule.transform(action, ruleset)`. */
  datatype TransformCall = TransformCall(rule: Id, action: Action, ruleset: Id)

  /** The categories of a ruleset after a category operation on `cat`. */
  function CategoriesAfter(op: CategoryOp, cat: Id, categories: set<Id>): (after: set<Id>)
    ensures forall c :: c != cat ==> (c in after <==> c in categories)
    ensures op.Suppress? ==> cat !in after
    ensures op.Enable? ==> cat in after
    ensures op.Transform? ==> after == categories
  {
    match op
    case Suppress => categories - {cat}
    case Enable => categories + {cat}
    case Transform(_) => categories
  }

  /** Applying a category operation a second time changes nothing more. */
  lemma CategoryOperationIdempotent(op: CategoryOp, cat: Id, categories: set<Id>)
    ensures CategoriesAfter(op, cat, CategoriesAfter(op, cat, categories)) == CategoriesAfter(op, cat, categories)
  {
  }

  /** The rules of a category, all of them, commented out or not. */
  function RulesOf(cat: Id, rules: seq<Rule>): seq<Rule> {
    Filter(rules, (r: Rule) => r.category == cat)
  }

  /** One transform call per rule, in order. */
  function TransformCalls(action: Action, rules: seq<Rule>, ruleset: Id): (calls: seq<TransformCall>)
    ensures |calls| == |rules|
    ensures forall i :: 0 <= i < |rules| ==> calls[i] == TransformCall(rules[i].pk, action, ruleset)
  {
    seq(|rules|, i requires 0 <= i < |rules| => TransformCall(rules[i].pk, action, ruleset))
  }

  /** The transform calls a category operation makes on one ruleset. */
  function CallsFor(op: CategoryOp, cat: Id, rules: seq<Rule>, ruleset: Id): seq<TransformCall> {
    if op.Transform? then TransformCalls(op.action, RulesOf(cat, rules), ruleset) else []
  }

  /** The transform calls made over several rulesets, ruleset after ruleset. */
  function CallsOver(op: CategoryOp, cat: Id, rules: seq<Rule>, rulesets: seq<Id>): (calls: seq<TransformCall>)
    decreases |rulesets|
  {
    if |rulesets| == 0 then []
    else CallsOver(op, cat, rules, rulesets[..|rulesets| - 1]) + CallsFor(op, cat, rules, rulesets[|rulesets| - 1])
  }

  /** Only a transform operation calls into the rules, and then only on rules of the category. */
  lemma {:induction false} CallsOverTargets(op: CategoryOp, cat: Id, rules: seq<Rule>, rulesets: seq<Id>)
    ensures !op.Transform? ==> CallsOver(op, cat, rules, rulesets) == []
    ensures forall call :: call in CallsOver(op, cat, rules, rulesets) ==>
      op.Transform? && call.action == op.action && call.ruleset in rulesets &&
      exists r :: r in rules && r.category == cat && r.pk == call.rule
    decreases |rulesets|
  {
    if |rulesets| > 0 {
      var init := rulesets[..|rulesets| - 1];
      CallsOverTargets(op, cat, rules, init);
      forall call | call in CallsFor(op, cat, rules, rulesets[|rulesets| - 1])
        ensures exists r :: r in rules && r.category == cat && r.pk == call.rule
      {
        var targets := RulesOf(cat, rules);
        var i :| 0 <= i < |targets| && TransformCalls(op.action, targets, rulesets[|rulesets| - 1])[i] == call;
        assert targets[i] in targets;
      }
    }
  }

  /** The length of the longest prefix of `selection` whose ids all exist. */
  function KnownPrefix(selection: seq<Id>, known: set<Id>): (k: nat)
    ensures k <= |selection|
    ensures forall i :: 0 <= i < k ==> selection[i] in known
    ensures k < |selection| ==> selection[k] !in known
    decreases |selection|
  {
    if |selection| == 0 || selection[0] !in known then 0
    else 1 + KnownPrefix(selection[1..], known)
  }

  /** The first submitted id that does not exist, on which `get_object_or_404` aborts. */
  function FirstUnknown(selection: seq<Id>, known: set<Id>): Option<Id> {
    var k := KnownPrefix(selection, known);
    if k < |selection| then Some(selection[k]) else None
  }

  /** What a clear-then-add edit leaves: the ids added before the first unknown one. */
  function Replaced(selection: seq<Id>, known: set<Id>): set<Id> {
    Elements(selection[..KnownPrefix(selection, known)])
  }

  /** When every id exists the relation becomes exactly the submitted selection. */
  lemma ReplacedOnSuccess(selection: seq<Id>, known: set<Id>)
    requires FirstUnknown(selection, known).None?
    ensures forall x :: x in Replaced(selection, known) <==> x in selection
  {
    assert selection[..KnownPrefix(selection, known)] == selection;
  }

  /** On abort only existing ids remain, the offending one is not among them, and all were submitted. */
  lemma ReplacedOnAbort(selection: seq<Id>, known: set<Id>)
    requires FirstUnknown(selection, known).Some?
    ensures Replaced(selection, known) <= known
    ensures FirstUnknown(selection, known).value !in Replaced(selection, known)
    ensures forall x :: x in Replaced(selection, known) ==> x in selection
  {
    var k := KnownPrefix(selection, known);
    forall x | x in Replaced(selection, known) ensures x in known && x in selection {
      var i :| 0 <= i < k && selection[..k][i] == x;
      assert selection[i] == x;
    }
  }

  /** The branches of the edit form's POST handler. */
  datatype EditBranch = CategoriesBranch | RulesBranch | SourcesBranch | FormBranch

  /**
   * The branch a POST takes, from the keys it carries: `category` is tested
   * first, then `rules`, then `sources`; anything else is the settings form.
   */
  function EditBranchOf(keys: set<string>): (b: EditBranch)
    ensures b == CategoriesBranch <==> "category" in keys
    ensures b == RulesBranch <==> "category" !in keys && "rules" in keys
    ensures b == SourcesBranch <==> "category" !in keys && "rules" !in keys && "sources" in keys
    ensures b == FormBranch <==> "category" !in keys && "rules" !in keys && "sources" !in keys
  {
    if "category" in keys then CategoriesBranch
    else if "rules" in keys then RulesBranch
    else if "sources" in keys then SourcesBranch
    else FormBranch
  }

  /** The first HEAD version of `src` in the listing, as `filter(...)[0]` picks it. */
  predicate IsHead(src: Id, v: SourceAtVersion) {
    v.source == src && v.version == "HEAD"
  }

  function HeadVersion(src: Id, versions: seq<SourceAtVersion>): (r: Option<SourceAtVersion>)
    ensures r.Some? ==> exists i :: (0 <= i < |versions| && versions[i] == r.value && IsHead(src, r.value) &&
      forall j :: 0 <= j < i ==> !IsHead(src, versions[j]))
    ensures r.None? ==> forall v :: v in versions ==> !IsHead(src, v)
    decreases |versions|
  {
    if |versions| == 0 then None
    else if IsHead(src, versions[0]) then Some(versions[0])
    else
      var rest := HeadVersion(src, versions[1..]);
      assert forall v :: v in versions[1..] ==> v in versions;
      if rest.Some? then
        assert exists i :: (0 <= i < |versions| - 1 && versions[1..][i] == rest.value &&
          forall j :: 0 <= j < i ==> !IsHead(src, versions[1..][j]));
        var i :| 0 <= i < |versions| - 1 && versions[1..][i] == rest.value &&
          forall j :: 0 <= j < i ==> !IsHead(src, versions[1..][j]);
        assert versions[i + 1] == rest.value;
        assert forall j :: 1 <= j < i + 1 ==> versions[j] == versions[1..][j - 1];
        rest
      else rest
  }

  /** The ids of the categories of `src`. */
  function SourceCategoryIds(src: Id, categories: seq<Category>): set<Id> {
    set c | c in categories && c.source == src :: c.pk
  }

  /** The ids of the categories of `src` that the edit page lists checked. */
  function CheckedOf(src: Id, categories: seq<Category>, selected: set<Id>): (ids: seq<Id>)
    decreases |categories|
  {
    if |categories| == 0 then []
    else
      var c := categories[|categories| - 1];
      CheckedOf(src, categories[..|categories| - 1], selected) + (if c.source == src && c.pk in selected then [c.pk] else [])
  }

  /** The pre-selected category ids of the edit page: source version by source version. */
  function Preselected(listing: seq<SourceAtVersion>, categories: seq<Category>, selected: set<Id>): seq<Id>
    decreases |listing|
  {
    if |listing| == 0 then []
    else Preselected(listing[..|listing| - 1], categories, selected) + CheckedOf(listing[|listing| - 1].source, categories, selected)
  }

  lemma {:induction false} CheckedOfMembers(src: Id, categories: seq<Category>, selected: set<Id>)
    ensures forall x :: x in CheckedOf(src, categories, selected) <==>
      x in selected && exists c :: c in categories && c.source == src && c.pk == x
    decreases |categories|
  {
    if |categories| > 0 {
      var init := categories[..|categories| - 1];
      CheckedOfMembers(src, init, selected);
      assert categories == init + [categories[|categories| - 1]];
    }
  }

  /**
   * A category is pre-selected exactly when the ruleset has it and it
   * belongs to the source of one of the listed source versions.
   */
  lemma {:induction false} PreselectedMembers(listing: seq<SourceAtVersion>, categories: seq<Category>, selected: set<Id>)
    ensures forall x :: x in Preselected(listing, categories, selected) <==>
      x in selected && exists c, v :: c in categories && v in listing && c.source == v.source && c.pk == x
    decreases |listing|
  {
    if |listing| > 0 {
      var init := listing[..|listing| - 1];
      var last := listing[|listing| - 1];
      PreselectedMembers(init, categories, selected);
      CheckedOfMembers(last.source, categories, selected);
      assert listing == init + [last];
    }
  }

  class Ruleset {
    const pk: Id
    var name: string
    var categories: set<Id>
    var sources: set<Id>
    var suppressedRules: set<Id>
    var needsTest: bool

    constructor (pk: Id, name: string)
      ensures this.pk == pk && this.name == name
      ensures categories == {} && sources == {} && suppressedRules == {} && !needsTest
    {
      this.pk := pk;
      this.name := name;
      categories, sources, suppressedRules := {}, {}, {};
      needsTest := false;
    }

    /**
     * One ruleset's part of a category operation: suppress removes the
     * category, enable adds it, a transform leaves the categories alone and
     * transforms every rule of the category; whatever the operation the
     * ruleset then needs testing.
     */
    method ApplyCategoryOperation(op: CategoryOp, cat: Id, rules: seq<Rule>) returns (calls: seq<TransformCall>)
      modifies this`categories, this`needsTest
      ensures categories == CategoriesAfter(op, cat, old(categories))
      ensures needsTest
      ensures calls == CallsFor(op, cat, rules, pk)
    {
      calls := [];
      match op {
        case Suppress =>
          categories := categories - {cat};
        case Enable =>
          categories := categories + {cat};
        case Transform(action) =>
          var targets := RulesOf(cat, rules);
          for i := 0 to |targets|
            invariant calls == TransformCalls(action, targets[..i], pk)
          {
            calls := calls + [TransformCall(targets[i].pk, action, pk)];
          }
          assert targets[..|targets|] == targets;
      }
      needsTest := true;
    }

    /**
     * The category branch of the edit form: clear the categories, then add
     * each submitted id in turn.  An id that does not exist aborts the edit
     * after the clear, keeping the ids added before it, and without marking
     * the ruleset for testing.
     */
    method EditCategories(selection: seq<Id>, known: set<Id>) returns (missing: Option<Id>)
      modifies this`categories, this`needsTest
      ensures missing == FirstUnknown(selection, known)
      ensures categories == Replaced(selection, known)
      ensures needsTest == (missing.None? || old(needsTest))
    {
      categories := {};
      var i := 0;
      while i < |selection|
        invariant i <= |selection|
        invariant forall j :: 0 <= j < i ==> selection[j] in known
        invariant categories == Elements(selection[..i])
        invariant needsTest == old(needsTest)
      {
        if selection[i] !in known {
          return Some(selection[i]);
        }
        assert selection[..i + 1] == selection[..i] + [selection[i]];
        categories := categories + {selection[i]};
        i := i + 1;
      }
      needsTest := true;
      missing := None;
    }

    /** The source branch of the edit form, with the same clear-then-add steps on the source versions. */
    method EditSources(selection: seq<Id>, known: set<Id>) returns (missing: Option<Id>)
      modifies this`sources, this`needsTest
      ensures missing == FirstUnknown(selection, known)
      ensures sources == Replaced(selection, known)
      ensures needsTest == (missing.None? || old(needsTest))
    {
      sources := {};
      var i := 0;
      while i < |selection|
        invariant i <= |selection|
        invariant forall j :: 0 <= j < i ==> selection[j] in known
        invariant sources == Elements(selection[..i])
        invariant needsTest == old(needsTest)
      {
        if selection[i] !in known {
          return Some(selection[i]);
        }
        assert selection[..i + 1] == selection[..i] + [selection[i]];
        sources := sources + {selection[i]};
        i := i + 1;
      }
      needsTest := true;
      missing := None;
    }

    /**
     * The rule branch of the edit form: `enable` each submitted rule on this
     * ruleset, in order, stopping at the first id that does not exist.
     * What `enable` does to the suppressed rules belongs to the rule model,
     * so they are in the frame and left unconstrained.
     */
    method EditRules(selection: seq<Id>, known: set<Id>) returns (enabled: seq<Id>, missing: Option<Id>)
      modifies this`needsTest, this`suppressedRules
      ensures missing == FirstUnknown(selection, known)
      ensures enabled == selection[..KnownPrefix(selection, known)]
      ensures needsTest == (missing.None? || old(needsTest))
    {
      enabled := [];
      var i := 0;
      while i < |selection|
        invariant i <= |selection|
        invariant forall j :: 0 <= j < i ==> selection[j] in known
        invariant enabled == selection[..i]
        invariant needsTest == old(needsTest)
      {
        if selection[i] !in known {
          return enabled, Some(selection[i]);
        }
        enabled := enabled + [selection[i]];
        i := i + 1;
      }
      needsTest := true;
      missing := None;
    }

    /**
     * The POST side of the edit page: only the first branch whose key the
     * POST carries runs, so a POST with several keys edits one relation
     * only.  The settings form saves the name it carries when it is valid
     * (`formName` is None for an invalid form) and does not mark the
     * ruleset for testing.  Only the rule branch may change the suppressed
     * rules, through `enable`.
     */
    method EditRuleset(keys: set<string>,
                       categorySelection: seq<Id>, knownCategories: set<Id>,
                       ruleSelection: seq<Id>, knownRules: set<Id>,
                       sourceSelection: seq<Id>, knownSources: set<Id>,
                       formName: Option<string>)
      returns (enabled: seq<Id>, missing: Option<Id>)
      modifies this`categories, this`sources, this`needsTest, this`suppressedRules, this`name
      ensures var b := EditBranchOf(keys);
        && (b != RulesBranch ==> suppressedRules == old(suppressedRules))
        && name == (if b == FormBranch && formName.Some? then formName.value else old(name))
        && categories == (if b == CategoriesBranch then Replaced(categorySelection, knownCategories) else old(categories))
        && sources == (if b == SourcesBranch then Replaced(sourceSelection, knownSources) else old(sources))
        && enabled == (if b == RulesBranch then ruleSelection[..KnownPrefix(ruleSelection, knownRules)] else [])
        && missing == (match b
                       case CategoriesBranch => FirstUnknown(categorySelection, knownCategories)
                       case RulesBranch => FirstUnknown(ruleSelection, knownRules)
                       case SourcesBranch => FirstUnknown(sourceSelection, knownSources)
                       case FormBranch => None)
        && needsTest == ((b != FormBranch && missing.None?) || old(needsTest))
    {
      enabled, missing := [], None;
      if "category" in keys {
        missing := EditCategories(categorySelection, knownCategories);
      } else if "rules" in keys {
        enabled, missing := EditRules(ruleSelection, knownRules);
      } else if "sources" in keys {
        missing := EditSources(sourceSelection, knownSources);
      } else if formName.Some? {
        name := formName.value;
      }
    }

    /**
     * `activate_source`: for a staff user and a source with a HEAD version,
     * add that version and every category of the source, mark the ruleset
     * for testing and answer true; otherwise change nothing and answer false.
     */
    method ActivateSource(isStaff: bool, src: Id, versions: seq<SourceAtVersion>, allCategories: seq<Category>)
      returns (ok: bool)
      modifies this`sources, this`categories, this`needsTest
      ensures ok == (isStaff && HeadVersion(src, versions).Some?)
      ensures ok ==>
        && sources == old(sources) + {HeadVersion(src, versions).value.pk}
        && categories == old(categories) + SourceCategoryIds(src, allCategories)
        && needsTest
      ensures !ok ==> sources == old(sources) && categories == old(categories) && needsTest == old(needsTest)
    {
      if !isStaff {
        return false;
      }
      var head := HeadVersion(src, versions);
      if head.None? {
        return false;
      }
      sources := sources + {head.value.pk};
      for i := 0 to |allCategories|
        invariant sources == old(sources) + {head.value.pk}
        invariant categories == old(categories) + SourceCategoryIds(src, allCategories[..i])
      {
        assert allCategories[..i + 1] == allCategories[..i] + [allCategories[i]];
        if allCategories[i].source == src {
          categories := categories + {allCategories[i].pk};
        }
      }
      assert allCategories[..|allCategories|] == allCategories;
      needsTest := true;
      ok := true;
    }

    /**
     * The GET side of the edit page: for each of the ruleset's source
     * versions, in the order `sources.all()` lists them, the ids of that
     * source's categories the ruleset has.  `listing` is that listing: each
     * of the ruleset's source versions exactly once, and nothing else.
     */
    method PreselectedCategories(listing: seq<SourceAtVersion>, allCategories: seq<Category>) returns (selection: seq<Id>)
      requires forall v :: v in listing ==> v.pk in sources
      requires forall p :: p in sources ==> exists v :: v in listing && v.pk == p
      requires forall i, j :: 0 <= i < j < |listing| ==> listing[i].pk != listing[j].pk
      ensures selection == Preselected(listing, allCategories, categories)
      ensures forall x :: x in selection <==>
        x in categories && exists c, v :: c in allCategories && v in listing && v.pk in sources && c.source == v.source && c.pk == x
      ensures sources == {} ==> selection == []
    {
      selection := [];
      for i := 0 to |listing|
        invariant selection == Preselected(listing[..i], allCategories, categories)
      {
        var src := listing[i].source;
        for j := 0 to |allCategories|
          invariant selection == Preselected(listing[..i], allCategories, categories) + CheckedOf(src, allCategories[..j], categories)
        {
          assert allCategories[..j + 1][..j] == allCategories[..j];
          if allCategories[j].pk in categories && allCategories[j].source == src {
            selection := selection + [allCategories[j].pk];
          }
        }
        assert allCategories[..|allCategories|] == allCategories;
        assert listing[..i + 1][..i] == listing[..i];
      }
      assert listing[..|listing|] == listing;
      PreselectedMembers(listing, allCategories, categories);
    }
  }

  /**
   * `suppress_category`: apply one category operation to each selected
   * ruleset in turn.  Returns the transform calls made, ruleset by ruleset.
   */
  method SuppressCategory(op: CategoryOp, cat: Id, rules: seq<Rule>, selected: seq<Ruleset>)
    returns (calls: seq<TransformCall>)
    requires forall i, j :: 0 <= i < j < |selected| ==> selected[i] != selected[j]
    modifies set r | r in selected
    ensures forall i :: 0 <= i < |selected| ==>
      && selected[i].categories == CategoriesAfter(op, cat, old(selected[i].categories))
      && selected[i].needsTest
      && selected[i].sources == old(selected[i].sources)
      && selected[i].suppressedRules == old(selected[i].suppressedRules)
      && selected[i].name == old(selected[i].name)
    ensures calls == CallsOver(op, cat, rules, seq(|selected|, i requires 0 <= i < |selected| => selected[i].pk))
  {
    var pks := seq(|selected|, i requires 0 <= i < |selected| => selected[i].pk);
    calls := [];
    for i := 0 to |selected|
      invariant forall j :: 0 <= j < i ==>
        selected[j].categories == CategoriesAfter(op, cat, old(selected[j].categories)) && selected[j].needsTest
      invariant forall j :: i <= j < |selected| ==> selected[j].categories == old(selected[j].categories)
      invariant forall j :: 0 <= j < |selected| ==>
        && selected[j].sources == old(selected[j].sources)
        && selected[j].suppressedRules == old(selected[j].suppressedRules)
        && selected[j].name == old(selected[j].name)
      invariant calls == CallsOver(op, cat, rules, pks[..i])
    {
      var made := selected[i].ApplyCategoryOperation(op, cat, rules);
      assert pks[..i + 1][..i] == pks[..i];
      calls := calls + made;
    }
    assert pks[..|selected|] == pks;
  }
}
