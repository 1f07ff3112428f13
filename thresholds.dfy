/**
 * The GET side of `threshold_rule`: the initial data of the threshold form,
 * the tracking direction taken from the `dir` parameter, and the first
 * existing directive of the rule that already contains the one being
 * prepared.  Containment itself belongs to the Threshold model and is a
 * parameter here.
 */
module Thresholds {
  import opened Wrappers
  import opened Seqs
  import opened Catalog

  /** The `dir` parameter as a `track_by` value: `src` and `dest` are short forms, anything else is kept. */
  function TrackBy(dir: string): (trackBy: string)
    ensures trackBy != "src" && trackBy != "dest"
    ensures dir != "src" && dir != "dest" ==> trackBy == dir
  {
    if dir == "src" then "by_src" else if dir == "dest" then "by_dst" else dir
  }

  /** Mapping a direction twice is mapping it once. */
  lemma TrackByIdempotent(dir: string)
    ensures TrackBy(TrackBy(dir)) == TrackBy(dir)
  {
  }

  /** Both short forms map to distinct values, the ones the long forms keep. */
  lemma TrackByShortForms()
    ensures TrackBy("src") == TrackBy("by_src") == "by_src"
    ensures TrackBy("dest") == TrackBy("by_dst") == "by_dst"
    ensures TrackBy("both") == "both"
  {
  }

  /** `Threshold.objects.filter(rule=rule)`: the rule's directives over every ruleset. */
  function RuleThresholds(rule: Id, all: seq<Threshold>): seq<Threshold> {
    Filter(all, (t: Threshold) => t.rule == Some(rule))
  }

  /**
   * The container loop: the first directive that contains `candidate`, or
   * none.  The loop stops at the first hit, so at most one is reported.
   */
  method FirstContainer(thresholds: seq<Threshold>, candidate: Threshold, contain: (Threshold, Threshold) -> bool)
    returns (container: Option<Threshold>)
    ensures container.Some? ==> exists i :: (0 <= i < |thresholds| && thresholds[i] == container.value &&
      contain(container.value, candidate) && forall j :: 0 <= j < i ==> !contain(thresholds[j], candidate))
    ensures container.None? ==> forall t :: t in thresholds ==> !contain(t, candidate)
  {
    container := None;
    var i := 0;
    while i < |thresholds|
      invariant i <= |thresholds|
      invariant forall j :: 0 <= j < i ==> !contain(thresholds[j], candidate)
    {
      if contain(thresholds[i], candidate) {
        container := Some(thresholds[i]);
        break;
      }
      i := i + 1;
    }
  }

  /** The initial data of the threshold form. */
  datatype ThresholdForm = ThresholdForm(
    gid: int, count: int, seconds: int, limitType: string, ruleset: Id,
    thresholdType: string, net: Option<string>, trackBy: Option<string>)

  /** What the page shows: the form and its kind, the rule's directives and the container found. */
  datatype ThresholdPage = ThresholdPage(
    form: ThresholdForm, kind: string, thresholds: Option<seq<Threshold>>, container: Option<Threshold>)

  /** The directive the form would create, as built for the containment test. */
  function Candidate(rule: Id, thresholdType: string, trackBy: string, net: Option<string>): Threshold {
    Threshold(Some(rule), None, thresholdType, trackBy, net)
  }

  /**
   * The form page for a rule.  `thresholdType` is the `action` parameter,
   * `net` and `dir` the parameters of those names when present.  Only with a
   * direction are the rule's directives listed and searched for a container.
   */
  method ThresholdRulePage(rule: Id, thresholdType: string, net: Option<string>, dir: Option<string>,
                           all: seq<Threshold>, contain: (Threshold, Threshold) -> bool)
    returns (page: ThresholdPage)
    ensures page.form == ThresholdForm(1, 1, 60, "limit", 1, thresholdType, net,
                                       if dir.Some? then Some(TrackBy(dir.value)) else None)
    ensures page.kind == (if thresholdType == "suppress" then "suppress" else "threshold")
    ensures dir.None? ==> page.thresholds == None && page.container == None
    ensures dir.Some? ==>
      var candidate := Candidate(rule, thresholdType, TrackBy(dir.value), net);
      && page.thresholds == Some(RuleThresholds(rule, all))
      && (page.container.Some? ==>
            page.container.value in all && page.container.value.rule == Some(rule) &&
            contain(page.container.value, candidate) &&
            exists i :: (0 <= i < |RuleThresholds(rule, all)| && RuleThresholds(rule, all)[i] == page.container.value &&
              forall j :: 0 <= j < i ==> !contain(RuleThresholds(rule, all)[j], candidate)))
      && (page.container.None? ==>
            forall t :: t in all && t.rule == Some(rule) ==> !contain(t, candidate))
  {
    var trackBy: Option<string> := None;
    if dir.Some? {
      trackBy := Some(TrackBy(dir.value));
    }
    var data := ThresholdForm(1, 1, 60, "limit", 1, thresholdType, net, trackBy);
    var thresholds: Option<seq<Threshold>> := None;
    var container: Option<Threshold> := None;
    if trackBy.Some? {
      var candidate := Candidate(rule, thresholdType, trackBy.value, net);
      var ruleThresholds := RuleThresholds(rule, all);
      container := FirstContainer(ruleThresholds, candidate, contain);
      thresholds := Some(ruleThresholds);
    }
    var kind := if thresholdType == "suppress" then "suppress" else "threshold";
    page := ThresholdPage(data, kind, thresholds, container);
  }
}
