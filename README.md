# Scirius ruleset views, modelled in Dafny

Scirius is a web front end for Suricata rulesets. A ruleset selects:
- categories of rules, which come from sources;
- source versions;
- suppressed rules.

The views in `rules/views.py` change these selections. They also show, for each ruleset, whether a rule or a category is active in it. This project models the decisions and state updates that the views make themselves:

- **Ruleset selections** (`rulesets.dfy`, class `Rulesets.Ruleset`). Each many-to-many relation is a set field. Django's `add`/`remove`/`clear` become set insert, delete and empty. `needs_test()` is a flag.
  - Category operations (`suppress_category`).
  - The clear-then-add edits (`edit_ruleset`), including the abort on an unknown id, and the order in which its POST handler picks the one branch that runs.
  - The categories pre-selected on the edit page.
  - `activate_source`.
- **Status columns** (`status.dfy`):
  - rule status and the threshold flag per ruleset;
  - category status per ruleset;
  - lemmas relating status to the category operations.
- **Reference links** (`references.dfy`). An exact model of `re.findall("reference:(\w+),(\S+);", content)`: the greedy `\S+` backs off to the last `;`, and matches do not overlap. Each match becomes a `Reference` with a derived URL.
- **Display parameters** (`display.dfy`): the duration clamp, the date label and the graph fallback of `complete_context`. A `Session` class holds the remembered duration and graph.
- **Search** (`search.dfy`): hit counts and the rules-table width.
- **Threshold form page** (`thresholds.dfy`): the `dir` mapping and the first-container loop. `Threshold.contain` is a function parameter.

Supporting modules:
- `wrappers.dfy`: `Option`.
- `seqs.dfy`: `QuerySet.filter` as `Filter`.
- `text.dfy`: Python `str`/`int` on integers, `startswith`, and ASCII case-insensitive containment for `icontains`.
- `catalog.dfy`: the entities.

Calls that the views make into `rules/models.py` are returned as call records, with no meaning invented for them. `rules/models.py` is not part of this model. The calls are:
- `rule.transform(action, ruleset)`, as `TransformCall`;
- `rule.enable(ruleset)`, as the `enabled` ids.

## Model

| member | source | states |
|---|---|---|
| Display.ClampDuration | rules/views.py:52-56 | the duration never exceeds 168 hours; below that the request is kept unchanged |
| Display.EffectiveDuration | rules/views.py:52-58 | with a parameter, the capped request; without one, the session value, else the default of 24 |
| Display.DateLabelReadsBack | rules/views.py:60-63 | the label `DateLabel` builds ends in `h` for d ≤ 24 and in `d` otherwise; its number reads back as d or d/24 |
| Display.GraphChoice | rules/views.py:64-70 | the graph is always sunburst or circles, and it is circles exactly when `graph=circles` was requested |
| Display.ContextFor | rules/views.py:71-79 | time_range = d*3600; draw_sunburst/path for the sunburst, draw_circle/circle otherwise; date is the label |
| Display.TimeRangeBounded | rules/views.py:52-79 | a window set by a request parameter never exceeds one week |
| Display.Session.CompleteContext | rules/views.py:50-79 | nothing without Elasticsearch; otherwise the session keeps the capped duration and normalised graph, and the context is built from the effective duration and the request's graph (sunburst without one, whatever the session holds) |
| Display.RememberedDurationReused | rules/views.py:56-58 | a duration stored by one request is exactly the one a later request without the parameter uses |
| Text.DecimalRoundTrip | rules/views.py:61-63 | `str` of an integer parses back to that integer; its digits (`Text.NatDecimal`) carry no leading zero, as Python writes them |
| Search.SearchTerm | rules/views.py:110-117 | a term exists exactly for a POST with a `search` field or a GET with a `search` parameter |
| Search.SearchPageFor | rules/views.py:105-146 | no term: no tables, length 0, width 4; otherwise length is the sum of the three hit counts, a table is shown iff non-empty, width is 12 minus 4 per shown category/ruleset table, always in {4, 8, 12}; length 0 iff no table |
| Search.RuleHitsExact | rules/views.py:119 | a rule is listed iff its content contains the term ignoring case (`Text.ContainsIgnoreCase`, the `icontains` lookup also used for category and ruleset names at lines 126 and 134) |
| Text.OccursIff | rules/views.py:119 | the substring search used by `icontains` holds iff the motif stands at some position |
| Text.LiteralOccurrenceMatches | rules/views.py:119 | any literal occurrence of the term is found by the case-insensitive test |
| References.MatchAt | rules/views.py:323 | a match spans exactly `reference:` key `,` value `;` with a word-character key and a space-free value |
| References.FindAll | rules/views.py:323 | every extracted key is a non-empty word and every value non-empty and space-free |
| References.FindAllSound | rules/views.py:323 | every extracted pair is spelled out in full somewhere in the text |
| References.NoMarkerNoReferences | rules/views.py:323 | text without `reference:` yields no reference |
| References.MatchClause | rules/views.py:323 | a clause followed by a space or by nothing matches with exactly its key and value |
| References.FindAllClauses | rules/views.py:323 | well-formed clauses written one after another with single spaces are extracted exactly, in order |
| References.MakeReference | rules/views.py:324-334 | value kept; a link exists iff the key is url, cve or bugtraq; `http://` is prefixed to url values that do not start with "http"; cve links to NVD with the key shown as CVE; bugtraq links to SecurityFocus |
| References.MakeReferenceInvertible | rules/views.py:324-334 | the (key, value) pair can be recovered from its Reference |
| References.LinkEndsWithValue | rules/views.py:325-334 | every link starts with "http" and ends with the reference's value |
| References.ReferencesOf | rules/views.py:322-335 | exactly one Reference per extracted pair, in text order |
| Status.RuleStatus | rules/views.py:340-342 | the status is always Active or Inactive |
| Status.CategoryStatus | rules/views.py:176-178 | the status is always Active or Inactive |
| Status.RuleRulesetsStatus | rules/views.py:337-346 | one row per ruleset, in order; Active iff the rule is enabled, its category is selected and it is not suppressed; threshold Yes iff some threshold names both rule and ruleset, else No; validity Unknown |
| Status.CategoryRulesetsStatus | rules/views.py:173-180 | one row per ruleset, in order; Active iff the ruleset selects the category |
| Status.ActiveRuleHasActiveCategory | rules/views.py:341 | a rule active in a ruleset has its category active there |
| Status.CommentedRuleInactive | rules/views.py:341 | a rule whose state is false is inactive in every ruleset |
| Status.SuppressCategoryDeactivates | rules/views.py:548-549 | suppressing a category deactivates it and all its rules and leaves other categories' status alone |
| Status.EnableCategoryActivates | rules/views.py:550-551 | enabling a category activates each of its enabled, unsuppressed rules |
| Status.TransformKeepsStatus | rules/views.py:552-554 | a transform operation changes no rule's status |
| Status.ActivateSourceActivates | rules/views.py:650-652 | after activation, every enabled unsuppressed rule of the source is active and nothing active became inactive |
| Rulesets.CategoriesAfter | rules/views.py:548-554 | suppress removes exactly the category, enable adds exactly it, a transform leaves the set unchanged; other categories are untouched |
| Rulesets.CategoryOperationIdempotent | rules/views.py:548-554 | applying a category operation twice equals applying it once |
| Rulesets.TransformCalls | rules/views.py:553-554 | one transform call per rule of the category, in order, with the operation's action and the ruleset |
| Rulesets.CallsOverTargets | rules/views.py:546-554 | only transform operations make calls, and only on rules of the category in the selected rulesets |
| Rulesets.KnownPrefix | rules/views.py:880-882 | all ids before the prefix's end exist and the id at its end, if any, does not |
| Rulesets.ReplacedOnSuccess | rules/views.py:878-882 | `Replaced`, the relation a clear-then-add edit leaves (also lines 891-895): when every submitted id exists, it is exactly the submitted selection |
| Rulesets.ReplacedOnAbort | rules/views.py:878-882 | `Replaced` on an unknown id: only existing submitted ids remain and the offending one is absent |
| Rulesets.HeadVersion | rules/views.py:646-650 | the first HEAD version of the source in listing order, or none when the source has none |
| Rulesets.CheckedOfMembers | rules/views.py:908-911 | an id is checked for a source iff the ruleset selects it and it is a category of that source |
| Rulesets.PreselectedMembers | rules/views.py:907-911 | an id is pre-selected iff the ruleset selects it and it belongs to the source of a listed version |
| Rulesets.Ruleset.ApplyCategoryOperation | rules/views.py:548-555 | categories updated as the operation says; needs_test set; transform calls on the category's rules |
| Rulesets.Ruleset.EditCategories | rules/views.py:876-883 | categories cleared then refilled: equal to the selection on success, to the ids before the first unknown one on abort; needs_test only on success |
| Rulesets.Ruleset.EditRules | rules/views.py:884-888 | enables the submitted rules in order up to the first unknown id; needs_test only on success |
| Rulesets.Ruleset.EditSources | rules/views.py:889-896 | sources cleared then refilled, as for categories |
| Rulesets.EditBranchOf | rules/views.py:876-897 | the category branch runs iff the POST has `category`; rules iff `rules` but not `category`; sources iff `sources` but neither earlier key; the form otherwise |
| Rulesets.Ruleset.EditRuleset | rules/views.py:873-901 | only the branch EditBranchOf picks runs: its relation is replaced (or its rules enabled) up to the first unknown id; categories and sources change only in their own branch; suppressed rules can change only in the rules branch; the name only through a valid settings form; needs_test is set only by a completed edit branch |
| Rulesets.Ruleset.ActivateSource | rules/views.py:638-656 | answers true iff staff and a HEAD version exists; then adds that version and every category of the source, keeps the rest, sets needs_test; otherwise changes nothing |
| Rulesets.Ruleset.PreselectedCategories | rules/views.py:903-911 | over the ruleset's own source versions, each listed once: source by source, the ids of that source's categories the ruleset selects; an id is pre-selected iff the ruleset selects it and it belongs to the source of one of the ruleset's versions; nothing is pre-selected for a ruleset without sources |
| Rulesets.SuppressCategory | rules/views.py:546-556 | every selected ruleset gets the operation's categories and needs_test, with its other fields unchanged; the calls are those of each ruleset in turn |
| Thresholds.TrackBy | rules/views.py:493-499 | src and dest are never passed through; every other direction is kept |
| Thresholds.TrackByIdempotent | rules/views.py:494-498 | mapping a direction twice equals mapping it once |
| Thresholds.TrackByShortForms | rules/views.py:494-499 | src maps to by_src, dest to by_dst, both stays both |
| Thresholds.FirstContainer | rules/views.py:506-512 | the first threshold that contains the candidate, or none when no threshold does |
| Thresholds.ThresholdRulePage | rules/views.py:488-532 | form defaults gid 1, count 1, seconds 60, type limit, ruleset 1; kind suppress or threshold; without `dir` no thresholds and no container; with it the rule's thresholds over all rulesets and the first that contains the candidate, or none |

## Left out

- `from_date` (line 59) depends on the wall clock (`time()`), so it is not modelled.
- `int()` on a non-numeric `duration` raises ValueError. The model takes the duration as an already parsed integer.
- The graph choice is written to the session but never read back by `complete_context`. The model keeps it as a write-only field.
- Display.Session.CompleteContext: the session is one object per user. Concurrent requests are not modelled.
- Search copies the POST term into `request.GET` (lines 113-114). That copy only affects pagination links, so it is left out.
- Table construction and pagination (django_tables2 `RequestConfig`), templates, redirects and the `", ".join` of ids are left out.
- Text.ContainsIgnoreCase folds ASCII letters only. The database's Unicode case folding is not modelled.
- ORM lookups that fail with 404 are not modelled for the primary objects: the rule, category, source and ruleset of the URL are taken as existing. The same holds for rulesets chosen through a validated form.
  - Ids posted to `edit_ruleset` are checked against a set of known ids, so the abort is modelled.
- Methods of `rules/models.py` are not part of this model. `transform` and `enable` are returned as call records and `needs_test` is a flag. Left out are `disable`, `transformation_type` (the action column of the rule page), `Threshold.contain` (a parameter), `generate`, `to_buffer`, `test`, `diff`, `update` and `copy`.
- Rulesets.Ruleset.EditRules: `enable` acts on the ruleset's suppressed rules in a way defined in `rules/models.py`. The edit page offers the suppressed rules for re-enabling (line 915), so the suppressed rules are in the method's frame but left unconstrained. Only the order of the calls is stated.
- Rulesets.Ruleset.EditRuleset: the settings form of `edit_ruleset` (lines 897-900) is defined in `rules/forms.py`, which is not part of this model. It is taken to edit the ruleset's name only, with its validation reduced to an optional new name.
- `switch_rule`, `edit_rules`, `ruleset_add_supprule`, source upload and update, and the threshold POST path only forward to model and form methods, so they are left out.
- Thresholds.ThresholdRulePage: `threshold_type` is a required input. Without `action`, the source fails with a KeyError (lines 503, 527). A POST without `threshold_type` fails on the unbound `form` at line 466; it is on the POST path, which is not modelled.
- Elasticsearch, InfluxDB, Kibana, the probe middleware and `SuriHTMLFormat` highlighting are network I/O or foreign modules.
- Permission guards are not modelled except where they decide the result, as in `activate_source`.
