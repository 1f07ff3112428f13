/**
 * The `search` view: one term looked up, ignoring case, in rule contents,
 * category names and ruleset names, with the hit count and the width the
 * rules table is given on the page.
 */
module Search {
  import opened Wrappers
  import opened Text
  import opened Seqs
  import opened Catalog

  datatype HttpMethod = Get | Post | OtherMethod

  /** The parts of a request the view reads: its method, its form data and its query string. */
  datatype SearchRequest = SearchRequest(httpMethod: HttpMethod, post: map<string, string>, query: map<string, string>)

  /** What the page shows: a table is absent when it would be empty. */
  datatype SearchPage = SearchPage(
    rules: Option<seq<Rule>>,
    categories: Option<seq<Category>>,
    rulesets: Option<seq<string>>,
    rulesWidth: int,
    motif: Option<string>,
    length: nat)

  /** The term: the `search` field of a POST, or the `search` query parameter of a GET. */
  function SearchTerm(req: SearchRequest): (term: Option<string>)
    ensures term.Some? <==>
      (req.httpMethod == Post && "search" in req.post) || (req.httpMethod == Get && "search" in req.query)
  {
    match req.httpMethod
    case Post => if "search" in req.post then Some(req.post["search"]) else None
    case Get => if "search" in req.query then Some(req.query["search"]) else None
    case OtherMethod => None
  }

  /** Python truthiness of the term: present and non-empty. */
  predicate Searching(term: Option<string>) {
    term.Some? && term.value != ""
  }

  function RuleHits(rules: seq<Rule>, motif: string): seq<Rule> {
    Filter(rules, (r: Rule) => ContainsIgnoreCase(r.content, motif))
  }

  function CategoryHits(categories: seq<Category>, motif: string): seq<Category> {
    Filter(categories, (c: Category) => ContainsIgnoreCase(c.name, motif))
  }

  function RulesetHits(rulesetNames: seq<string>, motif: string): seq<string> {
    Filter(rulesetNames, (n: string) => ContainsIgnoreCase(n, motif))
  }

  /**
   * Builds the search page.  `rulesetNames` are the names of all rulesets.
   * The rules table is 4 columns wide and widens by 4 for each of the
   * category and ruleset tables that is absent.
   */
  method SearchPageFor(req: SearchRequest, rules: seq<Rule>, categories: seq<Category>, rulesetNames: seq<string>)
    returns (page: SearchPage)
    ensures page.motif == SearchTerm(req)
    ensures !Searching(page.motif) ==>
      page.rules == None && page.categories == None && page.rulesets == None && page.length == 0 && page.rulesWidth == 4
    ensures Searching(page.motif) ==>
      var motif := page.motif.value;
      && page.length == |RuleHits(rules, motif)| + |CategoryHits(categories, motif)| + |RulesetHits(rulesetNames, motif)|
      && page.rules == (if |RuleHits(rules, motif)| > 0 then Some(RuleHits(rules, motif)) else None)
      && page.categories == (if |CategoryHits(categories, motif)| > 0 then Some(CategoryHits(categories, motif)) else None)
      && page.rulesets == (if |RulesetHits(rulesetNames, motif)| > 0 then Some(RulesetHits(rulesetNames, motif)) else None)
    ensures Searching(page.motif) ==>
      page.rulesWidth == 12 - (if page.categories.Some? then 4 else 0) - (if page.rulesets.Some? then 4 else 0)
    ensures page.rulesWidth in {4, 8, 12}
    ensures page.length == 0 <==> page.rules == None && page.categories == None && page.rulesets == None
  {
    var length := 0;
    var rulesWidth := 4;
    var search := SearchTerm(req);
    var ruleTable: Option<seq<Rule>>;
    var categoryTable: Option<seq<Category>>;
    var rulesetTable: Option<seq<string>>;
    if search.Some? && search.value != "" {
      var motif := search.value;
      var found := RuleHits(rules, motif);
      if |found| > 0 {
        length := length + |found|;
        ruleTable := Some(found);
      } else {
        ruleTable := None;
      }
      var cats := CategoryHits(categories, motif);
      if |cats| > 0 {
        length := length + |cats|;
        categoryTable := Some(cats);
      } else {
        rulesWidth := rulesWidth + 4;
        categoryTable := None;
      }
      var sets := RulesetHits(rulesetNames, motif);
      if |sets| > 0 {
        length := length + |sets|;
        rulesetTable := Some(sets);
      } else {
        rulesWidth := rulesWidth + 4;
        rulesetTable := None;
      }
    } else {
      ruleTable, categoryTable, rulesetTable := None, None, None;
    }
    page := SearchPage(ruleTable, categoryTable, rulesetTable, rulesWidth, search, length);
  }

  /** Every rule listed contains the term, ignoring case, and every such rule is listed. */
  lemma RuleHitsExact(rules: seq<Rule>, motif: string, r: Rule)
    requires r in rules
    ensures r in RuleHits(rules, motif) <==> ContainsIgnoreCase(r.content, motif)
  {
  }
}
