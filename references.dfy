/**
 * The reference links shown on a rule's page.  Every match of
 * `reference:(\w+),(\S+);` in the rule's text, found left to right without
 * overlap as `re.findall` does, becomes one Reference whose URL depends on
 * its key.
 */
module References {
  import opened Wrappers
  import opened Text

  /** `\w` of a pattern compiled without the UNICODE flag. */
  predicate IsWordChar(c: char) {
    'a' <= c <= 'z' || 'A' <= c <= 'Z' || '0' <= c <= '9' || c == '_'
  }

  /** `\s` of a pattern compiled without the UNICODE flag: space, tab, newline, return, form feed, vertical tab. */
  predicate IsSpace(c: char) {
    c == ' ' || c == '\t' || c == '\n' || c == '\r' || c as int == 0x0C || c as int == 0x0B
  }

  predicate IsNonSpace(c: char) {
    !IsSpace(c)
  }

  const Marker := "reference:"

  /** The end of the longest run of characters satisfying `ok` that starts at `i`. */
  function RunEnd(s: string, i: nat, ok: char -> bool): (j: nat)
    requires i <= |s|
    ensures i <= j <= |s|
    ensures forall k :: i <= k < j ==> ok(s[k])
    ensures j == |s| || !ok(s[j])
    decreases |s| - i
  {
    if i == |s| || !ok(s[i]) then i else RunEnd(s, i + 1, ok)
  }

  /** The last `;` at a position in `[lo, hi)`, if any. */
  function LastSemicolon(s: string, lo: nat, hi: nat): (r: Option<nat>)
    requires lo <= hi <= |s|
    ensures r.Some? ==> lo <= r.value < hi && s[r.value] == ';' && forall k :: r.value < k < hi ==> s[k] != ';'
    ensures r.None? ==> forall k :: lo <= k < hi ==> s[k] != ';'
    decreases hi - lo
  {
    if hi == lo then None
    else if s[hi - 1] == ';' then Some(hi - 1)
    else LastSemicolon(s, lo, hi - 1)
  }

  /** One match: the two groups and the length of the text it spans. */
  datatype Match = Match(key: string, value: string, end: nat)

  predicate IsKey(k: string) {
    |k| > 0 && forall i :: 0 <= i < |k| ==> IsWordChar(k[i])
  }

  predicate IsValue(v: string) {
    |v| > 0 && forall i :: 0 <= i < |v| ==> IsNonSpace(v[i])
  }

  /** The text a match of the pattern spans. */
  function Spelled(key: string, value: string): string {
    Marker + key + "," + value + ";"
  }

  /**
   * An attempt to match at the start of `s`.  `\w+` cannot give back
   * characters (none of them is a comma), so the key is the whole word run.
   * `\S+` is greedy: it backs off from the end of the space-free run to its
   * last `;`.  Nothing before the attempt's position is ever looked at, so
   * an attempt at position `p` of a text is this attempt on the suffix.
   */
  function MatchAt(s: string): (m: Option<Match>)
    ensures m.Some? ==>
      && 0 < m.value.end <= |s|
      && IsKey(m.value.key) && IsValue(m.value.value)
      && s[..m.value.end] == Spelled(m.value.key, m.value.value)
  {
    if !StartsWith(s, Marker) then None
    else
      var k := |Marker|;
      var ke := RunEnd(s, k, IsWordChar);
      if ke == k || ke == |s| || s[ke] != ',' then None
      else
        var q := ke + 1;
        var e := RunEnd(s, q, IsNonSpace);
        if q == e then None
        else
          match LastSemicolon(s, q + 1, e)
          case None => None
          case Some(j) =>
            assert s[..j + 1] == s[..k] + s[k..ke] + [s[ke]] + s[q..j] + [s[j]];
            Some(Match(s[k..ke], s[q..j], j + 1))
  }

  /** `re.findall`: the (key, value) groups of successive non-overlapping matches, left to right. */
  function FindAll(s: string): (ms: seq<(string, string)>)
    ensures forall i :: 0 <= i < |ms| ==> IsKey(ms[i].0) && IsValue(ms[i].1)
    decreases |s|
  {
    if |s| == 0 then []
    else
      match MatchAt(s)
      case None => FindAll(s[1..])
      case Some(m) => [(m.key, m.value)] + FindAll(s[m.end..])
  }

  /** Each pair found is spelled out, in full, in the text. */
  lemma {:induction false} FindAllSound(s: string, i: nat)
    requires i < |FindAll(s)|
    ensures exists j :: OccursAt(Spelled(FindAll(s)[i].0, FindAll(s)[i].1), s, j)
    decreases |s|
  {
    var pair := FindAll(s)[i];
    var m := MatchAt(s);
    if m.None? {
      assert FindAll(s) == FindAll(s[1..]);
      FindAllSound(s[1..], i);
      var j :| OccursAt(Spelled(pair.0, pair.1), s[1..], j);
      OccursInSuffix(Spelled(pair.0, pair.1), s, 1, j);
    } else {
      var mv := m.value;
      assert FindAll(s) == [(mv.key, mv.value)] + FindAll(s[mv.end..]);
      if i == 0 {
        assert OccursAt(Spelled(mv.key, mv.value), s, 0);
      } else {
        assert pair == FindAll(s[mv.end..])[i - 1];
        FindAllSound(s[mv.end..], i - 1);
        var j :| OccursAt(Spelled(pair.0, pair.1), s[mv.end..], j);
        OccursInSuffix(Spelled(pair.0, pair.1), s, mv.end, j);
      }
    }
  }

  /** Text without the marker yields no reference. */
  lemma {:induction false} NoMarkerNoReferences(s: string)
    requires forall j :: !OccursAt(Marker, s, j)
    ensures FindAll(s) == []
    decreases |s|
  {
    if |s| > 0 {
      assert !OccursAt(Marker, s, 0);
      forall j ensures !OccursAt(Marker, s[1..], j) {
        if OccursAt(Marker, s[1..], j) {
          OccursInSuffix(Marker, s, 1, j);
        }
      }
      NoMarkerNoReferences(s[1..]);
    }
  }

  /** Reference clauses written out one after the other, separated by single spaces. */
  function Clauses(pairs: seq<(string, string)>): string
    decreases |pairs|
  {
    if |pairs| == 0 then ""
    else if |pairs| == 1 then Spelled(pairs[0].0, pairs[0].1)
    else Spelled(pairs[0].0, pairs[0].1) + " " + Clauses(pairs[1..])
  }

  /** The attempt at the start of `s` succeeds once each of its steps does. */
  lemma MatchAtSteps(s: string, ke: nat, e: nat, j: nat)
    requires StartsWith(s, Marker)
    requires |Marker| < ke < |s| && RunEnd(s, |Marker|, IsWordChar) == ke && s[ke] == ','
    requires ke + 1 < e <= |s| && RunEnd(s, ke + 1, IsNonSpace) == e
    requires LastSemicolon(s, ke + 2, e) == Some(j)
    ensures MatchAt(s) == Some(Match(s[|Marker|..ke], s[ke + 1..j], j + 1))
  {
  }

  /** Where the parts of a written-out clause stand in the text it starts. */
  lemma ClauseLayout(key: string, value: string, rest: string)
    requires rest == [] || rest[0] == ' '
    ensures var s := Spelled(key, value) + rest;
      var ke := |Marker| + |key|; var e := ke + |value| + 2;
      && e == |Spelled(key, value)| && e <= |s|
      && s[..|Marker|] == Marker && s[|Marker|..ke] == key && s[ke] == ','
      && s[ke + 1..e - 1] == value && s[e - 1] == ';'
      && (e < |s| ==> s[e] == ' ')
  {
    var s := Spelled(key, value) + rest;
    assert s == Marker + key + [','] + value + [';'] + rest;
  }

  /** The match of one written-out clause at the start of the text, when a space or nothing follows it. */
  lemma MatchClause(key: string, value: string, rest: string)
    requires IsKey(key) && IsValue(value)
    requires rest == [] || rest[0] == ' '
    ensures MatchAt(Spelled(key, value) + rest) == Some(Match(key, value, |Spelled(key, value)|))
  {
    var s := Spelled(key, value) + rest;
    var k := |Marker|;
    var ke := k + |key|;
    var e := ke + |value| + 2;
    ClauseLayout(key, value, rest);
    assert RunEnd(s, k, IsWordChar) == ke by {
      forall i | k <= i < ke ensures IsWordChar(s[i]) {
        assert s[i] == s[k..ke][i - k];
      }
    }
    assert RunEnd(s, ke + 1, IsNonSpace) == e by {
      forall i | ke + 1 <= i < e - 1 ensures IsNonSpace(s[i]) {
        assert s[i] == s[ke + 1..e - 1][i - ke - 1];
      }
    }
    assert LastSemicolon(s, ke + 2, e) == Some(e - 1);
    MatchAtSteps(s, ke, e, e - 1);
  }

  /** A leading space is skipped: no match starts with it. */
  lemma FindAllSkipSpace(rest: string)
    ensures FindAll(" " + rest) == FindAll(rest)
  {
    assert !StartsWith(" " + rest, Marker) by {
      assert (" " + rest)[0] == ' ';
    }
    assert (" " + rest)[1..] == rest;
  }

  /** A clause at the start of the text is extracted, and extraction goes on right after it. */
  lemma FindAllAfterClause(key: string, value: string, rest: string)
    requires IsKey(key) && IsValue(value)
    requires rest == [] || rest[0] == ' '
    ensures FindAll(Spelled(key, value) + rest) == [(key, value)] + FindAll(rest)
  {
    var c := Spelled(key, value);
    MatchClause(key, value, rest);
    assert (c + rest)[|c|..] == rest;
  }

  /**
   * Extraction reads back what was written: for well-formed pairs, the
   * clauses written out with single spaces between them yield exactly
   * those pairs, in order.
   */
  lemma {:induction false} FindAllClauses(pairs: seq<(string, string)>)
    requires forall i :: 0 <= i < |pairs| ==> IsKey(pairs[i].0) && IsValue(pairs[i].1)
    ensures FindAll(Clauses(pairs)) == pairs
    decreases |pairs|
  {
    if |pairs| == 1 {
      FindAllAfterClause(pairs[0].0, pairs[0].1, []);
      assert Spelled(pairs[0].0, pairs[0].1) + [] == Clauses(pairs);
    } else if |pairs| > 1 {
      var rest := Clauses(pairs[1..]);
      assert Clauses(pairs) == Spelled(pairs[0].0, pairs[0].1) + (" " + rest);
      FindAllAfterClause(pairs[0].0, pairs[0].1, " " + rest);
      FindAllSkipSpace(rest);
      FindAllClauses(pairs[1..]);
      assert pairs == [pairs[0]] + pairs[1..];
    }
  }

  /** A displayed reference: its key, its value and the link made from them. */
  datatype Reference = Reference(key: string, value: string, url: Option<string>)

  /**
   * The scheme of every derived link.  The link prefixes are written as
   * `Scheme` followed by the rest, rather than as one literal, because the
   * verifier does not look inside the characters of a long string literal:
   * this way that each prefix starts with "http" is visible to the proofs.
   */
  const Scheme := "http"
  const NvdPrefix := Scheme + "://web.nvd.nist.gov/view/vuln/detail?vulnId=CVE-"
  const BugtraqPrefix := Scheme + "://www.securityfocus.com/bid/"

  /**
   * The Reference of one (key, value) pair: `url` values get an `http://`
   * scheme unless they start with "http", `cve` values link to the NVD and
   * their key is shown upper-cased, `bugtraq` values link to SecurityFocus,
   * and any other key has no link.
   */
  function MakeReference(key: string, value: string): (r: Reference)
    ensures r.value == value
    ensures r.url.Some? <==> key == "url" || key == "cve" || key == "bugtraq"
    ensures r.key == if key == "cve" then "CVE" else key
    ensures key == "url" ==> r.url == Some(if StartsWith(value, "http") then value else "http://" + value)
    ensures key == "cve" ==> r.url == Some(NvdPrefix + value)
    ensures key == "bugtraq" ==> r.url == Some(BugtraqPrefix + value)
  {
    if key == "url" then
      Reference(key, value, Some(if StartsWith(value, "http") then value else "http://" + value))
    else if key == "cve" then
      Reference("CVE", value, Some(NvdPrefix + value))
    else if key == "bugtraq" then
      Reference(key, value, Some(BugtraqPrefix + value))
    else
      Reference(key, value, None)
  }

  /** The pair a Reference was made from: only a linked "CVE" key was "cve". */
  function SourcePair(r: Reference): (string, string) {
    (if r.key == "CVE" && r.url.Some? then "cve" else r.key, r.value)
  }

  /** No two pairs give the same Reference: the pair can be recovered from it. */
  lemma MakeReferenceInvertible(key: string, value: string)
    ensures SourcePair(MakeReference(key, value)) == (key, value)
  {
  }

  /** Every link is an http link that ends with the reference's value. */
  lemma LinkEndsWithValue(key: string, value: string)
    requires MakeReference(key, value).url.Some?
    ensures var url := MakeReference(key, value).url.value;
      StartsWith(url, "http") && |value| <= |url| && url[|url| - |value|..] == value
  {
    var url := MakeReference(key, value).url.value;
    if key == "url" && !StartsWith(value, "http") {
      assert url == "http://" + value;
      assert url[..4] == "http";
    } else if key == "cve" {
      assert url == NvdPrefix + value;
      assert url[..4] == "http";
    } else if key == "bugtraq" {
      assert url == BugtraqPrefix + value;
      assert url[..4] == "http";
    }
  }

  /** The loop of the `rule` view: one Reference per match, in text order. */
  method ReferencesOf(content: string) returns (references: seq<Reference>)
    ensures |references| == |FindAll(content)|
    ensures forall i :: 0 <= i < |references| ==>
      references[i] == MakeReference(FindAll(content)[i].0, FindAll(content)[i].1)
  {
    var found := FindAll(content);
    references := [];
    for i := 0 to |found|
      invariant |references| == i
      invariant forall j :: 0 <= j < i ==> references[j] == MakeReference(found[j].0, found[j].1)
    {
      var (key, value) := found[i];
      var refer := Reference(key, value, None);
      if refer.key == "url" {
        if !StartsWith(refer.value, "http") {
          refer := refer.(url := Some("http://" + refer.value));
        } else {
          refer := refer.(url := Some(refer.value));
        }
      } else if refer.key == "cve" {
        refer := refer.(url := Some(NvdPrefix + refer.value));
        refer := refer.(key := "CVE");
      } else if refer.key == "bugtraq" {
        refer := refer.(url := Some(BugtraqPrefix + refer.value));
      }
      references := references + [refer];
    }
  }
}
