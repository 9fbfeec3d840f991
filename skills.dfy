/**
 * The skill dictionary, the role-name normaliser and the skill extractor
 * (src/skills.py).
 *
 * The regular-expression engine is not modelled. A matcher is a pair of
 * functions given by the caller:
 *   count(p, t)   the number of matches `re.findall(p, t, re.IGNORECASE)` returns;
 *   search(p, l)  whether `re.search(p, l, re.IGNORECASE)` finds a match.
 * Everything proved here holds for every such pair.
 */
module Skills {
  import opened Wrappers
  import opened Strings

  // ---------------------------------------------------------------------------
  // Static tables
  // ---------------------------------------------------------------------------

  /** SKILL_PATTERNS: canonical skill name and its patterns, in declaration order
      (the order in which the extractor visits them). */
  const SkillPatterns: seq<(string, seq<string>)> := [
    ("Python", ["\\bpython\\b"]),
    ("SQL", ["\\bsql\\b", "\\bpostgres\\b", "\\bmysql\\b", "\\btsql\\b"]),
    ("Git", ["\\bgit\\b", "github", "gitlab"]),
    ("Docker", ["\\bdocker\\b"]),
    ("Linux", ["\\blinux\\b", "\\bbash\\b", "\\bshell\\b"]),
    ("Pandas", ["\\bpandas\\b"]),
    ("NumPy", ["\\bnumpy\\b"]),
    ("Power BI", ["\\bpower\\s?bi\\b"]),
    ("Tableau", ["\\btableau\\b"]),
    ("Spark", ["\\bspark\\b", "\\bpyspark\\b"]),
    ("Airflow", ["\\bairflow\\b"]),
    ("dbt", ["\\bdbt\\b"]),
    ("Kafka", ["\\bkafka\\b"]),
    ("Scikit-learn", ["scikit[- ]learn", "\\bsklearn\\b"]),
    ("PyTorch", ["\\bpytorch\\b", "\\btorch\\b"]),
    ("TensorFlow", ["\\btensorflow\\b"]),
    ("Transformers", ["\\btransformers\\b", "hugging\\s?face"]),
    ("RAG", ["\\brag\\b", "retrieval[- ]augmented"]),
    ("Embeddings", ["\\bembedding", "\\bembeddings\\b"]),
    ("Vector Database", ["\\bvector\\s?db\\b", "\\bfaiss\\b", "\\bchroma\\b", "\\bqdrant\\b", "\\bpinecone\\b", "\\bweaviate\\b"]),
    ("LLM", ["\\bllm\\b", "large language model"]),
    ("LangChain", ["\\blangchain\\b"]),
    ("LlamaIndex", ["\\bllamaindex\\b"]),
    ("FastAPI", ["\\bfastapi\\b"]),
    ("Streamlit", ["\\bstreamlit\\b"]),
    ("CI/CD", ["\\bci\\/cd\\b", "\\bgithub actions\\b", "\\bjenkins\\b"]),
    ("MLOps", ["\\bmlops\\b", "\\bmlflow\\b", "\\bkubeflow\\b"]),
    ("Cloud", ["\\baws\\b", "\\bazure\\b", "\\bgcp\\b"])
  ]

  /** Canonical role name and its alias phrases, in declaration order. */
  const RoleAliases: seq<(string, seq<string>)> := [
    ("Data Analyst", ["data analyst", "bi analyst", "business intelligence"]),
    ("Data Scientist", ["data scientist", "applied scientist"]),
    ("Data Engineer", ["data engineer", "analytics engineer"]),
    ("ML Engineer", ["ml engineer", "machine learning engineer"]),
    ("GenAI Engineer", ["genai engineer", "generative ai engineer", "llm engineer", "rag engineer"])
  ]

  // ---------------------------------------------------------------------------
  // normalize_role_name
  // ---------------------------------------------------------------------------

  /** The test applied to one alias entry: `r` is the canonical name lower-cased,
      or one of the aliases occurs in `r`. */
  predicate MatchesRole(entry: (string, seq<string>), r: string) {
    r == Lower(entry.0) || exists a :: a in entry.1 && Contains(r, a)
  }

  /** `normalize_role_name(role)`: the first canonical role, in declaration order,
      whose entry matches the trimmed, lower-cased input; otherwise the trimmed input. */
  function NormalizeRoleName(role: string): (result: string)
    ensures
      var r := Lower(Strip(role));
      || (exists i :: 0 <= i < |RoleAliases| && result == RoleAliases[i].0
            && MatchesRole(RoleAliases[i], r)
            && forall j :: 0 <= j < i ==> !MatchesRole(RoleAliases[j], r))
      || (result == Strip(role)
            && forall i :: 0 <= i < |RoleAliases| ==> !MatchesRole(RoleAliases[i], r))
  {
    var r := Lower(Strip(role));
    var k := FirstWhere(RoleAliases, e => MatchesRole(e, r));
    if k < |RoleAliases| then RoleAliases[k].0 else Strip(role)
  }

  lemma NotContains(s: string, sub: string, c: char)
    requires c in sub && c !in s
    ensures !Contains(s, sub)
  {
    if Contains(s, sub) {
      ContainsChar(s, sub, c);
    }
  }

  /** No alias of a list occurs in `r` when each has a character (`w[k]` for alias `k`)
      that `r` lacks. */
  lemma {:induction false} NoAliasIn(aliases: seq<string>, r: string, w: seq<char>)
    requires |w| == |aliases|
    requires forall k :: 0 <= k < |w| ==> w[k] in aliases[k] && w[k] !in r
    ensures forall a :: a in aliases ==> !Contains(r, a)
    decreases |aliases|
  {
    if aliases != [] {
      NotContains(r, aliases[0], w[0]);
      NoAliasIn(aliases[1..], r, w[1..]);
    }
  }

  /** Entry `i` does not match `r`: `r` is not its lower-cased name, and every alias has a
      character that `r` lacks. */
  lemma NoMatch(i: nat, r: string, w: seq<char>)
    requires i < |RoleAliases|
    requires r != Lower(RoleAliases[i].0)
    requires |w| == |RoleAliases[i].1|
    requires forall k :: 0 <= k < |w| ==> w[k] in RoleAliases[i].1[k] && w[k] !in r
    ensures !MatchesRole(RoleAliases[i], r)
  {
    NoAliasIn(RoleAliases[i].1, r, w);
  }

  lemma CanonicalLower()
    ensures Lower(RoleAliases[0].0) == "data analyst"
    ensures Lower(RoleAliases[1].0) == "data scientist"
    ensures Lower(RoleAliases[2].0) == "data engineer"
    ensures Lower(RoleAliases[3].0) == "ml engineer"
    ensures Lower(RoleAliases[4].0) == "genai engineer"
  {
  }

  /** The normaliser returns entry `i` when entry `i` is the first to match. */
  lemma NormalizesTo(role: string, i: nat)
    requires i < |RoleAliases|
    requires MatchesRole(RoleAliases[i], Lower(Strip(role)))
    requires forall j :: 0 <= j < i ==> !MatchesRole(RoleAliases[j], Lower(Strip(role)))
    ensures NormalizeRoleName(role) == RoleAliases[i].0
  {
  }

  /** The trimmed, lower-cased form of each canonical name matches its own entry. */
  lemma CanonicalMatchesOwnEntry(i: nat)
    requires i < |RoleAliases|
    ensures Strip(RoleAliases[i].0) == RoleAliases[i].0
    ensures MatchesRole(RoleAliases[i], Lower(Strip(RoleAliases[i].0)))
  {
    var n := RoleAliases[i].0;
    assert n != [] && !IsSpace(n[0]) && !IsSpace(n[|n| - 1]);
    StripOfTrimmed(n);
  }

  // Each canonical name is missed by every entry declared before its own; one lemma per
  // pair keeps each proof about the literal tables small.

  lemma ScientistMissesAnalyst(r: string)
    requires r == "data scientist"
    ensures !MatchesRole(RoleAliases[0], r)
  {
    CanonicalLower();
    NoMatch(0, r, "ybb");
  }

  lemma EngineerMissesAnalyst(r: string)
    requires r == "data engineer"
    ensures !MatchesRole(RoleAliases[0], r)
  {
    CanonicalLower();
    NoMatch(0, r, "ybb");
  }

  lemma EngineerMissesScientist(r: string)
    requires r == "data engineer"
    ensures !MatchesRole(RoleAliases[1], r)
  {
    CanonicalLower();
    NoMatch(1, r, "ss");
  }

  lemma MLMissesAnalyst(r: string)
    requires r == "ml engineer"
    ensures !MatchesRole(RoleAliases[0], r)
  {
    CanonicalLower();
    NoMatch(0, r, "ybb");
  }

  lemma MLMissesScientist(r: string)
    requires r == "ml engineer"
    ensures !MatchesRole(RoleAliases[1], r)
  {
    CanonicalLower();
    NoMatch(1, r, "ss");
  }

  lemma MLMissesDataEngineer(r: string)
    requires r == "ml engineer"
    ensures !MatchesRole(RoleAliases[2], r)
  {
    CanonicalLower();
    NoMatch(2, r, "dy");
  }

  lemma GenAIMissesAnalyst(r: string)
    requires r == "genai engineer"
    ensures !MatchesRole(RoleAliases[0], r)
  {
    CanonicalLower();
    NoMatch(0, r, "ybb");
  }

  lemma GenAIMissesScientist(r: string)
    requires r == "genai engineer"
    ensures !MatchesRole(RoleAliases[1], r)
  {
    CanonicalLower();
    NoMatch(1, r, "ss");
  }

  lemma GenAIMissesDataEngineer(r: string)
    requires r == "genai engineer"
    ensures !MatchesRole(RoleAliases[2], r)
  {
    CanonicalLower();
    NoMatch(2, r, "dl");
  }

  lemma GenAIMissesML(r: string)
    requires r == "genai engineer"
    ensures !MatchesRole(RoleAliases[3], r)
  {
    CanonicalLower();
    NoMatch(3, r, "mm");
  }

  /** Every canonical role name normalises to itself. */
  lemma {:induction false} CanonicalNameIsFixed(i: nat)
    requires i < |RoleAliases|
    ensures NormalizeRoleName(RoleAliases[i].0) == RoleAliases[i].0
  {
    CanonicalMatchesOwnEntry(i);
    CanonicalLower();
    var r := Lower(Strip(RoleAliases[i].0));
    assert r == Lower(RoleAliases[i].0);
    if i == 1 {
      ScientistMissesAnalyst(r);
    } else if i == 2 {
      EngineerMissesAnalyst(r);
      EngineerMissesScientist(r);
    } else if i == 3 {
      MLMissesAnalyst(r);
      MLMissesScientist(r);
      MLMissesDataEngineer(r);
    } else if i == 4 {
      GenAIMissesAnalyst(r);
      GenAIMissesScientist(r);
      GenAIMissesDataEngineer(r);
      GenAIMissesML(r);
    }
    NormalizesTo(RoleAliases[i].0, i);
  }

  /** The normaliser returns the trimmed input when no entry matches. */
  lemma NormalizesToTrimmed(role: string)
    requires forall i :: 0 <= i < |RoleAliases| ==> !MatchesRole(RoleAliases[i], Lower(Strip(role)))
    ensures NormalizeRoleName(role) == Strip(role)
  {
  }

  /** Normalising twice is normalising once. */
  lemma NormalizeIdempotent(role: string)
    ensures NormalizeRoleName(NormalizeRoleName(role)) == NormalizeRoleName(role)
  {
    var r := Lower(Strip(role));
    var k := FirstWhere(RoleAliases, e => MatchesRole(e, r));
    if k < |RoleAliases| {
      assert NormalizeRoleName(role) == RoleAliases[k].0;
      CanonicalNameIsFixed(k);
    } else {
      assert NormalizeRoleName(role) == Strip(role);
      StripIdempotent(role);
    }
  }

  /** No string occurs in a shorter one. */
  lemma LongerNotContained(subs: seq<string>, r: string)
    requires forall a :: a in subs ==> |a| > |r|
    ensures forall a :: a in subs ==> !Contains(r, a)
  {
    forall a | a in subs
      ensures !Contains(r, a)
    {
      if Contains(r, a) {
        ContainsLength(r, a);
      }
    }
  }

  lemma EntryLengths(i: nat)
    requires i < |RoleAliases|
    ensures |RoleAliases[i].0| >= 10
    ensures forall a :: a in RoleAliases[i].1 ==> |a| >= 10
  {
  }

  /** Every alias and every canonical name of entry `i` is at least ten characters long,
      so no shorter string matches the entry. */
  lemma ShortMissesEntry(i: nat, r: string)
    requires i < |RoleAliases| && |r| < 10
    ensures !MatchesRole(RoleAliases[i], r)
  {
    EntryLengths(i);
    LongerNotContained(RoleAliases[i].1, r);
    assert |Lower(RoleAliases[i].0)| >= 10;
  }

  /** A trimmed role shorter than ten characters matches no entry and is returned as it is. */
  lemma ShortRoleIsUnchanged(role: string)
    requires |Strip(role)| < 10
    ensures NormalizeRoleName(role) == Strip(role)
  {
    var r := Lower(Strip(role));
    forall i | 0 <= i < |RoleAliases|
      ensures !MatchesRole(RoleAliases[i], r)
    {
      ShortMissesEntry(i, r);
    }
    NormalizesToTrimmed(role);
  }

  /** The alias "bi analyst" becomes "Data Analyst". */
  lemma NormalizeBiAnalyst()
    ensures NormalizeRoleName("bi analyst") == "Data Analyst"
  {
    var b := "bi analyst";
    assert Strip(b) == b;
    assert Lower(b) == b;
    assert b in RoleAliases[0].1 && Contains(b, b);
    NormalizesTo(b, 0);
  }

  lemma MenuAnalystTrimmed(m: string)
    requires m == "Data/BI Analyst"
    ensures Strip(m) == m
  {
    StripOfTrimmed(m);
  }

  lemma MenuAnalystLower()
    ensures Lower("Data/BI Analyst") == "data/bi analyst"
  {
  }

  lemma MenuAnalystMatches(r: string)
    requires r == "data/bi analyst"
    ensures MatchesRole(RoleAliases[0], r)
  {
    assert StartsWith(r[5..], "bi analyst");
    ContainsAt(r, "bi analyst", 5);
    assert "bi analyst" in RoleAliases[0].1;
  }

  /** The menu entry "Data/BI Analyst" contains the alias "bi analyst" once lower-cased,
      so it becomes "Data Analyst". */
  lemma NormalizeMenuAnalyst()
    ensures NormalizeRoleName("Data/BI Analyst") == "Data Analyst"
  {
    MenuAnalystTrimmed("Data/BI Analyst");
    MenuAnalystLower();
    MenuAnalystMatches("data/bi analyst");
    NormalizesTo("Data/BI Analyst", 0);
  }

  // "staff welder" misses every entry: each alias has a character the role lacks.

  lemma WelderMissesAnalyst(r: string)
    requires r == "staff welder"
    ensures !MatchesRole(RoleAliases[0], r)
  {
    CanonicalLower();
    NoMatch(0, r, "ybb");
  }

  lemma WelderMissesScientist(r: string)
    requires r == "staff welder"
    ensures !MatchesRole(RoleAliases[1], r)
  {
    CanonicalLower();
    NoMatch(1, r, "ii");
  }

  lemma WelderMissesDataEngineer(r: string)
    requires r == "staff welder"
    ensures !MatchesRole(RoleAliases[2], r)
  {
    CanonicalLower();
    NoMatch(2, r, "nn");
  }

  lemma WelderMissesML(r: string)
    requires r == "staff welder"
    ensures !MatchesRole(RoleAliases[3], r)
  {
    CanonicalLower();
    NoMatch(3, r, "mm");
  }

  lemma WelderMissesGenAI(r: string)
    requires r == "staff welder"
    ensures !MatchesRole(RoleAliases[4], r)
  {
    CanonicalLower();
    NoMatch(4, r, "gggg");
  }

  /** No entry matches "staff welder". */
  lemma WelderMissesAll(r: string)
    requires r == "staff welder"
    ensures forall i :: 0 <= i < |RoleAliases| ==> !MatchesRole(RoleAliases[i], r)
  {
    WelderMissesAnalyst(r);
    WelderMissesScientist(r);
    WelderMissesDataEngineer(r);
    WelderMissesML(r);
    WelderMissesGenAI(r);
  }

  /** "  Staff Welder " trims to "Staff Welder". */
  lemma WelderTrimmed(role: string, w: string, s: string, t: string)
    requires w == "  " && s == "Staff Welder" && t == " " && role == w + s + t
    ensures Strip(role) == s
  {
    StripPadded(w, s, t);
  }

  lemma WelderLower(s: string, r: string)
    requires s == "Staff Welder" && r == "staff welder"
    ensures Lower(s) == r
  {
  }

  /** A role matching no alias is only trimmed: "  Staff Welder " becomes "Staff Welder". */
  lemma NormalizeStaffWelder(role: string, s: string, r: string)
    requires s == "Staff Welder" && role == "  " + s + " " && r == "staff welder"
    ensures NormalizeRoleName(role) == s
  {
    WelderTrimmed(role, "  ", s, " ");
    WelderLower(s, r);
    WelderMissesAll(r);
    NormalizesToTrimmed(role);
  }

  // ---------------------------------------------------------------------------
  // extract_skills_with_evidence
  // ---------------------------------------------------------------------------

  /** The entry kept for one detected skill. */
  datatype Evidence = Evidence(mentions: nat, score: int, evidence: seq<string>)

  /** Total number of matches of all the patterns; overlapping patterns each count. */
  function Mentions(patterns: seq<string>, t: string, count: (string, string) -> nat): nat
    decreases |patterns|
  {
    if patterns == [] then 0 else count(patterns[0], t) + Mentions(patterns[1..], t, count)
  }

  lemma {:induction false} MentionsAppend(ps: seq<string>, qs: seq<string>, t: string, count: (string, string) -> nat)
    ensures Mentions(ps + qs, t, count) == Mentions(ps, t, count) + Mentions(qs, t, count)
    decreases |ps|
  {
    if ps == [] {
      assert ps + qs == qs;
    } else {
      assert (ps + qs)[1..] == ps[1..] + qs;
      MentionsAppend(ps[1..], qs, t, count);
    }
  }

  /** Every pattern's own matches are part of the total. */
  lemma {:induction false} MentionsCountsEachPattern(ps: seq<string>, k: nat, t: string, count: (string, string) -> nat)
    requires k < |ps|
    ensures count(ps[k], t) <= Mentions(ps, t, count)
    decreases |ps|
  {
    if k > 0 {
      MentionsCountsEachPattern(ps[1..], k - 1, t, count);
    }
  }

  /** The evidence score: 1 for one mention, 2 for two or three, 3 for four or more. */
  function Score(mentions: nat): (score: int)
  {
    if mentions >= 4 then 3 else if mentions >= 2 then 2 else 1
  }

  lemma ScoreMonotone(m: nat, n: nat)
    requires m <= n
    ensures Score(m) <= Score(n)
    ensures 1 <= Score(m) <= 3
  {
  }

  /** `any(re.search(p, line) for p in patterns)`. */
  predicate AnyMatch(patterns: seq<string>, line: string, search: (string, string) -> bool) {
    exists p :: p in patterns && search(p, line)
  }

  /** The lines on which some pattern matches, in order, duplicates kept. */
  function MatchingLines(lines: seq<string>, patterns: seq<string>, search: (string, string) -> bool): (r: seq<string>)
    ensures |r| <= |lines|
    ensures forall k :: 0 <= k < |r| ==> r[k] in lines && AnyMatch(patterns, r[k], search)
    decreases |lines|
  {
    if lines == [] then []
    else (if AnyMatch(patterns, lines[0], search) then [lines[0]] else [])
         + MatchingLines(lines[1..], patterns, search)
  }

  lemma {:induction false} MatchingLinesAppend(lines: seq<string>, x: string, patterns: seq<string>, search: (string, string) -> bool)
    ensures MatchingLines(lines + [x], patterns, search)
         == MatchingLines(lines, patterns, search) + (if AnyMatch(patterns, x, search) then [x] else [])
    decreases |lines|
  {
    if lines == [] {
      assert lines + [x] == [x];
    } else {
      assert (lines + [x])[1..] == lines[1..] + [x];
      MatchingLinesAppend(lines[1..], x, patterns, search);
    }
  }

  /** `a` is `b` with some elements left out, order kept. */
  predicate IsSubsequence(a: seq<string>, b: seq<string>)
    decreases |b|
  {
    if a == [] then true
    else if b == [] then false
    else (a[0] == b[0] && IsSubsequence(a[1..], b[1..])) || IsSubsequence(a, b[1..])
  }

  lemma {:induction false} MatchingLinesSubsequence(lines: seq<string>, patterns: seq<string>, search: (string, string) -> bool)
    ensures IsSubsequence(MatchingLines(lines, patterns, search), lines)
    decreases |lines|
  {
    if lines != [] {
      MatchingLinesSubsequence(lines[1..], patterns, search);
      var rest := MatchingLines(lines[1..], patterns, search);
      if AnyMatch(patterns, lines[0], search) {
        assert MatchingLines(lines, patterns, search) == [lines[0]] + rest;
      } else {
        assert MatchingLines(lines, patterns, search) == rest;
      }
    }
  }

  lemma {:induction false} SubsequencePrefix(a: seq<string>, b: seq<string>, n: nat)
    requires IsSubsequence(a, b) && n <= |a|
    ensures IsSubsequence(a[..n], b)
    decreases |b|
  {
    if n > 0 && b != [] {
      if a[0] == b[0] && IsSubsequence(a[1..], b[1..]) {
        SubsequencePrefix(a[1..], b[1..], n - 1);
        assert a[..n][1..] == a[1..][..n - 1];
      } else {
        SubsequencePrefix(a, b[1..], n);
      }
    }
  }

  /** Duplicates are kept: a matching line occurs among the matching lines exactly as
      often as in the input, and a line no pattern matches does not occur at all. */
  lemma {:induction false} MatchingLinesMultiplicity(lines: seq<string>, patterns: seq<string>, search: (string, string) -> bool, l: string)
    ensures multiset(MatchingLines(lines, patterns, search))[l]
         == if AnyMatch(patterns, l, search) then multiset(lines)[l] else 0
    decreases |lines|
  {
    if lines != [] {
      MatchingLinesMultiplicity(lines[1..], patterns, search, l);
      assert lines == [lines[0]] + lines[1..];
    }
  }

  /** The entry for one skill: none when no pattern matches anywhere in the lower-cased
      text; otherwise the total, its score and the first five matching non-blank lines. */
  function EntryFor(patterns: seq<string>, text: string, count: (string, string) -> nat,
                    search: (string, string) -> bool): Option<Evidence>
  {
    var mentions := Mentions(patterns, Lower(text), count);
    if mentions == 0 then None
    else Some(Evidence(mentions, Score(mentions),
                       Take(MatchingLines(NonBlankLines(text), patterns, search), 5)))
  }

  /** An entry is present exactly when some pattern matches; its mentions are the total,
      at least one, and its score is the step function of them. */
  lemma EntryMentionsAndScore(patterns: seq<string>, text: string, count: (string, string) -> nat,
                              search: (string, string) -> bool)
    ensures EntryFor(patterns, text, count, search).Some? <==> Mentions(patterns, Lower(text), count) > 0
    ensures EntryFor(patterns, text, count, search).Some? ==>
      var e := EntryFor(patterns, text, count, search).value;
      && e.mentions >= 1
      && e.mentions == Mentions(patterns, Lower(text), count)
      && 1 <= e.score <= 3
      && (e.mentions == 1 ==> e.score == 1)
      && (2 <= e.mentions <= 3 ==> e.score == 2)
      && (e.mentions >= 4 ==> e.score == 3)
  {
  }

  /** An entry's evidence: at most five lines, the first of the matching lines in input
      order, each a trimmed, non-blank line of the text on which some pattern matches. */
  lemma EntryEvidence(patterns: seq<string>, text: string, count: (string, string) -> nat,
                      search: (string, string) -> bool)
    requires EntryFor(patterns, text, count, search).Some?
    ensures
      var ev := EntryFor(patterns, text, count, search).value.evidence;
      var matching := MatchingLines(NonBlankLines(text), patterns, search);
      && |ev| == Min(5, |matching|)
      && ev == matching[..|ev|]
      && IsSubsequence(ev, NonBlankLines(text))
      && forall k :: 0 <= k < |ev| ==>
           ev[k] in NonBlankLines(text) && ev[k] != [] && Strip(ev[k]) == ev[k] && AnyMatch(patterns, ev[k], search)
  {
    var lines := NonBlankLines(text);
    var matching := MatchingLines(lines, patterns, search);
    var ev := Take(matching, 5);
    assert ev == EntryFor(patterns, text, count, search).value.evidence;
    MatchingLinesSubsequence(lines, patterns, search);
    SubsequencePrefix(matching, lines, |ev|);
    forall k | 0 <= k < |ev|
      ensures ev[k] in lines && ev[k] != [] && Strip(ev[k]) == ev[k] && AnyMatch(patterns, ev[k], search)
    {
      assert ev[k] == matching[k];
      var n :| 0 <= n < |lines| && lines[n] == ev[k];
    }
  }

  lemma {:induction false} NoMatchNoLines(lines: seq<string>, patterns: seq<string>, search: (string, string) -> bool)
    requires forall l :: l in lines ==> !AnyMatch(patterns, l, search)
    ensures MatchingLines(lines, patterns, search) == []
    decreases |lines|
  {
    if lines != [] {
      assert lines[0] in lines;
      NoMatchNoLines(lines[1..], patterns, search);
    }
  }

  /** A skill can be detected with no evidence: the whole-text count and the per-line
      search are separate questions to the matcher (a pattern may match across a line
      break, or only in the lower-cased text). */
  lemma DetectedWithoutEvidence(patterns: seq<string>, text: string, count: (string, string) -> nat,
                                search: (string, string) -> bool)
    requires Mentions(patterns, Lower(text), count) > 0
    requires forall l :: l in NonBlankLines(text) ==> !AnyMatch(patterns, l, search)
    ensures EntryFor(patterns, text, count, search).Some?
    ensures EntryFor(patterns, text, count, search).value.evidence == []
  {
    NoMatchNoLines(NonBlankLines(text), patterns, search);
  }

  /** The entries `entry` gives for the dictionary items `items`, visited in order: a name
      is kept exactly when the entry for its patterns is present, with that entry. */
  function ProfileOf(items: seq<(string, seq<string>)>, entry: seq<string> -> Option<Evidence>): (p: map<string, Evidence>)
    ensures forall k :: k in p <==> exists i :: 0 <= i < |items| && items[i].0 == k && entry(items[i].1).Some?
    ensures forall k :: k in p ==> exists i :: 0 <= i < |items| && items[i].0 == k && entry(items[i].1) == Some(p[k])
    decreases |items|
  {
    if items == [] then map[]
    else
      var n := |items| - 1;
      var before := ProfileOf(items[..n], entry);
      assert forall i :: 0 <= i < n ==> items[..n][i] == items[i];
      var e := entry(items[n].1);
      if e.Some? then before[items[n].0 := e.value] else before
  }

  /** A dictionary item's patterns met with one more item: its entry is added when present. */
  lemma ProfileOfSnoc(items: seq<(string, seq<string>)>, i: nat, entry: seq<string> -> Option<Evidence>)
    requires i < |items|
    ensures ProfileOf(items[..i + 1], entry)
         == if entry(items[i].1).Some? then ProfileOf(items[..i], entry)[items[i].0 := entry(items[i].1).value]
            else ProfileOf(items[..i], entry)
  {
    assert items[..i + 1][..i] == items[..i];
    assert items[..i + 1][i] == items[i];
  }

  /** The entry of a skill, as a function of its patterns, for a fixed text and matcher. */
  function EntryWith(text: string, count: (string, string) -> nat, search: (string, string) -> bool)
    : (entry: seq<string> -> Option<Evidence>)
    ensures forall ps :: entry(ps) == EntryFor(ps, text, count, search)
  {
    ps => EntryFor(ps, text, count, search)
  }

  /** The profile of `text` over the whole dictionary. */
  function Profile(text: string, count: (string, string) -> nat, search: (string, string) -> bool): map<string, Evidence>
  {
    ProfileOf(SkillPatterns, EntryWith(text, count, search))
  }

  /** The inner loop over one skill's patterns: the total number of their matches. */
  method CountMentions(patterns: seq<string>, t: string, count: (string, string) -> nat)
    returns (mentions: nat)
    ensures mentions == Mentions(patterns, t, count)
  {
    mentions := 0;
    var j := 0;
    while j < |patterns|
      invariant 0 <= j <= |patterns|
      invariant mentions == Mentions(patterns[..j], t, count)
    {
      var hits := count(patterns[j], t);
      if hits > 0 {
        mentions := mentions + hits;
      }
      MentionsAppend(patterns[..j], [patterns[j]], t, count);
      assert patterns[..j + 1] == patterns[..j] + [patterns[j]];
      j := j + 1;
    }
    assert patterns[..j] == patterns;
  }

  /** The loop over the non-blank lines: those on which some pattern matches, in order. */
  method CollectMatchingLines(lines: seq<string>, patterns: seq<string>, search: (string, string) -> bool)
    returns (matched: seq<string>)
    ensures matched == MatchingLines(lines, patterns, search)
  {
    matched := [];
    for k := 0 to |lines|
      invariant matched == MatchingLines(lines[..k], patterns, search)
    {
      MatchingLinesAppend(lines[..k], lines[k], patterns, search);
      assert lines[..k + 1] == lines[..k] + [lines[k]];
      if AnyMatch(patterns, lines[k], search) {
        matched := matched + [lines[k]];
      }
    }
    assert lines[..|lines|] == lines;
  }

  /** The body of the loop for one skill: its entry, none when nothing matches. */
  method SkillEntry(patterns: seq<string>, text: string, count: (string, string) -> nat,
                    search: (string, string) -> bool)
    returns (entry: Option<Evidence>)
    ensures entry == EntryFor(patterns, text, count, search)
  {
    var t := Lower(text);
    var mentions := CountMentions(patterns, t, count);
    if mentions > 0 {
      var matchedLines := CollectMatchingLines(NonBlankLines(text), patterns, search);
      var evidence := Take(matchedLines, 5);
      var score := 1;
      if mentions >= 2 {
        score := 2;
      }
      if mentions >= 4 {
        score := 3;
      }
      entry := Some(Evidence(mentions, score, evidence));
    } else {
      entry := None;
    }
  }

  /** The loop of `extract_skills_with_evidence` over the dictionary items `items`. */
  method ExtractOver(items: seq<(string, seq<string>)>, text: string, count: (string, string) -> nat,
                     search: (string, string) -> bool)
    returns (skills: map<string, Evidence>)
    ensures skills == ProfileOf(items, EntryWith(text, count, search))
  {
    skills := map[];
    for i := 0 to |items|
      invariant skills == ProfileOf(items[..i], EntryWith(text, count, search))
    {
      var entry := SkillEntry(items[i].1, text, count, search);
      ProfileOfSnoc(items, i, EntryWith(text, count, search));
      if entry.Some? {
        skills := skills[items[i].0 := entry.value];
      }
    }
    assert items[..|items|] == items;
  }

  /** A profile holds a skill exactly when its patterns match in the lower-cased text. */
  lemma ProfileMembers(items: seq<(string, seq<string>)>, text: string, count: (string, string) -> nat,
                       search: (string, string) -> bool)
    ensures forall k :: k in ProfileOf(items, EntryWith(text, count, search)) <==>
      exists i :: 0 <= i < |items| && items[i].0 == k && Mentions(items[i].1, Lower(text), count) > 0
  {
    forall i | 0 <= i < |items|
      ensures EntryWith(text, count, search)(items[i].1).Some? <==> Mentions(items[i].1, Lower(text), count) > 0
    {
      EntryMentionsAndScore(items[i].1, text, count, search);
    }
  }

  /** Over dictionary items with distinct names, item `i`'s name is detected exactly when
      its patterns match in the lower-cased text, and then its entry is that item's entry. */
  lemma DistinctProfileMembers(items: seq<(string, seq<string>)>, text: string,
                               count: (string, string) -> nat, search: (string, string) -> bool, i: nat)
    requires i < |items|
    requires forall a, b :: 0 <= a < b < |items| ==> items[a].0 != items[b].0
    ensures var p := ProfileOf(items, EntryWith(text, count, search));
      && (items[i].0 in p <==> Mentions(items[i].1, Lower(text), count) > 0)
      && (items[i].0 in p ==> Some(p[items[i].0]) == EntryFor(items[i].1, text, count, search))
  {
    var entry := EntryWith(text, count, search);
    var p := ProfileOf(items, entry);
    EntryMentionsAndScore(items[i].1, text, count, search);
    if items[i].0 in p {
      var j :| 0 <= j < |items| && items[j].0 == items[i].0 && entry(items[j].1) == Some(p[items[i].0]);
      assert j == i;
    }
  }

  /** A number that tells the skill names apart: length, then the first two characters. */
  function NameKey(name: string): (key: int)
    ensures |name| >= 2 ==> key == |name| * 1000000 + name[0] as int * 1000 + name[1] as int
  {
    if |name| < 2 then |name| else |name| * 1000000 + name[0] as int * 1000 + name[1] as int
  }

  /** The keys of the 28 skill names, in dictionary order. */
  const NameKeys: seq<int> := [
    6080121, 3083081, 3071105, 6068111, 5076105, 6080097, 5078117, 8080111, 7084097, 5083112,
    7065105, 3100098, 5075097, 12083099, 7080121, 10084101, 12084114, 3082065, 10069109, 15086101,
    3076076, 9076097, 10076108, 7070097, 9083116, 5067073, 5077076, 5067108
  ]

  lemma NameKeysOfTable()
    ensures |NameKeys| == |SkillPatterns|
    ensures forall i :: 0 <= i < |SkillPatterns| ==> NameKey(SkillPatterns[i].0) == NameKeys[i]
  {
  }

  lemma NameKeysDistinct()
    ensures forall a, b :: 0 <= a < b < |NameKeys| ==> NameKeys[a] != NameKeys[b]
  {
  }

  /** The names of SKILL_PATTERNS are distinct, as the keys of a dictionary are. */
  lemma SkillNamesDistinct()
    ensures forall a, b :: 0 <= a < b < |SkillPatterns| ==> SkillPatterns[a].0 != SkillPatterns[b].0
  {
    NameKeysOfTable();
    NameKeysDistinct();
    forall a, b | 0 <= a < b < |SkillPatterns|
      ensures SkillPatterns[a].0 != SkillPatterns[b].0
    {
      assert NameKeys[a] != NameKeys[b];
    }
  }

  /** A skill of the dictionary is detected exactly when its patterns match in the
      lower-cased text (none whose patterns find nothing is reported), and its entry is
      the one computed from its own patterns. */
  lemma SkillDetected(i: nat, text: string, count: (string, string) -> nat, search: (string, string) -> bool)
    requires i < |SkillPatterns|
    ensures var p := Profile(text, count, search);
      && (SkillPatterns[i].0 in p <==> Mentions(SkillPatterns[i].1, Lower(text), count) > 0)
      && (SkillPatterns[i].0 in p ==> Some(p[SkillPatterns[i].0]) == EntryFor(SkillPatterns[i].1, text, count, search))
  {
    SkillNamesDistinct();
    DistinctProfileMembers(SkillPatterns, text, count, search, i);
  }

  /** Each entry of a profile has at least one mention, the score of its mentions and at
      most five lines of evidence, each a non-blank line of the text. */
  lemma ProfileEntryBounds(items: seq<(string, seq<string>)>, text: string, count: (string, string) -> nat,
                           search: (string, string) -> bool, k: string)
    requires k in ProfileOf(items, EntryWith(text, count, search))
    ensures var e := ProfileOf(items, EntryWith(text, count, search))[k];
      && e.mentions >= 1 && 1 <= e.score <= 3 && e.score == Score(e.mentions)
      && |e.evidence| <= 5
      && (forall l :: l in e.evidence ==> l in NonBlankLines(text))
  {
    var p := ProfileOf(items, EntryWith(text, count, search));
    var i :| 0 <= i < |items| && items[i].0 == k && EntryWith(text, count, search)(items[i].1) == Some(p[k]);
    EntryMentionsAndScore(items[i].1, text, count, search);
    EntryEvidence(items[i].1, text, count, search);
  }

  /** `extract_skills_with_evidence(text)["skills"]`: the loop over SKILL_PATTERNS. */
  method ExtractSkillsWithEvidence(text: string, count: (string, string) -> nat, search: (string, string) -> bool)
    returns (skills: map<string, Evidence>)
    ensures skills == Profile(text, count, search)
  {
    skills := ExtractOver(SkillPatterns, text, count, search);
  }
}
