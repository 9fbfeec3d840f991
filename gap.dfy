/**
 * The gap computation of the analyzer (app.py:75-107, 189-218): the target role is
 * resolved and normalised, its scope loaded, the required skills taken from the scope
 * (or, when the scope lists none, from the `skills` metadata of the retrieved role
 * documents), narrowed by the scope, and split into the sorted `matched` and `missing`
 * lists against the skills found in the CV.
 */
module Gap {
  import opened Wrappers
  import opened Strings
  import opened Order
  import Skills
  import Rag
  import Scope

  /** The placeholder entry of the role menu. */
  const SelectPrompt := "Select a role"

  /** `resolve_target_role(selected, custom)`: the custom text, trimmed, when it is not
      blank; otherwise the menu selection unless it is the placeholder; otherwise `""`. */
  function ResolveTargetRole(selected: string, custom: string): (role: string)
    ensures Strip(custom) != "" ==> role == Strip(custom)
    ensures Strip(custom) == "" && selected != SelectPrompt ==> role == selected
    ensures Strip(custom) == "" && selected == SelectPrompt ==> role == ""
  {
    if Strip(custom) != "" then Strip(custom)
    else if selected != SelectPrompt then selected
    else ""
  }

  /** No role is analysed exactly when the custom text is blank and the menu shows the
      placeholder or nothing; a custom role is always trimmed. */
  lemma ResolvedRoleEmpty(selected: string, custom: string)
    ensures ResolveTargetRole(selected, custom) == "" <==>
      Strip(custom) == "" && (selected == SelectPrompt || selected == "")
    ensures Strip(custom) != "" ==> Strip(ResolveTargetRole(selected, custom)) == ResolveTargetRole(selected, custom)
  {
    if Strip(custom) != "" {
      StripIdempotent(custom);
    }
  }

  /** The custom text takes precedence over any menu selection. */
  lemma CustomRoleWins(selected1: string, selected2: string, custom: string)
    requires Strip(custom) != ""
    ensures ResolveTargetRole(selected1, custom) == ResolveTargetRole(selected2, custom)
  {
  }

  /** `filter_by_role_scope(required, scope)`: the skills allowed by the scope, minus the
      excluded ones; a scope that lists no core or optional skill allows everything. */
  function FilterByRoleScope(required: set<string>, scope: Scope.RoleScope): (r: set<string>)
    ensures forall x :: x in r <==>
      x in required && x !in scope.exclude
      && (scope.core + scope.optional == {} || x in scope.core + scope.optional)
  {
    var allowed := if scope.core != {} || scope.optional != {} then scope.core + scope.optional else required;
    (required * allowed) - scope.exclude
  }

  /** The filtered set is a subset of `required` disjoint from the exclusions; with a
      non-empty allow-list it lies inside it, and with an empty one it is `required` minus
      the exclusions. */
  lemma FilterBounds(required: set<string>, scope: Scope.RoleScope)
    ensures FilterByRoleScope(required, scope) <= required
    ensures FilterByRoleScope(required, scope) !! scope.exclude
    ensures scope.core + scope.optional != {} ==>
      FilterByRoleScope(required, scope) <= scope.core + scope.optional
    ensures scope.core + scope.optional == {} ==>
      FilterByRoleScope(required, scope) == required - scope.exclude
  {
  }

  // ---------------------------------------------------------------------------
  // The required skills
  // ---------------------------------------------------------------------------

  /** `d.metadata.get("skills", "")`. */
  function SkillsValue(d: Rag.Document): (value: string)
    ensures Rag.SkillsKey in d.metadata ==> value == d.metadata[Rag.SkillsKey]
    ensures Rag.SkillsKey !in d.metadata ==> value == ""
  {
    if Rag.SkillsKey in d.metadata then d.metadata[Rag.SkillsKey] else ""
  }

  /** The skills a document's metadata lists: its `skills` value split on "|", each piece
      trimmed, empty pieces dropped. */
  function DocSkills(d: Rag.Document): (s: set<string>)
    ensures forall x :: x in s ==> x != "" && Strip(x) == x
  {
    CleanSplitMembers(SkillsValue(d), '|');
    set x | x in CleanSplit(SkillsValue(d), '|')
  }

  /** The union of `skillsOf(d)` over the documents `d` of `docs`. */
  function UnionOver(docs: seq<Rag.Document>, skillsOf: Rag.Document -> set<string>): set<string>
    decreases |docs|
  {
    if docs == [] then {} else skillsOf(docs[0]) + UnionOver(docs[1..], skillsOf)
  }

  /** A skill is in the union exactly when some document contributes it. */
  lemma {:induction false} UnionOverMembers(docs: seq<Rag.Document>, skillsOf: Rag.Document -> set<string>, x: string)
    ensures x in UnionOver(docs, skillsOf) <==> exists i :: 0 <= i < |docs| && x in skillsOf(docs[i])
    decreases |docs|
  {
    if docs != [] {
      var rest := docs[1..];
      UnionOverMembers(rest, skillsOf, x);
      if x in skillsOf(docs[0]) {
        assert 0 < |docs|;
      } else if x in UnionOver(rest, skillsOf) {
        var i :| 0 <= i < |rest| && x in skillsOf(rest[i]);
        assert docs[i + 1] == rest[i];
      } else {
        forall i | 0 <= i < |docs|
          ensures x !in skillsOf(docs[i])
        {
          if i > 0 {
            assert docs[i] == rest[i - 1];
          }
        }
      }
    }
  }

  /** The union of the skills listed by the retrieved documents. */
  function RetrievedSkills(docs: seq<Rag.Document>): set<string> {
    UnionOver(docs, DocSkills)
  }

  /** A skill is retrieved exactly when some retrieved document lists it. */
  lemma RetrievedSkillsMembers(docs: seq<Rag.Document>, x: string)
    ensures x in RetrievedSkills(docs) <==> exists i :: 0 <= i < |docs| && x in DocSkills(docs[i])
  {
    UnionOverMembers(docs, DocSkills, x);
  }

  /** The required skills of app.py:201-214: the scope's core and optional skills when it
      lists any, otherwise the skills of the role documents retrieved for the role. */
  function RequiredSkills(scope: Scope.RoleScope, roleDocs: seq<Rag.Document>): (required: set<string>)
    ensures scope.core + scope.optional != {} ==> required == scope.core + scope.optional
    ensures scope.core + scope.optional == {} ==> required == RetrievedSkills(roleDocs)
  {
    if scope.core != {} || scope.optional != {} then scope.core + scope.optional
    else RetrievedSkills(roleDocs)
  }

  /** A role document whose metadata was attached from its text lists exactly the
      trimmed, non-empty comma pieces of its "Skills:" line, when that line has text and
      no piece contains "|". */
  lemma AttachedSkillsRoundTrip(d: Rag.Document)
    requires Rag.SkillsText(d.pageContent) != ""
    requires '|' !in Rag.SkillsText(d.pageContent)
    ensures DocSkills(Rag.AttachSkillMetadataValue(d)) ==
      set x | x in CleanSplit(Rag.SkillsText(d.pageContent), ',')
  {
    var raw := Rag.SkillsText(d.pageContent);
    Rag.AttachedMetadataChanges(d.pageContent, d.metadata);
    Rag.PipeJoinedRoundTrip(raw);
  }

  // ---------------------------------------------------------------------------
  // matched and missing
  // ---------------------------------------------------------------------------

  /** The two lists reported to the user. */
  datatype GapReport = GapReport(matched: seq<string>, missing: seq<string>)

  /** `sorted(required & cv_skills)` and `sorted(required - cv_skills)`. */
  function GapOf(required: set<string>, cvSkills: set<string>): (g: GapReport)
    ensures StrictlySorted(g.matched) && StrictlySorted(g.missing)
    ensures forall x :: x in g.matched <==> x in required && x in cvSkills
    ensures forall x :: x in g.missing <==> x in required && x !in cvSkills
  {
    GapReport(SortedSeq(required * cvSkills), SortedSeq(required - cvSkills))
  }

  /** `matched` and `missing` are disjoint and together hold exactly the required skills;
      each skill appears once. */
  lemma GapPartition(required: set<string>, cvSkills: set<string>)
    ensures var g := GapOf(required, cvSkills);
      && (forall x :: !(x in g.matched && x in g.missing))
      && (forall x :: x in g.matched || x in g.missing <==> x in required)
      && |g.matched| + |g.missing| == |required|
  {
    var g := GapOf(required, cvSkills);
    assert required == (required * cvSkills) + (required - cvSkills);
    assert |required| == |required * cvSkills| + |required - cvSkills|;
  }

  /** The gap for a role: app.py:201-218 as a function of the loaded scope, the retrieved
      role documents and the CV's skills. */
  function GapFor(scope: Scope.RoleScope, roleDocs: seq<Rag.Document>, cvSkills: set<string>): (g: GapReport)
  {
    GapOf(FilterByRoleScope(RequiredSkills(scope, roleDocs), scope), cvSkills)
  }

  /** An excluded skill is never reported, a matched skill is always one the CV shows, a
      missing one never is, and with a non-empty allow-list every reported skill is on it. */
  lemma GapRespectsScope(scope: Scope.RoleScope, roleDocs: seq<Rag.Document>, cvSkills: set<string>)
    ensures var g := GapFor(scope, roleDocs, cvSkills);
      && (forall x :: x in scope.exclude ==> x !in g.matched && x !in g.missing)
      && (forall x :: x in g.matched ==> x in cvSkills)
      && (forall x :: x in g.missing ==> x !in cvSkills)
      && (scope.core + scope.optional != {} ==>
            forall x :: x in g.matched || x in g.missing ==> x in scope.core + scope.optional)
  {
  }

  /** With a scope that lists core or optional skills, the retrieved documents play no
      part. */
  lemma ScopedGapIgnoresDocs(scope: Scope.RoleScope, docs1: seq<Rag.Document>, docs2: seq<Rag.Document>,
                             cvSkills: set<string>)
    requires scope.core + scope.optional != {}
    ensures GapFor(scope, docs1, cvSkills) == GapFor(scope, docs2, cvSkills)
  {
  }

  /** The skill set of a CV profile: `set(cv_profile["skills"].keys())`. */
  function CvSkills(profile: map<string, Skills.Evidence>): (s: set<string>)
    ensures forall x :: x in s <==> x in profile
  {
    profile.Keys
  }

  /** The analysis of app.py:189-218 for the target role `targetRole`: the role is
      normalised, its scope loaded from `roleFiles`, the CV's skills extracted with the
      matcher `count`/`search`, and the gap computed; `roleDocs` are the role documents
      retrieved for the normalised role. */
  method AnalyzeGap(targetRole: string, roleFiles: map<string, string>, cvText: string,
                    count: (string, string) -> nat, search: (string, string) -> bool,
                    roleDocs: seq<Rag.Document>)
    returns (roleKey: string, gap: GapReport)
    ensures roleKey == Skills.NormalizeRoleName(targetRole)
    ensures gap == GapFor(Scope.RoleScopeOf(roleKey, roleFiles), roleDocs,
                          CvSkills(Skills.Profile(cvText, count, search)))
  {
    roleKey := Skills.NormalizeRoleName(targetRole);
    var scope := Scope.LoadRoleScope(roleKey, roleFiles);
    var profile := Skills.ExtractSkillsWithEvidence(cvText, count, search);
    var cvSkills := CvSkills(profile);
    var required := RequiredSkills(scope, roleDocs);
    required := FilterByRoleScope(required, scope);
    gap := GapOf(required, cvSkills);
  }

  /** Choosing "Data/BI Analyst" from the menu loads no scope: the role is normalised to
      "Data Analyst", which has no scope file, so the required skills are those of the
      retrieved documents, with nothing excluded. */
  lemma MenuAnalystUsesDocs(roleFiles: map<string, string>, roleDocs: seq<Rag.Document>, cvSkills: set<string>)
    ensures var scope := Scope.RoleScopeOf(Skills.NormalizeRoleName("Data/BI Analyst"), roleFiles);
      GapFor(scope, roleDocs, cvSkills) == GapOf(RetrievedSkills(roleDocs), cvSkills)
  {
    Scope.MenuAnalystHasNoScope(roleFiles);
    var required := RetrievedSkills(roleDocs);
    assert FilterByRoleScope(required, Scope.EmptyScope) == required;
  }
}
