/**
 * The learning roadmap (src/roadmap.py): the first twelve missing skills are cut into four
 * buckets of three, and every non-empty bucket becomes a week with a fixed title, three
 * templated tasks and a few resource snippets taken from the playbook documents.
 */
module Roadmap {
  import opened Strings
  import Rag

  /** One week of the plan: the dictionary `{"week", "title", "focus", "tasks", "resources"}`. */
  datatype Week = Week(week: nat, title: string, focus: seq<string>, tasks: seq<string>, resources: seq<string>)

  /** The titles of the four weeks. */
  const Titles: seq<string> := [
    "Foundation & Target Gaps",
    "Build Proof via Mini-Projects",
    "End-to-End Project & Deployment",
    "Polish, Interview Prep, Portfolio"
  ]

  /** The fixed parts of the tasks. */
  const LearnPrefix := "Learn core concepts for: "
  const DemoTask := "Create 1 small demo (notebook or mini app) showing these skills"
  const BulletsTask := "Add 2 strong CV bullets with measurable outcomes"

  /** The metadata key naming a playbook's source, and its default. */
  const SourceKey := "source"
  const DefaultSource := "playbook"

  // ---------------------------------------------------------------------------
  // Playbook snippets
  // ---------------------------------------------------------------------------

  /** `d.metadata.get("source", "playbook")`. */
  function SourceOf(d: Rag.Document): (source: string)
    ensures SourceKey in d.metadata ==> source == d.metadata[SourceKey]
    ensures SourceKey !in d.metadata ==> source == DefaultSource
  {
    if SourceKey in d.metadata then d.metadata[SourceKey] else DefaultSource
  }

  /** A playbook's snippet: its source, ": ", and its first three stripped, non-blank lines
      joined by " | ". */
  function Snippet(d: Rag.Document): string {
    SourceOf(d) + ": " + Join(Take(NonBlankLines(d.pageContent), 3), " | ")
  }

  /** A snippet starts with the playbook's source and ": ", and the rest is the playbook's
      first three stripped, non-blank lines, joined by " | ". */
  lemma SnippetParts(d: Rag.Document)
    ensures var source := SourceOf(d);
      && |Snippet(d)| >= |source| + 2
      && Snippet(d)[..|source|] == source
      && Snippet(d)[|source|..|source| + 2] == ": "
      && Snippet(d)[|source| + 2..] == Join(Take(NonBlankLines(d.pageContent), 3), " | ")
  {
    var source := SourceOf(d);
    var body := Join(Take(NonBlankLines(d.pageContent), 3), " | ");
    var sep := ": ";
    assert Snippet(d) == source + sep + body;
    assert (source + sep + body)[..|source|] == source;
    assert (source + sep + body)[|source|..|source| + 2] == sep;
    assert (source + sep + body)[|source| + 2..] == body;
  }

  /** The snippets, one per playbook, in playbook order. */
  function Snippets(docs: seq<Rag.Document>): (snippets: seq<string>)
    ensures |snippets| == |docs|
  {
    if docs == [] then [] else Snippets(docs[..|docs| - 1]) + [Snippet(docs[|docs| - 1])]
  }

  /** The `k`th snippet is the `k`th playbook's. */
  lemma {:induction false} SnippetsAt(docs: seq<Rag.Document>, k: nat)
    requires k < |docs|
    ensures Snippets(docs)[k] == Snippet(docs[k])
    decreases |docs|
  {
    var init := docs[..|docs| - 1];
    if k < |docs| - 1 {
      SnippetsAt(init, k);
      assert init[k] == docs[k];
    }
  }

  /** The first loop of `build_roadmap`: one snippet appended per playbook. */
  method PlaybookSnippets(docs: seq<Rag.Document>) returns (snippets: seq<string>)
    ensures snippets == Snippets(docs)
  {
    snippets := [];
    for k := 0 to |docs|
      invariant snippets == Snippets(docs[..k])
    {
      SnippetsSnoc(docs, k);
      snippets := snippets + [Snippet(docs[k])];
    }
    assert docs[..|docs|] == docs;
  }

  /** One more playbook adds its snippet at the end. */
  lemma SnippetsSnoc(docs: seq<Rag.Document>, k: nat)
    requires k < |docs|
    ensures Snippets(docs[..k + 1]) == Snippets(docs[..k]) + [Snippet(docs[k])]
  {
    var prefix := docs[..k + 1];
    assert prefix[..|prefix| - 1] == docs[..k];
    assert prefix[|prefix| - 1] == docs[k];
  }

  // ---------------------------------------------------------------------------
  // Weeks
  // ---------------------------------------------------------------------------

  /** The four buckets `missing[0:3]`, `missing[3:6]`, `missing[6:9]`, `missing[9:12]`. */
  function Buckets(missing: seq<string>): (buckets: seq<seq<string>>)
    ensures |buckets| == 4
    ensures forall k :: 0 <= k < 4 ==> buckets[k] == Slice(missing, 3 * k, 3 * k + 3)
  {
    seq(4, k requires 0 <= k < 4 => Slice(missing, 3 * k, 3 * k + 3))
  }

  /** The three tasks of a week with the skills `focus`. */
  function Tasks(focus: seq<string>): seq<string> {
    [LearnPrefix + Join(focus, ", "), DemoTask, BulletsTask]
  }

  /** There are three tasks: the first names the focus skills after the fixed prefix, the
      other two are fixed. */
  lemma TasksNameFocus(focus: seq<string>)
    ensures |Tasks(focus)| == 3
    ensures |Tasks(focus)[0]| >= |LearnPrefix|
    ensures Tasks(focus)[0][..|LearnPrefix|] == LearnPrefix
    ensures Tasks(focus)[0][|LearnPrefix|..] == Join(focus, ", ")
    ensures Tasks(focus)[1] == DemoTask && Tasks(focus)[2] == BulletsTask
  {
    var first := Tasks(focus)[0];
    var names := Join(focus, ", ");
    assert first == LearnPrefix + names;
    assert (LearnPrefix + names)[..|LearnPrefix|] == LearnPrefix;
    assert (LearnPrefix + names)[|LearnPrefix|..] == names;
  }

  /** The resources of week `i`: three snippets in the first two weeks, two later. */
  function Resources(snippets: seq<string>, i: nat): seq<string> {
    if i <= 2 then Take(snippets, 3) else Take(snippets, 2)
  }

  /** The record of week `i` with the skills `focus`. */
  function WeekFor(focus: seq<string>, snippets: seq<string>, i: nat): Week
    requires 1 <= i <= 4
  {
    Week(i, Titles[i - 1], focus, Tasks(focus), Resources(snippets, i))
  }

  /** The weeks made from the buckets numbered `i` onwards (numbering from 1); empty buckets
      are skipped. */
  function WeeksFrom(buckets: seq<seq<string>>, snippets: seq<string>, i: nat): seq<Week>
    requires |buckets| <= 4 && 1 <= i <= |buckets| + 1
    decreases |buckets| + 1 - i
  {
    if i == |buckets| + 1 then []
    else if buckets[i - 1] == [] then WeeksFrom(buckets, snippets, i + 1)
    else [WeekFor(buckets[i - 1], snippets, i)] + WeeksFrom(buckets, snippets, i + 1)
  }

  /** The roadmap for the missing skills `missingSkills`, with the given playbook snippets. */
  function RoadmapOf(missingSkills: seq<string>, snippets: seq<string>): seq<Week> {
    WeeksFrom(Buckets(Take(missingSkills, 12)), snippets, 1)
  }

  /** `build_roadmap(missing_skills, playbook_docs)`. */
  method BuildRoadmap(missingSkills: seq<string>, playbookDocs: seq<Rag.Document>) returns (weeks: seq<Week>)
    ensures weeks == RoadmapOf(missingSkills, Snippets(playbookDocs))
  {
    var snippets := PlaybookSnippets(playbookDocs);
    var missing := Take(missingSkills, 12);
    var buckets := Buckets(missing);
    weeks := CollectWeeks(buckets, snippets);
  }

  /** The second loop of `build_roadmap`: a week appended per non-empty bucket. */
  method CollectWeeks(buckets: seq<seq<string>>, snippets: seq<string>) returns (weeks: seq<Week>)
    requires |buckets| <= 4
    ensures weeks == WeeksFrom(buckets, snippets, 1)
  {
    weeks := [];
    var i := 1;
    while i <= |buckets|
      invariant 1 <= i <= |buckets| + 1
      invariant weeks + WeeksFrom(buckets, snippets, i) == WeeksFrom(buckets, snippets, 1)
    {
      var focus := buckets[i - 1];
      ghost var rest := WeeksFrom(buckets, snippets, i + 1);
      if focus != [] {
        var resources := if i <= 2 then Take(snippets, 3) else Take(snippets, 2);
        var week := Week(i, Titles[i - 1], focus, Tasks(focus), resources);
        assert WeeksFrom(buckets, snippets, i) == [week] + rest;
        AppendAssoc(weeks, [week], rest);
        weeks := weeks + [week];
      }
      i := i + 1;
    }
  }

  // ---------------------------------------------------------------------------
  // Properties
  // ---------------------------------------------------------------------------

  /** The number of weeks made from bucket `i` onwards when `n <= 12` skills are kept. */
  function WeekCount(n: nat, i: nat): (count: nat)
    ensures 3 * (i - 1) >= n ==> count == 0
    ensures 3 * (i - 1) < n ==> count == (n - 3 * (i - 1) + 2) / 3
  {
    if 3 * (i - 1) >= n then 0 else (n - 3 * (i - 1) + 2) / 3
  }

  /** Bucket `k` is empty exactly when the first `n` skills end before it. */
  predicate EmptyFrom(buckets: seq<seq<string>>, n: nat) {
    |buckets| == 4 && forall k :: 0 <= k < 4 ==> (buckets[k] == [] <==> n <= 3 * k)
  }

  /** From bucket `i` onwards there are at most `5 - i` weeks. */
  lemma {:induction false} WeeksFromBound(buckets: seq<seq<string>>, snippets: seq<string>, i: nat)
    requires |buckets| == 4 && 1 <= i <= 5
    ensures |WeeksFrom(buckets, snippets, i)| <= 5 - i
    decreases 5 - i
  {
    if i <= 4 {
      WeeksFromBound(buckets, snippets, i + 1);
    }
  }

  /** From bucket `i` onwards there is one week per non-empty bucket. */
  lemma {:induction false} WeeksFromCount(buckets: seq<seq<string>>, n: nat, snippets: seq<string>, i: nat)
    requires n <= 12 && EmptyFrom(buckets, n) && 1 <= i <= 5
    ensures |WeeksFrom(buckets, snippets, i)| == WeekCount(n, i)
    decreases 5 - i
  {
    if i <= 4 {
      WeeksFromCount(buckets, n, snippets, i + 1);
    }
  }

  /** From bucket `i` onwards the weeks are exactly the records of the consecutive weeks
      `i`, `i + 1`, ... whose buckets are non-empty. */
  lemma {:induction false} WeeksFromShape(buckets: seq<seq<string>>, n: nat, snippets: seq<string>, i: nat)
    requires n <= 12 && EmptyFrom(buckets, n) && 1 <= i <= 5
    ensures forall j :: 0 <= j < |WeeksFrom(buckets, snippets, i)| ==>
      i + j <= 4 && WeeksFrom(buckets, snippets, i)[j] == WeekFor(buckets[i - 1 + j], snippets, i + j)
    decreases 5 - i
  {
    WeeksFromBound(buckets, snippets, i);
    if i <= 4 {
      var rest := WeeksFrom(buckets, snippets, i + 1);
      if buckets[i - 1] != [] {
        WeeksFromShape(buckets, n, snippets, i + 1);
        var w := WeeksFrom(buckets, snippets, i);
        assert w == [WeekFor(buckets[i - 1], snippets, i)] + rest;
        forall j | 0 < j < |w|
          ensures w[j] == WeekFor(buckets[i - 1 + j], snippets, i + j)
        {
          assert w[j] == rest[j - 1];
        }
      } else {
        WeeksFromCount(buckets, n, snippets, i + 1);
        assert rest == [];
      }
    }
  }

  /** The buckets of at most twelve skills: bucket `k` has `min(n, 3k + 3) - min(n, 3k)`
      skills, so it is empty exactly when `n <= 3k`. */
  lemma BucketSizes(missing: seq<string>)
    requires |missing| <= 12
    ensures EmptyFrom(Buckets(missing), |missing|)
    ensures forall k :: 0 <= k < 4 ==> |Buckets(missing)[k]| <= 3
  {
    var buckets := Buckets(missing);
    forall k | 0 <= k < 4
      ensures (buckets[k] == [] <==> |missing| <= 3 * k) && |buckets[k]| <= 3
    {
      assert |buckets[k]| == Min(|missing|, 3 * k + 3) - Min(|missing|, 3 * k);
    }
  }

  /** All focus lists, concatenated in week order. */
  function Focuses(weeks: seq<Week>): seq<string> {
    if weeks == [] then [] else weeks[0].focus + Focuses(weeks[1..])
  }

  /** From bucket `i` onwards the focus lists together are the kept skills from position
      `3 * (i - 1)` on. */
  lemma {:induction false} FocusesFrom(missing: seq<string>, snippets: seq<string>, i: nat)
    requires |missing| <= 12 && 1 <= i <= 5
    ensures Focuses(WeeksFrom(Buckets(missing), snippets, i)) == missing[Min(|missing|, 3 * (i - 1))..]
    decreases 5 - i
  {
    var buckets := Buckets(missing);
    if i <= 4 {
      FocusesFrom(missing, snippets, i + 1);
      var rest := WeeksFrom(buckets, snippets, i + 1);
      var lo, hi := Min(|missing|, 3 * (i - 1)), Min(|missing|, 3 * i);
      assert buckets[i - 1] == missing[lo..hi];
      if buckets[i - 1] != [] {
        var w := [WeekFor(buckets[i - 1], snippets, i)] + rest;
        assert w[1..] == rest;
        SliceConcat(missing, lo, hi);
      }
    }
  }

  /** A roadmap has `ceil(min(len(missing), 12) / 3)` weeks, so at most four. */
  lemma RoadmapLength(missingSkills: seq<string>, snippets: seq<string>)
    ensures |RoadmapOf(missingSkills, snippets)| == (Min(|missingSkills|, 12) + 2) / 3 <= 4
  {
    var missing := Take(missingSkills, 12);
    BucketSizes(missing);
    WeeksFromCount(Buckets(missing), |missing|, snippets, 1);
  }

  /** The weeks of a roadmap, as `build_roadmap` builds them: numbered 1, 2, ... in order;
      week `j + 1` has title `Titles[j]`, focuses on `missing[3j:3j+3]` (one to three
      skills), lists the tasks for that focus, and offers three snippets in weeks 1-2 and
      two afterwards. */
  lemma RoadmapWeeks(missingSkills: seq<string>, snippets: seq<string>, j: nat)
    requires j < |RoadmapOf(missingSkills, snippets)|
    ensures var w := RoadmapOf(missingSkills, snippets)[j];
      && j < 4
      && w.week == j + 1
      && w.title == Titles[j]
      && w.focus == Slice(Take(missingSkills, 12), 3 * j, 3 * j + 3)
      && 1 <= |w.focus| <= 3
      && w.tasks == Tasks(w.focus)
      && w.resources == (if j < 2 then Take(snippets, 3) else Take(snippets, 2))
  {
    var missing := Take(missingSkills, 12);
    var buckets := Buckets(missing);
    BucketSizes(missing);
    WeeksFromCount(buckets, |missing|, snippets, 1);
    WeeksFromShape(buckets, |missing|, snippets, 1);
    assert RoadmapOf(missingSkills, snippets)[j] == WeekFor(buckets[j], snippets, j + 1);
    assert buckets[j] != [];
  }

  /** The weeks' focus lists, concatenated, are exactly the first twelve missing skills: no
      skill is lost, repeated or reordered. */
  lemma RoadmapCoversMissing(missingSkills: seq<string>, snippets: seq<string>)
    ensures Focuses(RoadmapOf(missingSkills, snippets)) == Take(missingSkills, 12)
  {
    var missing := Take(missingSkills, 12);
    FocusesFrom(missing, snippets, 1);
    assert missing[0..] == missing;
  }

  /** Twelve or more missing skills give four weeks, nine give three, seven give three,
      none give no week at all. */
  lemma RoadmapWeekCounts(missingSkills: seq<string>, snippets: seq<string>)
    ensures |missingSkills| >= 12 ==> |RoadmapOf(missingSkills, snippets)| == 4
    ensures |missingSkills| == 9 ==> |RoadmapOf(missingSkills, snippets)| == 3
    ensures |missingSkills| == 7 ==> |RoadmapOf(missingSkills, snippets)| == 3
    ensures |missingSkills| == 0 ==> RoadmapOf(missingSkills, snippets) == []
  {
    RoadmapLength(missingSkills, snippets);
  }
}
