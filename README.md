# Skill Gap Analyzer — a verified model of its core

The Skill Gap Analyzer reads a CV and says which skills of a target role the CV already
shows and which it lacks, then proposes a four-week learning plan. This project models
that core in Dafny and proves properties of it:

- **skill detection** (`Skills`, src/skills.py): a fixed dictionary of 28 skills, each
  with regular-expression patterns. A skill is detected when its patterns match the
  lower-cased CV text. It is recorded with its number of mentions, a 1–3 score and up to
  five matching lines as evidence.
- **role names** (`Skills`): a free-text role is trimmed and lower-cased, then mapped to
  the first canonical role whose name equals it or one of whose aliases it contains.
- **role scope files** (`Scope`, app.py:21-73): a role from the menu selects a markdown
  file. `_parse_list` reads the `CORE_SKILLS:`, `OPTIONAL_SKILLS:` and `EXCLUDE_SKILLS:`
  blocks of that file into three sets.
- **document metadata** (`Rag`, src/rag.py): the first `Skills:` line of a role document
  becomes its pipe-separated `skills` metadata.
- **the gap** (`Gap`, app.py:75-107, 189-218):
  - The required skills come from the scope's core and optional sets. When both are
    empty, they come from the `skills` metadata of the retrieved role documents.
  - They are narrowed by the scope and split against the CV's skills into sorted
    `matched` and `missing` lists.
- **the roadmap** (`Roadmap`, src/roadmap.py):
  - The first twelve missing skills are cut into buckets of three.
  - Each non-empty bucket becomes a week with a fixed title, three templated tasks and,
    as resources, the first three playbook snippets (the first two from week 3 on).

Supporting modules:
- `Wrappers`: `Option`.
- `Strings`: the Python string operations used, i.e. `strip`, ASCII `lower`,
  `splitlines`, `split` on one character and `join` on a separator.
- `Order`: lexicographic order on strings, and `sorted` of a set as a strictly increasing
  sequence.

How the state is modelled:
- `_parse_list`, `_attach_skill_metadata`, `extract_skills_with_evidence` and
  `build_roadmap` work by loops over lines and by appending. They are `method`s with
  loops, each proved equal to a specification function. The properties are proved as
  lemmas about that function.
- `_attach_skill_metadata` updates a document object in place. It is a method on the
  class `Rag.Doc`.
- The regular-expression engine is a pair of caller-supplied functions:
  - `count(p, t)`: the number of matches of pattern `p` in `t`.
  - `search(p, l)`: whether `p` matches in line `l`.
  Everything about skill detection is proved for every such pair.
- The roles directory is a map from file name to file text.
- The retrieved role and playbook documents are parameters.

Behaviour of the code worth noting (the model follows the code):
- The menu entry "Data/BI Analyst" contains the alias "bi analyst". It is therefore
  normalised to "Data Analyst", which is not a key of `ROLE_FILE_MAP`. So this menu role
  never gets a scope, and its required skills always come from the retrieved documents
  (`Scope.MenuAnalystHasNoScope`, `Gap.MenuAnalystUsesDocs`).
- `_parse_list` stops capturing only at a blank line or a line ending in ":". A later
  line such as `EXCLUDE_SKILLS: Excel` inside an open block is captured whole into the
  current set (`Scope.OtherKeyLineCaptured`).
- The evidence lines of a skill are not de-duplicated (`Skills.MatchingLinesMultiplicity`).
- The `skills` metadata is set whenever the text after the colon is non-empty. This holds
  even if no comma piece survives cleaning, in which case the value is "".

## Model

| member | source | states |
|---|---|---|
| Skills.NormalizeRoleName | src/skills.py:47-54 | the result is the canonical name of the first alias entry, in declaration order, that matches the trimmed lower-cased role (equal to its lower-cased name, or containing an alias), all earlier entries failing; otherwise it is the trimmed role |
| Skills.NormalizesTo | src/skills.py:49-53 | when entry `i` is the first entry that matches, the normaliser returns its canonical name |
| Skills.CanonicalNameIsFixed | src/skills.py:39-53 | every canonical role name normalises to itself |
| Skills.NormalizesToTrimmed | src/skills.py:54 | when no entry matches, the trimmed input is returned |
| Skills.NormalizeIdempotent | src/skills.py:47-54 | normalising twice is the same as normalising once |
| Skills.ShortRoleIsUnchanged | src/skills.py:39-54 | a trimmed role shorter than ten characters matches no entry and comes back trimmed |
| Skills.NormalizeStaffWelder | src/skills.py:39-54 | a role matching no alias is only trimmed: "  Staff Welder " becomes "Staff Welder" |
| Skills.NormalizeBiAnalyst | src/skills.py:39-54 | "bi analyst" becomes "Data Analyst" |
| Skills.NormalizeMenuAnalyst | src/skills.py:39-54 | the menu entry "Data/BI Analyst" becomes "Data Analyst" |
| Skills.MentionsAppend | src/skills.py:62-65 | the mention count over concatenated pattern lists is the sum of the counts |
| Skills.MentionsCountsEachPattern | src/skills.py:62-65 | each pattern's own number of matches is part of the total |
| Skills.ScoreMonotone | src/skills.py:78-82 | the score lies in 1..3 and does not decrease as mentions grow |
| Skills.MatchingLines | src/skills.py:69-73 | at most as many lines as the input; each line is from the input, and some pattern matches it |
| Skills.MatchingLinesAppend | src/skills.py:71-73 | one more line is appended exactly when some pattern matches it |
| Skills.MatchingLinesSubsequence | src/skills.py:71-73 | the matching lines keep input order |
| Skills.SubsequencePrefix | src/skills.py:74 | a prefix of an order-preserving selection is again one |
| Skills.MatchingLinesMultiplicity | src/skills.py:71-73 | a matching line occurs as often as in the input (no de-duplication); a non-matching line does not occur |
| Skills.EntryMentionsAndScore | src/skills.py:59-84 | an entry exists iff the total number of matches in the lower-cased text is positive; its mentions are that total, and its score is 1 for one mention, 2 for two or three, 3 for four or more |
| Skills.EntryEvidence | src/skills.py:69-74 | the evidence is the first min(5, n) of the n matching lines; each is a trimmed non-blank line of the text on which a pattern matches, in input order |
| Skills.NoMatchNoLines | src/skills.py:71-73 | no line is kept when no pattern matches any line |
| Skills.DetectedWithoutEvidence | src/skills.py:63-74 | a skill counted in the whole text but matched on no single line is detected with empty evidence |
| Skills.ProfileOf | src/skills.py:59-84 | a skill name is in the result iff some dictionary item with that name has an entry, and its value is that item's entry |
| Skills.ProfileOfSnoc | src/skills.py:59-84 | visiting one more item adds its entry when present and changes nothing else |
| Skills.EntryWith | src/skills.py:59-84 | definition: the per-skill entry function agrees with the entry for every pattern list |
| Skills.CountMentions | src/skills.py:60-65 | the inner loop's total equals the sum of the per-pattern match counts |
| Skills.CollectMatchingLines | src/skills.py:69-73 | the loop collects exactly the matching lines, in order |
| Skills.SkillEntry | src/skills.py:60-84 | the body for one skill yields exactly its entry, or none when nothing matches |
| Skills.ExtractOver | src/skills.py:58-84 | the dictionary loop produces the profile of the visited items |
| Skills.ExtractSkillsWithEvidence | src/skills.py:56-86 | the result is the profile of the text over SKILL_PATTERNS |
| Skills.ProfileMembers | src/skills.py:59-84 | a skill is detected iff some pattern of it matches the lower-cased text |
| Skills.DistinctProfileMembers | src/skills.py:59-84 | over items with distinct names, item i is detected iff its patterns match, and its entry is the one computed from its patterns |
| Skills.SkillNamesDistinct | src/skills.py:4-37 | the 28 names of SKILL_PATTERNS are distinct, as dictionary keys are |
| Skills.SkillDetected | src/skills.py:56-86 | each skill of SKILL_PATTERNS is detected exactly when its patterns match (a skill whose patterns find nothing is never reported), with the entry of its own patterns |
| Skills.ProfileEntryBounds | src/skills.py:67-84 | every detected skill has at least one mention, score = step(mentions) in 1..3, and at most five evidence lines, all non-blank lines of the text |
| Rag.Doc.constructor | src/rag.py:27-29 | a document object holds the given text and metadata |
| Rag.SkillsLineHasColon | src/rag.py:32-33 | a "Skills:" line contains a colon, so the split after the first colon is defined |
| Rag.NoSkillsLine | src/rag.py:30-34 | with no "Skills:" line the skills text is "" |
| Rag.FirstSkillsLine | src/rag.py:30-34 | when line i is the first "Skills:" line, the skills text is the trimmed text after the first colon of that line |
| Rag.AttachedMetadataChanges | src/rag.py:36-38 | `skills` is set to the pipe-joined cleaned comma pieces exactly when the raw text is non-empty; every other key and value is unchanged |
| Rag.AttachSkillMetadata | src/rag.py:27-39 | the document object is updated in place: the text is unchanged, the metadata becomes the attached metadata of the old state, and the same object is returned; the object's new value is `AttachSkillMetadataValue` of its old value |
| Rag.ScanForSkills | src/rag.py:30-34 | the loop with `break` finds the text of the first "Skills:" line |
| Rag.AttachSkillMetadataValue | src/rag.py:27-39 | the operation on document values: the same text, the attached metadata |
| Rag.FirstSkillsLineWins | src/rag.py:31-34 | a first "Skills:" line decides the result, whatever follows it |
| Rag.OtherLinesPassedOver | src/rag.py:31-32 | a line that is not a "Skills:" line does not affect the result |
| Rag.PipeJoinedRoundTrip | src/rag.py:36-38 | splitting the stored value on "\|" and cleaning gives back the cleaned comma pieces, when the raw text has no "\|" |
| Scope.KeyInline | app.py:33-42 | a recognised key line's inline text is trimmed; the line's first non-blank text begins with the key, ignoring case |
| Scope.AfterKey | app.py:33 | the same, for a line with no leading white space |
| Scope.ColonRest | app.py:33-42 | the text after the colon is trimmed |
| Scope.LStripSpacePrefix | app.py:33 | leading white space does not change the left-trimmed line |
| Scope.KeyLineRecognised | app.py:33-42 | white space, the key in any letter case, white space, ":" and `rest` form a key line whose inline text is `rest` trimmed |
| Scope.NotKeyLine | app.py:33-39 | a line whose first non-blank text is not the key is not a key line |
| Scope.ParseListSpec | app.py:55-56 | every item of the parsed set is non-empty and trimmed |
| Scope.ParseList | app.py:31-56 | `_parse_list` returns the set of cleaned comma pieces of the joined fragments |
| Scope.CaptureFragments | app.py:35-53 | the loop with its `capture` flag, `continue` and `break` collects exactly the fragments of the scan |
| Scope.PiecesMembers | app.py:55-56 | a piece belongs to the pieces iff it is a cleaned comma piece of some fragment |
| Scope.CleanSplitCommaSpace | app.py:55-56 | splitting "a, b" on "," gives the pieces of `a` followed by those of `b` |
| Scope.JoinedPieces | app.py:55-56 | joining with ", " then splitting on "," gives each fragment's pieces, in order |
| Scope.ParseListMembers | app.py:31-56 | x is in the parsed set iff it is a cleaned comma piece of some captured fragment |
| Scope.ScanWithoutKey | app.py:38-53 | with no key line nothing is captured |
| Scope.ParseListWithoutKey | app.py:31-56 | a text with no line for the key parses to the empty set |
| Scope.SkippedBeforeKey | app.py:47 | before the first key line, every other line is skipped |
| Scope.KeyLineStartsCapture | app.py:40-45 | a key line turns capture on and adds its inline text when it is non-empty, even in an open block |
| Scope.CaptureEndsAt | app.py:48-52 | while capturing, a blank line or a line ending in ":" ends the parse |
| Scope.CaptureContinues | app.py:47-53 | while capturing, any other line is added trimmed |
| Scope.KeyColonSpace | app.py:33 | "KEY: v" with `v` trimmed has inline text `v` |
| Scope.NotKeyLineAt | app.py:33-39 | a line with no leading space whose i-th letter differs from the key's, ignoring case, is not a key line |
| Scope.OtherKeyLineCaptured | app.py:33-53 | while capturing for one key, the line "OTHER: v" of another scope key is itself a key line for OTHER, but is captured whole into the current set |
| Scope.ScopeKeysDistinct | app.py:69-71 | the three scope keys start with different letters |
| Scope.KeyLineValue | app.py:33-42 | the line "KEY: v" is a key line with inline text `v` |
| Scope.CapturedLine | app.py:47-53 | a trimmed value line differing from the key is not a key line and does not end the block |
| Scope.LoadRoleScope | app.py:59-73 | `load_role_scope` returns the scope of the role for the given directory contents |
| Scope.RoleScopeCases | app.py:59-73 | there is no source (and the scope is empty) iff the role has no mapped file or the file is missing; otherwise the three sets are the parses of the file for its keys, and the source is the file name |
| Scope.FileNamesNonEmpty | app.py:21-29 | every mapped file name is non-empty |
| Scope.RoleScopeItemsClean | app.py:55-71 | every scope item is trimmed and non-empty |
| Scope.MenuAnalystHasNoScope | app.py:189-190 | the menu role "Data/BI Analyst", once normalised, gets the empty scope |
| Scope.DataAnalystHasNoFile | app.py:21-29 | "Data Analyst" is not a key of ROLE_FILE_MAP |
| Gap.ResolveTargetRole | app.py:102-107 | the trimmed custom text if it is not blank; otherwise the selection unless it is "Select a role"; otherwise "" |
| Gap.ResolvedRoleEmpty | app.py:102-107 | the target role is empty iff the custom text is blank and the selection is the placeholder or empty; a custom role is trimmed |
| Gap.CustomRoleWins | app.py:103-104 | a non-blank custom role takes precedence over any selection |
| Gap.FilterByRoleScope | app.py:75-77 | x survives iff it is required, not excluded, and either the allow-list (core ∪ optional) is empty or it is on it |
| Gap.FilterBounds | app.py:75-77 | the result is a subset of `required` that avoids the excluded skills; it lies within core ∪ optional when that is non-empty, and is `required` minus the excluded skills when it is empty |
| Gap.SkillsValue | app.py:212 | definition: `metadata.get("skills", "")` |
| Gap.DocSkills | app.py:209-214 | a document's skills are trimmed and non-empty |
| Gap.UnionOverMembers | app.py:209-214 | a skill is in the union over the documents exactly when some document contributes it |
| Gap.RetrievedSkillsMembers | app.py:209-214 | a skill is required iff some retrieved document lists it |
| Gap.RequiredSkills | app.py:201-214 | core ∪ optional when non-empty, otherwise the skills of the retrieved documents |
| Gap.AttachedSkillsRoundTrip | app.py:209-214 | a document's skills, after its metadata is attached, are the cleaned comma pieces of its "Skills:" line, when that text is non-empty and has no "\|" |
| Gap.GapOf | app.py:217-218 | both lists are strictly sorted (sorted, no repeats); x is matched iff required and in the CV; x is missing iff required and not in the CV |
| Gap.GapPartition | app.py:216-218 | matched and missing are disjoint, together hold exactly the required skills, and their lengths sum to the number of required skills |
| Gap.GapRespectsScope | app.py:216-218 | excluded skills are never reported; matched skills are in the CV and missing ones are not; with a non-empty allow-list every reported skill is on it |
| Gap.ScopedGapIgnoresDocs | app.py:201-202 | when the scope lists core or optional skills, the retrieved documents do not affect the gap |
| Gap.CvSkills | app.py:199 | definition: the CV's skills are the keys of its profile |
| Gap.AnalyzeGap | app.py:189-218 | the role key is the normalised target role, and the gap is computed from the loaded scope, the retrieved documents and the skills extracted from the CV |
| Gap.MenuAnalystUsesDocs | app.py:189-218 | for the menu role "Data/BI Analyst" the gap is that of the retrieved documents' skills, with nothing excluded |
| Order.SortedSeq | app.py:217-218 | `sorted(set)`: the result has the set's size and elements and is strictly increasing |
| Roadmap.SourceOf | src/roadmap.py:9 | definition: `metadata.get("source", "playbook")` |
| Roadmap.SnippetParts | src/roadmap.py:8-9 | a snippet is the source, ": ", then the first three stripped non-blank lines joined by " \| " |
| Roadmap.Snippets | src/roadmap.py:5-9 | one snippet per playbook |
| Roadmap.SnippetsAt | src/roadmap.py:6-9 | the k-th snippet is the k-th playbook's, in playbook order |
| Roadmap.PlaybookSnippets | src/roadmap.py:5-9 | the first loop builds exactly the snippets |
| Roadmap.SnippetsSnoc | src/roadmap.py:6-9 | one more playbook appends its snippet at the end |
| Roadmap.Buckets | src/roadmap.py:15-20 | definition: four buckets; bucket k is `missing[3k:3k+3]` |
| Roadmap.TasksNameFocus | src/roadmap.py:36-40 | three tasks: the first is "Learn core concepts for: " followed by the focus joined by ", ", and the other two are fixed |
| Roadmap.BuildRoadmap | src/roadmap.py:3-44 | the result is the roadmap of the missing skills with the playbooks' snippets |
| Roadmap.CollectWeeks | src/roadmap.py:29-42 | the week loop appends one week per non-empty bucket, in order |
| Roadmap.WeekCount | src/roadmap.py:15-31 | definition: the number of weeks from bucket i onwards: 0 when no skill is left, else the ceiling of the remaining skills over 3 |
| Roadmap.BucketSizes | src/roadmap.py:15-20 | with at most twelve skills each bucket holds at most three, and bucket k is empty exactly when no skill is left at position 3k |
| Roadmap.WeeksFromBound | src/roadmap.py:29-31 | from bucket i onwards there are at most 5 - i weeks |
| Roadmap.WeeksFromCount | src/roadmap.py:29-31 | from bucket i onwards there is one week per non-empty bucket, i.e. the ceiling of the remaining skills over 3 |
| Roadmap.WeeksFromShape | src/roadmap.py:29-42 | from bucket i onwards the weeks are the records of consecutive weeks i, i+1, … with non-empty buckets |
| Roadmap.FocusesFrom | src/roadmap.py:15-35 | from bucket i onwards the focus lists together are the kept skills from position 3(i-1) |
| Roadmap.RoadmapLength | src/roadmap.py:11-31 | a roadmap has ceil(min(n,12)/3) ≤ 4 weeks |
| Roadmap.RoadmapWeeks | src/roadmap.py:11-42 | week j+1 of the roadmap is numbered j+1, has title `titles[j]`, focus `missing[3j:3j+3]` with 1–3 skills, the tasks for that focus, and as resources the first three snippets in weeks 1–2 and the first two afterwards (fewer when there are fewer playbooks) |
| Roadmap.RoadmapCoversMissing | src/roadmap.py:11-35 | the weeks' focus lists concatenated are exactly `missing_skills[:12]` |
| Roadmap.RoadmapWeekCounts | src/roadmap.py:11-31 | 12 or more missing skills give 4 weeks; 9 give 3; 7 give 3; none give no week |

## Left out

- The Streamlit user interface, the upload and text extraction (src/parsing.py), and the
  stops and messages of the form (app.py:109-187) are not modelled. The form's empty-role
  check appears only as `Gap.ResolvedRoleEmpty`.
- Building the vector store, embeddings and similarity retrieval (`rag_retrieve`,
  `get_or_build_vectordb`, loading and chunking files) are not modelled. The retrieved
  role and playbook documents are parameters of the model.
- The LLM call and the prompt assembly (`build_llm_instructions`, app.py:79-100) are not
  modelled, because they produce only text for an external model.
- The regular-expression engine is not modelled. Pattern matching is the caller's
  `count`/`search` pair, so no property of particular patterns (word boundaries, overlaps
  such as "\bembedding" and "\bembeddings\b") is proved.
- Reading the role file (`read_text(..., errors="ignore")`) is not modelled: the roles
  directory is a map from file name to text that is already decoded.
- `lower()` and `re.IGNORECASE` fold ASCII letters only. Python folds all of Unicode.
- Scope.KeyInline: the key regex `^\s*KEY\s*:\s*(.*)\s*$` is modelled as a left trim, a
  case-insensitive key prefix, a left trim, a colon and the trimmed rest. This agrees with
  the regex for keys that do not begin with white space, which holds for the three keys
  used. `re.escape` and a key containing regex metacharacters are not modelled.
- Scope.OtherKeyLineCaptured: the concrete three-line example (a CORE_SKILLS line, an
  OPTIONAL_SKILLS line, an EXCLUDE_SKILLS line) is not proved as one literal text. The
  model proves the general facts it follows from: a key line starts a block, and a line of
  another key inside an open block is captured whole.
- The result of `build_roadmap` is discarded at app.py:234. `Gap.AnalyzeGap` stops at the
  gap and does not call the roadmap. `Roadmap.BuildRoadmap` is modelled on its own.
- Roadmap.BuildRoadmap: `build_roadmap` takes only slices and so leaves `missing_skills`
  unchanged. Sequences are values in the model, so no separate property is needed.
- The later steps of the analysis (playbook retrieval, roadmap retrieval, report
  rendering, app.py:220 onwards) are not modelled.
