/**
 * Document metadata for retrieval (src/rag.py): a document's first "Skills:" line
 * becomes its `skills` metadata, a pipe-separated list.
 *
 * Loading files, splitting into chunks and the vector store are not modelled; a
 * document is its text and its metadata dictionary.
 */
module Rag {
  import opened Strings

  /** A document as a value: its text and its metadata dictionary. */
  datatype Document = Document(pageContent: string, metadata: map<string, string>)

  /** A document object; `_attach_skill_metadata` updates its metadata in place. */
  class Doc {
    var pageContent: string
    var metadata: map<string, string>

    constructor (pageContent: string, metadata: map<string, string>)
      ensures this.pageContent == pageContent && this.metadata == metadata
    {
      this.pageContent := pageContent;
      this.metadata := metadata;
    }

    /** The document's current value. */
    function Snapshot(): (d: Document)
      reads this
      ensures d.pageContent == pageContent && d.metadata == metadata
    {
      Document(pageContent, metadata)
    }
  }

  /** The metadata key the skills are stored under. */
  const SkillsKey := "skills"

  /** `line.strip().lower().startswith("skills:")`. */
  predicate IsSkillsLine(line: string) {
    StartsWith(Lower(Strip(line)), "skills:")
  }

  /** A "Skills:" line contains a colon, so `line.split(":", 1)[1]` exists. */
  lemma SkillsLineHasColon(line: string)
    requires IsSkillsLine(line)
    ensures ':' in line
  {
    var t := Strip(line);
    assert Lower(t)[6] == ':';
    assert t[6] == ':';
    var l := LStrip(line);
    assert l[6] == ':';
    assert line[|line| - |l| + 6] == ':';
  }

  /** `lines[i]` is the first "Skills:" line. */
  predicate IsFirstSkillsLine(lines: seq<string>, i: int) {
    0 <= i < |lines| && IsSkillsLine(lines[i]) && forall j :: 0 <= j < i ==> !IsSkillsLine(lines[j])
  }

  /** The text after the colon of the first "Skills:" line among `lines`, trimmed; `""`
      when there is no such line. */
  function SkillsTextOf(lines: seq<string>): string
    decreases |lines|
  {
    if lines == [] then ""
    else if IsSkillsLine(lines[0]) then
      SkillsLineHasColon(lines[0]);
      Strip(AfterFirst(lines[0], ':'))
    else SkillsTextOf(lines[1..])
  }

  /** Without a "Skills:" line there is no skills text. */
  lemma {:induction false} NoSkillsLine(lines: seq<string>)
    requires forall i :: 0 <= i < |lines| ==> !IsSkillsLine(lines[i])
    ensures SkillsTextOf(lines) == ""
    decreases |lines|
  {
    if lines != [] {
      assert !IsSkillsLine(lines[0]);
      assert forall i :: 0 <= i < |lines[1..]| ==> lines[1..][i] == lines[i + 1];
      NoSkillsLine(lines[1..]);
    }
  }

  /** The skills text is the trimmed text after the first colon of the first "Skills:"
      line. */
  lemma {:induction false} FirstSkillsLine(lines: seq<string>, i: int)
    requires IsFirstSkillsLine(lines, i)
    ensures ':' in lines[i]
    ensures SkillsTextOf(lines) == Strip(AfterFirst(lines[i], ':'))
    decreases |lines|
  {
    SkillsLineHasColon(lines[i]);
    if i > 0 {
      assert !IsSkillsLine(lines[0]);
      assert lines[1..][i - 1] == lines[i];
      forall j | 0 <= j < i - 1
        ensures !IsSkillsLine(lines[1..][j])
      {
        assert lines[1..][j] == lines[j + 1];
      }
      FirstSkillsLine(lines[1..], i - 1);
    }
  }

  /** The same for the lines of `text`. */
  function SkillsText(text: string): string {
    SkillsTextOf(SplitLines(text))
  }

  /** `"|".join([s.strip() for s in raw.split(",") if s.strip()])`. */
  function PipeJoined(raw: string): (value: string)
  {
    Join(CleanSplit(raw, ','), "|")
  }

  /** The metadata after attaching: `skills` is set when the first "Skills:" line has text
      after its colon, and nothing else changes. */
  function AttachedMetadata(text: string, metadata: map<string, string>): (m: map<string, string>)
  {
    var raw := SkillsText(text);
    if raw != "" then metadata[SkillsKey := PipeJoined(raw)] else metadata
  }

  /** Attaching sets `skills` exactly when the first "Skills:" line has text after its colon,
      and leaves every other key as it was. */
  lemma AttachedMetadataChanges(text: string, metadata: map<string, string>)
    ensures var m := AttachedMetadata(text, metadata);
      && (SkillsText(text) != "" ==> SkillsKey in m && m[SkillsKey] == PipeJoined(SkillsText(text)))
      && (SkillsText(text) == "" ==> m == metadata)
      && (forall k :: k != SkillsKey ==> (k in m <==> k in metadata))
      && (forall k :: k != SkillsKey && k in m ==> m[k] == metadata[k])
  {
  }

  /** `_attach_skill_metadata(doc)`: scans the lines for the first "Skills:" line and, when
      it has text after the colon, stores the pipe-joined skills in the document's metadata.
      The document itself is returned. */
  method AttachSkillMetadata(doc: Doc) returns (r: Doc)
    modifies doc
    ensures r == doc
    ensures doc.pageContent == old(doc.pageContent)
    ensures doc.metadata == AttachedMetadata(old(doc.pageContent), old(doc.metadata))
    ensures doc.Snapshot() == AttachSkillMetadataValue(old(doc.Snapshot()))
  {
    var skills := ScanForSkills(SplitLines(doc.pageContent));
    if skills != "" {
      doc.metadata := doc.metadata[SkillsKey := PipeJoined(skills)];
    }
    r := doc;
  }

  /** The loop of `_attach_skill_metadata`: the first "Skills:" line ends the scan. */
  method ScanForSkills(lines: seq<string>) returns (skills: string)
    ensures skills == SkillsTextOf(lines)
  {
    skills := "";
    var i := 0;
    while i < |lines|
      invariant 0 <= i <= |lines|
      invariant SkillsTextOf(lines[i..]) == SkillsTextOf(lines)
      invariant skills == ""
    {
      if IsSkillsLine(lines[i]) {
        SkillsLineHasColon(lines[i]);
        skills := Strip(AfterFirst(lines[i], ':'));
        break;
      }
      assert lines[i..][1..] == lines[i + 1..];
      i := i + 1;
    }
  }

  /** The same operation on document values. */
  function AttachSkillMetadataValue(d: Document): (r: Document)
    ensures r.pageContent == d.pageContent
    ensures r.metadata == AttachedMetadata(d.pageContent, d.metadata)
  {
    Document(d.pageContent, AttachedMetadata(d.pageContent, d.metadata))
  }

  /** Only the first "Skills:" line counts: the lines after it do not change the result. */
  lemma FirstSkillsLineWins(line: string, rest: string)
    requires NoLineBreak(line) && IsSkillsLine(line)
    ensures ':' in line
    ensures SkillsText(line + "\n" + rest) == Strip(AfterFirst(line, ':'))
  {
    SkillsLineHasColon(line);
    SplitLinesCons(line, rest);
  }

  /** A line that is not a "Skills:" line is passed over. */
  lemma OtherLinesPassedOver(line: string, rest: string)
    requires NoLineBreak(line) && !IsSkillsLine(line)
    ensures SkillsText(line + "\n" + rest) == SkillsText(rest)
  {
    SplitLinesCons(line, rest);
    assert ([line] + SplitLines(rest))[1..] == SplitLines(rest);
  }

  /** The stored value round-trips: splitting it on "|" and cleaning the pieces gives back
      the cleaned comma-separated pieces of the "Skills:" line, provided they contain no "|". */
  lemma PipeJoinedRoundTrip(raw: string)
    requires '|' !in raw
    ensures CleanSplit(PipeJoined(raw), '|') == CleanSplit(raw, ',')
  {
    CleanSplitKeepsAbsent(raw, ',', '|');
    CleanSplitJoin(CleanSplit(raw, ','), '|');
  }
}
