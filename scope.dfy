/**
 * Role scope files (app.py:21-73): a role name selects a markdown file whose
 * `CORE_SKILLS:`, `OPTIONAL_SKILLS:` and `EXCLUDE_SKILLS:` blocks are parsed into
 * sets of skill names.
 *
 * The roles directory is a map from file name to file text; a file name absent from
 * the map is a file that does not exist.
 */
module Scope {
  import opened Wrappers
  import opened Strings
  import Skills

  /** `ROLE_FILE_MAP`: the roles offered in the menu and their scope files. */
  const RoleFileMap: map<string, string> := map[
    "Data/BI Analyst" := "data_bi_analyst.md",
    "Data Scientist" := "data_scientist.md",
    "Data Engineer" := "data_engineer.md",
    "ML Engineer" := "ml_engineer.md",
    "AI Engineer" := "ai_engineer.md",
    "GenAI/NLP Engineer" := "genai_nlp_engineer.md",
    "Software Engineer ML AI" := "software_engineer_ml_ai.md"
  ]

  const CoreKey := "CORE_SKILLS"
  const OptionalKey := "OPTIONAL_SKILLS"
  const ExcludeKey := "EXCLUDE_SKILLS"

  // ---------------------------------------------------------------------------
  // The key line `^\s*KEY\s*:\s*(.*)\s*$`, case-insensitive
  // ---------------------------------------------------------------------------

  /** When `line` is a line for `key` (white space, the key in any case, white space, a
      colon), the trimmed text after the colon. */
  function KeyInline(line: string, key: string): (inline: Option<string>)
    ensures inline.Some? ==> Strip(inline.value) == inline.value
    ensures inline.Some? ==> KeyPrefix(LStrip(line), key)
  {
    AfterKey(LStrip(line), key)
  }

  /** `l` starts with `key`, ignoring letter case. */
  predicate KeyPrefix(l: string, key: string) {
    |key| <= |l| && Lower(l[..|key|]) == Lower(key)
  }

  /** The rest of the key regex on `l`, which has no leading white space. */
  function AfterKey(l: string, key: string): (inline: Option<string>)
    ensures inline.Some? ==> Strip(inline.value) == inline.value
    ensures inline.Some? ==> KeyPrefix(l, key)
  {
    if KeyPrefix(l, key) then ColonRest(LStrip(l[|key|..])) else None
  }

  /** `:\s*(.*)\s*$` on `a`, giving the captured text trimmed. */
  function ColonRest(a: string): (inline: Option<string>)
    ensures inline.Some? ==> Strip(inline.value) == inline.value
  {
    if a != [] && a[0] == ':' then
      StripIdempotent(a[1..]);
      Some(Strip(a[1..]))
    else None
  }

  /** All characters of `w` are white space. */
  predicate AllSpace(w: string) {
    forall i :: 0 <= i < |w| ==> IsSpace(w[i])
  }

  lemma {:induction false} LStripSpacePrefix(w: string, s: string)
    requires AllSpace(w)
    ensures LStrip(w + s) == LStrip(s)
    decreases |w|
  {
    if w != [] {
      assert (w + s)[1..] == w[1..] + s;
      LStripSpacePrefix(w[1..], s);
    } else {
      assert w + s == s;
    }
  }

  lemma ColonAfterSpace(w2: string, rest: string)
    requires AllSpace(w2)
    ensures ColonRest(LStrip(w2 + (":" + rest))) == Some(Strip(rest))
  {
    var tail := ":" + rest;
    LStripSpacePrefix(w2, tail);
    assert LStrip(tail) == tail;
    assert tail[1..] == rest;
  }

  lemma KeyThenRest(k: string, t: string, key: string)
    requires |k| == |key| && Lower(k) == Lower(key)
    ensures AfterKey(k + t, key) == ColonRest(LStrip(t))
  {
    assert (k + t)[..|key|] == k;
    assert (k + t)[|key|..] == t;
  }

  /** The key is recognised in any letter case, after leading white space, with white
      space before the colon, and the inline text is what follows the colon, trimmed. */
  lemma KeyLineRecognised(w1: string, k: string, w2: string, rest: string, key: string)
    requires AllSpace(w1) && AllSpace(w2)
    requires |k| == |key| && Lower(k) == Lower(key)
    requires k != [] && !IsSpace(k[0])
    ensures KeyInline(w1 + k + w2 + ":" + rest, key) == Some(Strip(rest))
  {
    var t := w2 + (":" + rest);
    var s := k + t;
    assert w1 + k + w2 + ":" + rest == w1 + s;
    LStripSpacePrefix(w1, s);
    assert LStrip(s) == s;
    KeyThenRest(k, t, key);
    ColonAfterSpace(w2, rest);
  }

  /** A line whose first non-blank text is not the key (in any case) is not a key line. */
  lemma NotKeyLine(line: string, key: string)
    requires !KeyPrefix(LStrip(line), key)
    ensures KeyInline(line, key) == None
  {
  }

  // ---------------------------------------------------------------------------
  // The capture loop of `_parse_list`
  // ---------------------------------------------------------------------------

  /** The fragments `_parse_list` has collected after reading `lines` for `key`, having
      collected `acc` before them with capture flag `capture`: a key line adds its inline
      text (when non-empty) and turns capture on; while capturing, a blank line or a line
      ending in a colon ends the scan and any other line is added, trimmed; before the first
      key line every other line is skipped. */
  function Scan(lines: seq<string>, key: string, capture: bool, acc: seq<string>): (items: seq<string>)
    decreases |lines|
  {
    if lines == [] then acc
    else
      match KeyInline(lines[0], key)
      case Some(inline) =>
        Scan(lines[1..], key, true, if inline != "" then acc + [inline] else acc)
      case None =>
        if capture then
          var s := Strip(lines[0]);
          if s == "" || EndsWith(s, ":") then acc
          else Scan(lines[1..], key, true, acc + [s])
        else Scan(lines[1..], key, false, acc)
  }

  /** The fragments `_parse_list` collects from `lines` for `key`. */
  function Fragments(lines: seq<string>, key: string): (items: seq<string>)
  {
    Scan(lines, key, false, [])
  }

  /** `_parse_list(text, key)`: the captured fragments are joined with ", ", split on ",",
      and the trimmed, non-empty pieces form the result. */
  function ParseListSpec(text: string, key: string): (result: set<string>)
    ensures forall x :: x in result ==> x != "" && Strip(x) == x
  {
    var items := Fragments(SplitLines(text), key);
    set x | x in CleanSplit(Join(items, ", "), ',')
  }

  /** `_parse_list(text, key)`. */
  method ParseList(text: string, key: string) returns (result: set<string>)
    ensures result == ParseListSpec(text, key)
  {
    var items := CaptureFragments(SplitLines(text), key);
    var joined := Join(items, ", ");
    result := set x | x in CleanSplit(joined, ',');
  }

  /** The line loop of `_parse_list`, with its `capture` flag. */
  method CaptureFragments(lines: seq<string>, key: string) returns (items: seq<string>)
    ensures items == Fragments(lines, key)
  {
    items := [];
    var capture := false;
    var i := 0;
    while i < |lines|
      invariant 0 <= i <= |lines|
      invariant Scan(lines[i..], key, capture, items) == Fragments(lines, key)
    {
      assert lines[i..][1..] == lines[i + 1..];
      var m := KeyInline(lines[i], key);
      if m.Some? {
        capture := true;
        var inline := m.value;
        if inline != "" {
          items := items + [inline];
        }
        i := i + 1;
        continue;
      }
      if capture {
        var s := Strip(lines[i]);
        if s == "" {
          break;
        }
        if EndsWith(s, ":") {
          break;
        }
        items := items + [s];
      }
      i := i + 1;
    }
  }

  // ---------------------------------------------------------------------------
  // Properties of the parser
  // ---------------------------------------------------------------------------

  /** The comma pieces of each fragment, in order. */
  function Pieces(items: seq<string>): (r: seq<string>)
    decreases |items|
  {
    if items == [] then [] else CleanSplit(items[0], ',') + Pieces(items[1..])
  }

  lemma {:induction false} PiecesMembers(items: seq<string>, x: string)
    ensures x in Pieces(items) <==> exists k :: 0 <= k < |items| && x in CleanSplit(items[k], ',')
    decreases |items|
  {
    if items != [] {
      PiecesMembers(items[1..], x);
      if x in Pieces(items[1..]) {
        var k :| 0 <= k < |items[1..]| && x in CleanSplit(items[1..][k], ',');
        assert x in CleanSplit(items[k + 1], ',');
      }
      forall k | 0 <= k < |items| && x in CleanSplit(items[k], ',')
        ensures x in Pieces(items)
      {
        if k > 0 {
          assert x in CleanSplit(items[1..][k - 1], ',');
        }
      }
    }
  }

  /** A space after the separator does not change the cleaned pieces. */
  lemma CleanSplitSpacePrefix(b: string)
    ensures CleanSplit(" " + b, ',') == CleanSplit(b, ',')
  {
    var parts := Split(b, ',');
    assert (" " + b)[1..] == b;
    assert Split(" " + b, ',') == [" " + parts[0]] + parts[1..];
    StripSpacePrefix(" ", parts[0]);
    CleanAppend([" " + parts[0]], parts[1..]);
    CleanAppend([parts[0]], parts[1..]);
    assert [parts[0]] + parts[1..] == parts;
  }

  /** Splitting "a, b" on "," gives the pieces of `a` and then those of `b`. */
  lemma CleanSplitCommaSpace(a: string, b: string)
    ensures CleanSplit(a + ", " + b, ',') == CleanSplit(a, ',') + CleanSplit(b, ',')
  {
    assert a + ", " + b == a + [','] + (" " + b);
    SplitConcat(a, ',', " " + b);
    CleanAppend(Split(a, ','), Split(" " + b, ','));
    CleanSplitSpacePrefix(b);
  }

  lemma NoPieces(items: seq<string>, sep: string)
    requires items == []
    ensures CleanSplit(Join(items, sep), ',') == Pieces(items)
  {
    assert Join(items, sep) == "";
    assert Split("", ',') == [""];
  }

  lemma OnePiece(items: seq<string>, sep: string)
    requires |items| == 1
    ensures CleanSplit(Join(items, sep), ',') == Pieces(items)
  {
    var r := CleanSplit(items[0], ',');
    var rest := items[1..];
    assert |rest| == 0;
    assert Pieces(rest) == [];
    assert Pieces(items) == r + Pieces(rest);
    assert r + [] == r;
  }

  /** Joining the fragments with ", " and splitting on "," gives each fragment's pieces. */
  lemma {:induction false} JoinedPieces(items: seq<string>)
    ensures CleanSplit(Join(items, ", "), ',') == Pieces(items)
    decreases |items|
  {
    if items == [] {
      NoPieces(items, ", ");
    } else if |items| == 1 {
      OnePiece(items, ", ");
    } else {
      CleanSplitCommaSpace(items[0], Join(items[1..], ", "));
      JoinedPieces(items[1..]);
    }
  }

  /** The result of `_parse_list` is exactly the set of trimmed, non-empty comma pieces of
      the captured fragments. */
  lemma ParseListMembers(text: string, key: string, x: string)
    ensures var items := Fragments(SplitLines(text), key);
      x in ParseListSpec(text, key) <==> exists k :: 0 <= k < |items| && x in CleanSplit(items[k], ',')
  {
    var items := Fragments(SplitLines(text), key);
    JoinedPieces(items);
    PiecesMembers(items, x);
  }

  /** Without a key line nothing is captured. */
  lemma {:induction false} ScanWithoutKey(lines: seq<string>, key: string, acc: seq<string>)
    requires forall k :: 0 <= k < |lines| ==> KeyInline(lines[k], key) == None
    ensures Scan(lines, key, false, acc) == acc
    decreases |lines|
  {
    if lines != [] {
      assert KeyInline(lines[0], key) == None;
      ScanWithoutKey(lines[1..], key, acc);
    }
  }

  /** A text with no line for `key` gives the empty set. */
  lemma ParseListWithoutKey(text: string, key: string)
    requires forall k :: 0 <= k < |SplitLines(text)| ==> KeyInline(SplitLines(text)[k], key) == None
    ensures ParseListSpec(text, key) == {}
  {
    ScanWithoutKey(SplitLines(text), key, []);
    assert Split("", ',') == [""];
  }

  /** Lines before the first key line are skipped, whatever they say. */
  lemma SkippedBeforeKey(lines: seq<string>, i: nat, key: string, acc: seq<string>)
    requires i < |lines| && KeyInline(lines[i], key) == None
    ensures Scan(lines[i..], key, false, acc) == Scan(lines[i + 1..], key, false, acc)
  {
    assert lines[i..][1..] == lines[i + 1..];
  }

  /** A key line adds its inline text, when there is any, and starts capturing, even when
      capturing is already on. */
  lemma KeyLineStartsCapture(lines: seq<string>, i: nat, key: string, capture: bool, acc: seq<string>, inline: string)
    requires i < |lines| && KeyInline(lines[i], key) == Some(inline)
    ensures Scan(lines[i..], key, capture, acc) ==
      Scan(lines[i + 1..], key, true, if inline != "" then acc + [inline] else acc)
  {
    assert lines[i..][1..] == lines[i + 1..];
  }

  /** While capturing, a blank line or a line ending in ":" ends the block: nothing after
      it is captured, not even a later key line. */
  lemma CaptureEndsAt(lines: seq<string>, i: nat, key: string, acc: seq<string>)
    requires i < |lines| && KeyInline(lines[i], key) == None
    requires Strip(lines[i]) == "" || EndsWith(Strip(lines[i]), ":")
    ensures Scan(lines[i..], key, true, acc) == acc
  {
  }

  /** While capturing, any other line is captured, trimmed, even one that starts with
      another key such as `OPTIONAL_SKILLS: Docker`. */
  lemma CaptureContinues(lines: seq<string>, i: nat, key: string, acc: seq<string>)
    requires i < |lines| && KeyInline(lines[i], key) == None
    requires Strip(lines[i]) != "" && !EndsWith(Strip(lines[i]), ":")
    ensures Scan(lines[i..], key, true, acc) == Scan(lines[i + 1..], key, true, acc + [Strip(lines[i])])
  {
    assert lines[i..][1..] == lines[i + 1..];
  }

  /** A trimmed value after "KEY: " is the key line's inline text. */
  lemma KeyColonSpace(key: string, v: string)
    requires key != [] && !IsSpace(key[0])
    requires Strip(v) == v
    ensures KeyInline(key + (": " + v), key) == Some(v)
  {
    var t := ": " + v;
    NoLeadingSpace(key + t);
    KeyThenRest(key, t, key);
    ColonSpaceValue(v);
  }

  lemma NoLeadingSpace(s: string)
    requires s != [] && !IsSpace(s[0])
    ensures LStrip(s) == s
  {
  }

  lemma ColonSpaceValue(v: string)
    ensures ColonRest(LStrip(": " + v)) == Some(Strip(v))
  {
    var t := ": " + v;
    NoLeadingSpace(t);
    assert t[1..] == " " + v;
    StripSpacePrefix(" ", v);
  }

  /** A line that starts, after no white space, with a character that differs from the
      key's at the same position, ignoring case, is not a key line. */
  lemma NotKeyLineAt(line: string, key: string, i: nat)
    requires line != [] && !IsSpace(line[0])
    requires i < |key| && i < |line| && LowerChar(line[i]) != LowerChar(key[i])
    ensures KeyInline(line, key) == None
  {
    assert LStrip(line) == line;
    if |key| <= |line| {
      assert Lower(line[..|key|])[i] != Lower(key)[i];
    }
  }

  /** The keys' first letters differ, ignoring case. */
  predicate DistinctInitials(k1: string, k2: string)
    requires k1 != [] && k2 != []
  {
    LowerChar(k1[0]) != LowerChar(k2[0])
  }

  /** A value fit to follow "KEY: " on a line: trimmed, non-empty and not ending in ':'. */
  predicate PlainValue(v: string) {
    v != [] && !IsSpace(v[0]) && !IsSpace(v[|v| - 1]) && v[|v| - 1] != ':'
  }

  /** A key that can start a key line: non-empty, not starting with white space. */
  predicate PlainKey(k: string) {
    k != [] && !IsSpace(k[0])
  }

  /** While capturing the block of `key`, a line "OTHER: v" for another key, such as
      `OPTIONAL_SKILLS: Docker` inside the `CORE_SKILLS` block, does not end the block:
      it is captured whole. */
  lemma OtherKeyLineCaptured(lines: seq<string>, i: nat, key: string, other: string, v: string, acc: seq<string>)
    requires i < |lines| && lines[i] == other + (": " + v)
    requires PlainKey(key) && PlainKey(other) && DistinctInitials(key, other) && PlainValue(v)
    ensures KeyInline(lines[i], other) == Some(v)
    ensures Scan(lines[i..], key, true, acc) == Scan(lines[i + 1..], key, true, acc + [lines[i]])
  {
    KeyLineValue(lines[i], other, v);
    KeyLineEnds(other, v);
    CapturedLine(lines[i], key, 0);
    CaptureContinues(lines, i, key, acc);
  }

  /** The ends of the line "k: v". */
  lemma KeyLineEnds(k: string, v: string)
    requires PlainKey(k) && PlainValue(v)
    ensures var l := k + (": " + v);
      l != [] && l[0] == k[0] && l[|l| - 1] == v[|v| - 1]
  {
  }

  /** The three scope keys start with different letters, so `OtherKeyLineCaptured` applies
      to each pair of them. */
  lemma ScopeKeysDistinct()
    ensures PlainKey(CoreKey) && PlainKey(OptionalKey) && PlainKey(ExcludeKey)
    ensures DistinctInitials(CoreKey, OptionalKey) && DistinctInitials(CoreKey, ExcludeKey)
    ensures DistinctInitials(OptionalKey, ExcludeKey)
  {
  }

  /** "KEY: v" is a key line with inline text `v` when `v` is trimmed. */
  lemma KeyLineValue(line: string, key: string, v: string)
    requires line == key + (": " + v)
    requires PlainKey(key) && PlainValue(v)
    ensures KeyInline(line, key) == Some(v)
  {
    StripOfTrimmed(v);
    KeyColonSpace(key, v);
  }

  /** A trimmed line without a final colon that differs from the key at position `i`: it is
      captured while capturing and skipped otherwise. */
  lemma CapturedLine(line: string, key: string, i: nat)
    requires PlainValue(line)
    requires i < |key| && i < |line| && LowerChar(line[i]) != LowerChar(key[i])
    ensures KeyInline(line, key) == None
    ensures Strip(line) == line && line != "" && !EndsWith(line, ":")
  {
    NotKeyLineAt(line, key, i);
    StripOfTrimmed(line);
  }

  // ---------------------------------------------------------------------------
  // load_role_scope
  // ---------------------------------------------------------------------------

  /** A role's scope; `source` is the scope file's name, `None` when there is none. */
  datatype RoleScope = RoleScope(core: set<string>, optional: set<string>, exclude: set<string>, source: Option<string>)

  const EmptyScope := RoleScope({}, {}, {}, None)

  /** The scope `load_role_scope` returns for `roleName`, with `roleFiles` the contents of
      the roles directory. */
  function RoleScopeOf(roleName: string, roleFiles: map<string, string>): (scope: RoleScope)
  {
    if roleName !in RoleFileMap || RoleFileMap[roleName] == "" then EmptyScope
    else
      var fileName := RoleFileMap[roleName];
      if fileName !in roleFiles then EmptyScope
      else
        var text := roleFiles[fileName];
        RoleScope(ParseListSpec(text, CoreKey), ParseListSpec(text, OptionalKey),
                  ParseListSpec(text, ExcludeKey), Some(fileName))
  }

  /** `load_role_scope(role_name)`. */
  method LoadRoleScope(roleName: string, roleFiles: map<string, string>) returns (scope: RoleScope)
    ensures scope == RoleScopeOf(roleName, roleFiles)
  {
    if roleName !in RoleFileMap || RoleFileMap[roleName] == "" {
      return EmptyScope;
    }
    var fileName := RoleFileMap[roleName];
    if fileName !in roleFiles {
      return EmptyScope;
    }
    var text := roleFiles[fileName];
    var core := ParseList(text, CoreKey);
    var optional := ParseList(text, OptionalKey);
    var exclude := ParseList(text, ExcludeKey);
    scope := RoleScope(core, optional, exclude, Some(fileName));
  }

  /** The scope is empty with no source exactly when the role has no file in the map or
      its file does not exist; otherwise each set is the parse of the file for its key. */
  lemma RoleScopeCases(roleName: string, roleFiles: map<string, string>)
    ensures var scope := RoleScopeOf(roleName, roleFiles);
      && (scope.source == None <==> roleName !in RoleFileMap || RoleFileMap[roleName] !in roleFiles)
      && (scope.source == None ==> scope == EmptyScope)
      && (scope.source.Some? ==>
            var text := roleFiles[RoleFileMap[roleName]];
            && scope.source == Some(RoleFileMap[roleName])
            && scope.core == ParseListSpec(text, CoreKey)
            && scope.optional == ParseListSpec(text, OptionalKey)
            && scope.exclude == ParseListSpec(text, ExcludeKey))
  {
    if roleName in RoleFileMap {
      FileNamesNonEmpty(roleName);
    }
  }

  lemma FileNamesNonEmpty(roleName: string)
    requires roleName in RoleFileMap
    ensures RoleFileMap[roleName] != ""
  {
  }

  /** Every scope item is trimmed and non-empty. */
  lemma RoleScopeItemsClean(roleName: string, roleFiles: map<string, string>)
    ensures var scope := RoleScopeOf(roleName, roleFiles);
      forall x :: x in scope.core + scope.optional + scope.exclude ==> x != "" && Strip(x) == x
  {
  }

  /** The menu entry "Data/BI Analyst" is normalised to "Data Analyst" before the scope
      is loaded, and "Data Analyst" has no scope file, so that role never gets a scope. */
  lemma MenuAnalystHasNoScope(roleFiles: map<string, string>)
    ensures RoleScopeOf(Skills.NormalizeRoleName("Data/BI Analyst"), roleFiles) == EmptyScope
  {
    Skills.NormalizeMenuAnalyst();
    DataAnalystHasNoFile("Data Analyst");
  }

  lemma DataAnalystHasNoFile(r: string)
    requires r == "Data Analyst"
    ensures r !in RoleFileMap
  {
  }
}
