/**
 * `parseFormDescription`: one form field per line of the form
 * `Label (type, required|optional)`.
 *
 * The line pattern `^(.*?)\s*\((.*?),\s*(required|optional)\)$` is modelled
 * without a regular-expression engine. `Decomposes` says when the pattern
 * matches at all; `Leftmost` says which of the possible matches the
 * backtracking engine reports (the one whose lazy first group is shortest).
 * `MatchLine` computes that match and is proved to agree with both.
 */
module Parser {
  import opened Text
  import opened Fields

  /** The message of the error thrown for a line that does not match, before the line itself. */
  const ErrorPrefix: string := "Invalid line format: "

  predicate IsKeyword(kw: string) {
    kw == "required" || kw == "optional"
  }

  /**
   * The pattern matches `line` as
   *   g1 + w1 + "(" + g2 + "," + w2 + kw + ")"
   * with g1 == line[..i], w1 == line[i..p], the parenthesis at p,
   * g2 == line[p + 1..c], the comma at c and w2 the rest up to the keyword.
   * `.` matches no line terminator; `\s` matches white space, line
   * terminators included.
   */
  ghost predicate Decomposes(line: string, i: int, p: int, c: int, kw: string)
  {
    && IsKeyword(kw)
    && 0 <= i <= p < c && c + |kw| + 2 <= |line|
    && NoLineTerminator(line[..i])
    && AllSpace(line[i..p])
    && line[p] == '('
    && NoLineTerminator(line[p + 1..c])
    && line[c] == ','
    && AllSpace(line[c + 1..|line| - |kw| - 1])
    && line[|line| - |kw| - 1..] == kw + ")"
  }

  /**
   * The match the engine reports. The lazy first group is tried shortest
   * first and, once its length is fixed, the rest of the match is unique
   * (`DecompositionUnique`), so the report is the match with the least `i`.
   */
  ghost predicate Leftmost(line: string, i: int, p: int, c: int, kw: string)
  {
    && Decomposes(line, i, p, c, kw)
    && forall i', p', c', kw' :: 0 <= i' < i ==> !Decomposes(line, i', p', c', kw')
  }

  /** The pattern matches the line in some way. */
  ghost predicate Matches(line: string)
  {
    exists i, p, c, kw :: Decomposes(line, i, p, c, kw)
  }

  /** The match the engine reports on `line` yields the field `f`. */
  ghost predicate ReadsAs(line: string, f: FormField)
  {
    exists i, p, c, kw ::
      && Leftmost(line, i, p, c, kw)
      && f == FormField(Trim(line[..i]), Trim(line[p + 1..c]), kw == "required")
  }

  /** The positions of one match and its keyword. */
  datatype Match = Match(i: nat, p: nat, c: nat, kw: string)

  /** The keyword that, followed by `)`, ends the line. */
  function KeywordAtEnd(line: string): Option<string>
  {
    if EndsWith(line, "required)") then Some("required")
    else if EndsWith(line, "optional)") then Some("optional")
    else None
  }

  /** The last `|suffix|` characters of `s` are `suffix`. */
  predicate EndsWith(s: string, suffix: string)
  {
    |suffix| <= |s| && forall k :: 0 <= k < |suffix| ==> s[|s| - |suffix| + k] == suffix[k]
  }

  lemma EndsWithSlice(s: string, suffix: string)
    requires |suffix| <= |s|
    ensures EndsWith(s, suffix) <==> s[|s| - |suffix|..] == suffix
  {
    var n := |s| - |suffix|;
    assert forall k :: 0 <= k < |suffix| ==> s[n..][k] == s[n + k];
  }

  /** The last non-space character before the keyword, when it is a comma. */
  function CommaBefore(line: string, kw: string): (r: Option<nat>)
    requires |kw| + 1 <= |line|
    ensures r.Some? ==> r.value < |line| - |kw| - 1 && line[r.value] == ','
  {
    var body := TrimEnd(line[..|line| - |kw| - 1]);
    if body != [] && body[|body| - 1] == ',' then Some(|body| - 1) else None
  }

  /** The length of the run of white space that starts at `i`. */
  function SpaceRun(line: string, i: nat): (n: nat)
    requires i <= |line|
    ensures i + n <= |line| && forall k :: i <= k < i + n ==> IsSpace(line[k])
    ensures i + n == |line| || !IsSpace(line[i + n])
    decreases |line| - i
  {
    if i < |line| && IsSpace(line[i]) then 1 + SpaceRun(line, i + 1) else 0
  }

  /** The run `SpaceRun` measures is white space. */
  lemma SpaceRunSpaces(line: string, i: nat)
    requires i <= |line|
    ensures AllSpace(line[i..i + SpaceRun(line, i)])
  {
    var run := line[i..i + SpaceRun(line, i)];
    forall k | 0 <= k < |run|
      ensures IsSpace(run[k])
    {
      assert run[k] == line[i + k];
    }
  }

  lemma {:induction false} SpaceRunUnique(line: string, i: nat, j: nat)
    requires i <= j < |line| && AllSpace(line[i..j]) && !IsSpace(line[j])
    ensures SpaceRun(line, i) == j - i
    decreases j - i
  {
    if i < j {
      assert line[i..j][0] == line[i];
      assert line[i + 1..j] == line[i..j][1..];
      SpaceRunUnique(line, i + 1, j);
    }
  }

  lemma NotLineTerminatorAt(s: string, n: int, j: int)
    ensures 0 <= j < n <= |s| && NoLineTerminator(s[..n]) ==> !IsLineTerminator(s[j])
  {
    if 0 <= j < n <= |s| && NoLineTerminator(s[..n]) {
      assert s[..n][j] == s[j];
    }
  }

  /** A match fixes the keyword, the comma and, given `i`, the parenthesis. */
  lemma DecomposesDetermined(line: string, i: int, p: int, c: int, kw: string)
    requires Decomposes(line, i, p, c, kw)
    ensures KeywordAtEnd(line) == Some(kw)
    ensures CommaBefore(line, kw) == Some(c)
    ensures p == i + SpaceRun(line, i)
  {
    KeywordDetermined(line, kw);
    CommaDetermined(line, c, kw);
    SpaceRunUnique(line, i, p);
  }

  lemma KeywordDetermined(line: string, kw: string)
    requires IsKeyword(kw) && |kw| + 1 <= |line| && line[|line| - |kw| - 1..] == kw + ")"
    ensures KeywordAtEnd(line) == Some(kw)
  {
    assert "required" + ")" == "required)" && "optional" + ")" == "optional)";
    EndsWithSlice(line, kw + ")");
    if kw == "optional" {
      assert EndsWith(line, "optional)");
      assert line[|line| - 9 + 0] == "optional)"[0] != "required)"[0];
    }
  }

  lemma CommaDetermined(line: string, c: int, kw: string)
    requires 0 <= c && c + |kw| + 2 <= |line| && line[c] == ','
    requires AllSpace(line[c + 1..|line| - |kw| - 1])
    ensures CommaBefore(line, kw) == Some(c)
  {
    var body := line[..|line| - |kw| - 1];
    assert body[..c + 1] == line[..c + 1];
    assert body[c + 1..] == line[c + 1..|line| - |kw| - 1];
    TrimEndUnique(body, line[..c + 1]);
  }

  lemma DecomposesDeterminedAll(line: string)
    ensures forall i, p, c, kw :: Decomposes(line, i, p, c, kw) ==>
              && KeywordAtEnd(line) == Some(kw)
              && CommaBefore(line, kw) == Some(c)
              && 0 <= i && p == i + SpaceRun(line, i)
  {
    forall i, p, c, kw | Decomposes(line, i, p, c, kw)
      ensures KeywordAtEnd(line) == Some(kw) && CommaBefore(line, kw) == Some(c)
      ensures 0 <= i && p == i + SpaceRun(line, i)
    {
      DecomposesDetermined(line, i, p, c, kw);
    }
  }

  /** Once the length of the first group is fixed, the rest of the match is fixed too. */
  lemma DecompositionUnique(line: string, i: int, p: int, c: int, kw: string, p': int, c': int, kw': string)
    requires Decomposes(line, i, p, c, kw) && Decomposes(line, i, p', c', kw')
    ensures p == p' && c == c' && kw == kw'
  {
    DecomposesDetermined(line, i, p, c, kw);
    DecomposesDetermined(line, i, p', c', kw');
  }

  /** No match has a first group that runs past the end of the line or across a line terminator. */
  lemma NoDecompositionPast(line: string, i: nat)
    requires i <= |line| && (i == |line| || IsLineTerminator(line[i]))
    ensures forall i', p', c', kw' :: i < i' ==> !Decomposes(line, i', p', c', kw')
  {
    forall i', p', c', kw' | i < i'
      ensures !Decomposes(line, i', p', c', kw')
    {
      NotLineTerminatorAt(line, i', i);
    }
  }

  /** The test the search makes for one length `i` of the first group decides whether a match has that length. */
  lemma SearchStep(line: string, kw: string, c: nat, i: nat)
    requires KeywordAtEnd(line) == Some(kw) && CommaBefore(line, kw) == Some(c)
    requires i <= |line| && NoLineTerminator(line[..i])
    ensures StepSucceeds(line, c, i) ==> Decomposes(line, i, i + SpaceRun(line, i), c, kw)
    ensures !StepSucceeds(line, c, i) ==> forall p', c', kw' :: !Decomposes(line, i, p', c', kw')
  {
    if StepSucceeds(line, c, i) {
      StepDecomposes(line, kw, c, i);
    } else {
      forall p', c', kw' | Decomposes(line, i, p', c', kw')
        ensures false
      {
        StepFailureExcludes(line, kw, c, i, p', c', kw');
      }
    }
  }

  lemma StepDecomposes(line: string, kw: string, c: nat, i: nat)
    requires KeywordAtEnd(line) == Some(kw) && CommaBefore(line, kw) == Some(c)
    requires i <= |line| && NoLineTerminator(line[..i]) && StepSucceeds(line, c, i)
    ensures Decomposes(line, i, i + SpaceRun(line, i), c, kw)
  {
    KeywordAtEndFacts(line, kw);
    CommaBeforeFacts(line, kw, c);
    SpaceRunSpaces(line, i);
  }

  lemma StepFailureExcludes(line: string, kw: string, c: nat, i: nat, p': int, c': int, kw': string)
    requires KeywordAtEnd(line) == Some(kw) && CommaBefore(line, kw) == Some(c)
    requires i <= |line| && Decomposes(line, i, p', c', kw')
    ensures StepSucceeds(line, c, i)
  {
    DecomposesDetermined(line, i, p', c', kw');
  }

  predicate StepSucceeds(line: string, c: nat, i: nat)
    requires i <= |line| && c <= |line|
  {
    var p := i + SpaceRun(line, i);
    p < c && line[p] == '(' && NoLineTerminator(line[p + 1..c])
  }

  /**
   * The backtracking search over the length `i` of the lazy first group,
   * for a line whose keyword and comma are already known.
   */
  function Search(line: string, kw: string, c: nat, i: nat): (r: Option<Match>)
    requires KeywordAtEnd(line) == Some(kw) && CommaBefore(line, kw) == Some(c)
    requires i <= |line| && NoLineTerminator(line[..i])
    ensures r.Some? ==> i <= r.value.i <= r.value.p < r.value.c == c && r.value.kw == kw
    decreases |line| - i
  {
    if StepSucceeds(line, c, i) then
      Some(Match(i, i + SpaceRun(line, i), c, kw))
    else if i < |line| && !IsLineTerminator(line[i]) then
      NoLineTerminatorExtend(line, i);
      Search(line, kw, c, i + 1)
    else
      None
  }

  lemma NoLineTerminatorExtend(line: string, i: nat)
    requires i < |line| && NoLineTerminator(line[..i]) && !IsLineTerminator(line[i])
    ensures NoLineTerminator(line[..i + 1])
  {
    assert line[..i + 1] == line[..i] + [line[i]];
  }

  /** A match the search reports has the shortest first group of at least `i` characters. */
  lemma {:induction false} SearchFindsLeftmost(line: string, kw: string, c: nat, i: nat)
    requires KeywordAtEnd(line) == Some(kw) && CommaBefore(line, kw) == Some(c)
    requires i <= |line| && NoLineTerminator(line[..i])
    ensures var m := Search(line, kw, c, i);
            m.Some? ==>
              && i <= m.value.i
              && Decomposes(line, m.value.i, m.value.p, m.value.c, m.value.kw)
              && forall i', p', c', kw' :: i <= i' < m.value.i ==> !Decomposes(line, i', p', c', kw')
    decreases |line| - i
  {
    SearchStep(line, kw, c, i);
    if !StepSucceeds(line, c, i) && i < |line| && !IsLineTerminator(line[i]) {
      NoLineTerminatorExtend(line, i);
      SearchFindsLeftmost(line, kw, c, i + 1);
      var m := Search(line, kw, c, i);
      assert m == Search(line, kw, c, i + 1);
      if m.Some? {
        forall i', p', c', kw' | i <= i' < m.value.i
          ensures !Decomposes(line, i', p', c', kw')
        {
          if i' == i {
            assert !Decomposes(line, i, p', c', kw');
          }
        }
      }
    }
  }

  /** When the search reports nothing, no match has a first group of at least `i` characters. */
  lemma {:induction false} SearchMissesNothing(line: string, kw: string, c: nat, i: nat)
    requires KeywordAtEnd(line) == Some(kw) && CommaBefore(line, kw) == Some(c)
    requires i <= |line| && NoLineTerminator(line[..i])
    ensures Search(line, kw, c, i).None? ==> forall i', p', c', kw' :: i <= i' ==> !Decomposes(line, i', p', c', kw')
    decreases |line| - i
  {
    SearchStep(line, kw, c, i);
    if StepSucceeds(line, c, i) {
    } else if i < |line| && !IsLineTerminator(line[i]) {
      NoLineTerminatorExtend(line, i);
      SearchMissesNothing(line, kw, c, i + 1);
    } else {
      NoDecompositionPast(line, i);
    }
  }

  /** Whether the line pattern matches, and if so the match the engine reports. */
  function MatchLine(line: string): (m: Option<Match>)
    ensures m.Some? ==> m.value.i <= m.value.p < m.value.c < |line| && line[m.value.c] == ','
  {
    match KeywordAtEnd(line)
    case None => None
    case Some(kw) =>
      match CommaBefore(line, kw)
      case None => None
      case Some(c) => Search(line, kw, c, 0)
  }

  /** `MatchLine` reports the engine's match when the pattern matches, and nothing otherwise. */
  lemma MatchLineReportsLeftmost(line: string)
    ensures var m := MatchLine(line);
            m.Some? ==> Leftmost(line, m.value.i, m.value.p, m.value.c, m.value.kw)
    ensures MatchLine(line).None? ==> forall i, p, c, kw :: !Decomposes(line, i, p, c, kw)
  {
    DecomposesDeterminedAll(line);
    var kw := KeywordAtEnd(line);
    if kw.Some? {
      var c := CommaBefore(line, kw.value);
      if c.Some? {
        SearchFindsLeftmost(line, kw.value, c.value, 0);
        SearchMissesNothing(line, kw.value, c.value, 0);
      }
    }
  }

  /** One line: the trimmed first group, the trimmed second group, and whether the keyword is `required`. */
  function ParseLine(line: string): Result<FormField>
  {
    match MatchLine(line)
    case None => Err(ErrorPrefix + line)
    case Some(m) => Ok(FieldAt(line, m.i, m.p, m.c, m.kw))
  }

  /** The field read from a match with first group `line[..i]`, parenthesis at `p`, comma at `c` and keyword `kw`. */
  function FieldAt(line: string, i: int, p: int, c: int, kw: string): FormField
    requires 0 <= i <= p < c <= |line|
  {
    FormField(Trim(line[..i]), Trim(line[p + 1..c]), kw == "required")
  }

  /**
   * A line parses exactly when the pattern matches it; the field is read
   * from the match the engine reports, and a failure carries the line.
   */
  lemma ParseLineMatchesPattern(line: string)
    ensures ParseLine(line).Ok? <==> Matches(line)
    ensures ParseLine(line).Ok? ==> ReadsAs(line, ParseLine(line).value)
    ensures ParseLine(line).Err? ==> ParseLine(line).error == ErrorPrefix + line
  {
    MatchLineReportsLeftmost(line);
    var m := MatchLine(line);
    if m.Some? {
      FieldOfMatch(line, m.value.i, m.value.p, m.value.c, m.value.kw);
      assert Leftmost(line, m.value.i, m.value.p, m.value.c, m.value.kw);
    }
  }

  /**
   * `lines.map(parse)` where `parse` throws: every line in order, or the
   * error of the first line that fails.
   */
  function MapLines(lines: seq<string>, parse: string -> Result<FormField>): (r: Result<seq<FormField>>)
    ensures r.Ok? <==> forall k :: 0 <= k < |lines| ==> parse(lines[k]).Ok?
    ensures r.Ok? ==> |r.value| == |lines|
    ensures r.Ok? ==> forall k :: 0 <= k < |lines| ==> r.value[k] == parse(lines[k]).value
    ensures r.Err? ==> exists k :: FirstFailure(lines, parse, k) && r.error == parse(lines[k]).error
  {
    if lines == [] then Ok([])
    else
      match parse(lines[0])
      case Err(e) =>
        assert FirstFailure(lines, parse, 0);
        Err(e)
      case Ok(f) =>
        match MapLines(lines[1..], parse)
        case Err(e) =>
          assert forall k :: FirstFailure(lines[1..], parse, k) ==> FirstFailure(lines, parse, k + 1);
          Err(e)
        case Ok(fs) =>
          assert forall k :: 1 <= k < |lines| ==> lines[k] == lines[1..][k - 1];
          Ok([f] + fs)
  }

  /** When every line parses, the result lists the parsed fields in line order. */
  lemma MapLinesAllOk(lines: seq<string>, parse: string -> Result<FormField>, fs: seq<FormField>)
    requires |lines| == |fs| && forall k :: 0 <= k < |lines| ==> parse(lines[k]) == Ok(fs[k])
    ensures MapLines(lines, parse) == Ok(fs)
  {
    var r := MapLines(lines, parse);
    assert r.Ok?;
    assert r.value == fs;
  }

  /** Line `k` is the first that fails. */
  ghost predicate FirstFailure(lines: seq<string>, parse: string -> Result<FormField>, k: int)
  {
    && 0 <= k < |lines|
    && parse(lines[k]).Err?
    && forall j :: 0 <= j < k ==> parse(lines[j]).Ok?
  }

  /** The lines of a description: the trimmed text split at every `\n`. */
  function Lines(text: string): (r: seq<string>)
    ensures |r| >= 1
    ensures Join("\n", r) == Trim(text)
    ensures forall k :: 0 <= k < |r| ==> '\n' !in r[k]
  {
    SplitPiecesFree(Trim(text), '\n');
    JoinOfSplit(Trim(text), '\n');
    Split(Trim(text), '\n')
  }

  /**
   * `parseFormDescription`: one field per line, in line order, each taken
   * from the match the engine reports; all or nothing, failing with the
   * message for the first line that does not match.
   */
  function ParseFormDescription(text: string): Result<seq<FormField>>
  {
    MapLines(Lines(text), ParseLine)
  }

  /**
   * `parseFormDescription` yields one field per line of the trimmed text, in
   * line order, each read from the match the engine reports; it is all or
   * nothing, failing with the message for the first line that does not match.
   */
  lemma ParseFormDescriptionSpec(text: string)
    ensures ParseFormDescription(text).Ok? <==> forall k :: 0 <= k < |Lines(text)| ==> Matches(Lines(text)[k])
    ensures ParseFormDescription(text).Ok? ==> |ParseFormDescription(text).value| == |Lines(text)|
    ensures ParseFormDescription(text).Ok? ==>
              forall k :: 0 <= k < |Lines(text)| ==> ReadsAs(Lines(text)[k], ParseFormDescription(text).value[k])
    ensures ParseFormDescription(text).Err? ==>
              exists k :: FirstFailure(Lines(text), ParseLine, k) && ParseFormDescription(text).error == ErrorPrefix + Lines(text)[k]
  {
    var lines := Lines(text);
    forall k | 0 <= k < |lines| {
      ParseLineMatchesPattern(lines[k]);
    }
  }

  // ---------------------------------------------------------------------
  // What a matching line looks like
  // ---------------------------------------------------------------------

  lemma KeywordAtEndFacts(line: string, kw: string)
    requires KeywordAtEnd(line) == Some(kw)
    ensures IsKeyword(kw) && |kw| + 1 <= |line| && line[|line| - |kw| - 1..] == kw + ")"
  {
    assert "required" + ")" == "required)" && "optional" + ")" == "optional)";
    EndsWithSlice(line, kw + ")");
  }

  lemma CommaBeforeFacts(line: string, kw: string, c: nat)
    requires KeywordAtEnd(line) == Some(kw) && CommaBefore(line, kw) == Some(c)
    ensures c + |kw| + 2 <= |line| && line[c] == ','
    ensures AllSpace(line[c + 1..|line| - |kw| - 1])
  {
    var body := line[..|line| - |kw| - 1];
    assert TrimEnd(body) == body[..c + 1];
    assert body[c + 1..] == line[c + 1..|line| - |kw| - 1];
  }

  /** A line that does not end in `required)` or `optional)` fails: a wrong-case keyword, a trailing `\r`, a missing `)`. */
  lemma ParseLineNeedsKeyword(line: string)
    requires KeywordAtEnd(line).None?
    ensures ParseLine(line) == Err(ErrorPrefix + line)
  {
    DecomposesDeterminedAll(line);
  }

  /** A line whose last non-space character before the keyword is not a comma fails. */
  lemma ParseLineNeedsComma(line: string)
    requires KeywordAtEnd(line).Some? && CommaBefore(line, KeywordAtEnd(line).value).None?
    ensures ParseLine(line) == Err(ErrorPrefix + line)
  {
    DecomposesDeterminedAll(line);
  }

  /** On a line without line terminators, a `(` before the comma gives a match with an empty `w1`. */
  lemma FirstParenMatches(line: string, kw: string, c: nat)
    requires NoLineTerminator(line)
    requires KeywordAtEnd(line) == Some(kw) && CommaBefore(line, kw) == Some(c)
    requires IndexOf(line, '(') < c
    ensures Decomposes(line, IndexOf(line, '('), IndexOf(line, '('), c, kw)
  {
    var q := IndexOf(line, '(');
    NoLineTerminatorSlice(line, 0, q);
    NoLineTerminatorSlice(line, q + 1, c);
    ParenMatches(line, kw, c, q);
  }

  /** An unbroken run up to a `(`, then one up to the comma, match with an empty `w1`. */
  lemma ParenMatches(line: string, kw: string, c: nat, q: nat)
    requires KeywordAtEnd(line) == Some(kw) && CommaBefore(line, kw) == Some(c)
    requires q < c && line[q] == '('
    requires NoLineTerminator(line[..q]) && NoLineTerminator(line[q + 1..c])
    ensures Decomposes(line, q, q, c, kw)
  {
    KeywordAtEndFacts(line, kw);
    CommaBeforeFacts(line, kw, c);
  }

  lemma NoLineTerminatorSlice(s: string, lo: nat, hi: nat)
    requires lo <= hi <= |s| && NoLineTerminator(s)
    ensures NoLineTerminator(s[lo..hi])
  {
    forall k | 0 <= k < hi - lo
      ensures !IsLineTerminator(s[lo..hi][k])
    {
      assert s[lo..hi][k] == s[lo + k];
    }
  }

  /** A match whose first group ends no later than the first `(` has its parenthesis there. */
  lemma ParenOfEarlyMatch(line: string, i: int, p: int, c: int, kw: string)
    requires Decomposes(line, i, p, c, kw) && i <= IndexOf(line, '(')
    ensures p == IndexOf(line, '(')
  {
    var q := IndexOf(line, '(');
    SliceAt(line, 0, q, p);
    SliceAt(line, i, p, q);
  }

  lemma ParenBeforeComma(line: string, c: nat)
    requires c <= |line|
    ensures '(' in line[..c] <==> IndexOf(line, '(') < c
  {
    var q := IndexOf(line, '(');
    if '(' in line[..c] {
      var j :| 0 <= j < c && line[..c][j] == '(';
      SliceAt(line, 0, c, j);
      SliceAt(line, 0, q, j);
    }
    SliceAt(line, 0, c, q);
  }

  /** Without a `(` before the comma nothing matches. */
  lemma NoParenNoMatch(line: string, kw: string, c: nat)
    requires KeywordAtEnd(line) == Some(kw) && CommaBefore(line, kw) == Some(c)
    requires c <= IndexOf(line, '(')
    ensures !Matches(line)
  {
    var q := IndexOf(line, '(');
    forall i, p, c', kw' | Decomposes(line, i, p, c', kw')
      ensures false
    {
      DecomposesDetermined(line, i, p, c', kw');
      SliceAt(line, 0, q, p);
    }
  }

  /**
   * A match whose parenthesis is the first `(` of the line decides the
   * field: the engine may report a shorter first group, but only by leaving
   * white space to `\s*`, which `trim` removes anyway.
   */
  lemma ReportedFromDecomposition(line: string, i: int, p: int, c: int, kw: string)
    requires Decomposes(line, i, p, c, kw) && p == IndexOf(line, '(')
    ensures ParseLine(line) == Ok(FormField(Trim(line[..i]), Trim(line[p + 1..c]), kw == "required"))
  {
    var j := ReportedMatch(line, i, p, c, kw);
    SpacesBetween(line, j, i, p);
    TrimAppendSpaces(line[..j], line[j..i]);
    FieldOfMatch(line, j, p, c, kw);
  }

  lemma FieldOfMatch(line: string, j: int, p: int, c: int, kw: string)
    requires MatchLine(line).Some?
    requires MatchLine(line).value.i == j && MatchLine(line).value.p == p
    requires MatchLine(line).value.c == c && MatchLine(line).value.kw == kw
    ensures 0 <= j <= p < c < |line|
    ensures ParseLine(line) == Ok(FormField(Trim(line[..j]), Trim(line[p + 1..c]), kw == "required"))
  {
    assert ParseLine(line) == Ok(FieldAt(line, j, p, c, kw));
  }


  /**
   * A match whose parenthesis is the first `(` is reported with the same
   * parenthesis, comma and keyword, and a first group that can only be
   * shorter by white space.
   */
  lemma ReportedMatch(line: string, i: int, p: int, c: int, kw: string) returns (j: int)
    requires Decomposes(line, i, p, c, kw) && p == IndexOf(line, '(')
    ensures 0 <= j <= i && AllSpace(line[j..p]) && MatchLine(line).Some?
    ensures MatchLine(line).value.i == j && MatchLine(line).value.p == p
    ensures MatchLine(line).value.c == c && MatchLine(line).value.kw == kw
  {
    MatchLineReportsLeftmost(line);
    var m := MatchLine(line).value;
    DecomposesDetermined(line, m.i, m.p, m.c, m.kw);
    DecomposesDetermined(line, i, p, c, kw);
    ParenOfEarlyMatch(line, m.i, m.p, m.c, m.kw);
    j := m.i;
  }

  lemma SpacesBetween(line: string, j: int, i: int, p: int)
    requires 0 <= j <= i <= p <= |line| && AllSpace(line[j..p])
    ensures line[..i] == line[..j] + line[j..i] && AllSpace(line[j..i])
  {
    assert line[j..i] == line[j..p][..i - j];
  }

  /** With a `(` before the comma on a line without line terminators, the reported match has its parenthesis at the first `(`. */
  lemma ParenIsReported(line: string, kw: string, c: nat)
    requires KeywordAtEnd(line) == Some(kw) && CommaBefore(line, kw) == Some(c)
    requires IndexOf(line, '(') < c && NoLineTerminator(line)
    ensures var q := IndexOf(line, '(');
            ParseLine(line) == Ok(FormField(Trim(line[..q]), Trim(line[q + 1..c]), kw == "required"))
  {
    var q := IndexOf(line, '(');
    CommaBeforeFacts(line, kw, c);
    NoLineTerminatorSlice(line, 0, q);
    NoLineTerminatorSlice(line, q + 1, c);
    ParenMatches(line, kw, c, q);
    ReportedFromDecomposition(line, q, q, c, kw);
  }

  /**
   * On a line without line terminators, once the keyword and the comma are
   * in place, the line parses exactly when a `(` comes before the comma;
   * the label is then the trimmed text before the first `(` and the type the
   * trimmed text between it and the comma.
   */
  lemma ParseLineWithoutLineTerminators(line: string, kw: string, c: nat)
    requires NoLineTerminator(line)
    requires KeywordAtEnd(line) == Some(kw) && CommaBefore(line, kw) == Some(c)
    ensures ParseLine(line).Ok? <==> '(' in line[..c]
    ensures '(' in line[..c] ==>
              var q := IndexOf(line, '(');
              ParseLine(line) == Ok(FormField(Trim(line[..q]), Trim(line[q + 1..c]), kw == "required"))
  {
    ParenBeforeComma(line, c);
    if IndexOf(line, '(') < c {
      ParenIsReported(line, kw, c);
    } else {
      NoParenNoMatch(line, kw, c);
      ParseLineMatchesPattern(line);
    }
  }

  /**
   * A line written as `pre`, white space `w`, then `(t, kw)`, where neither
   * `pre` nor `t` holds a line terminator and `pre` has no `(`, reads as the
   * trimmed `pre` and the trimmed `t`. `w` may hold line terminators.
   */
  lemma ParseLineOfShape(pre: string, w: string, t: string, kw: string)
    requires NoLineTerminator(pre) && '(' !in pre && AllSpace(w)
    requires NoLineTerminator(t) && IsKeyword(kw)
    ensures ParseLine(pre + w + LineEnd(t, kw)) == Ok(FormField(Trim(pre), Trim(t), kw == "required"))
  {
    var line := pre + w + LineEnd(t, kw);
    ThreeSlices(line, pre, w, LineEnd(t, kw));
    ParseLineFromSlices(line, pre, w, t, kw);
  }

  /** The same, with nothing between the label and the parenthesis. */
  lemma ParseLineOfTightShape(pre: string, t: string, kw: string)
    requires NoLineTerminator(pre) && '(' !in pre
    requires NoLineTerminator(t) && IsKeyword(kw)
    ensures ParseLine(pre + LineEnd(t, kw)) == Ok(FormField(Trim(pre), Trim(t), kw == "required"))
  {
    assert pre + [] == pre;
    ParseLineOfShape(pre, [], t, kw);
  }

  /** The end `(t, kw)` of a description line. */
  function LineEnd(t: string, kw: string): string
  {
    "(" + t + ", " + kw + ")"
  }

  lemma LineEndParts(t: string, kw: string)
    ensures LineEnd(t, kw) == "(" + (t + (", " + kw + ")"))
  {
  }

  /** `(t, kw)` holds no line terminator when `t` holds none. */
  lemma LineEndFree(t: string, kw: string)
    requires NoLineTerminator(t) && IsKeyword(kw)
    ensures NoLineTerminator(LineEnd(t, kw))
  {
    var e := ", " + kw + ")";
    assert NoLineTerminator(", ") && NoLineTerminator(")");
    assert NoLineTerminator(kw);
    NoLineTerminatorAppend(", ", kw);
    NoLineTerminatorAppend(", " + kw, ")");
    NoLineTerminatorAppend(t, e);
    NoLineTerminatorAppend("(", t + e);
    LineEndParts(t, kw);
  }

  /** `line` splits at `i`, `p` and `c` as the pattern does, with `pre` before `i` and `t` between `p` and `c`, and `p` is its first `(`. */
  ghost predicate ShapeFacts(line: string, pre: string, t: string, i: int, p: int, c: int, kw: string)
  {
    && Decomposes(line, i, p, c, kw) && p == IndexOf(line, '(')
    && line[..i] == pre && line[p + 1..c] == t
  }

  lemma ParseLineFromShape(line: string, pre: string, t: string, i: int, p: int, c: int, kw: string)
    requires ShapeFacts(line, pre, t, i, p, c, kw)
    ensures ParseLine(line) == Ok(FormField(Trim(pre), Trim(t), kw == "required"))
  {
    ReportedFromDecomposition(line, i, p, c, kw);
  }

  lemma ParseLineFromSlices(line: string, pre: string, w: string, t: string, kw: string)
    requires NoLineTerminator(pre) && '(' !in pre && AllSpace(w)
    requires NoLineTerminator(t) && IsKeyword(kw)
    requires |pre| + |w| <= |line|
    requires line[..|pre|] == pre && line[|pre|..|pre| + |w|] == w && line[|pre| + |w|..] == LineEnd(t, kw)
    ensures ParseLine(line) == Ok(FormField(Trim(pre), Trim(t), kw == "required"))
  {
    var i, p := |pre|, |pre| + |w|;
    ShapeFromSlices(line, pre, w, t, i, p, kw);
    ParseLineFromShape(line, pre, t, i, p, p + 1 + |t|, kw);
  }

  lemma ShapeFromSlices(line: string, pre: string, w: string, t: string, i: nat, p: nat, kw: string)
    requires NoLineTerminator(pre) && '(' !in pre && AllSpace(w)
    requires NoLineTerminator(t) && IsKeyword(kw)
    requires i == |pre| && p == i + |w| <= |line|
    requires line[..i] == pre && line[i..p] == w && line[p..] == LineEnd(t, kw)
    ensures ShapeFacts(line, pre, t, i, p, p + 1 + |t|, kw)
  {
    DecomposesFromEnd(line, i, p, t, kw);
    assert '(' !in line[..p] by {
      forall k | 0 <= k < p
        ensures line[k] != '('
      {
        if k < i {
          assert line[k] == line[..i][k];
        } else {
          assert line[k] == line[i..p][k - i];
        }
      }
    }
    IndexOfAt(line, '(', p);
  }

  lemma ThreeSlices(line: string, a: string, b: string, e: string)
    requires line == a + b + e
    ensures line[..|a|] == a && line[|a|..|a| + |b|] == b && line[|a| + |b|..] == e
  {
  }

  /** A slice of `line` inside a suffix equal to `e` is the matching slice of `e`. */
  lemma SuffixSlice(line: string, p: nat, e: string, lo: nat, hi: nat)
    requires p <= |line| && line[p..] == e && lo <= hi <= |e|
    ensures line[p + lo..p + hi] == e[lo..hi]
  {
    forall k | 0 <= k < hi - lo
      ensures line[p + lo..p + hi][k] == e[lo..hi][k]
    {
      assert line[p..][lo + k] == line[p + lo + k];
    }
  }

  lemma LineEndFacts(t: string, kw: string)
    requires IsKeyword(kw)
    ensures var e := LineEnd(t, kw);
            && |e| == |t| + |kw| + 4 && e[0] == '(' && e[1..1 + |t|] == t && e[1 + |t|] == ','
            && e[2 + |t|..|e| - |kw| - 1] == " " && e[|e| - |kw| - 1..] == kw + ")"
  {
    var e := LineEnd(t, kw);
    assert e == ("(" + t) + (", " + kw + ")");
  }

  lemma DecomposesFromEnd(line: string, i: nat, p: nat, t: string, kw: string)
    requires IsKeyword(kw) && i <= p <= |line| && line[p..] == LineEnd(t, kw)
    requires NoLineTerminator(line[..i]) && AllSpace(line[i..p]) && NoLineTerminator(t)
    ensures Decomposes(line, i, p, p + 1 + |t|, kw) && line[p + 1..p + 1 + |t|] == t
  {
    var e := LineEnd(t, kw);
    LineEndFacts(t, kw);
    var c := p + 1 + |t|;
    assert line[p] == e[0];
    SuffixSlice(line, p, e, 1, 1 + |t|);
    assert line[c] == e[1 + |t|];
    SuffixSlice(line, p, e, 2 + |t|, |e| - |kw| - 1);
    SuffixSlice(line, p, e, |e| - |kw| - 1, |e|);
  }

  /** The first occurrence of `ch` is at `k` when `s[k]` is `ch` and no earlier character is. */
  lemma IndexOfAt(s: string, ch: char, k: nat)
    requires k < |s| && s[k] == ch && ch !in s[..k]
    ensures IndexOf(s, ch) == k
  {
  }

  /** The reported match is unique. */
  lemma LeftmostUnique(line: string, i: int, p: int, c: int, kw: string, i': int, p': int, c': int, kw': string)
    requires Leftmost(line, i, p, c, kw) && Leftmost(line, i', p', c', kw')
    ensures i == i' && p == p' && c == c' && kw == kw'
  {
    if i != i' {
      assert false;
    }
    DecompositionUnique(line, i, p, c, kw, p', c', kw');
  }

  /** Text that is empty or all white space becomes the single line `""`, which fails. */
  lemma ParseBlankText(text: string)
    requires AllSpace(text)
    ensures ParseFormDescription(text) == Err(ErrorPrefix)
  {
    assert text[0..] == text;
    TrimEndUnique(text, []);
    assert Lines(text) == [""];
    ParseLineNeedsKeyword("");
    assert ErrorPrefix + "" == ErrorPrefix;
  }

  // ---------------------------------------------------------------------
  // Particular lines
  // ---------------------------------------------------------------------

  /** An empty label is accepted: nothing but white space before `(`. */
  lemma EmptyLabelAccepted(w: string, t: string, kw: string)
    requires AllSpace(w) && NoLineTerminator(t) && IsKeyword(kw)
    ensures ParseLine(w + LineEnd(t, kw)) == Ok(FormField("", Trim(t), kw == "required"))
  {
    assert [] + w == w;
    ParseLineOfShape([], w, t, kw);
  }

  /** A wrong-case keyword fails, whatever precedes it. */
  lemma WrongCaseKeywordRejected(pre: string)
    ensures ParseLine(pre + "Required)") == Err(ErrorPrefix + (pre + "Required)"))
    ensures ParseLine(pre + "Optional)") == Err(ErrorPrefix + (pre + "Optional)"))
  {
    WrongCaseRejected(pre + "Required)");
    WrongCaseRejected(pre + "Optional)");
  }

  lemma WrongCaseRejected(line: string)
    requires |line| >= 9 && (line[|line| - 9] == 'R' || line[|line| - 9] == 'O')
    ensures ParseLine(line) == Err(ErrorPrefix + line)
  {
    assert !EndsWith(line, "required)") by { assert line[|line| - 9 + 0] != "required)"[0]; }
    assert !EndsWith(line, "optional)") by { assert line[|line| - 9 + 0] != "optional)"[0]; }
    ParseLineNeedsKeyword(line);
  }

  /** A line that still ends in `\r` (text written with CRLF line ends) fails, whatever precedes it. */
  lemma TrailingCarriageReturnRejected(pre: string)
    ensures ParseLine(pre + "\r") == Err(ErrorPrefix + (pre + "\r"))
  {
    var line := pre + "\r";
    assert line[|line| - 1] == '\r';
    if |line| >= 9 {
      assert !EndsWith(line, "required)") by { assert line[|line| - 9 + 8] != "required)"[8]; }
      assert !EndsWith(line, "optional)") by { assert line[|line| - 9 + 8] != "optional)"[8]; }
    }
    ParseLineNeedsKeyword(line);
  }

  /**
   * A `\r` between the label and the parenthesis is consumed by `\s*`, so
   * the line matches although `.` does not match `\r`.
   */
  lemma CarriageReturnBeforeParenAccepted(pre: string, t: string, kw: string)
    requires NoLineTerminator(pre) && '(' !in pre
    requires NoLineTerminator(t) && IsKeyword(kw)
    ensures !NoLineTerminator(pre + "\r" + LineEnd(t, kw))
    ensures ParseLine(pre + "\r" + LineEnd(t, kw)) == Ok(FormField(Trim(pre), Trim(t), kw == "required"))
  {
    assert (pre + "\r" + LineEnd(t, kw))[|pre|] == '\r';
    ParseLineOfShape(pre, "\r", t, kw);
  }
}
