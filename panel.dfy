/**
 * The side panel's serialiser: every field row becomes the description line
 * `label (type, required|optional)` and the lines are joined with `\n`; with
 * no rows the panel reports an error instead. The round trip through
 * `parseFormDescription` is proved here.
 */
module Panel {
  import opened Text
  import opened Fields
  import opened Parser

  /** The error the panel reports when there are no rows. */
  const NoFieldsMessage: string := "Please add at least one field to generate the form."

  /** The value of a row's required/optional selector. */
  function Keyword(required: bool): string
  {
    if required then "required" else "optional"
  }

  /** One row as a description line. */
  function DescribeField(f: FormField): string
  {
    f.labelText + " (" + f.kind + ", " + Keyword(f.required) + ")"
  }

  function DescribeAll(fs: seq<FormField>): seq<string>
  {
    seq(|fs|, k requires 0 <= k < |fs| => DescribeField(fs[k]))
  }

  /** What the generate button sends: the rows' lines joined with `\n`, or the error for no rows. */
  function Describe(fs: seq<FormField>): Result<string>
  {
    if |fs| == 0 then Err(NoFieldsMessage) else Ok(Join("\n", DescribeAll(fs)))
  }

  /** A row whose line reads back as the row: no line terminators, and no `(` in the label. */
  predicate Describable(f: FormField)
  {
    NoLineTerminator(f.labelText) && '(' !in f.labelText && NoLineTerminator(f.kind)
  }

  /** The row as the parser returns it: label and type trimmed. */
  function Trimmed(f: FormField): FormField
  {
    FormField(Trim(f.labelText), Trim(f.kind), f.required)
  }

  lemma KeywordFacts(required: bool)
    ensures IsKeyword(Keyword(required)) && (Keyword(required) == "required" <==> required)
  {
    assert "optional" != "required" by { assert "optional"[0] != "required"[0]; }
  }

  /** A row's line parses back to the row, trimmed. */
  lemma ParseDescribedField(f: FormField)
    requires Describable(f)
    ensures ParseLine(DescribeField(f)) == Ok(Trimmed(f))
  {
    var kw := Keyword(f.required);
    KeywordFacts(f.required);
    LineParts(f);
    SingleSpace();
    ParseLineOfShape(f.labelText, " ", f.kind, kw);
  }

  /** A row's line is its label, a space and its tail. */
  lemma LineParts(f: FormField)
    ensures DescribeField(f) == f.labelText + " " + LineEnd(f.kind, Keyword(f.required))
    ensures LineEnd(f.kind, Keyword(f.required)) != [] && !IsSpace(LineEnd(f.kind, Keyword(f.required))[0])
  {
  }

  /**
   * The first line of a description loses its leading white space to the
   * `trim` of the whole text, and still parses back to the row.
   */
  lemma ParseFirstDescribedField(f: FormField)
    requires Describable(f)
    ensures TrimStart(DescribeField(f)) == TrimStart(f.labelText + " ") + LineEnd(f.kind, Keyword(f.required))
    ensures ParseLine(TrimStart(DescribeField(f))) == Ok(Trimmed(f))
  {
    var u := f.labelText + " ";
    LineParts(f);
    TrimStartBeforeNonSpace(u, LineEnd(f.kind, Keyword(f.required)));
    ParseTrimmedFirstLine(f, TrimStart(u));
  }

  lemma ParseTrimmedFirstLine(f: FormField, pre: string)
    requires Describable(f) && pre == TrimStart(f.labelText + " ")
    ensures ParseLine(pre + LineEnd(f.kind, Keyword(f.required))) == Ok(Trimmed(f))
  {
    FirstLineParts(f, pre);
    ParseLineOfTightShape(pre, f.kind, Keyword(f.required));
  }

  lemma FirstLineParts(f: FormField, pre: string)
    requires Describable(f) && pre == TrimStart(f.labelText + " ")
    ensures NoLineTerminator(pre) && '(' !in pre && IsKeyword(Keyword(f.required))
    ensures Trimmed(f) == FormField(Trim(pre), Trim(f.kind), Keyword(f.required) == "required")
  {
    KeywordFacts(f.required);
    PreFree(f.labelText, pre);
    FirstLabel(f, pre);
    TrimmedFirst(f, Trim(pre));
  }

  lemma PreFree(name: string, pre: string)
    requires NoLineTerminator(name) && '(' !in name && pre == TrimStart(name + " ")
    ensures NoLineTerminator(pre) && '(' !in pre
  {
    var u := name + " ";
    LabelSpaceFree(name);
    SuffixFree(u, |u| - |pre|);
  }

  lemma LabelSpaceFree(name: string)
    requires NoLineTerminator(name) && '(' !in name
    ensures NoLineTerminator(name + " ") && '(' !in name + " "
  {
    assert forall k :: 0 <= k < |name| ==> (name + " ")[k] == name[k];
    assert (name + " ")[|name|] == ' ';
  }

  lemma TrimmedFirst(f: FormField, name: string)
    requires name == Trim(f.labelText)
    ensures Trimmed(f) == FormField(name, Trim(f.kind), Keyword(f.required) == "required")
  {
    KeywordFacts(f.required);
  }

  lemma FirstLabel(f: FormField, pre: string)
    requires pre == TrimStart(f.labelText + " ")
    ensures Trim(pre) == Trim(f.labelText)
  {
    TrimOfTrimStart(f.labelText + " ");
    SingleSpace();
    TrimAppendSpaces(f.labelText, " ");
  }

  lemma SuffixFree(u: string, n: nat)
    requires n <= |u| && NoLineTerminator(u) && '(' !in u
    ensures NoLineTerminator(u[n..]) && '(' !in u[n..]
  {
    assert forall k :: 0 <= k < |u| - n ==> u[n..][k] == u[n + k];
  }

  /** No line of a description holds a `\n`, the first one after `trimStart` included. */
  lemma NoNewlineInLine(f: FormField)
    requires Describable(f)
    ensures '\n' !in DescribeField(f) && '\n' !in TrimStart(DescribeField(f))
  {
    var kw := Keyword(f.required);
    KeywordFacts(f.required);
    LineParts(f);
    LineEndFree(f.kind, kw);
    SingleSpace();
    NoLineTerminatorAppend(f.labelText, " ");
    NoLineTerminatorAppend(f.labelText + " ", LineEnd(f.kind, kw));
    var line := DescribeField(f);
    NoNewlineInSuffix(line, |line| - |TrimStart(line)|);
  }

  /** A row's line ends with `)`. */
  lemma LineEndsWithParen(f: FormField)
    ensures DescribeField(f) != [] && DescribeField(f)[|DescribeField(f)| - 1] == ')'
  {
  }

  /** The rows, trimmed. */
  function TrimmedAll(fs: seq<FormField>): seq<FormField>
  {
    seq(|fs|, k requires 0 <= k < |fs| => Trimmed(fs[k]))
  }

  /**
   * The lines the parser sees in a description: the rows' lines, the first
   * without its leading white space.
   */
  lemma DescriptionLines(fs: seq<FormField>)
    requires |fs| > 0 && forall k :: 0 <= k < |fs| ==> Describable(fs[k])
    ensures Lines(Join("\n", DescribeAll(fs))) == [TrimStart(DescribeField(fs[0]))] + DescribeAll(fs)[1..]
  {
    var lines := [TrimStart(DescribeField(fs[0]))] + DescribeAll(fs)[1..];
    DescriptionTrim(fs);
    LinesFree(fs);
    assert "\n" == ['\n'];
    SplitJoin(lines, '\n');
  }

  lemma LinesFree(fs: seq<FormField>)
    requires |fs| > 0 && forall k :: 0 <= k < |fs| ==> Describable(fs[k])
    ensures var lines := [TrimStart(DescribeField(fs[0]))] + DescribeAll(fs)[1..];
            forall k :: 0 <= k < |lines| ==> '\n' !in lines[k]
  {
    var lines := [TrimStart(DescribeField(fs[0]))] + DescribeAll(fs)[1..];
    forall k | 0 <= k < |lines|
      ensures '\n' !in lines[k]
    {
      NoNewlineInLine(fs[k]);
    }
  }

  /** The `trim` of a description removes only the white space before the first label. */
  lemma DescriptionTrim(fs: seq<FormField>)
    requires |fs| > 0 && forall k :: 0 <= k < |fs| ==> Describable(fs[k])
    ensures Trim(Join("\n", DescribeAll(fs))) == Join("\n", [TrimStart(DescribeField(fs[0]))] + DescribeAll(fs)[1..])
  {
    DescriptionTrimEnd(fs);
    ParseFirstDescribedField(fs[0]);
    TrimStartOfJoin("\n", DescribeAll(fs));
  }

  lemma DescriptionTrimEnd(fs: seq<FormField>)
    requires |fs| > 0
    ensures TrimEnd(Join("\n", DescribeAll(fs))) == Join("\n", DescribeAll(fs))
  {
    var parts := DescribeAll(fs);
    var text := Join("\n", parts);
    JoinAt("\n", parts, |parts| - 1);
    LineEndsWithParen(fs[|fs| - 1]);
    assert text[|text| - 1] == ')';
    TrimEndUnique(text, text);
  }

  /**
   * Round trip: for rows without line terminators and without `(` in their
   * labels, the panel sends a description exactly when there is a row, and
   * that description parses back to the rows, in order, trimmed.
   */
  lemma ParseDescription(fs: seq<FormField>)
    requires forall k :: 0 <= k < |fs| ==> Describable(fs[k])
    ensures Describe(fs).Ok? <==> |fs| > 0
    ensures Describe(fs).Ok? ==> ParseFormDescription(Describe(fs).value) == Ok(TrimmedAll(fs))
  {
    if |fs| > 0 {
      var lines := [TrimStart(DescribeField(fs[0]))] + DescribeAll(fs)[1..];
      DescriptionLines(fs);
      DescriptionLinesParse(fs);
      MapLinesAllOk(lines, ParseLine, TrimmedAll(fs));
    }
  }

  lemma DescriptionLinesParse(fs: seq<FormField>)
    requires |fs| > 0 && forall k :: 0 <= k < |fs| ==> Describable(fs[k])
    ensures var lines := [TrimStart(DescribeField(fs[0]))] + DescribeAll(fs)[1..];
            |lines| == |TrimmedAll(fs)| &&
            forall k :: 0 <= k < |lines| ==> ParseLine(lines[k]) == Ok(TrimmedAll(fs)[k])
  {
    forall k | 0 <= k < |fs|
      ensures ParseLine(([TrimStart(DescribeField(fs[0]))] + DescribeAll(fs)[1..])[k]) == Ok(TrimmedAll(fs)[k])
    {
      DescriptionLineParses(fs, k);
    }
  }

  lemma DescriptionLineParses(fs: seq<FormField>, k: nat)
    requires k < |fs| && Describable(fs[k])
    ensures ParseLine(([TrimStart(DescribeField(fs[0]))] + DescribeAll(fs)[1..])[k]) == Ok(TrimmedAll(fs)[k])
  {
    var lines := [TrimStart(DescribeField(fs[0]))] + DescribeAll(fs)[1..];
    if k == 0 {
      assert lines[0] == TrimStart(DescribeField(fs[0]));
      ParseFirstDescribedField(fs[0]);
    } else {
      assert lines[k] == DescribeField(fs[k]);
      ParseDescribedField(fs[k]);
    }
  }

  /** Rows whose label and type are already trimmed come back unchanged. */
  lemma ParseDescriptionExact(fs: seq<FormField>)
    requires |fs| > 0
    requires forall k :: 0 <= k < |fs| ==> Describable(fs[k])
    requires forall k :: 0 <= k < |fs| ==> IsTrimmed(fs[k].labelText) && IsTrimmed(fs[k].kind)
    ensures ParseFormDescription(Describe(fs).value) == Ok(fs)
  {
    ParseDescription(fs);
    TrimmedAllUnchanged(fs);
  }

  lemma TrimmedAllUnchanged(fs: seq<FormField>)
    requires forall k :: 0 <= k < |fs| ==> IsTrimmed(fs[k].labelText) && IsTrimmed(fs[k].kind)
    ensures TrimmedAll(fs) == fs
  {
    forall k | 0 <= k < |fs|
      ensures TrimmedAll(fs)[k] == fs[k]
    {
      TrimmedUnchanged(fs[k]);
    }
  }

  lemma TrimmedUnchanged(f: FormField)
    requires IsTrimmed(f.labelText) && IsTrimmed(f.kind)
    ensures Trimmed(f) == f
  {
    TrimOfTrimmed(f.labelText);
    TrimOfTrimmed(f.kind);
  }

  lemma Regroup(a: string, o: string, b: string, s: string, k: string, e: string)
    ensures (a + o + b) + s + (o + (k + e)) == a + (o + ((b + (s + o) + k) + e))
  {
  }

  /** A label holding `(` is cut at its first `(`; the rest of it joins the type. */
  lemma LabelWithParenIsCut(a: string, b: string, kind: string, required: bool)
    requires NoLineTerminator(a) && '(' !in a && NoLineTerminator(b) && NoLineTerminator(kind)
    ensures ParseLine(DescribeField(FormField(a + "(" + b, kind, required)))
            == Ok(FormField(Trim(a), Trim(b + " (" + kind), required))
  {
    var kw := Keyword(required);
    var f := FormField(a + "(" + b, kind, required);
    KeywordFacts(required);
    LineParts(f);
    LineEndParts(kind, kw);
    LineEndParts(b + " (" + kind, kw);
    assert " (" == " " + "(";
    Regroup(a, "(", b, " ", kind, ", " + kw + ")");
    ParseLineOfTightShape(a, b + " (" + kind, kw);
  }
}
