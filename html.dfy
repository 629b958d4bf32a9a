/**
 * `generateHTMLForm`: a `<form>` with one labelled `<input>` per field, in
 * field order, followed by a submit button.
 */
module Html {
  import opened Text
  import opened Fields

  const FormOpen: string := "<form>"
  const SubmitButton: string := "  <button type=\"submit\">" + "Submit</button>"
  const FormClose: string := "</form>"

  /** The line of markup for one field, without its line end. */
  function FieldLine(f: FormField): string
  {
    "  <label>" + f.labelText + ": <input type=\"" + f.kind + "\"" + RequiredAttr(f.required) + " /></label>"
  }

  function FieldLines(fs: seq<FormField>): seq<string>
  {
    seq(|fs|, k requires 0 <= k < |fs| => FieldLine(fs[k]) + "\n")
  }

  /** `generateHTMLForm`: the field lines, each ended by `\n`, joined with nothing. */
  function GenerateHtmlForm(fs: seq<FormField>): string
  {
    FormOpen + "\n" + Join("", FieldLines(fs)) + SubmitButton + "\n" + FormClose
  }

  /** The end of a field's line says whether the field is required, whatever its label and type hold. */
  lemma FieldLineMarksRequired(f: FormField)
    ensures var line := FieldLine(f);
            |line| >= 20 && (line[|line| - 20..] == " required /></label>" <==> f.required)
  {
    var head := "  <label>" + f.labelText + ": <input type=\"" + f.kind + "\"";
    var line := FieldLine(f);
    if f.required {
      assert line == head + " required /></label>";
    } else {
      assert line == head + " /></label>";
      assert line[|line| - 20..][8] == head[|head| - 1] == '"';
      assert " required /></label>"[8] == 'd';
    }
  }

  /** With no fields the form holds only the submit button. */
  lemma EmptyForm()
    ensures GenerateHtmlForm([]) == FormOpen + "\n" + SubmitButton + "\n" + FormClose
  {
    assert FieldLines([]) == [];
    assert FormOpen + "\n" + [] == FormOpen + "\n";
  }

  /**
   * The fields' markup in the form is the markup of the first `k` fields,
   * then field `k`'s, then the rest's: every field appears, in field order.
   */
  lemma FieldInPlace(fs: seq<FormField>, k: nat)
    requires k < |fs|
    ensures GenerateHtmlForm(fs) ==
            FormOpen + "\n" + (Join("", FieldLines(fs[..k])) + (FieldLine(fs[k]) + "\n") + Join("", FieldLines(fs[k + 1..])))
            + SubmitButton + "\n" + FormClose
  {
    var lines := FieldLines(fs);
    assert FieldLines(fs[..k]) == lines[..k];
    assert FieldLines(fs[k + 1..]) == lines[k + 1..];
    JoinWithoutSeparatorAt(lines, k);
  }

  /**
   * When no label or type holds a `\n`, the lines of the form are `<form>`,
   * one line per field in field order, the submit button and `</form>`.
   */
  lemma FormLines(fs: seq<FormField>)
    requires forall k :: 0 <= k < |fs| ==> '\n' !in fs[k].labelText && '\n' !in fs[k].kind
    ensures Split(GenerateHtmlForm(fs), '\n') ==
            [FormOpen] + seq(|fs|, k requires 0 <= k < |fs| => FieldLine(fs[k])) + [SubmitButton, FormClose]
  {
    var shown := seq(|fs|, k requires 0 <= k < |fs| => FieldLine(fs[k]));
    forall k | 0 <= k < |fs|
      ensures '\n' !in shown[k]
    {
      NoNewlineInFieldLine(fs[k]);
    }
    assert FieldLines(fs) == Terminated(shown, '\n');
    JoinWithoutSeparator(FieldLines(fs));
    assert "\n" == ['\n'];
    SplitFramed(FormOpen, shown, SubmitButton, FormClose, '\n');
  }

  lemma NoNewlineInFieldLine(f: FormField)
    requires '\n' !in f.labelText && '\n' !in f.kind
    ensures '\n' !in FieldLine(f)
  {
  }
}
