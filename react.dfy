/**
 * `generateReactForm`: the source text of a React component with one key
 * per field in its state, its error record and both interfaces, the
 * validation rules chosen for each field, one control per field and a
 * heading taken from the first label.
 *
 * The component is modelled as its lines, joined with `\n`; a line that
 * interpolates a multi-line piece (the interface bodies, the validation
 * block, the field controls) holds that piece as one entry.
 */
module React {
  import opened Text
  import opened Fields

  // ---------------------------------------------------------------------
  // keys: state, errors and the two interfaces
  // ---------------------------------------------------------------------

  /** A field's identifier in the component: its label in lower case. */
  function Key(f: FormField): (k: string)
    ensures |k| == |f.labelText|
    ensures forall j :: 0 <= j < |k| ==> !IsUpper(k[j])
    ensures forall j :: 0 <= j < |k| ==> UpperChar(k[j]) == UpperChar(f.labelText[j])
    ensures Lower(k) == k
  {
    LowerProperties(f.labelText);
    Lower(f.labelText)
  }

  /** The initial value `""` of a field in the state and in the error record. */
  function Entry(f: FormField): string
  {
    Key(f) + ": \"\""
  }

  /** The members of the state object and of the error object alike. */
  function Entries(fs: seq<FormField>): string
  {
    Join(", ", seq(|fs|, k requires 0 <= k < |fs| => Entry(fs[k])))
  }

  /** The member of either interface that declares a field. */
  function Declaration(f: FormField): string
  {
    Key(f) + ": string;"
  }

  function InterfaceBody(fs: seq<FormField>): string
  {
    Join("\n  ", seq(|fs|, k requires 0 <= k < |fs| => Declaration(fs[k])))
  }

  lemma KeyKeepsChar(f: FormField, c: char)
    requires !IsUpper(c) && !IsLower(c) && c !in f.labelText
    ensures c !in Key(f)
  {
  }

  /**
   * Behind the opening `{ `, the state and error objects list, between
   * commas, one entry `key: ""` per field in field order, when no label
   * holds a comma; with no fields they are empty.
   */
  lemma EntriesPerField(fs: seq<FormField>)
    requires forall k :: 0 <= k < |fs| ==> ',' !in fs[k].labelText
    ensures fs == [] ==> Entries(fs) == []
    ensures fs != [] ==> Split(" " + Entries(fs), ',') == seq(|fs|, k requires 0 <= k < |fs| => " " + Key(fs[k]) + ": \"\"")
  {
    if fs != [] {
      var parts := seq(|fs|, k requires 0 <= k < |fs| => Entry(fs[k]));
      forall k | 0 <= k < |fs|
        ensures ',' !in parts[k]
      {
        KeyKeepsChar(fs[k], ',');
      }
      assert ", " == [','] + " ";
      SplitPaddedJoin(',', " ", parts);
      forall k | 0 <= k < |fs|
        ensures " " + parts[k] == " " + Key(fs[k]) + ": \"\""
      {
        assert parts[k] == Key(fs[k]) + ": \"\"";
      }
    }
  }

  /**
   * Behind its two-space indent, each interface body is one line
   * `  key: string;` per field, in field order, when no label holds a line
   * end.
   */
  lemma InterfacePerField(fs: seq<FormField>)
    requires forall k :: 0 <= k < |fs| ==> '\n' !in fs[k].labelText
    ensures fs == [] ==> InterfaceBody(fs) == []
    ensures fs != [] ==> Split("  " + InterfaceBody(fs), '\n') == seq(|fs|, k requires 0 <= k < |fs| => "  " + Key(fs[k]) + ": string;")
  {
    if fs != [] {
      var parts := seq(|fs|, k requires 0 <= k < |fs| => Declaration(fs[k]));
      forall k | 0 <= k < |fs|
        ensures '\n' !in parts[k]
      {
        KeyKeepsChar(fs[k], '\n');
      }
      assert "\n  " == ['\n'] + "  ";
      SplitPaddedJoin('\n', "  ", parts);
      forall k | 0 <= k < |fs|
        ensures "  " + parts[k] == "  " + Key(fs[k]) + ": string;"
      {
        assert parts[k] == Key(fs[k]) + ": string;";
      }
    }
  }

  // ---------------------------------------------------------------------
  // validation rules
  // ---------------------------------------------------------------------

  /** The checks `validateForm` may run on a field. */
  datatype Rule = Presence | EmailFormat | UrlFormat | TelFormat | PasswordLength

  /** The kinds that receive a format check. */
  const FormatKinds: set<string> := {"email", "url", "tel", "password"}

  /** The rule the `switch` on the field's kind adds, if any. */
  function FormatRule(kind: string): (r: Option<Rule>)
    ensures r.Some? <==> kind in FormatKinds
    ensures r.Some? ==> r.value != Presence
  {
    if kind == "email" then Some(EmailFormat)
    else if kind == "url" then Some(UrlFormat)
    else if kind == "tel" then Some(TelFormat)
    else if kind == "password" then Some(PasswordLength)
    else None
  }

  /**
   * The rules of one field: the presence check exactly when the field is
   * required, and first; then one format check for each of the four format
   * kinds and none for any other kind.
   */
  function RulesFor(f: FormField): (rs: seq<Rule>)
    ensures Presence in rs <==> f.required
    ensures f.required ==> rs[0] == Presence
    ensures |rs| == (if f.required then 1 else 0) + (if f.kind in FormatKinds then 1 else 0)
    ensures forall k :: 0 <= k < |rs| && rs[k] != Presence ==> k == |rs| - 1 && FormatRule(f.kind) == Some(rs[k])
    ensures f.kind in FormatKinds ==> rs[|rs| - 1] == FormatRule(f.kind).value
    ensures f.kind == "password" ==> rs[|rs| - 1] == PasswordLength
  {
    (if f.required then [Presence] else [])
    + (match FormatRule(f.kind) case Some(r) => [r] case None => [])
  }

  /** A format check: skipped for an empty value, otherwise `test` must hold. */
  function FormatCheck(name: string, test: string, message: string): string
  {
    "if (formData." + name + " && " + test + ") {\n            errors." + name + " = \"" + message + "\";\n          }"
  }

  /** The statement a rule contributes, for the field with key `name` and label `shown`. */
  function RuleText(r: Rule, name: string, shown: string): (t: string)
    ensures t != []
  {
    match r
    case Presence =>
      "if (!formData." + name + ") errors." + name + " = \"" + shown + " is required\";"
    case EmailFormat =>
      FormatCheck(name, "!/^[A-Z0-9._%+-]+@[A-Z0-9.-]+.[A-Z]{2,}$/i.test(formData." + name + ")", "Invalid email address")
    case UrlFormat =>
      FormatCheck(name, "!/^https?:\\/\\/[\\w\\-]+(\\.[\\w\\-]+)+[/#?]?.*$/.test(formData." + name + ")", "Invalid URL format")
    case TelFormat =>
      FormatCheck(name, "!/^[+]?[(]?[0-9]{3}[)]?[-\\s.]?[0-9]{3}[-\\s.]?[0-9]{4,6}$/.test(formData." + name + ")", "Invalid phone number format")
    case PasswordLength =>
      FormatCheck(name, "formData." + name + ".length < 8", "Password must be at least 8 characters")
  }

  /** The separator between rules, inside a field and between fields. */
  const RuleSeparator: string := "\n      "

  function RuleTexts(f: FormField): seq<string>
  {
    var rs := RulesFor(f);
    seq(|rs|, k requires 0 <= k < |rs| => RuleText(rs[k], Key(f), f.labelText))
  }

  /** One field's rules, joined. */
  function FieldRules(f: FormField): string
  {
    Join(RuleSeparator, RuleTexts(f))
  }

  /** The fields' rules, the fields without any dropped, joined. */
  function ValidationBlock(fs: seq<FormField>): string
  {
    Join(RuleSeparator, NonEmpty(seq(|fs|, k requires 0 <= k < |fs| => FieldRules(fs[k]))))
  }

  /** A field contributes no rule text exactly when it is optional and its kind has no format check. */
  lemma FieldRulesEmpty(f: FormField)
    ensures FieldRules(f) == [] <==> !f.required && f.kind !in FormatKinds
  {
    JoinEmptyIff(RuleSeparator, RuleTexts(f));
  }

  /**
   * Dropping the fields without rules leaves no trace: the block is all
   * rules of all fields, in field order and, within a field, presence
   * first, each pair separated alike.
   */
  lemma ValidationBlockRules(fs: seq<FormField>)
    ensures ValidationBlock(fs) == Join(RuleSeparator, Flatten(seq(|fs|, k requires 0 <= k < |fs| => RuleTexts(fs[k]))))
  {
    var groups := seq(|fs|, k requires 0 <= k < |fs| => RuleTexts(fs[k]));
    assert seq(|fs|, k requires 0 <= k < |fs| => FieldRules(fs[k])) == JoinEach(RuleSeparator, groups);
    JoinOfJoins(RuleSeparator, groups);
  }

  /** The block is empty exactly when no field has a rule. */
  lemma ValidationBlockEmpty(fs: seq<FormField>)
    ensures ValidationBlock(fs) == [] <==> forall k :: 0 <= k < |fs| ==> !fs[k].required && fs[k].kind !in FormatKinds
  {
    var groups := seq(|fs|, k requires 0 <= k < |fs| => RuleTexts(fs[k]));
    ValidationBlockRules(fs);
    forall k | 0 <= k < |fs|
      ensures groups[k] == [] <==> !fs[k].required && fs[k].kind !in FormatKinds
    {
      assert |groups[k]| == |RulesFor(fs[k])|;
    }
    FlattenNonEmpty(groups);
    JoinEmptyIff(RuleSeparator, Flatten(groups));
    FlattenEmpty(groups);
  }

  // ---------------------------------------------------------------------
  // the control of each field
  // ---------------------------------------------------------------------

  /** The label shown: its first character upper-cased, and ` *` behind it when the field is required. */
  function DisplayLabel(f: FormField): (d: string)
    ensures |d| == |f.labelText| + (if f.required then 2 else 0)
    ensures f.labelText != [] ==> d[0] == UpperChar(f.labelText[0]) && d[1..|f.labelText|] == f.labelText[1..]
    ensures d[|f.labelText|..] == (if f.required then " *" else "")
  {
    Capitalize(f.labelText) + (if f.required then " *" else "")
  }

  /** The label above a text area or an input, shared by both. */
  function LabelLines(name: string, display: string): seq<string>
  {
    [
      "        <div className=\"mb-4\">",
      "          <label htmlFor=\"" + name + "\" className=\"block text-sm font-medium text-gray-600 mb-1\">",
      "            " + display,
      "          </label>"
    ]
  }

  /** The error message under every control, and the end of the field's block. */
  function ErrorLines(name: string): seq<string>
  {
    [
      "          {errors." + name + " && (",
      "            <p className=\"mt-1 text-sm text-red-500\">{errors." + name + "}</p>",
      "          )}",
      "        </div>"
    ]
  }

  /** The border of a text area or input, red while the field has an error. */
  function BorderLines(name: string): seq<string>
  {
    [
      "            className={`w-full px-3 py-2 border ${",
      "              errors." + name + " ? 'border-red-400' : 'border-gray-200'",
      "            } rounded-lg focus:outline-none focus:border-blue-400 transition-colors`}"
    ]
  }

  function TextareaLines(name: string, display: string, attr: string): (lines: seq<string>)
    ensures |lines| == 18
    ensures lines[2] == "            " + display
    ensures lines[4] == "          <textarea" && lines[12] == "            rows={4}"
    ensures lines[6] == "            name=\"" + name + "\""
    ensures lines[8] == "            onChange={handleChange}" + attr
  {
    LabelLines(name, display)
    + [
      "          <textarea",
      "            id=\"" + name + "\"",
      "            name=\"" + name + "\"",
      "            value={formData." + name + "}",
      "            onChange={handleChange}" + attr
    ]
    + BorderLines(name)
    + ["            rows={4}", "          />"]
    + ErrorLines(name)
  }

  function CheckboxLines(name: string, display: string, attr: string): (lines: seq<string>)
    ensures |lines| == 17
    ensures lines[2] == "            <input" && lines[3] == "              type=\"checkbox\""
    ensures lines[4] == "              name=\"" + name + "\""
    ensures lines[5] == "              checked={formData." + name + " === \"true\"}"
    ensures lines[6] == "              onChange={handleChange}" + attr
    ensures lines[11] == "            <span className=\"ml-2 text-sm text-gray-600\">" + display + "</span>"
  {
    [
      "        <div className=\"mb-4\">",
      "          <label className=\"inline-flex items-center\">",
      "            <input",
      "              type=\"checkbox\"",
      "              name=\"" + name + "\"",
      "              checked={formData." + name + " === \"true\"}",
      "              onChange={handleChange}" + attr,
      "              className={`rounded ${",
      "                errors." + name + " ? 'border-red-400' : 'border-gray-200'",
      "              } text-blue-500 focus:ring-2 focus:ring-blue-400 focus:ring-opacity-50 transition-colors`}",
      "            />",
      "            <span className=\"ml-2 text-sm text-gray-600\">" + display + "</span>",
      "          </label>"
    ]
    + ErrorLines(name)
  }

  function InputLines(kind: string, name: string, display: string, attr: string): (lines: seq<string>)
    ensures |lines| == 18
    ensures lines[2] == "            " + display
    ensures lines[4] == "          <input" && lines[5] == "            type=\"" + kind + "\""
    ensures lines[7] == "            name=\"" + name + "\""
    ensures lines[9] == "            onChange={handleChange}" + attr
  {
    LabelLines(name, display)
    + [
      "          <input",
      "            type=\"" + kind + "\"",
      "            id=\"" + name + "\"",
      "            name=\"" + name + "\"",
      "            value={formData." + name + "}",
      "            onChange={handleChange}" + attr
    ]
    + BorderLines(name)
    + ["          />"]
    + ErrorLines(name)
  }

  /** The lines of the block a field contributes: a textarea, a checkbox or an input of the field's kind. */
  function ControlLines(f: FormField): seq<string>
  {
    if f.kind == "textarea" then TextareaLines(Key(f), DisplayLabel(f), RequiredAttr(f.required))
    else if f.kind == "checkbox" then CheckboxLines(Key(f), DisplayLabel(f), RequiredAttr(f.required))
    else InputLines(f.kind, Key(f), DisplayLabel(f), RequiredAttr(f.required))
  }

  lemma ControlLinesNonEmpty(f: FormField)
    ensures ControlLines(f) != []
  {
    var name, display, attr := Key(f), DisplayLabel(f), RequiredAttr(f.required);
    if f.kind == "textarea" {
      assert |TextareaLines(name, display, attr)| == 18;
    } else if f.kind == "checkbox" {
      assert |CheckboxLines(name, display, attr)| == 17;
    } else {
      assert |InputLines(f.kind, name, display, attr)| == 18;
    }
  }

  function ControlMarkup(f: FormField): string
  {
    Join("\n", ControlLines(f))
  }

  /** All fields' blocks, in field order, one after the other. */
  function FormFieldsMarkup(fs: seq<FormField>): string
  {
    Join("\n", seq(|fs|, k requires 0 <= k < |fs| => ControlMarkup(fs[k])))
  }

  /**
   * Kind `textarea` gets a four-row `<textarea>` named by the field's key,
   * under the display label, marked required exactly when the field is.
   */
  lemma TextareaControl(f: FormField)
    requires f.kind == "textarea"
    ensures var lines := ControlLines(f);
            && lines[4] == "          <textarea"
            && lines[12] == "            rows={4}"
            && lines[2] == "            " + DisplayLabel(f)
            && lines[6] == "            name=\"" + Key(f) + "\""
            && lines[8] == "            onChange={handleChange}" + RequiredAttr(f.required)
  {
    assert ControlLines(f) == TextareaLines(Key(f), DisplayLabel(f), RequiredAttr(f.required));
  }

  /**
   * Kind `checkbox` gets a checkbox named by the field's key and checked
   * when the field's value is the string `"true"`, with the display label
   * beside it, marked required exactly when the field is.
   */
  lemma CheckboxControl(f: FormField)
    requires f.kind == "checkbox"
    ensures var lines := ControlLines(f);
            && lines[3] == "              type=\"checkbox\""
            && lines[4] == "              name=\"" + Key(f) + "\""
            && lines[5] == "              checked={formData." + Key(f) + " === \"true\"}"
            && lines[6] == "              onChange={handleChange}" + RequiredAttr(f.required)
            && lines[11] == "            <span className=\"ml-2 text-sm text-gray-600\">" + DisplayLabel(f) + "</span>"
  {
    assert ControlLines(f) == CheckboxLines(Key(f), DisplayLabel(f), RequiredAttr(f.required));
  }

  /**
   * Every other kind gets an `<input>` whose type is the kind as written,
   * named by the field's key, under the display label, marked required
   * exactly when the field is.
   */
  lemma InputControl(f: FormField)
    requires f.kind != "textarea" && f.kind != "checkbox"
    ensures var lines := ControlLines(f);
            && lines[4] == "          <input"
            && lines[5] == "            type=\"" + f.kind + "\""
            && lines[2] == "            " + DisplayLabel(f)
            && lines[7] == "            name=\"" + Key(f) + "\""
            && lines[9] == "            onChange={handleChange}" + RequiredAttr(f.required)
  {
    assert ControlLines(f) == InputLines(f.kind, Key(f), DisplayLabel(f), RequiredAttr(f.required));
  }

  /**
   * The fields' markup is, line by line, the block of each field in field
   * order, blocks separated like lines.
   */
  lemma FormFieldsLines(fs: seq<FormField>)
    ensures FormFieldsMarkup(fs) == Join("\n", Flatten(seq(|fs|, k requires 0 <= k < |fs| => ControlLines(fs[k]))))
  {
    var groups := seq(|fs|, k requires 0 <= k < |fs| => ControlLines(fs[k]));
    var parts := seq(|fs|, k requires 0 <= k < |fs| => ControlMarkup(fs[k]));
    forall k | 0 <= k < |fs|
      ensures groups[k] != [] && parts[k] == Join("\n", groups[k])
    {
      ControlLinesNonEmpty(fs[k]);
    }
    JoinOfGroupJoins("\n", parts, groups);
  }

  // ---------------------------------------------------------------------
  // heading and component
  // ---------------------------------------------------------------------

  /**
   * The first label split before each capital letter and joined with
   * spaces, which puts a space before every capital but a leading one; and
   * `Form` when there is no field or the first label is empty. Only the
   * first field counts.
   */
  function Heading(fs: seq<FormField>): (h: string)
    ensures fs == [] || fs[0].labelText == [] ==> h == "Form"
    ensures fs != [] && fs[0].labelText != [] ==>
              var l := fs[0].labelText; h == [l[0]] + SpaceBeforeCapitals(l[1..])
  {
    if fs == [] || fs[0].labelText == [] then "Form"
    else
      SplitAtCapitalsJoin(fs[0].labelText);
      Join(" ", SplitAtCapitals(fs[0].labelText))
  }

  /** The import and the two interfaces, each declaring every key. */
  function InterfaceLines(keys: string): seq<string>
  {
    [
      "import { useState, FormEvent, ChangeEvent } from \"react\";",
      "",
      "interface FormData {",
      "  " + keys,
      "}",
      "",
      "interface FormErrors {",
      "  " + keys,
      "}",
      ""
    ]
  }

  /** The state hooks and `validateForm`, which starts from an error record with every key empty. */
  function StateLines(entries: string, rules: string): seq<string>
  {
    [
      "export default function MyForm() {",
      "  const [formData, setFormData] = useState<FormData>({ " + entries + " });",
      "  const [errors, setErrors] = useState<FormErrors>({ " + entries + " });",
      "  const [isSubmitting, setIsSubmitting] = useState(false);",
      "",
      "  const validateForm = (): boolean => {",
      "    const errors: FormErrors = { " + entries + " };",
      "    " + rules,
      "    setErrors(errors);",
      "    return Object.values(errors).every(error => !error);",
      "  };",
      ""
    ]
  }

  /** `handleChange`, which does not depend on the fields. */
  const ChangeHandlerLines: seq<string> := [
    "  const handleChange = (e: ChangeEvent<HTMLInputElement | HTMLTextAreaElement>) => {",
    "    const { name, value, type } = e.target;",
    "    const val = type === 'checkbox' ? (e.target as HTMLInputElement).checked.toString() : value;",
    "    setFormData(prev => ({ ...prev, [name]: val }));",
    "    if (errors[name as keyof FormErrors]) {",
    "      setErrors(prev => ({ ...prev, [name]: '' }));",
    "    }",
    "  };",
    ""
  ]

  /** `handleSubmit`, which resets the state and the errors to every key empty. */
  function SubmitHandlerLines(entries: string): seq<string>
  {
    [
      "  const handleSubmit = async (e: FormEvent<HTMLFormElement>) => {",
      "    e.preventDefault();",
      "    if (!validateForm()) return;",
      "",
      "    setIsSubmitting(true);",
      "    try {",
      "      await new Promise(resolve => setTimeout(resolve, 1000));",
      "      console.log('Form submitted:', formData);",
      "      setFormData({ " + entries + " });",
      "      setErrors({ " + entries + " });",
      "      alert('Form submitted successfully!');",
      "    } catch (error) {",
      "      console.error('Error submitting form:', error);",
      "      alert('Error submitting form. Please try again.');",
      "    } finally {",
      "      setIsSubmitting(false);",
      "    }",
      "  };",
      ""
    ]
  }

  /** The page around the form, its heading, and the form's opening line. */
  function PageLines(heading: string): seq<string>
  {
    [
      "  return (",
      "    <div className=\"min-h-screen bg-gray-50 flex items-center justify-center py-12 px-4 sm:px-6 lg:px-8\">",
      "      <div className=\"max-w-md w-full space-y-8 bg-white p-8 rounded-xl shadow-sm\">",
      "        <div className=\"text-center\">",
      "          <h2 className=\"text-3xl font-semibold text-gray-800\">",
      "            " + heading,
      "          </h2>",
      "          <p className=\"mt-2 text-sm text-gray-500\">",
      "            Please fill in the required information",
      "          </p>",
      "        </div>",
      "        ",
      "        <form onSubmit={handleSubmit} className=\"mt-8 space-y-4\">"
    ]
  }

  /** The lines of the component before the fields' blocks. */
  function HeadLines(fs: seq<FormField>): seq<string>
  {
    InterfaceLines(InterfaceBody(fs))
    + StateLines(Entries(fs), ValidationBlock(fs))
    + ChangeHandlerLines
    + SubmitHandlerLines(Entries(fs))
    + PageLines(Heading(fs))
  }

  /** The lines of the component after the fields' blocks: the submit button and the closing tags. */
  const TailLines: seq<string> := [
    "          <div className=\"pt-4\">",
    "            <button",
    "              type=\"submit\"",
    "              disabled={isSubmitting}",
    "              className={`w-full py-2.5 px-4 border border-transparent rounded-lg text-sm font-medium text-white bg-blue-500 hover:bg-blue-600 focus:outline-none focus:ring-2 focus:ring-offset-2 focus:ring-blue-400 transition-colors ${",
    "                isSubmitting ? 'opacity-70 cursor-not-allowed' : ''",
    "              }`}",
    "            >",
    "              {isSubmitting ? 'Submitting...' : 'Submit'}",
    "            </button>",
    "          </div>",
    "        </form>",
    "      </div>",
    "    </div>",
    "  );",
    "}"
  ]

  /** `generateReactForm`: the head, the fields' blocks and the tail, one line each. */
  function GenerateReactForm(fs: seq<FormField>): string
  {
    Join("\n", HeadLines(fs) + [FormFieldsMarkup(fs)] + TailLines)
  }

  /**
   * The component is, line by line, the head, every line of every field's
   * block in field order, and the tail; with no fields one empty line
   * stands between head and tail.
   */
  lemma ComponentLines(fs: seq<FormField>)
    ensures fs == [] ==> GenerateReactForm(fs) == Join("\n", HeadLines(fs) + [""] + TailLines)
    ensures fs != [] ==>
              GenerateReactForm(fs) ==
              Join("\n", HeadLines(fs) + Flatten(seq(|fs|, k requires 0 <= k < |fs| => ControlLines(fs[k]))) + TailLines)
  {
    var head, middle := HeadLines(fs), FormFieldsMarkup(fs);
    if fs != [] {
      var body := Flatten(seq(|fs|, k requires 0 <= k < |fs| => ControlLines(fs[k])));
      FormFieldsLines(fs);
      var groups := seq(|fs|, k requires 0 <= k < |fs| => ControlLines(fs[k]));
      assert body == groups[0] + Flatten(groups[1..]);
      ControlLinesNonEmpty(fs[0]);
      assert |head| > 0 && |TailLines| > 0 && |body| > 0;
      JoinAppend("\n", head, [middle]);
      JoinAppend("\n", head + [middle], TailLines);
      JoinAppend("\n", head, body);
      JoinAppend("\n", head + body, TailLines);
    }
  }
}
