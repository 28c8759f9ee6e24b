/** The template editor's logic, without its rendering: the form it starts from,
    the variables it detects, the preview it substitutes and the request it saves.
    The editor scans `{{name}}` tokens exactly as the backend does; its preview
    differs from the backend's substitution in leaving tokens with empty values. */
module TemplateEditor {
  import opened JsString
  import opened Types
  import TemplateText
  import TemplateRoutes
  import Db

  /** The editor's form fields and whether the HTML body is the one being edited. */
  datatype Form = Form(name: string, subject: string, text: string, html: string, isHtmlMode: bool)

  /** The form for a template being edited, or the empty form for a new one; HTML
      mode is on exactly when the template has an HTML body. */
  function InitialForm(t: Option<TemplateRoutes.TemplateView>): (f: Form)
    ensures t.None? ==> f == Form("", "", "", "", false)
    ensures t.Some? ==> (f.name == t.value.name && f.subject == t.value.subject
      && f.text == OrElse(t.value.body_text, "") && f.html == OrElse(t.value.body_html, "")
      && (f.isHtmlMode <==> Truthy(t.value.body_html)))
  {
    if t.None? then Form("", "", "", "", false)
    else Form(t.value.name, t.value.subject, OrElse(t.value.body_text, ""), OrElse(t.value.body_html, ""),
      Truthy(t.value.body_html))
  }

  /** The body the editor is showing. */
  function ActiveBody(f: Form): string
  {
    if f.isHtmlMode then f.html else f.text
  }

  /** `detectedVariables`: the names in the subject and then in the active body, each
      once, in order of first occurrence. The space joining the two keeps a token from
      spanning the seam. */
  method DetectVariables(f: Form) returns (vars: seq<string>)
    ensures vars == TemplateText.Dedup(TemplateText.Names(f.subject) + TemplateText.Names(ActiveBody(f)))
  {
    vars := TemplateText.ExtractVariables(f.subject + " " + ActiveBody(f));
    NamesJoined(f.subject, ActiveBody(f));
  }

  /** The names of two texts joined by a space are the names of each, in order. */
  lemma NamesJoined(subject: string, body: string)
    ensures TemplateText.Names(subject + " " + body) == TemplateText.Names(subject) + TemplateText.Names(body)
  {
    var a, b := TemplateText.Scan(subject), TemplateText.Scan(body);
    var sep := [TemplateText.Lit(' ')];
    assert subject + " " + body == subject + [' '] + body;
    TemplateText.ScanSeparated(subject, ' ', body);
    TemplateText.VarNamesAppend(a + sep, b);
    TemplateText.VarNamesAppend(a, sep);
    assert TemplateText.VarNames(sep) == [];
  }

  /** Detected names come from the subject or the active body, and every name of
      either appears. */
  lemma DetectedMembers(f: Form, n: string)
    ensures n in TemplateText.Dedup(TemplateText.Names(f.subject) + TemplateText.Names(ActiveBody(f))) <==>
      n in TemplateText.Names(f.subject) || n in TemplateText.Names(ActiveBody(f))
  {
    TemplateText.DedupProperties(TemplateText.Names(f.subject) + TemplateText.Names(ActiveBody(f)));
  }

  /** The preview value for every detected name, reset to the empty string. */
  method InitPreviewVars(detected: seq<string>) returns (vars: map<string, string>)
    ensures vars.Keys == set n | n in detected
    ensures forall n :: n in vars ==> vars[n] == ""
  {
    vars := map[];
    for i := 0 to |detected|
      invariant vars.Keys == set n | n in detected[..i]
      invariant forall n :: n in vars ==> vars[n] == ""
    {
      assert detected[..i + 1] == detected[..i] + [detected[i]];
      vars := vars[detected[i] := ""];
    }
    assert detected[..|detected|] == detected;
  }

  /** The preview's replacement: a token is replaced only when its name has a
      non-empty value; a missing or empty value leaves the token as written. */
  function PreviewRender(ps: seq<TemplateText.Piece>, vars: map<string, string>): string
  {
    if ps == [] then "" else PreviewPiece(ps[0], vars) + PreviewRender(ps[1..], vars)
  }

  function PreviewPiece(p: TemplateText.Piece, vars: map<string, string>): string
  {
    match p
    case Lit(c) => [c]
    case Var(name) => if name in vars && vars[name] != "" then vars[name] else TemplateText.TokenText(name)
  }

  /** The preview's `substituteVariables`: the backend's substitution with the empty
      values dropped. */
  function PreviewSubstitute(text: string, vars: map<string, string>): (r: string)
    ensures r == TemplateText.Substitute(text, NonEmptyValues(vars))
  {
    PreviewRenderIsRender(TemplateText.Scan(text), vars);
    PreviewRender(TemplateText.Scan(text), vars)
  }

  /** The entries whose value is not empty. */
  function NonEmptyValues(vars: map<string, string>): (m: map<string, string>)
    ensures forall n :: n in m <==> n in vars && vars[n] != ""
    ensures forall n :: n in m ==> m[n] == vars[n]
  {
    map n | n in vars && vars[n] != "" :: vars[n]
  }

  lemma {:induction false} PreviewRenderIsRender(ps: seq<TemplateText.Piece>, vars: map<string, string>)
    ensures PreviewRender(ps, vars) == TemplateText.Render(ps, NonEmptyValues(vars))
  {
    if ps != [] {
      PreviewRenderIsRender(ps[1..], vars);
      assert PreviewPiece(ps[0], vars) == TemplateText.RenderPiece(ps[0], NonEmptyValues(vars));
    }
  }

  /** Where the two differ: an empty value clears the token on the backend but not in
      the preview. */
  lemma EmptyValueDiffers()
    ensures TemplateText.Substitute("{{a}}", map["a" := ""]) == ""
    ensures PreviewSubstitute("{{a}}", map["a" := ""]) == "{{a}}"
  {
    TemplateText.SubstituteNoRecursion();
    assert NonEmptyValues(map["a" := ""]) == map[];
  }

  /** With freshly reset preview values, the preview shows the raw text. */
  lemma FreshPreviewIsRaw(text: string, vars: map<string, string>)
    requires forall n :: n in vars ==> vars[n] == ""
    ensures PreviewSubstitute(text, vars) == text
  {
    assert NonEmptyValues(vars) == map[];
  }

  /** The request `handleSubmit` sends: empty bodies are left out and the variables
      are the detected list. */
  function BuildRequest(f: Form, detected: seq<string>): (r: TemplateRequest)
    ensures r.name == Some(f.name) && r.subject == Some(f.subject)
    ensures r.text == (if f.text == "" then None else Some(f.text))
    ensures r.html == (if f.html == "" then None else Some(f.html))
    ensures r.variables == Some(detected)
  {
    TemplateRequest(Some(f.name), Some(f.subject),
      if f.text == "" then None else Some(f.text),
      if f.html == "" then None else Some(f.html),
      Some(detected))
  }

  /** A template the editor creates is read back by the API with exactly the
      variables the editor detected. */
  lemma SavedVariablesReadBack(f: Form, detected: seq<string>, id: int, now: int)
    ensures TemplateRoutes.View(Db.TemplateRow(id, TemplateRoutes.NewTemplateOf(BuildRequest(f, detected)), now))
      == Some(TemplateRoutes.TemplateView(id, f.name, f.subject,
           if f.text == "" then None else Some(f.text), if f.html == "" then None else Some(f.html),
           detected, now, now))
  {
    TemplateRoutes.CreatedRowView(id, BuildRequest(f, detected), now);
  }
}
