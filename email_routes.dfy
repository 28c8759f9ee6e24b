/** The `/api/emails` handlers: the send pipeline of `POST /` and the two read
    handlers. `POST /` runs its checks in a fixed order (template, required fields,
    attachments, sender) and stops at the first that fails; only then does it call
    the provider, whose answer arrives as a parameter, and record the outcome. */
module EmailRoutes {
  import opened JsString
  import opened Types
  import opened Db
  import TemplateText

  /** The largest estimated attachment size the send route accepts, in bytes. */
  const MAX_ATTACHMENT_SIZE: int := 10 * 1024 * 1024

  const BLOCKED_EXTENSIONS: seq<string> := [
    ".exe", ".bat", ".cmd", ".com", ".pif", ".scr", ".vbs", ".js", ".jar",
    ".app", ".deb", ".rpm", ".dmg", ".pkg", ".sh", ".bash", ".csh", ".ksh",
    ".run", ".bin", ".msi", ".apk", ".ipa"
  ]

  /** The JSON responses of `POST /`, one per outcome. */
  datatype PostResponse =
    | TemplateNotFound
    | MissingFields
    | BlockedFileType(filename: string)
    | AttachmentTooLarge(filename: string)
    | SenderNotAllowed(allowedAddresses: seq<string>)
    | SendFailed(details: Option<string>, savedId: int)
    | Created(id: int, emailId: Option<string>)

  function PostStatus(r: PostResponse): int
  {
    match r
    case TemplateNotFound => 404
    case MissingFields => 400
    case BlockedFileType(_) => 400
    case AttachmentTooLarge(_) => 400
    case SenderNotAllowed(_) => 403
    case SendFailed(_, _) => 500
    case Created(_, _) => 201
  }

  /** The `error` text of each failure response. */
  function PostError(r: PostResponse): Option<string>
  {
    match r
    case TemplateNotFound => Some("Template not found")
    case MissingFields => Some("Missing required fields: from, to, subject")
    case BlockedFileType(f) => Some("File type not allowed: \"" + f + "\". Executable files are blocked for security.")
    case AttachmentTooLarge(f) => Some("Attachment " + f + " exceeds 10MB size limit")
    case SenderNotAllowed(_) => Some("From address not allowed")
    case SendFailed(_, _) => Some("Failed to send email")
    case Created(_, _) => None
  }

  // ---------------------------------------------------------------------------
  // Step 1: template resolution

  /** The subject and bodies the email goes out with. */
  datatype Content = Content(subject: Option<string>, text: Option<string>, html: Option<string>)

  /** A `templateId` counts only when it is truthy, so 0 means no template. */
  predicate UsesTemplate(req: SendEmailRequest)
  {
    req.templateId.Some? && req.templateId.value != 0
  }

  /** `t.body_text ? substituteVariables(t.body_text, vars) : undefined`. */
  function SubstituteField(field: Option<string>, vars: map<string, string>): (r: Option<string>)
    ensures r.Some? <==> Truthy(field)
    ensures r.Some? ==> r.value == TemplateText.Substitute(field.value, vars)
  {
    if Truthy(field) then Some(TemplateText.Substitute(field.value, vars)) else None
  }

  /** The content of a templated email: every field comes from the template, and the
      caller's subject, text and html are ignored. */
  function FromTemplate(t: Template, vars: Option<map<string, string>>): (c: Content)
    ensures c.subject.Some?
    ensures c.text.Some? <==> Truthy(t.body_text)
    ensures c.html.Some? <==> Truthy(t.body_html)
    ensures vars.None? ==> c == Content(Some(t.subject),
      if Truthy(t.body_text) then t.body_text else None, if Truthy(t.body_html) then t.body_html else None)
  {
    var vs := if vars.Some? then vars.value else map[];
    Content(Some(TemplateText.Substitute(t.subject, vs)), SubstituteField(t.body_text, vs), SubstituteField(t.body_html, vs))
  }

  /** `None` when the named template does not exist. */
  function Resolve(req: SendEmailRequest, templates: seq<Template>): (r: Option<Content>)
    ensures !UsesTemplate(req) ==> r == Some(Content(req.subject, req.text, req.html))
    ensures UsesTemplate(req) ==>
      (r.None? <==> forall i :: 0 <= i < |templates| ==> templates[i].id != req.templateId.value)
    ensures UsesTemplate(req) && r.Some? ==>
      exists t :: t in templates && t.id == req.templateId.value && r == Some(FromTemplate(t, req.variables))
  {
    if !UsesTemplate(req) then Some(Content(req.subject, req.text, req.html))
    else
      var t := TemplateWithId(templates, req.templateId.value);
      if t.None? then None else Some(FromTemplate(t.value, req.variables))
  }

  // ---------------------------------------------------------------------------
  // Step 3: attachment checks

  /** `Math.ceil(content.length * 3 / 4)`: the decoded size of a base64 text, from its
      length in UTF-16 code units. */
  function EstimatedSize(content: string): (n: nat)
    ensures 4 * n >= 3 * Length(content) && 4 * n < 3 * Length(content) + 4
  {
    (3 * Length(content) + 3) / 4
  }

  /** A character outside the BMP counts as two code units: one emoji estimates 2 bytes,
      while four base64 digits estimate 3. */
  lemma EstimatedSizeCountsCodeUnits()
    ensures EstimatedSize("\U{1F600}") == 2
    ensures EstimatedSize("QUJD") == 3
  {
    assert "\U{1F600}"[1..] == [];
    assert "QUJD"[1..] == "UJD" && "UJD"[1..] == "JD" && "JD"[1..] == "D" && "D"[1..] == [];
  }

  predicate IsBlocked(filename: string)
  {
    exists k :: 0 <= k < |BLOCKED_EXTENSIONS| && EndsWith(ToLower(filename), BLOCKED_EXTENSIONS[k])
  }

  predicate Offending(a: AttachmentData)
  {
    IsBlocked(a.filename) || EstimatedSize(a.content) > MAX_ATTACHMENT_SIZE
  }

  /** The response for an offending attachment: the type check comes first. */
  function Complaint(a: AttachmentData): PostResponse
  {
    if IsBlocked(a.filename) then BlockedFileType(a.filename) else AttachmentTooLarge(a.filename)
  }

  /** The complaint about the first offending attachment, if any. */
  function FirstProblem(atts: seq<AttachmentData>): (r: Option<PostResponse>)
    ensures r.None? <==> forall i :: 0 <= i < |atts| ==> !Offending(atts[i])
    ensures r.Some? ==> exists i :: (0 <= i < |atts| && Offending(atts[i])
      && (forall j :: 0 <= j < i ==> !Offending(atts[j])) && r.value == Complaint(atts[i]))
  {
    if atts == [] then None
    else if Offending(atts[0]) then Some(Complaint(atts[0]))
    else
      var r := FirstProblem(atts[1..]);
      assert r.Some? ==> exists i :: (0 <= i < |atts| && Offending(atts[i])
        && (forall j :: 0 <= j < i ==> !Offending(atts[j])) && r.value == Complaint(atts[i])) by {
        if r.Some? {
          var i :| 0 <= i < |atts[1..]| && Offending(atts[1..][i])
            && (forall j :: 0 <= j < i ==> !Offending(atts[1..][j])) && r.value == Complaint(atts[1..][i]);
          assert atts[i + 1] == atts[1..][i];
          forall j | 0 <= j < i + 1 ensures !Offending(atts[j]) {
            if j > 0 { assert atts[j] == atts[1..][j - 1]; }
          }
        }
      }
      assert r.None? ==> forall i :: 0 <= i < |atts| ==> !Offending(atts[i]) by {
        if r.None? {
          forall i | 0 <= i < |atts| ensures !Offending(atts[i]) {
            if i > 0 { assert atts[i] == atts[1..][i - 1]; }
          }
        }
      }
      r
  }

  /** One step of the search for the first offending attachment. */
  lemma FirstProblemStep(atts: seq<AttachmentData>, i: nat)
    requires i < |atts|
    ensures Offending(atts[i]) ==> FirstProblem(atts[i..]) == Some(Complaint(atts[i]))
    ensures !Offending(atts[i]) ==> FirstProblem(atts[i..]) == FirstProblem(atts[i + 1..])
  {
    assert atts[i..][0] == atts[i] && atts[i..][1..] == atts[i + 1..];
  }

  /** The loop over the attachments, returning at the first one that fails. */
  method CheckAttachments(atts: seq<AttachmentData>) returns (problem: Option<PostResponse>)
    ensures problem == FirstProblem(atts)
  {
    var i := 0;
    while i < |atts|
      invariant 0 <= i <= |atts|
      invariant FirstProblem(atts) == FirstProblem(atts[i..])
    {
      var a := atts[i];
      FirstProblemStep(atts, i);
      var isBlocked := IsBlocked(a.filename);
      if isBlocked {
        return Some(BlockedFileType(a.filename));
      }
      var estimatedSize := (Length(a.content) * 3 + 3) / 4;
      if estimatedSize > MAX_ATTACHMENT_SIZE {
        return Some(AttachmentTooLarge(a.filename));
      }
      i := i + 1;
    }
    assert atts[i..] == [];
    problem := None;
  }

  // ---------------------------------------------------------------------------
  // Step 4: the sender allow-list

  predicate IsLineTerminator(c: char)
  {
    c == '\n' || c == '\r' || c == '\U{2028}' || c == '\U{2029}'
  }

  /** Index of the first character `.` can match. */
  function FirstMatchable(s: string, i: nat): (p: nat)
    requires i <= |s|
    ensures i <= p <= |s|
    ensures forall k :: i <= k < p ==> IsLineTerminator(s[k])
    ensures p < |s| ==> !IsLineTerminator(s[p])
    decreases |s| - i
  {
    if i < |s| && IsLineTerminator(s[i]) then FirstMatchable(s, i + 1) else i
  }

  /** The first `>` at or after `i` with no line terminator before it. */
  function CloseAngle(s: string, i: nat): (q: Option<nat>)
    requires i <= |s|
    ensures q.Some? ==> (i <= q.value < |s| && s[q.value] == '>'
      && forall k :: i <= k < q.value ==> s[k] != '>' && !IsLineTerminator(s[k]))
    ensures q.None? ==> forall k :: i <= k < |s| ==> (s[k] != '>'
      || exists m :: i <= m < k && IsLineTerminator(s[m]))
    decreases |s| - i
  {
    if i == |s| then None
    else if s[i] == '>' then Some(i)
    else if IsLineTerminator(s[i]) then None
    else CloseAngle(s, i + 1)
  }

  /** `from.match(/<(.+?)>|(.+)/)?.[1] || from`. The leftmost match starts at the first
      character `.` can match. Only when that character is `<` and a lazy, non-empty
      run without line terminators reaches a `>` is the captured text the address;
      in every other case the whole `from` is. */
  function SenderAddress(from: string): (r: string)
    ensures r == from || exists p, q :: 0 <= p < q <= |from| && r == from[p..q] && r != ""
  {
    var p := FirstMatchable(from, 0);
    if p + 1 < |from| && from[p] == '<' && !IsLineTerminator(from[p + 1]) then
      var q := CloseAngle(from, p + 2);
      if q.Some? then from[p + 1..q.value] else from
    else from
  }

  /** The first `>` reached before any line terminator is the one found. */
  lemma {:induction false} CloseAngleFinds(s: string, i: nat, j: nat)
    requires i <= j < |s| && s[j] == '>'
    requires forall k :: i <= k < j ==> s[k] != '>' && !IsLineTerminator(s[k])
    ensures CloseAngle(s, i) == Some(j)
    decreases j - i
  {
    if i < j {
      CloseAngleFinds(s, i + 1, j);
    }
  }

  /** `<address>` gives the address between the brackets. */
  lemma SenderBracketed(a: string, rest: string)
    requires a != [] && forall k :: 0 <= k < |a| ==> a[k] != '>' && !IsLineTerminator(a[k])
    ensures SenderAddress("<" + a + ">" + rest) == a
  {
    var s := "<" + a + ">" + rest;
    assert FirstMatchable(s, 0) == 0;
    assert s[1] == a[0];
    forall k | 2 <= k < |a| + 1 ensures s[k] != '>' && !IsLineTerminator(s[k]) {
      assert s[k] == a[k - 1];
    }
    CloseAngleFinds(s, 2, |a| + 1);
    assert s[1..|a| + 1] == a;
  }

  /** A `from` that does not start with `<` is compared as it stands. */
  lemma SenderVerbatim(from: string)
    requires from != [] && from[0] != '<' && !IsLineTerminator(from[0])
    ensures SenderAddress(from) == from
  {
  }

  /** A display name in front of the address keeps the whole text. */
  lemma SenderWithDisplayName()
    ensures SenderAddress("Jane <jane@x.com>") == "Jane <jane@x.com>"
  {
    SenderVerbatim("Jane <jane@x.com>");
  }

  /** `(FROM_ADDRESSES || '').split(',').map(a => a.trim())`. */
  function AllowedAddresses(fromAddresses: Option<string>): (r: seq<string>)
    ensures |r| >= 1
  {
    var parts := Split(OrElse(fromAddresses, ""), ',');
    seq(|parts|, i requires 0 <= i < |parts| => Trim(parts[i]))
  }

  /** Without the setting, the list is a single empty entry. */
  lemma UnsetAllowList(fromAddresses: Option<string>)
    requires !Truthy(fromAddresses)
    ensures AllowedAddresses(fromAddresses) == [""]
  {
    assert Split("", ',') == [""];
  }

  lemma SenderNonEmpty(from: string)
    requires from != ""
    ensures SenderAddress(from) != ""
  {
  }

  // ---------------------------------------------------------------------------
  // The whole pipeline

  datatype Decision = Reject(response: PostResponse) | Proceed(params: SendEmailParams)

  /** Steps 2 to 4 on resolved content; `None` means every check passed. */
  function Checks(req: SendEmailRequest, c: Content, fromAddresses: Option<string>): (r: Option<PostResponse>)
    ensures r.None? <==>
      (Truthy(req.from) && Truthy(req.to) && Truthy(c.subject)
       && (req.attachments.Some? ==> forall i :: 0 <= i < |req.attachments.value| ==> !Offending(req.attachments.value[i]))
       && SenderAddress(req.from.value) in AllowedAddresses(fromAddresses))
    ensures r.Some? ==> PostStatus(r.value) in {400, 403}
  {
    if !Truthy(req.from) || !Truthy(req.to) || !Truthy(c.subject) then Some(MissingFields)
    else
      var problem := if req.attachments.Some? then FirstProblem(req.attachments.value) else None;
      if problem.Some? then problem
      else if SenderAddress(req.from.value) !in AllowedAddresses(fromAddresses) then
        Some(SenderNotAllowed(AllowedAddresses(fromAddresses)))
      else None
  }

  /** What the provider is asked to send once every check has passed. */
  function ParamsOf(req: SendEmailRequest, c: Content): SendEmailParams
    requires Truthy(req.from) && Truthy(req.to) && Truthy(c.subject)
  {
    SendEmailParams(req.from.value, req.to.value, c.subject.value, c.text, c.html, req.attachments)
  }

  /** What the handler decides before it touches the provider or the store. */
  function Gate(req: SendEmailRequest, templates: seq<Template>, fromAddresses: Option<string>): (d: Decision)
    ensures d.Reject? ==> PostStatus(d.response) in {400, 403, 404}
    ensures d.Proceed? ==>
      (Truthy(req.from) && Truthy(req.to)
       && d.params.from == req.from.value && d.params.to == req.to.value && d.params.attachments == req.attachments)
  {
    var content := Resolve(req, templates);
    if content.None? then Reject(TemplateNotFound)
    else
      var problem := Checks(req, content.value, fromAddresses);
      if problem.Some? then Reject(problem.value)
      else Proceed(ParamsOf(req, content.value))
  }

  /** A templated request naming a missing template is refused with 404. */
  lemma GateTemplateNotFound(req: SendEmailRequest, templates: seq<Template>, fromAddresses: Option<string>)
    requires UsesTemplate(req) && forall i :: 0 <= i < |templates| ==> templates[i].id != req.templateId.value
    ensures Gate(req, templates, fromAddresses) == Reject(TemplateNotFound)
  {
  }

  /** A missing sender, recipient or resolved subject is refused with 400 before any
      attachment or sender check. */
  lemma GateMissingFields(req: SendEmailRequest, templates: seq<Template>, fromAddresses: Option<string>)
    requires Resolve(req, templates).Some?
    requires !Truthy(req.from) || !Truthy(req.to) || !Truthy(Resolve(req, templates).value.subject)
    ensures Gate(req, templates, fromAddresses) == Reject(MissingFields)
  {
  }

  /** Once the fields are present, the first offending attachment decides the answer. */
  lemma GateAttachment(req: SendEmailRequest, templates: seq<Template>, fromAddresses: Option<string>, i: nat)
    requires Resolve(req, templates).Some?
    requires Truthy(req.from) && Truthy(req.to) && Truthy(Resolve(req, templates).value.subject)
    requires req.attachments.Some? && i < |req.attachments.value| && Offending(req.attachments.value[i])
    requires forall j :: 0 <= j < i ==> !Offending(req.attachments.value[j])
    ensures Gate(req, templates, fromAddresses) == Reject(Complaint(req.attachments.value[i]))
  {
    var atts := req.attachments.value;
    var r := FirstProblem(atts);
    var k :| 0 <= k < |atts| && Offending(atts[k])
      && (forall j :: 0 <= j < k ==> !Offending(atts[j])) && r.value == Complaint(atts[k]);
    assert k == i;
  }

  /** A request goes to the provider exactly when every check passes, and then with
      the resolved content and the caller's sender, recipient and attachments. */
  lemma GateProceeds(req: SendEmailRequest, templates: seq<Template>, fromAddresses: Option<string>)
    ensures Gate(req, templates, fromAddresses).Proceed? <==>
      Resolve(req, templates).Some?
      && Truthy(req.from) && Truthy(req.to) && Truthy(Resolve(req, templates).value.subject)
      && (req.attachments.Some? ==> forall i :: 0 <= i < |req.attachments.value| ==> !Offending(req.attachments.value[i]))
      && SenderAddress(req.from.value) in AllowedAddresses(fromAddresses)
    ensures Gate(req, templates, fromAddresses).Proceed? ==>
      var c := Resolve(req, templates).value;
      Gate(req, templates, fromAddresses).params
        == SendEmailParams(req.from.value, req.to.value, c.subject.value, c.text, c.html, req.attachments)
  {
  }

  /** A sender outside the list is refused with 403 and the list. */
  lemma GateSenderNotAllowed(req: SendEmailRequest, templates: seq<Template>, fromAddresses: Option<string>)
    requires Resolve(req, templates).Some?
    requires Truthy(req.from) && Truthy(req.to) && Truthy(Resolve(req, templates).value.subject)
    requires req.attachments.Some? ==> forall i :: 0 <= i < |req.attachments.value| ==> !Offending(req.attachments.value[i])
    requires SenderAddress(req.from.value) !in AllowedAddresses(fromAddresses)
    ensures Gate(req, templates, fromAddresses) == Reject(SenderNotAllowed(AllowedAddresses(fromAddresses)))
  {
  }

  /** Without a configured allow-list nothing is ever sent. */
  lemma UnsetAllowListRejectsAll(req: SendEmailRequest, templates: seq<Template>, fromAddresses: Option<string>)
    requires !Truthy(fromAddresses)
    ensures Gate(req, templates, fromAddresses).Reject?
  {
    UnsetAllowList(fromAddresses);
    if Truthy(req.from) {
      SenderNonEmpty(req.from.value);
    }
  }

  /** A templated email ignores the caller's subject and bodies. */
  lemma GateTemplateOverrides(req: SendEmailRequest, templates: seq<Template>, fromAddresses: Option<string>, t: Template)
    requires UsesTemplate(req) && t in templates && t.id == req.templateId.value
    requires TemplatesOrdered(templates)
    requires Gate(req, templates, fromAddresses).Proceed?
    ensures var p := Gate(req, templates, fromAddresses).params;
      var vs := if req.variables.Some? then req.variables.value else map[];
      p.subject == TemplateText.Substitute(t.subject, vs)
      && p.text == SubstituteField(t.body_text, vs)
      && p.html == SubstituteField(t.body_html, vs)
  {
    var c := Resolve(req, templates);
    var u :| u in templates && u.id == req.templateId.value && c == Some(FromTemplate(u, req.variables));
    TemplateIdsUnique(templates, t, u);
  }

  /** The record written after the provider call. */
  function Record(p: SendEmailParams, outcome: SendEmailResult): NewEmail
  {
    NewEmail(p.from, p.to, p.subject, p.text, p.html, if outcome.success then Sent else Failed,
      outcome.messageId, outcome.error)
  }

  /** One metadata row per attachment, linked to the email, with no file on disk. */
  function AttachmentRows(firstId: int, emailId: int, atts: seq<AttachmentData>, now: int): (rows: seq<Attachment>)
    ensures |rows| == |atts|
    ensures forall k :: 0 <= k < |atts| ==>
      (rows[k] == Attachment(firstId + k, emailId, atts[k].filename, atts[k].contentType, EstimatedSize(atts[k].content), "", now))
  {
    seq(|atts|, k requires 0 <= k < |atts| =>
      Attachment(firstId + k, emailId, atts[k].filename, atts[k].contentType, EstimatedSize(atts[k].content), "", now))
  }

  /** Step 1 as the handler runs it: start from the caller's fields and, when a
      template is named, overwrite all three from it. */
  method ResolveContent(db: Store, req: SendEmailRequest) returns (content: Option<Content>)
    requires db.Valid()
    ensures content == Resolve(req, db.templates)
  {
    var subject, text, html := req.subject, req.text, req.html;
    if req.templateId.Some? && req.templateId.value != 0 {
      var template := db.TemplateById(req.templateId.value);
      if template.None? {
        return None;
      }
      var vars := if req.variables.Some? then req.variables.value else map[];
      subject := Some(TemplateText.Substitute(template.value.subject, vars));
      text := if Truthy(template.value.body_text) then Some(TemplateText.Substitute(template.value.body_text.value, vars)) else None;
      html := if Truthy(template.value.body_html) then Some(TemplateText.Substitute(template.value.body_html.value, vars)) else None;
    }
    content := Some(Content(subject, text, html));
  }

  /** Steps 2 to 4 as the handler runs them, returning at the first failure. */
  method RunChecks(req: SendEmailRequest, c: Content, fromAddresses: Option<string>) returns (problem: Option<PostResponse>)
    ensures problem == Checks(req, c, fromAddresses)
  {
    if !Truthy(req.from) || !Truthy(req.to) || !Truthy(c.subject) {
      return Some(MissingFields);
    }
    if req.attachments.Some? && |req.attachments.value| > 0 {
      problem := CheckAttachments(req.attachments.value);
      if problem.Some? {
        return problem;
      }
    }
    var allowedAddresses := AllowedAddresses(fromAddresses);
    var fromEmail := SenderAddress(req.from.value);
    if fromEmail !in allowedAddresses {
      return Some(SenderNotAllowed(allowedAddresses));
    }
    problem := None;
  }

  /** The writes after the provider call: one email row, then, on success only, one
      attachment row per attachment. */
  method RecordOutcome(db: Store, p: SendEmailParams, outcome: SendEmailResult) returns (emailId: int)
    requires db.Valid()
    modifies db`emails, db`nextEmailId, db`attachments, db`nextAttachmentId
    ensures db.Valid()
    ensures emailId == old(db.nextEmailId)
    ensures db.emails == old(db.emails) + [EmailRow(emailId, Record(p, outcome), db.clock)]
    ensures var atts := if outcome.success && p.attachments.Some? then p.attachments.value else [];
      db.attachments == old(db.attachments) + AttachmentRows(old(db.nextAttachmentId), emailId, atts, db.clock)
      && db.nextAttachmentId == old(db.nextAttachmentId) + |atts|
    ensures db.nextEmailId == old(db.nextEmailId) + 1
  {
    emailId := db.SaveEmail(Record(p, outcome));
    if outcome.success && p.attachments.Some? && |p.attachments.value| > 0 {
      SaveAttachmentRows(db, emailId, p.attachments.value);
    } else {
      assert AttachmentRows(old(db.nextAttachmentId), emailId, [], db.clock) == [];
    }
  }

  /** The loop over the attachments of a sent email: one metadata row each. */
  method SaveAttachmentRows(db: Store, emailId: int, atts: seq<AttachmentData>)
    requires db.Valid()
    modifies db`attachments, db`nextAttachmentId
    ensures db.Valid()
    ensures db.nextAttachmentId == old(db.nextAttachmentId) + |atts|
    ensures db.attachments == old(db.attachments) + AttachmentRows(old(db.nextAttachmentId), emailId, atts, db.clock)
  {
    var firstId := db.nextAttachmentId;
    for i := 0 to |atts|
      invariant db.Valid()
      invariant db.nextAttachmentId == firstId + i
      invariant db.attachments == old(db.attachments) + AttachmentRows(firstId, emailId, atts[..i], db.clock)
    {
      var size := (Length(atts[i].content) * 3 + 3) / 4;
      var _ := db.SaveAttachment(NewAttachment(emailId, atts[i].filename, atts[i].contentType, size, ""));
      AttachmentRowsSnoc(firstId, emailId, atts, i, db.clock);
    }
    assert atts[..|atts|] == atts;
  }

  lemma AttachmentRowsSnoc(firstId: int, emailId: int, atts: seq<AttachmentData>, i: nat, now: int)
    requires i < |atts|
    ensures AttachmentRows(firstId, emailId, atts[..i + 1], now)
      == AttachmentRows(firstId, emailId, atts[..i], now)
        + [AttachmentRow(firstId + i, NewAttachment(emailId, atts[i].filename, atts[i].contentType,
            (Length(atts[i].content) * 3 + 3) / 4, ""), now)]
  {
  }

  /** `POST /`. `outcome` is what the provider answers; `sent` is what it was given.
      A refused request leaves the store untouched and sends nothing. */
  method PostEmail(db: Store, req: SendEmailRequest, fromAddresses: Option<string>, outcome: SendEmailResult)
    returns (resp: PostResponse, sent: Option<SendEmailParams>)
    requires db.Valid()
    modifies db`emails, db`nextEmailId, db`attachments, db`nextAttachmentId
    ensures db.Valid()
    ensures Gate(req, db.templates, fromAddresses).Reject? ==>
      (resp == Gate(req, db.templates, fromAddresses).response && sent.None?
      && db.emails == old(db.emails) && db.attachments == old(db.attachments)
      && db.nextEmailId == old(db.nextEmailId) && db.nextAttachmentId == old(db.nextAttachmentId))
    ensures Gate(req, db.templates, fromAddresses).Proceed? ==>
      var p := Gate(req, db.templates, fromAddresses).params;
      var id := old(db.nextEmailId);
      var atts := if outcome.success && req.attachments.Some? then req.attachments.value else [];
      (sent == Some(p)
      && db.emails == old(db.emails) + [EmailRow(id, Record(p, outcome), db.clock)]
      && db.attachments == old(db.attachments) + AttachmentRows(old(db.nextAttachmentId), id, atts, db.clock)
      && db.nextEmailId == id + 1 && db.nextAttachmentId == old(db.nextAttachmentId) + |atts|
      && resp == (if outcome.success then Created(id, outcome.messageId) else SendFailed(outcome.error, id)))
  {
    var content := ResolveContent(db, req);
    if content.None? {
      return TemplateNotFound, None;
    }
    var problem := RunChecks(req, content.value, fromAddresses);
    if problem.Some? {
      return problem.value, None;
    }
    var params := ParamsOf(req, content.value);
    sent := Some(params);
    var emailId := RecordOutcome(db, params, outcome);
    if !outcome.success {
      return SendFailed(outcome.error, emailId), sent;
    }
    return Created(emailId, outcome.messageId), sent;
  }

  /** After a send, exactly one record is added, and it says `sent` exactly when the
      provider reported success. */
  lemma RecordStatus(p: SendEmailParams, outcome: SendEmailResult, id: int, now: int)
    ensures EmailRow(id, Record(p, outcome), now).status == Sent <==> outcome.success
    ensures EmailRow(id, Record(p, outcome), now).status == Failed <==> !outcome.success
  {
  }

  // ---------------------------------------------------------------------------
  // GET / and GET /:id

  datatype ListResponse =
    | InvalidPagination
    | EmailPage(emails: seq<Email>, total: int, page: int, perPage: int, totalPages: int)

  lemma {:induction false} MulMonotone(x: int, y: int, c: nat)
    ensures x <= y ==> x * c <= y * c
  {
    if c > 0 {
      MulMonotone(x, y, c - 1);
      assert x * c == x * (c - 1) + x && y * c == y * (c - 1) + y;
    }
  }

  /** `Math.ceil(total / perPage)` on integers. */
  function TotalPages(total: nat, perPage: int): (n: int)
    requires perPage >= 1
    ensures (n - 1) * perPage < total <= n * perPage
    ensures n >= 0
  {
    var n := (total + perPage - 1) / perPage;
    var rem := (total + perPage - 1) % perPage;
    assert total + perPage - 1 == n * perPage + rem;
    assert (n - 1) * perPage == n * perPage - perPage;
    n
  }

  /** `(page - 1) * perPage`: the rows before the page. */
  function Offset(page: int, perPage: int): (n: nat)
    requires page >= 1 && perPage >= 1
    ensures n == (page - 1) * perPage
  {
    MulMonotone(0, page - 1, perPage);
    (page - 1) * perPage
  }

  /** `GET /?page=&perPage=`: an absent value takes its default (1 and 50). */
  function ListEmails(db: Store, page: Option<int>, perPage: Option<int>): (r: ListResponse)
    reads db
    requires db.Valid()
    ensures var pg := if page.Some? then page.value else 1;
      var pp := if perPage.Some? then perPage.value else 50;
      (r.InvalidPagination? <==> pg < 1 || pp < 1 || pp > 100)
      && (r.EmailPage? ==> (r.page == pg && r.perPage == pp && r.total == |db.emails|
        && r.totalPages == TotalPages(r.total, pp)
        && r.emails == db.GetEmails(pp, Offset(pg, pp))))
  {
    var pg := if page.Some? then page.value else 1;
    var pp := if perPage.Some? then perPage.value else 50;
    if pg < 1 || pp < 1 || pp > 100 then InvalidPagination
    else
      var total := db.TotalEmailsCount();
      EmailPage(db.GetEmails(pp, Offset(pg, pp)), total, pg, pp, TotalPages(total, pp))
  }

  /** Each page holds the rows `(page-1)*perPage` onwards of the newest-first order. */
  lemma ListEmailsPage(db: Store, pg: int, pp: int, k: int)
    requires db.Valid() && 1 <= pg && 1 <= pp <= 100
    requires 0 <= k < |db.emails| && (pg - 1) * pp <= k < pg * pp
    ensures var r := ListEmails(db, Some(pg), Some(pp));
      r.EmailPage? && k - (pg - 1) * pp < |r.emails|
      && r.emails[k - (pg - 1) * pp] == db.emails[|db.emails| - 1 - k]
  {
    MulMonotone(0, pg - 1, pp);
    assert pg * pp == (pg - 1) * pp + pp;
  }

  /** Every row is on exactly the page its position gives, within `totalPages`. */
  lemma EveryRowOnOnePage(db: Store, pp: int, k: int)
    requires db.Valid() && 1 <= pp <= 100 && 0 <= k < |db.emails|
    ensures var pg := k / pp + 1;
      var r := ListEmails(db, Some(pg), Some(pp));
      r.EmailPage? && pg <= r.totalPages && k % pp < |r.emails|
      && r.emails[k % pp] == db.emails[|db.emails| - 1 - k]
  {
    RowPage(k, pp, |db.emails|);
    var offset := Offset(k / pp + 1, pp);
    assert offset + k % pp == k;
  }

  /** Row `k` lies on page `k / pp + 1`, at position `k % pp`, and that page exists. */
  lemma RowPage(k: nat, pp: int, total: nat)
    requires 1 <= pp && k < total
    ensures (k / pp + 1 - 1) * pp <= k < (k / pp + 1) * pp
    ensures k - (k / pp + 1 - 1) * pp == k % pp
    ensures k / pp + 1 <= TotalPages(total, pp)
  {
    var q := k / pp;
    assert k == q * pp + k % pp;
    assert (q + 1) * pp == q * pp + pp;
    var tp := TotalPages(total, pp);
    if q >= tp {
      MulMonotone(tp, q, pp);
    }
  }

  datatype EmailResponse = InvalidEmailId | EmailNotFound | EmailFound(email: Email, attachments: seq<Attachment>)

  /** `GET /:id`; `None` stands for an id that is not a number. */
  function GetEmail(db: Store, id: Option<int>): (r: EmailResponse)
    reads db
    requires db.Valid()
    ensures id.None? <==> r.InvalidEmailId?
    ensures id.Some? ==> (r.EmailNotFound? <==> forall i :: 0 <= i < |db.emails| ==> db.emails[i].id != id.value)
    ensures r.EmailFound? ==> (r.email in db.emails && r.email.id == id.value
      && (forall a :: a in r.attachments <==> a in db.attachments && a.email_id == id.value)
      && (forall a :: multiset(r.attachments)[a] == if a.email_id == id.value then multiset(db.attachments)[a] else 0)
      && AttachmentsOrdered(r.attachments))
  {
    if id.None? then InvalidEmailId
    else
      var email := db.EmailById(id.value);
      if email.None? then EmailNotFound
      else EmailFound(email.value, db.AttachmentsByEmailId(id.value))
  }
}
