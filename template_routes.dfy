/** The `/api/templates` handlers: create, list, read, update and delete over the
    store. The list of variable names travels as a JSON array and is kept in the
    `variables` column as JSON text. A path id that `parseInt` cannot read is `None`. */
module TemplateRoutes {
  import opened JsString
  import opened Types
  import opened Db
  import VariablesJson

  /** A template as the handlers return it: the stored row, `variables` decoded. */
  datatype TemplateView = TemplateView(
    id: int,
    name: string,
    subject: string,
    body_text: Option<string>,
    body_html: Option<string>,
    variables: seq<string>,
    created_at: int,
    updated_at: int)

  datatype TemplateResponse =
    | MissingTemplateFields
    | InvalidTemplateId
    | TemplateNotFound
    | NameExists
    | InternalError
    | TemplateCreated(id: int)
    | Success
    | TemplateList(templates: seq<TemplateView>, total: int)
    | TemplateFound(template: TemplateView)

  function Status(r: TemplateResponse): int
  {
    match r
    case MissingTemplateFields => 400
    case InvalidTemplateId => 400
    case TemplateNotFound => 404
    case NameExists => 409
    case InternalError => 500
    case TemplateCreated(_) => 201
    case Success => 200
    case TemplateList(_, _) => 200
    case TemplateFound(_) => 200
  }

  /** The `error` text of each failure response. */
  function ErrorText(r: TemplateResponse): Option<string>
  {
    match r
    case MissingTemplateFields => Some("Missing required fields: name, subject")
    case InvalidTemplateId => Some("Invalid template ID")
    case TemplateNotFound => Some("Template not found")
    case NameExists => Some("Template name already exists")
    case InternalError => Some("Internal server error")
    case _ => None
  }

  // ---------------------------------------------------------------------------
  // The variables column

  /** What the handlers write into `variables` for a supplied list; a supplied list
      is truthy even when empty, so `[]` is written as the text `[]`. */
  function EncodeVariables(vs: Option<seq<string>>): (r: Option<string>)
    ensures vs.None? <==> r.None?
    ensures r.Some? ==> VariablesJson.Parse(r.value) == Some(vs.value)
  {
    if vs.None? then None
    else
      VariablesJson.StringifyParse(vs.value);
      Some(VariablesJson.Stringify(vs.value))
  }

  /** How the read handlers decode the column: NULL or empty reads as no variables,
      anything else is parsed, and text that does not parse is `None`, where the
      original throws and answers 500. */
  function DecodeVariables(stored: Option<string>): (r: Option<seq<string>>)
    ensures !Truthy(stored) ==> r == Some([])
    ensures forall xs :: stored == Some(VariablesJson.Stringify(xs)) ==> r == Some(xs)
  {
    VariablesJson.StringifyParseAll();
    if Truthy(stored) then VariablesJson.Parse(stored.value) else Some([])
  }

  /** Whatever the handlers write, the read handlers decode to the same list, and a
      missing list reads back as the empty one. */
  lemma DecodeEncoded(vs: Option<seq<string>>)
    ensures DecodeVariables(EncodeVariables(vs)) == Some(if vs.Some? then vs.value else [])
  {
    if vs.Some? {
      assert VariablesJson.Stringify(vs.value) != "";
    }
  }

  /** Turning an empty column into NULL, as the store does, does not change what
      is read back. */
  lemma DecodeNullIfEmpty(stored: Option<string>)
    ensures DecodeVariables(NullIfEmpty(stored)) == DecodeVariables(stored)
  {
  }

  /** Every stored row's column decodes: what the handlers keep true of the store. */
  predicate VariablesDecodable(ts: seq<Template>)
  {
    forall i :: 0 <= i < |ts| ==> DecodeVariables(ts[i].variables).Some?
  }

  function View(t: Template): (r: Option<TemplateView>)
    ensures r.Some? <==> DecodeVariables(t.variables).Some?
    ensures r.Some? ==> r.value == TemplateView(t.id, t.name, t.subject, t.body_text, t.body_html,
      DecodeVariables(t.variables).value, t.created_at, t.updated_at)
  {
    var vs := DecodeVariables(t.variables);
    if vs.None? then None
    else Some(TemplateView(t.id, t.name, t.subject, t.body_text, t.body_html, vs.value, t.created_at, t.updated_at))
  }

  // ---------------------------------------------------------------------------
  // POST /

  /** The row data `POST /` hands to `saveTemplate`. */
  function NewTemplateOf(body: TemplateRequest): (r: NewTemplate)
    requires body.name.Some? && body.subject.Some?
    ensures r.name == body.name.value && r.subject == body.subject.value
    ensures r.body_text == body.text && r.body_html == body.html
    ensures r.variables.Some? <==> body.variables.Some?
    ensures r.variables.Some? ==> VariablesJson.Parse(r.variables.value) == Some(body.variables.value)
  {
    NewTemplate(body.name.value, body.subject.value, body.text, body.html, EncodeVariables(body.variables))
  }

  /** `POST /`: name and subject must be non-empty; a name already in use is a 409
      and leaves the store as it was; otherwise one row is appended. */
  method CreateTemplate(db: Store, body: TemplateRequest) returns (resp: TemplateResponse)
    requires db.Valid()
    modifies db`templates, db`nextTemplateId
    ensures db.Valid()
    ensures VariablesDecodable(old(db.templates)) ==> VariablesDecodable(db.templates)
    ensures !Truthy(body.name) || !Truthy(body.subject) ==>
      resp == MissingTemplateFields && db.templates == old(db.templates) && db.nextTemplateId == old(db.nextTemplateId)
    ensures Truthy(body.name) && Truthy(body.subject) ==>
      (resp == NameExists <==> NameTaken(old(db.templates), body.name.value, old(db.nextTemplateId)))
    ensures resp == NameExists ==> db.templates == old(db.templates) && db.nextTemplateId == old(db.nextTemplateId)
    ensures resp.TemplateCreated? ==> (resp.id == old(db.nextTemplateId) && db.nextTemplateId == resp.id + 1
      && db.templates == old(db.templates) + [TemplateRow(resp.id, NewTemplateOf(body), db.clock)])
    ensures resp in {MissingTemplateFields, NameExists} || resp.TemplateCreated?
  {
    if !Truthy(body.name) || !Truthy(body.subject) {
      return MissingTemplateFields;
    }
    var t := NewTemplateOf(body);
    ghost var before := db.templates;
    var r := db.SaveTemplate(t);
    if r.Err? {
      return NameExists;
    }
    DecodeEncoded(body.variables);
    DecodeNullIfEmpty(t.variables);
    assert DecodeVariables(TemplateRow(r.value, t, db.clock).variables).Some?;
    assert forall i :: 0 <= i < |before| ==> db.templates[i] == before[i];
    resp := TemplateCreated(r.value);
  }

  /** The row `POST /` creates reads back with the name, subject and variables the
      client sent; empty bodies read back as NULL. */
  lemma CreatedRowView(id: int, body: TemplateRequest, now: int)
    requires body.name.Some? && body.subject.Some?
    ensures View(TemplateRow(id, NewTemplateOf(body), now)) == Some(TemplateView(
      id, body.name.value, body.subject.value, NullIfEmpty(body.text), NullIfEmpty(body.html),
      if body.variables.Some? then body.variables.value else [], now, now))
  {
    DecodeEncoded(body.variables);
    DecodeNullIfEmpty(EncodeVariables(body.variables));
  }

  // ---------------------------------------------------------------------------
  // GET / and GET /:id

  /** Decodes every row, failing as a whole when one row's column does not parse. */
  function ViewAll(ts: seq<Template>): (r: Option<seq<TemplateView>>)
    ensures r.Some? <==> VariablesDecodable(ts)
    ensures r.Some? ==> |r.value| == |ts| && forall i :: 0 <= i < |ts| ==> Some(r.value[i]) == View(ts[i])
  {
    if ts == [] then Some([])
    else
      var head := View(ts[0]);
      var tail := ViewAll(ts[1..]);
      if head.None? then None
      else if tail.None? then
        assert !VariablesDecodable(ts) by {
          var k :| 0 <= k < |ts[1..]| && DecodeVariables(ts[1..][k].variables).None?;
          assert ts[k + 1] == ts[1..][k];
        }
        None
      else
        var r := [head.value] + tail.value;
        assert forall i :: 0 <= i < |ts| ==> Some(r[i]) == View(ts[i]) by {
          forall i | 0 <= i < |ts| ensures Some(r[i]) == View(ts[i]) {
            if i > 0 { assert ts[i] == ts[1..][i - 1]; }
          }
        }
        Some(r)
  }

  /** `GET /`: every template newest first with its variables decoded, and their
      number; a column that does not parse makes it a 500. */
  function ListTemplates(db: Store): (r: TemplateResponse)
    reads db
    requires db.Valid()
    ensures r.TemplateList? || r == InternalError
    ensures r == InternalError <==> !VariablesDecodable(db.Templates())
    ensures r.TemplateList? ==> (r.total == |r.templates| == |db.templates|
      && forall i :: 0 <= i < |r.templates| ==> Some(r.templates[i]) == View(db.Templates()[i]))
  {
    var vs := ViewAll(db.Templates());
    if vs.None? then InternalError else TemplateList(vs.value, |vs.value|)
  }

  /** Rows written through these handlers always decode, so listing them never
      takes the 500 path. */
  lemma ListDecodable(db: Store)
    requires db.Valid() && VariablesDecodable(db.templates)
    ensures ListTemplates(db).TemplateList?
  {
    var ts := db.Templates();
    forall i | 0 <= i < |ts| ensures DecodeVariables(ts[i].variables).Some? {
      assert ts[i] in db.templates;
    }
  }

  /** `GET /:id`. */
  function GetTemplate(db: Store, id: Option<int>): (r: TemplateResponse)
    reads db
    requires db.Valid()
    ensures id.None? <==> r == InvalidTemplateId
    ensures id.Some? ==> (r == TemplateNotFound <==> db.TemplateById(id.value).None?)
    ensures r.TemplateFound? ==> Some(r.template) == View(db.TemplateById(id.value).value)
    ensures r in {InvalidTemplateId, TemplateNotFound, InternalError} || r.TemplateFound?
  {
    if id.None? then InvalidTemplateId
    else
      var t := db.TemplateById(id.value);
      if t.None? then TemplateNotFound
      else
        var v := View(t.value);
        if v.None? then InternalError else TemplateFound(v.value)
  }

  // ---------------------------------------------------------------------------
  // PUT /:id and DELETE /:id

  /** The patch `PUT /:id` builds: a field is set exactly when the body has it. */
  function UpdateDataOf(body: TemplateRequest): (p: TemplatePatch)
    ensures p.name == body.name && p.subject == body.subject
    ensures p.body_text == body.text && p.body_html == body.html
    ensures p.variables.Some? <==> body.variables.Some?
    ensures p.variables.Some? ==> VariablesJson.Parse(p.variables.value) == Some(body.variables.value)
  {
    TemplatePatch(body.name, body.subject, body.text, body.html, EncodeVariables(body.variables))
  }

  /** `PUT /:id`. */
  method UpdateTemplate(db: Store, id: Option<int>, body: TemplateRequest) returns (resp: TemplateResponse)
    requires db.Valid()
    modifies db`templates
    ensures db.Valid()
    ensures VariablesDecodable(old(db.templates)) ==> VariablesDecodable(db.templates)
    ensures id.None? ==> resp == InvalidTemplateId && db.templates == old(db.templates)
    ensures id.Some? && old(db.TemplateById(id.value)).None? ==>
      resp == TemplateNotFound && db.templates == old(db.templates)
    ensures id.Some? && old(db.TemplateById(id.value)).Some? ==>
      var newName := if body.name.Some? then body.name.value else old(db.TemplateById(id.value)).value.name;
      (resp == NameExists <==> NameTaken(old(db.templates), newName, id.value))
      && (resp == NameExists ==> db.templates == old(db.templates))
      && (resp != NameExists ==> (resp == Success
        && |db.templates| == |old(db.templates)|
        && forall i :: 0 <= i < |db.templates| ==>
          (db.templates[i] == if old(db.templates)[i].id == id.value
            then PatchedRow(old(db.templates)[i], UpdateDataOf(body), db.clock)
            else old(db.templates)[i])))
  {
    if id.None? {
      return InvalidTemplateId;
    }
    var p := UpdateDataOf(body);
    ghost var before := db.templates;
    var r := db.UpdateTemplateById(id.value, p);
    if r.Err? {
      return NameExists;
    }
    if !r.value {
      return TemplateNotFound;
    }
    forall i | 0 <= i < |db.templates| ensures DecodeVariables(db.templates[i].variables).Some? || !VariablesDecodable(before) {
      if before[i].id == id.value && VariablesDecodable(before) {
        DecodeEncoded(body.variables);
        DecodeNullIfEmpty(before[i].variables);
      }
    }
    resp := Success;
  }

  /** `DELETE /:id`. */
  method DeleteTemplate(db: Store, id: Option<int>) returns (resp: TemplateResponse)
    requires db.Valid()
    modifies db`templates
    ensures db.Valid()
    ensures VariablesDecodable(old(db.templates)) ==> VariablesDecodable(db.templates)
    ensures id.None? ==> resp == InvalidTemplateId && db.templates == old(db.templates)
    ensures id.Some? ==> (db.templates == RemoveTemplate(old(db.templates), id.value)
      && (resp == Success <==> old(db.TemplateById(id.value)).Some?)
      && (resp != Success ==> resp == TemplateNotFound))
  {
    if id.None? {
      return InvalidTemplateId;
    }
    ghost var before := db.templates;
    var removed := db.DeleteTemplateById(id.value);
    forall i | 0 <= i < |db.templates| ensures db.templates[i] in before {
      assert db.templates[i] in db.templates;
    }
    resp := if removed then Success else TemplateNotFound;
  }
}
