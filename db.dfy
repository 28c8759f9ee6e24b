/** The SQLite store as three in-memory tables. Each table keeps its rows in
    insertion order together with its AUTOINCREMENT counter, so ids start at 1,
    grow with every insert and are never reused. `clock` stands for
    `CURRENT_TIMESTAMP`: it never goes back, and rows take its reading when
    inserted or updated. */
module Db {
  import opened JsString
  import opened Types

  datatype DbError = UniqueConstraintFailed
  datatype Result<T> = Ok(value: T) | Err(error: DbError)

  // ---------------------------------------------------------------------------
  // Table helpers

  function Reverse<T>(s: seq<T>): (r: seq<T>)
    ensures |r| == |s|
    ensures forall i :: 0 <= i < |s| ==> r[i] == s[|s| - 1 - i]
  {
    if s == [] then [] else Reverse(s[1..]) + [s[0]]
  }

  lemma ReverseMembers<T>(s: seq<T>, x: T)
    ensures x in Reverse(s) <==> x in s
  {
    var r := Reverse(s);
    if x in s {
      var i :| 0 <= i < |s| && s[i] == x;
      assert r[|s| - 1 - i] == x;
    }
  }

  /** `LIMIT limit OFFSET offset` over an ordered result. */
  function Window<T>(s: seq<T>, limit: nat, offset: nat): (r: seq<T>)
    ensures |r| == if offset >= |s| then 0 else if limit < |s| - offset then limit else |s| - offset
    ensures forall i :: 0 <= i < |r| ==> r[i] == s[offset + i]
  {
    if offset >= |s| then []
    else if limit < |s| - offset then s[offset..offset + limit]
    else s[offset..]
  }

  /** Rows in insertion order: ids increase and timestamps never decrease. */
  predicate EmailsOrdered(es: seq<Email>)
  {
    forall i, j :: 0 <= i < j < |es| ==> es[i].id < es[j].id && es[i].created_at <= es[j].created_at
  }

  predicate EmailsBounded(es: seq<Email>, next: int, clock: int)
  {
    forall i :: 0 <= i < |es| ==> 1 <= es[i].id < next && 0 <= es[i].created_at <= clock
  }

  predicate AttachmentsOrdered(as_: seq<Attachment>)
  {
    forall i, j :: 0 <= i < j < |as_| ==> as_[i].id < as_[j].id && as_[i].created_at <= as_[j].created_at
  }

  predicate AttachmentsBounded(as_: seq<Attachment>, next: int, clock: int)
  {
    forall i :: 0 <= i < |as_| ==> 1 <= as_[i].id < next && 0 <= as_[i].created_at <= clock
  }

  predicate TemplatesOrdered(ts: seq<Template>)
  {
    forall i, j :: 0 <= i < j < |ts| ==> ts[i].id < ts[j].id && ts[i].created_at <= ts[j].created_at
  }

  predicate TemplatesBounded(ts: seq<Template>, next: int, clock: int)
  {
    forall i :: 0 <= i < |ts| ==>
      1 <= ts[i].id < next && 0 <= ts[i].created_at <= clock && ts[i].updated_at <= clock
  }

  /** The `UNIQUE` constraint on `templates.name`. */
  predicate NamesUnique(ts: seq<Template>)
  {
    forall i, j :: 0 <= i < j < |ts| ==> ts[i].name != ts[j].name
  }

  /** Some row other than the one with id `except` holds `name`. */
  predicate NameTaken(ts: seq<Template>, name: string, except: int)
  {
    exists i :: 0 <= i < |ts| && ts[i].name == name && ts[i].id != except
  }

  function FindEmail(es: seq<Email>, id: int): (r: Option<Email>)
    ensures r.Some? <==> exists i :: 0 <= i < |es| && es[i].id == id
    ensures r.Some? ==> r.value in es && r.value.id == id
  {
    if es == [] then None
    else if es[0].id == id then Some(es[0])
    else FindEmail(es[1..], id)
  }

  function FindTemplate(ts: seq<Template>, id: int): (k: Option<nat>)
    ensures k.Some? <==> exists i :: 0 <= i < |ts| && ts[i].id == id
    ensures k.Some? ==> k.value < |ts| && ts[k.value].id == id
  {
    if ts == [] then None
    else if ts[0].id == id then Some(0)
    else
      var k := FindTemplate(ts[1..], id);
      if k.Some? then Some(k.value + 1) else None
  }

  /** The row with that id, if any. */
  function TemplateWithId(ts: seq<Template>, id: int): (r: Option<Template>)
    ensures r.Some? <==> exists i :: 0 <= i < |ts| && ts[i].id == id
    ensures r.Some? ==> r.value in ts && r.value.id == id
  {
    var k := FindTemplate(ts, id);
    if k.None? then None else Some(ts[k.value])
  }

  /** Rewriting one row in place, keeping its id and creation time and taking a
      name no other row holds, keeps the table's invariants and touches only the
      row with that id. */
  lemma ReplaceTemplateRow(ts: seq<Template>, k: nat, row: Template, next: int, clock: int)
    requires TemplatesOrdered(ts) && TemplatesBounded(ts, next, clock) && NamesUnique(ts)
    requires k < |ts| && row.id == ts[k].id && row.created_at == ts[k].created_at && row.updated_at <= clock
    requires !NameTaken(ts, row.name, row.id)
    ensures TemplatesOrdered(ts[k := row]) && TemplatesBounded(ts[k := row], next, clock)
    ensures NamesUnique(ts[k := row])
    ensures forall i :: 0 <= i < |ts| ==> ts[k := row][i] == if ts[i].id == row.id then row else ts[i]
  {
    var ts' := ts[k := row];
    forall i | 0 <= i < |ts| && i != k ensures ts[i].id != row.id && ts'[i] == ts[i] {
      assert ts[i].id != ts[k].id;
    }
    forall i, j | 0 <= i < j < |ts'| ensures ts'[i].name != ts'[j].name {
      if i == k {
        assert ts[j].id != row.id;
      } else if j == k {
        assert ts[i].id != row.id;
      }
    }
  }

  lemma TemplateIdsUnique(ts: seq<Template>, a: Template, b: Template)
    requires TemplatesOrdered(ts) && a in ts && b in ts && a.id == b.id
    ensures a == b
  {
    var i :| 0 <= i < |ts| && ts[i] == a;
    var j :| 0 <= j < |ts| && ts[j] == b;
    assert i == j;
  }

  /** `WHERE email_id = ?` over the attachments table. */
  function FilterAttachments(as_: seq<Attachment>, emailId: int): (r: seq<Attachment>)
    ensures forall a :: a in r <==> a in as_ && a.email_id == emailId
    ensures |r| <= |as_|
  {
    if as_ == [] then []
    else if as_[0].email_id == emailId then [as_[0]] + FilterAttachments(as_[1..], emailId)
    else FilterAttachments(as_[1..], emailId)
  }

  /** The filter keeps each matching row as often as the table holds it, and no other row. */
  lemma {:induction false} FilterAttachmentsCounts(as_: seq<Attachment>, emailId: int)
    ensures forall a :: (multiset(FilterAttachments(as_, emailId))[a]
      == if a.email_id == emailId then multiset(as_)[a] else 0)
  {
    if as_ != [] {
      FilterAttachmentsCounts(as_[1..], emailId);
      assert as_ == [as_[0]] + as_[1..];
      assert multiset(as_) == multiset{as_[0]} + multiset(as_[1..]);
    }
  }

  /** The filter keeps the table's id order, so no row appears twice. */
  lemma {:induction false} FilterAttachmentsOrdered(as_: seq<Attachment>, emailId: int)
    requires AttachmentsOrdered(as_)
    ensures AttachmentsOrdered(FilterAttachments(as_, emailId))
  {
    if as_ != [] {
      var rest := FilterAttachments(as_[1..], emailId);
      assert AttachmentsOrdered(as_[1..]) by {
        forall i, j | 0 <= i < j < |as_[1..]|
          ensures as_[1..][i].id < as_[1..][j].id && as_[1..][i].created_at <= as_[1..][j].created_at
        {
          assert as_[1..][i] == as_[i + 1] && as_[1..][j] == as_[j + 1];
        }
      }
      FilterAttachmentsOrdered(as_[1..], emailId);
      forall j | 0 <= j < |rest| ensures as_[0].id < rest[j].id && as_[0].created_at <= rest[j].created_at {
        assert rest[j] in as_[1..];
        var k :| 0 <= k < |as_[1..]| && as_[1..][k] == rest[j];
        assert as_[k + 1] == rest[j];
      }
    }
  }

  function RemoveTemplate(ts: seq<Template>, id: int): (r: seq<Template>)
    ensures forall t :: t in r <==> t in ts && t.id != id
    ensures |r| <= |ts|
  {
    if ts == [] then []
    else if ts[0].id == id then RemoveTemplate(ts[1..], id)
    else [ts[0]] + RemoveTemplate(ts[1..], id)
  }

  /** Every survivor of a delete keeps the bounds that held for every row. */
  lemma {:induction false} RemoveTemplateAbove(ts: seq<Template>, id: int, minId: int, minTime: int)
    requires forall k :: 0 <= k < |ts| ==> minId < ts[k].id && minTime <= ts[k].created_at
    ensures forall k :: 0 <= k < |RemoveTemplate(ts, id)| ==>
      minId < RemoveTemplate(ts, id)[k].id && minTime <= RemoveTemplate(ts, id)[k].created_at
  {
    if ts != [] {
      RemoveTemplateAbove(ts[1..], id, minId, minTime);
    }
  }

  /** Deleting rows keeps the survivors in their order. */
  lemma {:induction false} RemoveTemplateOrdered(ts: seq<Template>, id: int)
    requires TemplatesOrdered(ts)
    ensures TemplatesOrdered(RemoveTemplate(ts, id))
  {
    if ts != [] {
      var rest := ts[1..];
      assert TemplatesOrdered(rest);
      RemoveTemplateOrdered(rest, id);
      if ts[0].id != id {
        var r := RemoveTemplate(rest, id);
        RemoveTemplateAbove(rest, id, ts[0].id, ts[0].created_at);
        var r2 := [ts[0]] + r;
        assert forall j :: 0 < j < |r2| ==> r2[j] == r[j - 1];
      }
    }
  }

  /** The row written for a new email: empty optional texts become NULL. */
  function EmailRow(id: int, e: NewEmail, now: int): (r: Email)
    ensures r.id == id && r.created_at == now
    ensures r.from_address == e.from_address && r.to_address == e.to_address
    ensures r.subject == e.subject && r.status == e.status
    ensures r.body_text == NullIfEmpty(e.body_text) && r.body_html == NullIfEmpty(e.body_html)
    ensures r.email_id == NullIfEmpty(e.email_id) && r.error_message == NullIfEmpty(e.error_message)
  {
    Email(id, e.from_address, e.to_address, e.subject, NullIfEmpty(e.body_text), NullIfEmpty(e.body_html),
      e.status, NullIfEmpty(e.email_id), NullIfEmpty(e.error_message), now)
  }

  function AttachmentRow(id: int, a: NewAttachment, now: int): Attachment
  {
    Attachment(id, a.email_id, a.filename, a.content_type, a.size, a.file_path, now)
  }

  function TemplateRow(id: int, t: NewTemplate, now: int): (r: Template)
    ensures r.id == id && r.name == t.name && r.subject == t.subject
    ensures r.body_text == NullIfEmpty(t.body_text) && r.body_html == NullIfEmpty(t.body_html)
    ensures r.variables == NullIfEmpty(t.variables)
    ensures r.created_at == now && r.updated_at == now
  {
    Template(id, t.name, t.subject, NullIfEmpty(t.body_text), NullIfEmpty(t.body_html), NullIfEmpty(t.variables), now, now)
  }

  /** The row `updateTemplateById` writes: a supplied field replaces the stored one as
      it is; a field left undefined keeps the stored value, an empty one becoming NULL. */
  function PatchedRow(old_: Template, p: TemplatePatch, now: int): (r: Template)
    ensures r.id == old_.id && r.created_at == old_.created_at && r.updated_at == now
    ensures r.name == (if p.name.Some? then p.name.value else old_.name)
    ensures r.subject == (if p.subject.Some? then p.subject.value else old_.subject)
    ensures r.body_text == (if p.body_text.Some? then p.body_text else NullIfEmpty(old_.body_text))
    ensures r.body_html == (if p.body_html.Some? then p.body_html else NullIfEmpty(old_.body_html))
    ensures r.variables == (if p.variables.Some? then p.variables else NullIfEmpty(old_.variables))
  {
    Template(old_.id,
      if p.name.Some? then p.name.value else old_.name,
      if p.subject.Some? then p.subject.value else old_.subject,
      if p.body_text.Some? then p.body_text else NullIfEmpty(old_.body_text),
      if p.body_html.Some? then p.body_html else NullIfEmpty(old_.body_html),
      if p.variables.Some? then p.variables else NullIfEmpty(old_.variables),
      old_.created_at, now)
  }

  /** An empty patch rewrites only the timestamp. */
  lemma EmptyPatchKeepsFields(t: Template, now: int)
    requires t.body_text != Some("") && t.body_html != Some("") && t.variables != Some("")
    ensures PatchedRow(t, TemplatePatch(None, None, None, None, None), now) == t.(updated_at := now)
  {
  }

  // ---------------------------------------------------------------------------
  // The store

  class Store {
    var emails: seq<Email>
    var attachments: seq<Attachment>
    var templates: seq<Template>
    var nextEmailId: int
    var nextAttachmentId: int
    var nextTemplateId: int
    var clock: nat

    /** Ids grow with insertion order and stay below their counter; timestamps never
        decrease along insertion order and never pass the clock; names are unique. */
    ghost predicate Valid()
      reads this
    {
      && 1 <= nextEmailId && 1 <= nextAttachmentId && 1 <= nextTemplateId
      && EmailsOrdered(emails) && EmailsBounded(emails, nextEmailId, clock)
      && AttachmentsOrdered(attachments) && AttachmentsBounded(attachments, nextAttachmentId, clock)
      && TemplatesOrdered(templates) && TemplatesBounded(templates, nextTemplateId, clock)
      && NamesUnique(templates)
    }

    constructor ()
      ensures Valid()
      ensures emails == [] && attachments == [] && templates == []
      ensures nextEmailId == 1 && nextAttachmentId == 1 && nextTemplateId == 1 && clock == 0
    {
      emails, attachments, templates := [], [], [];
      nextEmailId, nextAttachmentId, nextTemplateId := 1, 1, 1;
      clock := 0;
    }

    /** Time passes between requests. */
    method AdvanceClock(dt: nat)
      requires Valid()
      modifies this`clock
      ensures Valid() && clock == old(clock) + dt
    {
      clock := clock + dt;
    }

    /** `saveEmail`: inserts one row and returns its id, which no earlier row has. */
    method SaveEmail(e: NewEmail) returns (id: int)
      requires Valid()
      modifies this`emails, this`nextEmailId
      ensures Valid()
      ensures id == old(nextEmailId) && nextEmailId == id + 1
      ensures emails == old(emails) + [EmailRow(id, e, clock)]
      ensures forall r :: r in old(emails) ==> r.id < id
    {
      id := nextEmailId;
      ghost var before := emails;
      emails := emails + [EmailRow(id, e, clock)];
      nextEmailId := nextEmailId + 1;
    }

    /** `getEmails(limit, offset)`: a page of the table, newest first. */
    function GetEmails(limit: nat, offset: nat): (r: seq<Email>)
      reads this
      requires Valid()
      ensures |r| == if offset >= |emails| then 0
        else if limit < |emails| - offset then limit else |emails| - offset
      ensures forall i :: 0 <= i < |r| ==> r[i] == emails[|emails| - 1 - (offset + i)]
      ensures forall i, j :: 0 <= i < j < |r| ==> r[i].created_at >= r[j].created_at
    {
      Window(Reverse(emails), limit, offset)
    }

    /** `getTotalEmailsCount`. */
    function TotalEmailsCount(): (n: nat)
      reads this
      ensures n == |emails|
    {
      |emails|
    }

    /** A page as large as the table, without offset, lists every row once. */
    lemma FullPageListsAll(limit: nat)
      requires Valid() && limit >= TotalEmailsCount()
      ensures |GetEmails(limit, 0)| == TotalEmailsCount()
      ensures forall e :: e in emails <==> e in GetEmails(limit, 0)
    {
      var r := GetEmails(limit, 0);
      forall e | e in emails ensures e in r {
        var i :| 0 <= i < |emails| && emails[i] == e;
        assert r[|emails| - 1 - i] == e;
      }
    }

    /** `getEmailById`: the row with that id, or nothing; ids are unique. */
    function EmailById(id: int): (r: Option<Email>)
      reads this
      requires Valid()
      ensures r.Some? <==> exists i :: 0 <= i < |emails| && emails[i].id == id
      ensures r.Some? ==> r.value in emails && r.value.id == id
      ensures r.Some? ==> forall e :: e in emails && e.id == id ==> e == r.value
    {
      var r := FindEmail(emails, id);
      assert r.Some? ==> forall e :: e in emails && e.id == id ==> e == r.value by {
        if r.Some? {
          forall e | e in emails && e.id == id ensures e == r.value {
            var i :| 0 <= i < |emails| && emails[i] == e;
            var j :| 0 <= j < |emails| && emails[j] == r.value;
            assert i == j;
          }
        }
      }
      r
    }

    /** `saveAttachment`. */
    method SaveAttachment(a: NewAttachment) returns (id: int)
      requires Valid()
      modifies this`attachments, this`nextAttachmentId
      ensures Valid()
      ensures id == old(nextAttachmentId) && nextAttachmentId == id + 1
      ensures attachments == old(attachments) + [AttachmentRow(id, a, clock)]
      ensures forall r :: r in old(attachments) ==> r.id < id
    {
      id := nextAttachmentId;
      ghost var before := attachments;
      attachments := attachments + [AttachmentRow(id, a, clock)];
      nextAttachmentId := nextAttachmentId + 1;
    }

    /** `getAttachmentsByEmailId`: exactly the attachments linked to that email. */
    function AttachmentsByEmailId(emailId: int): (r: seq<Attachment>)
      reads this
      ensures forall a :: a in r <==> a in attachments && a.email_id == emailId
      ensures forall a :: multiset(r)[a] == if a.email_id == emailId then multiset(attachments)[a] else 0
      ensures AttachmentsOrdered(attachments) ==> AttachmentsOrdered(r)
    {
      FilterAttachmentsCounts(attachments, emailId);
      assert AttachmentsOrdered(attachments) ==> AttachmentsOrdered(FilterAttachments(attachments, emailId)) by {
        if AttachmentsOrdered(attachments) { FilterAttachmentsOrdered(attachments, emailId); }
      }
      FilterAttachments(attachments, emailId)
    }

    /** `saveTemplate`: fails on a name already present and then changes nothing. */
    method SaveTemplate(t: NewTemplate) returns (r: Result<int>)
      requires Valid()
      modifies this`templates, this`nextTemplateId
      ensures Valid()
      ensures r.Err? <==> NameTaken(old(templates), t.name, old(nextTemplateId))
      ensures r.Err? ==> templates == old(templates) && nextTemplateId == old(nextTemplateId)
      ensures r.Ok? ==> (r.value == old(nextTemplateId) && nextTemplateId == r.value + 1
        && templates == old(templates) + [TemplateRow(r.value, t, clock)])
    {
      if exists i :: 0 <= i < |templates| && templates[i].name == t.name {
        r := Err(UniqueConstraintFailed);
        ghost var i :| 0 <= i < |templates| && templates[i].name == t.name;
        return;
      }
      var id := nextTemplateId;
      ghost var before := templates;
      templates := templates + [TemplateRow(id, t, clock)];
      nextTemplateId := nextTemplateId + 1;
      r := Ok(id);
    }

    /** `getTemplates`: every template, newest first. */
    function Templates(): (r: seq<Template>)
      reads this
      requires Valid()
      ensures |r| == |templates|
      ensures forall t :: t in r <==> t in templates
      ensures forall i, j :: 0 <= i < j < |r| ==> r[i].created_at >= r[j].created_at
    {
      var r := Reverse(templates);
      assert forall t :: t in r <==> t in templates by {
        forall t ensures t in r <==> t in templates { ReverseMembers(templates, t); }
      }
      r
    }

    /** `getTemplateById`. */
    function TemplateById(id: int): (r: Option<Template>)
      reads this
      requires Valid()
      ensures r.Some? <==> exists i :: 0 <= i < |templates| && templates[i].id == id
      ensures r.Some? ==> r.value in templates && r.value.id == id
      ensures r.Some? ==> forall t :: t in templates && t.id == id ==> t == r.value
    {
      var r := TemplateWithId(templates, id);
      assert r.Some? ==> forall t :: t in templates && t.id == id ==> t == r.value by {
        if r.Some? {
          forall t | t in templates && t.id == id ensures t == r.value {
            TemplateIdsUnique(templates, t, r.value);
          }
        }
      }
      r
    }

    /** `updateTemplateById`: false and no change for a missing id; a new name that
        another row holds fails and changes nothing; otherwise that one row is
        rewritten in place and every other row stays as it was. */
    method UpdateTemplateById(id: int, p: TemplatePatch) returns (r: Result<bool>)
      requires Valid()
      modifies this`templates
      ensures Valid()
      ensures old(TemplateById(id)).None? ==> r == Ok(false) && templates == old(templates)
      ensures old(TemplateById(id)).Some? ==>
        var newName := if p.name.Some? then p.name.value else old(TemplateById(id)).value.name;
        (r.Err? <==> NameTaken(old(templates), newName, id))
        && (r.Err? ==> templates == old(templates))
        && (r.Ok? ==> (r == Ok(true)
          && |templates| == |old(templates)|
          && forall i :: 0 <= i < |templates| ==>
            (templates[i] == if old(templates)[i].id == id then PatchedRow(old(templates)[i], p, clock) else old(templates)[i])))
    {
      var k := FindTemplate(templates, id);
      if k.None? {
        return Ok(false);
      }
      var existing := templates[k.value];
      var row := PatchedRow(existing, p, clock);
      if NameTaken(templates, row.name, id) {
        return Err(UniqueConstraintFailed);
      }
      ReplaceTemplateRow(templates, k.value, row, nextTemplateId, clock);
      templates := templates[k.value := row];
      r := Ok(true);
    }

    /** `deleteTemplateById`: true exactly when a row with that id existed; afterwards
        none does and the other rows remain in order. */
    method DeleteTemplateById(id: int) returns (removed: bool)
      requires Valid()
      modifies this`templates
      ensures Valid()
      ensures removed <==> exists i :: 0 <= i < |old(templates)| && old(templates)[i].id == id
      ensures templates == RemoveTemplate(old(templates), id)
      ensures forall t :: t in templates <==> t in old(templates) && t.id != id
    {
      removed := FindTemplate(templates, id).Some?;
      ghost var before := templates;
      templates := RemoveTemplate(templates, id);
      RemoveTemplateOrdered(before, id);
      forall i | 0 <= i < |templates|
        ensures 1 <= templates[i].id < nextTemplateId
        ensures 0 <= templates[i].created_at <= clock && templates[i].updated_at <= clock
      {
        var k :| 0 <= k < |before| && before[k] == templates[i];
      }
      assert NamesUnique(templates) by {
        RemoveKeepsUnique(before, id);
      }
    }
  }

  lemma {:induction false} RemoveKeepsUnique(ts: seq<Template>, id: int)
    requires NamesUnique(ts)
    ensures NamesUnique(RemoveTemplate(ts, id))
  {
    if ts != [] {
      RemoveKeepsUnique(ts[1..], id);
      assert NamesUnique(ts[1..]) by {
        forall i, j | 0 <= i < j < |ts[1..]| ensures ts[1..][i].name != ts[1..][j].name {
          assert ts[1..][i] == ts[i + 1] && ts[1..][j] == ts[j + 1];
        }
      }
      var r := RemoveTemplate(ts[1..], id);
      if ts[0].id != id {
        forall j | 0 <= j < |r| ensures ts[0].name != r[j].name {
          var k :| 0 <= k < |ts[1..]| && ts[1..][k] == r[j];
          assert ts[k + 1] == r[j];
        }
        var r2 := [ts[0]] + r;
        forall i, j | 0 <= i < j < |r2| ensures r2[i].name != r2[j].name {
          if i > 0 { assert r2[i] == r[i - 1] && r2[j] == r[j - 1]; }
          else { assert r2[j] == r[j - 1]; }
        }
      }
    }
  }
}
