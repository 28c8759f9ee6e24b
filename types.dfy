/** The records the backend stores and exchanges. A field the original declares
    optional, or a column that may hold NULL, is an `Option`. */
module Types {
  import opened JsString

  datatype Status = Sent | Failed | Pending

  /** A row of the `emails` table; `created_at` is the clock reading at insertion. */
  datatype Email = Email(
    id: int,
    from_address: string,
    to_address: string,
    subject: string,
    body_text: Option<string>,
    body_html: Option<string>,
    status: Status,
    email_id: Option<string>,
    error_message: Option<string>,
    created_at: int)

  /** What `saveEmail` is given: an email without `id` and `created_at`. */
  datatype NewEmail = NewEmail(
    from_address: string,
    to_address: string,
    subject: string,
    body_text: Option<string>,
    body_html: Option<string>,
    status: Status,
    email_id: Option<string>,
    error_message: Option<string>)

  /** A row of the `attachments` table. */
  datatype Attachment = Attachment(
    id: int,
    email_id: int,
    filename: string,
    content_type: string,
    size: int,
    file_path: string,
    created_at: int)

  datatype NewAttachment = NewAttachment(
    email_id: int,
    filename: string,
    content_type: string,
    size: int,
    file_path: string)

  /** A row of the `templates` table; `variables` holds a JSON list of names. */
  datatype Template = Template(
    id: int,
    name: string,
    subject: string,
    body_text: Option<string>,
    body_html: Option<string>,
    variables: Option<string>,
    created_at: int,
    updated_at: int)

  datatype NewTemplate = NewTemplate(
    name: string,
    subject: string,
    body_text: Option<string>,
    body_html: Option<string>,
    variables: Option<string>)

  /** `Partial<Template>`: `None` is a field left undefined. */
  datatype TemplatePatch = TemplatePatch(
    name: Option<string>,
    subject: Option<string>,
    body_text: Option<string>,
    body_html: Option<string>,
    variables: Option<string>)

  /** An attachment as the client sends it; `content` is base64 text. */
  datatype AttachmentData = AttachmentData(filename: string, content: string, contentType: string)

  /** The body of `POST /api/emails`; every field may be missing from the JSON. */
  datatype SendEmailRequest = SendEmailRequest(
    from: Option<string>,
    to: Option<string>,
    subject: Option<string>,
    text: Option<string>,
    html: Option<string>,
    attachments: Option<seq<AttachmentData>>,
    templateId: Option<int>,
    variables: Option<map<string, string>>)

  /** What the pipeline hands to the email provider. */
  datatype SendEmailParams = SendEmailParams(
    from: string,
    to: string,
    subject: string,
    text: Option<string>,
    html: Option<string>,
    attachments: Option<seq<AttachmentData>>)

  /** What the provider reports back. */
  datatype SendEmailResult = SendEmailResult(success: bool, messageId: Option<string>, error: Option<string>)

  /** The bodies of `POST /api/templates` and `PUT /api/templates/:id`. */
  datatype TemplateRequest = TemplateRequest(
    name: Option<string>,
    subject: Option<string>,
    text: Option<string>,
    html: Option<string>,
    variables: Option<seq<string>>)
}
