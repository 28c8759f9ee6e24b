# quick-mailer, modelled in Dafny

quick-mailer is a small email-sending service. A Hono backend sends mail through Resend or
SMTP and records every send in SQLite. It keeps reusable `{{variable}}` templates and
checks uploaded attachments. A React client edits templates and retries failed API calls.

This project models the decision-making core of that system and proves what it promises.
Each module follows one source file.

| module | file | models |
|---|---|---|
| `JsString` | `js_string.dfy` | the JavaScript string primitives the code calls: truthiness, `\|\|` defaults, ASCII `toLowerCase`, `length` in UTF-16 code units, `trim`, `split`, `includes`, `endsWith`, number formatting, `parseInt` |
| `Types` | `types.dfy` | the stored rows and request bodies of `backend/src/types.ts` |
| `TemplateText` | `template_text.dfy` | `backend/src/utils/template.ts`: the `/\{\{(\w+)\}\}/g` scan, substitution and insertion-ordered variable extraction |
| `VariablesJson` | `variables_json.dfy` | `JSON.stringify` and `JSON.parse` on a list of strings, for the templates' `variables` column |
| `FileValidation` | `file_validation.dfy` | `backend/src/utils/fileValidation.ts` |
| `Db` | `db.dfy` | `backend/src/db.ts`: a `Store` class holding the three tables as sequences, with an AUTOINCREMENT counter per table and a clock standing for `CURRENT_TIMESTAMP` |
| `EmailRoutes` | `email_routes.dfy` | `backend/src/routes/emails.ts` (the HEAD side of its merge conflict) |
| `TemplateRoutes` | `template_routes.dfy` | `backend/src/routes/templates.ts` |
| `EmailFactory` | `email_factory.dfy` | `backend/src/services/email/factory.ts`, as a function from the environment map |
| `ApiHelpers` | `api_helpers.dfy` | `frontend/src/utils/apiHelpers.ts`, with `fetch` as a parameter giving each call's outcome |
| `KeyboardShortcuts` | `keyboard_shortcuts.dfy` | the keydown handler of `frontend/src/hooks/useKeyboardShortcuts.ts`, returning its effects as a trace |
| `TemplateEditor` | `template_editor.dfy` | the logic of `frontend/src/components/TemplateEditor.tsx`, without the JSX |

The editor's own `extractVariables` (`frontend/src/components/TemplateEditor.tsx:13-20`) is the
same loop as the backend's, so `TemplateText.ExtractVariables` models both.

## Behaviour worth knowing

The model keeps these behaviours of the program exactly:

- `validateFile` checks only size and type, with no blocklist of executable extensions. It accepts `setup.exe` declared as
  `text/plain`, and it never looks at the name when deciding. The send route never calls it.
  Instead, the route runs its own blocked-extension list and base64 size estimate inline.
- From `"Jane <jane@x.com>"`, the sender regex `/<(.+?)>|(.+)/` captures the whole text,
  because the leftmost match starts at `J`. Only a `from` that starts with `<` yields the
  bracketed address. A display-name sender is therefore compared verbatim against the
  allow-list.
- With `FROM_ADDRESSES` unset, the allow-list is `[""]`, so every sender is refused.
- Listing emails and templates orders by `created_at DESC`. SQL leaves rows with equal
  timestamps in no defined order. The store lists emails in reverse insertion order, which puts
  ties newest id first (see `Db.Store.GetEmails` under "Left out"). Templates are promised
  only membership and the timestamp order.
- The editor's preview replaces a token only when its value is non-empty. The backend also
  replaces a token with an empty value. `TemplateEditor.EmptyValueDiffers` shows this on `{{a}}`.
- `isNetworkError` matches `fetch` and `network` case-sensitively for a `TypeError`. For any
  other `Error` it lower-cases the message first.

## Model

| member | source | states |
|---|---|---|
| FileValidation.ValidateFileSize | backend/src/utils/fileValidation.ts:55-63 | valid exactly when the size is at most 10 MiB; otherwise the size error |
| FileValidation.SizeBoundary | backend/src/utils/fileValidation.ts:3 | 10485760 bytes is accepted, and one byte more is refused |
| FileValidation.ValidateMimeType | backend/src/utils/fileValidation.ts:65-73 | valid exactly when the type is in the allow-list; otherwise the error naming the type |
| FileValidation.MimeCaseSensitive | backend/src/utils/fileValidation.ts:6-28 | membership is case-sensitive: `image/png` passes and `IMAGE/PNG` does not |
| FileValidation.ReplaceUnsafe | backend/src/utils/fileValidation.ts:78 | step 1 leaves only `[a-zA-Z0-9._-]` and never shortens the name |
| FileValidation.ReplaceUnsafeAppend | backend/src/utils/fileValidation.ts:78 | step 1 works character by character: it distributes over concatenation |
| FileValidation.CollapseDots | backend/src/utils/fileValidation.ts:79 | step 2 leaves no two dots in a row, never lengthens the name, keeps the first character and adds no new character |
| FileValidation.Truncate | backend/src/utils/fileValidation.ts:80 | step 3 keeps a prefix of at most 255 characters, and the whole name when it already fits |
| FileValidation.SanitizeFilename | backend/src/utils/fileValidation.ts:75-81 | the result has only safe characters, no two dots in a row and at most 255 characters |
| FileValidation.ReplaceUnsafeFixed | backend/src/utils/fileValidation.ts:78 | step 1 leaves a name unchanged exactly when all its characters are safe |
| FileValidation.CollapseDotsFixed | backend/src/utils/fileValidation.ts:79 | step 2 leaves a name unchanged exactly when it has no two dots in a row |
| FileValidation.TruncateFixed | backend/src/utils/fileValidation.ts:80 | step 3 leaves a name unchanged exactly when it has at most 255 characters |
| FileValidation.StepsFixSanitized | backend/src/utils/fileValidation.ts:77-80 | each of the three steps leaves an already sanitised name as it is |
| FileValidation.SanitizeIdempotent | backend/src/utils/fileValidation.ts:75-81 | sanitising twice gives the same as sanitising once |
| FileValidation.SanitizeSurrogatePair | backend/src/utils/fileValidation.ts:78 | a character outside the BMP is two UTF-16 code units, so it becomes two underscores |
| FileValidation.GetFileExtensionSpec | backend/src/utils/fileValidation.ts:83-86 | "" without a dot; otherwise the lower-cased text after the last dot |
| FileValidation.GetFileExtension | backend/src/utils/fileValidation.ts:83-86 | "" for a name without a dot, and the extension never holds a dot |
| FileValidation.ExtensionAfterLastDot | backend/src/utils/fileValidation.ts:83-86 | the extension of `base.ext` is `ext` lower-cased, whatever dots `base` holds |
| FileValidation.GetFileExtensionExample | backend/src/utils/fileValidation.ts:83-86 | `Report.Final.PDF` gives `pdf`, and `README` gives "" |
| FileValidation.GetMimeTypeFromExtension | backend/src/utils/fileValidation.ts:88-91 | the table entry for the extension, and null exactly when the extension is not in the table |
| FileValidation.ExtensionTableAllowed | backend/src/utils/fileValidation.ts:31-48 | every type the extension table yields passes the allow-list |
| FileValidation.ValidateFile | backend/src/utils/fileValidation.ts:93-114 | size first, then type; the first failure is returned; valid exactly when both pass |
| FileValidation.ValidateFileIgnoresName | backend/src/utils/fileValidation.ts:93-114 | the filename never changes the verdict |
| FileValidation.ExecutableAccepted | backend/src/utils/fileValidation.ts:93-114 | `setup.exe` declared as `text/plain` is accepted with no warning: there is no blocklist |
| FileValidation.MismatchOnlyWarns | backend/src/utils/fileValidation.ts:106-111 | `photo.png` declared as a PDF is accepted, and it is the case that logs the mismatch warning |
| TemplateText.ScanLossless | backend/src/utils/template.ts:10 | the scan loses nothing: writing the pieces back gives the text |
| TemplateText.ScanToken | backend/src/utils/template.ts:10 | a token at the front is one variable piece, and the scan resumes right after it |
| TemplateText.ScanSeparated | backend/src/utils/template.ts:10 | a character that is neither a brace nor a word character splits the scan in two |
| TemplateText.ScanTripleBraces | backend/src/utils/template.ts:10 | matching is leftmost and non-overlapping: in `{{{name}}}` the first brace is literal and the token starts at index 1 |
| TemplateText.Substitute | backend/src/utils/template.ts:7-13 | a text none of whose tokens names a key comes back unchanged, including the empty text and a text without tokens |
| TemplateText.SubstituteToken | backend/src/utils/template.ts:10-12 | a token whose name is a key becomes its value, even an empty one; any other token stays verbatim |
| TemplateText.SubstituteSeparated | backend/src/utils/template.ts:10-12 | substitution works separately on the two sides of a separator character |
| TemplateText.SubstituteTripleBraces | backend/src/utils/template.ts:10-12 | `{{{name}}}` becomes `{value}` |
| TemplateText.SubstituteNoRecursion | backend/src/utils/template.ts:10-12 | a substituted value is not scanned again, and an empty value still replaces its token |
| TemplateText.NamesSound | backend/src/utils/template.ts:23-28 | every name found is a word whose `{{name}}` occurs in the text |
| TemplateText.NamesComplete | backend/src/utils/template.ts:23-28 | every occurrence of `{{word}}` in the text is found |
| TemplateText.NamesExactly | backend/src/utils/template.ts:23-28 | a name is found exactly when it is a word whose `{{name}}` occurs in the text |
| TemplateText.DedupProperties | backend/src/utils/template.ts:24-30 | the `Set` gives no repeats, the same elements, ordered by first occurrence |
| TemplateText.AddEach | backend/src/utils/template.ts:47-49 | adding a list into the insertion-ordered set appends its new names in order |
| TemplateText.ExtractVariables | backend/src/utils/template.ts:20-31 | the loop returns the distinct names of the text's tokens in first-occurrence order |
| TemplateText.ExtractAllVariables | backend/src/utils/template.ts:40-52 | names of the subject, then of the text body, then of the html body, each once; an absent or empty body adds nothing |
| VariablesJson.StringifyParse | backend/src/routes/templates.ts:22 | every list of strings the handlers stringify parses back as the same list |
| VariablesJson.Stringify | backend/src/routes/templates.ts:22 | the text is a JSON array: it opens with `[` and closes with `]` |
| VariablesJson.Parse | backend/src/routes/templates.ts:96 | only a text that opens a JSON array after whitespace reads as a list |
| VariablesJson.ParseStringEscape | backend/src/routes/templates.ts:22 | an escaped string body followed by its closing quote reads back as the string |
| VariablesJson.ParseElementsJoin | backend/src/routes/templates.ts:22 | quoted elements joined by commas and closed by `]` read back as the list, and the rest of the text is what follows |
| TemplateRoutes.EncodeVariables | backend/src/routes/templates.ts:22 | null exactly when no list is sent; otherwise JSON text that parses back to the list |
| TemplateRoutes.DecodeEncoded | backend/src/routes/templates.ts:94-97 | what the handlers write reads back as the same list, and a missing list as `[]` |
| TemplateRoutes.DecodeVariables | backend/src/routes/templates.ts:94-97 | NULL and "" read as no variables, and the JSON text of any list reads as that list |
| TemplateRoutes.DecodeNullIfEmpty | backend/src/db.ts:175 | the store turning an empty column into NULL does not change what is read back |
| TemplateRoutes.View | backend/src/routes/templates.ts:94-97 | a row shows as itself with `variables` decoded, and has no view when the column does not parse |
| TemplateRoutes.NewTemplateOf | backend/src/routes/templates.ts:24-30 | the saved row data carries the name, subject and bodies as sent, and variables that decode to the list sent |
| TemplateRoutes.CreateTemplate | backend/src/routes/templates.ts:14-50 | 400 without a name or subject, 409 on a taken name, both leaving the store as it was; otherwise one row is appended under the next id |
| TemplateRoutes.CreatedRowView | backend/src/routes/templates.ts:22-30 | a created row reads back with the name, subject and variables sent; empty bodies read as NULL |
| TemplateRoutes.ViewAll | backend/src/routes/templates.ts:58-61 | every row is decoded in order; the listing fails exactly when some row's column does not parse |
| TemplateRoutes.ListTemplates | backend/src/routes/templates.ts:53-76 | every template newest first, decoded, with `total` equal to the number returned; 500 exactly when a column does not parse |
| TemplateRoutes.ListDecodable | backend/src/routes/templates.ts:58-61 | when every stored column decodes, listing never takes the 500 path |
| TemplateRoutes.GetTemplate | backend/src/routes/templates.ts:79-107 | 400 for a non-numeric id, 404 exactly when no row has the id, otherwise that row's view |
| TemplateRoutes.UpdateDataOf | backend/src/routes/templates.ts:120-125 | a patch field is set exactly when the body has it; `text` maps to `body_text`, `html` to `body_html`, and `variables` is JSON text |
| TemplateRoutes.UpdateTemplate | backend/src/routes/templates.ts:110-148 | 400 for a bad id, 404 for a missing one, 409 on a name another row holds, all without change; otherwise only the row with that id is patched |
| TemplateRoutes.DeleteTemplate | backend/src/routes/templates.ts:151-175 | 400 for a bad id; otherwise the rows with the id are removed, with success exactly when one existed and 404 otherwise |
| Db.Store.AdvanceClock | backend/src/db.ts:20 | `CURRENT_TIMESTAMP` only moves forward, and the tables keep their invariant |
| Db.Store.SaveEmail | backend/src/db.ts:101-113 | appends one row under the next id, which is larger than every earlier id; the counter moves on by one |
| Db.EmailRow | backend/src/db.ts:106-110 | empty body texts, provider id and error message are stored as NULL; the other fields as given |
| Db.Window | backend/src/db.ts:78-82 | `LIMIT OFFSET`: at most `limit` rows, starting `offset` rows into the order |
| Db.Store.GetEmails | backend/src/db.ts:115-117 | the page is the rows `offset` onwards of the newest-first order, at most `limit` of them, with `created_at` not increasing |
| Db.Store.TotalEmailsCount | backend/src/db.ts:119-122 | the number of stored emails |
| Db.Store.FullPageListsAll | backend/src/db.ts:115-122 | a page as large as the table lists every row once |
| Db.Store.EmailById | backend/src/db.ts:124-126 | the row with that id, or nothing when there is none; ids are unique |
| Db.Store.SaveAttachment | backend/src/db.ts:128-137 | appends one attachment row under the next id |
| Db.Store.AttachmentsByEmailId | backend/src/db.ts:139-141 | exactly the attachments linked to that email, each as often as the table holds it, in increasing id order, so none twice |
| Db.FilterAttachmentsCounts | backend/src/db.ts:98 | `WHERE email_id = ?` keeps every matching row as often as the table holds it, and no other row |
| Db.FilterAttachmentsOrdered | backend/src/db.ts:98 | the filter keeps the table's increasing id order |
| Db.Store.SaveTemplate | backend/src/db.ts:169-178 | fails exactly when the name is taken and then changes nothing; otherwise appends one row under the next id |
| Db.TemplateRow | backend/src/db.ts:173-175 | a new template row keeps name and subject, stores empty bodies and variables as NULL, and takes the clock for both timestamps |
| Db.Store.Templates | backend/src/db.ts:180-182 | every template once, newest first |
| Db.Store.TemplateById | backend/src/db.ts:184-186 | the row with that id, or nothing when there is none; ids are unique |
| Db.PatchedRow | backend/src/db.ts:192-199 | a supplied field replaces the stored one; an undefined field keeps it, with "" becoming NULL; `updated_at` is bumped |
| Db.EmptyPatchKeepsFields | backend/src/db.ts:192-199 | an empty patch only moves `updated_at` |
| Db.ReplaceTemplateRow | backend/src/db.ts:159-163 | rewriting the row in place keeps ids, order and unique names, and touches only that row |
| Db.Store.UpdateTemplateById | backend/src/db.ts:188-201 | false with no change for a missing id; failure with no change when another row holds the new name; otherwise that row alone is patched |
| Db.Store.DeleteTemplateById | backend/src/db.ts:203-206 | true exactly when a row with the id existed; afterwards no such row exists and the others stay in order |
| Db.RemoveKeepsUnique | backend/src/db.ts:45 | deleting rows keeps the names unique |
| Db.TemplateIdsUnique | backend/src/db.ts:44 | two rows with the same id are the same row |
| EmailRoutes.SubstituteField | backend/src/routes/emails.ts:43-44 | a template body is substituted when it is non-empty, and undefined otherwise |
| EmailRoutes.FromTemplate | backend/src/routes/emails.ts:40-44 | a templated email always has a subject, and has a body exactly when the template's body is non-empty; without variables it goes out as the template is written |
| EmailRoutes.Resolve | backend/src/routes/emails.ts:28-45 | without a template, the request's own fields; with one, nothing exactly when no row has the id, and otherwise that template's substituted fields |
| EmailRoutes.ResolveContent | backend/src/routes/emails.ts:28-45 | the handler's reassignments compute the resolved content |
| EmailRoutes.EstimatedSize | backend/src/routes/emails.ts:71 | the least n with 4n at least 3 times the content's length in UTF-16 code units: `ceil(length * 3 / 4)` |
| EmailRoutes.EstimatedSizeCountsCodeUnits | backend/src/routes/emails.ts:71 | one character outside the BMP counts as two code units and estimates 2 bytes; four base64 digits estimate 3 |
| JsString.LengthBounds | backend/src/routes/emails.ts:71 | `length` is between the number of characters and twice it, and equals it for a text inside the BMP |
| EmailRoutes.FirstProblem | backend/src/routes/emails.ts:60-77 | nothing exactly when no attachment is blocked or too large; otherwise the complaint about the first one that is |
| EmailRoutes.CheckAttachments | backend/src/routes/emails.ts:52-78 | the loop with early returns finds that first complaint |
| EmailRoutes.SenderAddress | backend/src/routes/emails.ts:81 | the compared address is the whole `from` or a non-empty part of it |
| EmailRoutes.SenderBracketed | backend/src/routes/emails.ts:81 | `<address>` followed by anything yields the address |
| EmailRoutes.SenderVerbatim | backend/src/routes/emails.ts:81 | a `from` that does not start with `<` is compared as it stands |
| EmailRoutes.SenderWithDisplayName | backend/src/routes/emails.ts:81 | `Jane <jane@x.com>` is compared whole |
| EmailRoutes.SenderNonEmpty | backend/src/routes/emails.ts:81 | a non-empty `from` never yields an empty address |
| EmailRoutes.AllowedAddresses | backend/src/routes/emails.ts:80 | the comma-split allow-list always has at least one entry |
| EmailRoutes.UnsetAllowList | backend/src/routes/emails.ts:80 | without the setting, the list is a single empty entry |
| EmailRoutes.RunChecks | backend/src/routes/emails.ts:47-88 | required fields, then attachments, then the sender, stopping at the first failure |
| EmailRoutes.Checks | backend/src/routes/emails.ts:47-88 | passes exactly when sender, recipient and subject are set, no attachment offends and the sender is allowed; a failure answers 400 or 403 |
| EmailRoutes.Gate | backend/src/routes/emails.ts:33-88 | a refusal answers 400, 403 or 404; a request that proceeds carries the caller's sender, recipient and attachments unchanged |
| EmailRoutes.GateTemplateNotFound | backend/src/routes/emails.ts:33-38 | a templated request naming a missing template is refused with 404 |
| EmailRoutes.GateMissingFields | backend/src/routes/emails.ts:47-49 | a missing sender, recipient or resolved subject is refused with 400 before any other check |
| EmailRoutes.GateAttachment | backend/src/routes/emails.ts:52-78 | once the fields are present, the first offending attachment decides the 400 |
| EmailRoutes.GateSenderNotAllowed | backend/src/routes/emails.ts:80-88 | a sender outside the list is refused with 403, listing the allowed addresses |
| EmailRoutes.UnsetAllowListRejectsAll | backend/src/routes/emails.ts:80-88 | without a configured list, no request reaches the provider |
| EmailRoutes.GateProceeds | backend/src/routes/emails.ts:97-107 | the provider is called exactly when every check passes, with the resolved content and the caller's sender, recipient and attachments |
| EmailRoutes.GateTemplateOverrides | backend/src/routes/emails.ts:40-44 | a templated email goes out with the template's substituted fields, whatever the caller sent |
| EmailRoutes.AttachmentRows | backend/src/routes/emails.ts:122-132 | one row per attachment, in order, linked to the email, with the estimated size and an empty file path |
| EmailRoutes.SaveAttachmentRows | backend/src/routes/emails.ts:121-133 | the loop appends exactly those rows under consecutive ids |
| EmailRoutes.RecordOutcome | backend/src/routes/emails.ts:109-133 | one email row is written; attachment rows are written only after a successful send; the email counter moves by one and the attachment counter by the number of rows |
| EmailRoutes.RecordStatus | backend/src/routes/emails.ts:115 | the record says `sent` exactly when the provider succeeded, and `failed` otherwise |
| EmailRoutes.PostEmail | backend/src/routes/emails.ts:24-149 | a refused request sends nothing and leaves the store untouched; otherwise the send is recorded, both id counters move past the new rows, and the answer is 201 with ids on success or 500 with `savedId` on failure |
| EmailRoutes.TotalPages | backend/src/routes/emails.ts:172 | the least number of pages that hold `total` rows |
| EmailRoutes.ListEmails | backend/src/routes/emails.ts:162-180 | 400 exactly when page < 1, perPage < 1 or perPage > 100, after the defaults 1 and 50; otherwise that page of the newest-first order with the total and the page count |
| EmailRoutes.ListEmailsPage | backend/src/routes/emails.ts:169-170 | a page holds the rows from `(page - 1) * perPage` on in newest-first order |
| EmailRoutes.EveryRowOnOnePage | backend/src/routes/emails.ts:169-172 | each row appears on page `k / perPage + 1`, at position `k % perPage`, and that page is within `totalPages` |
| EmailRoutes.GetEmail | backend/src/routes/emails.ts:192-213 | 400 for a non-numeric id, 404 exactly when no email has the id, otherwise the email with exactly its attachments, each once, in increasing id order |
| EmailFactory.SmtpConfigOf | backend/src/services/email/factory.ts:12-20 | unset settings default to "", the port to 587, and `secure` is true exactly when `SMTP_SECURE` is `true` |
| EmailFactory.CreateService | backend/src/services/email/factory.ts:6-37 | SMTP exactly when asked for with host, user and password all set; Resend exactly when SMTP is not asked for and a key is set; otherwise the chosen provider's startup error |
| EmailFactory.PortDefault | backend/src/services/email/factory.ts:14 | the default port text parses as 587 |
| EmailFactory.ProviderDefaultsToResend | backend/src/services/email/factory.ts:7 | leaving the provider unset is the same as asking for Resend |
| EmailFactory.OtherProvidersAreResend | backend/src/services/email/factory.ts:11 | every provider name other than `smtp` takes the Resend path |
| EmailFactory.ResendIgnoresSmtpSettings | backend/src/services/email/factory.ts:30-36 | the Resend path reads no SMTP setting |
| EmailFactory.SmtpIgnoresApiKey | backend/src/services/email/factory.ts:11-28 | the SMTP path never reads the API key |
| ApiHelpers.Effective | frontend/src/utils/apiHelpers.ts:32 | each option the caller gives overrides its default of 3, 1000 and 2 |
| ApiHelpers.DefaultSchedule | frontend/src/utils/apiHelpers.ts:13-17 | with the defaults there are four attempts, waiting 1000, 2000 and 4000 ms between them |
| ApiHelpers.AttemptError | frontend/src/utils/apiHelpers.ts:44-50 | a failed attempt leaves an `Error`: the server status, the thrown error itself, or `Network error` |
| ApiHelpers.FetchWithRetry | frontend/src/utils/apiHelpers.ts:27-61 | at most maxRetries + 1 calls; the first ok or 4xx response is returned at once; after failed attempt k it waits retryDelay * multiplier^k, but not after the last; when all fail, the last error is thrown |
| ApiHelpers.ParseErrorResponse | frontend/src/utils/apiHelpers.ts:69-76 | the `error` field, else the `message` field, else `Request failed with status N`; never empty |
| ApiHelpers.InvalidJsonFallsBack | frontend/src/utils/apiHelpers.ts:73-75 | a body that is not JSON reads like one without either field, giving the status text |
| ApiHelpers.GetErrorMessage | frontend/src/utils/apiHelpers.ts:84-94 | an `Error`'s message, a string as it is, and a fixed text for anything else |
| ApiHelpers.IsNetworkError | frontend/src/utils/apiHelpers.ts:102-112 | only `Error` objects count, and any `Error` whose message contains `network` in lower case counts, whatever its kind |
| ApiHelpers.NonErrorRejectionIsNetworkError | frontend/src/utils/apiHelpers.ts:47-50 | a thrown non-`Error` is recorded as `Network error`, which counts as a network error |
| ApiHelpers.NetworkErrorCase | frontend/src/utils/apiHelpers.ts:102-112 | the `TypeError` rule is case-sensitive, the `Error` rule is not, and non-errors never count |
| KeyboardShortcuts.HandleKeyDown | frontend/src/hooks/useKeyboardShortcuts.ts:40-56 | the handler prevents the default exactly when some shortcut matches, and runs the callbacks of exactly the matching shortcuts in list order |
| KeyboardShortcuts.Matches | frontend/src/hooks/useKeyboardShortcuts.ts:42-51 | a match needs the key equal without case, Ctrl or Cmd held exactly when the shortcut asks for `ctrl`, and Shift and Alt exactly as the shortcut says |
| KeyboardShortcuts.EveryMatchFires | frontend/src/hooks/useKeyboardShortcuts.ts:41-55 | every matching shortcut's callback runs, not only the first, and no other |
| KeyboardShortcuts.MatchingIndicesSpec | frontend/src/hooks/useKeyboardShortcuts.ts:41-55 | the indices whose callbacks run are exactly the matching ones, strictly increasing |
| KeyboardShortcuts.PreventsIffMatch | frontend/src/hooks/useKeyboardShortcuts.ts:46-54 | `preventDefault` is called exactly when at least one shortcut matches |
| KeyboardShortcuts.SaveShortcutExample | frontend/src/hooks/useKeyboardShortcuts.ts:42-51 | Ctrl+S fires on Cmd with the key reported as `S`, and not when Shift is held as well |
| TemplateEditor.InitialForm | frontend/src/components/TemplateEditor.tsx:23-29 | the form starts from the template, or empty; HTML mode is on exactly when there is an HTML body |
| TemplateEditor.DetectVariables | frontend/src/components/TemplateEditor.tsx:34-36 | the distinct names of the subject followed by those of the active body |
| TemplateEditor.NamesJoined | frontend/src/components/TemplateEditor.tsx:35 | the space joining subject and body keeps a token from spanning the seam |
| TemplateEditor.DetectedMembers | frontend/src/components/TemplateEditor.tsx:34-36 | a name is detected exactly when it occurs in the subject or in the active body |
| TemplateEditor.InitPreviewVars | frontend/src/components/TemplateEditor.tsx:38-45 | every detected name, and only those, maps to "" |
| TemplateEditor.PreviewRenderIsRender | frontend/src/components/TemplateEditor.tsx:47-51 | the preview renders pieces as the backend does with the empty values dropped |
| TemplateEditor.PreviewSubstitute | frontend/src/components/TemplateEditor.tsx:47-51 | the preview equals the backend substitution with the empty values dropped |
| TemplateEditor.EmptyValueDiffers | frontend/src/components/TemplateEditor.tsx:49 | an empty value clears `{{a}}` on the backend but leaves it in the preview |
| TemplateEditor.FreshPreviewIsRaw | frontend/src/components/TemplateEditor.tsx:38-51 | with freshly reset values, the preview shows the raw text |
| TemplateEditor.BuildRequest | frontend/src/components/TemplateEditor.tsx:58-64 | empty bodies are sent as undefined, and the variables are the detected list |
| TemplateEditor.SavedVariablesReadBack | frontend/src/components/TemplateEditor.tsx:58-64 | a template the editor creates reads back with exactly the detected variables |

## Left out

- I/O and transports: HTTP framing, JSON request parsing, logging (`console.*`), the Resend
  and SMTP SDKs, and `emailService.verify()`. The provider's answer is a parameter of
  `EmailRoutes.PostEmail`, and the allow-list `FROM_ADDRESSES` is a parameter too.
- The `catch` branches that answer 500 when the store or the provider throws. The model's
  store does not fail, except the unique-name constraint, which maps to 409. A `variables`
  column that does not parse is the one 500 path kept (`TemplateRoutes.InternalError`).
- SQL itself: the tables are sequences with counters. The `ON DELETE CASCADE` foreign key,
  the indexes and the duplicated `CREATE TABLE templates` are not modelled, since they change
  no answer here.
- `backend/src/index.ts`, `backend/src/middleware/cors.ts`, `backend/src/utils/performance.ts`
  and `backend/src/routes/attachments.ts` are not part of this model. They are bootstrap, CORS
  headers, query plans and streaming.
- The React UI is not part of this model: rendering, animation, toasts and component state.
  This covers `frontend/src/components/FileUpload.tsx`, whose size display uses floating
  point, and `frontend/src/api.ts`, a network client.
- The editor's save calls `updateTemplate` or `createTemplate` depending on the template id.
  Only the request it builds is modelled, and `TemplateEditor.SavedVariablesReadBack` follows
  the create path.
- Waiting in `fetchWithRetry`: the delays are returned, not slept.
- ApiHelpers.Effective: a retry option explicitly set to `undefined` replaces the default in
  the original, because object spread copies it. The model treats it as left out.
- TemplateText.Substitute: the variable map holds its own keys only. In the original,
  `variables[varName]` also finds inherited object keys, so `{{constructor}}` becomes the text
  of `Object`'s constructor. The model keeps such a token verbatim unless the key was sent.
- TemplateEditor.PreviewSubstitute: the same holds for the preview's `vars[varname]`; inherited
  keys are not modelled.
- Db.Store.GetEmails: fixes the order of emails with equal `created_at` as newest id first.
  SQL leaves that order open, and an index scan could return such ties in ascending id order.
  `EmailRoutes.ListEmailsPage` and `EmailRoutes.EveryRowOnOnePage` rely on this chosen order.
- JsString.ToLower: lower-cases ASCII letters only; `toLowerCase` on other scripts is not
  modelled. One consequence: JavaScript lower-cases the Kelvin sign U+212A to ASCII `k`, so
  the original blocks `x.\u212Ash` as `.ksh`, while `EmailRoutes.IsBlocked` accepts it.
- JsString.ParseInt: models leading whitespace, sign, `0x` and the digit run; `DigitsValue`
  is only applied to digit runs. Path ids reach the handlers already parsed, with `None` for
  NaN. For `page` and `perPage`, `None` is a missing or empty query value, which takes the
  default. A non-numeric value gives NaN in the original, and NaN passes the `page < 1`
  check; that case is not modelled.
- VariablesJson.Parse: reads JSON text that is an array of strings. Any other JSON is treated
  as unreadable. `\u` escapes of surrogate code units are refused, because a Dafny `char` is
  a Unicode scalar value.
- Strings are sequences of Unicode scalar values. Where the source counts UTF-16 code units
  (`sanitizeFilename`, and `content.length` in the send route's size estimate), the model
  counts them explicitly with `JsString.Length`.
- ApiHelpers.ErrorBody: holds the `error` and `message` fields as strings only. The original
  returns a truthy non-string field as it is, for example `42` from `{"error": 42}`; such a
  body is not modelled.
- `EXTENSION_TO_MIME` is a finite map. Prototype keys such as `constructor` are not looked up.
- `GET /api/emails` reads only `page` and `perPage`. Any other query parameter is ignored, as
  in the original.
