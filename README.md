# WellnessHub sessions — a verified Dafny model

WellnessHub lets users write wellness sessions (a title, tags and the URL of
a JSON file), keep them as private drafts and publish them to a public list.
This project models the part of it that holds logic:

- the session service behind `/api/sessions` (`backend/routes/sessions.js`):
  a `Store` class over a table of `Session` records keyed by id, with one
  method per route handler (list published, list mine, create, get, patch,
  delete, save-draft, publish) and the request validators as functions;
- the tag normalisation shared by the server and the editor's preview
  (split on `,`, trim each piece, drop the empty ones), with the JavaScript
  `trim`, `split` and `join` it relies on;
- the session editor page (`frontend/src/pages/SessionEditor.js`): form
  validation, the payload sent by auto-save, save-draft and publish, how a
  stored session fills the form, and the preview's tag chips;
- the own-sessions page (`frontend/src/pages/MySessions.js`): the status
  filter, the per-status counts and the list after a delete.

Modules: `Wrappers` (an `Option` type) in `wrappers.dfy`, `Text` in `text.dfy`, `Lists`
in `lists.dfy`, `Tags` in `tags.dfy`, `SessionService` in `sessions.dfy`,
`SessionEditor` in `editor.dfy`, `MySessions` in `my_sessions.dfy`.

How the model stands for what it cannot see:

- Users are plain ids; the caller id is a parameter of each method (it comes
  from the authentication middleware, which is not part of this model).
- A new record's id is any non-empty id not yet in the table
  (`Store.NewId`), standing for MongoDB's generated ObjectId. Unlike an
  ObjectId it may be the id of a record deleted earlier, so in the model a
  stale `sessionId` can reach a newer record where the service would answer
  404; this only adds behaviours, so what is proved of every run holds of
  the service's runs too.
- `created_at`/`updated_at` are readings of a logical clock (`Store.clock`)
  that every save advances, so no two records share an `updated_at` and the
  newest-first listings are strictly ordered.
- The two URL checks are different foreign predicates and stay
  uninterpreted: `parsesAsUrl` is "`new URL(value)` does not throw" (the
  save-draft validator and the editor) and `isUrl` is express-validator's
  `isURL()` (the publish validator). The store holds them as constants, the
  editor methods take them as parameters.
- express-validator's `.trim()` is a sanitizer: the handlers read, and store,
  the trimmed title. A missing title reaches the handlers as "".
- `isLength({ min: 1 })` is validator.js's length, which does not count the
  variation selectors U+FE0E and U+FE0F (`MeasuredLength`): a title made only
  of them is refused although it is not blank.
- `if (sessionId)` is a truthiness test (`Truthy`): an empty id takes the
  create branch.
- Validation runs before any lookup, so an invalid request to a missing
  record answers with the validation errors, not 404.
- Responses are `Ok(value)`, `NotFound` (404) or `Invalid(fields)` (400,
  with the rejected fields in the order the validator chains run).

What the code does not guarantee:

- "A published session has a valid URL" is not an invariant of the code:
  `POST /` and `PATCH /:id` store any status, with no URL check
  (`PublishedWithoutUrl` exhibits it). Only the publish route guarantees
  the URL (`Store.Publish`).
- `status` is whatever string the caller sent to `POST /` or `PATCH /:id`;
  the record schema, which might restrict it, is not part of this model.
- Tags sent as an array are stored as they are, not trimmed or filtered, so
  "every stored tag is non-empty and trimmed" holds only for string input
  (`Tags.ParseClean`).
- A whitespace-only `json_file_url` passes the save-draft validator and is
  stored verbatim (`SessionService.OrEmpty`).
- The editor only checks that the title is not blank after `trim()`, so it
  sends a title made only of variation selectors, which the server refuses
  (`SessionService.SelectorOnlyTitle`, `SessionEditor.HandleSaveDraft`).

The invariant the code does keep is part of `Store.Valid`: every record is
filed under its own non-empty id and has a non-empty trimmed title. The rest
of `Store.Valid` (every record stamped before the current clock, no two
`updated_at` stamps equal) comes from the model's logical clock, not from the
code: two saves within the same millisecond share `updated_at`, and
`.sort({ updated_at: -1 })` then orders them either way. Every mutating
method preserves `Store.Valid`.

## Model

| member | source | states |
|---|---|---|
| Text.Trim | backend/routes/sessions.js:211 | `trim()` yields a string with no whitespace at either end; it is empty exactly when the input is all whitespace; an already trimmed string is unchanged |
| Text.TrimStartSuffix | backend/routes/sessions.js:211 | the leading part of `trim()` keeps a suffix of the input and removes only whitespace in front of it |
| Text.TrimEndPrefix | backend/routes/sessions.js:211 | the trailing part of `trim()` keeps a prefix of the input and removes only whitespace behind it |
| Text.TrimInfix | backend/routes/sessions.js:211 | a trimmed string is a contiguous piece of the input with only whitespace cut off on both sides |
| Text.TrimChars | backend/routes/sessions.js:211 | trimming introduces no character that was not in the input |
| Text.Blank | frontend/src/pages/SessionEditor.js:137 | `!x.trim()`: a string is blank exactly when it trims to "" |
| Text.TrimSpacePrefixed | backend/routes/sessions.js:211 | whitespace in front of a non-empty trimmed string is exactly what `trim()` removes |
| Text.Split | backend/routes/sessions.js:211 | `split(',')` yields at least one piece and no piece contains the separator |
| Text.JoinSplit | backend/routes/sessions.js:211 | joining the pieces of a split with the separator gives the string back |
| Text.SplitJoin | frontend/src/pages/SessionEditor.js:34 | splitting a join of separator-free parts gives the parts back |
| Text.SplitPrefix | backend/routes/sessions.js:211 | a separator-free prefix followed by the separator becomes the first piece |
| Text.Join | frontend/src/pages/SessionEditor.js:34 | `join(sep)` of no parts is ""; otherwise the result starts with the first part (with Split, JoinSplit and SplitJoin fix it as the inverse of splitting) |
| Lists.Filter | frontend/src/pages/MySessions.js:61-64 | `filter` keeps exactly the elements satisfying the predicate and never lengthens the list |
| Lists.FilterConcat | frontend/src/pages/MySessions.js:43 | filtering distributes over concatenation, so kept elements stay in their original order |
| Lists.FilterAll | frontend/src/pages/MySessions.js:62 | a predicate true of every element leaves the list unchanged |
| Lists.Count | frontend/src/pages/MySessions.js:193 | the number of elements satisfying a predicate is at most the length |
| Lists.FilterLength | frontend/src/pages/MySessions.js:203 | `filter(...).length` is that number of matching elements |
| Lists.CountDisjoint | frontend/src/pages/MySessions.js:183-203 | counts of two exclusive predicates add up to at most the length, exactly the length when one always holds |
| Tags.Normalize | backend/routes/sessions.js:211 | trimming the pieces and dropping the empty ones gives only non-empty trimmed tags, never more than the pieces |
| Tags.Parse | backend/routes/sessions.js:209-212 | a tags string yields at most one tag per comma piece, each non-empty and trimmed; ParseClean, ParseJoin and ParseExample pin it down further |
| Tags.NormalizeNoComma | backend/routes/sessions.js:211 | comma-free pieces normalise to comma-free tags |
| Tags.ParseClean | backend/routes/sessions.js:209-212 | every tag parsed from a string is non-empty, has no surrounding whitespace and contains no comma |
| Tags.Stored | backend/routes/sessions.js:209-211 | absent tags are stored as `[]` and an array is stored unchanged |
| Tags.ParseJoin | frontend/src/pages/SessionEditor.js:34 | clean tags joined with ", " parse back to the same list, order and duplicates included |
| Tags.NormalizeJoined | frontend/src/pages/SessionEditor.js:34 | the comma pieces of a ", "-joined clean list, after a whitespace prefix, normalise to that list |
| Tags.ParseIdempotent | backend/routes/sessions.js:278-281 | parsing the ", "-join of parsed tags gives the same tags |
| Tags.ParseExample | backend/routes/sessions.js:209-212 | "a, b ,, c" is stored as ["a", "b", "c"] |
| SessionService.OrEmpty | backend/routes/sessions.js:229 | `x \|\| ''` keeps a non-empty string and turns a missing or empty one into "" |
| SessionService.Truthy | backend/routes/sessions.js:216 | only a present, non-empty `sessionId` selects the update branch; "" and a missing id create |
| SessionService.DraftUrlRejected | backend/routes/sessions.js:188-198 | save-draft refuses the URL exactly when it is present, not blank, and `new URL` throws on it |
| SessionService.PublishUrlRejected | backend/routes/sessions.js:267 | publish refuses the URL exactly when it is missing or fails `isURL` |
| SessionService.MeasuredLength | backend/routes/sessions.js:180 | `isLength` measures at most the string's length, leaving out the variation selectors |
| SessionService.MeasuredPositive | backend/routes/sessions.js:180 | the measured length is positive exactly when some character is not a variation selector |
| SessionService.TitleRejected | backend/routes/sessions.js:180 | `.trim().isLength({ min: 1 })` fails exactly when the trimmed title measures less than one |
| SessionService.TitleErrors | backend/routes/sessions.js:180 | the title is accepted exactly when its trimmed text holds a character other than U+FE0E/U+FE0F; a blank title is always rejected, an accepted one is never empty |
| SessionService.SelectorOnlyTitle | backend/routes/sessions.js:180 | a title of a single U+FE0F is not blank, yet it is rejected |
| SessionService.TagsErrors | backend/routes/sessions.js:181-187 | tags are rejected exactly when present and neither a string nor an array |
| SessionService.SaveDraftErrors | backend/routes/sessions.js:178-198 | a save-draft request is rejected on the title iff it measures less than one once trimmed, on the tags iff malformed, on the URL iff present, not blank and not parseable |
| SessionService.PublishErrors | backend/routes/sessions.js:257-267 | a publish request is rejected on the title iff it measures less than one once trimmed, on the tags iff malformed, on the URL iff missing or failing `isURL` |
| SessionService.PatchErrors | backend/routes/sessions.js:101 | a PATCH is rejected iff it sends a title that measures less than one once trimmed |
| SessionService.FindOwned | backend/routes/sessions.js:80-83 | a lookup finds a record iff one has that id and belongs to the caller |
| SessionService.SaveKeepsTableOk | backend/routes/sessions.js:227-242 | saving a well-formed record stamped now keeps every record well-formed and all `updated_at` stamps distinct |
| SessionService.FreshIdExists | backend/routes/sessions.js:233-239 | there is always a non-empty id no record uses, so an insert never overwrites |
| SessionService.InsertNewest | backend/routes/sessions.js:15 | inserting into a newest-first list adds exactly that record |
| SessionService.InsertNewestSorted | backend/routes/sessions.js:15 | inserting a record with a fresh stamp keeps the list strictly newest first |
| SessionService.Store.Put | backend/routes/sessions.js:242 | `session.save()`: the record is stored under its id, stamped at the current instant, the clock advances and the store stays valid |
| SessionService.Store.NewId | backend/routes/sessions.js:233-239 | `new Session(...)` receives a non-empty id that no stored record uses |
| SessionService.Store.Get | backend/routes/sessions.js:78-94 | the caller gets the record with that id iff they own it, otherwise 404 |
| SessionService.Store.Create | backend/routes/sessions.js:48-73 | a title measuring less than one once trimmed is rejected with the table unchanged; otherwise exactly one record is added, owned by the caller, title trimmed, content defaulting to "", status to "draft" |
| SessionService.Store.Patch | backend/routes/sessions.js:99-131 | an invalid title is rejected and a record not owned is 404, table unchanged; otherwise only the supplied title, content and status change in that one record |
| SessionService.Store.Delete | backend/routes/sessions.js:136-152 | exactly the caller's record with that id is removed, otherwise 404 with the table unchanged; afterwards no such record is found |
| SessionService.Store.Upsert | backend/routes/sessions.js:214-242 | a truthy id updates the caller's record in place (size unchanged) or answers 404; no id inserts exactly one record |
| SessionService.Store.SaveDraft | backend/routes/sessions.js:178-252 | invalid requests change nothing; a saved draft has the trimmed title, the stored tags, the URL or "", status "draft", and keeps owner and content on update |
| SessionService.Store.Publish | backend/routes/sessions.js:257-321 | invalid requests change nothing; a published record has the given URL satisfying `isURL` and status "published", keeping owner and content on update |
| SessionService.Store.Select | backend/routes/sessions.js:13-15 | a listing holds exactly the stored records satisfying the query, strictly newest first |
| SessionService.Store.ListPublished | backend/routes/sessions.js:11-28 | the public listing is exactly the published records, newest first |
| SessionService.Store.ListMine | backend/routes/sessions.js:33-43 | the caller's listing is exactly their records, drafts and published, newest first |
| SessionService.DeleteTwice | backend/routes/sessions.js:326-342 | deleting the same session twice succeeds once and answers 404 the second time |
| SessionService.CreateThenGet | backend/routes/sessions.js:58-68 | a created session reads back with its trimmed title, content and status |
| SessionService.PublishThenDraft | backend/routes/sessions.js:285-299 | saving a draft with a published session's id updates that record (one record in all) and makes it a draft again |
| SessionService.PublishedWithoutUrl | backend/routes/sessions.js:58-65 | `POST /` stores a "published" session with no URL |
| SessionEditor.AsBody | frontend/src/pages/SessionEditor.js:198-208 | the server receives the form's tags as a string, and the title, URL and id as sent |
| SessionEditor.UrlAccepted | frontend/src/pages/SessionEditor.js:145-151 | the form accepts the URL exactly when it is blank or `new URL` parses it |
| SessionEditor.ValidateForm | frontend/src/pages/SessionEditor.js:134-155 | a title message iff the title is blank; a URL message iff (publishing and blank) or (not blank and unparseable), with the matching text; true iff no message |
| SessionEditor.BuildPayload | frontend/src/pages/SessionEditor.js:59-71 | a draft payload carries the URL iff it is not blank, a publish payload always; the session id iff editing with a route id |
| SessionEditor.HandleAutoSave | frontend/src/pages/SessionEditor.js:53-73 | nothing is sent for a blank title; otherwise the payload carries the form's title and tags, the URL iff not blank, and the route id iff editing with one; the server then rejects only a title of variation selectors and an unparseable URL |
| SessionEditor.HandleSaveDraft | frontend/src/pages/SessionEditor.js:157-179 | the form shows "Title is required" iff the title is blank and "Please enter a valid URL" iff the URL is not blank and does not parse; a draft is sent iff no message is shown; it carries the form's title and tags, the URL iff not blank, and the route id iff editing with one; the server rejects it only for a title of variation selectors |
| SessionEditor.HandlePublish | frontend/src/pages/SessionEditor.js:190-208 | the form shows "Title is required" iff the title is blank, and a URL message iff the URL is blank ("JSON file URL is required for publishing") or does not parse ("Please enter a valid URL"); a publish is sent iff no message is shown; it carries the form's title, tags and URL, and the route id iff editing with one; the server then rejects only a title of variation selectors and a URL failing `isURL` |
| SessionEditor.LoadForm | frontend/src/pages/SessionEditor.js:32-36 | the form shows the stored title and URL, and "" for no tags |
| SessionEditor.ReloadKeepsTags | frontend/src/pages/SessionEditor.js:34 | loading a session with clean tags and saving the form again stores the same tags |
| SessionEditor.SavedTagsReload | frontend/src/pages/SessionEditor.js:32-36 | a session holding tags stored from typed text loads into a form whose save stores the same tags again |
| SessionEditor.Chip | frontend/src/pages/SessionEditor.js:375-376 | a piece yields no chip iff it is blank, otherwise its trimmed text |
| SessionEditor.Chips | frontend/src/pages/SessionEditor.js:374 | one chip or nothing per piece |
| SessionEditor.Rendered | frontend/src/pages/SessionEditor.js:376 | skipping the null entries never adds chips |
| SessionEditor.PreviewTags | frontend/src/pages/SessionEditor.js:372-376 | an empty tags text shows no chip, and every chip shown is non-empty and trimmed |
| SessionEditor.RenderedChips | frontend/src/pages/SessionEditor.js:374-376 | rendering the chips of the pieces is the server's normalisation of them |
| SessionEditor.PreviewMatchesStored | frontend/src/pages/SessionEditor.js:372-376 | the preview shows exactly the tags the server stores for the same text |
| MySessions.Filtered | frontend/src/pages/MySessions.js:61-64 | "all" shows every session in order; any other filter shows exactly the sessions with that status |
| MySessions.Keeps | frontend/src/pages/MySessions.js:61-64 | the filter callback: true for every session under "all", otherwise exactly when the status equals the filter |
| MySessions.FilteredKeepsOrder | frontend/src/pages/MySessions.js:61-64 | filtering keeps the server's order |
| MySessions.IsDraft | frontend/src/pages/MySessions.js:193 | the Drafts count callback: exactly the sessions whose status is "draft" |
| MySessions.IsPublished | frontend/src/pages/MySessions.js:203 | the Published count callback: exactly the sessions whose status is "published" |
| MySessions.DraftCount | frontend/src/pages/MySessions.js:193 | the Drafts count is the number of drafts, at most the total |
| MySessions.PublishedCount | frontend/src/pages/MySessions.js:203 | the Published count is the number of published sessions, at most the total |
| MySessions.CountsWithinTotal | frontend/src/pages/MySessions.js:183-203 | Drafts plus Published is at most All, and equal when every status is one of the two |
| MySessions.AfterDelete | frontend/src/pages/MySessions.js:36-49 | the list is unchanged unless the delete was confirmed and succeeded; then exactly the entries with that id are gone |
| MySessions.DeleteRemovesOne | frontend/src/pages/MySessions.js:43 | with distinct ids, a successful delete of a listed session shortens the list by one |
| MySessions.ListingDistinctIds | backend/routes/sessions.js:33-43 | the own-sessions listing the page receives has distinct ids, so DeleteRemovesOne applies to it |

## Left out

- Express routing, the MongoDB calls and their `catch` → 500 paths: each request is a method call on an in-memory table that cannot fail.
- A malformed id (which MongoDB would refuse with a cast error, answered 500) is treated like any id that names no record.
- `populate('user_id', 'email')` and the `author` field of the public listing: a join with the user collection, which is not part of this model.
- The authentication middleware and its 401 answers: the caller id is a parameter.
- The record schema is not part of this model: records created by `POST /` get tags `[]` and URL "", and new records from save-draft and publish get content "", as schema defaults would give; no status enumeration is enforced.
- Timestamps are a logical clock advanced by every save, including a PATCH that sends no field; wall-clock times and their formatting are not modelled.
- The URL predicates `new URL` and `isURL` are uninterpreted; nothing is assumed about how they relate to each other.
- SessionService.Store.Publish: a missing URL is modelled as rejected, on the assumption that `isURL` refuses the empty string express-validator passes for an absent field.
- Request fields of the wrong JSON type (a title or URL that is not a string, `null` instead of a missing field) are not modelled; tags of the wrong type are (`Malformed`).
- The `message` texts of the server's 400 answers are not modelled, only which fields were rejected.
- `GET /my-sessions/:id` and `DELETE /my-sessions/:id` behave exactly like `GET /:id` and `DELETE /:id` and are modelled once (`Store.Get`, `Store.Delete`).
- The editor's auto-save debounce timer, toasts, navigation, history rewriting, loading state and rendering; the dashboard, app shell, navigation bar and route guard, which only render, route or gate pages.
- Concurrent requests: each method runs alone, as one request does.
