/**
 * The session editor page: form validation, the request it sends for an
 * auto-save, a draft save or a publish, how it fills the form from a stored
 * session, and the tag chips of its preview.
 */
module SessionEditor {
  import opened Wrappers
  import opened Text
  import opened Tags
  import opened SessionService

  /** The three text inputs of the form. */
  datatype Form = Form(title: string, tags: string, jsonFileUrl: string)

  /** The inputs an error message can be attached to. */
  datatype FormField = TitleInput | UrlInput

  const TitleRequired: string := "Title is required"
  const UrlRequired: string := "JSON file URL is required for publishing"
  const UrlInvalid: string := "Please enter a valid URL"

  /** The JSON body the page posts; `None` is a key left out of the object. */
  datatype Payload = Payload(title: string, tags: string, jsonFileUrl: Option<string>, sessionId: Option<SessionId>)

  /** The request body the server receives for a payload: the tags always arrive as a string. */
  function AsBody(p: Payload): (b: SaveBody)
    ensures b.tags.Text? && b.tags.s == p.tags
    ensures b.title == p.title && b.jsonFileUrl == p.jsonFileUrl && b.sessionId == p.sessionId
  {
    SaveBody(p.title, TagsInput.Text(p.tags), p.jsonFileUrl, p.sessionId)
  }

  /** The URL input passes the client check: blank, or parseable by `new URL`. */
  predicate UrlAccepted(url: string, parsesAsUrl: string -> bool) {
    Blank(url) || parsesAsUrl(url)
  }

  /**
   * `validateForm`: collect one message per failing input (the "required"
   * check fires only on a blank URL and the parse check only on a non-blank
   * one, so at most one URL message), and report whether none was recorded.
   */
  method ValidateForm(form: Form, isPublishing: bool, parsesAsUrl: string -> bool)
    returns (errors: map<FormField, string>, ok: bool)
    ensures TitleInput in errors <==> Blank(form.title)
    ensures TitleInput in errors ==> errors[TitleInput] == TitleRequired
    ensures UrlInput in errors <==> (isPublishing && Blank(form.jsonFileUrl)) || !UrlAccepted(form.jsonFileUrl, parsesAsUrl)
    ensures UrlInput in errors ==> errors[UrlInput] == (if Blank(form.jsonFileUrl) then UrlRequired else UrlInvalid)
    ensures ok <==> errors == map[]
    ensures ok <==> !Blank(form.title) && UrlAccepted(form.jsonFileUrl, parsesAsUrl) && !(isPublishing && Blank(form.jsonFileUrl))
  {
    errors := map[];
    if Blank(form.title) {
      errors := errors[TitleInput := TitleRequired];
    }
    if isPublishing && Blank(form.jsonFileUrl) {
      errors := errors[UrlInput := UrlRequired];
    }
    if !Blank(form.jsonFileUrl) && !parsesAsUrl(form.jsonFileUrl) {
      errors := errors[UrlInput := UrlInvalid];
    }
    ok := |errors| == 0;
    assert ok ==> TitleInput !in errors && UrlInput !in errors;
  }

  /**
   * Build the payload field by field. A draft (or auto-save) carries the URL
   * only when it is not blank, a publish always carries it; the session id is
   * sent only when editing an existing session.
   */
  method BuildPayload(form: Form, forPublish: bool, isEditing: bool, routeId: Option<SessionId>) returns (p: Payload)
    ensures p.title == form.title && p.tags == form.tags
    ensures forPublish ==> p.jsonFileUrl == Some(form.jsonFileUrl)
    ensures !forPublish ==> (p.jsonFileUrl.Some? <==> !Blank(form.jsonFileUrl))
    ensures p.jsonFileUrl.Some? ==> p.jsonFileUrl.value == form.jsonFileUrl
    ensures p.sessionId.Some? <==> isEditing && Truthy(routeId)
    ensures p.sessionId.Some? ==> p.sessionId == routeId
    ensures Truthy(p.sessionId) <==> isEditing && Truthy(routeId)
  {
    p := Payload(form.title, form.tags, None, None);
    if forPublish || !Blank(form.jsonFileUrl) {
      p := p.(jsonFileUrl := Some(form.jsonFileUrl));
    }
    if isEditing && routeId.Some? && routeId.value != "" {
      p := p.(sessionId := routeId);
    }
  }

  /**
   * `handleAutoSave`: nothing is sent for a blank title; otherwise the draft
   * payload goes out without client-side URL checking, so the server can
   * still refuse the URL, and a title made only of variation selectors.
   */
  method HandleAutoSave(form: Form, isEditing: bool, routeId: Option<SessionId>, parsesAsUrl: string -> bool)
    returns (sent: Option<Payload>)
    ensures sent.None? <==> Blank(form.title)
    ensures sent.Some? ==> sent.value.title == form.title && sent.value.tags == form.tags
    ensures sent.Some? ==> (sent.value.jsonFileUrl.Some? <==> !Blank(form.jsonFileUrl))
    ensures sent.Some? && sent.value.jsonFileUrl.Some? ==> sent.value.jsonFileUrl.value == form.jsonFileUrl
    ensures sent.Some? ==> (sent.value.sessionId.Some? <==> isEditing && Truthy(routeId))
    ensures sent.Some? && sent.value.sessionId.Some? ==> sent.value.sessionId == routeId
    ensures sent.Some? ==>
      SaveDraftErrors(AsBody(sent.value), parsesAsUrl)
        == (if TitleRejected(form.title) then [TitleField] else [])
          + (if UrlAccepted(form.jsonFileUrl, parsesAsUrl) then [] else [JsonFileUrlField])
  {
    if Blank(form.title) {
      return None;
    }
    var p := BuildPayload(form, false, isEditing, routeId);
    sent := Some(p);
  }

  /**
   * `handleSaveDraft`: a draft that passes the form check carries the form's
   * fields and is accepted by the server's validators, unless its title is
   * made only of variation selectors.
   */
  method HandleSaveDraft(form: Form, isEditing: bool, routeId: Option<SessionId>, parsesAsUrl: string -> bool)
    returns (errors: map<FormField, string>, sent: Option<Payload>)
    ensures TitleInput in errors <==> Blank(form.title)
    ensures TitleInput in errors ==> errors[TitleInput] == TitleRequired
    ensures UrlInput in errors <==> !UrlAccepted(form.jsonFileUrl, parsesAsUrl)
    ensures UrlInput in errors ==> errors[UrlInput] == UrlInvalid
    ensures sent.Some? <==> errors == map[]
    ensures sent.Some? <==> !Blank(form.title) && UrlAccepted(form.jsonFileUrl, parsesAsUrl)
    ensures sent.Some? ==> sent.value.title == form.title && sent.value.tags == form.tags
    ensures sent.Some? ==> (sent.value.jsonFileUrl.Some? <==> !Blank(form.jsonFileUrl))
    ensures sent.Some? && sent.value.jsonFileUrl.Some? ==> sent.value.jsonFileUrl.value == form.jsonFileUrl
    ensures sent.Some? ==> (sent.value.sessionId.Some? <==> isEditing && Truthy(routeId))
    ensures sent.Some? && sent.value.sessionId.Some? ==> sent.value.sessionId == routeId
    ensures sent.Some? ==>
      SaveDraftErrors(AsBody(sent.value), parsesAsUrl) == (if TitleRejected(form.title) then [TitleField] else [])
  {
    var ok;
    errors, ok := ValidateForm(form, false, parsesAsUrl);
    if !ok {
      return errors, None;
    }
    var p := BuildPayload(form, false, isEditing, routeId);
    sent := Some(p);
  }

  /**
   * `handlePublish`: the form demands a non-blank URL that `new URL` parses,
   * but the server checks it with `isURL`, so that check can still fail, as
   * can the title check for a title made only of variation selectors.
   */
  method HandlePublish(form: Form, isEditing: bool, routeId: Option<SessionId>, parsesAsUrl: string -> bool, isUrl: string -> bool)
    returns (errors: map<FormField, string>, sent: Option<Payload>)
    ensures TitleInput in errors <==> Blank(form.title)
    ensures TitleInput in errors ==> errors[TitleInput] == TitleRequired
    ensures UrlInput in errors <==> Blank(form.jsonFileUrl) || !parsesAsUrl(form.jsonFileUrl)
    ensures UrlInput in errors ==> errors[UrlInput] == (if Blank(form.jsonFileUrl) then UrlRequired else UrlInvalid)
    ensures sent.Some? <==> errors == map[]
    ensures sent.Some? <==> !Blank(form.title) && !Blank(form.jsonFileUrl) && parsesAsUrl(form.jsonFileUrl)
    ensures sent.Some? ==> sent.value.title == form.title && sent.value.tags == form.tags
    ensures sent.Some? ==> sent.value.jsonFileUrl == Some(form.jsonFileUrl)
    ensures sent.Some? ==> (sent.value.sessionId.Some? <==> isEditing && Truthy(routeId))
    ensures sent.Some? && sent.value.sessionId.Some? ==> sent.value.sessionId == routeId
    ensures sent.Some? ==>
      PublishErrors(AsBody(sent.value), isUrl)
        == (if TitleRejected(form.title) then [TitleField] else [])
          + (if isUrl(form.jsonFileUrl) then [] else [JsonFileUrlField])
  {
    var ok;
    errors, ok := ValidateForm(form, true, parsesAsUrl);
    if !ok {
      return errors, None;
    }
    var p := BuildPayload(form, true, isEditing, routeId);
    sent := Some(p);
  }

  /** `fetchSession`: fill the form from a stored session, the tags joined with ", ". */
  function LoadForm(s: Session): (f: Form)
    ensures f.title == s.title && f.jsonFileUrl == s.jsonFileUrl
    ensures s.tags == [] ==> f.tags == ""
  {
    Form(s.title, Join(s.tags, ", "), s.jsonFileUrl)
  }

  /** Loading a session and saving the form again stores the same tags, whenever they are clean (as string-parsed tags always are). */
  lemma {:induction false} ReloadKeepsTags(s: Session)
    requires forall t :: t in s.tags ==> IsCleanTag(t)
    ensures Stored(AsBody(Payload(s.title, LoadForm(s).tags, None, None)).tags) == s.tags
  {
    ParseJoin(s.tags);
  }

  /**
   * Tags typed into the form survive a save and a reload: once a session holds
   * the tags stored for some typed text, the form it loads into saves them back unchanged.
   */
  lemma {:induction false} SavedTagsReload(s: Session, text: string)
    requires s.tags == Stored(TagsInput.Text(text))
    ensures Stored(AsBody(Payload(s.title, LoadForm(s).tags, None, None)).tags) == s.tags
  {
    ParseClean(text);
    ReloadKeepsTags(s);
  }

  /** The preview renders `tag.trim()` for a piece, or nothing (`null`) when it trims to "". */
  function Chip(piece: string): (c: Option<string>)
    ensures c.None? <==> Blank(piece)
    ensures c.Some? ==> c.value == Trim(piece) && IsTrimmed(c.value)
  {
    var t := Trim(piece);
    if t == "" then None else Some(t)
  }

  /** `pieces.map(...)`: one chip or `null` per piece; `RenderedChips` says what the chips amount to once rendered. */
  function Chips(pieces: seq<string>): (r: seq<Option<string>>)
    ensures |r| == |pieces|
  {
    if pieces == [] then [] else [Chip(pieces[0])] + Chips(pieces[1..])
  }

  /** What React renders from a list of chips: the `null` entries are skipped; `RenderedChips` relates this to the server's normalisation. */
  function Rendered(chips: seq<Option<string>>): (r: seq<string>)
    ensures |r| <= |chips|
  {
    if chips == [] then []
    else (if chips[0].Some? then [chips[0].value] else []) + Rendered(chips[1..])
  }

  /** The tag chips of the preview; nothing is shown for an empty tags input, and no chip is blank or padded. */
  function PreviewTags(tags: string): (r: seq<string>)
    ensures tags == "" ==> r == []
    ensures forall t :: t in r ==> t != "" && IsTrimmed(t)
  {
    if tags == "" then []
    else
      RenderedChips(Split(tags, ','));
      Rendered(Chips(Split(tags, ',')))
  }

  lemma {:induction false} RenderedChips(pieces: seq<string>)
    ensures Rendered(Chips(pieces)) == Normalize(pieces)
  {
    if pieces != [] {
      RenderedChips(pieces[1..]);
      assert Chips(pieces)[1..] == Chips(pieces[1..]);
    }
  }

  /** The preview shows exactly the tags the server will store for the same text. */
  lemma {:induction false} PreviewMatchesStored(tags: string)
    ensures PreviewTags(tags) == Stored(TagsInput.Text(tags))
  {
    if tags == "" {
      assert Split("", ',') == [""];
      assert Trim("") == "" by { assert AllSpace(""); }
      assert Normalize([""]) == [];
    } else {
      RenderedChips(Split(tags, ','));
    }
  }
}
