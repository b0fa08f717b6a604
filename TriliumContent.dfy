/**
 * The pure parts of `TriliumClient` (`trilium_client.py`): the normalised
 * server URL and request URLs, the `date` label lookup, attachment HTML, the
 * diary-entry HTML appended to a day note, the MIME choice and branch of an
 * upload, and the default note content. HTTP itself is not modelled; MIME
 * guessing (`mimetypes.guess_type`) arrives as a parameter.
 */
module TriliumContent {
  import opened Common

  // ---------------------------------------------------------------------------
  // URLs
  // ---------------------------------------------------------------------------

  /** `s.rstrip('/')`. */
  function RStripSlash(s: string): (r: string)
    ensures StartsWith(s, r)
    ensures |r| == 0 || r[|r| - 1] != '/'
    ensures forall i :: |r| <= i < |s| ==> s[i] == '/'
  {
    if |s| > 0 && s[|s| - 1] == '/' then RStripSlash(s[..|s| - 1]) else s
  }

  /** Stripping is idempotent: a normalised URL stays as it is. */
  lemma RStripSlashIdempotent(s: string)
    ensures RStripSlash(RStripSlash(s)) == RStripSlash(s)
  {
  }

  /** Only trailing slashes go: a URL that does not end in `/` is kept whole. */
  lemma RStripSlashKeeps(s: string, tail: string)
    requires forall i :: 0 <= i < |tail| ==> tail[i] == '/'
    requires |s| == 0 || s[|s| - 1] != '/'
    ensures RStripSlash(s + tail) == s
    decreases |tail|
  {
    if |tail| > 0 {
      assert (s + tail)[..|s + tail| - 1] == s + tail[..|tail| - 1];
      RStripSlashKeeps(s, tail[..|tail| - 1]);
    } else {
      assert s + tail == s;
    }
  }

  // ---------------------------------------------------------------------------
  // Notes and attributes
  // ---------------------------------------------------------------------------

  /** One attribute of a note as the server returns it. */
  datatype Attribute = Attribute(kind: string, name: string, value: string)

  /** A note; `attributes` is `None` when the key is missing. */
  datatype Note = Note(noteId: string, title: string, attributes: Option<seq<Attribute>>)

  predicate IsDateLabel(a: Attribute) {
    a.kind == "label" && a.name == "date"
  }

  // ---------------------------------------------------------------------------
  // Attachments
  // ---------------------------------------------------------------------------

  /** `os.path.basename`: what follows the last `/`. */
  function Basename(path: string): (r: string)
    ensures '/' !in r
    ensures |r| <= |path| && r == path[|path| - |r|..]
    ensures |r| < |path| ==> path[|path| - |r| - 1] == '/'
  {
    if |path| == 0 then ""
    else if path[|path| - 1] == '/' then ""
    else Basename(path[..|path| - 1]) + [path[|path| - 1]]
  }

  /** An image MIME type: `mime.startswith('image/')`. */
  predicate IsImage(mime: string) {
    StartsWith(mime, "image/")
  }

  /** The HTML that embeds an image attachment. */
  function ImageHtml(attachmentId: string, name: string): string {
    "<figure class=\"image\"><img src=\"api/attachments/" + attachmentId + "/image/" + name + "\" alt=\"" + name + "\"></figure>"
  }

  /** The HTML that links a non-image attachment for download. */
  function FileLinkHtml(attachmentId: string, name: string): string {
    "<p><a href=\"api/attachments/" + attachmentId + "/file/" + name + "\">" + name + "</a></p>"
  }

  /** `get_attachment_html`: an embedded image for image MIME types, a file link otherwise, both named by the basename. */
  function AttachmentHtml(attachmentId: string, path: string, guessedMime: Option<string>): (html: string)
    ensures guessedMime.Some? && IsImage(guessedMime.value) ==> html == ImageHtml(attachmentId, Basename(path))
    ensures !(guessedMime.Some? && IsImage(guessedMime.value)) ==> html == FileLinkHtml(attachmentId, Basename(path))
  {
    var name := Basename(path);
    if guessedMime.Some? && IsImage(guessedMime.value) then ImageHtml(attachmentId, name)
    else FileLinkHtml(attachmentId, name)
  }

  const DefaultMime: string := "application/octet-stream"

  /** The MIME type an upload declares: the guess, or the generic binary type when there is none. */
  function UploadMime(guessed: Option<string>): (mime: string)
    ensures mime != ""
    ensures guessed.Some? && guessed.value != "" ==> mime == guessed.value
    ensures guessed.None? || guessed.value == "" ==> mime == "application/octet-stream"
  {
    if guessed.Some? && guessed.value != "" then guessed.value else DefaultMime
  }

  /** The attachment record `upload_attachment` posts first. */
  datatype AttachmentRequest = AttachmentRequest(
    ownerId: string, role: string, mime: string, title: string, carriesContent: bool, position: int)

  /** The record for an upload: images go in two steps (record, then bytes), other files in one. */
  function UploadRequest(noteId: string, path: string, guessed: Option<string>): (r: AttachmentRequest)
    ensures r.mime == UploadMime(guessed) && r.ownerId == noteId && r.title == Basename(path) && r.position == 10
    ensures r.role == "image" <==> IsImage(UploadMime(guessed))
    ensures r.role == "image" <==> !r.carriesContent
  {
    var mime := UploadMime(guessed);
    if IsImage(mime) then AttachmentRequest(noteId, "image", mime, Basename(path), false, 10)
    else AttachmentRequest(noteId, "attachment", mime, Basename(path), true, 10)
  }

  /** An upload without a MIME guess is never treated as an image. */
  lemma UnknownMimeIsFile(noteId: string, path: string)
    ensures UploadRequest(noteId, path, None).role == "attachment"
    ensures UploadRequest(noteId, path, None).carriesContent
  {
    assert DefaultMime[0] != "image/"[0];
  }

  /** How a posted record came back: the `attachmentId` it carries, if any. */
  datatype Created = NotCreated | CreatedWith(attachmentId: Option<string>)

  /** What `upload_attachment` returns, or why it raised. */
  datatype UploadOutcome = Uploaded(attachmentId: Option<string>, html: string) | UploadFailed

  /** How Python prints an optional id in an f-string. */
  function IdText(id: Option<string>): string {
    if id.Some? then id.value else "None"
  }

  /** The HTML `upload_attachment` links a non-image file with: a download link. */
  function FileDownloadHtml(shownId: string, name: string): string {
    "<p><a href=\"api/attachments/" + shownId + "/download\">" + name + "</a></p>"
  }

  /**
   * `upload_attachment` after the record was posted and, for an image, its
   * bytes were or were not accepted (`contentAccepted`). An image needs a
   * non-empty id and accepted bytes; a file is linked with whatever id came
   * back, even none.
   */
  function UploadResult(path: string, guessed: Option<string>, created: Created, contentAccepted: bool): (r: UploadOutcome)
    ensures created.NotCreated? ==> r.UploadFailed?
    ensures IsImage(UploadMime(guessed)) ==>
      (r.Uploaded? <==> created.CreatedWith? && created.attachmentId.Some? && created.attachmentId.value != "" && contentAccepted)
    ensures IsImage(UploadMime(guessed)) && r.Uploaded? ==>
      r.attachmentId == created.attachmentId && r.html == ImageHtml(created.attachmentId.value, Basename(path))
    ensures !IsImage(UploadMime(guessed)) ==> (r.Uploaded? <==> created.CreatedWith?)
    ensures !IsImage(UploadMime(guessed)) && r.Uploaded? ==>
      r.attachmentId == created.attachmentId && r.html == FileDownloadHtml(IdText(created.attachmentId), Basename(path))
  {
    match created
    case NotCreated => UploadFailed
    case CreatedWith(id) =>
      if IsImage(UploadMime(guessed)) then
        if id.Some? && id.value != "" && contentAccepted then Uploaded(id, ImageHtml(id.value, Basename(path)))
        else UploadFailed
      else Uploaded(id, FileDownloadHtml(IdText(id), Basename(path)))
  }

  /** For an image, the upload and `get_attachment_html` agree on the embedding HTML. */
  lemma UploadedImageHtmlAgrees(path: string, mime: string, id: string)
    requires IsImage(mime) && id != ""
    ensures UploadResult(path, Some(mime), CreatedWith(Some(id)), true) == Uploaded(Some(id), AttachmentHtml(id, path, Some(mime)))
  {
  }

  /** A guess that names an image type is the type an upload declares. */
  lemma ImageGuessDeclared(guessed: Option<string>)
    ensures guessed.Some? && IsImage(guessed.value) ==> IsImage(UploadMime(guessed))
  {
    if guessed.Some? && IsImage(guessed.value) {
      assert |guessed.value| >= 6;
    }
  }

  /** The download link and the file link differ right after the id. */
  lemma DownloadLinkIsNotFileLink(id: string, name: string)
    ensures FileDownloadHtml(id, name) != FileLinkHtml(id, name)
  {
    var lead := "<p><a href=\"api/attachments/" + id;
    var download := "/download\">" + name + "</a></p>";
    var file := "/file/" + name + "\">" + name + "</a></p>";
    assert FileDownloadHtml(id, name) == lead + download;
    assert FileLinkHtml(id, name) == lead + file;
    assert (lead + download)[|lead| + 1] == download[1];
    assert (lead + file)[|lead| + 1] == file[1];
  }

  /**
   * For any other file they disagree: the upload links `/download`, while
   * `get_attachment_html` links `/file/<name>`.
   */
  lemma UploadedFileHtmlDiffers(path: string, guessed: Option<string>, id: string)
    requires !IsImage(UploadMime(guessed))
    ensures UploadResult(path, guessed, CreatedWith(Some(id)), true).html != AttachmentHtml(id, path, guessed)
  {
    ImageGuessDeclared(guessed);
    DownloadLinkIsNotFileLink(id, Basename(path));
  }



  // ---------------------------------------------------------------------------
  // Note content and diary entries
  // ---------------------------------------------------------------------------

  /** What a content request produced: it raised, it had no body, or a body. */
  datatype ContentResponse = Raised | NoBody | Body(text: string)

  /** `get_note_content`: the body, or `""` when it is empty, missing or the request raised. */
  function NoteContent(response: ContentResponse): (content: string)
    ensures response.Body? ==> content == response.text
    ensures !response.Body? ==> content == ""
  {
    if response.Body? && response.text != "" then response.text else ""
  }

  /** One tag as a Trilium label span. */
  function LabelSpan(tag: string): string {
    "<span class='label'>#" + tag + "</span>"
  }

  function LabelSpans(tags: seq<string>): (spans: seq<string>)
    ensures |spans| == |tags| && forall k :: 0 <= k < |tags| ==> spans[k] == LabelSpan(tags[k])
  {
    if |tags| == 0 then [] else [LabelSpan(tags[0])] + LabelSpans(tags[1..])
  }

  /** The tags paragraph, present only when there are tags. */
  function TagsParagraph(tags: seq<string>): string {
    if |tags| > 0 then "\n\n<p><strong>标签:</strong> " + Join(", ", LabelSpans(tags)) + "</p>" else ""
  }

  /** The HTML entry `append_message_to_diary` adds for one message at clock reading `time`. */
  function DiaryEntryHtml(time: string, message: string, tags: seq<string>): (entry: string)
    ensures StartsWith(entry, "\n\n<h2>" + time + "</h2>\n\n<p>" + message + "</p>")
    ensures |tags| == 0 <==> |entry| == |"\n\n<h2>" + time + "</h2>\n\n<p>" + message + "</p>"|
    ensures |tags| > 0 ==>
      entry[|"\n\n<h2>" + time + "</h2>\n\n<p>" + message + "</p>"|..]
        == "\n\n<p><strong>标签:</strong> " + Join(", ", LabelSpans(tags)) + "</p>"
  {
    "\n\n<h2>" + time + "</h2>\n\n<p>" + message + "</p>" + TagsParagraph(tags)
  }

  /** The day note's new content: what was there, then the new entry. */
  function AppendedContent(current: string, time: string, message: string, tags: seq<string>): (updated: string)
    ensures StartsWith(updated, current)
    ensures updated[|current|..] == DiaryEntryHtml(time, message, tags)
  {
    current + DiaryEntryHtml(time, message, tags)
  }

  /** One message to append: its clock reading, text and tags. */
  datatype Message = Message(time: string, text: string, tags: seq<string>)

  /** The day note after appending several messages in turn. */
  function AppendAll(current: string, msgs: seq<Message>): string
    decreases |msgs|
  {
    if |msgs| == 0 then current
    else AppendAll(AppendedContent(current, msgs[0].time, msgs[0].text, msgs[0].tags), msgs[1..])
  }

  /** The entries of several messages, in order. */
  function Entries(msgs: seq<Message>): string
    decreases |msgs|
  {
    if |msgs| == 0 then "" else DiaryEntryHtml(msgs[0].time, msgs[0].text, msgs[0].tags) + Entries(msgs[1..])
  }

  /** Appending never rewrites history: the day note is its old content followed by the entries in order. */
  lemma {:induction false} AppendAllKeepsHistory(current: string, msgs: seq<Message>)
    ensures AppendAll(current, msgs) == current + Entries(msgs)
    decreases |msgs|
  {
    if |msgs| > 0 {
      var m := msgs[0];
      var e0 := DiaryEntryHtml(m.time, m.text, m.tags);
      var c1 := current + e0;
      var rest := Entries(msgs[1..]);
      assert AppendedContent(current, m.time, m.text, m.tags) == c1;
      assert AppendAll(current, msgs) == AppendAll(c1, msgs[1..]);
      AppendAllKeepsHistory(c1, msgs[1..]);
      assert Entries(msgs) == e0 + rest;
      assert c1 + rest == current + (e0 + rest);
    }
  }

  // ---------------------------------------------------------------------------
  // The client object
  // ---------------------------------------------------------------------------

  /** `TriliumClient`: its token, normalised server URL and parent note, fixed at construction. */
  class TriliumClient {
    const apiToken: string
    const serverUrl: string
    const parentNoteId: string

    constructor (apiToken: string, configuredUrl: string, parentNoteId: string)
      ensures this.apiToken == apiToken && this.parentNoteId == parentNoteId
      ensures serverUrl == RStripSlash(configuredUrl)
      ensures |serverUrl| == 0 || serverUrl[|serverUrl| - 1] != '/'
    {
      this.apiToken := apiToken;
      this.serverUrl := RStripSlash(configuredUrl);
      this.parentNoteId := parentNoteId;
    }

    /** The headers sent with every request: the token itself, with no scheme prefix, and a JSON body type. */
    function Headers(): (h: map<string, string>)
      ensures h.Keys == {"Authorization", "Content-Type"}
      ensures h["Authorization"] == apiToken
      ensures h["Content-Type"] == "application/json"
    {
      map["Authorization" := apiToken, "Content-Type" := "application/json"]
    }

    /** `_make_request`'s URL: server, then `/etapi`, then the endpoint. */
    function RequestUrl(endpoint: string): (url: string)
      ensures StartsWith(url, serverUrl + "/etapi")
      ensures url[|serverUrl + "/etapi"|..] == endpoint
    {
      serverUrl + "/etapi" + endpoint
    }

    /** `_get_note_date_attribute`: the value of the first `date` label, if the note has one. */
    method NoteDateAttribute(note: Note) returns (date: Option<string>)
      ensures date.Some? <==>
        note.attributes.Some? && exists i :: 0 <= i < |note.attributes.value| && IsDateLabel(note.attributes.value[i])
      ensures date.Some? ==> exists i :: (0 <= i < |note.attributes.value|
        && IsDateLabel(note.attributes.value[i]) && date.value == note.attributes.value[i].value
        && forall j :: 0 <= j < i ==> !IsDateLabel(note.attributes.value[j]))
    {
      if note.attributes.None? {
        return None;
      }
      var attrs := note.attributes.value;
      var i := 0;
      while i < |attrs|
        invariant i <= |attrs|
        invariant forall j :: 0 <= j < i ==> !IsDateLabel(attrs[j])
      {
        if attrs[i].kind == "label" && attrs[i].name == "date" {
          return Some(attrs[i].value);
        }
        i := i + 1;
      }
      return None;
    }
  }
}
