/**
 * The message composer: its two state fields (the draft text and the pending
 * attachments), the guard that decides whether a send goes through, and the
 * list updates done when a file is picked or a preview is removed.
 */
module InputArea {
  import opened Types
  import opened Text
  import GeminiService

  /** The guard of `handleSend`: refused for blank text with no attachment, and while loading. */
  predicate CanSend(text: string, attachments: seq<Attachment>, isLoading: bool): (ok: bool)
    ensures ok ==> !isLoading
    ensures !isLoading && |attachments| > 0 ==> ok
    ensures ok && |attachments| == 0 ==> !IsBlank(text)
  {
    TrimEmptyIffBlank(text);
    !((Trim(text) == "" && |attachments| == 0) || isLoading)
  }

  /** A send goes through exactly when nothing is loading and there is a non-blank character or an attachment. */
  lemma CanSendIff(text: string, attachments: seq<Attachment>, isLoading: bool)
    ensures CanSend(text, attachments, isLoading) <==>
              !isLoading && (|attachments| > 0 || exists i :: 0 <= i < |text| && !IsWhitespace(text[i]))
  {
    TrimEmptyIffBlank(text);
  }

  /** Only image and video types are accepted for attachment. */
  predicate IsAcceptedMime(mimeType: string): (ok: bool)
    ensures ok <==> 6 <= |mimeType| && (mimeType[..6] == "image/" || mimeType[..6] == "video/")
  {
    StartsWith(mimeType, "image/") || StartsWith(mimeType, "video/")
  }

  /** A type is accepted exactly when it is `image/` or `video/` followed by anything. */
  lemma AcceptedMimeIff(mimeType: string)
    ensures IsAcceptedMime(mimeType) <==>
              exists subtype: string :: mimeType == "image/" + subtype || mimeType == "video/" + subtype
  {
    forall subtype: string
      ensures mimeType == "image/" + subtype ==> StartsWith(mimeType, "image/")
      ensures mimeType == "video/" + subtype ==> StartsWith(mimeType, "video/")
    {
      assert ("image/" + subtype)[..6] == "image/";
      assert ("video/" + subtype)[..6] == "video/";
    }
    if StartsWith(mimeType, "image/") {
      assert mimeType == "image/" + mimeType[6..];
    } else if StartsWith(mimeType, "video/") {
      assert mimeType == "video/" + mimeType[6..];
    }
  }

  /** The attachment list after a file pick: the first picked file, if accepted and read, appended at the end. */
  function AfterFilePick(attachments: seq<Attachment>, files: seq<GeminiService.File>,
                         read: GeminiService.ReadOutcome, previewUrl: string): (r: seq<Attachment>)
    ensures |attachments| <= |r| <= |attachments| + 1 && r[..|attachments|] == attachments
  {
    if |files| == 0 || !IsAcceptedMime(files[0].mimeType) then attachments
    else
      match GeminiService.FileToGenerativePart(files[0], read)
      case Ok(part) => attachments + [Attachment(part.mimeType, part.data, Some(previewUrl))]
      case Err(_) => attachments
  }

  /**
   * A file pick adds at most one attachment, at the end, and only for an accepted
   * type that was read; the new attachment has the file's type and its preview URL.
   */
  lemma FilePickOutcome(attachments: seq<Attachment>, files: seq<GeminiService.File>,
                        read: GeminiService.ReadOutcome, previewUrl: string)
    ensures var r := AfterFilePick(attachments, files, read, previewUrl);
      && r[..|attachments|] == attachments
      && (|r| == |attachments| + 1 <==> |files| > 0 && IsAcceptedMime(files[0].mimeType) && read.Loaded?)
      && (|r| != |attachments| + 1 ==> r == attachments)
      && (|r| == |attachments| + 1 ==>
            && r[|attachments|].mimeType == files[0].mimeType
            && r[|attachments|].data == GeminiService.DataUrlPayload(read.dataUrl)
            && r[|attachments|].previewUrl == Some(previewUrl))
  {
  }

  /** A file of type `application/pdf` is rejected. */
  lemma PdfIsRejected()
    ensures !IsAcceptedMime("application/pdf")
  {
    var pdf := "application/pdf";
    assert pdf[..6] != "image/" by { assert pdf[0] != "image/"[0]; }
    assert pdf[..6] != "video/" by { assert pdf[0] != "video/"[0]; }
  }

  /** `list.filter((_, i) => i !== index)`: keeps every element whose position is not `index`. */
  function WithoutIndex<T>(list: seq<T>, index: int): (r: seq<T>)
    ensures |r| == if 0 <= index < |list| then |list| - 1 else |list|
    ensures !(0 <= index < |list|) ==> r == list
  {
    if list == [] then []
    else
      assert list == list[..|list| - 1] + [list[|list| - 1]];
      WithoutIndex(list[..|list| - 1], index) + (if |list| - 1 != index then [list[|list| - 1]] else [])
  }

  /** Removing by index drops exactly that element and keeps the others in order; out of range changes nothing. */
  lemma {:induction false} WithoutIndexRemoves<T>(list: seq<T>, index: int)
    ensures WithoutIndex(list, index) == if 0 <= index < |list| then list[..index] + list[index + 1..] else list
  {
    if list != [] {
      var init, last := list[..|list| - 1], list[|list| - 1];
      WithoutIndexRemoves(init, index);
      if index == |list| - 1 {
        assert list[..index] == init;
      } else if 0 <= index < |list| - 1 {
        SpliceLast(list, init, last, index);
      } else {
        assert init + [last] == list;
      }
    }
  }

  /** Dropping position `index` before the last element commutes with appending that element. */
  lemma SpliceLast<T>(list: seq<T>, init: seq<T>, last: T, index: int)
    requires list == init + [last] && 0 <= index < |init|
    ensures init[..index] + init[index + 1..] + [last] == list[..index] + list[index + 1..]
  {
    assert init[..index] == list[..index];
    assert init[index + 1..] + [last] == list[index + 1..];
  }

  /** What `onSend` receives: the untrimmed text and the attachment list. */
  datatype Outgoing = Outgoing(text: string, attachments: seq<Attachment>)

  /** The composer's state: the draft text and the pending attachments. */
  class Composer {
    var text: string
    var attachments: seq<Attachment>

    constructor ()
      ensures text == "" && attachments == []
    {
      text := "";
      attachments := [];
    }

    /** The text area's change handler. */
    method SetText(value: string)
      modifies this
      ensures text == value && attachments == old(attachments)
    {
      text := value;
    }

    /** `handleSend`: hands text and attachments to `onSend` and clears both, unless the guard refuses. */
    method Send(isLoading: bool) returns (sent: Option<Outgoing>)
      modifies this
      ensures sent.Some? <==> CanSend(old(text), old(attachments), isLoading)
      ensures sent.Some? ==> sent.value == Outgoing(old(text), old(attachments)) && text == "" && attachments == []
      ensures sent.None? ==> text == old(text) && attachments == old(attachments)
    {
      if !CanSend(text, attachments, isLoading) {
        return None;
      }
      sent := Some(Outgoing(text, attachments));
      text := "";
      attachments := [];
    }

    /** `handleKeyDown`: Enter without Shift sends through the same guard; other keys do nothing here. */
    method KeyDown(key: string, shiftKey: bool, isLoading: bool) returns (sent: Option<Outgoing>)
      modifies this
      ensures key == "Enter" && !shiftKey ==>
                && (sent.Some? <==> CanSend(old(text), old(attachments), isLoading))
                && (sent.Some? ==> sent.value == Outgoing(old(text), old(attachments)) && text == "" && attachments == [])
                && (sent.None? ==> text == old(text) && attachments == old(attachments))
      ensures !(key == "Enter" && !shiftKey) ==> sent == None && text == old(text) && attachments == old(attachments)
    {
      sent := None;
      if key == "Enter" && !shiftKey {
        sent := Send(isLoading);
      }
    }

    /**
     * `handleFileChange`: the first picked file is checked for an image or video
     * type, encoded, and appended with its preview URL; a rejected type or a read
     * error leaves the list as it was.
     */
    method AttachFile(files: seq<GeminiService.File>, read: GeminiService.ReadOutcome, previewUrl: string)
      modifies this
      ensures text == old(text)
      ensures attachments == AfterFilePick(old(attachments), files, read, previewUrl)
    {
      if |files| > 0 {
        var file := files[0];
        if !IsAcceptedMime(file.mimeType) {
          return;
        }
        var part := GeminiService.FileToGenerativePart(file, read);
        if part.Ok? {
          attachments := attachments + [Attachment(part.value.mimeType, part.value.data, Some(previewUrl))];
        }
      }
    }

    /** `removeAttachment`: drops the attachment at `index`. */
    method RemoveAttachment(index: int)
      modifies this
      ensures text == old(text)
      ensures attachments == WithoutIndex(old(attachments), index)
    {
      attachments := WithoutIndex(attachments, index);
    }
  }
}
