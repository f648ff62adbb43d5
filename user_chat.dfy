/**
 * The end user's screen: their own conversation, sending a text message and
 * sending a file picked from the hidden file input.
 */
module UserChat {
  import opened ChatTypes
  import opened JsText
  import opened FileNames
  import Reconciler
  import MessageBubble

  /**
   * The row `handleSend` inserts: none when the input is blank; otherwise a
   * user message in the user's own conversation holding the trimmed input.
   */
  function SendRequest(userId: string, content: string): (r: Option<NewMessage>)
    ensures r.None? <==> AllWhiteSpace(content)
    ensures r.Some? ==> && r.value.userId == userId
                        && r.value.sender == User
                        && r.value.content == Some(Trim(content))
                        && r.value.filePath.None? && r.value.fileType.None?
    ensures r.Some? ==> IsTruthy(r.value.content)
  {
    if Trim(content) == [] then None
    else Some(NewMessage(userId, User, Some(Trim(content)), None, None))
  }

  /**
   * `${user.id}/${Date.now()}.${fileExt}`: the user's folder, then the
   * decimal digits of the timestamp, then a dot and the file name's extension.
   */
  function StorageKey(userId: string, now: nat, fileName: string): (key: string)
    ensures |userId + "/"| < |key|
    ensures key[..|userId + "/"|] == userId + "/"
    ensures var p := |userId + "/"|;
            var q := p + |Decimal(now)|;
            && q < |key| && key[q] == '.'
            && IsDigits(key[p..q]) && DecimalValue(key[p..q]) == now
            && key[q + 1..] == FileExtension(fileName)
    ensures FileExtension(key) == FileExtension(fileName)
  {
    var prefix := userId + "/";
    var key := prefix + Decimal(now) + "." + FileExtension(fileName);
    assert key[|prefix|..|prefix| + |Decimal(now)|] == Decimal(now);
    DecimalRoundTrip(now);
    ExtensionOfDottedName(prefix + Decimal(now), FileExtension(fileName));
    key
  }

  /**
   * What the screens send is visible once it comes back as a row: a text
   * message shows its (non-blank) text, and a file message, whose path is a
   * storage key and never empty, shows its attachment and no text.
   */
  lemma SentMessagesAreShown(userId: string, content: string, now: nat, fileName: string, m: Message)
    ensures (SendRequest(userId, content).Some? &&
             m.content == SendRequest(userId, content).value.content) ==> MessageBubble.ShowsContent(m)
    ensures (m.filePath == Some(StorageKey(userId, now, fileName)) && m.content.None?) ==>
            MessageBubble.ShowsAttachment(m) && !MessageBubble.ShowsContent(m)
  {
  }

  class ChatState {
    const userId: string
    var messages: seq<Message>
    var content: string

    constructor (userId: string)
      ensures this.userId == userId && messages == [] && content == ""
    {
      this.userId := userId;
      messages := [];
      content := "";
    }

    /** Typing in the input box. */
    method SetContent(text: string)
      modifies this`content
      ensures content == text
    {
      content := text;
    }

    /** The realtime handler for a change to the user's own messages. */
    method ApplyEvent(e: Reconciler.ChangeEvent)
      modifies this`messages
      ensures messages == Reconciler.Apply(old(messages), e)
    {
      messages := Reconciler.Apply(messages, e);
    }

    /**
     * `handleSend`: issues the insert `SendRequest` describes, if any, and
     * clears the input once the store has accepted it.
     */
    method HandleSend(insertSucceeds: bool) returns (sent: Option<NewMessage>)
      modifies this`content
      ensures sent == SendRequest(userId, old(content))
      ensures content == if sent.Some? && insertSucceeds then "" else old(content)
    {
      sent := SendRequest(userId, content);
      if sent.Some? && insertSucceeds {
        content := "";
      }
    }

    /**
     * `handleFileSelect`: with no file chosen nothing happens. Otherwise the
     * file is uploaded under `StorageKey`, and only if that upload succeeds is
     * a file message inserted: sent by the user, pointing at the key, typed
     * with the file's media type and carrying no text.
     */
    method HandleFileSelect(chosen: Option<File>, now: nat, uploadSucceeds: bool)
      returns (upload: Option<StorageUpload>, sent: Option<NewMessage>)
      ensures chosen.None? ==> upload.None? && sent.None?
      ensures chosen.Some? ==>
        upload == Some(StorageUpload(StorageKey(userId, now, chosen.value.name), chosen.value))
      ensures sent.Some? <==> chosen.Some? && uploadSucceeds
      ensures sent.Some? ==>
        && sent.value.userId == userId && sent.value.sender == User
        && sent.value.content.None?
        && sent.value.filePath == Some(upload.value.key)
        && sent.value.fileType == Some(chosen.value.mediaType)
    {
      if chosen.None? {
        return None, None;
      }
      var file := chosen.value;
      var key := StorageKey(userId, now, file.name);
      upload := Some(StorageUpload(key, file));
      if !uploadSucceeds {
        return upload, None;
      }
      sent := Some(NewMessage(userId, User, None, Some(key), Some(file.mediaType)));
    }
  }
}
