/**
 * The administrator's screen: the conversation of the selected end user, the
 * unseen-message counter, sending a text reply, and uploading a file with a
 * simulated upload progress value.
 */
module AdminDashboard {
  import opened ChatTypes
  import opened JsText
  import opened FileNames
  import Reconciler
  import MessageBubble

  // ---------------------------------------------------------------------
  // Unseen counter: messages.filter(m => !m.seen && m.sender === "user").length

  predicate IsUnseenFromUser(m: Message) {
    !m.seen && m.sender == User
  }

  /** The positions of the messages the counter counts. */
  ghost function UnseenPositions(s: seq<Message>): set<int> {
    set i | 0 <= i < |s| && IsUnseenFromUser(s[i])
  }

  /**
   * The messages the counter counts, in list order: exactly the unseen user
   * messages of `s`, one entry per position that holds one.
   */
  function UnseenFromUser(s: seq<Message>): (r: seq<Message>)
    ensures |r| == |UnseenPositions(s)| && |r| <= |s|
    ensures forall m :: m in r <==> m in s && IsUnseenFromUser(m)
    decreases |s|
  {
    if s == [] then []
    else
      var r := UnseenFromUser(s[..|s| - 1]);
      assert s == s[..|s| - 1] + [s[|s| - 1]];
      UnseenPositionsOfInit(s);
      if IsUnseenFromUser(s[|s| - 1]) then r + [s[|s| - 1]] else r
  }

  /** The counted positions of a list are those of its initial part plus, maybe, the last one. */
  lemma UnseenPositionsOfInit(s: seq<Message>)
    requires s != []
    ensures |s| - 1 !in UnseenPositions(s[..|s| - 1])
    ensures UnseenPositions(s) ==
      UnseenPositions(s[..|s| - 1]) + (if IsUnseenFromUser(s[|s| - 1]) then {|s| - 1} else {})
  {
  }

  /** `unseenCount`: the number of unseen user messages in the list. */
  function UnseenCount(s: seq<Message>): (n: nat)
    ensures n == |UnseenPositions(s)|
    ensures n <= |s|
  {
    |UnseenFromUser(s)|
  }

  /** The counter adds up over a split of the list. */
  lemma {:induction false} UnseenCountAppend(s: seq<Message>, t: seq<Message>)
    ensures UnseenCount(s + t) == UnseenCount(s) + UnseenCount(t)
    decreases |t|
  {
    if t == [] {
      assert s + t == s;
    } else {
      assert (s + t)[..|s + t| - 1] == s + t[..|t| - 1];
      UnseenCountAppend(s, t[..|t| - 1]);
    }
  }

  /** The counter is positive exactly when some user message has not been seen. */
  lemma {:induction false} UnseenCountPositive(s: seq<Message>)
    ensures UnseenCount(s) > 0 <==> exists i :: 0 <= i < |s| && IsUnseenFromUser(s[i])
    decreases |s|
  {
    if s != [] {
      var init := s[..|s| - 1];
      UnseenCountPositive(init);
      if exists i :: 0 <= i < |init| && IsUnseenFromUser(init[i]) {
        var i :| 0 <= i < |init| && IsUnseenFromUser(init[i]);
        assert s[i] == init[i];
      }
      if exists i :: 0 <= i < |s| && IsUnseenFromUser(s[i]) {
        var i :| 0 <= i < |s| && IsUnseenFromUser(s[i]);
        if i < |s| - 1 {
          assert init[i] == s[i];
        }
      }
    }
  }

  /** An INSERT raises the counter by one exactly when the new row is an unseen user message. */
  lemma UnseenCountAfterInsert(prev: seq<Message>, row: Message)
    ensures UnseenCount(Reconciler.Apply(prev, Reconciler.Inserted(row)))
         == UnseenCount(prev) + (if IsUnseenFromUser(row) then 1 else 0)
  {
    UnseenCountAppend(prev, [row]);
    assert [row][..0] == [];
  }

  /**
   * The bubbles agree with the admin's unseen counter: a message the counter
   * counts sits on the left of the admin's screen without a tick, and on the
   * user's screen a user message carries the tick exactly when the counter no
   * longer counts it.
   */
  lemma BubblesAgreeWithUnseenCounter(m: Message)
    ensures IsUnseenFromUser(m) ==>
      !MessageBubble.IsOwnMessage(m, Some(true)) && !MessageBubble.ShowsSeenTick(m, Some(true))
    ensures m.sender == User ==>
      (MessageBubble.ShowsSeenTick(m, None) <==> !IsUnseenFromUser(m))
  {
  }

  // ---------------------------------------------------------------------
  // Sending a text reply

  /**
   * The row `handleSend` inserts: none when the input is blank or no end user
   * is selected; otherwise an admin message to that user holding the trimmed
   * input.
   */
  function SendRequest(selectedUserId: Option<string>, content: string): (r: Option<NewMessage>)
    ensures r.None? <==> AllWhiteSpace(content) || !IsTruthy(selectedUserId)
    ensures r.Some? ==> && r.value.userId == selectedUserId.value
                        && r.value.sender == Admin
                        && r.value.content == Some(Trim(content))
                        && r.value.filePath.None? && r.value.fileType.None?
    ensures r.Some? ==> IsTruthy(r.value.content)
  {
    if Trim(content) == [] || !IsTruthy(selectedUserId) then None
    else Some(NewMessage(selectedUserId.value, Admin, Some(Trim(content)), None, None))
  }

  // ---------------------------------------------------------------------
  // Uploading a file

  /**
   * `admin/${selectedUserId}/${Date.now()}.${fileExt}`: the folder prefix,
   * then the decimal digits of the timestamp, then a dot and the file name's
   * extension.
   */
  function StorageKey(selectedUserId: string, now: nat, fileName: string): (key: string)
    ensures |"admin/" + selectedUserId + "/"| < |key|
    ensures key[..|"admin/" + selectedUserId + "/"|] == "admin/" + selectedUserId + "/"
    ensures var p := |"admin/" + selectedUserId + "/"|;
            var q := p + |Decimal(now)|;
            && q < |key| && key[q] == '.'
            && IsDigits(key[p..q]) && DecimalValue(key[p..q]) == now
            && key[q + 1..] == FileExtension(fileName)
    ensures FileExtension(key) == FileExtension(fileName)
  {
    var prefix := "admin/" + selectedUserId + "/";
    var key := prefix + Decimal(now) + "." + FileExtension(fileName);
    assert key[|prefix|..|prefix| + |Decimal(now)|] == Decimal(now);
    DecimalRoundTrip(now);
    ExtensionOfDottedName(prefix + Decimal(now), FileExtension(fileName));
    key
  }

  /**
   * The updater the progress interval passes to `setUploadProgress`: it
   * raises `uploadProgress` by at most 10, stands still exactly from 90 on,
   * and keeps a multiple of 10 between 0 and 90 within that range.
   */
  function ProgressTick(prev: int): (next: int)
    ensures prev <= next <= prev + 10
    ensures next == prev <==> prev >= 90
    ensures 0 <= prev <= 90 && prev % 10 == 0 ==> 0 <= next <= 90 && next % 10 == 0
  {
    if prev >= 90 then prev else prev + 10
  }

  /** The progress after `k` interval firings starting from `start`. */
  function ProgressAfter(start: int, k: nat): int
    decreases k
  {
    if k == 0 then start else ProgressTick(ProgressAfter(start, k - 1))
  }

  function Min(a: int, b: int): int {
    if a <= b then a else b
  }

  /**
   * From 0 `uploadProgress` climbs in steps of 10 and stops at 90: after `k`
   * firings it is min(10k, 90), a multiple of 10 that never exceeds 90.
   */
  lemma {:induction false} ProgressFromZero(k: nat)
    ensures ProgressAfter(0, k) == Min(10 * k, 90)
    ensures ProgressAfter(0, k) % 10 == 0 && 0 <= ProgressAfter(0, k) <= 90
    decreases k
  {
    if k > 0 {
      ProgressFromZero(k - 1);
    }
  }

  /** Once `uploadProgress` has reached 90 further firings leave it where it is. */
  lemma {:induction false} ProgressStaysAtCap(start: int, k: nat)
    requires start >= 90
    ensures ProgressAfter(start, k) == start
    decreases k
  {
    if k > 0 {
      ProgressStaysAtCap(start, k - 1);
    }
  }

  // ---------------------------------------------------------------------
  // The component's state

  class DashboardState {
    var selectedUserId: Option<string>
    var messages: seq<Message>
    var content: string
    var uploading: bool
    var uploadProgress: int
    var showFileUpload: bool

    constructor ()
      ensures selectedUserId == None && messages == [] && content == ""
      ensures !uploading && uploadProgress == 0 && !showFileUpload
    {
      selectedUserId := None;
      messages := [];
      content := "";
      uploading := false;
      uploadProgress := 0;
      showFileUpload := false;
    }

    /** The counter shown on the "Mark as Seen" button. */
    function UnseenCounter(): (n: nat)
      reads this
      ensures n <= |messages|
    {
      UnseenCount(messages)
    }

    /** Clicking a profile in the sidebar; the list is refetched separately. */
    method SelectUser(id: string)
      modifies this`selectedUserId
      ensures selectedUserId == Some(id)
    {
      selectedUserId := Some(id);
    }

    /** Typing in the input box. */
    method SetContent(text: string)
      modifies this`content
      ensures content == text
    {
      content := text;
    }

    /** The realtime handler for a change to the selected user's messages. */
    method ApplyEvent(e: Reconciler.ChangeEvent)
      modifies this`messages
      ensures messages == Reconciler.Apply(old(messages), e)
    {
      messages := Reconciler.Apply(messages, e);
    }

    /**
     * `handleSend`: issues the insert `SendRequest` describes, if any, and
     * clears the input once the store has accepted it.
     */
    method HandleSend(insertSucceeds: bool) returns (sent: Option<NewMessage>)
      modifies this`content
      ensures sent == SendRequest(selectedUserId, old(content))
      ensures content == if sent.Some? && insertSucceeds then "" else old(content)
    {
      sent := SendRequest(selectedUserId, content);
      if sent.Some? && insertSucceeds {
        content := "";
      }
    }

    /** Opening the upload dialog from the paperclip button. */
    method OpenFileUpload()
      modifies this`showFileUpload
      ensures showFileUpload
    {
      showFileUpload := true;
    }

    /** The dialog's Cancel button, ignored while an upload is running. */
    method CancelFileUpload()
      modifies this`showFileUpload
      ensures showFileUpload == (old(showFileUpload) && uploading)
    {
      if !uploading {
        showFileUpload := false;
      }
    }

    /** One firing of the progress interval. */
    method AdvanceProgress()
      modifies this`uploadProgress
      ensures uploadProgress == ProgressTick(old(uploadProgress))
    {
      uploadProgress := ProgressTick(uploadProgress);
    }

    /**
     * `handleFileUpload`: with no end user selected nothing happens. Otherwise
     * the file is uploaded under `StorageKey`, the interval fires `ticks` times
     * while the upload is pending (leaving `uploadProgress` at
     * `pendingProgress`), and a file message is inserted when the upload
     * succeeded. Whatever the outcome `uploadProgress` ends at 0 and
     * `uploading` is false; the dialog closes only when both the upload and
     * the insert succeeded.
     */
    method HandleFileUpload(file: File, now: nat, ticks: nat, uploadSucceeds: bool, insertSucceeds: bool)
      returns (upload: Option<StorageUpload>, sent: Option<NewMessage>, pendingProgress: int)
      modifies this`uploading, this`uploadProgress, this`showFileUpload
      ensures !IsTruthy(selectedUserId) ==>
        && upload.None? && sent.None?
        && uploading == old(uploading) && uploadProgress == old(uploadProgress)
        && showFileUpload == old(showFileUpload)
      ensures IsTruthy(selectedUserId) ==>
        var key := StorageKey(selectedUserId.value, now, file.name);
        && upload == Some(StorageUpload(key, file))
        && pendingProgress == Min(10 * ticks, 90)
        && sent == (if uploadSucceeds then Some(NewMessage(selectedUserId.value, Admin, None, Some(key), Some(file.mediaType))) else None)
        && !uploading && uploadProgress == 0
        && showFileUpload == (old(showFileUpload) && !(uploadSucceeds && insertSucceeds))
    {
      if !IsTruthy(selectedUserId) {
        return None, None, uploadProgress;
      }
      uploading := true;
      uploadProgress := 0;
      var key := StorageKey(selectedUserId.value, now, file.name);

      var i := 0;
      while i < ticks
        invariant 0 <= i <= ticks
        invariant uploadProgress == ProgressAfter(0, i)
        invariant uploading && showFileUpload == old(showFileUpload)
      {
        AdvanceProgress();
        i := i + 1;
      }
      pendingProgress := uploadProgress;
      ProgressFromZero(ticks);

      upload := Some(StorageUpload(key, file));
      uploadProgress := 100;
      if !uploadSucceeds {
        sent := None;
        uploadProgress := 0;
      } else {
        sent := Some(NewMessage(selectedUserId.value, Admin, None, Some(key), Some(file.mediaType)));
        if insertSucceeds {
          showFileUpload := false;
          uploadProgress := 0;
        } else {
          uploadProgress := 0;
        }
      }
      uploading := false;
    }
  }
}
