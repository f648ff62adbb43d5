/**
 * The display decisions of one chat bubble: which side it sits on (the
 * viewer's own messages on the right), whether its text and its attachment
 * are shown, and whether the "seen" tick appears.
 */
module MessageBubble {
  import opened ChatTypes

  /**
   * The `isAdmin` prop as the bubble uses it: the admin screen passes `true`,
   * the user screen leaves it out, and an omitted prop defaults to `false`.
   */
  function ViewerIsAdmin(isAdmin: Option<bool>): (admin: bool)
    ensures admin <==> isAdmin == Some(true)
  {
    if isAdmin.Some? then isAdmin.value else false
  }

  /** A message is the viewer's own when the viewer's role sent it. */
  function IsOwnMessage(m: Message, isAdmin: Option<bool>): (own: bool)
    ensures isAdmin == Some(true) ==> (own <==> m.sender == Admin)
    ensures isAdmin != Some(true) ==> (own <==> m.sender == User)
  {
    if ViewerIsAdmin(isAdmin) then m.sender == Admin else m.sender == User
  }

  /** `message.content && <p>…</p>`: null and empty text both hide the paragraph. */
  function ShowsContent(m: Message): (shown: bool)
    ensures shown <==> m.content.Some? && |m.content.value| > 0
  {
    IsTruthy(m.content)
  }

  /** `message.file_path && <FileAttachment …/>` */
  function ShowsAttachment(m: Message): (shown: bool)
    ensures shown <==> m.filePath.Some? && |m.filePath.value| > 0
  {
    IsTruthy(m.filePath)
  }

  /** `isOwnMessage && message.seen && <CheckCheck …/>` */
  function ShowsSeenTick(m: Message, isAdmin: Option<bool>): (shown: bool)
    ensures shown <==> m.seen && m.sender == (if isAdmin == Some(true) then Admin else User)
  {
    IsOwnMessage(m, isAdmin) && m.seen
  }

  /** Since a sender is one of two roles, every message is own in exactly one of the two screens. */
  lemma OwnInExactlyOneView(m: Message)
    ensures IsOwnMessage(m, Some(true)) != IsOwnMessage(m, Some(false))
  {
  }

  /** Leaving the prop out gives the end user's view. */
  lemma DefaultIsUserView(m: Message)
    ensures IsOwnMessage(m, None) == IsOwnMessage(m, Some(false))
  {
  }
}
