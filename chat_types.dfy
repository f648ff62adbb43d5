/**
 * The records the chat screens exchange with the hosted backend: a stored
 * message row, the row a screen asks the store to insert, a file picked in
 * the browser and an object-storage upload request.
 */
module ChatTypes {

  datatype Option<+T> = None | Some(value: T)

  /** The `sender` column: one of exactly two roles. */
  datatype Sender = User | Admin

  /** A row of the `messages` table as the screens receive it. */
  datatype Message = Message(
    id: string,
    userId: string,
    sender: Sender,
    content: Option<string>,
    filePath: Option<string>,
    fileType: Option<string>,
    seen: bool,
    createdAt: string)

  /**
   * The object a screen passes to `insert` on the `messages` table. Columns it
   * leaves out (id, seen, created_at) are filled in by the store; an omitted
   * text or file column is `None`.
   */
  datatype NewMessage = NewMessage(
    userId: string,
    sender: Sender,
    content: Option<string>,
    filePath: Option<string>,
    fileType: Option<string>)

  /** A browser `File`: its name, its size in bytes and its declared media type. */
  datatype File = File(name: string, size: nat, mediaType: string)

  /** An upload of `file` under `key` in the `chat-uploads` storage bucket. */
  datatype StorageUpload = StorageUpload(key: string, file: File)

  /**
   * JavaScript truthiness of a `string | null` value: `null` and the empty
   * string are both false.
   */
  predicate IsTruthy(s: Option<string>) {
    s.Some? && s.value != ""
  }
}
