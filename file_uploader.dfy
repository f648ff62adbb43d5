/**
 * The upload dialog the admin screen opens: it checks a chosen file against
 * a size limit and a media-type allow-list, keeps the last accepted file, and
 * hands it to the screen's `onUpload` callback.
 */
module FileUploader {
  import opened ChatTypes
  import FileAttachment

  /** 50 MiB. */
  const MaxFileSize: nat := 50 * 1024 * 1024

  const AllowedTypes: seq<string> := [
    "image/jpeg",
    "image/png",
    "image/gif",
    "image/webp",
    "video/mp4",
    "video/webm",
    "application/pdf"
  ]

  /** Why a chosen file was turned away (each shown as an error toast). */
  datatype Rejection = TooLarge | TypeNotAllowed

  /**
   * The checks of `handleFileSelect`, in their order: the size check comes
   * first, so an oversize file is reported as too large whatever its type.
   */
  function Check(file: File): (r: Option<Rejection>)
    ensures r == Some(TooLarge) <==> file.size > MaxFileSize
    ensures r == Some(TypeNotAllowed) <==> file.size <= MaxFileSize && file.mediaType !in AllowedTypes
    ensures r.None? <==> file.size <= MaxFileSize && file.mediaType in AllowedTypes
  {
    if file.size > MaxFileSize then Some(TooLarge)
    else if file.mediaType !in AllowedTypes then Some(TypeNotAllowed)
    else None
  }

  /** The limit is inclusive: a file of exactly 50 MiB passes the size check. */
  lemma ExactLimitPasses(name: string, mediaType: string)
    ensures MaxFileSize == 52428800
    ensures Check(File(name, 52428800, mediaType)) != Some(TooLarge)
    ensures Check(File(name, 52428801, mediaType)) == Some(TooLarge)
  {
  }

  /**
   * Every accepted media type has an inline rendering: once its signed URL is
   * known, an accepted file shows as an image, a video or a PDF button, never
   * as the generic download button.
   */
  lemma {:induction false} AcceptedFilesRenderInline(file: File, url: string)
    requires Check(file).None? && url != ""
    ensures !FileAttachment.Render(Some(url), Some(file.mediaType)).Loading?
    ensures !FileAttachment.Render(Some(url), Some(file.mediaType)).DownloadButton?
  {
    var t := file.mediaType;
    FileAttachment.RenderCases(Some(url), Some(t));
    if t[..6] == "image/" {
      assert FileAttachment.IsImage(Some(t));
    } else if t[..6] == "video/" {
      assert FileAttachment.IsVideo(Some(t));
    } else {
      assert t == "application/pdf";
    }
  }

  class UploaderState {
    var selectedFile: Option<File>

    constructor ()
      ensures selectedFile == None
    {
      selectedFile := None;
    }

    /**
     * `handleFileSelect`: no file chosen, or a file that fails `Check`, leaves
     * the selection as it was; a file that passes becomes the selection.
     */
    method HandleFileSelect(chosen: Option<File>) returns (rejection: Option<Rejection>)
      modifies this
      ensures chosen.None? ==> rejection.None?
      ensures chosen.Some? ==> rejection == Check(chosen.value)
      ensures selectedFile == if chosen.Some? && rejection.None? then chosen else old(selectedFile)
    {
      if chosen.None? {
        return None;
      }
      rejection := Check(chosen.value);
      if rejection.None? {
        selectedFile := chosen;
      }
    }

    /**
     * `handleUpload`: the list of `onUpload` calls it makes, which is exactly
     * one call with the selected file when there is one and none otherwise.
     */
    method HandleUpload() returns (calls: seq<File>)
      ensures |calls| == (if selectedFile.Some? then 1 else 0)
      ensures selectedFile.Some? ==> calls[0] == selectedFile.value
    {
      calls := [];
      if selectedFile.Some? {
        calls := calls + [selectedFile.value];
      }
    }
  }
}
