/**
 * How a message's attachment is rendered once its signed URL has (or has not)
 * been obtained: an inline image, an inline video, a "View PDF" button or a
 * generic "Download File" button, chosen from the declared media type.
 */
module FileAttachment {
  import opened ChatTypes

  datatype View =
    | Loading
    | InlineImage(src: string)
    | InlineVideo(src: string)
    | PdfButton(url: string)
    | DownloadButton(url: string)

  /** `s.startsWith(prefix)` */
  predicate StartsWith(s: string, prefix: string) {
    |prefix| <= |s| && s[..|prefix|] == prefix
  }

  /** `fileType?.startsWith("image/")`: false when the type is null. */
  predicate IsImage(fileType: Option<string>) {
    fileType.Some? && StartsWith(fileType.value, "image/")
  }

  predicate IsVideo(fileType: Option<string>) {
    fileType.Some? && StartsWith(fileType.value, "video/")
  }

  predicate IsPdf(fileType: Option<string>) {
    fileType == Some("application/pdf")
  }

  /**
   * The component's render choice, the if-chain of its returns: the
   * placeholder exactly while there is no usable signed URL, and otherwise a
   * view that links to that URL.
   */
  function Render(signedUrl: Option<string>, fileType: Option<string>): (v: View)
    ensures v == Loading <==> !IsTruthy(signedUrl)
    ensures v != Loading ==>
      match v
      case InlineImage(u) => u == signedUrl.value
      case InlineVideo(u) => u == signedUrl.value
      case PdfButton(u) => u == signedUrl.value
      case DownloadButton(u) => u == signedUrl.value
      case Loading => false
  {
    if !IsTruthy(signedUrl) then Loading
    else if IsImage(fileType) then InlineImage(signedUrl.value)
    else if IsVideo(fileType) then InlineVideo(signedUrl.value)
    else if IsPdf(fileType) then PdfButton(signedUrl.value)
    else DownloadButton(signedUrl.value)
  }

  /** The three media-type tests never hold together. */
  lemma MediaKindsAreExclusive(fileType: Option<string>)
    ensures !(IsImage(fileType) && IsVideo(fileType))
    ensures IsPdf(fileType) ==> !IsImage(fileType) && !IsVideo(fileType)
  {
    if IsPdf(fileType) {
      assert fileType.value[0] == 'a';
    }
  }

  /**
   * Each view is chosen under exactly one condition on the inputs: without a
   * signed URL (null or empty) the placeholder whatever the type; otherwise
   * image, video and PDF by the media type, and the download button for every
   * other type, null included.
   */
  lemma RenderCases(signedUrl: Option<string>, fileType: Option<string>)
    ensures Render(signedUrl, fileType).InlineImage? <==> IsTruthy(signedUrl) && IsImage(fileType)
    ensures Render(signedUrl, fileType).InlineVideo? <==> IsTruthy(signedUrl) && IsVideo(fileType)
    ensures Render(signedUrl, fileType).PdfButton? <==> IsTruthy(signedUrl) && IsPdf(fileType)
    ensures Render(signedUrl, fileType).DownloadButton? <==>
      IsTruthy(signedUrl) && !IsImage(fileType) && !IsVideo(fileType) && !IsPdf(fileType)
  {
    MediaKindsAreExclusive(fileType);
  }
}
