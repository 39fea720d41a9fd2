/**
 * The format switch of `saveCanvas`: the format chosen in the save dialog
 * decides the MIME type the canvas is encoded with and the file extension of
 * the download.
 */
module ExportFormat {
  datatype Encoding = Encoding(mimeType: string, extension: string)

  /** JPEG and WebP are taken as chosen; every other value, including an
      unexpected one, falls back to PNG. The MIME type is always an `image/`
      type, and the extension is its subtype except that JPEG files end in
      `jpg`. */
  function EncodingFor(format: string): (e: Encoding)
    ensures e.mimeType == "image/" + (if format in {"jpeg", "webp"} then format else "png")
    ensures e.extension == if format == "jpeg" then "jpg" else e.mimeType[6..]
  {
    match format
    case "jpeg" => Encoding("image/jpeg", "jpg")
    case "webp" => Encoding("image/webp", "webp")
    case _ => Encoding("image/png", "png")
  }

  /** The `download` name of the link: the chosen file name, a dot and the
      extension. */
  function DownloadName(filename: string, format: string): (name: string)
    ensures |name| > |filename| + 1
    ensures name[..|filename|] == filename && name[|filename|] == '.'
    ensures name[|filename| + 1..] == EncodingFor(format).extension
  {
    filename + "." + EncodingFor(format).extension
  }

  /** The three supported encodings are distinct, so a download's extension
      tells which format was chosen, and no format maps to another's MIME type. */
  lemma EncodingsDistinct(f1: string, f2: string)
    ensures EncodingFor(f1) == EncodingFor(f2) <==>
      (f1 == f2 || (f1 !in {"jpeg", "webp"} && f2 !in {"jpeg", "webp"}))
  {
  }
}
