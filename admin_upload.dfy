/** The checks `uploadFile` (admin/admin.js) makes before it accepts a file:
    no file, a MIME type outside the allowed list for the upload kind, or a
    size above the kind's limit. */
module AdminUpload {
  import opened Js

  /** The parts of a browser `File` the checks look at. */
  datatype File = File(name: string, mimeType: string, size: nat)

  /** What the returned promise settles with: `null`, a rejection message,
      or the record describing the accepted upload (its object URL is left
      out). */
  datatype UploadOutcome =
    | NoUpload
    | Rejected(reason: string)
    | Uploaded(filename: string, size: nat, mimeType: string)

  const ImageTypes: seq<string> := ["image/jpeg", "image/png", "image/gif", "image/webp"]
  const PdfTypes: seq<string> := ["application/pdf"]

  const MiB: nat := 1024 * 1024

  /** `validTypes[type] || validTypes.image`. */
  function AllowedTypes(kind: string): seq<string>
  {
    if kind == "pdf" then PdfTypes else ImageTypes
  }

  /** 10 MiB for a PDF, 5 MiB for anything else. */
  function MaxSize(kind: string): nat
  {
    if kind == "pdf" then 10 * MiB else 5 * MiB
  }

  function InvalidTypeMessage(kind: string): string
  {
    "Invalid file type. Please upload " + (if kind == "pdf" then "a PDF file" else "an image") + "."
  }

  function TooLargeMessage(kind: string): string
  {
    "File too large. Maximum size is " + (if kind == "pdf" then "10MB" else "5MB") + "."
  }

  /** `uploadFile(file, type)`: no file settles with `null`; otherwise the
      type is checked first and the size second, and a file passing both is
      accepted with its own name, size and type. */
  function UploadFile(file: Option<File>, kind: string): (r: UploadOutcome)
    ensures file.None? <==> r.NoUpload?
    ensures r.Uploaded? <==>
      file.Some? && file.value.mimeType in AllowedTypes(kind) && file.value.size <= MaxSize(kind)
    ensures r.Uploaded? ==>
      r == Uploaded(file.value.name, file.value.size, file.value.mimeType)
    ensures file.Some? && file.value.mimeType !in AllowedTypes(kind) ==>
      r == Rejected(InvalidTypeMessage(kind))
    ensures file.Some? && file.value.mimeType in AllowedTypes(kind) && file.value.size > MaxSize(kind) ==>
      r == Rejected(TooLargeMessage(kind))
  {
    match file
    case None => NoUpload
    case Some(f) =>
      if f.mimeType !in AllowedTypes(kind) then Rejected(InvalidTypeMessage(kind))
      else if f.size > MaxSize(kind) then Rejected(TooLargeMessage(kind))
      else Uploaded(f.name, f.size, f.mimeType)
  }

  /** A file of exactly the limit is accepted; one byte more is rejected. */
  lemma SizeLimitIsInclusive(name: string, mimeType: string, kind: string)
    requires mimeType in AllowedTypes(kind)
    ensures UploadFile(Some(File(name, mimeType, MaxSize(kind))), kind).Uploaded?
    ensures UploadFile(Some(File(name, mimeType, MaxSize(kind) + 1)), kind) == Rejected(TooLargeMessage(kind))
  {
  }

  /** Any kind other than `pdf` behaves as `image`, messages included. */
  lemma UnknownKindIsImage(file: Option<File>, kind: string)
    requires kind != "pdf"
    ensures UploadFile(file, kind) == UploadFile(file, "image")
  {
  }

  /** A PDF is not an image and an image is not a PDF. */
  lemma KindsDisjoint(file: File)
    ensures !(UploadFile(Some(file), "pdf").Uploaded? && UploadFile(Some(file), "image").Uploaded?)
  {
  }
}
