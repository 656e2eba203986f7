/**
 * `validateUploadedFile` of `src/api/lib/file-validator.ts`: size first,
 * then the extension (the lower-cased text after the last dot), then a MIME
 * type that must suit the extension. The file's bytes are never looked at,
 * so an upload is its name, declared MIME type and size.
 */
module FileValidator {
  import opened Text

  const MaxFileSize := 5 * 1024 * 1024
  const AllowedExtensions := ["jpg", "jpeg", "png", "gif", "pdf", "txt"]
  const ImageExtensions := ["jpg", "jpeg", "png", "gif"]

  const SizeError := "File size exceeds 5 MB"
  const TypeError := "File type not allowed"
  const ImageMimeError := "Invalid image MIME type"
  const PdfMimeError := "Invalid PDF MIME type"
  const TxtMimeError := "Invalid TXT MIME type"

  datatype Upload = Upload(originalFilename: string, mimetype: string, size: int)

  datatype Verdict = Accepted | Rejected(error: string)

  /**
   * `originalFilename.split(".").pop()`: the text after the last dot, or the
   * whole name when it has none (`Text.LastPieceIsSuffix` says where it sits).
   */
  function LastPiece(name: string): (piece: string)
    ensures '.' !in piece && |piece| <= |name|
  {
    SplitPiecesLackSeparator(name, '.');
    LastPieceIsSuffix(name, '.');
    var parts := Split(name, '.');
    parts[|parts| - 1]
  }

  /** `.toLowerCase()` of the last piece. */
  function Extension(name: string): (ext: string)
    ensures '.' !in ext
  {
    var piece := LastPiece(name);
    LowerAsciiAt(piece);
    LowerAscii(piece)
  }

  /**
   * The extension is the lower-cased text after the last dot: a lower-cased
   * suffix of the name that is the whole name or follows a dot.
   */
  lemma ExtensionIsLoweredSuffix(name: string)
    ensures var ext := Extension(name);
      && |ext| <= |name| && ext == LowerAscii(name[|name| - |ext|..])
      && (|ext| < |name| ==> name[|name| - |ext| - 1] == '.')
  {
    LastPieceIsSuffix(name, '.');
    var piece := LastPiece(name);
    assert name[|name| - |piece|..] == piece;
    assert |piece| < |name| ==> name[|name| - |piece| - 1] == '.';
    assert Extension(name) == LowerAscii(piece);
  }

  /** What the MIME check demands of an allowed extension; other extensions never reach it. */
  predicate MimeSuits(ext: string, mimetype: string) {
    if ext in ImageExtensions then StartsWith(mimetype, "image/")
    else if ext == "pdf" then mimetype == "application/pdf"
    else if ext == "txt" then mimetype == "text/plain"
    else true
  }

  /**
   * An upload is accepted exactly when it is at most 5 MB, its extension is
   * allowed and its MIME type suits the extension; an oversized file is
   * refused for its size whatever its name and type, an allowed extension
   * with an unsuitable type gets the message for its kind, and every refusal
   * carries one of the five messages.
   */
  function ValidateUploadedFile(file: Upload): (v: Verdict)
    ensures v.Accepted? <==>
      && file.size <= MaxFileSize
      && Extension(file.originalFilename) in AllowedExtensions
      && MimeSuits(Extension(file.originalFilename), file.mimetype)
    ensures file.size > MaxFileSize ==> v == Rejected(SizeError)
    ensures file.size <= MaxFileSize && Extension(file.originalFilename) !in AllowedExtensions ==>
      v == Rejected(TypeError)
    ensures var ext := Extension(file.originalFilename);
      file.size <= MaxFileSize && ext in ImageExtensions && !StartsWith(file.mimetype, "image/") ==>
        v == Rejected(ImageMimeError)
    ensures var ext := Extension(file.originalFilename);
      file.size <= MaxFileSize && ext == "pdf" && file.mimetype != "application/pdf" ==> v == Rejected(PdfMimeError)
    ensures var ext := Extension(file.originalFilename);
      file.size <= MaxFileSize && ext == "txt" && file.mimetype != "text/plain" ==> v == Rejected(TxtMimeError)
    ensures v.Rejected? ==> v.error in [SizeError, TypeError, ImageMimeError, PdfMimeError, TxtMimeError]
  {
    var ext := Extension(file.originalFilename);
    if file.size > MaxFileSize then Rejected(SizeError)
    else if ext == "" || ext !in AllowedExtensions then Rejected(TypeError)
    else if ext == "jpg" || ext == "jpeg" || ext == "png" || ext == "gif" then
      if !StartsWith(file.mimetype, "image/") then Rejected(ImageMimeError) else Accepted
    else if ext == "pdf" then
      if file.mimetype != "application/pdf" then Rejected(PdfMimeError) else Accepted
    else if ext == "txt" then
      if file.mimetype != "text/plain" then Rejected(TxtMimeError) else Accepted
    else Accepted
  }

  /** Within the limit the size plays no part: a file of exactly 5 MB fares as an empty one. */
  lemma SizeOnlyMattersAboveLimit(name: string, mimetype: string, size: int)
    requires size <= MaxFileSize
    ensures ValidateUploadedFile(Upload(name, mimetype, size)) == ValidateUploadedFile(Upload(name, mimetype, 0))
  {
  }

  /** The text after the last dot of the lower-cased name is the lower-cased text after the last dot. */
  lemma LastPieceOfLowered(name: string)
    ensures LastPiece(LowerAscii(name)) == LowerAscii(LastPiece(name))
  {
    LowerAsciiSplitLast(name, '.');
  }

  /** The extension of the lower-cased name is the extension of the name. */
  lemma ExtensionOfLowered(name: string)
    ensures Extension(LowerAscii(name)) == Extension(name)
  {
    LastPieceOfLowered(name);
    LowerAsciiIdempotent(LastPiece(name));
  }

  /** Lower-casing the file name changes nothing: the extension check ignores case. */
  lemma ExtensionIgnoresCase(file: Upload)
    ensures ValidateUploadedFile(Upload(LowerAscii(file.originalFilename), file.mimetype, file.size)) ==
            ValidateUploadedFile(file)
  {
    ExtensionOfLowered(file.originalFilename);
  }

  /** The MIME type is compared as written: an upper-case PDF type is refused. */
  lemma MimeIsCaseSensitive(name: string)
    requires Extension(name) == "pdf"
    ensures ValidateUploadedFile(Upload(name, "Application/PDF", 0)) == Rejected(PdfMimeError)
  {
  }

  /** A name without a dot is its own extension, so a file called `TXT` is a text file. */
  lemma BareNameIsItsOwnExtension(name: string)
    requires '.' !in name
    ensures Extension(name) == LowerAscii(name)
  {
    SplitWithoutSeparator(name, '.');
  }

  /** A name ending in a dot has an empty extension and is refused for its type. */
  lemma TrailingDotRefused(file: Upload)
    requires file.size <= MaxFileSize
    requires |file.originalFilename| > 0 && file.originalFilename[|file.originalFilename| - 1] == '.'
    ensures ValidateUploadedFile(file) == Rejected(TypeError)
  {
    var name := file.originalFilename;
    LastPieceIsSuffix(name, '.');
    assert LastPiece(name) == [];
  }
}
