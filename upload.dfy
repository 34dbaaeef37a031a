/** The upload check of the text-extraction endpoint: a PDF of at most 10 MiB. */
module Upload {
  import opened Wrappers
  import opened PyOps

  /** The uploaded file as the validator sees it: its name and its size in bytes. */
  datatype UploadedFile = UploadedFile(name: string, size: nat)

  const MaxPdfBytes: nat := 10 * 1024 * 1024
  const NotPdfError: string := "File must be a PDF"
  const TooLargeError: string := "File size must not exceed 10MB"

  /** A file the endpoint accepts: its name ends with ".pdf" (case-sensitive) and it is not over the limit. */
  predicate AcceptablePdf(f: UploadedFile) {
    EndsWith(f.name, ".pdf") && f.size <= MaxPdfBytes
  }

  /**
   * `validate_pdf_file`: the extension is checked first, then the size; a
   * valid file is passed through unchanged.
   */
  function ValidatePdfFile(f: UploadedFile): (r: Result<UploadedFile, string>)
    ensures r.Success? <==> AcceptablePdf(f)
    ensures r.Success? ==> r.value == f
    ensures !EndsWith(f.name, ".pdf") ==> r == Failure(NotPdfError)
    ensures EndsWith(f.name, ".pdf") && !AcceptablePdf(f) ==> r == Failure(TooLargeError)
  {
    if !EndsWith(f.name, ".pdf") then Failure(NotPdfError)
    else if f.size > 10 * 1024 * 1024 then Failure(TooLargeError)
    else Success(f)
  }

  /** The extension check is case-sensitive: an upper-case ".PDF" is refused. */
  lemma UpperCaseExtensionRejected(size: nat)
    ensures ValidatePdfFile(UploadedFile("X.PDF", size)) == Failure(NotPdfError)
  {
    assert "X.PDF"[1..] != ".pdf";
  }

  /** The size limit is inclusive: 10485760 bytes pass, one more byte does not. */
  lemma SizeLimitInclusive(name: string)
    requires EndsWith(name, ".pdf")
    ensures ValidatePdfFile(UploadedFile(name, 10485760)).Success?
    ensures ValidatePdfFile(UploadedFile(name, 10485761)) == Failure(TooLargeError)
  {
  }
}
