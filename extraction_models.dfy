/**
 * The two stored records of an extraction: a batch (`PDFExtraction`) and
 * one uploaded document of it (`PDFExtractionItem`), with the shape of the
 * structured result stored on a document.
 */
module ExtractionModels {
  import opened Wrappers
  import opened PyOps

  /** One line item: field name to extracted text, or None (JSON null). */
  type ItemRecord = map<string, Option<string>>

  /** A value of the stored result object: a header field, or the `items` array. */
  datatype ResultValue = Scalar(value: Option<string>) | ItemList(records: seq<ItemRecord>)

  /** The JSON object stored in `result_data`. */
  type ExtractionResult = map<string, ResultValue>

  const RegexMethod: string := "regex"
  const AiMethod: string := "ai"
  /** The choices of `extraction_method`. */
  const ExtractionMethods: set<string> := {RegexMethod, AiMethod}

  /** A batch: the customer it belongs to and how its documents are to be read. */
  datatype PdfExtraction = PdfExtraction(
    id: nat,
    customerId: Option<string>,
    customerName: string,
    createdBy: Option<string>,
    updatedBy: Option<string>,
    extractionMethod: string,
    modelUsed: string,
    inputToken: int,
    outputToken: int,
    totalToken: int)

  predicate ValidExtraction(e: PdfExtraction) {
    e.extractionMethod in ExtractionMethods
  }

  /** A batch created with only its customer given: every other column takes its default. */
  function NewPdfExtraction(id: nat, customerName: string): (e: PdfExtraction)
    ensures e.id == id && e.customerName == customerName
    ensures e.extractionMethod == RegexMethod && ValidExtraction(e)
    ensures e.customerId.None? && e.createdBy.None? && e.updatedBy.None? && e.modelUsed == ""
    ensures e.inputToken == 0 && e.outputToken == 0 && e.totalToken == 0
  {
    PdfExtraction(id, None, customerName, None, None, RegexMethod, "", 0, 0, 0)
  }

  /** A `FileField` value: its storage name (such as "pdf/invoice.pdf") and its path on disk. */
  datatype FieldFile = FieldFile(name: string, path: string)

  /** `bool(field_file)`: a file field is set when its name is not empty. */
  predicate HasFile(f: FieldFile) {
    f.name != ""
  }

  /** One uploaded document of a batch. */
  class PdfExtractionItem {
    const id: nat
    /** The batch this document belongs to (the `pdf_extraction` foreign key). */
    const pdfExtractionId: nat
    var pdfFileName: string
    /** The uploaded file; nothing in the core replaces it once the document exists. */
    const pdfFile: FieldFile
    /** None until the document has been processed (`result_data` may be null). */
    var resultData: Option<ExtractionResult>

    constructor (id: nat, pdfExtractionId: nat, pdfFile: FieldFile)
      ensures this.id == id && this.pdfExtractionId == pdfExtractionId && this.pdfFile == pdfFile
      ensures pdfFileName == "" && resultData.None?
    {
      this.id := id;
      this.pdfExtractionId := pdfExtractionId;
      this.pdfFile := pdfFile;
      pdfFileName := "";
      resultData := None;
    }

    /**
     * `extract_file_name`: with a file set, the base name of its storage
     * name, which is also stored in `pdfFileName`; without one, None and no
     * change.
     */
    method ExtractFileName() returns (name: Option<string>)
      modifies this`pdfFileName
      ensures HasFile(pdfFile) ==> name == Some(Basename(pdfFile.name)) && pdfFileName == name.value
      ensures HasFile(pdfFile) ==> '/' !in pdfFileName && EndsWith(pdfFile.name, pdfFileName)
      ensures !HasFile(pdfFile) ==> name.None? && pdfFileName == old(pdfFileName)
    {
      if HasFile(pdfFile) {
        var filename := Basename(pdfFile.name);
        pdfFileName := filename;
        return Some(filename);
      }
      return None;
    }

    /**
     * `save`: refreshes `pdfFileName` from the file when one is set, then
     * persists (the object is the stored row here).
     */
    method Save()
      modifies this`pdfFileName
      ensures pdfFileName == if HasFile(pdfFile) then Basename(pdfFile.name) else old(pdfFileName)
    {
      if HasFile(pdfFile) {
        var _ := ExtractFileName();
      }
    }
  }
}
