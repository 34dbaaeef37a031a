/**
 * Batch processing (`prosess_extraction`, `_process_pdf_item`) and the
 * post-save handler that starts it when a document is created. The store
 * holds the batches, the document objects and whether the handler is
 * connected to the post-save signal.
 */
module Orchestration {
  import opened Wrappers
  import opened PyOps
  import opened Regex
  import opened RegexRules
  import opened ExtractionModels
  import opened Extraction

  /** The model classes whose saves send the post-save signal. */
  datatype Sender = PdfExtractionSender | PdfExtractionItemSender | CustomerRegexRuleSender

  /** What stops the processing of a document: no file set (`.path` raises), or a text-extraction error. */
  datatype ItemError = NoFileAssociated | TextExtraction(cause: TextError)

  /** How a run over one batch ended. `Aborted` names the document whose error propagated. */
  datatype Outcome = ExtractionNotFound | Completed | Aborted(index: nat, error: ItemError)

  /** The text the processing of a document works on, or the error that stops it. */
  function ItemText(file: FieldFile, reader: string -> PdfRead): Result<string, ItemError> {
    if !HasFile(file) then Failure(NoFileAssociated)
    else match AssembledText(file.path, reader(file.path))
      case Success(text) => Success(text)
      case Failure(e) => Failure(TextExtraction(e))
  }

  /** The handler is registered for the saves of documents only. */
  predicate Delivers(connected: bool, sender: Sender) {
    connected && sender == PdfExtractionItemSender
  }

  /** A document holds the result of its own text for the customer, and its refreshed file name. */
  predicate HoldsResult(it: PdfExtractionItem, eng: Engine, rules: seq<CustomerRegexRule>,
                        reader: string -> PdfRead, customer: string)
    reads it
  {
    && ItemText(it.pdfFile, reader).Success?
    && it.resultData == Some(ExpectedResult(eng, rules, ItemText(it.pdfFile, reader).value, customer))
    && it.pdfFileName == Basename(it.pdfFile.name)
  }

  predicate Distinct<T(==)>(s: seq<T>) {
    forall i, j :: 0 <= i < j < |s| ==> s[i] != s[j]
  }

  /** The documents of batch `id`, in store order (`extraction.pdf_items.all()`). */
  function InBatch(s: seq<PdfExtractionItem>, id: nat): (b: seq<PdfExtractionItem>)
    ensures forall i :: 0 <= i < |b| ==> b[i] in s && b[i].pdfExtractionId == id
    ensures forall i :: 0 <= i < |s| && s[i].pdfExtractionId == id ==> s[i] in b
    ensures Distinct(s) ==> Distinct(b)
  {
    if s == [] then []
    else
      var rest := InBatch(s[..|s| - 1], id);
      var last := s[|s| - 1];
      assert s == s[..|s| - 1] + [last];
      if last.pdfExtractionId == id then rest + [last] else rest
  }

  class ExtractionStore {
    var extractions: map<nat, PdfExtraction>
    var items: seq<PdfExtractionItem>
    var handlerConnected: bool
    /** The documents whose post-save reached the handler, in order. */
    ghost var deliveries: seq<nat>

    ghost predicate Valid()
      reads this
    {
      Distinct(items)
    }

    constructor ()
      ensures Valid() && extractions == map[] && items == [] && handlerConnected && deliveries == []
    {
      extractions := map[];
      items := [];
      handlerConnected := true;
      deliveries := [];
    }

    /** The post-save signal for one save: whether it reaches the handler, which records it. */
    method NotifyPostSave(sender: Sender, itemId: nat) returns (delivered: bool)
      modifies this`deliveries
      ensures delivered == Delivers(handlerConnected, sender)
      ensures deliveries == old(deliveries) + (if delivered then [itemId] else [])
    {
      delivered := Delivers(handlerConnected, sender);
      if delivered {
        deliveries := deliveries + [itemId];
      }
    }

    /**
     * The `disconnect_signal` block: with the handler disconnected, store
     * the result and save the document; its post-save reaches no handler.
     * The handler is connected again afterwards.
     */
    method SaveResultDisconnected(item: PdfExtractionItem, result: ExtractionResult)
      modifies this`handlerConnected, this`deliveries, item`resultData, item`pdfFileName
      ensures handlerConnected && deliveries == old(deliveries)
      ensures item.resultData == Some(result)
      ensures item.pdfFileName == if HasFile(item.pdfFile) then Basename(item.pdfFile.name) else old(item.pdfFileName)
    {
      handlerConnected := false;
      item.resultData := Some(result);
      item.Save();
      var delivered := NotifyPostSave(PdfExtractionItemSender, item.id);
      assert !delivered;
      handlerConnected := true;
    }

    /**
     * `_process_pdf_item`: for the regex method, extract the document's
     * text (an error propagates before anything changes), resolve it, and
     * store the result with the handler disconnected, so that the save
     * reaches no handler; then reconnect. Any other method does nothing.
     */
    method ProcessPdfItem(item: PdfExtractionItem, extractionMethod: string, customer: string, eng: Engine,
                          rules: seq<CustomerRegexRule>, reader: string -> PdfRead)
      returns (err: Option<ItemError>)
      modifies this`handlerConnected, this`deliveries, item`resultData, item`pdfFileName
      ensures deliveries == old(deliveries)
      ensures extractionMethod != RegexMethod ==> err.None? && unchanged(this) && unchanged(item)
      ensures extractionMethod == RegexMethod && ItemText(item.pdfFile, reader).Failure? ==>
                err == Some(ItemText(item.pdfFile, reader).error) && unchanged(this) && unchanged(item)
      ensures extractionMethod == RegexMethod && ItemText(item.pdfFile, reader).Success? ==>
                err.None? && HoldsResult(item, eng, rules, reader, customer) && handlerConnected
    {
      err := None;
      if extractionMethod == RegexMethod {
        if !HasFile(item.pdfFile) {
          return Some(NoFileAssociated);
        }
        var path := item.pdfFile.path;
        var text := ExtractTextFromPdf(path, reader(path));
        if text.Failure? {
          return Some(TextExtraction(text.error));
        }
        assert ItemText(item.pdfFile, reader) == Success(text.value);
        var extractedData := ExtractDataUsingRegex(eng, rules, text.value, customer);
        SaveResultDisconnected(item, extractedData);
      }
      // The 'ai' method is a branch that does nothing.
    }

    /**
     * The loop of `prosess_extraction` over the documents of one batch: each
     * is processed in order and the first error propagates, leaving the
     * later documents as they were.
     */
    method ProcessBatch(pdfItems: seq<PdfExtractionItem>, extractionMethod: string, customer: string, eng: Engine,
                        rules: seq<CustomerRegexRule>, reader: string -> PdfRead)
      returns (outcome: Outcome)
      requires Distinct(pdfItems)
      modifies this`handlerConnected, this`deliveries, set it | it in pdfItems
      ensures deliveries == old(deliveries)
      ensures outcome == Completed || outcome.Aborted?
      ensures var done := if outcome.Aborted? then outcome.index else |pdfItems|;
              && done <= |pdfItems|
              && (forall m :: done <= m < |pdfItems| ==> unchanged(pdfItems[m]))
              && (extractionMethod == RegexMethod ==>
                    && (forall m :: 0 <= m < done ==> HoldsResult(pdfItems[m], eng, rules, reader, customer))
                    && (outcome.Aborted? ==> done < |pdfItems| && ItemText(pdfItems[done].pdfFile, reader) == Failure(outcome.error))
                    && handlerConnected == (old(handlerConnected) || done > 0))
      ensures extractionMethod != RegexMethod ==>
                outcome == Completed && unchanged(this) && forall m :: 0 <= m < |pdfItems| ==> unchanged(pdfItems[m])
    {
      var j := 0;
      while j < |pdfItems|
        invariant 0 <= j <= |pdfItems|
        invariant deliveries == old(deliveries)
        invariant forall m :: j <= m < |pdfItems| ==> unchanged(pdfItems[m])
        invariant extractionMethod == RegexMethod ==>
                    && (forall m :: 0 <= m < j ==> HoldsResult(pdfItems[m], eng, rules, reader, customer))
                    && handlerConnected == (old(handlerConnected) || j > 0)
        invariant extractionMethod != RegexMethod ==> unchanged(this) && forall m :: 0 <= m < j ==> unchanged(pdfItems[m])
      {
        var err := ProcessPdfItem(pdfItems[j], extractionMethod, customer, eng, rules, reader);
        if err.Some? {
          return Aborted(j, err.value);
        }
        j := j + 1;
      }
      return Completed;
    }

    /**
     * `prosess_extraction`: an unknown batch changes nothing; otherwise the
     * documents of the batch are processed in store order. Only they can
     * change, and no save made here reaches the handler.
     */
    method ProcessExtraction(eng: Engine, rules: seq<CustomerRegexRule>, reader: string -> PdfRead, extractionId: nat)
      returns (outcome: Outcome)
      requires Valid()
      modifies this`handlerConnected, this`deliveries, set it | it in items && it.pdfExtractionId == extractionId
      ensures Valid() && deliveries == old(deliveries)
      ensures extractionId !in extractions ==>
                outcome == ExtractionNotFound && unchanged(this) && forall m :: 0 <= m < |items| ==> unchanged(items[m])
      ensures extractionId in extractions ==>
                var batch := InBatch(items, extractionId);
                var customer := extractions[extractionId].customerName;
                var done := if outcome.Aborted? then outcome.index else |batch|;
                && (outcome == Completed || outcome.Aborted?)
                && done <= |batch|
                && (forall m :: done <= m < |batch| ==> unchanged(batch[m]))
                && if extractions[extractionId].extractionMethod == RegexMethod then
                     && (forall m :: 0 <= m < done ==> HoldsResult(batch[m], eng, rules, reader, customer))
                     && (outcome.Aborted? ==> done < |batch| && ItemText(batch[done].pdfFile, reader) == Failure(outcome.error))
                     && handlerConnected == (old(handlerConnected) || done > 0)
                   else
                     && outcome == Completed
                     && (forall m :: 0 <= m < |batch| ==> unchanged(batch[m]))
                     && unchanged(this)
      ensures extractionId in extractions && extractions[extractionId].extractionMethod != RegexMethod ==>
                forall it :: it in items ==> unchanged(it)
      ensures extractionId in extractions && extractions[extractionId].extractionMethod == RegexMethod
              && outcome == Completed ==>
                forall it :: it in items && it.pdfExtractionId == extractionId ==>
                  HoldsResult(it, eng, rules, reader, extractions[extractionId].customerName)
      ensures forall it :: it in items && HasFile(it.pdfFile) && old(it.pdfFileName) == Basename(it.pdfFile.name) ==>
                it.pdfFileName == Basename(it.pdfFile.name)
    {
      if extractionId !in extractions {
        return ExtractionNotFound;
      }
      var extraction := extractions[extractionId];
      var batch := InBatch(items, extractionId);
      outcome := ProcessBatch(batch, extraction.extractionMethod, extraction.customerName, eng, rules, reader);
      // Each document of the batch sits at some position of it: that position says what became of it.
      forall it | it in items && it.pdfExtractionId == extractionId
        ensures (extraction.extractionMethod != RegexMethod ==> unchanged(it))
        ensures (extraction.extractionMethod == RegexMethod && outcome == Completed ==>
                  HoldsResult(it, eng, rules, reader, extraction.customerName))
        ensures HasFile(it.pdfFile) && old(it.pdfFileName) == Basename(it.pdfFile.name) ==>
                  it.pdfFileName == Basename(it.pdfFile.name)
      {
        var i :| 0 <= i < |items| && items[i] == it;
        var m :| 0 <= m < |batch| && batch[m] == it;
      }
    }

    /** `handle_pdf_extraction_item_save`: a creation processes the document's whole batch; an update does nothing. */
    method HandleItemSave(instance: PdfExtractionItem, created: bool, eng: Engine, rules: seq<CustomerRegexRule>,
                          reader: string -> PdfRead)
      returns (outcome: Option<Outcome>)
      requires Valid()
      modifies this`handlerConnected, this`deliveries, set it | it in items && it.pdfExtractionId == instance.pdfExtractionId
      ensures Valid() && deliveries == old(deliveries)
      ensures old(handlerConnected) ==> handlerConnected
      ensures !created ==> outcome.None? && unchanged(this) && forall it :: it in items ==> unchanged(it)
      ensures created ==> outcome.Some? && (outcome.value != ExtractionNotFound <==> instance.pdfExtractionId in extractions)
      ensures created && instance.pdfExtractionId !in extractions ==> unchanged(this) && forall it :: it in items ==> unchanged(it)
      ensures created && instance.pdfExtractionId in extractions
              && extractions[instance.pdfExtractionId].extractionMethod != RegexMethod ==>
                outcome == Some(Completed) && unchanged(this) && forall it :: it in items ==> unchanged(it)
      ensures forall it :: it in items && HasFile(it.pdfFile) && old(it.pdfFileName) == Basename(it.pdfFile.name) ==>
                it.pdfFileName == Basename(it.pdfFile.name)
      ensures created && outcome == Some(Completed) && instance.pdfExtractionId in extractions
              && extractions[instance.pdfExtractionId].extractionMethod == RegexMethod ==>
                forall it :: it in items && it.pdfExtractionId == instance.pdfExtractionId ==>
                  HoldsResult(it, eng, rules, reader, extractions[instance.pdfExtractionId].customerName)
    {
      if created {
        var o := ProcessExtraction(eng, rules, reader, instance.pdfExtractionId);
        outcome := Some(o);
      } else {
        outcome := None;
      }
    }

    /**
     * Creating a document: it is saved (its file name set from the file)
     * and added, and its post-save reaches the handler when connected,
     * which processes every document of its batch. That is the only
     * delivery: the result writes reach no handler.
     */
    method CreateItem(item: PdfExtractionItem, eng: Engine, rules: seq<CustomerRegexRule>, reader: string -> PdfRead)
      returns (outcome: Option<Outcome>)
      requires Valid() && item !in items
      modifies this, item, set it | it in items && it.pdfExtractionId == item.pdfExtractionId
      ensures Valid() && items == old(items) + [item] && extractions == old(extractions)
      ensures deliveries == old(deliveries) + (if old(handlerConnected) then [item.id] else [])
      ensures !old(handlerConnected) ==> outcome.None? && item.pdfFileName == (if HasFile(item.pdfFile)
                then Basename(item.pdfFile.name) else old(item.pdfFileName))
      ensures HasFile(item.pdfFile) ==> item.pdfFileName == Basename(item.pdfFile.name)
      ensures !old(handlerConnected) ==>
                (!handlerConnected && item.resultData == old(item.resultData) && forall it :: it in old(items) ==> unchanged(it))
      ensures old(handlerConnected) ==> (handlerConnected && outcome.Some?)
      ensures old(handlerConnected) && item.pdfExtractionId !in extractions ==>
                (outcome == Some(ExtractionNotFound) && forall it :: it in old(items) ==> unchanged(it))
      ensures old(handlerConnected) && item.pdfExtractionId in extractions
              && extractions[item.pdfExtractionId].extractionMethod != RegexMethod ==>
                outcome == Some(Completed) && forall it :: it in old(items) ==> unchanged(it)
      ensures old(handlerConnected) && outcome == Some(Completed) && item.pdfExtractionId in extractions
              && extractions[item.pdfExtractionId].extractionMethod == RegexMethod ==>
                forall it :: it in items && it.pdfExtractionId == item.pdfExtractionId ==>
                  HoldsResult(it, eng, rules, reader, extractions[item.pdfExtractionId].customerName)
    {
      item.Save();
      items := items + [item];
      var delivered := NotifyPostSave(PdfExtractionItemSender, item.id);
      outcome := None;
      if delivered {
        outcome := HandleItemSave(item, true, eng, rules, reader);
      }
    }
  }
}
