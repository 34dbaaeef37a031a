# pdf-extraction-rpa: a Dafny model of the rule-driven PDF extractor

This project models the core of pdf-extraction-rpa, a Django application. It
reads uploaded PDF invoices and turns their text into structured data, using
regular-expression rules stored per customer.

What is modelled:

- **Page-text assembly** (`extract_text_from_pdf`). Page texts are joined in
  page order with a newline after each page that has text, and the result
  is stripped. A missing or unreadable file is an error that reaches the
  caller.
- **Header resolver** (`extract_header_data`). Each header rule contributes
  the stripped text of its group in the first match, or None, under its
  field name.
- **Item resolver** (`extract_item_data`). Each item rule is applied in `id`
  order. Match *k* writes its field into `items[k]`, and the list is grown
  with empty records as needed.
- **Merge** (`extract_data_using_regex`). The result is
  `{**header, 'items': items}`.
- **Batch processing** (`prosess_extraction`, `_process_pdf_item`) and the
  post-save handler in `signals.py`:
  - creating a document re-processes every document of its batch;
  - each result is saved while the handler is disconnected, so that save
    reaches no handler at all. The handler would ignore it anyway, since it
    is an update and the handler acts only on a creation
    (`signals.py:11`).
- **Smaller pieces**:
  - the rule record and its label;
  - the file-name refresh of a document;
  - the admin action that duplicates rules;
  - the upload validator;
  - the user display names;
  - the environment label of the admin theme.

Two external libraries enter only as values the caller supplies:

- **The regular-expression engine** (`re` with MULTILINE and DOTALL) is a
  `Regex.Engine`: whether a pattern compiles, its first match, and all its
  matches. It is not implemented.
- **The PDF library** is a reader from a path to a `Extraction.PdfRead`:
  the page texts, or the failure to open or read the file.

Python's `str.strip()` is modelled concretely over the code points for which
`str.isspace()` holds. The other string built-ins the core uses are modelled
the same way in `PyOps`.

Header and item resolution, text assembly and rule duplication are loops in
the source, so each is a method with loop invariants. Each method is proved
against a fold function: `HeaderFold`, `ItemFold`, `JoinPages` or
`Renumbered`. Lemmas then state what those folds mean.

Documents and the batch store are objects updated in place:

- a document is the class `ExtractionModels.PdfExtractionItem`;
- the batch store is the class `Orchestration.ExtractionStore`, with a
  flag for whether the handler is connected and a ghost log of the saves
  the handler received.

Points where the code is easy to misread; the model follows the code:

- Header rules are taken in table order. The query at
  `pdf_extraction/services.py:99-102` has no `order_by`; only the item query
  (`:150`) orders by `id`.
- `is_item_field` is not declared in `regex_engine/models.py`, but
  `pdf_extraction/services.py:101`, `:149` and `regex_engine/admin.py:11`
  use it. The rule record includes it.
- An item group that is empty gives None, not `""` (`services.py:178`). A
  header group that is empty gives `""` (`services.py:123`).
- Group 0 is the whole match in a header (`match.group(0)`). In an item it
  is `groups[-1]`, the last group.
- A null item group raises `TypeError` and ends that rule. The empty record
  already appended for the match stays.
- An invalid item pattern leaves the item list as it was. No None is
  recorded for it.

## Model

| member | source | states |
|---|---|---|
| PyOps.Strip | pdf_extraction/services.py:71 | the result has no whitespace at either end |
| PyOps.StripInfix | pdf_extraction/services.py:71 | the stripped text is the infix of the input that starts at its first non-whitespace character, with only whitespace before and after it |
| PyOps.StripEmptyIffBlank | pdf_extraction/services.py:66-68 | the strip is empty exactly when the text is all whitespace |
| PyOps.StripIdempotent | pdf_extraction/services.py:71 | stripping a stripped text changes nothing |
| PyOps.PrefixBefore | rpa_project/users/models.py:66 | `split(sep)[0]` is a prefix of the input without `sep`, followed by `sep` when it is shorter than the input |
| PyOps.Basename | pdf_extraction/models.py:47 | the basename is a suffix of the path without '/', preceded by '/' when it is shorter than the path |
| PyOps.BasenameOfJoin | pdf_extraction/models.py:47 | the basename of `dir + "/" + name` is `name` for a name without '/' |
| PyOps.ContainsAt | rpa_project/unfold_utils.py:14 | an occurrence of `sub` at any index makes `sub in s` true |
| PyOps.Position | rpa_project/unfold_utils.py:14 | when `sub in s` holds, `sub` occurs at a first index, and at no earlier one |
| PyOps.PyIndex | pdf_extraction/services.py:177 | Python indexing: defined exactly for `-len <= i < len`; a negative index counts from the end |
| PyOps.NatToDecimal | regex_engine/admin.py:61 | the f-string rendering of a count is decimal digits without leading zeros, denoting that count |
| Regex.Group | pdf_extraction/services.py:120 | `match.group(g)` exists exactly for `0 <= g <= groups`; group 0 is the whole match, group g is the g-th capture group |
| RegexRules.NewRule | regex_engine/models.py:3-9 | a new rule has no customer id, group 1 and no alternate patterns; it is valid exactly for 'Food Hall', a field name of 1 to 255 characters and a non-empty pattern |
| RegexRules.RuleLabel | regex_engine/models.py:11-12 | the label is the customer name, " - ", then the field name, each readable back from its position |
| RegexRules.RuleLabelSeparatesFields | regex_engine/models.py:11-12 | for one customer, two rules have equal labels exactly when their field names are equal |
| ExtractionModels.NewPdfExtraction | pdf_extraction/models.py:5-18 | a new batch uses the 'regex' method, which is one of the allowed choices; optional columns are null, the model name is empty and the token counts are 0 |
| ExtractionModels.PdfExtractionItem.constructor | pdf_extraction/models.py:27-35 | a new document has an empty file name and no result yet |
| ExtractionModels.PdfExtractionItem.ExtractFileName | pdf_extraction/models.py:44-50 | with a file, returns and stores its basename, which has no '/' and ends the storage name; without one, returns None and changes nothing |
| ExtractionModels.PdfExtractionItem.Save | pdf_extraction/models.py:52-60 | saving refreshes the file name from the file when one is set, and otherwise keeps it |
| Extraction.ExtractTextFromPdf | pdf_extraction/services.py:49-78 | the text is the strip of the joined page texts; a missing file and a read failure are the two errors; the result is stripped |
| Extraction.JoinPagesAppend | pdf_extraction/services.py:57-62 | pages contribute in page order: joining two runs of pages concatenates their texts |
| Extraction.JoinPagesSnoc | pdf_extraction/services.py:57-62 | one more page appends exactly its own contribution at the end of the text |
| Extraction.JoinPagesSingle | pdf_extraction/services.py:59-64 | a page with text contributes that text and a newline; a page with None or "" contributes nothing |
| Extraction.BlankPagesGiveEmptyText | pdf_extraction/services.py:61-68 | a document whose pages all lack text yields "" |
| Extraction.Select | pdf_extraction/services.py:99-102 | the rules selected are exactly the table's rules of that customer and kind, and there are no more of them than rows |
| Extraction.SelectCounts | pdf_extraction/services.py:99-102 | each row of the customer and kind is selected exactly as many times as the table holds it, and any other row not at all |
| Extraction.HeaderRules | pdf_extraction/services.py:99-102 | the header rules are exactly the customer's rules that are not item fields |
| Extraction.HeaderRulesCounts | pdf_extraction/services.py:99-102 | each header rule of the customer is resolved as many times as the table holds it, and no other rule at all |
| Extraction.InsertById | pdf_extraction/services.py:150 | inserting into an id-sorted list keeps it sorted and adds exactly that rule |
| Extraction.SortById | pdf_extraction/services.py:150 | ordering by id gives a sorted permutation of the input |
| Extraction.ItemRules | pdf_extraction/services.py:147-150 | the item rules are the customer's item-field rules, sorted by id, as a permutation of the table selection |
| Extraction.ExtractHeaderData | pdf_extraction/services.py:94-140 | the loop builds the header fold of the customer's header rules; with no rules that is the empty map |
| Extraction.ResolveHeaders | pdf_extraction/services.py:108-140 | the loop over the header rules builds exactly their header fold, each rule setting its field in turn |
| Extraction.HeaderValueSome | pdf_extraction/services.py:115-138 | a header value is text exactly when the pattern compiles, matches, and group g exists and took part; the text is that group stripped |
| Extraction.HeaderFoldKeys | pdf_extraction/services.py:104-138 | the header map's keys are exactly the field names of the rules |
| Extraction.HeaderFoldLastWins | pdf_extraction/services.py:110-123 | a field's value is the one given by the last rule with that field name |
| Extraction.HeaderFoldSiblings | pdf_extraction/services.py:110-138 | replacing one rule (by a broken one, say) changes no other field's value |
| Extraction.Stretch | pdf_extraction/services.py:172-173 | the list keeps its entries and is grown with empty records until index k exists |
| Extraction.WriteMatches | pdf_extraction/services.py:167-182 | the match loop of one rule equals applying its matches from the first, stopping at the first match that raises |
| Extraction.ExtractItemData | pdf_extraction/services.py:142-193 | the loop builds the item fold of the customer's item rules in id order; with no rules that is `[]` |
| Extraction.ResolveItems | pdf_extraction/services.py:156-193 | the loop over the item rules builds exactly their item fold; a rule with an invalid pattern is skipped |
| Extraction.ApplyMatchesEffect | pdf_extraction/services.py:167-182 | from match k on, the list grows to the rule's reach, and an entry changes only at the rule's field, only when its match is written |
| Extraction.ApplyMatchesLength | pdf_extraction/services.py:167-182 | from match k on, the list ends as long as the longer of its old length and the rule's reach |
| Extraction.ApplyMatchesEntry | pdf_extraction/services.py:167-182 | entry j keeps its old value (or the empty record), with the rule's field set exactly when match j is written |
| Extraction.ApplyItemRuleEffect | pdf_extraction/services.py:163-190 | one item rule: match k writes only `items[k][field]`; the list only grows, by empty records, to the rule's reach; an invalid pattern changes nothing |
| Extraction.WritesFromWithinReach | pdf_extraction/services.py:167-182 | a match that is written lies within the rule's reach |
| Extraction.ItemFoldLength | pdf_extraction/services.py:156-182 | the item list is exactly as long as the farthest any rule got |
| Extraction.ItemFoldCell | pdf_extraction/services.py:158-178 | field f of entry k holds the value of the last rule that writes it there; it is missing, not None, when no rule does |
| Extraction.ItemCellLargestId | pdf_extraction/services.py:147-158 | the value left in a cell is that of the writing rule with the largest id |
| Extraction.ItemGroupValueCases | pdf_extraction/services.py:169-182 | for g in 1..n the value is group g stripped, or None when missing or empty; above n it is None; group 0 is the last group, and raises when there are no groups |
| Extraction.EmptyGroupDivergence | pdf_extraction/services.py:120-178 | the same empty group gives "" in a header and None in an item |
| Extraction.GroupZeroDivergence | pdf_extraction/services.py:120-177 | group 0 gives the whole match in a header and the last group in an item |
| Extraction.MergeResultShape | pdf_extraction/services.py:87-90 | the merge keeps every header field as a scalar and adds `items`, which wins over a header field of that name |
| Extraction.ExpectedResultShape | pdf_extraction/services.py:80-92 | the result's keys are the header field names plus `items`; `items` holds the item list; each other field holds its last header rule's value |
| Extraction.ExtractDataUsingRegex | pdf_extraction/services.py:80-92 | the result is the merge of the header fold and the item fold for the text and customer |
| Extraction.NoRulesResult | pdf_extraction/services.py:104-154 | a customer without rules gets exactly `{"items": []}` |
| Orchestration.InBatch | pdf_extraction/services.py:22 | a batch's documents are exactly the store's documents with that batch id, without repeats; the model takes them in store order |
| Orchestration.ExtractionStore.NotifyPostSave | pdf_extraction/signals.py:8 | a post-save reaches the handler exactly when the handler is connected and the sender is the document model; it is logged only then |
| Orchestration.ExtractionStore.SaveResultDisconnected | pdf_extraction/services.py:38-41 | the result is stored and saved, no handler call is logged, and the handler is connected afterwards |
| Orchestration.ExtractionStore.ProcessPdfItem | pdf_extraction/services.py:26-46 | regex: a text error propagates with nothing changed, otherwise the document holds the result for its text and the handler is connected; any other method changes nothing |
| Orchestration.ExtractionStore.ProcessBatch | pdf_extraction/services.py:22-24 | documents before the failing one hold their results; the failing one's error is returned; later ones are unchanged; no handler call is logged |
| Orchestration.ExtractionStore.ProcessExtraction | pdf_extraction/services.py:14-24 | an unknown id changes nothing; otherwise the batch's documents, in store order, are processed as in ProcessBatch with the batch's customer and method; a non-regex run changes no document; after a completed regex run every document of the batch holds its result; a document whose file name was already refreshed keeps it |
| Orchestration.ExtractionStore.HandleItemSave | pdf_extraction/signals.py:9-13 | an update does nothing; a creation with an unknown batch id changes nothing; a creation processes the parent batch, only its documents can change; a connected handler stays connected (services.py:41); a non-regex run completes and changes nothing; after a completed regex run every document of that batch holds its result; no refreshed file name is undone |
| Orchestration.ExtractionStore.CreateItem | pdf_extraction/models.py:52-60 | creating a document saves it and adds it to the store; its post-save is the only handler call logged; only the documents of its batch can change; with the handler disconnected the flag stays off and no existing document or result changes; with it connected the creation yields an outcome and the handler is connected afterwards; an unknown batch id yields ExtractionNotFound with nothing else changed; the new document's file name is refreshed from its file; a non-regex run completes and leaves every earlier document unchanged; a completed regex run leaves every sibling with its result |
| RuleAdmin.CountMessage | regex_engine/admin.py:59-63 | the message is the count in decimal, without leading zeros, followed by " rows successfully duplicated." |
| RuleAdmin.Renumbered | regex_engine/admin.py:38-45 | the copies come in selection order, each equal to its source except for the next fresh id |
| RuleAdmin.RuleTable.InsertNew | regex_engine/admin.py:40-43 | saving with the key cleared appends a copy under a fresh id and keeps ids distinct |
| RuleAdmin.RuleTable.DuplicateRows | regex_engine/admin.py:31-63 | one copy per selected row is appended and existing rows stay; one row redirects to the copy's id; any other count only reports the count |
| Upload.ValidatePdfFile | pdf_extraction/serializers.py:11-20 | a file is accepted exactly when its name ends with ".pdf" and its size is at most 10 MiB; the extension is checked first; an accepted file is returned unchanged |
| Upload.UpperCaseExtensionRejected | pdf_extraction/serializers.py:13-14 | the extension check is case-sensitive: "X.PDF" is refused |
| Upload.SizeLimitInclusive | pdf_extraction/serializers.py:17-18 | 10485760 bytes pass; 10485761 bytes give the size error |
| Users.UserStr | rpa_project/users/models.py:48 | the string form is the name when it is non-empty, otherwise the email |
| Users.FullNameIsStr | rpa_project/users/models.py:57 | `get_full_name` (modelled by `Users.GetFullName`) equals the string form for every user |
| Users.GetShortName | rpa_project/users/models.py:66 | the name when it is non-empty; otherwise the part of the email before its first '@' |
| Users.ShortNamePrefixOfStr | rpa_project/users/models.py:66 | the short name is a prefix of the string form |
| Environment.EnvironmentName | rpa_project/unfold_utils.py:10-21 | "production" exactly when the settings module contains it; then "local", then "test", in that order; otherwise "development" |
| Environment.TitlePrefix | rpa_project/unfold_utils.py:24-35 | production maps to PROD, test to TEST, local and development to DEV; the prefix is never "" |
| Environment.ProductionTakesPrecedence | rpa_project/unfold_utils.py:14-17 | a settings module that contains both "production" and "local" is production |
| Environment.UnsetIsDevelopment | rpa_project/unfold_utils.py:12-21 | without the variable, the environment is development |

## Left out

- The regular-expression engine: it is a foreign library. It is a
  parameter, and the model assumes it is deterministic. The MULTILINE and
  DOTALL flags are part of what it stands for.
- pdfplumber: it is a foreign PDF parser. Its page texts and its failures
  are an input, `PdfRead`.
- `pdf_extraction/views.py`: it is HTTP handling and temporary files. The
  upload validator it uses is modelled.
- Logging: every `logger` call and the `print` in `save`. This includes the
  second `finditer` at `services.py:184`, which only feeds a warning.
- The Django ORM. Rules are a sequence in table order, and documents and
  batches live in `ExtractionStore`. `full_clean`, `update_fields`,
  `auto_now` timestamps and `super().save()` are not modelled: the object is
  the stored row.
- CreateItem: without `full_clean`, it also accepts a document with no file
  or with a batch id that has no row. The source refuses both before the
  insert, so a creation there never reaches the `NoFileAssociated` or
  unknown-batch paths. The model keeps those paths, and says what they do.
- Signal dispatch as global machinery. It is a flag for whether the handler
  is connected, plus a ghost log of the saves it received.
- The 'ai' method: its branch is empty, and the model changes nothing for it.
- The admin badges and the superuser check (`unfold_utils.py:38-52`): they
  are database queries over the request.
- `get_absolute_url`, the `__str__` of the two extraction models, and the
  admin layout (`admin.py`, `urls.py`, `apps.py`): configuration only.
- `request` parameters: they are unused by the modelled logic.
  `message_user` and `redirect` become the `ActionResponse` value. The
  message level is not modelled.
- Insertion order of keys: the header result and each item record are
  maps, so the key order of the JSON written is not modelled.
- Order of a batch's documents: `extraction.pdf_items.all()` has no
  `order_by`, so the database may return them in any order. InBatch takes
  them in store order, which is one such order.
- ProcessExtraction: it processes the store's own document objects, while
  `pdf_items.all()` loads fresh copies from the database. Aliasing between
  those copies and other live objects is not modelled.
- HandleItemSave: for an aborted run it states only the outcome and the
  frame. The per-document results of an aborted run are stated on
  ProcessExtraction.
- CreateItem: states the siblings' results only when the run completed. The
  aborted case is stated on ProcessExtraction.
- EnvironmentName: the process environment is a map parameter, not
  `os.environ`.
- ValidatePdfFile: the file is its name and size only. The content is not
  inspected, as in the source.
