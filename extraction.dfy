/**
 * The rule-driven extractor of `PDFExtractionService`: page-text assembly,
 * the header resolver, the item resolver and the merge of their results.
 */
module Extraction {
  import opened Wrappers
  import opened PyOps
  import opened Regex
  import opened RegexRules
  import opened ExtractionModels

  // ---------------------------------------------------------------------
  // Page-text assembly
  // ---------------------------------------------------------------------

  /**
   * What the PDF library yields for one path: the text of each page in
   * page order (None for a page without text), or the failure to open or
   * read the file.
   */
  datatype PdfRead = Pages(texts: seq<Option<string>>) | Missing | Unreadable(reason: string)

  /** The two errors text extraction re-raises to its caller. */
  datatype TextError = FileNotFound(path: string) | ExtractionFailed(path: string, reason: string)

  /** What one page adds to the accumulated text: its text and a newline, or nothing. */
  function PageChunk(page: Option<string>): string {
    if page.Some? && page.value != "" then page.value + "\n" else ""
  }

  /** The accumulated text of the pages, before the final strip. */
  function JoinPages(pages: seq<Option<string>>): string {
    if pages == [] then "" else JoinPages(pages[..|pages| - 1]) + PageChunk(pages[|pages| - 1])
  }

  /** The text `extract_text_from_pdf` returns for a read, or the error it raises. */
  function AssembledText(path: string, pdf: PdfRead): Result<string, TextError> {
    match pdf
    case Pages(texts) => Success(Strip(JoinPages(texts)))
    case Missing => Failure(FileNotFound(path))
    case Unreadable(reason) => Failure(ExtractionFailed(path, reason))
  }

  /** `extract_text_from_pdf`, from the pages the library read. */
  method ExtractTextFromPdf(path: string, pdf: PdfRead) returns (r: Result<string, TextError>)
    ensures r == AssembledText(path, pdf)
    ensures r.Success? ==> IsStripped(r.value)
  {
    match pdf
    case Missing => return Failure(FileNotFound(path));
    case Unreadable(reason) => return Failure(ExtractionFailed(path, reason));
    case Pages(texts) =>
      var extractedText := "";
      var n := 0;
      while n < |texts|
        invariant 0 <= n <= |texts|
        invariant extractedText == JoinPages(texts[..n])
      {
        var pageText := texts[n];
        if pageText.Some? && pageText.value != "" {
          extractedText := extractedText + pageText.value + "\n";
        }
        assert texts[..n + 1][..n] == texts[..n];
        n := n + 1;
      }
      assert texts[..n] == texts;
      if Strip(extractedText) == "" {
        return Success("");
      }
      return Success(Strip(extractedText));
  }

  /** The pages' texts appear in page order: joining two runs of pages concatenates their texts. */
  lemma {:induction false} JoinPagesAppend(a: seq<Option<string>>, b: seq<Option<string>>)
    ensures JoinPages(a + b) == JoinPages(a) + JoinPages(b)
    decreases |b|
  {
    if b == [] {
      assert a + b == a;
    } else {
      var b', x := b[..|b| - 1], b[|b| - 1];
      assert b == b' + [x];
      assert a + b == (a + b') + [x];
      JoinPagesSnoc(a + b', x);
      JoinPagesSnoc(b', x);
      JoinPagesAppend(a, b');
      ConcatAssoc(JoinPages(a), JoinPages(b'), PageChunk(x));
    }
  }

  /** Concatenation of texts regroups freely. */
  lemma {:induction false} ConcatAssoc(u: string, v: string, w: string)
    ensures (u + v) + w == u + (v + w)
  {
  }

  /** One more page adds its chunk at the end. */
  lemma {:induction false} JoinPagesSnoc(pages: seq<Option<string>>, page: Option<string>)
    ensures JoinPages(pages + [page]) == JoinPages(pages) + PageChunk(page)
  {
    assert (pages + [page])[..|pages|] == pages;
  }

  /** A page with text contributes exactly that text and a newline; a blank page nothing. */
  lemma {:induction false} JoinPagesSingle(page: Option<string>)
    ensures JoinPages([page]) == (if page.Some? && page.value != "" then page.value + "\n" else "")
  {
    assert [page][..0] == [];
  }

  /** Pages without text (None or "") contribute nothing, so such a document yields "". */
  lemma {:induction false} BlankPagesGiveEmptyText(path: string, texts: seq<Option<string>>)
    requires forall i :: 0 <= i < |texts| ==> texts[i].None? || texts[i].value == ""
    ensures JoinPages(texts) == ""
    ensures AssembledText(path, Pages(texts)) == Success("")
  {
    if texts != [] {
      BlankPagesGiveEmptyText(path, texts[..|texts| - 1]);
    }
    StripEmptyIffBlank("");
  }

  // ---------------------------------------------------------------------
  // Rule lookup
  // ---------------------------------------------------------------------

  /** The rows of the table for one customer and one kind of field, in table order. */
  function Select(table: seq<CustomerRegexRule>, customer: string, isItem: bool): (rs: seq<CustomerRegexRule>)
    ensures |rs| <= |table|
    ensures forall r :: r in rs <==> r in table && r.customerName == customer && r.isItemField == isItem
  {
    if table == [] then []
    else
      var rest := Select(table[..|table| - 1], customer, isItem);
      var last := table[|table| - 1];
      assert table == table[..|table| - 1] + [last];
      if last.customerName == customer && last.isItemField == isItem then rest + [last] else rest
  }

  /** The selection lists each matching row as often as the table does, and no other row. */
  lemma {:induction false} SelectCounts(table: seq<CustomerRegexRule>, customer: string, isItem: bool)
    ensures forall r :: multiset(Select(table, customer, isItem))[r]
                     == if r.customerName == customer && r.isItemField == isItem then multiset(table)[r] else 0
  {
    if table != [] {
      var init, last := table[..|table| - 1], table[|table| - 1];
      SelectCounts(init, customer, isItem);
      assert table == init + [last];
    }
  }

  /** The header rules of a customer: the query has no order, so they come in table order. */
  function HeaderRules(table: seq<CustomerRegexRule>, customer: string): (rs: seq<CustomerRegexRule>)
    ensures forall r :: r in rs <==> r in table && r.customerName == customer && !r.isItemField
  {
    Select(table, customer, false)
  }

  /** Each header rule of the customer is resolved as many times as the table holds it. */
  lemma {:induction false} HeaderRulesCounts(table: seq<CustomerRegexRule>, customer: string)
    ensures forall r :: multiset(HeaderRules(table, customer))[r]
                     == if r.customerName == customer && !r.isItemField then multiset(table)[r] else 0
  {
    SelectCounts(table, customer, false);
  }

  predicate SortedById(rs: seq<CustomerRegexRule>) {
    forall i, j :: 0 <= i < j < |rs| ==> rs[i].id <= rs[j].id
  }

  function InsertById(r: CustomerRegexRule, rs: seq<CustomerRegexRule>): (out: seq<CustomerRegexRule>)
    requires SortedById(rs)
    ensures SortedById(out)
    ensures multiset(out) == multiset(rs) + multiset{r}
  {
    if rs == [] || r.id <= rs[0].id then [r] + rs
    else
      var tail := InsertById(r, rs[1..]);
      assert rs == [rs[0]] + rs[1..];
      InsertKeepsHeadFirst(rs[0], r, rs[1..], tail);
      [rs[0]] + tail
  }

  /** A rule no later than every element of `rs` and than `r` stays first in front of their insertion. */
  lemma {:induction false} InsertKeepsHeadFirst(head: CustomerRegexRule, r: CustomerRegexRule, rs: seq<CustomerRegexRule>,
                             tail: seq<CustomerRegexRule>)
    requires SortedById(tail) && multiset(tail) == multiset(rs) + multiset{r}
    requires head.id <= r.id && forall x :: x in rs ==> head.id <= x.id
    ensures SortedById([head] + tail)
  {
    forall j | 0 <= j < |tail| ensures head.id <= tail[j].id {
      assert tail[j] in multiset(tail);
    }
  }

  function SortById(rs: seq<CustomerRegexRule>): (out: seq<CustomerRegexRule>)
    ensures SortedById(out)
    ensures multiset(out) == multiset(rs)
  {
    if rs == [] then []
    else
      assert rs == [rs[0]] + rs[1..];
      InsertById(rs[0], SortById(rs[1..]))
  }

  /** The item rules of a customer, ordered by `id` as the query asks. */
  function ItemRules(table: seq<CustomerRegexRule>, customer: string): (rs: seq<CustomerRegexRule>)
    ensures SortedById(rs)
    ensures multiset(rs) == multiset(Select(table, customer, true))
    ensures forall r :: r in rs <==> r in table && r.customerName == customer && r.isItemField
  {
    var rs := SortById(Select(table, customer, true));
    assert forall r :: r in rs <==> r in multiset(rs);
    rs
  }

  // ---------------------------------------------------------------------
  // Header resolver
  // ---------------------------------------------------------------------

  /** A flat field map: the header result, field name to text or None. */
  type FieldMap = map<string, Option<string>>

  /**
   * The value one header rule gives: the stripped text of group `g` of the
   * first match. An invalid pattern, no match, a group that does not exist
   * (IndexError) and a group that did not take part (`None.strip()` raising,
   * caught by the last handler) all give None.
   */
  function HeaderValue(eng: Engine, rule: CustomerRegexRule, text: string): Option<string> {
    if !eng.compiles(rule.regexPattern) then None
    else match eng.search(rule.regexPattern, text)
      case None => None
      case Some(m) =>
        match Group(m, rule.regexGroup)
        case Some(Some(s)) => Some(Strip(s))
        case _ => None
  }

  /** The header map after the first rules: each rule in turn sets its field, a later rule overwriting. */
  function HeaderFold(eng: Engine, rules: seq<CustomerRegexRule>, text: string): FieldMap {
    if rules == [] then map[]
    else
      var last := rules[|rules| - 1];
      HeaderFold(eng, rules[..|rules| - 1], text)[last.fieldName := HeaderValue(eng, last, text)]
  }

  /** `extract_header_data`: the header map of the customer's header rules. */
  method ExtractHeaderData(eng: Engine, table: seq<CustomerRegexRule>, text: string, customer: string)
    returns (extractedData: FieldMap)
    ensures extractedData == HeaderFold(eng, HeaderRules(table, customer), text)
  {
    var headerRules := HeaderRules(table, customer);
    if |headerRules| == 0 {
      return map[];
    }
    extractedData := ResolveHeaders(eng, headerRules, text);
  }

  /** The loop of `extract_header_data`: each rule in turn sets its field in the map. */
  method ResolveHeaders(eng: Engine, headerRules: seq<CustomerRegexRule>, text: string)
    returns (extractedData: FieldMap)
    ensures extractedData == HeaderFold(eng, headerRules, text)
  {
    extractedData := map[];
    var i := 0;
    while i < |headerRules|
      invariant 0 <= i <= |headerRules|
      invariant extractedData == HeaderFold(eng, headerRules[..i], text)
    {
      var rule := headerRules[i];
      var fieldName := rule.fieldName;
      if !eng.compiles(rule.regexPattern) {
        extractedData := extractedData[fieldName := None];
      } else {
        var found := eng.search(rule.regexPattern, text);
        if found.Some? {
          var extractedValue := Group(found.value, rule.regexGroup);
          if extractedValue.Some? && extractedValue.value.Some? {
            extractedData := extractedData[fieldName := Some(Strip(extractedValue.value.value))];
          } else {
            extractedData := extractedData[fieldName := None];
          }
        } else {
          extractedData := extractedData[fieldName := None];
        }
      }
      assert headerRules[..i + 1][..i] == headerRules[..i];
      i := i + 1;
    }
    assert headerRules[..i] == headerRules;
  }

  /**
   * A header value is some text exactly when the pattern compiles, has a
   * first match, and group `g` exists and took part in it; the text is
   * that group's, stripped.
   */
  lemma {:induction false} HeaderValueSome(eng: Engine, rule: CustomerRegexRule, text: string)
    ensures HeaderValue(eng, rule, text).Some? <==>
      && eng.compiles(rule.regexPattern)
      && eng.search(rule.regexPattern, text).Some?
      && Group(eng.search(rule.regexPattern, text).value, rule.regexGroup).Some?
      && Group(eng.search(rule.regexPattern, text).value, rule.regexGroup).value.Some?
    ensures HeaderValue(eng, rule, text).Some? ==>
      HeaderValue(eng, rule, text).value
      == Strip(Group(eng.search(rule.regexPattern, text).value, rule.regexGroup).value.value)
  {
  }

  /** Exactly the field names of the rules are keys of the header map (none when there are no rules). */
  lemma {:induction false} HeaderFoldKeys(eng: Engine, rules: seq<CustomerRegexRule>, text: string)
    ensures HeaderFold(eng, rules, text).Keys == set r | r in rules :: r.fieldName
  {
    if rules != [] {
      var init := rules[..|rules| - 1];
      HeaderFoldKeys(eng, init, text);
      assert rules == init + [rules[|rules| - 1]];
    }
  }

  /** A field's value is the one its last rule gives: a later rule with the same field name overwrites. */
  lemma {:induction false} HeaderFoldLastWins(eng: Engine, rules: seq<CustomerRegexRule>, text: string, i: nat)
    requires i < |rules|
    requires forall j :: i < j < |rules| ==> rules[j].fieldName != rules[i].fieldName
    ensures rules[i].fieldName in HeaderFold(eng, rules, text)
    ensures HeaderFold(eng, rules, text)[rules[i].fieldName] == HeaderValue(eng, rules[i], text)
  {
    if i < |rules| - 1 {
      var init := rules[..|rules| - 1];
      HeaderFoldLastWins(eng, init, text, i);
    }
  }

  /**
   * Fields are independent: replacing one rule (by a broken pattern, say)
   * with another for the same field changes no other field's value.
   */
  lemma {:induction false} HeaderFoldSiblings(eng: Engine, rules: seq<CustomerRegexRule>, text: string, i: nat,
                                              other: CustomerRegexRule)
    requires i < |rules| && other.fieldName == rules[i].fieldName
    ensures HeaderFold(eng, rules[i := other], text) - {other.fieldName}
         == HeaderFold(eng, rules, text) - {other.fieldName}
  {
    var n := |rules|;
    var rules' := rules[i := other];
    var last, last' := rules[n - 1], rules'[n - 1];
    var before := HeaderFold(eng, rules[..n - 1], text);
    var before' := HeaderFold(eng, rules'[..n - 1], text);
    if i < n - 1 {
      assert rules'[..n - 1] == rules[..n - 1][i := other];
      HeaderFoldSiblings(eng, rules[..n - 1], text, i, other);
    } else {
      assert rules'[..n - 1] == rules[..n - 1];
    }
    UpdateOutsideKey(before', before, last'.fieldName, HeaderValue(eng, last', text),
                     HeaderValue(eng, last, text), other.fieldName);
  }

  /** Maps equal away from `f0` stay so after the same update, or after any update at `f0`. */
  lemma {:induction false} UpdateOutsideKey(m: FieldMap, m': FieldMap, k: string, v: Option<string>, v': Option<string>, f0: string)
    requires m - {f0} == m' - {f0}
    requires k != f0 ==> v == v'
    ensures m[k := v] - {f0} == m'[k := v'] - {f0}
  {
    assert forall f :: f in m && f != f0 ==> f in m' && m[f] == m'[f] by {
      forall f | f in m && f != f0 ensures f in m' && m[f] == m'[f] {
        assert f in m - {f0};
      }
    }
    assert forall f :: f in m' && f != f0 ==> f in m by {
      forall f | f in m' && f != f0 ensures f in m {
        assert f in m' - {f0};
      }
    }
  }

  // ---------------------------------------------------------------------
  // Item resolver
  // ---------------------------------------------------------------------

  /** The exceptions that end one item rule early. */
  datatype ItemFault =
    | GroupIsNull     // `len(groups) >= None` raises TypeError
    | GroupIndexError // `groups[g - 1]` out of range raises IndexError

  /**
   * The value one item match gives for rule group `g`, from the match's
   * `groups()`: group 0 is `groups[-1]`, the last group, by Python's
   * negative indexing; a missing or empty group gives None; a group number
   * above the group count gives None.
   */
  function ItemGroupValue(groups: seq<Option<string>>, g: Option<int>): Result<Option<string>, ItemFault> {
    if g.None? then Failure(GroupIsNull)
    else if |groups| >= g.value then
      match PyIndex(groups, g.value - 1)
      case None => Failure(GroupIndexError)
      case Some(v) => Success(Cleaned(v))
    else Success(None)
  }

  /** An item group's value: None for a group that did not take part or is empty, else its text stripped. */
  function Cleaned(v: Option<string>): Option<string> {
    if v.None? || v.value == "" then None else Some(Strip(v.value))
  }

  /** `items` extended with empty records until it has an entry at index `k`. */
  function Stretch(items: seq<ItemRecord>, k: nat): (r: seq<ItemRecord>)
    ensures |r| == if |items| > k then |items| else k + 1
    ensures r[..|items|] == items
    ensures forall j :: |items| <= j < |r| ==> r[j] == map[]
    decreases k + 1 - |items|
  {
    if |items| > k then items else Stretch(items + [map[]], k)
  }

  /** Matches `k` onward of one rule written into `items`; an exception ends the rule. */
  function ApplyMatches(field: string, g: Option<int>, ms: seq<Match>, k: nat, items: seq<ItemRecord>): seq<ItemRecord>
    requires k <= |ms|
    decreases |ms| - k
  {
    if k == |ms| then items
    else
      var stretched := Stretch(items, k);
      match ItemGroupValue(ms[k].groups, g)
      case Failure(_) => stretched
      case Success(v) => ApplyMatches(field, g, ms, k + 1, stretched[k := stretched[k][field := v]])
  }

  /** One item rule applied to the list: an invalid pattern leaves it as it is. */
  function ApplyItemRule(eng: Engine, rule: CustomerRegexRule, text: string, items: seq<ItemRecord>): seq<ItemRecord> {
    if !eng.compiles(rule.regexPattern) then items
    else ApplyMatches(rule.fieldName, rule.regexGroup, eng.findAll(rule.regexPattern, text), 0, items)
  }

  /** The item list after the first rules, each applied in turn. */
  function ItemFold(eng: Engine, rules: seq<CustomerRegexRule>, text: string): seq<ItemRecord> {
    if rules == [] then []
    else ApplyItemRule(eng, rules[|rules| - 1], text, ItemFold(eng, rules[..|rules| - 1], text))
  }

  /**
   * The loop of `extract_item_data` over one rule's matches: match `k` is
   * written into record `k`, the list grown with empty records as needed,
   * until the matches run out or a group value raises.
   */
  method WriteMatches(fieldName: string, groupNum: Option<int>, matches: seq<Match>, items0: seq<ItemRecord>)
    returns (items: seq<ItemRecord>)
    ensures items == ApplyMatches(fieldName, groupNum, matches, 0, items0)
  {
    items := items0;
    var matchIndex := 0;
    while matchIndex < |matches|
      invariant 0 <= matchIndex <= |matches|
      invariant matchIndex <= |items|
      invariant ApplyMatches(fieldName, groupNum, matches, matchIndex, items)
             == ApplyMatches(fieldName, groupNum, matches, 0, items0)
    {
      var groups := matches[matchIndex].groups;
      ghost var before := items;
      while |items| <= matchIndex
        invariant matchIndex <= |items|
        invariant Stretch(items, matchIndex) == Stretch(before, matchIndex)
        decreases matchIndex + 1 - |items|
      {
        items := items + [map[]];
      }
      assert items == Stretch(before, matchIndex);
      var value := ItemGroupValue(groups, groupNum);
      if value.Failure? {
        return;
      }
      items := items[matchIndex := items[matchIndex][fieldName := value.value]];
      matchIndex := matchIndex + 1;
    }
  }

  /** `extract_item_data`: the item list of the customer's item rules, in `id` order. */
  method ExtractItemData(eng: Engine, table: seq<CustomerRegexRule>, text: string, customer: string)
    returns (items: seq<ItemRecord>)
    ensures items == ItemFold(eng, ItemRules(table, customer), text)
  {
    var itemRules := ItemRules(table, customer);
    if |itemRules| == 0 {
      return [];
    }
    items := ResolveItems(eng, itemRules, text);
  }

  /** The loop of `extract_item_data`: each rule with a valid pattern writes its matches in turn. */
  method ResolveItems(eng: Engine, itemRules: seq<CustomerRegexRule>, text: string)
    returns (items: seq<ItemRecord>)
    ensures items == ItemFold(eng, itemRules, text)
  {
    items := [];
    var i := 0;
    while i < |itemRules|
      invariant 0 <= i <= |itemRules|
      invariant items == ItemFold(eng, itemRules[..i], text)
    {
      var rule := itemRules[i];
      if eng.compiles(rule.regexPattern) {
        var matches := eng.findAll(rule.regexPattern, text);
        items := WriteMatches(rule.fieldName, rule.regexGroup, matches, items);
      }
      assert itemRules[..i + 1][..i] == itemRules[..i];
      i := i + 1;
    }
    assert itemRules[..i] == itemRules;
  }

  /** How far one rule got through its matches, from match `k`: up to and including the match that raised. */
  function ReachFrom(g: Option<int>, ms: seq<Match>, k: nat): (n: nat)
    requires k <= |ms|
    ensures k <= n <= |ms|
    decreases |ms| - k
  {
    if k == |ms| then k
    else if ItemGroupValue(ms[k].groups, g).Failure? then k + 1
    else ReachFrom(g, ms, k + 1)
  }

  /** The number of matches a rule got through (0 for an invalid pattern). */
  function Reach(eng: Engine, rule: CustomerRegexRule, text: string): nat {
    if !eng.compiles(rule.regexPattern) then 0
    else ReachFrom(rule.regexGroup, eng.findAll(rule.regexPattern, text), 0)
  }

  /** Match `j` is written when every match from `k` up to `j` gave a value. */
  ghost predicate WritesFrom(g: Option<int>, ms: seq<Match>, k: nat, j: nat) {
    k <= j < |ms| && forall m :: k <= m <= j ==> ItemGroupValue(ms[m].groups, g).Success?
  }

  /** The rule writes its field into entry `j` of the list. */
  ghost predicate Writes(eng: Engine, rule: CustomerRegexRule, text: string, j: nat) {
    eng.compiles(rule.regexPattern) && WritesFrom(rule.regexGroup, eng.findAll(rule.regexPattern, text), 0, j)
  }

  /** The value the rule writes into entry `j`. */
  ghost function WrittenValue(eng: Engine, rule: CustomerRegexRule, text: string, j: nat): Option<string>
    requires Writes(eng, rule, text, j)
  {
    ItemGroupValue(eng.findAll(rule.regexPattern, text)[j].groups, rule.regexGroup).value
  }

  /** Entry `j` of a list, or the empty record past its end. */
  function EntryOrEmpty(items: seq<ItemRecord>, j: nat): ItemRecord {
    if j < |items| then items[j] else map[]
  }

  function Max(a: nat, b: nat): nat {
    if a < b then b else a
  }

  /**
   * Matches `k` onward: the list grows only by empty records, to the reach
   * of the rule, and entry `j` changes only at the rule's field, and only
   * when match `j` is written.
   */
  lemma {:induction false} ApplyMatchesEffect(field: string, g: Option<int>, ms: seq<Match>, k: nat, items: seq<ItemRecord>)
    requires k <= |ms| && k <= |items|
    ensures var r := ApplyMatches(field, g, ms, k, items);
      && |r| == Max(|items|, ReachFrom(g, ms, k))
      && forall j :: 0 <= j < |r| ==>
           r[j] == if WritesFrom(g, ms, k, j)
                   then EntryOrEmpty(items, j)[field := ItemGroupValue(ms[j].groups, g).value]
                   else EntryOrEmpty(items, j)
    decreases |ms| - k
  {
    ApplyMatchesLength(field, g, ms, k, items);
    forall j | 0 <= j < |ApplyMatches(field, g, ms, k, items)|
      ensures ApplyMatches(field, g, ms, k, items)[j]
           == if WritesFrom(g, ms, k, j)
              then EntryOrEmpty(items, j)[field := ItemGroupValue(ms[j].groups, g).value]
              else EntryOrEmpty(items, j)
    {
      ApplyMatchesEntry(field, g, ms, k, items, j);
    }
  }

  /** Matches `k` onward leave the list as long as the longer of it and the rule's reach. */
  lemma {:induction false} ApplyMatchesLength(field: string, g: Option<int>, ms: seq<Match>, k: nat, items: seq<ItemRecord>)
    requires k <= |ms| && k <= |items|
    ensures |ApplyMatches(field, g, ms, k, items)| == Max(|items|, ReachFrom(g, ms, k))
    decreases |ms| - k
  {
    if k < |ms| {
      var stretched := Stretch(items, k);
      if ItemGroupValue(ms[k].groups, g).Success? {
        var v := ItemGroupValue(ms[k].groups, g).value;
        ApplyMatchesLength(field, g, ms, k + 1, stretched[k := stretched[k][field := v]]);
      }
    }
  }

  /** Entry `j` after matches `k` onward: the old entry (or an empty record), with the field set when match `j` is written. */
  lemma {:induction false} ApplyMatchesEntry(field: string, g: Option<int>, ms: seq<Match>, k: nat, items: seq<ItemRecord>, j: nat)
    requires k <= |ms| && k <= |items| && j < |ApplyMatches(field, g, ms, k, items)|
    ensures ApplyMatches(field, g, ms, k, items)[j]
         == if WritesFrom(g, ms, k, j)
            then EntryOrEmpty(items, j)[field := ItemGroupValue(ms[j].groups, g).value]
            else EntryOrEmpty(items, j)
    decreases |ms| - k
  {
    if k < |ms| {
      var stretched := Stretch(items, k);
      if j < |items| {
        assert stretched[..|items|][j] == stretched[j];
      }
      assert j < |stretched| ==> stretched[j] == EntryOrEmpty(items, j);
      if ItemGroupValue(ms[k].groups, g).Success? {
        var v := ItemGroupValue(ms[k].groups, g).value;
        var next := stretched[k := stretched[k][field := v]];
        ApplyMatchesEntry(field, g, ms, k + 1, next, j);
        WritesFromStep(g, ms, k, j);
        if j == k {
          assert EntryOrEmpty(next, j) == EntryOrEmpty(items, j)[field := v];
        } else {
          assert EntryOrEmpty(next, j) == EntryOrEmpty(items, j);
        }
      } else {
        assert !WritesFrom(g, ms, k, j);
      }
    }
  }

  /** When match `k` gives a value, writing from `k` is match `k` itself or writing from `k + 1`. */
  lemma {:induction false} WritesFromStep(g: Option<int>, ms: seq<Match>, k: nat, j: nat)
    requires k < |ms| && ItemGroupValue(ms[k].groups, g).Success?
    ensures WritesFrom(g, ms, k, j) <==> j == k || WritesFrom(g, ms, k + 1, j)
  {
    if WritesFrom(g, ms, k + 1, j) {
      assert forall m :: k <= m <= j ==> ItemGroupValue(ms[m].groups, g).Success? by {
        forall m | k <= m <= j ensures ItemGroupValue(ms[m].groups, g).Success? {
          if m > k {
            assert k + 1 <= m <= j;
          }
        }
      }
    }
  }

  /**
   * One item rule: the k-th match writes only entry k, at the rule's field;
   * the list grows only by appending empty records, never shrinks, and ends
   * as long as the rule got through. An invalid pattern changes nothing; a
   * match that raises keeps the empty record appended for it and ends the
   * rule.
   */
  lemma {:induction false} ApplyItemRuleEffect(eng: Engine, rule: CustomerRegexRule, text: string, items: seq<ItemRecord>)
    ensures var r := ApplyItemRule(eng, rule, text, items);
      && |r| == Max(|items|, Reach(eng, rule, text))
      && forall j :: 0 <= j < |r| ==>
           r[j] == if Writes(eng, rule, text, j)
                   then EntryOrEmpty(items, j)[rule.fieldName := WrittenValue(eng, rule, text, j)]
                   else EntryOrEmpty(items, j)
  {
    if eng.compiles(rule.regexPattern) {
      ApplyMatchesEffect(rule.fieldName, rule.regexGroup, eng.findAll(rule.regexPattern, text), 0, items);
    }
  }

  /** A written match lies within the rule's reach. */
  lemma {:induction false} WritesFromWithinReach(g: Option<int>, ms: seq<Match>, k: nat, j: nat)
    requires k <= |ms| && WritesFrom(g, ms, k, j)
    ensures j < ReachFrom(g, ms, k)
    decreases |ms| - k
  {
    if k < j {
      assert WritesFrom(g, ms, k + 1, j);
      WritesFromWithinReach(g, ms, k + 1, j);
    }
  }

  /**
   * The item list is as long as the farthest any rule got: no rule got
   * farther, and a non-empty list was made that long by some rule.
   */
  lemma {:induction false} ItemFoldLength(eng: Engine, rules: seq<CustomerRegexRule>, text: string)
    ensures forall j :: 0 <= j < |rules| ==> Reach(eng, rules[j], text) <= |ItemFold(eng, rules, text)|
    ensures |ItemFold(eng, rules, text)| == 0
         || exists j :: 0 <= j < |rules| && Reach(eng, rules[j], text) == |ItemFold(eng, rules, text)|
  {
    if rules != [] {
      var init := rules[..|rules| - 1];
      var last := rules[|rules| - 1];
      ItemFoldLength(eng, init, text);
      ApplyItemRuleEffect(eng, last, text, ItemFold(eng, init, text));
      assert forall j :: 0 <= j < |rules| - 1 ==> rules[j] == init[j];
    }
  }

  /** The index of the last rule that writes field `f` into entry `k`, or -1 when none does. */
  ghost function LastWriter(eng: Engine, rules: seq<CustomerRegexRule>, text: string, k: nat, f: string): (w: int)
    ensures -1 <= w < |rules|
    ensures w >= 0 ==> rules[w].fieldName == f && Writes(eng, rules[w], text, k)
    ensures forall j :: w < j < |rules| ==> !(rules[j].fieldName == f && Writes(eng, rules[j], text, k))
  {
    if rules == [] then -1
    else
      var last := rules[|rules| - 1];
      if last.fieldName == f && Writes(eng, last, text, k) then |rules| - 1
      else LastWriter(eng, rules[..|rules| - 1], text, k, f)
  }

  /**
   * Every cell of the item list: field `f` of entry `k` holds the value of
   * the last rule that writes it there, and is missing (not None) when no
   * rule does.
   */
  lemma {:induction false} ItemFoldCell(eng: Engine, rules: seq<CustomerRegexRule>, text: string, k: nat, f: string)
    requires k < |ItemFold(eng, rules, text)|
    ensures var items := ItemFold(eng, rules, text);
      var w := LastWriter(eng, rules, text, k, f);
      if w < 0 then f !in items[k]
      else f in items[k] && items[k][f] == WrittenValue(eng, rules[w], text, k)
  {
    var init := rules[..|rules| - 1];
    var last := rules[|rules| - 1];
    var prev := ItemFold(eng, init, text);
    ApplyItemRuleEffect(eng, last, text, prev);
    if last.fieldName == f && Writes(eng, last, text, k) {
    } else if k < |prev| {
      ItemFoldCell(eng, init, text, k, f);
    } else {
      var w := LastWriter(eng, init, text, k, f);
      if w >= 0 {
        var g := init[w];
        WritesFromWithinReach(g.regexGroup, eng.findAll(g.regexPattern, text), 0, k);
        ItemFoldLength(eng, init, text);
        assert false;
      }
    }
  }

  /**
   * Among the rules ordered by `id`, the value that stays in a cell is the
   * one of the writing rule with the largest `id`.
   */
  lemma {:induction false} ItemCellLargestId(eng: Engine, table: seq<CustomerRegexRule>, customer: string, text: string, k: nat, f: string)
    ensures var rules := ItemRules(table, customer);
      var w := LastWriter(eng, rules, text, k, f);
      forall j :: 0 <= j < |rules| && rules[j].fieldName == f && Writes(eng, rules[j], text, k) ==>
        0 <= w && rules[j].id <= rules[w].id
  {
    LastWriterLargestId(eng, ItemRules(table, customer), text, k, f);
  }

  /** In rules sorted by `id`, the last writer of a cell has the largest `id` among its writers. */
  lemma {:induction false} LastWriterLargestId(eng: Engine, rules: seq<CustomerRegexRule>, text: string, k: nat, f: string)
    requires SortedById(rules)
    ensures var w := LastWriter(eng, rules, text, k, f);
      forall j :: 0 <= j < |rules| && rules[j].fieldName == f && Writes(eng, rules[j], text, k) ==>
        0 <= w && rules[j].id <= rules[w].id
  {
    var w := LastWriter(eng, rules, text, k, f);
    forall j | 0 <= j < |rules| && rules[j].fieldName == f && Writes(eng, rules[j], text, k)
      ensures 0 <= w && rules[j].id <= rules[w].id
    {
      assert j <= w;
    }
  }

  /** An item group value: the stripped text, or None for a missing or empty group. */
  /**
   * Item group semantics for rule group `g` and a match with `n` groups:
   * for 1 <= g <= n the value is group g cleaned; for g > n it is None;
   * for g = 0 it is the LAST group, and with no groups it raises.
   */
  lemma {:induction false} ItemGroupValueCases(groups: seq<Option<string>>, g: int)
    ensures 1 <= g <= |groups| ==> ItemGroupValue(groups, Some(g)) == Success(Cleaned(groups[g - 1]))
    ensures g > |groups| ==> ItemGroupValue(groups, Some(g)) == Success(None)
    ensures g == 0 && groups != [] ==> ItemGroupValue(groups, Some(0)) == Success(Cleaned(groups[|groups| - 1]))
    ensures g == 0 && groups == [] ==> ItemGroupValue(groups, Some(0)) == Failure(GroupIndexError)
  {
  }

  /** For the same match an empty group gives "" in a header but None in an item. */
  lemma {:induction false} EmptyGroupDivergence(eng: Engine, rule: CustomerRegexRule, text: string, m: Match)
    requires eng.compiles(rule.regexPattern) && eng.search(rule.regexPattern, text) == Some(m)
    requires rule.regexGroup.Some? && 1 <= rule.regexGroup.value <= |m.groups|
    requires m.groups[rule.regexGroup.value - 1] == Some("")
    ensures HeaderValue(eng, rule, text) == Some("")
    ensures ItemGroupValue(m.groups, rule.regexGroup) == Success(None)
  {
    StripEmptyIffBlank("");
  }

  /** Group 0 is the whole match in a header but the last group in an item. */
  lemma {:induction false} GroupZeroDivergence(eng: Engine, rule: CustomerRegexRule, text: string, m: Match)
    requires eng.compiles(rule.regexPattern) && eng.search(rule.regexPattern, text) == Some(m)
    requires rule.regexGroup == Some(0) && m.groups != []
    ensures HeaderValue(eng, rule, text) == Some(Strip(m.full))
    ensures ItemGroupValue(m.groups, rule.regexGroup) == Success(Cleaned(m.groups[|m.groups| - 1]))
  {
  }

  // ---------------------------------------------------------------------
  // Merge
  // ---------------------------------------------------------------------

  /** `{**header, 'items': items}`: every header field, then `items`, which overrides a header field of that name. */
  function MergeResult(header: FieldMap, items: seq<ItemRecord>): ExtractionResult {
    (map f | f in header :: Scalar(header[f]))["items" := ItemList(items)]
  }

  /** The merge keeps every header field as a scalar, adds `items`, and `items` wins over a header field of that name. */
  lemma {:induction false} MergeResultShape(header: FieldMap, items: seq<ItemRecord>)
    ensures var r := MergeResult(header, items);
      && r.Keys == header.Keys + {"items"}
      && r["items"] == ItemList(items)
      && forall f :: f in header && f != "items" ==> r[f] == Scalar(header[f])
  {
  }

  /** The structured result for a document text and a customer. */
  function ExpectedResult(eng: Engine, table: seq<CustomerRegexRule>, text: string, customer: string): ExtractionResult {
    MergeResult(HeaderFold(eng, HeaderRules(table, customer), text), ItemFold(eng, ItemRules(table, customer), text))
  }

  /**
   * The result's keys are the field names of the customer's header rules
   * and `items`; `items` holds the item records, and every other key holds
   * the value of the last header rule with that field name.
   */
  lemma {:induction false} ExpectedResultShape(eng: Engine, table: seq<CustomerRegexRule>, text: string, customer: string)
    ensures var r := ExpectedResult(eng, table, text, customer);
      && r.Keys == (set rule | rule in HeaderRules(table, customer) :: rule.fieldName) + {"items"}
      && r["items"] == ItemList(ItemFold(eng, ItemRules(table, customer), text))
      && forall i :: 0 <= i < |HeaderRules(table, customer)| && HeaderRules(table, customer)[i].fieldName != "items"
           && (forall j :: i < j < |HeaderRules(table, customer)| ==>
                 HeaderRules(table, customer)[j].fieldName != HeaderRules(table, customer)[i].fieldName)
           ==> r[HeaderRules(table, customer)[i].fieldName] == Scalar(HeaderValue(eng, HeaderRules(table, customer)[i], text))
  {
    var rules := HeaderRules(table, customer);
    var header := HeaderFold(eng, rules, text);
    MergeResultShape(header, ItemFold(eng, ItemRules(table, customer), text));
    HeaderFoldKeys(eng, rules, text);
    forall i | 0 <= i < |rules| && rules[i].fieldName != "items"
                && (forall j :: i < j < |rules| ==> rules[j].fieldName != rules[i].fieldName)
      ensures ExpectedResult(eng, table, text, customer)[rules[i].fieldName] == Scalar(HeaderValue(eng, rules[i], text))
    {
      HeaderFoldLastWins(eng, rules, text, i);
    }
  }

  /** `extract_data_using_regex`: header resolution, then item resolution, merged. */
  method ExtractDataUsingRegex(eng: Engine, table: seq<CustomerRegexRule>, text: string, customer: string)
    returns (extractedData: ExtractionResult)
    ensures extractedData == ExpectedResult(eng, table, text, customer)
  {
    var headerData := ExtractHeaderData(eng, table, text, customer);
    var itemData := ExtractItemData(eng, table, text, customer);
    extractedData := MergeResult(headerData, itemData);
  }

  /** A customer without rules gets `{"items": []}` and no header keys. */
  lemma {:induction false} NoRulesResult(eng: Engine, table: seq<CustomerRegexRule>, text: string, customer: string)
    requires forall r :: r in table ==> r.customerName != customer
    ensures ExpectedResult(eng, table, text, customer) == map["items" := ItemList([])]
  {
  }
}
