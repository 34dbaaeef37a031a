/**
 * The admin action that duplicates the selected regex rules. The rule table
 * is a sequence of rows with the id counter the database assigns from; an
 * action's response is the message it reports and, for a single duplicate,
 * the change page it redirects to.
 */
module RuleAdmin {
  import opened Wrappers
  import opened PyOps
  import opened RegexRules

  /** What the action hands back: its success message, and the id of the rule whose change page it redirects to, if any. */
  datatype ActionResponse = ActionResponse(message: string, redirectTo: Option<nat>)

  const SingleDuplicateMessage: string := "Row successfully duplicated. You are now editing the duplicate."

  /** The message for `n` duplicates that do not lead to a redirect (`f'{n} rows successfully duplicated.'`). */
  function CountMessage(n: nat): (m: string)
    ensures |m| > |" rows successfully duplicated."|
    ensures m[|m| - |" rows successfully duplicated."|..] == " rows successfully duplicated."
    ensures var digits := m[..|m| - |" rows successfully duplicated."|];
      IsDigits(digits) && DecimalValue(digits) == n && digits != [] && (digits[0] == '0' ==> digits == "0")
  {
    var digits := NatToDecimal(n);
    var m := digits + " rows successfully duplicated.";
    assert m[..|digits|] == digits;
    m
  }

  /** The selected rows as new rows: in order, each under the next id from `start`. */
  function Renumbered(queryset: seq<CustomerRegexRule>, start: nat): (copies: seq<CustomerRegexRule>)
    ensures |copies| == |queryset|
    ensures forall j :: 0 <= j < |copies| ==> IsDuplicateOf(copies[j], queryset[j]) && copies[j].id == start + j
  {
    if queryset == [] then []
    else Renumbered(queryset[..|queryset| - 1], start) + [queryset[|queryset| - 1].(id := start + |queryset| - 1)]
  }

  /** A copy of `r` as a new row: every field but the id kept. */
  predicate IsDuplicateOf(copy: CustomerRegexRule, r: CustomerRegexRule) {
    copy == r.(id := copy.id)
  }

  class RuleTable {
    var rows: seq<CustomerRegexRule>
    /** The id the next inserted row receives. */
    var nextId: nat

    /** Every row has an id below the counter, and no two rows share one. */
    ghost predicate Valid()
      reads this
    {
      && (forall i :: 0 <= i < |rows| ==> rows[i].id < nextId)
      && (forall i, j :: 0 <= i < j < |rows| ==> rows[i].id != rows[j].id)
    }

    constructor ()
      ensures Valid() && rows == [] && nextId == 1
    {
      rows := [];
      nextId := 1;
    }

    /** `obj.save()` with the primary key cleared: the row is inserted under a fresh id. */
    method InsertNew(r: CustomerRegexRule) returns (saved: CustomerRegexRule)
      requires Valid()
      modifies this
      ensures Valid()
      ensures saved == r.(id := old(nextId)) && IsDuplicateOf(saved, r)
      ensures rows == old(rows) + [saved] && nextId == old(nextId) + 1
    {
      saved := r.(id := nextId);
      rows := rows + [saved];
      nextId := nextId + 1;
    }

    /**
     * `duplicate_rows`: one new row per selected row, in selection order,
     * each a copy of its source under a fresh id; the existing rows stay as
     * they were. A single duplicate redirects to its change page; any other
     * count only reports how many rows were duplicated.
     */
    method DuplicateRows(queryset: seq<CustomerRegexRule>) returns (response: ActionResponse)
      requires Valid()
      modifies this
      ensures Valid()
      ensures rows == old(rows) + Renumbered(queryset, old(nextId))
      ensures nextId == old(nextId) + |queryset|
      ensures |queryset| == 1 ==> response == ActionResponse(SingleDuplicateMessage, Some(old(nextId)))
      ensures |queryset| != 1 ==> response == ActionResponse(CountMessage(|queryset|), None)
    {
      var duplicatedCount := 0;
      var lastDuplicated: Option<CustomerRegexRule> := None;
      ghost var rows0, start := rows, nextId;
      for j := 0 to |queryset|
        invariant Valid()
        invariant rows == rows0 + Renumbered(queryset[..j], start)
        invariant nextId == start + j
        invariant duplicatedCount == j
        invariant j == 0 ==> lastDuplicated.None?
        invariant j > 0 ==> lastDuplicated.Some? && lastDuplicated.value.id == start + j - 1
      {
        var saved := InsertNew(queryset[j]);
        assert queryset[..j + 1][..j] == queryset[..j];
        duplicatedCount := duplicatedCount + 1;
        lastDuplicated := Some(saved);
      }
      assert queryset[..|queryset|] == queryset;
      if duplicatedCount == 1 && lastDuplicated.Some? {
        return ActionResponse(SingleDuplicateMessage, Some(lastDuplicated.value.id));
      }
      return ActionResponse(CountMessage(duplicatedCount), None);
    }
  }
}
