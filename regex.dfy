/**
 * The regular-expression engine the extractor calls: Python's `re` with the
 * MULTILINE and DOTALL flags. The engine itself is not modelled; it enters
 * the model as a value of type `Engine` that the caller supplies.
 */
module Regex {
  import opened Wrappers

  /**
   * One match object: `group(0)`, the whole matched text, and `groups()`,
   * one entry per capture group, None for a group that did not take part.
   */
  datatype Match = Match(full: string, groups: seq<Option<string>>)

  /**
   * The engine as three operations on (pattern, text):
   * `compiles(p)` is false when `re` raises `re.error` for `p`;
   * `search(p, t)` is `re.search(p, t, re.MULTILINE | re.DOTALL)`;
   * `findAll(p, t)` lists the matches `re.finditer` yields, in order.
   * `search` and `findAll` are consulted only for patterns that compile.
   */
  datatype Engine = Engine(
    compiles: string -> bool,
    search: (string, string) -> Option<Match>,
    findAll: (string, string) -> seq<Match>)

  /**
   * `m.group(g)` where `g` is the rule's `regex_group` (None for a null
   * column). The outer None stands for the IndexError Python raises for a
   * group that does not exist (a null, negative or too large number); the
   * inner None is a group that exists but did not take part in the match.
   */
  function Group(m: Match, g: Option<int>): (r: Option<Option<string>>)
    ensures r.Some? <==> g.Some? && 0 <= g.value <= |m.groups|
    ensures g == Some(0) ==> r == Some(Some(m.full))
    ensures g.Some? && 1 <= g.value <= |m.groups| ==> r == Some(m.groups[g.value - 1])
  {
    match g
    case None => None
    case Some(i) =>
      if i == 0 then Some(Some(m.full))
      else if 1 <= i <= |m.groups| then Some(m.groups[i - 1])
      else None
  }
}
