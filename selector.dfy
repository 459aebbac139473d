/** `blacklistedSelector` of index.js: rules whose declarations are never converted. */
module Selector {
  import opened Wrappers
  import opened JsString

  /**
   * A `selectorBlackList` entry: a string, or any other value, which `selector.match`
   * uses as a regular expression (given here by its whole literal, flags included).
   */
  datatype BlackEntry = Plain(text: string) | Pattern(source: string)

  /** One entry against a selector; `test(source, subject)` is the host's regex match. */
  predicate EntryMatches(entry: BlackEntry, selector: string, test: (string, string) -> bool)
  {
    match entry
    case Plain(t) => IndexOf(selector, t) != -1
    case Pattern(source) => test(source, selector)
  }

  /** `blacklist.some(...)`, scanning the entries in order. */
  function AnyEntryMatches(blacklist: seq<BlackEntry>, selector: string, test: (string, string) -> bool): (r: bool)
    ensures r <==> exists k :: 0 <= k < |blacklist| && EntryMatches(blacklist[k], selector, test)
  {
    if blacklist == [] then false
    else if EntryMatches(blacklist[0], selector, test) then true
    else
      var rest := AnyEntryMatches(blacklist[1..], selector, test);
      assert forall k :: 1 <= k < |blacklist| ==> blacklist[k] == blacklist[1..][k - 1];
      rest
  }

  /** `blacklistedSelector(blacklist, selector)`: `None` is a selector that is not a string. */
  function BlacklistedSelector(blacklist: seq<BlackEntry>, selector: Option<string>,
                               test: (string, string) -> bool): (r: bool)
    ensures selector.None? ==> !r
    ensures blacklist == [] ==> !r
    ensures selector.Some? ==>
              (r <==> exists k :: 0 <= k < |blacklist| && EntryMatches(blacklist[k], selector.value, test))
  {
    match selector
    case None => false
    case Some(s) => AnyEntryMatches(blacklist, s, test)
  }

  /** A string entry that occurs anywhere in the selector blacklists it. */
  lemma PlainSubstringBlacklists(blacklist: seq<BlackEntry>, t: string, selector: string,
                                 test: (string, string) -> bool)
    requires Plain(t) in blacklist && IsSubstring(t, selector)
    ensures BlacklistedSelector(blacklist, Some(selector), test)
  {
    ContainsIsSubstring(selector, t);
    var k :| 0 <= k < |blacklist| && blacklist[k] == Plain(t);
    assert EntryMatches(blacklist[k], selector, test);
  }

  /** A blacklist is the union of its parts: order and grouping of entries do not matter. */
  lemma BlacklistAppend(a: seq<BlackEntry>, b: seq<BlackEntry>, selector: Option<string>,
                        test: (string, string) -> bool)
    ensures BlacklistedSelector(a + b, selector, test)
            == (BlacklistedSelector(a, selector, test) || BlacklistedSelector(b, selector, test))
  {
    if selector.Some? {
      var s := selector.value;
      if BlacklistedSelector(a, selector, test) {
        var k :| 0 <= k < |a| && EntryMatches(a[k], s, test);
        assert (a + b)[k] == a[k];
      }
      if BlacklistedSelector(b, selector, test) {
        var k :| 0 <= k < |b| && EntryMatches(b[k], s, test);
        assert (a + b)[|a| + k] == b[k];
      }
      if BlacklistedSelector(a + b, selector, test) {
        var k :| 0 <= k < |a + b| && EntryMatches((a + b)[k], s, test);
        if k >= |a| {
          assert (a + b)[k] == b[k - |a|];
        } else {
          assert (a + b)[k] == a[k];
        }
      }
    }
  }
}
