/** The `exclude` option of index.js: source files whose declarations are skipped. */
module Exclude {
  import opened Wrappers

  /**
   * An element of an `exclude` array: a RegExp, given by its whole literal (flags included),
   * or anything else.
   */
  datatype Item = RegexItem(source: string) | OtherItem

  /**
   * `opts.exclude` as the type tests see it: `NoExclude` is any falsy value (absent, `null`,
   * `false`, ...), `OtherExclude` any truthy value that is neither a RegExp nor an Array.
   */
  datatype ExcludeOption =
    | NoExclude
    | RegexExclude(source: string)
    | ArrayExclude(items: seq<Item>)
    | OtherExclude

  const NotRegExpOrArray: string := "options.exclude should be RegExp or Array."
  const NotRegExp: string := "options.exclude should be RegExp."

  /** `isExclude(reg, file)`; `test(source, subject)` is the host's regex match. */
  function IsExclude(item: Item, file: string, test: (string, string) -> bool): (r: Result<bool>)
    ensures r.Err? <==> item.OtherItem?
    ensures r.Err? ==> r.message == NotRegExp
    ensures item.RegexItem? ==> r == Ok(test(item.source, file))
  {
    match item
    case RegexItem(source) => Ok(test(source, file))
    case OtherItem => Err(NotRegExp)
  }

  /** Specification of the `for` loop over an exclude array. */
  function ScanItems(items: seq<Item>, file: string, test: (string, string) -> bool): Result<bool>
  {
    if items == [] then Ok(false)
    else
      match IsExclude(items[0], file, test)
      case Err(e) => Err(e)
      case Ok(hit) => if hit then Ok(true) else ScanItems(items[1..], file, test)
  }

  /** The loop of index.js:77-79, returning at the first excluding element. */
  method ScanExclude(items: seq<Item>, file: string, test: (string, string) -> bool) returns (r: Result<bool>)
    ensures r == ScanItems(items, file, test)
  {
    var i := 0;
    while i < |items|
      invariant 0 <= i <= |items|
      invariant ScanItems(items, file, test) == ScanItems(items[i..], file, test)
    {
      assert items[i..][1..] == items[i + 1..];
      var hit := IsExclude(items[i], file, test);
      if hit.Err? {
        return hit;
      }
      if hit.value {
        return Ok(true);
      }
      i := i + 1;
    }
    return Ok(false);
  }

  /** Every element before `k` is a RegExp that does not match `file`. */
  ghost predicate MissesBefore(items: seq<Item>, k: int, file: string, test: (string, string) -> bool)
  {
    forall j :: 0 <= j < k && j < |items| ==> items[j].RegexItem? && !test(items[j].source, file)
  }

  /**
   * The scan excludes iff some element is a matching RegExp with only non-matching RegExps
   * before it, throws iff a non-RegExp comes before any match, and otherwise does neither.
   */
  lemma {:induction false} ScanItemsIff(items: seq<Item>, file: string, test: (string, string) -> bool)
    ensures ScanItems(items, file, test) == Ok(true) <==>
              exists k :: 0 <= k < |items| && MissesBefore(items, k, file, test)
                          && items[k].RegexItem? && test(items[k].source, file)
    ensures ScanItems(items, file, test).Err? <==>
              exists k :: 0 <= k < |items| && MissesBefore(items, k, file, test) && items[k].OtherItem?
    ensures ScanItems(items, file, test) == Ok(false) <==> MissesBefore(items, |items|, file, test)
    ensures ScanItems(items, file, test).Err? ==> ScanItems(items, file, test).message == NotRegExp
  {
    if items != [] {
      var tail := items[1..];
      ScanItemsIff(tail, file, test);
      forall k | 1 <= k <= |items|
        ensures MissesBefore(items, k, file, test) <==>
                  MissesBefore(items, 1, file, test) && MissesBefore(tail, k - 1, file, test)
      {
        assert forall j :: 1 <= j < k ==> items[j] == tail[j - 1];
      }
      if MissesBefore(items, 1, file, test) {
        assert forall k :: 1 <= k < |items| ==> items[k] == tail[k - 1];
        if exists k :: 0 <= k < |tail| && MissesBefore(tail, k, file, test)
                        && tail[k].RegexItem? && test(tail[k].source, file) {
          var k :| 0 <= k < |tail| && MissesBefore(tail, k, file, test)
                   && tail[k].RegexItem? && test(tail[k].source, file);
          assert MissesBefore(items, k + 1, file, test);
        }
        if exists k :: 0 <= k < |tail| && MissesBefore(tail, k, file, test) && tail[k].OtherItem? {
          var k :| 0 <= k < |tail| && MissesBefore(tail, k, file, test) && tail[k].OtherItem?;
          assert MissesBefore(items, k + 1, file, test);
        }
      } else {
        assert MissesBefore(items, 0, file, test);
        assert forall k :: 1 <= k <= |items| ==> !MissesBefore(items, k, file, test);
      }
    }
  }

  /** A file name is usable only when it is a non-empty string (`decl.source.input.file`). */
  predicate HasFile(file: Option<string>)
  {
    file.Some? && file.value != ""
  }

  /** The exclude branch of the walk callback, index.js:73-83, as a value. */
  function ExcludeDecision(exclude: ExcludeOption, file: Option<string>,
                           test: (string, string) -> bool): Result<bool>
  {
    if exclude.NoExclude? || !HasFile(file) then Ok(false)
    else
      match exclude
      case RegexExclude(source) => IsExclude(RegexItem(source), file.value, test)
      case ArrayExclude(items) => ScanItems(items, file.value, test)
      case OtherExclude => Err(NotRegExpOrArray)
  }

  /** The exclude branch of the walk callback. */
  method CheckExclude(exclude: ExcludeOption, file: Option<string>, test: (string, string) -> bool)
    returns (r: Result<bool>)
    ensures r == ExcludeDecision(exclude, file, test)
  {
    if exclude.NoExclude? || !HasFile(file) {
      return Ok(false);
    }
    if exclude.RegexExclude? {
      r := IsExclude(RegexItem(exclude.source), file.value, test);
    } else if exclude.ArrayExclude? {
      r := ScanExclude(exclude.items, file.value, test);
    } else {
      r := Err(NotRegExpOrArray);
    }
  }

  /**
   * No option or no file: nothing excluded and nothing thrown. A single RegExp excludes iff
   * it matches and never throws. An array is scanned in order. Any other value throws,
   * whatever the file.
   */
  lemma ExcludeDecisionCases(exclude: ExcludeOption, file: Option<string>, test: (string, string) -> bool)
    ensures exclude.NoExclude? || !HasFile(file) ==> ExcludeDecision(exclude, file, test) == Ok(false)
    ensures exclude.RegexExclude? && HasFile(file) ==>
              ExcludeDecision(exclude, file, test) == Ok(test(exclude.source, file.value))
    ensures exclude.OtherExclude? && HasFile(file) ==>
              ExcludeDecision(exclude, file, test) == Err(NotRegExpOrArray)
    ensures exclude.ArrayExclude? && HasFile(file) ==>
              ExcludeDecision(exclude, file, test) == ScanItems(exclude.items, file.value, test)
  {
  }

  /**
   * The decision throws exactly when a file is known and the option is neither a RegExp
   * nor an array, or an array reaches a non-RegExp element before any match.
   */
  lemma ExcludeThrowsIff(exclude: ExcludeOption, file: Option<string>, test: (string, string) -> bool)
    ensures ExcludeDecision(exclude, file, test).Err? <==>
              && HasFile(file)
              && (|| exclude.OtherExclude?
                  || (&& exclude.ArrayExclude?
                      && exists k :: 0 <= k < |exclude.items| && exclude.items[k].OtherItem?
                                     && MissesBefore(exclude.items, k, file.value, test)))
  {
    if exclude.ArrayExclude? && HasFile(file) {
      ScanItemsIff(exclude.items, file.value, test);
    }
  }
}
