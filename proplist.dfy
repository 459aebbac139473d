/**
 * `createPropListMatcher` of index.js: which declaration properties are converted.
 * The eight lists are what `lib/filter-prop-list` splits `propList` into (exact names,
 * `*x*`, `x*`, `*x`, and the four `!`-negated forms); that parser is not part of this model,
 * so the lists are inputs.
 */
module PropList {
  import opened JsString

  datatype PropLists = PropLists(
    exact: seq<string>, contain: seq<string>, startWith: seq<string>, endWith: seq<string>,
    notExact: seq<string>, notContain: seq<string>, notStartWith: seq<string>,
    notEndWith: seq<string>)

  /** The state the matcher closure captures. */
  datatype Matcher = Matcher(hasWild: bool, matchAll: bool, lists: PropLists)

  /** `propList.indexOf('*') > -1` is membership; `matchAll` also needs a one-entry list. */
  function CreatePropListMatcher(propList: seq<string>, lists: PropLists): (r: Matcher)
    ensures r.hasWild <==> "*" in propList
    ensures r.matchAll <==> propList == ["*"]
    ensures r.lists == lists
  {
    var hasWild := "*" in propList;
    var r := Matcher(hasWild, hasWild && |propList| == 1, lists);
    assert r.matchAll ==> propList == [propList[0]];
    r
  }

  /** `prop.indexOf(m) === prop.length - m.length`, the code's "ends with" test. */
  predicate EndWithTest(prop: string, m: string)
  {
    IndexOf(prop, m) == |prop| - |m|
  }

  /** The exact, contain and start-with forms of one polarity. */
  predicate HitsOtherForms(exact: seq<string>, contain: seq<string>, startWith: seq<string>, prop: string)
  {
    || prop in exact
    || (exists m :: m in contain && IndexOf(prop, m) > -1)
    || (exists m :: m in startWith && IndexOf(prop, m) == 0)
  }

  predicate HitsEndWith(endWith: seq<string>, prop: string)
  {
    exists m :: m in endWith && EndWithTest(prop, m)
  }

  predicate Included(lists: PropLists, prop: string)
  {
    HitsOtherForms(lists.exact, lists.contain, lists.startWith, prop) || HitsEndWith(lists.endWith, prop)
  }

  predicate Excluded(lists: PropLists, prop: string)
  {
    || HitsOtherForms(lists.notExact, lists.notContain, lists.notStartWith, prop)
    || HitsEndWith(lists.notEndWith, prop)
  }

  /** The matcher closure `satisfyPropList(prop)`, as written. */
  predicate Satisfies(mt: Matcher, prop: string)
  {
    if mt.matchAll then true
    else (mt.hasWild || Included(mt.lists, prop)) && !Excluded(mt.lists, prop)
  }

  /** Reading of the search-based tests by their plain meaning. */
  predicate HitsOtherFormsMeaning(exact: seq<string>, contain: seq<string>, startWith: seq<string>, prop: string)
  {
    || prop in exact
    || (exists m :: m in contain && IsSubstring(m, prop))
    || (exists m :: m in startWith && IsPrefix(m, prop))
  }

  lemma HitsOtherFormsIff(exact: seq<string>, contain: seq<string>, startWith: seq<string>, prop: string)
    ensures HitsOtherForms(exact, contain, startWith, prop)
            <==> HitsOtherFormsMeaning(exact, contain, startWith, prop)
  {
    forall m | m in contain
      ensures IndexOf(prop, m) > -1 <==> IsSubstring(m, prop)
    {
      ContainsIsSubstring(prop, m);
    }
    forall m | m in startWith
      ensures IndexOf(prop, m) == 0 <==> IsPrefix(m, prop)
    {
      IndexOfZeroIsPrefix(prop, m);
    }
  }

  lemma HitsEndWithIff(endWith: seq<string>, prop: string)
    ensures HitsEndWith(endWith, prop) <==> exists m :: m in endWith && AtEndMeaning(prop, m)
  {
    forall m | m in endWith
      ensures EndWithTest(prop, m) <==> AtEndMeaning(prop, m)
    {
      IndexOfAtEndIff(prop, m);
    }
  }

  /**
   * A property is accepted iff the list is exactly `['*']`, or (the list holds `'*'` or the
   * property hits an inclusion form) and it hits no exclusion form: exclusion beats inclusion.
   */
  lemma SatisfiesIff(propList: seq<string>, lists: PropLists, prop: string)
    ensures Satisfies(CreatePropListMatcher(propList, lists), prop) <==>
              || propList == ["*"]
              || ( && ("*" in propList
                       || HitsOtherFormsMeaning(lists.exact, lists.contain, lists.startWith, prop)
                       || exists m :: m in lists.endWith && AtEndMeaning(prop, m))
                   && !HitsOtherFormsMeaning(lists.notExact, lists.notContain, lists.notStartWith, prop)
                   && !exists m :: m in lists.notEndWith && AtEndMeaning(prop, m))
  {
    HitsOtherFormsIff(lists.exact, lists.contain, lists.startWith, prop);
    HitsOtherFormsIff(lists.notExact, lists.notContain, lists.notStartWith, prop);
    HitsEndWithIff(lists.endWith, prop);
    HitsEndWithIff(lists.notEndWith, prop);
  }

  /** `propList: ['*']` converts every property, whatever the lists say. */
  lemma MatchAllAcceptsEveryProp(lists: PropLists, prop: string)
    ensures Satisfies(CreatePropListMatcher(["*"], lists), prop)
  {
  }

  /** Next to other entries, `'*'` makes inclusion automatic but exclusions still apply. */
  lemma WildcardKeepsExclusions(propList: seq<string>, lists: PropLists, prop: string)
    requires "*" in propList && |propList| > 1
    ensures Satisfies(CreatePropListMatcher(propList, lists), prop) <==> !Excluded(lists, prop)
  {
  }

  /** Exclusion beats inclusion whenever the list is not exactly `['*']`. */
  lemma ExclusionWins(propList: seq<string>, lists: PropLists, prop: string)
    requires propList != ["*"] && Excluded(lists, prop)
    ensures !Satisfies(CreatePropListMatcher(propList, lists), prop)
  {
  }

  /** `['font', '!font-size']`: `font` only, so `font-size` and `font-weight` are both refused. */
  lemma ExactAndNegatedExact()
    ensures var mt := CreatePropListMatcher(["font", "!font-size"],
                                            PropLists(["font"], [], [], [], ["font-size"], [], [], []));
            && Satisfies(mt, "font")
            && !Satisfies(mt, "font-size")
            && !Satisfies(mt, "font-weight")
  {
    var lists := PropLists(["font"], [], [], [], ["font-size"], [], [], []);
    var mt := CreatePropListMatcher(["font", "!font-size"], lists);
    assert "font-weight" != "font";
    assert "font" != "font-size";
  }

  // Ends-with as written, and as evidently intended.

  /** `indexOf` returns -1 for a needle one character longer, matching `length - m.length`. */
  lemma {:induction false} EndWithOneLonger(prop: string, m: string)
    requires |m| == |prop| + 1
    ensures EndWithTest(prop, m) && !IsSuffix(m, prop)
  {
    assert forall j :: !OccursAt(prop, m, j);
  }

  /** A true suffix that also occurs earlier is missed. */
  lemma EndWithMissesRepeatedSuffix()
    ensures IsSuffix("nt", "content") && !EndWithTest("content", "nt")
  {
    assert OccursAt("content", "nt", 2);
  }

  /** As written, `['*-size']` converts the four-letter property `font`. */
  lemma EndWithAcceptsShortProp()
    ensures Satisfies(CreatePropListMatcher(["*-size"], PropLists([], [], [], ["-size"], [], [], [], [])), "font")
  {
    EndWithOneLonger("font", "-size");
    var lists := PropLists([], [], [], ["-size"], [], [], [], []);
    assert "-size" in lists.endWith;
  }

  predicate HitsSuffix(endWith: seq<string>, prop: string)
  {
    exists m :: m in endWith && IsSuffix(m, prop)
  }

  /** The matcher with a true suffix test for the `*x` and `!*x` forms. */
  predicate SatisfiesIntended(mt: Matcher, prop: string)
  {
    if mt.matchAll then true
    else
      && (|| mt.hasWild
          || HitsOtherForms(mt.lists.exact, mt.lists.contain, mt.lists.startWith, prop)
          || HitsSuffix(mt.lists.endWith, prop))
      && !HitsOtherForms(mt.lists.notExact, mt.lists.notContain, mt.lists.notStartWith, prop)
      && !HitsSuffix(mt.lists.notEndWith, prop)
  }

  /** With the intended test, a `*x` entry includes exactly the properties ending in `x`. */
  lemma IntendedEndWithIsSuffix(m: string, prop: string)
    ensures SatisfiesIntended(CreatePropListMatcher(["*" + m], PropLists([], [], [], [m], [], [], [], [])), prop)
            <==> IsSuffix(m, prop)
  {
    var lists := PropLists([], [], [], [m], [], [], [], []);
    assert m in lists.endWith;
    if m != "" {
      assert |"*" + m| != |"*"|;
    }
  }

  /** With the intended test, `['*-size']` no longer converts `font`. */
  lemma IntendedRejectsShortProp()
    ensures !SatisfiesIntended(CreatePropListMatcher(["*-size"], PropLists([], [], [], ["-size"], [], [], [], [])), "font")
  {
  }

  /** The two matchers differ only on the end-with forms: without them they agree. */
  lemma IntendedAgreesWithoutEndWith(mt: Matcher, prop: string)
    requires mt.lists.endWith == [] && mt.lists.notEndWith == []
    ensures SatisfiesIntended(mt, prop) <==> Satisfies(mt, prop)
  {
    assert !HitsSuffix(mt.lists.endWith, prop) && !HitsSuffix(mt.lists.notEndWith, prop);
  }
}
