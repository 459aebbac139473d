# postcss-pxtorem, modelled in Dafny

A model of the PostCSS plugin in `index.js`. The plugin rewrites pixel lengths (`32px`) in CSS
declarations, and optionally in `@media` parameters, to root-relative lengths (`2rem`).
These parts of it are modelled:

- the options pipeline: legacy option names are renamed in place, and the result is merged over
  the defaults;
- the replacement callback and its `toFixed` rounding;
- the property-list matcher;
- the selector blacklist;
- the `exclude` file filter, which may throw;
- the per-declaration step of the `walkDecls` callback;
- the `walkAtRules('media')` callback.

Modules, one file each:

| file | module | covers |
|---|---|---|
| `wrappers.dfy` | `Wrappers` | `Option`, and `Result` for work that can throw |
| `jsstring.dfy` | `JsString` | `String.prototype.indexOf` with its `-1` result, and what it means |
| `rounding.dfy` | `Rounding` | `toFixed` on exact reals: `Math.floor`, `Math.round`, `Math.pow(10, n)` |
| `pxreplace.dfy` | `PxReplace` | `createPxReplace` and the global `replace` over the scanned value |
| `proplist.dfy` | `PropList` | `createPropListMatcher`, as written and as intended |
| `selector.dfy` | `Selector` | `blacklistedSelector` |
| `exclude.dfy` | `Exclude` | `isExclude`, the `exclude` loop, and the type tests around it |
| `options.dfy` | `Options` | option values, `legacyOptions`, `defaults`, `convertLegacyOptions` (a class updated in place), `objectAssign` |
| `pass.dfy` | `Pass` | the resolved configuration, one `walkDecls` step (class `Rule`), one media at-rule (class `AtRule`) |

The host's own machinery becomes parameters (`Pass.Host`):

- `scan` — the pixel-unit regex cuts a string into text pieces and matches.
  Each match carries its capture and the number `parseFloat` reads from it.
- `format` — the conversion of a number to a string inside the template literal.
- `test(source, subject)` — a regular-expression match. `source` stands for the whole RegExp literal, flags included, so `/app/i` and `/app/` are different values.

The general lemmas hold for all values of these functions. The stated exceptions are:
- the scenario lemmas fix the scan of their input;
- `Pass.NoConversionNeverActs` requires a scan that loses no text (`Pass.ValidHost`);
- `Pass.CloneVisitSkips` and `Pass.RevisitAfterOverwriteSkips` require that the rewritten value is stable under a second rewrite or contains no `px`. `Pass.RevisitAfterInsertSkips` needs no such condition.

An exact `propList` entry (one without `*` or `!`) matches only that exact property: with
`propList: ['font', '!font-size']`, `font-weight` is not converted
(`PropList.ExactAndNegatedExact`).

## Model

| member | source | states |
|---|---|---|
| JsString.IndexOfFrom | index.js:86 | the result is -1 exactly when `sub` does not occur at or after `from`; otherwise it is the first occurrence from there |
| JsString.IndexOf | index.js:86 | -1 iff `sub` occurs nowhere; otherwise the first occurrence, which lies within bounds |
| JsString.ContainsIsSubstring | index.js:181 | `indexOf(m) > -1` holds iff `m` is a substring |
| JsString.IndexOfZeroIsPrefix | index.js:182 | `indexOf(m) === 0` holds iff `m` is a prefix |
| JsString.IndexOfAtEndIff | index.js:183 | the end-with test holds iff `m` is one character longer than the property, or `m` is a suffix that occurs nowhere earlier |
| Rounding.Pow10 | index.js:145 | the multiplier `10^n` is a positive integer |
| Rounding.Round | index.js:147 | `Math.round`; specified by `Rounding.RoundBounds` |
| Rounding.ToFixed | index.js:144-148 | `toFixed`; specified by `Rounding.ToFixedOnGrid`, `Rounding.ToFixedError`, `Rounding.ToFixedZeroIff`, `Rounding.ToFixedExactOnGrid`, `Rounding.ToFixedIdempotent` and `Rounding.ToFixedMonotonic` |
| Rounding.RoundBounds | index.js:147 | `Math.round(y)` lies within half a unit of `y` |
| Rounding.MultiplierIsTenSteps | index.js:145 | `10^(precision+1)` is ten times `10^precision` |
| Rounding.QuantizeIsSteps | index.js:144-148 | the result is the whole number of `10^-precision` steps, divided back |
| Rounding.ToFixedOnGrid | index.js:144-148 | `toFixed` returns a whole multiple of `10^-precision` |
| Rounding.StepsError | index.js:146-147 | floor then round is at most 0.6 of a step below, and 0.5 of a step above |
| Rounding.ToFixedError | index.js:144-148 | `toFixed(x, p)` lies in `(x - 0.6·10^-p, x + 0.5·10^-p]` |
| Rounding.StepsZeroIff | index.js:146-147 | the step count is zero iff the scaled value lies in `[-5, 5)` |
| Rounding.QuantizeZeroIff | index.js:144-148 | the quantized value is zero iff the scaled value lies in `[-5, 5)` |
| Rounding.ToFixedZeroIff | index.js:144-148 | `toFixed` returns 0 iff `x·10^(p+1)` lies in `[-5, 5)` |
| Rounding.GridStepsExact | index.js:146-147 | a value already on the grid is counted exactly |
| Rounding.ToFixedExactOnGrid | index.js:144-148 | a value already on the `10^-p` grid comes back unchanged |
| Rounding.ToFixedIdempotent | index.js:144-148 | rounding twice is rounding once |
| Rounding.StepsMonotonic | index.js:146-147 | the step count is monotone in the value |
| Rounding.ToFixedMonotonic | index.js:144-148 | `toFixed` is monotone |
| Rounding.ToFixedZero | index.js:144-148 | zero stays zero |
| Rounding.ToFixedExamples | index.js:144-148 | `1/16` gives `0.0625` and `0.5/16` gives `0.03125`, with five digits |
| PxReplace.Replace | index.js:134-142 | returns the match unchanged when there is no capture or the value is below `minPixelValue`; otherwise returns `"0"` iff the rounded quotient is zero, else the formatted quotient followed by `rem` |
| PxReplace.Rewrite | index.js:92 | the global replace over the scanned pieces; specified by `PxReplace.RewriteAppend` and `PxReplace.RewriteKeepsUnconverted` |
| PxReplace.RewriteAppend | index.js:92 | the global replace works piece by piece: rewriting a concatenation is concatenating the rewrites |
| PxReplace.RewriteKeepsUnconverted | index.js:92 | when no match is converted, the value comes back as scanned |
| PxReplace.ThresholdIsInclusive | index.js:138 | a value equal to `minPixelValue` is converted |
| PxReplace.ScenarioPadding | index.js:134-142 | `32px` at root 16 becomes `2rem` |
| PxReplace.ScenarioHairline | index.js:138 | `1px solid red` is unchanged when `minPixelValue` is 1.1 |
| PxReplace.ScenarioTiny | index.js:140 | a quotient that rounds to zero is written `0`, without a unit |
| PropList.CreatePropListMatcher | index.js:162-174 | `hasWild` iff `*` is listed; `matchAll` iff `*` is the only entry |
| PropList.Satisfies | index.js:175-192 | the matcher closure as written; specified by `PropList.SatisfiesIff` |
| PropList.HitsOtherFormsIff | index.js:180-182 | a hit on the exact, contain or start-with lists means membership, substring or prefix |
| PropList.HitsEndWithIff | index.js:183 | the end-with hit, in terms of suffixes and lengths |
| PropList.SatisfiesIff | index.js:175-192 | a property is accepted iff everything matches, or (a wildcard or an including hit) and no excluding hit |
| PropList.MatchAllAcceptsEveryProp | index.js:176 | `['*']` accepts every property |
| PropList.WildcardKeepsExclusions | index.js:179-190 | with `*` among other entries, a property is accepted iff no exclusion hits it |
| PropList.ExclusionWins | index.js:185-190 | unless the list is `['*']`, an excluding hit rejects the property |
| PropList.ExactAndNegatedExact | index.js:175-192 | `['font', '!font-size']` accepts `font` and rejects `font-size` and `font-weight` |
| PropList.EndWithOneLonger | index.js:183 | the end-with test passes for an entry one character longer than the property, which is not a suffix of it |
| PropList.EndWithMissesRepeatedSuffix | index.js:183 | the end-with test fails for `nt` on `content`, although it is a suffix |
| PropList.EndWithAcceptsShortProp | index.js:183 | `['*-size']` accepts `font` |
| PropList.SatisfiesIntended | index.js:175-192 | the matcher with a true suffix test for `*x` and `!*x`, which the declaration step uses; specified by `PropList.IntendedEndWithIsSuffix` and `PropList.IntendedAgreesWithoutEndWith` |
| PropList.IntendedEndWithIsSuffix | index.js:183 | with a true suffix test, `['*m']` accepts exactly the properties ending in `m` |
| PropList.IntendedRejectsShortProp | index.js:183 | with a true suffix test, `['*-size']` rejects `font` |
| PropList.IntendedAgreesWithoutEndWith | index.js:175-192 | without end-with entries, the corrected matcher accepts exactly what the matcher as written accepts |
| Selector.AnyEntryMatches | index.js:156-159 | true iff some entry matches: a string by substring, a RegExp by the match |
| Selector.BlacklistedSelector | index.js:154-160 | a non-string selector and an empty blacklist are never blacklisted; otherwise the selector is blacklisted iff some entry matches |
| Selector.PlainSubstringBlacklists | index.js:157 | a string entry that occurs in the selector blacklists it |
| Selector.BlacklistAppend | index.js:156 | blacklisting by two concatenated lists is blacklisting by either |
| Exclude.IsExclude | index.js:195-200 | throws `options.exclude should be RegExp.` exactly for a non-RegExp entry; for a RegExp, returns whether it matches the file |
| Exclude.ScanItems | index.js:77-79 | the ordered scan; specified by the lemma `Exclude.ScanItemsIff` and implemented by the method `Exclude.ScanExclude` |
| Exclude.ExcludeDecision | index.js:73-83 | the exclusion decision; specified by the lemmas `Exclude.ExcludeDecisionCases` and `Exclude.ExcludeThrowsIff` |
| Exclude.ScanExclude | index.js:77-79 | the loop returns what the specification of the scan says: Ok(true), Ok(false) or the thrown error |
| Exclude.ScanItemsIff | index.js:77-79 | the scan excludes iff some RegExp matches before any non-RegExp entry; it throws iff a non-RegExp entry comes first; it passes iff every entry is a RegExp that misses |
| Exclude.CheckExclude | index.js:71-83 | the branch computes the exclusion decision |
| Exclude.ExcludeDecisionCases | index.js:73-83 | no `exclude` or no file means not excluded; a RegExp is tested once; an array is scanned in order; any other type throws `options.exclude should be RegExp or Array.` |
| Exclude.ExcludeThrowsIff | index.js:73-83 | the step throws iff there is a file and either `exclude` is of the wrong type, or it is an array whose entries before the first non-RegExp are all RegExps that do not match |
| Options.EmptyList | index.js:117-118 | reading `length` of `null` throws; otherwise the test holds iff the value is an empty string or array |
| Options.OptionsObject.constructor | index.js:58 | the options object holds the given fields |
| Options.OptionsObject.ConvertLegacyOptions | index.js:113-132 | the fields become the legacy conversion of the old fields, or stay unchanged when it throws |
| Options.Merge | index.js:61 | the merge has the keys of both; an option's value wins over the default's |
| Options.ResolveOptions | index.js:58-61 | non-object options give the defaults; otherwise the legacy conversion merged over the defaults, or the thrown error |
| Options.WhiteListSpecialCase | index.js:115-125 | the empty-white-list special case; specified by `Options.EmptyWhiteListMeansAll` and `Options.LegacyConvertedThrowsIff` |
| Options.RenameAll | index.js:126-131 | the renaming loop, over a prefix of the table; specified by `Options.RenameAllKeeps`, `Options.RenameAllRemovesSources` and `Options.RenameAllLastWins` |
| Options.LegacyConverted | index.js:113-132 | the whole conversion; specified by the `Options.Legacy...` lemmas and implemented by `Options.OptionsObject.ConvertLegacyOptions` |
| Options.WellFormedPrefix | index.js:49-56 | a prefix of a well-formed renaming table is well formed |
| Options.RenameAllKeeps | index.js:126-131 | a key that no renaming touches keeps its presence and value |
| Options.RenameAllRemovesSources | index.js:126-131 | every legacy name is gone after the renaming |
| Options.RenameAllLastWins | index.js:126-131 | a renamed value lands on its canonical name unless a later legacy name overwrites it |
| Options.LegacyOptionsWellFormed | index.js:49-56 | no legacy name is also a canonical name |
| Options.LegacyConvertedRemovesLegacy | index.js:113-132 | no legacy name survives the conversion |
| Options.LegacyValueOverwrites | index.js:126-131 | a present `root_value`, `unit_precision`, `selector_black_list` or `media_query` overwrites its canonical option with the value the caller passed |
| Options.LegacyPropListPrecedence | index.js:115-131 | `propList` ends up as `propWhiteList` if present, else `prop_white_list`, else the old `propList` or the special case `['*']` |
| Options.LegacyConvertedKeepsOthers | index.js:126-131 | keys that are not option names are untouched |
| Options.EmptyWhiteListMeansAll | index.js:115-125 | an empty legacy white list and no `propList` give `propList: ['*']` |
| Options.LegacyConvertedThrowsIff | index.js:117-118 | the conversion throws iff a legacy white list is `null` and is read |
| Pass.StringList | index.js:64 | defined iff every element is a string, and then it is those strings, in order |
| Pass.BlackList | index.js:156-158 | defined iff every element is a string or a RegExp; then one entry per element, in order: a string is a substring entry and a RegExp a pattern entry with its source |
| Pass.ItemsOf | index.js:77-78 | one item per `exclude` array element, in order: a RegExp element becomes a RegExp item with its source, and any other element becomes a non-RegExp item |
| Pass.ExcludeOf | index.js:73-81 | a falsy `exclude` switches the filter off; otherwise a RegExp is tested alone, an array scans its items, and any other value throws |
| Pass.ResolveConfig | index.js:61-64 | the resolved configuration has a non-zero root value. Its replacer carries the merged `rootValue`, `unitPrecision` and `minPixelValue`, its matcher is built from the merged `propList`, and its blacklist and exclude come from the merged options. `replace` and `mediaQuery` follow truthiness. Conversely, it is defined whenever the five options have the modelled types, the root value is non-zero and the precision is a natural number |
| Pass.DefaultsResolve | index.js:39-47 | without options: root 16, five digits, minimum 0, the four font properties, no blacklist, replace in place, no media queries, no exclude |
| Pass.DeclarationExists | index.js:150-152 | `decls.some(...)` as an existential over the children; used by `Pass.ActsIff` and `Pass.RevisitAfterInsertSkips` |
| Pass.NewValue | index.js:92 | the rewritten value `PxReplace.Rewrite` of the scanned value; used by `Pass.ActsIff` |
| Pass.DeclAction | index.js:67-101 | the decision of the callback, guard by guard; specified by `Pass.ActsIff`, `Pass.ThrowsIff`, `Pass.UnchangedValueNeverActs` and the revisit lemmas |
| Pass.MediaParams | index.js:104-108 | the new media parameters; specified by `Pass.ScenarioMedia` and implemented by `Pass.AtRule.WalkMedia` |
| Pass.Apply | index.js:97-101 | overwriting changes only the value at `i`; inserting puts the clone right after `i` and keeps all other children in order; skipping and throwing change nothing |
| Pass.Rule.constructor | index.js:90 | a rule holds its selector and children |
| Pass.Rule.WalkDecl | index.js:67-102 | the children become those of the decided action, and the step throws exactly its error |
| Pass.AtRule.constructor | index.js:105 | an at-rule holds its name and parameters |
| Pass.AtRule.WalkMedia | index.js:104-109 | the parameters of a `media` rule containing `px` are rewritten when `mediaQuery` is set, and are unchanged otherwise |
| Pass.ActsIff | index.js:73-101 | the step changes the rule iff nothing excludes or throws, the value contains `px`, the corrected matcher accepts the property, the selector is not blacklisted, and no child already has the new value. It writes the rewritten value, in place iff `replace` |
| Pass.UnchangedValueNeverActs | index.js:92-95 | a value the rewrite leaves alone never changes the rule, since the declaration itself already matches |
| Pass.NoConversionNeverActs | index.js:92-95 | when the scan loses no text and no match would be converted, the step never changes the rule |
| Pass.ScenarioHairlineStep | index.js:92-95 | `border: 1px solid red` with `minPixelValue: 1.1` leaves the rule unchanged, whatever `replace` is |
| Pass.ThrowsIff | index.js:73-83 | for every configuration a `Config` holds, the step throws iff the exclude test throws |
| Pass.RevisitAfterInsertSkips | index.js:95-100 | after the clone is inserted, running the step again on the original changes nothing |
| Pass.CloneVisitSkips | index.js:95-100 | visiting the clone next changes nothing when its value is stable under the rewrite or has no `px` |
| Pass.RevisitAfterOverwriteSkips | index.js:95-98 | after an overwrite, running the step again changes nothing when the new value is stable or has no `px` |
| Pass.ScenarioFallback | index.js:97-101 | `margin: 8px` with `replace: false` keeps `8px` and inserts `margin: 0.5rem` after it |
| Pass.ScenarioMedia | index.js:104-108 | `(min-width: 768px)` becomes `(min-width: 48rem)` |

## Left out

- The tree walk itself (`walkDecls` and `walkAtRules`, index.js:67 and 105) belongs to PostCSS and is not modelled. So are the order in which it visits nodes and the way an insertion shifts its index. The step is modelled for one declaration at a given index of its rule.
- The pixel-unit regex (`lib/pixel-unit-regex`) and `parseFloat` are not part of this model. They are the `scan` parameter; its pieces carry each match's capture and number.
- `lib/filter-prop-list` is not part of this model. Its eight lists are a parameter (`PropList.PropLists`) of the matcher.
- Regular-expression semantics (`String.prototype.match`) are the `test` parameter.
- Floating point is not modelled: `toFixed` is computed on exact reals, so IEEE rounding in `number * multiplier` and in the final division is left out. Number-to-string conversion is the `format` parameter.
- Pass.ResolveConfig: it covers only numeric `rootValue`, `unitPrecision` and `minPixelValue`, a `propList` of strings, and a `selectorBlackList` of strings and RegExps. It gives `None` for options of any other type. For some of these JavaScript coerces the value. For others it throws a TypeError, and those throws are not modelled:
  - a `selectorBlackList` that is not an array throws at index.js:156. This includes a string, or an explicit `undefined` or `null`, which the merge copies over the default. It throws at the first declaration that reaches index.js:90 with a string selector.
  - a `propList` of `undefined` or `null` throws at index.js:163 when the plugin is created.

  So `Pass.ThrowsIff` ("nothing else can throw") covers only the configurations a `Config` holds. `ResolveConfig` also gives `None` in three cases JavaScript handles:
  - a zero root value, which is a division by zero in JavaScript;
  - a negative `unitPrecision`, which JavaScript uses as it is (`-1` makes the multiplier 1 and rounds to tens);
  - a fractional `unitPrecision`, which JavaScript also uses as it is.

  The model's precision is a natural number.
- Options.ResolveOptions: a `null` options object stands for `undefined` options (and numbers or booleans), which give the defaults. JavaScript `null` options are not modelled. They pass the `typeof` test at index.js:114 and throw a TypeError at index.js:117. Also not modelled:
  - string options, which the merge copies index by index;
  - values whose `length` comes from a non-array object.
- Pass.ThrowsIff: it holds only for the configurations a `Config` holds. The TypeErrors for a non-array `selectorBlackList` (index.js:156) and a missing `propList` (index.js:163) lie outside it.
- RegExp flags are not modelled separately: a RegExp is carried by one string that stands for its whole literal, flags included.
- Pass.Truthy: `NaN` is not a value of this model.
- String lengths and indices count characters, not UTF-16 code units.
- Pass.Rule.WalkDecl: declarations are values in a sequence, so aliasing of PostCSS node objects shared between rules is not modelled. The `insertAfter(i, …)` index is taken to be the declaration's own index in its parent.
- Pass.Rule.WalkDecl: the property check uses the corrected end-with test (see Findings), not the one at index.js:183 and 189. The two differ only for `*x` and `!*x` entries. For example, under `['*-size']`, `font: 12px` is skipped by the model, but index.js:88 converts it.
- Pass.DeclAction: the same corrected property check stands at index.js:88.
- ActsIff: its accepted-property conjunct is the corrected matcher `PropList.SatisfiesIntended`, not the one as written. `PropList.IntendedAgreesWithoutEndWith` proves the two agree whenever there are no `*x` or `!*x` entries. `PropList.SatisfiesIff` characterises the matcher as written.
- The `postcss.plugin` wrapper, `require` and `module.exports` are left out.

## Findings

| source | as written | input that shows it | evidently intended | confidence | as-written member | corrected member |
|---|---|---|---|---|---|---|
| index.js:183 | `prop.indexOf(m) === prop.length - m.length` | with `propList: ['*-size']`, prop `font` is accepted (both sides are -1); `nt` is not found at the end of `content` | accept exactly the properties that end with `m` | not executed | PropList.EndWithAcceptsShortProp | PropList.IntendedRejectsShortProp |

The matcher as written is `PropList.Satisfies`, and `PropList.SatisfiesIff` characterises it.
The corrected matcher `PropList.SatisfiesIntended` uses a true suffix test, and
`PropList.IntendedEndWithIsSuffix` proves that it accepts exactly the suffixes. The declaration
step (`Pass.DeclAction`, `Pass.Rule.WalkDecl`) uses the corrected matcher.
`PropList.IntendedAgreesWithoutEndWith` proves that the two agree on every property list that has
no `*x` or `!*x` entries. The same test appears in the excluding branch at index.js:189.
