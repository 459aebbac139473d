/**
 * The plugin body of index.js: the resolved configuration (index.js:61-64), one step of the
 * `walkDecls` callback (index.js:67-102) and the `walkAtRules('media')` callback
 * (index.js:104-109). The tree walk itself belongs to the host; a rule is modelled as its
 * selector and its sequence of declarations.
 */
module Pass {
  import opened Wrappers
  import opened JsString
  import opened PxReplace
  import opened PropList
  import opened Selector
  import opened Exclude
  import Options

  /**
   * What the plugin takes from its host: the global pixel-unit scan of a string, the
   * number-to-string conversion, and regex matching `test(source, subject)`.
   */
  datatype Host = Host(scan: string -> seq<Piece>, format: real -> string,
                       test: (string, string) -> bool)

  /** The scan cuts a string into pieces without losing or adding text. */
  ghost predicate ValidHost(host: Host)
  {
    forall s :: Join(host.scan(s)) == s
  }

  /** The merged options, as the callbacks use them. */
  datatype Config = Config(
    replacer: Replacer,
    matcher: Matcher,
    selectorBlackList: seq<BlackEntry>,
    replace: bool,
    mediaQuery: bool,
    exclude: ExcludeOption)

  predicate ValidConfig(cfg: Config)
  {
    cfg.replacer.rootValue != 0.0
  }

  // From merged options to a configuration.

  /** JavaScript truthiness (NaN is not a value of this model). */
  predicate Truthy(v: Options.Value)
  {
    match v
    case Undefined => false
    case Null => false
    case Bool(b) => b
    case Num(n) => n != 0.0
    case Str(s) => s != ""
    case _ => true
  }

  function StringList(elems: seq<Options.Value>): (r: Option<seq<string>>)
    ensures r.Some? <==> forall k :: 0 <= k < |elems| ==> elems[k].Str?
    ensures r.Some? ==>
              (|r.value| == |elems| && forall k :: 0 <= k < |elems| ==> elems[k] == Options.Str(r.value[k]))
  {
    if elems == [] then Some([])
    else if !elems[0].Str? then None
    else
      var rest := StringList(elems[1..]);
      if rest.None? then None else Some([elems[0].s] + rest.value)
  }

  /** A string entry matches by substring; a RegExp by the host's match. */
  function BlackList(elems: seq<Options.Value>): (r: Option<seq<BlackEntry>>)
    ensures r.Some? <==> forall k :: 0 <= k < |elems| ==> elems[k].Str? || elems[k].RegExp?
    ensures r.Some? ==>
              && |r.value| == |elems|
              && forall k :: 0 <= k < |elems| ==>
                   r.value[k] == (if elems[k].Str? then Plain(elems[k].s) else Pattern(elems[k].source))
  {
    if elems == [] then Some([])
    else if !(elems[0].Str? || elems[0].RegExp?) then None
    else
      var rest := BlackList(elems[1..]);
      if rest.None? then None
      else Some([if elems[0].Str? then Plain(elems[0].s) else Pattern(elems[0].source)] + rest.value)
  }

  /** The entries of an `exclude` array, by whether each is a RegExp. */
  function ItemsOf(elems: seq<Options.Value>): (r: seq<Item>)
    ensures |r| == |elems|
    ensures forall k :: 0 <= k < |elems| ==> (r[k].OtherItem? <==> !elems[k].RegExp?)
    ensures forall k :: 0 <= k < |elems| && elems[k].RegExp? ==> r[k] == RegexItem(elems[k].source)
  {
    if elems == [] then []
    else [if elems[0].RegExp? then RegexItem(elems[0].source) else OtherItem] + ItemsOf(elems[1..])
  }

  /** The type tests of index.js:73-76 and 196, applied to the `exclude` option. */
  function ExcludeOf(v: Options.Value): (r: ExcludeOption)
    ensures r.NoExclude? <==> !Truthy(v)
    ensures Truthy(v) && v.RegExp? ==> r == RegexExclude(v.source)
    ensures Truthy(v) && v.Arr? ==> r == ArrayExclude(ItemsOf(v.elems))
    ensures Truthy(v) && !v.RegExp? && !v.Arr? ==> r == OtherExclude
  {
    if !Truthy(v) then NoExclude
    else match v
      case RegExp(source) => RegexExclude(source)
      case Arr(elems) => ArrayExclude(ItemsOf(elems))
      case _ => OtherExclude
  }

  /**
   * The configuration the callbacks close over, or `None` for option values this model does not
   * follow: values of other types (which JavaScript coerces or throws on), a zero `rootValue`, or
   * a precision that is not a natural number.
   */
  function ResolveConfig(opts: Options.Fields, lists: PropLists): (r: Option<Config>)
    ensures r.Some? ==> ValidConfig(r.value)
    ensures r.Some? ==> r.value.replace == Truthy(Options.Get(opts, "replace"))
                        && r.value.mediaQuery == Truthy(Options.Get(opts, "mediaQuery"))
    ensures r.Some? ==>
              && Options.Get(opts, "rootValue").Num? && Options.Get(opts, "unitPrecision").Num?
              && Options.Get(opts, "minPixelValue").Num?
              && Options.Get(opts, "propList").Arr? && Options.Get(opts, "selectorBlackList").Arr?
              && Options.Get(opts, "unitPrecision").n >= 0.0
              && r.value.replacer == Replacer(Options.Get(opts, "rootValue").n,
                                              Options.Get(opts, "unitPrecision").n.Floor,
                                              Options.Get(opts, "minPixelValue").n)
              && Options.Get(opts, "unitPrecision").n == r.value.replacer.unitPrecision as real
              && StringList(Options.Get(opts, "propList").elems).Some?
              && r.value.matcher == CreatePropListMatcher(StringList(Options.Get(opts, "propList").elems).value, lists)
              && BlackList(Options.Get(opts, "selectorBlackList").elems) == Some(r.value.selectorBlackList)
              && r.value.exclude == ExcludeOf(Options.Get(opts, "exclude"))
    ensures var rootValue := Options.Get(opts, "rootValue");
            var precision := Options.Get(opts, "unitPrecision");
            var props := Options.Get(opts, "propList");
            var blacklist := Options.Get(opts, "selectorBlackList");
            && rootValue.Num? && precision.Num? && Options.Get(opts, "minPixelValue").Num?
            && props.Arr? && blacklist.Arr?
            && rootValue.n != 0.0 && precision.n >= 0.0 && precision.n.Floor as real == precision.n
            && StringList(props.elems).Some? && BlackList(blacklist.elems).Some?
            ==> r.Some?
  {
    var rootValue := Options.Get(opts, "rootValue");
    var precision := Options.Get(opts, "unitPrecision");
    var minPixelValue := Options.Get(opts, "minPixelValue");
    var props := Options.Get(opts, "propList");
    var blacklist := Options.Get(opts, "selectorBlackList");
    if !(rootValue.Num? && precision.Num? && minPixelValue.Num? && props.Arr? && blacklist.Arr?) then None
    else if rootValue.n == 0.0 || precision.n < 0.0 || precision.n.Floor as real != precision.n then None
    else
      var propList := StringList(props.elems);
      var entries := BlackList(blacklist.elems);
      if propList.None? || entries.None? then None
      else
        Some(Config(Replacer(rootValue.n, precision.n.Floor, minPixelValue.n),
                    CreatePropListMatcher(propList.value, lists), entries.value,
                    Truthy(Options.Get(opts, "replace")), Truthy(Options.Get(opts, "mediaQuery")),
                    ExcludeOf(Options.Get(opts, "exclude"))))
  }

  /** Without options, the plugin converts font properties at 16px per rem, five digits, in place. */
  lemma DefaultsResolve(lists: PropLists)
    ensures ResolveConfig(Options.Defaults, lists) == Some(Config(
              Replacer(16.0, 5, 0.0),
              CreatePropListMatcher(["font", "font-size", "line-height", "letter-spacing"], lists),
              [], true, false, NoExclude))
  {
    var props := [Options.Str("font"), Options.Str("font-size"), Options.Str("line-height"),
                  Options.Str("letter-spacing")];
    var d := Options.Defaults;
    assert Options.Get(d, "rootValue") == Options.Num(16.0);
    assert Options.Get(d, "unitPrecision") == Options.Num(5.0);
    assert Options.Get(d, "minPixelValue") == Options.Num(0.0);
    assert Options.Get(d, "propList") == Options.Arr(props);
    assert Options.Get(d, "selectorBlackList") == Options.Arr([]);
    assert Options.Get(d, "replace") == Options.Bool(true);
    assert Options.Get(d, "mediaQuery") == Options.Bool(false);
    assert "exclude" !in d;
    var names := ["font", "font-size", "line-height", "letter-spacing"];
    assert props[4..] == [] && names[4..] == [];
    assert StringList(props[4..]) == Some(names[4..]);
    assert StringList(props[3..]) == Some(names[3..]) by {
      assert props[3..][1..] == props[4..] && [names[3]] + names[4..] == names[3..];
    }
    assert StringList(props[2..]) == Some(names[2..]) by {
      assert props[2..][1..] == props[3..] && [names[2]] + names[3..] == names[2..];
    }
    assert StringList(props[1..]) == Some(names[1..]) by {
      assert props[1..][1..] == props[2..] && [names[1]] + names[2..] == names[1..];
    }
    assert StringList(props) == Some(names) by {
      assert [names[0]] + names[1..] == names;
    }
    assert (5.0).Floor == 5;
  }

  // One declaration.

  /** A declaration node: its property, value and source file (`decl.source.input.file`). */
  datatype Decl = Decl(prop: string, value: string, file: Option<string>)

  /** `declarationExists(decl.parent, prop, value)` */
  predicate DeclarationExists(nodes: seq<Decl>, prop: string, value: string)
  {
    exists j :: 0 <= j < |nodes| && nodes[j].prop == prop && nodes[j].value == value
  }

  /** `value.replace(pxRegex, pxReplace)` */
  function NewValue(cfg: Config, host: Host, value: string): string
    requires ValidConfig(cfg)
  {
    Rewrite(cfg.replacer, host.scan(value), host.format)
  }

  /** What the callback does to the declaration at index `i` of its rule. */
  datatype Action = Throw(message: string) | Skip | Overwrite(value: string) | InsertClone(value: string)

  /** The decision of the `walkDecls` callback, guard by guard in source order. */
  function DeclAction(cfg: Config, host: Host, selector: Option<string>, nodes: seq<Decl>, i: nat): Action
    requires ValidConfig(cfg) && i < |nodes|
  {
    var decl := nodes[i];
    match ExcludeDecision(cfg.exclude, decl.file, host.test)
    case Err(e) => Throw(e)
    case Ok(excluded) =>
      if excluded then Skip
      else if !Contains(decl.value, "px") then Skip
      else if !SatisfiesIntended(cfg.matcher, decl.prop) then Skip
      else if BlacklistedSelector(cfg.selectorBlackList, selector, host.test) then Skip
      else
        var value := NewValue(cfg, host, decl.value);
        if DeclarationExists(nodes, decl.prop, value) then Skip
        else if cfg.replace then Overwrite(value)
        else InsertClone(value)
  }

  /** The children after the action: `decl.value = value`, or `insertAfter(i, decl.clone({ value }))`. */
  function Apply(nodes: seq<Decl>, i: nat, action: Action): (r: seq<Decl>)
    requires i < |nodes|
    ensures action.Overwrite? ==>
              && |r| == |nodes| && r[i] == nodes[i].(value := action.value)
              && forall j :: 0 <= j < |nodes| && j != i ==> r[j] == nodes[j]
    ensures action.InsertClone? ==>
              && |r| == |nodes| + 1 && r[..i + 1] == nodes[..i + 1]
              && r[i + 1] == nodes[i].(value := action.value) && r[i + 2..] == nodes[i + 1..]
    ensures action.Skip? || action.Throw? ==> r == nodes
  {
    match action
    case Overwrite(value) => nodes[i := nodes[i].(value := value)]
    case InsertClone(value) => nodes[..i + 1] + [nodes[i].(value := value)] + nodes[i + 1..]
    case _ => nodes
  }

  /** A rule node: its selector (`None` when it is not a string) and its declarations. */
  class Rule {
    var selector: Option<string>
    var nodes: seq<Decl>

    constructor(selector: Option<string>, nodes: seq<Decl>)
      ensures this.selector == selector && this.nodes == nodes
    {
      this.selector := selector;
      this.nodes := nodes;
    }

    /** The `walkDecls` callback for the declaration at index `i`. */
    method WalkDecl(i: nat, cfg: Config, host: Host) returns (r: Result<()>)
      requires ValidConfig(cfg) && i < |nodes|
      modifies this
      ensures selector == old(selector)
      ensures var action := DeclAction(cfg, host, old(selector), old(nodes), i);
              && nodes == Apply(old(nodes), i, action)
              && (action.Throw? ==> r == Err(action.message))
              && (!action.Throw? ==> r == Ok(()))
    {
      var decl := nodes[i];
      var excluded := CheckExclude(cfg.exclude, decl.file, host.test);
      if excluded.Err? {
        return Err(excluded.message);
      }
      if excluded.value {
        return Ok(());
      }
      if IndexOf(decl.value, "px") == -1 {
        return Ok(());
      }
      if !SatisfiesIntended(cfg.matcher, decl.prop) {
        return Ok(());
      }
      if BlacklistedSelector(cfg.selectorBlackList, selector, host.test) {
        return Ok(());
      }
      var value := Rewrite(cfg.replacer, host.scan(decl.value), host.format);
      if DeclarationExists(nodes, decl.prop, value) {
        return Ok(());
      }
      if cfg.replace {
        nodes := nodes[i := decl.(value := value)];
      } else {
        nodes := nodes[..i + 1] + [decl.(value := value)] + nodes[i + 1..];
      }
      return Ok(());
    }
  }

  /** The `walkAtRules('media')` callback's effect on the parameters of one at-rule. */
  function MediaParams(cfg: Config, host: Host, name: string, params: string): string
    requires ValidConfig(cfg)
  {
    if cfg.mediaQuery && name == "media" && Contains(params, "px")
    then Rewrite(cfg.replacer, host.scan(params), host.format)
    else params
  }

  class AtRule {
    var name: string
    var params: string

    constructor(name: string, params: string)
      ensures this.name == name && this.params == params
    {
      this.name := name;
      this.params := params;
    }

    /** `rule.params = rule.params.replace(pxRegex, pxReplace)`, when `mediaQuery` is set. */
    method WalkMedia(cfg: Config, host: Host)
      requires ValidConfig(cfg)
      modifies this
      ensures name == old(name)
      ensures params == MediaParams(cfg, host, old(name), old(params))
    {
      if !cfg.mediaQuery || name != "media" {
        return;
      }
      if IndexOf(params, "px") == -1 {
        return;
      }
      params := Rewrite(cfg.replacer, host.scan(params), host.format);
    }
  }

  // Properties of the declaration step.

  /**
   * The step changes the rule iff no guard stops it: the file is not excluded and nothing is
   * thrown, the value contains `px`, the property is accepted, the selector is not
   * blacklisted, and no child already holds the same property with the new value. It then
   * overwrites iff `replace` is set, and writes the rewritten value.
   */
  lemma ActsIff(cfg: Config, host: Host, selector: Option<string>, nodes: seq<Decl>, i: nat)
    requires ValidConfig(cfg) && i < |nodes|
    ensures var a := DeclAction(cfg, host, selector, nodes, i);
            var d := nodes[i];
            && ((a.Overwrite? || a.InsertClone?) <==>
                  && ExcludeDecision(cfg.exclude, d.file, host.test) == Ok(false)
                  && IsSubstring("px", d.value)
                  && SatisfiesIntended(cfg.matcher, d.prop)
                  && !BlacklistedSelector(cfg.selectorBlackList, selector, host.test)
                  && !DeclarationExists(nodes, d.prop, NewValue(cfg, host, d.value)))
            && (a.Overwrite? || a.InsertClone? ==>
                  a.value == NewValue(cfg, host, d.value) && (a.Overwrite? <==> cfg.replace))
  {
    ContainsIsSubstring(nodes[i].value, "px");
  }

  /** A value the rewrite leaves as it is never causes a change: the declaration itself matches. */
  lemma UnchangedValueNeverActs(cfg: Config, host: Host, selector: Option<string>, nodes: seq<Decl>, i: nat)
    requires ValidConfig(cfg) && i < |nodes|
    requires NewValue(cfg, host, nodes[i].value) == nodes[i].value
    ensures DeclAction(cfg, host, selector, nodes, i) in {Skip, Throw(NotRegExp), Throw(NotRegExpOrArray)}
  {
    var d := nodes[i];
    assert nodes[i].prop == d.prop && nodes[i].value == d.value;
    match ExcludeDecision(cfg.exclude, d.file, host.test)
    case Err(e) =>
      if cfg.exclude.ArrayExclude? {
        ScanItemsIff(cfg.exclude.items, d.file.value, host.test);
      }
    case Ok(_) =>
  }

  /**
   * The step throws iff the exclude decision does: for the configurations a `Config` holds,
   * nothing else in it can throw.
   */
  lemma ThrowsIff(cfg: Config, host: Host, selector: Option<string>, nodes: seq<Decl>, i: nat)
    requires ValidConfig(cfg) && i < |nodes|
    ensures var a := DeclAction(cfg, host, selector, nodes, i);
            a.Throw? <==>
              && HasFile(nodes[i].file)
              && (|| cfg.exclude.OtherExclude?
                  || (&& cfg.exclude.ArrayExclude?
                      && exists k :: 0 <= k < |cfg.exclude.items| && cfg.exclude.items[k].OtherItem?
                                     && MissesBefore(cfg.exclude.items, k, nodes[i].file.value, host.test)))
  {
    ExcludeThrowsIff(cfg.exclude, nodes[i].file, host.test);
  }

  /** After inserting a clone, visiting the original again changes nothing: the clone is found. */
  lemma RevisitAfterInsertSkips(cfg: Config, host: Host, selector: Option<string>, nodes: seq<Decl>, i: nat)
    requires ValidConfig(cfg) && i < |nodes|
    requires DeclAction(cfg, host, selector, nodes, i).InsertClone?
    ensures var after := Apply(nodes, i, DeclAction(cfg, host, selector, nodes, i));
            DeclAction(cfg, host, selector, after, i) == Skip
  {
    var a := DeclAction(cfg, host, selector, nodes, i);
    var after := Apply(nodes, i, a);
    assert after[i] == nodes[i];
    assert after[i + 1].prop == nodes[i].prop && after[i + 1].value == a.value;
  }

  /**
   * The walk visits the inserted clone next; if rewriting its value again gives the same
   * value, or it no longer contains `px`, that visit changes nothing.
   */
  lemma CloneVisitSkips(cfg: Config, host: Host, selector: Option<string>, nodes: seq<Decl>, i: nat)
    requires ValidConfig(cfg) && i < |nodes|
    requires DeclAction(cfg, host, selector, nodes, i).InsertClone?
    requires var v := DeclAction(cfg, host, selector, nodes, i).value;
             NewValue(cfg, host, v) == v || !Contains(v, "px")
    ensures var after := Apply(nodes, i, DeclAction(cfg, host, selector, nodes, i));
            DeclAction(cfg, host, selector, after, i + 1) == Skip
  {
    var a := DeclAction(cfg, host, selector, nodes, i);
    var after := Apply(nodes, i, a);
    assert after[i + 1] == nodes[i].(value := a.value);
    assert after[i + 1].file == nodes[i].file;
  }

  /**
   * Running the step again on a declaration it overwrote changes nothing, provided rewriting
   * the new value again gives the same value or it no longer contains `px`.
   */
  lemma RevisitAfterOverwriteSkips(cfg: Config, host: Host, selector: Option<string>, nodes: seq<Decl>, i: nat)
    requires ValidConfig(cfg) && i < |nodes|
    requires DeclAction(cfg, host, selector, nodes, i).Overwrite?
    requires var v := DeclAction(cfg, host, selector, nodes, i).value;
             NewValue(cfg, host, v) == v || !Contains(v, "px")
    ensures var after := Apply(nodes, i, DeclAction(cfg, host, selector, nodes, i));
            DeclAction(cfg, host, selector, after, i) == Skip
  {
    var a := DeclAction(cfg, host, selector, nodes, i);
    var after := Apply(nodes, i, a);
    assert after[i] == nodes[i].(value := a.value);
  }

  /**
   * When the scan finds no match the replacer converts (none has a capture, or all are below
   * `minPixelValue`), the rewrite gives back the value itself, so the step never changes the rule.
   */
  lemma NoConversionNeverActs(cfg: Config, host: Host, selector: Option<string>, nodes: seq<Decl>, i: nat)
    requires ValidConfig(cfg) && ValidHost(host) && i < |nodes|
    requires forall k :: 0 <= k < |host.scan(nodes[i].value)| ==> Kept(cfg.replacer, host.scan(nodes[i].value)[k])
    ensures DeclAction(cfg, host, selector, nodes, i).Skip? || DeclAction(cfg, host, selector, nodes, i).Throw?
  {
    var v := nodes[i].value;
    RewriteKeepsUnconverted(cfg.replacer, host.scan(v), host.format);
    assert Join(host.scan(v)) == v;
    UnchangedValueNeverActs(cfg, host, selector, nodes, i);
  }

  /** `border: 1px solid red` with `minPixelValue: 1.1` leaves the rule as it is. */
  lemma ScenarioHairlineStep(host: Host, matcher: Matcher, replace: bool)
    requires host.scan("1px solid red") == [Match("1px", Some("1"), 1.0), Text(" solid red")]
    ensures var cfg := Config(Replacer(16.0, 5, 1.1), matcher, [], replace, false, NoExclude);
            var nodes := [Decl("border", "1px solid red", None)];
            Apply(nodes, 0, DeclAction(cfg, host, Some(".a"), nodes, 0)) == nodes
  {
    var cfg := Config(Replacer(16.0, 5, 1.1), matcher, [], replace, false, NoExclude);
    var nodes := [Decl("border", "1px solid red", None)];
    var pieces := [Match("1px", Some("1"), 1.0), Text(" solid red")];
    RewriteKeepsUnconverted(cfg.replacer, pieces, host.format);
    assert Join(pieces) == "1px" + (" solid red" + Join([]));
    UnchangedValueNeverActs(cfg, host, Some(".a"), nodes, 0);
  }

  /** `margin: 8px` with `replace: false` keeps the original and inserts `margin: 0.5rem` after it. */
  lemma ScenarioFallback(host: Host, lists: PropLists)
    requires host.scan("8px") == [Match("8px", Some("8"), 8.0)]
    ensures var cfg := Config(Replacer(16.0, 5, 0.0), CreatePropListMatcher(["*"], lists), [], false, false, NoExclude);
            var nodes := [Decl("margin", "8px", None)];
            Apply(nodes, 0, DeclAction(cfg, host, Some(".a"), nodes, 0))
              == [Decl("margin", "8px", None), Decl("margin", host.format(0.5) + "rem", None)]
  {
    var cfg := Config(Replacer(16.0, 5, 0.0), CreatePropListMatcher(["*"], lists), [], false, false, NoExclude);
    var nodes := [Decl("margin", "8px", None)];
    assert OccursAt("8px", "px", 1);
    var v := host.format(0.5) + "rem";
    assert Rounding.Pow10(5) == 100000;
    Rounding.ToFixedExactOnGrid(0.5, 5, 50000);
    Rounding.ToFixedZeroIff(0.5, 5);
    assert Rounding.Pow10(6) == 1000000;
    assert Replace(cfg.replacer, "8px", Some("8"), 8.0, host.format) == v;
    assert Rewrite(cfg.replacer, [Match("8px", Some("8"), 8.0)], host.format) == v + "";
    assert NewValue(cfg, host, "8px") == v;
    assert v[|v| - 1] == 'm';
    assert !DeclarationExists(nodes, "margin", v);
  }

  /** `@media (min-width: 768px)` with `mediaQuery` set becomes `(min-width: 48rem)`. */
  lemma ScenarioMedia(host: Host, matcher: Matcher)
    requires host.scan("(min-width: 768px)")
             == [Text("(min-width: "), Match("768px", Some("768"), 768.0), Text(")")]
    ensures MediaParams(Config(Replacer(16.0, 5, 0.0), matcher, [], true, true, NoExclude), host,
                        "media", "(min-width: 768px)")
            == "(min-width: " + host.format(48.0) + "rem)"
  {
    var rp := Replacer(16.0, 5, 0.0);
    var f := host.format;
    assert OccursAt("(min-width: 768px)", "px", 15);
    assert IndexOf("(min-width: 768px)", "px") != -1;
    assert Rounding.Pow10(5) == 100000;
    Rounding.ToFixedExactOnGrid(48.0, 5, 4800000);
    Rounding.ToFixedZeroIff(48.0, 5);
    assert Rounding.Pow10(6) == 1000000;
    assert Replace(rp, "768px", Some("768"), 768.0, f) == f(48.0) + "rem";
    var pieces := [Text("(min-width: "), Match("768px", Some("768"), 768.0), Text(")")];
    assert Rewrite(rp, pieces[2..], f) == ")";
    assert Rewrite(rp, pieces[1..], f) == f(48.0) + "rem" + ")";
    assert Rewrite(rp, pieces, f) == "(min-width: " + (f(48.0) + "rem" + ")");
  }
}
