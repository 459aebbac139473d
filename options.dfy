/**
 * The option handling of index.js: `convertLegacyOptions` (which rewrites the caller's
 * options object in place) and the merge over `defaults`.
 */
module Options {
  import opened Wrappers

  /** A JavaScript value, as far as the option code tells values apart. */
  datatype Value =
    | Undefined
    | Null
    | Bool(b: bool)
    | Num(n: real)
    | Str(s: string)
    | Arr(elems: seq<Value>)
    | RegExp(source: string)  // the whole literal, flags included: `/app/i` and `/app/` differ
    | OtherObject

  /** The own properties of an options object. */
  type Fields = map<string, Value>

  /** `options[key]`: a missing property reads as `undefined`. */
  function Get(fields: Fields, key: string): Value
  {
    if key in fields then fields[key] else Undefined
  }

  /** `legacyOptions`, in the order `Object.keys` lists it: legacy name, canonical name. */
  const LegacyOptions: seq<(string, string)> := [
    ("root_value", "rootValue"),
    ("unit_precision", "unitPrecision"),
    ("selector_black_list", "selectorBlackList"),
    ("prop_white_list", "propList"),
    ("media_query", "mediaQuery"),
    ("propWhiteList", "propList")
  ]

  const Defaults: Fields := map[
    "rootValue" := Num(16.0),
    "unitPrecision" := Num(5.0),
    "selectorBlackList" := Arr([]),
    "propList" := Arr([Str("font"), Str("font-size"), Str("line-height"), Str("letter-spacing")]),
    "replace" := Bool(true),
    "mediaQuery" := Bool(false),
    "minPixelValue" := Num(0.0)
  ]

  /** The `TypeError` a host throws when `.length` is read from `null`. */
  const ReadLengthOfNull: string := "Cannot read properties of null (reading 'length')"

  /** `typeof v !== 'undefined' && v.length === 0` */
  function EmptyList(v: Value): (r: Result<bool>)
    ensures r.Err? <==> v == Null
    ensures r == Ok(true) <==> v == Str("") || v == Arr([])
  {
    match v
    case Undefined => Ok(false)
    case Null => Err(ReadLengthOfNull)
    case Str(s) => Ok(s == "")
    case Arr(elems) => Ok(elems == [])
    case _ => Ok(false)
  }

  /** index.js:115-125: an empty legacy white list and no `propList` mean `['*']`. */
  function WhiteListSpecialCase(fields: Fields): Result<Fields>
  {
    match EmptyList(Get(fields, "prop_white_list"))
    case Err(e) => Err(e)
    case Ok(first) =>
      match (if first then Ok(true) else EmptyList(Get(fields, "propWhiteList")))
      case Err(e) => Err(e)
      case Ok(either) =>
        if either && Get(fields, "propList") == Undefined then
          Ok(fields["propList" := Arr([Str("*")])] - {"prop_white_list", "propWhiteList"})
        else Ok(fields)
  }

  /** One step of the `forEach`: move a legacy property to its canonical name. */
  function RenameOne(fields: Fields, pair: (string, string)): Fields
  {
    if pair.0 in fields then fields[pair.1 := fields[pair.0]] - {pair.0} else fields
  }

  /** The `forEach` over `pairs`, the last pair processed last. */
  function RenameAll(fields: Fields, pairs: seq<(string, string)>): Fields
    decreases |pairs|
  {
    if pairs == [] then fields
    else RenameOne(RenameAll(fields, pairs[..|pairs| - 1]), pairs[|pairs| - 1])
  }

  /** What `convertLegacyOptions` leaves in an options object, or the error it throws. */
  function LegacyConverted(fields: Fields): Result<Fields>
  {
    match WhiteListSpecialCase(fields)
    case Err(e) => Err(e)
    case Ok(special) => Ok(RenameAll(special, LegacyOptions))
  }

  /** The options object the plugin is given; `convertLegacyOptions` rewrites it in place. */
  class OptionsObject {
    var fields: Fields

    constructor(fields: Fields)
      ensures this.fields == fields
    {
      this.fields := fields;
    }

    method ConvertLegacyOptions() returns (r: Result<()>)
      modifies this
      ensures LegacyConverted(old(fields)).Ok? ==>
                r == Ok(()) && fields == LegacyConverted(old(fields)).value
      ensures LegacyConverted(old(fields)).Err? ==>
                r == Err(LegacyConverted(old(fields)).message) && fields == old(fields)
    {
      ghost var original := fields;
      var first := EmptyList(Get(fields, "prop_white_list"));
      if first.Err? {
        return Err(first.message);
      }
      var either := first.value;
      if !either {
        var second := EmptyList(Get(fields, "propWhiteList"));
        if second.Err? {
          return Err(second.message);
        }
        either := second.value;
      }
      if either && Get(fields, "propList") == Undefined {
        fields := fields["propList" := Arr([Str("*")])];
        fields := fields - {"prop_white_list"};
        fields := fields - {"propWhiteList"};
        assert fields == original["propList" := Arr([Str("*")])] - {"prop_white_list", "propWhiteList"};
      }
      assert WhiteListSpecialCase(original) == Ok(fields);
      ghost var special := fields;
      var i := 0;
      while i < |LegacyOptions|
        invariant 0 <= i <= |LegacyOptions|
        invariant fields == RenameAll(special, LegacyOptions[..i])
      {
        assert LegacyOptions[..i + 1][..i] == LegacyOptions[..i];
        var (key, canonical) := LegacyOptions[i];
        if key in fields {
          fields := fields[canonical := fields[key]];
          fields := fields - {key};
        }
        i := i + 1;
      }
      assert LegacyOptions[..i] == LegacyOptions;
      r := Ok(());
    }
  }

  /** `objectAssign({}, defaults, options)`: an option that is present wins over the default. */
  function Merge(defaults: Fields, options: Fields): (r: Fields)
    ensures r.Keys == defaults.Keys + options.Keys
    ensures forall k :: k in options ==> r[k] == options[k]
    ensures forall k :: k in defaults && k !in options ==> r[k] == defaults[k]
  {
    defaults + options
  }

  /**
   * index.js:59-61. `null` stands for options that are not an object (the plugin called
   * without options): nothing is converted and the defaults are used as they are.
   */
  method ResolveOptions(options: OptionsObject?) returns (r: Result<Fields>)
    modifies options
    ensures options == null ==> r == Ok(Defaults)
    ensures options != null ==>
              match LegacyConverted(old(options.fields))
              case Ok(converted) => options.fields == converted && r == Ok(Merge(Defaults, converted))
              case Err(e) => options.fields == old(options.fields) && r == Err(e)
  {
    if options == null {
      assert Merge(Defaults, map[]) == Defaults;
      return Ok(Merge(Defaults, map[]));
    }
    var converted := options.ConvertLegacyOptions();
    if converted.Err? {
      return Err(converted.message);
    }
    r := Ok(Merge(Defaults, options.fields));
  }

  // Properties of the conversion.

  ghost predicate IsSource(pairs: seq<(string, string)>, k: string)
  {
    exists i :: 0 <= i < |pairs| && pairs[i].0 == k
  }

  /** Legacy names are distinct, and no canonical name is itself a legacy name. */
  ghost predicate WellFormedPairs(pairs: seq<(string, string)>)
  {
    && (forall i, j :: 0 <= i < j < |pairs| ==> pairs[i].0 != pairs[j].0)
    && (forall i, j :: 0 <= i < |pairs| && 0 <= j < |pairs| ==> pairs[i].1 != pairs[j].0)
  }

  lemma WellFormedPrefix(pairs: seq<(string, string)>, n: nat)
    requires WellFormedPairs(pairs) && n <= |pairs|
    ensures WellFormedPairs(pairs[..n])
  {
  }

  /**
   * A name that is not a legacy name, and that no present legacy property renames to,
   * keeps its presence and value.
   */
  lemma {:induction false} RenameAllKeeps(fields: Fields, pairs: seq<(string, string)>, k: string)
    requires WellFormedPairs(pairs) && !IsSource(pairs, k)
    requires forall i :: 0 <= i < |pairs| && pairs[i].1 == k ==> pairs[i].0 !in fields
    ensures (k in RenameAll(fields, pairs) <==> k in fields)
    ensures k in fields ==> RenameAll(fields, pairs)[k] == fields[k]
    decreases |pairs|
  {
    if pairs != [] {
      var n := |pairs| - 1;
      var init := pairs[..n];
      var last := pairs[n];
      WellFormedPrefix(pairs, n);
      assert forall i :: 0 <= i < n ==> init[i] == pairs[i];
      RenameAllKeeps(fields, init, k);
      assert !IsSource(init, last.0);
      RenameAllKeeps(fields, init, last.0);
      assert last.1 == k ==> last.0 !in fields;
      assert k != last.0;
    }
  }

  /** No legacy name survives the renaming. */
  lemma {:induction false} RenameAllRemovesSources(fields: Fields, pairs: seq<(string, string)>)
    requires WellFormedPairs(pairs)
    ensures forall i :: 0 <= i < |pairs| ==> pairs[i].0 !in RenameAll(fields, pairs)
    decreases |pairs|
  {
    if pairs != [] {
      var n := |pairs| - 1;
      WellFormedPrefix(pairs, n);
      RenameAllRemovesSources(fields, pairs[..n]);
      assert forall i :: 0 <= i < n ==> pairs[..n][i] == pairs[i];
      assert forall i :: 0 <= i < |pairs| ==> pairs[n].1 != pairs[i].0;
    }
  }

  /**
   * A present legacy property lands on its canonical name unless a later present legacy
   * property has the same canonical name; the last one wins.
   */
  lemma {:induction false} RenameAllLastWins(fields: Fields, pairs: seq<(string, string)>, j: nat)
    requires WellFormedPairs(pairs) && j < |pairs| && pairs[j].0 in fields
    requires forall i :: j < i < |pairs| && pairs[i].1 == pairs[j].1 ==> pairs[i].0 !in fields
    ensures pairs[j].1 in RenameAll(fields, pairs)
    ensures RenameAll(fields, pairs)[pairs[j].1] == fields[pairs[j].0]
    decreases |pairs|
  {
    var n := |pairs| - 1;
    var init := pairs[..n];
    var last := pairs[n];
    WellFormedPrefix(pairs, n);
    assert forall i :: 0 <= i < n ==> init[i] == pairs[i];
    assert !IsSource(init, last.0);
    RenameAllKeeps(fields, init, last.0);
    if j < n {
      RenameAllLastWins(fields, init, j);
      assert pairs[j].1 != last.0;
    }
  }

  lemma LegacyOptionsWellFormed()
    ensures WellFormedPairs(LegacyOptions)
  {
    var pairs := LegacyOptions;
    var sources := [10, 14, 19, 15, 11, 13];
    var targets := [9, 13, 17, 8, 10, 8];
    assert forall i :: 0 <= i < 6 ==> |pairs[i].0| == sources[i] && |pairs[i].1| == targets[i];
    forall i, j | 0 <= i < |pairs| && 0 <= j < |pairs|
      ensures pairs[i].1 != pairs[j].0
    {
      if |pairs[i].1| == |pairs[j].0| {
        assert pairs[i].1[0] != pairs[j].0[0];
      }
    }
  }

  /** No legacy name survives `convertLegacyOptions`. */
  lemma LegacyConvertedRemovesLegacy(fields: Fields)
    requires LegacyConverted(fields).Ok?
    ensures forall i :: 0 <= i < |LegacyOptions| ==> LegacyOptions[i].0 !in LegacyConverted(fields).value
  {
    LegacyOptionsWellFormed();
    RenameAllRemovesSources(WhiteListSpecialCase(fields).value, LegacyOptions);
  }

  /**
   * `root_value`, `unit_precision`, `selector_black_list` and `media_query` each overwrite
   * their canonical name (index 0, 1, 2 and 4 of the table).
   */
  lemma LegacyValueOverwrites(fields: Fields, j: nat)
    requires LegacyConverted(fields).Ok? && j in {0, 1, 2, 4}
    requires LegacyOptions[j].0 in fields
    ensures Get(LegacyConverted(fields).value, LegacyOptions[j].1) == fields[LegacyOptions[j].0]
  {
    var key := LegacyOptions[j].0;
    assert key != "propList" && key != "prop_white_list" && key != "propWhiteList";
    assert key in WhiteListSpecialCase(fields).value && WhiteListSpecialCase(fields).value[key] == fields[key];
    LegacyOptionsWellFormed();
    RenameAllLastWins(WhiteListSpecialCase(fields).value, LegacyOptions, j);
  }

  /**
   * `propList` ends up as `propWhiteList` if present, else as `prop_white_list` if present,
   * else as it was: `propWhiteList` is processed after `prop_white_list`, so it wins.
   */
  lemma LegacyPropListPrecedence(fields: Fields)
    requires LegacyConverted(fields).Ok?
    ensures var r := LegacyConverted(fields).value;
            var s := WhiteListSpecialCase(fields).value;
            && ("propWhiteList" in s ==> Get(r, "propList") == s["propWhiteList"])
            && ("propWhiteList" !in s && "prop_white_list" in s ==>
                  Get(r, "propList") == s["prop_white_list"])
            && ("propWhiteList" !in s && "prop_white_list" !in s ==>
                  Get(r, "propList") == Get(s, "propList"))
  {
    var s := WhiteListSpecialCase(fields).value;
    LegacyOptionsWellFormed();
    if "propWhiteList" in s {
      RenameAllLastWins(s, LegacyOptions, 5);
    } else if "prop_white_list" in s {
      RenameAllLastWins(s, LegacyOptions, 3);
    } else {
      assert !IsSource(LegacyOptions, "propList");
      RenameAllKeeps(s, LegacyOptions, "propList");
    }
  }

  /** The option names the conversion can write or delete. */
  predicate IsOptionName(k: string)
  {
    k in {"root_value", "unit_precision", "selector_black_list", "prop_white_list", "media_query",
          "propWhiteList", "rootValue", "unitPrecision", "selectorBlackList", "propList", "mediaQuery"}
  }

  /** Properties other than the legacy and canonical names are left as they were. */
  lemma LegacyConvertedKeepsOthers(fields: Fields, k: string)
    requires LegacyConverted(fields).Ok? && !IsOptionName(k)
    ensures k in LegacyConverted(fields).value <==> k in fields
    ensures k in fields ==> LegacyConverted(fields).value[k] == fields[k]
  {
    var s := WhiteListSpecialCase(fields).value;
    LegacyOptionsWellFormed();
    assert !IsSource(LegacyOptions, k);
    RenameAllKeeps(s, LegacyOptions, k);
  }

  /**
   * An empty legacy white list, with `propList` undefined, converts every property: the
   * result's `propList` is `['*']`.
   */
  lemma EmptyWhiteListMeansAll(fields: Fields)
    requires Get(fields, "prop_white_list") in {Str(""), Arr([])}
             || (Get(fields, "prop_white_list") !in {Null, Str(""), Arr([])}
                 && Get(fields, "propWhiteList") in {Str(""), Arr([])})
    requires Get(fields, "propList") == Undefined
    ensures LegacyConverted(fields).Ok?
    ensures Get(LegacyConverted(fields).value, "propList") == Arr([Str("*")])
  {
    LegacyPropListPrecedence(fields);
  }

  /**
   * The conversion throws iff it reads `.length` of `null`: `prop_white_list` is `null`, or
   * it is not an empty list and `propWhiteList` is `null`.
   */
  lemma LegacyConvertedThrowsIff(fields: Fields)
    ensures LegacyConverted(fields).Err? <==>
              || Get(fields, "prop_white_list") == Null
              || (Get(fields, "prop_white_list") !in {Str(""), Arr([])} && Get(fields, "propWhiteList") == Null)
  {
  }
}
