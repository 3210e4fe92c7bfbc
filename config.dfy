/** Validation of a decoded configuration (config.go). The YAML decoding itself
    is not modelled: a `Config` value stands for what `ko.Load` produced. */
module Configs {
  import opened Wrappers
  import opened GoStrings
  import opened Rules

  /** A presort key (config.go:19-24). The flags are unexported in Go, so decoding
      leaves them false and only LoadConfig sets them. */
  datatype PreSort = PreSort(field: string, depth: bool, path: bool, reverse: bool)

  /** The decoded configuration (config.go:9-17). */
  datatype Config = Config(
    ignoreDirs: seq<string>,
    useGitignore: bool,
    hideNegative: bool,
    rules: seq<Rule>,
    reverse: bool,
    presort: seq<PreSort>)

  /** Why loading fails; numbers are 1-based, as in the messages. */
  datatype ConfigError = InvalidRule(number: int, cause: DepthError) | InvalidPreSort(number: int)

  /** The flag LoadConfig sets for a presort field, or None for an unknown field. */
  function Flag(p: PreSort): (r: Option<PreSort>)
    ensures r.Some? <==> p.field == "depth" || p.field == "path"
    ensures r.Some? ==> r.value.field == p.field && r.value.reverse == p.reverse
    ensures r.Some? ==> (r.value.depth || r.value.path)
    ensures r.Some? && p.field == "depth" ==> r.value.depth && r.value.path == p.path
    ensures r.Some? && p.field == "path" ==> r.value.path && r.value.depth == p.depth
  {
    if p.field == "depth" then Some(p.(depth := true))
    else if p.field == "path" then Some(p.(path := true))
    else None
  }

  predicate RulesValid(rules: seq<Rule>) {
    forall k :: 0 <= k < |rules| ==> Init(rules[k]).Ok?
  }

  predicate PreSortsValid(ps: seq<PreSort>) {
    forall k :: 0 <= k < |ps| ==> Flag(ps[k]).Some?
  }

  /** A list of rules is valid when its head and its tail are. */
  lemma RulesValidCons(rules: seq<Rule>)
    requires rules != []
    ensures RulesValid(rules) <==> Init(rules[0]).Ok? && RulesValid(rules[1..])
  {
    assert forall k :: 0 < k < |rules| ==> rules[k] == rules[1..][k - 1];
  }

  /** A valid head before a valid prefix of the tail is a valid prefix. */
  lemma RulesValidPrefix(rules: seq<Rule>, i: nat)
    requires i < |rules| && Init(rules[0]).Ok? && RulesValid(rules[1..][..i])
    ensures RulesValid(rules[..i + 1])
  {
    assert rules[1..][..i] == rules[1..i + 1];
  }

  /** The first rule whose init fails, with the reason. */
  function FirstBadRule(rules: seq<Rule>): (r: Option<(int, DepthError)>)
    ensures r.None? <==> RulesValid(rules)
    ensures r.Some? ==> 0 <= r.value.0 < |rules| && Init(rules[r.value.0]) == Err(r.value.1)
                        && RulesValid(rules[..r.value.0])
  {
    if rules == [] then None
    else
      var head := Init(rules[0]);
      if head.Err? then Some((0, head.error))
      else
        var rest := FirstBadRule(rules[1..]);
        RulesValidCons(rules);
        if rest.None? then None
        else
          RulesValidPrefix(rules, rest.value.0);
          Some((rest.value.0 + 1, rest.value.1))
  }

  /** The first presort with an unknown field. */
  function FirstBadPreSort(ps: seq<PreSort>): (r: Option<nat>)
    ensures r.None? <==> PreSortsValid(ps)
    ensures r.Some? ==> r.value < |ps| && Flag(ps[r.value]).None? && PreSortsValid(ps[..r.value])
  {
    if ps == [] then None
    else if Flag(ps[0]).None? then Some(0)
    else
      match FirstBadPreSort(ps[1..])
      case None => None
      case Some(i) =>
        assert ps[1..][..i] == ps[1..i + 1];
        Some(i + 1)
  }

  /** Every presort with its flag set. */
  function FlagAll(ps: seq<PreSort>): (r: seq<PreSort>)
    requires PreSortsValid(ps)
    ensures |r| == |ps|
    ensures forall k :: 0 <= k < |ps| ==> Some(r[k]) == Flag(ps[k])
  {
    seq(|ps|, k requires 0 <= k < |ps| => Flag(ps[k]).value)
  }

  /** Every rule as its init leaves it. */
  function InitAll(rules: seq<Rule>): (r: seq<Rule>)
    requires RulesValid(rules)
    ensures |r| == |rules|
    ensures forall k :: 0 <= k < |rules| ==> Ok(r[k]) == Init(rules[k])
  {
    seq(|rules|, k requires 0 <= k < |rules| => Init(rules[k]).value)
  }

  /** What LoadConfig returns, as written: the rules are checked, but init runs on
      the loop's copy, so the rules come back exactly as decoded; the presorts are
      flagged and written back. */
  function Loaded(d: Config): (r: Result<Config, ConfigError>)
    ensures r.Ok? <==> RulesValid(d.rules) && PreSortsValid(d.presort)
    ensures r.Ok? ==> r.value == d.(presort := FlagAll(d.presort))
    ensures r.Err? && r.error.InvalidRule? ==>
              1 <= r.error.number <= |d.rules| && Init(d.rules[r.error.number - 1]) == Err(r.error.cause)
              && RulesValid(d.rules[..r.error.number - 1])
    ensures r.Err? && r.error.InvalidPreSort? ==>
              RulesValid(d.rules) && 1 <= r.error.number <= |d.presort|
              && Flag(d.presort[r.error.number - 1]).None? && PreSortsValid(d.presort[..r.error.number - 1])
  {
    match FirstBadRule(d.rules)
    case Some((i, e)) => Err(InvalidRule(i + 1, e))
    case None =>
      match FirstBadPreSort(d.presort)
      case Some(i) => Err(InvalidPreSort(i + 1))
      case None => Ok(d.(presort := FlagAll(d.presort)))
  }

  /** What LoadConfig evidently means to return: the same checks, but with every
      rule written back as its init left it. */
  function LoadedFixed(d: Config): (r: Result<Config, ConfigError>)
    ensures r.Ok? <==> Loaded(d).Ok?
    ensures r.Err? ==> r == Loaded(d)
    ensures r.Ok? ==> r.value == d.(rules := InitAll(d.rules), presort := FlagAll(d.presort))
  {
    match Loaded(d)
    case Err(e) => Err(e)
    case Ok(c) => Ok(c.(rules := InitAll(d.rules)))
  }

  /** LoadConfig (config.go:26-61) from the decoded configuration on. */
  method LoadConfig(decoded: Config) returns (r: Result<Config, ConfigError>)
    ensures r == Loaded(decoded)
  {
    var config := decoded;
    var i := 0;
    while i < |config.rules|
      invariant 0 <= i <= |config.rules|
      invariant config == decoded
      invariant RulesValid(config.rules[..i])
    {
      var rule := config.rules[i];
      var initialised := Init(rule);
      if initialised.Err? {
        assert FirstBadRule(decoded.rules) == Some((i, initialised.error)) by {
          FirstBadRuleIs(decoded.rules, i);
        }
        return Err(InvalidRule(i + 1, initialised.error));
      }
      assert config.rules[..i + 1] == config.rules[..i] + [rule];
      i := i + 1;
    }
    assert config.rules[..i] == config.rules;
    var presorts := config.presort;
    i := 0;
    while i < |presorts|
      invariant 0 <= i <= |presorts| == |decoded.presort|
      invariant PreSortsValid(decoded.presort[..i])
      invariant forall k :: 0 <= k < i ==> Flag(decoded.presort[k]) == Some(presorts[k])
      invariant presorts[i..] == decoded.presort[i..]
    {
      var presort := presorts[i];
      assert presort == decoded.presort[i];
      if presort.field == "depth" {
        presort := presort.(depth := true);
      } else if presort.field == "path" {
        presort := presort.(path := true);
      } else {
        assert FirstBadPreSort(decoded.presort) == Some(i) by {
          FirstBadPreSortIs(decoded.presort, i);
        }
        return Err(InvalidPreSort(i + 1));
      }
      assert decoded.presort[..i + 1] == decoded.presort[..i] + [decoded.presort[i]];
      presorts := presorts[i := presort];
      i := i + 1;
    }
    assert decoded.presort[..i] == decoded.presort;
    assert presorts == FlagAll(decoded.presort);
    config := config.(presort := presorts);
    r := Ok(config);
  }

  /** The first failing rule is the one the loop stops at. */
  lemma {:induction false} FirstBadRuleIs(rules: seq<Rule>, i: nat)
    requires i < |rules| && Init(rules[i]).Err? && RulesValid(rules[..i])
    ensures FirstBadRule(rules) == Some((i, Init(rules[i]).error))
  {
    if i > 0 {
      assert rules[..i][0] == rules[0];
      assert rules[1..][..i - 1] == rules[..i][1..];
      FirstBadRuleIs(rules[1..], i - 1);
    }
  }

  /** The first unknown presort field is the one the loop stops at. */
  lemma {:induction false} FirstBadPreSortIs(ps: seq<PreSort>, i: nat)
    requires i < |ps| && Flag(ps[i]).None? && PreSortsValid(ps[..i])
    ensures FirstBadPreSort(ps) == Some(i)
  {
    if i > 0 {
      assert ps[..i][0] == ps[0];
      assert ps[1..][..i - 1] == ps[..i][1..];
      FirstBadPreSortIs(ps[1..], i - 1);
    }
  }

  // The rule loop of LoadConfig calls init on the range variable, a copy of the
  // rule, so the parsed depth filter never reaches the returned configuration.

  /** As written: a decoded rule has no parsed depth (the fields are unexported),
      so every rule LoadConfig returns lets every depth through, whatever its
      `depth` text says. */
  lemma {:induction false} LoadedDepthFiltersInert(d: Config, n: nat, depth: int)
    requires Loaded(d).Ok?
    requires n < |d.rules| && d.rules[n].depthValue == 0
    ensures Loaded(d).value.rules[n].depth == d.rules[n].depth
    ensures DepthHolds(Loaded(d).value.rules[n], depth)
  {
  }

  /** A configuration that shows it: the rule `depth: "2"` loads, yet the loaded
      rule passes a file at depth 3; the rule the corrected loader returns does not. */
  lemma DepthTwoExample()
    ensures var d := Config([], false, false, [Rule("", "", "2", 0, Exact, None, 5)], false, []);
            Loaded(d).Ok? && Matches(Loaded(d).value.rules[0], "a/b/c", false, 3)
            && LoadedFixed(d).Ok? && !Matches(LoadedFixed(d).value.rules[0], "a/b/c", false, 3)
            && Matches(LoadedFixed(d).value.rules[0], "a/b", false, 2)
  {
    var d := Config([], false, false, [Rule("", "", "2", 0, Exact, None, 5)], false, []);
    ExactDepthMeaning(d.rules[0], 2, 3);
    ExactDepthMeaning(d.rules[0], 2, 2);
    assert Itoa(2) == "2" by { assert Utoa(2) == [DigitChar(2)]; }
    assert d.rules[0].(depth := "2") == d.rules[0];
  }

  /** Corrected: a rule written `depth: <k` or `depth: >k` comes out of the
      corrected loader passing exactly the files shallower, respectively deeper, than k. */
  lemma {:induction false} LoadedFixedComparedDepth(d: Config, n: nat, sign: char, k: int, depth: int)
    requires LoadedFixed(d).Ok?
    requires n < |d.rules| && d.rules[n].depth == [sign] + Itoa(k)
    requires sign == '<' || sign == '>'
    requires MinInt <= k <= MaxInt && k != 0
    ensures DepthHolds(LoadedFixed(d).value.rules[n], depth) <==> if sign == '<' then depth < k else depth > k
  {
    ComparedDepthMeaning(d.rules[n], sign, k, depth);
    assert d.rules[n].(depth := [sign] + Itoa(k)) == d.rules[n];
  }
}
