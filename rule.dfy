/** The rule engine (rule.go): parsing a rule's depth filter, matching a file
    against a rule, and the text rewriting ParseRule does before YAML decoding. */
module Rules {
  import opened Wrappers
  import opened GoStrings
  import opened Files

  /** The zero byte: a depth comparison of 0 asks for an exact match. */
  const Exact: char := '\0'

  /** A scoring rule (rule.go:13-21). `depth` is the filter as written in the
      configuration; `depthValue` and `depthComparison` are what Init parses out
      of it. `binary` is Go's `*bool`, None standing for nil. */
  datatype Rule = Rule(
    suffix: string,
    prefix: string,
    depth: string,
    depthValue: int,
    depthComparison: char,
    binary: Option<bool>,
    score: int)

  /** Why a depth filter is rejected: a bare comparison sign, or a text Atoi refuses. */
  datatype DepthError = MissingValue | NotAnInteger(text: string)

  /** The comparison a depth filter asks for: its leading sign, or the previous one. */
  function ComparisonOf(spec: string, previous: char): char
    requires spec != []
  {
    if spec[0] == '<' || spec[0] == '>' then spec[0] else previous
  }

  /** The numeric part of a depth filter: everything after a leading sign. */
  function NumberText(spec: string): string
    requires spec != []
  {
    if spec[0] == '<' || spec[0] == '>' then spec[1..] else spec
  }

  /** Rule.init: parses the depth filter into `depthValue` and `depthComparison`. */
  function Init(r: Rule): (res: Result<Rule, DepthError>)
    ensures r.depth == "" ==> res == Ok(r)
    ensures r.depth == "<" || r.depth == ">" ==> res == Err(MissingValue)
    ensures r.depth != "" ==> (res.Ok? <==> Atoi(NumberText(r.depth)).Some?)
    ensures res.Ok? ==> res.value == r.(depthValue := res.value.depthValue,
                                        depthComparison := res.value.depthComparison)
    ensures r.depth != "" && res.Ok? ==>
              Atoi(NumberText(r.depth)) == Some(res.value.depthValue)
              && res.value.depthComparison == ComparisonOf(r.depth, r.depthComparison)
  {
    if r.depth == "" then Ok(r)
    else
      var sign := r.depth[0];
      if sign == '<' || sign == '>' then
        if |r.depth| == 1 then Err(MissingValue)
        else
          match Atoi(r.depth[1..])
          case None => Err(NotAnInteger(r.depth[1..]))
          case Some(v) => Ok(r.(depthValue := v, depthComparison := sign))
      else
        match Atoi(r.depth)
        case None => Err(NotAnInteger(r.depth))
        case Some(v) => Ok(r.(depthValue := v))
  }

  /** The depth filter; a `depthValue` of 0 switches it off. */
  predicate DepthHolds(r: Rule, depth: int) {
    r.depthValue == 0 ||
    (if r.depthComparison == '<' then depth < r.depthValue
     else if r.depthComparison == '>' then depth > r.depthValue
     else depth == r.depthValue)
  }

  /** The binary filter; an unset filter accepts every file. */
  predicate BinaryHolds(r: Rule, binary: bool) {
    r.binary.None? || r.binary.value == binary
  }

  /** A file with this path, binary flag and depth satisfies every filter of the rule. */
  predicate Matches(r: Rule, path: string, binary: bool, depth: int) {
    HasPrefix(path, r.prefix) && HasSuffix(path, r.suffix) && DepthHolds(r, depth) && BinaryHolds(r, binary)
  }

  /** Rule.Pass: checks the filters in order, asking the file for its depth only
      when prefix and suffix passed and the depth filter is on. */
  method Pass(r: Rule, file: File) returns (ok: bool)
    modifies file`depth
    ensures ok == Matches(r, file.path, file.binary, old(file.CurrentDepth()))
    ensures file.CurrentDepth() == old(file.CurrentDepth())
    ensures file.depth == if HasPrefix(file.path, r.prefix) && HasSuffix(file.path, r.suffix) && r.depthValue != 0
                          then old(file.CurrentDepth()) else old(file.depth)
  {
    if r.prefix != "" {
      if !HasPrefix(file.path, r.prefix) {
        return false;
      }
    }
    if r.suffix != "" {
      if !HasSuffix(file.path, r.suffix) {
        return false;
      }
    }
    if r.depthValue != 0 {
      var depth := file.Depth();
      if r.depthComparison == '<' {
        if depth >= r.depthValue {
          return false;
        }
      } else if r.depthComparison == '>' {
        if depth <= r.depthValue {
          return false;
        }
      } else {
        if depth != r.depthValue {
          return false;
        }
      }
    }
    if r.binary.Some? {
      if r.binary.value != file.binary {
        return false;
      }
    }
    return true;
  }

  /** A rule with no filter set passes every file. */
  lemma UnfilteredRuleMatchesAll(r: Rule, path: string, binary: bool, depth: int)
    requires r.prefix == "" && r.suffix == "" && r.depthValue == 0 && r.binary.None?
    ensures Matches(r, path, binary, depth)
  {
  }

  /** A depth filter written `<k` or `>k` (k as Itoa prints it, k != 0) is accepted
      and passes exactly the depths below, respectively above, k. */
  lemma {:induction false} ComparedDepthMeaning(r: Rule, sign: char, k: int, d: int)
    requires sign == '<' || sign == '>'
    requires MinInt <= k <= MaxInt && k != 0
    ensures Init(r.(depth := [sign] + Itoa(k))).Ok?
    ensures DepthHolds(Init(r.(depth := [sign] + Itoa(k))).value, d)
            <==> if sign == '<' then d < k else d > k
  {
    var spec := [sign] + Itoa(k);
    assert NumberText(spec) == Itoa(k);
    AtoiItoa(k);
  }

  /** A depth filter written `k` (no sign) on a rule still set to exact matching
      passes exactly depth k, unless k is 0, which switches the filter off. */
  lemma {:induction false} ExactDepthMeaning(r: Rule, k: int, d: int)
    requires r.depthComparison == Exact
    requires MinInt <= k <= MaxInt
    ensures Init(r.(depth := Itoa(k))).Ok?
    ensures DepthHolds(Init(r.(depth := Itoa(k))).value, d) <==> k == 0 || d == k
  {
    var spec := Itoa(k);
    AtoiItoa(k);
    if k < 0 {
      assert spec[0] == '-';
    } else {
      assert IsDigit(spec[0]);
    }
    assert NumberText(spec) == spec;
  }

  /** The score a file collects from `rules`: the sum of the scores of the rules it matches. */
  function Gain(rules: seq<Rule>, path: string, binary: bool, depth: int): int {
    if rules == [] then 0
    else
      Gain(rules[..|rules| - 1], path, binary, depth)
      + (if Matches(rules[|rules| - 1], path, binary, depth) then rules[|rules| - 1].score else 0)
  }

  lemma {:induction false} GainConcat(a: seq<Rule>, b: seq<Rule>, path: string, binary: bool, depth: int)
    ensures Gain(a + b, path, binary, depth) == Gain(a, path, binary, depth) + Gain(b, path, binary, depth)
    decreases |b|
  {
    if b != [] {
      GainConcat(a, b[..|b| - 1], path, binary, depth);
      assert (a + b)[..|a + b| - 1] == a + b[..|b| - 1];
      assert (a + b)[|a + b| - 1] == b[|b| - 1];
    } else {
      assert a + b == a;
    }
  }

  /** The order in which the rules are listed does not change the score. */
  lemma {:induction false} GainOrderIndependent(rules: seq<Rule>, reordered: seq<Rule>, path: string, binary: bool, depth: int)
    requires multiset(rules) == multiset(reordered)
    ensures Gain(rules, path, binary, depth) == Gain(reordered, path, binary, depth)
    decreases |rules|
  {
    if rules == [] {
      assert |reordered| == |multiset(reordered)| == 0;
    } else {
      var last := rules[|rules| - 1];
      assert last in multiset(reordered);
      var j :| 0 <= j < |reordered| && reordered[j] == last;
      var rest := reordered[..j] + reordered[j + 1..];
      assert reordered == reordered[..j] + [last] + reordered[j + 1..];
      assert rules == rules[..|rules| - 1] + [last];
      assert multiset(reordered) == multiset(reordered[..j]) + multiset{last} + multiset(reordered[j + 1..]);
      assert multiset(rules) == multiset(rules[..|rules| - 1]) + multiset{last};
      assert multiset(rest) == multiset(reordered[..j]) + multiset(reordered[j + 1..]);
      assert multiset(rest) == multiset(reordered) - multiset{last};
      assert multiset(rules[..|rules| - 1]) == multiset(rules) - multiset{last};
      GainOrderIndependent(rules[..|rules| - 1], rest, path, binary, depth);
      GainConcat(reordered[..j] + [last], reordered[j + 1..], path, binary, depth);
      GainConcat(reordered[..j], [last], path, binary, depth);
      GainConcat(reordered[..j], reordered[j + 1..], path, binary, depth);
      assert Gain([last], path, binary, depth) == Gain(rules, path, binary, depth) - Gain(rules[..|rules| - 1], path, binary, depth);
    }
  }

  // ParseRule (rule.go:27-42) up to the YAML decoding: the `key:value,key:value`
  // text becomes one `key: value` line per part.

  /** Why ParseRule rejects its input: a part without a colon. */
  datatype ParseError = MissingColon(part: string)

  /** One part split at its first colon (strings.SplitN with n = 2), both sides
      trimmed and rejoined with ": ". */
  function FormatPart(part: string): (line: string)
    requires ':' in part
  {
    var i := IndexOf(part, ':');
    TrimSpace(part[..i]) + ": " + TrimSpace(part[i + 1..])
  }

  /** A `key: value` line whose key holds no colon and whose sides are
      trimmed is rewritten to itself. */
  lemma {:induction false} FormatPartOfLine(key: string, value: string)
    requires ':' !in key
    requires key == [] || (!IsSpace(key[0]) && !IsSpace(key[|key| - 1]))
    requires value == [] || (!IsSpace(value[0]) && !IsSpace(value[|value| - 1]))
    ensures ':' in key + ": " + value
    ensures FormatPart(key + ": " + value) == key + ": " + value
  {
    FormatPartSplit(key, value);
    TrimmedTrimsToItself(key);
    SpacedTrimsToTrimmed(value);
  }

  /** A `key: value` line whose key holds no colon is rewritten as the
      trimmed key, a colon and a space, and the trimmed value. */
  lemma FormatPartSplit(key: string, value: string)
    requires ':' !in key
    ensures ':' in key + ": " + value
    ensures FormatPart(key + ": " + value) == TrimSpace(key) + ": " + TrimSpace(" " + value)
  {
    var line := key + ": " + value;
    assert line == key + [':'] + (" " + value);
    assert line[..|key|] == key && line[|key| + 1..] == " " + value;
    IndexOfUnique(line, ':', |key|);
  }

  /** Rewriting an already rewritten part changes nothing. */
  lemma {:induction false} FormatPartIdempotent(part: string)
    requires ':' in part
    ensures ':' in FormatPart(part)
    ensures FormatPart(FormatPart(part)) == FormatPart(part)
  {
    var i := IndexOf(part, ':');
    TrimSpaceAvoids(part[..i], ':');
    FormatPartOfLine(TrimSpace(part[..i]), TrimSpace(part[i + 1..]));
  }

  /** Every part has a colon. */
  predicate AllHaveColon(parts: seq<string>) {
    forall k :: 0 <= k < |parts| ==> ':' in parts[k]
  }

  /** `parts[k]` is the first part without a colon. */
  predicate FirstWithoutColon(parts: seq<string>, k: int) {
    0 <= k < |parts| && ':' !in parts[k] && AllHaveColon(parts[..k])
  }

  /** All parts rewritten. */
  function FormatAll(parts: seq<string>): (lines: seq<string>)
    requires AllHaveColon(parts)
    ensures |lines| == |parts|
    ensures forall k :: 0 <= k < |parts| ==> lines[k] == FormatPart(parts[k])
  {
    seq(|parts|, k requires 0 <= k < |parts| => FormatPart(parts[k]))
  }

  /** Rewritten parts keep their colon, and rewriting them again gives the
      same lines. */
  lemma FormatAllIdempotent(parts: seq<string>)
    requires AllHaveColon(parts)
    ensures AllHaveColon(FormatAll(parts))
    ensures FormatAll(FormatAll(parts)) == FormatAll(parts)
  {
    var lines := FormatAll(parts);
    forall k | 0 <= k < |parts|
      ensures ':' in lines[k] && FormatPart(lines[k]) == lines[k]
    {
      FormatPartIdempotent(parts[k]);
    }
  }

  /** ParseRule's text stage: splits at commas, rejects the first part without a
      colon, and otherwise joins the rewritten parts with newlines. */
  method ParseRuleText(raw: string) returns (r: Result<string, ParseError>)
    ensures r.Ok? <==> AllHaveColon(Split(raw, ','))
    ensures r.Ok? ==> r.value == Join(FormatAll(Split(raw, ',')), '\n')
    ensures r.Err? ==> exists k :: FirstWithoutColon(Split(raw, ','), k) && r.error.part == Split(raw, ',')[k]
  {
    var parts := Split(raw, ',');
    var lines: seq<string> := [];
    var i := 0;
    while i < |parts|
      invariant 0 <= i <= |parts|
      invariant AllHaveColon(parts[..i])
      invariant lines == FormatAll(parts[..i])
    {
      var colon := IndexOf(parts[i], ':');
      if colon == -1 {
        assert FirstWithoutColon(parts, i);
        return Err(MissingColon(parts[i]));
      }
      FormatAllNext(parts, i);
      lines := lines + [FormatPart(parts[i])];
      i := i + 1;
    }
    assert parts[..i] == parts;
    r := Ok(Join(lines, '\n'));
  }

  /** The loop's step: one more part with a colon, one more rewritten line. */
  lemma FormatAllNext(parts: seq<string>, i: nat)
    requires i < |parts| && AllHaveColon(parts[..i]) && ':' in parts[i]
    ensures AllHaveColon(parts[..i + 1])
    ensures FormatAll(parts[..i + 1]) == FormatAll(parts[..i]) + [FormatPart(parts[i])]
  {
    assert parts[..i + 1] == parts[..i] + [parts[i]];
  }

  /** When the rule text holds no newline, splitting ParseRule's output at
      newlines gives back exactly one rewritten line per comma-separated part. */
  lemma {:induction false} ParsedTextLines(raw: string)
    requires '\n' !in raw
    requires AllHaveColon(Split(raw, ','))
    ensures Split(Join(FormatAll(Split(raw, ',')), '\n'), '\n') == FormatAll(Split(raw, ','))
  {
    var parts := Split(raw, ',');
    var lines := FormatAll(parts);
    SplitPartsAvoid(raw, ',', '\n');
    forall k | 0 <= k < |lines|
      ensures '\n' !in lines[k]
    {
      FormatPartAvoids(parts[k], '\n');
    }
    SplitJoin(lines, '\n');
  }

  /** A character that is neither in the part nor in ": " is not in its rewrite. */
  lemma {:induction false} FormatPartAvoids(part: string, c: char)
    requires ':' in part && c !in part && c != ':' && c != ' '
    ensures c !in FormatPart(part)
  {
    var i := IndexOf(part, ':');
    TrimSpaceAvoids(part[..i], c);
    TrimSpaceAvoids(part[i + 1..], c);
  }

  lemma {:induction false} TrimSpaceAvoids(s: string, c: char)
    requires c !in s
    ensures c !in TrimSpace(s)
  {
    var l := LeadingSpaces(s);
    var t := TrimSpace(s);
    assert forall m :: 0 <= m < |t| ==> t[m] == s[l + m];
  }
}
