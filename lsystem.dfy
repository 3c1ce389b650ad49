/** LSystem.py: `set_grammar` reads a grammar's parameters, parses its rule string
    `"A->x;B->y"` into a rule map and rewrites the initial string `depth` times, each
    round replacing every character that has a rule by its production in parallel. */
module LSystem {
  import opened Wrappers

  // ----- Python's str.split -----

  /** `sep` occurs in `s` at position `i`. */
  predicate OccursAt(s: string, sep: string, i: int)
  {
    0 <= i && i + |sep| <= |s| && s[i..i + |sep|] == sep
  }

  /** The first occurrence of `sep` in `s` at or after `from`, or -1. */
  function Find(s: string, sep: string, from: nat): (r: int)
    requires |sep| > 0
    ensures r == -1 || (from <= r && OccursAt(s, sep, r))
    ensures forall i :: from <= i && (r == -1 || i < r) ==> !OccursAt(s, sep, i)
    decreases |s| - from
  {
    if from + |sep| > |s| then -1
    else if s[from..from + |sep|] == sep then from
    else Find(s, sep, from + 1)
  }

  /** `s.split(sep)`: the pieces between the occurrences of `sep`, found left to right. */
  function Split(s: string, sep: string): (parts: seq<string>)
    requires |sep| > 0
    ensures |parts| >= 1
    decreases |s|
  {
    var i := Find(s, sep, 0);
    if i == -1 then [s] else [s[..i]] + Split(s[i + |sep|..], sep)
  }

  /** `sep.join(parts)`. */
  function Join(parts: seq<string>, sep: string): string
    requires |parts| >= 1
  {
    if |parts| == 1 then parts[0] else parts[0] + sep + Join(parts[1..], sep)
  }

  /** Joining the pieces back with the separator gives the string that was split. */
  lemma {:induction false} SplitJoin(s: string, sep: string)
    requires |sep| > 0
    ensures Join(Split(s, sep), sep) == s
    decreases |s|
  {
    var i := Find(s, sep, 0);
    if i != -1 {
      var rest := s[i + |sep|..];
      SplitJoin(rest, sep);
      SplitAtFirst(s, sep, i);
      JoinCons(s[..i], Split(rest, sep), sep);
      AroundOccurrence(s, sep, i);
    }
  }

  /** Splitting at the first occurrence `i`: the piece before it, then the rest split. */
  lemma SplitAtFirst(s: string, sep: string, i: int)
    requires |sep| > 0 && i == Find(s, sep, 0) && i != -1
    ensures Split(s, sep) == [s[..i]] + Split(s[i + |sep|..], sep)
  {
  }

  lemma JoinCons(a: string, parts: seq<string>, sep: string)
    requires |parts| >= 1
    ensures Join([a] + parts, sep) == a + sep + Join(parts, sep)
  {
    assert ([a] + parts)[1..] == parts;
  }

  /** A string is the text before an occurrence, the separator, and the text after. */
  lemma AroundOccurrence(s: string, sep: string, i: int)
    requires OccursAt(s, sep, i)
    ensures s == s[..i] + sep + s[i + |sep|..]
  {
    assert s == s[..i] + s[i..i + |sep|] + s[i + |sep|..];
  }

  /** No piece contains the separator. */
  lemma {:induction false} SplitPiecesAreFree(s: string, sep: string)
    requires |sep| > 0
    ensures forall k, j :: 0 <= k < |Split(s, sep)| ==> !OccursAt(Split(s, sep)[k], sep, j)
    decreases |s|
  {
    var i := Find(s, sep, 0);
    if i != -1 {
      var rest := s[i + |sep|..];
      SplitPiecesAreFree(rest, sep);
      var parts := Split(s, sep);
      forall k, j | 0 <= k < |parts| ensures !OccursAt(parts[k], sep, j) {
        if k == 0 {
          PrefixKeepsOccurrences(s, sep, i, j);
        } else {
          assert parts[k] == Split(rest, sep)[k - 1];
        }
      }
    }
  }

  /** An occurrence inside a prefix is an occurrence in the whole string, before the
      prefix ends. */
  lemma PrefixKeepsOccurrences(s: string, sep: string, i: int, j: int)
    requires |sep| > 0 && 0 <= i <= |s|
    ensures OccursAt(s[..i], sep, j) ==> OccursAt(s, sep, j) && j < i
  {
    if OccursAt(s[..i], sep, j) {
      assert s[..i][j..j + |sep|] == s[j..j + |sep|];
    }
  }

  /** A string split on a one-character separator it ends with has an empty last piece. */
  lemma {:induction false} SplitOfTerminated(s: string, sep: string)
    requires |sep| == 1
    ensures var parts := Split(s + sep, sep);
            parts[|parts| - 1] == ""
    decreases |s|
  {
    var t := s + sep;
    var i := Find(t, sep, 0);
    EndsWithSeparator(s, sep);
    assert 0 <= i <= |s|;
    var rest := t[i + 1..];
    SplitAtFirst(t, sep, i);
    var tail := Split(rest, sep);
    if i == |s| {
      assert rest == "";
      assert tail == [""];
    } else {
      assert rest == s[i + 1..] + sep;
      SplitOfTerminated(s[i + 1..], sep);
    }
    LastOfCons(t[..i], tail);
  }

  lemma EndsWithSeparator(s: string, sep: string)
    ensures OccursAt(s + sep, sep, |s|)
  {
    var t := s + sep;
    assert forall k :: 0 <= k < |sep| ==> t[|s|..|s| + |sep|][k] == sep[k];
  }

  lemma LastOfCons<T>(a: T, xs: seq<T>)
    requires |xs| >= 1
    ensures ([a] + xs)[|[a] + xs| - 1] == xs[|xs| - 1]
  {
  }

  // ----- Rules -----

  const Arrow: string := "->"

  /** One rule `left->right`: the pieces before the first and the second `->`. A rule
      without `->` has no second piece, and reading it fails. */
  function Rule(rule: string): Option<(string, string)>
  {
    var parts := Split(rule, Arrow);
    if |parts| < 2 then None else Some((parts[0], parts[1]))
  }

  /** A rule parses exactly when it contains `->`; its left part contains no `->`. */
  lemma RuleParsesIffArrow(rule: string)
    ensures Rule(rule).Some? <==> exists i :: OccursAt(rule, Arrow, i)
    ensures Rule(rule).Some? ==> forall j :: !OccursAt(Rule(rule).value.0, Arrow, j)
    ensures Rule(rule).Some? ==> forall j :: !OccursAt(Rule(rule).value.1, Arrow, j)
  {
    var i := Find(rule, Arrow, 0);
    SplitPiecesAreFree(rule, Arrow);
    if i != -1 {
      assert OccursAt(rule, Arrow, i);
    } else {
      assert forall j :: !OccursAt(rule, Arrow, j) by {
        forall j ensures !OccursAt(rule, Arrow, j) {
          if j >= 0 {
          }
        }
      }
    }
  }

  /** Text after a second `->` is dropped. */
  lemma SecondArrowDropsTail()
    ensures Rule("F->FF->X") == Some(("F", "FF"))
  {
    var s := "F->FF->X";
    assert s[0..2] == ['F', '-'] && s[1..3] == Arrow;
    assert Find(s, Arrow, 1) == 1;
    assert Find(s, Arrow, 0) == 1;
    var rest := s[3..];
    assert rest == "FF->X";
    assert rest[0..2] == ['F', 'F'] && rest[1..3] == ['F', '-'] && rest[2..4] == Arrow;
    assert Find(rest, Arrow, 2) == 2;
    assert Find(rest, Arrow, 1) == 2;
    assert Find(rest, Arrow, 0) == 2;
    var tail := rest[4..];
    assert tail == "X";
    assert Find(tail, Arrow, 0) == -1;
    assert Split(tail, Arrow) == [tail];
    assert Split(rest, Arrow) == ["FF"] + Split(tail, Arrow);
    assert s[..1] == "F";
    assert Split(s, Arrow) == ["F"] + Split(rest, Arrow);
  }

  /** The rule loop: each rule enters the map in turn, a later rule overwriting an
      earlier one with the same left part; the first rule that does not parse makes
      the whole parse fail. */
  function ParseRules(rules: seq<string>): Option<map<string, string>>
  {
    if |rules| == 0 then Some(map[])
    else
      match ParseRules(rules[..|rules| - 1])
      case None => None
      case Some(m) =>
        match Rule(rules[|rules| - 1])
        case None => None
        case Some(lr) => Some(m[lr.0 := lr.1])
  }

  /** The parse succeeds exactly when every rule parses. */
  lemma {:induction false} ParseRulesSucceeds(rules: seq<string>)
    ensures ParseRules(rules).Some? <==> forall i :: 0 <= i < |rules| ==> Rule(rules[i]).Some?
  {
    if |rules| > 0 {
      var init := rules[..|rules| - 1];
      ParseRulesSucceeds(init);
      assert forall i :: 0 <= i < |init| ==> init[i] == rules[i];
    }
  }

  /** The map's keys are the rules' left parts. */
  lemma {:induction false} ParseRulesKeys(rules: seq<string>)
    requires ParseRules(rules).Some?
    ensures forall k :: k in ParseRules(rules).value <==>
              exists i :: 0 <= i < |rules| && Rule(rules[i]).Some? && Rule(rules[i]).value.0 == k
  {
    if |rules| > 0 {
      var init := rules[..|rules| - 1];
      ParseRulesKeys(init);
      assert forall i :: 0 <= i < |init| ==> init[i] == rules[i];
      var last := Rule(rules[|rules| - 1]).value;
      forall k ensures k in ParseRules(rules).value <==>
                       exists i :: 0 <= i < |rules| && Rule(rules[i]).Some? && Rule(rules[i]).value.0 == k {
        if k == last.0 {
          assert Rule(rules[|rules| - 1]).value.0 == k;
        } else if k in ParseRules(rules).value {
          assert k in ParseRules(init).value;
          var i :| 0 <= i < |init| && Rule(init[i]).Some? && Rule(init[i]).value.0 == k;
          assert Rule(rules[i]).value.0 == k;
        }
      }
    }
  }

  /** Each left part maps to the right part of the last rule with that left part: a
      later rule overrides an earlier one. */
  lemma {:induction false} ParseRulesLastWins(rules: seq<string>, i: int)
    requires ParseRules(rules).Some? && 0 <= i < |rules| && Rule(rules[i]).Some?
    requires forall j :: i < j < |rules| && Rule(rules[j]).Some? ==> Rule(rules[j]).value.0 != Rule(rules[i]).value.0
    ensures Rule(rules[i]).value.0 in ParseRules(rules).value
    ensures ParseRules(rules).value[Rule(rules[i]).value.0] == Rule(rules[i]).value.1
  {
    var init := rules[..|rules| - 1];
    if i < |rules| - 1 {
      assert init[i] == rules[i];
      forall j | i < j < |init| && Rule(init[j]).Some? ensures Rule(init[j]).value.0 != Rule(init[i]).value.0 {
        assert init[j] == rules[j];
      }
      ParseRulesLastWins(init, i);
    }
  }

  /** A rule string ending in `;` always fails: its last rule is empty. */
  lemma TrailingSemicolonFails(rule: string)
    ensures ParseRules(Split(rule + ";", ";")) == None
  {
    var rules := Split(rule + ";", ";");
    SplitOfTerminated(rule, ";");
    assert Split("", Arrow) == [""];
    assert Rule(rules[|rules| - 1]) == None;
  }

  // ----- Rewriting -----

  /** The replacement of one character: its rule's production, or the character. */
  function Expand(prod: map<string, string>, c: char): string
  {
    if [c] in prod then prod[[c]] else [c]
  }

  /** One round of the rewrite, character by character from the left. */
  function Step(prod: map<string, string>, s: string): string
  {
    if |s| == 0 then "" else Step(prod, s[..|s| - 1]) + Expand(prod, s[|s| - 1])
  }

  /** `k` rounds. */
  function Rewrite(prod: map<string, string>, s: string, k: nat): string
  {
    if k == 0 then s else Step(prod, Rewrite(prod, s, k - 1))
  }

  /** The rounds `range(depth)` runs: none for a depth that is not positive. */
  function Rounds(depth: int): (n: nat)
    ensures depth > 0 ==> n == depth
    ensures depth <= 0 ==> n == 0
  {
    if depth > 0 then depth else 0
  }

  /** A round treats each character on its own: it distributes over concatenation. */
  lemma {:induction false} StepConcat(prod: map<string, string>, a: string, b: string)
    ensures Step(prod, a + b) == Step(prod, a) + Step(prod, b)
    decreases |b|
  {
    if |b| > 0 {
      var b' := b[..|b| - 1];
      StepConcat(prod, a, b');
      assert (a + b)[..|a + b| - 1] == a + b';
      assert (a + b)[|a + b| - 1] == b[|b| - 1];
    } else {
      assert a + b == a;
    }
  }

  /** A round of a single character is its expansion. */
  lemma StepChar(prod: map<string, string>, c: char)
    ensures Step(prod, [c]) == Expand(prod, c)
  {
    assert [c][..0] == "";
  }

  /** A string without a rule-bearing character is left unchanged by a round. */
  lemma {:induction false} StepFixedPoint(prod: map<string, string>, s: string)
    requires forall i :: 0 <= i < |s| ==> [s[i]] !in prod
    ensures Step(prod, s) == s
    decreases |s|
  {
    if |s| > 0 {
      var init, c := s[..|s| - 1], s[|s| - 1];
      assert forall i :: 0 <= i < |init| ==> init[i] == s[i];
      StepFixedPoint(prod, init);
      assert [c] !in prod;
      assert Expand(prod, c) == [c];
      assert s == init + [c];
    }
  }

  /** ... and by every number of rounds. */
  lemma {:induction false} RewriteFixedPoint(prod: map<string, string>, s: string, k: nat)
    requires forall i :: 0 <= i < |s| ==> [s[i]] !in prod
    ensures Rewrite(prod, s, k) == s
  {
    if k > 0 {
      RewriteFixedPoint(prod, s, k - 1);
      StepFixedPoint(prod, s);
    }
  }

  /** The rules whose left part is a single character. */
  function SingleCharRules(prod: map<string, string>): (m: map<string, string>)
    ensures forall k :: k in m <==> k in prod && |k| == 1
  {
    map k | k in prod && |k| == 1 :: prod[k]
  }

  /** Only single-character left parts ever fire: dropping every other rule changes
      no round. */
  lemma {:induction false} OnlySingleCharRulesFire(prod: map<string, string>, s: string)
    ensures Step(prod, s) == Step(SingleCharRules(prod), s)
    decreases |s|
  {
    if |s| > 0 {
      OnlySingleCharRulesFire(prod, s[..|s| - 1]);
      var c := s[|s| - 1];
      assert |[c]| == 1;
      assert Expand(prod, c) == Expand(SingleCharRules(prod), c);
    }
  }

  /** `k + 1` rounds are one round of the string and then `k` rounds. */
  lemma {:induction false} RewriteFirstRound(prod: map<string, string>, s: string, k: nat)
    ensures Rewrite(prod, s, k + 1) == Rewrite(prod, Step(prod, s), k)
  {
    if k > 0 {
      RewriteFirstRound(prod, s, k - 1);
    }
  }

  // ----- The L-system object -----

  /** The grammar dictionary: the required `rule`, `init` and `depth`, and the optional
      drawing parameters. */
  datatype Grammar = Grammar(rule: string, init: string, depth: int, angle: Option<real>,
                             growthFactor: Option<real>, initAngleAxis: Option<seq<real>>,
                             initTranslate: Option<seq<real>>, xzScale: Option<real>, yScale: Option<real>)

  class LSystem {
    var grammarStr: Grammar
    var depth: int
    var angle: real
    var growthFactor: real
    var initAngleAxis: Option<seq<real>>
    var initTranslate: Option<seq<real>>
    var xzScale: real
    var yScale: real
    var prodRules: map<string, string>
    var production: string

    /** `get_grammar`. */
    function GetGrammar(): Grammar
      reads this
    {
      grammarStr
    }

    /** `set_grammar`: store the parameters, parse the rules, then rewrite `init`
        `depth` times. A rule without `->` stops it with the parameters stored and the
        rule map and production untouched (`ok` is false). */
    method SetGrammar(g: Grammar) returns (ok: bool)
      modifies this
      ensures ParametersOf(g)
      ensures ok <==> ParseRules(Split(g.rule, ";")).Some?
      ensures ok ==> prodRules == ParseRules(Split(g.rule, ";")).value &&
                     production == Rewrite(prodRules, g.init, Rounds(g.depth))
      ensures !ok ==> prodRules == old(prodRules) && production == old(production)
    {
      SetParameters(g);
      var prod := ParseRuleList(Split(g.rule, ";"));
      if prod.None? {
        return false;
      }
      prodRules := prod.value;
      production := ExpandRounds(prod.value, g.init, g.depth);
      return true;
    }

    /** The grammar and its drawing parameters are stored, each missing parameter
        with its default. */
    predicate ParametersOf(g: Grammar)
      reads this
    {
      grammarStr == g && depth == g.depth &&
      angle == (if g.angle.Some? then g.angle.value else 0.0) &&
      growthFactor == (if g.growthFactor.Some? then g.growthFactor.value else 0.5) &&
      initAngleAxis == g.initAngleAxis && initTranslate == g.initTranslate &&
      xzScale == (if g.xzScale.Some? then g.xzScale.value else 1.0) &&
      yScale == (if g.yScale.Some? then g.yScale.value else 1.0)
    }

    /** The first part of `set_grammar`: read the parameters. */
    method SetParameters(g: Grammar)
      modifies this
      ensures ParametersOf(g)
      ensures prodRules == old(prodRules) && production == old(production)
    {
      grammarStr := g;
      depth := g.depth;
      angle := if g.angle.Some? then g.angle.value else 0.0;
      growthFactor := if g.growthFactor.Some? then g.growthFactor.value else 0.5;
      initAngleAxis := g.initAngleAxis;
      initTranslate := g.initTranslate;
      xzScale := if g.xzScale.Some? then g.xzScale.value else 1.0;
      yScale := if g.yScale.Some? then g.yScale.value else 1.0;
    }
  }

  /** The rule loop of `set_grammar`: split each rule on `->` and store its first two
      pieces; a rule with a single piece stops the loop. */
  method ParseRuleList(ruleList: seq<string>) returns (prod: Option<map<string, string>>)
    ensures prod == ParseRules(ruleList)
  {
    var m: map<string, string> := map[];
    for i := 0 to |ruleList|
      invariant ParseRules(ruleList[..i]) == Some(m)
    {
      assert ruleList[..i + 1][..i] == ruleList[..i];
      var ruleParts := Split(ruleList[i], Arrow);
      if |ruleParts| < 2 {
        assert ParseRules(ruleList[..i + 1]) == None;
        ParseRulesPrefixFails(ruleList, i + 1);
        return None;
      }
      m := m[ruleParts[0] := ruleParts[1]];
    }
    assert ruleList[..|ruleList|] == ruleList;
    return Some(m);
  }

  /** The expansion loop of `set_grammar`: `depth` rounds, each building `newProd`
      character by character. */
  method ExpandRounds(prod: map<string, string>, init: string, depth: int) returns (production: string)
    ensures production == Rewrite(prod, init, Rounds(depth))
  {
    production := init;
    for n := 0 to Rounds(depth)
      invariant production == Rewrite(prod, init, n)
    {
      var newProd := "";
      for j := 0 to |production|
        invariant newProd == Step(prod, production[..j])
      {
        assert production[..j + 1][..j] == production[..j];
        var c := production[j];
        if [c] in prod {
          newProd := newProd + prod[[c]];
        } else {
          newProd := newProd + [c];
        }
      }
      assert production[..|production|] == production;
      production := newProd;
    }
  }

  /** Once a prefix of the rules fails, the whole parse fails. */
  lemma {:induction false} ParseRulesPrefixFails(rules: seq<string>, n: nat)
    requires n <= |rules| && ParseRules(rules[..n]) == None
    ensures ParseRules(rules) == None
    decreases |rules| - n
  {
    if n < |rules| {
      assert rules[..n + 1][..n] == rules[..n];
      ParseRulesPrefixFails(rules, n + 1);
    } else {
      assert rules[..n] == rules;
    }
  }
}
