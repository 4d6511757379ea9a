/**
 * The validating wrapper of `src/js/validate.js`: a write to a field runs
 * the field's rule tokens in order against the incoming value, stores the
 * concatenated message in a results map and then commits the value; a rule
 * that throws makes the write fail instead.
 */
module Validate {
  import opened JsValues
  import opened RuleTokens

  /** A flat record of string fields: the wrapped object, or the results map. */
  type Record = map<string, string>

  /** An entry of a field's rule list. */
  datatype RuleToken =
    | Text(text: string)  // a token such as "lower^endDate:date"
    | Callback            // a function value
    | Other               // any other value

  /**
   * What the rules take from the JavaScript host: the time value that
   * `new Date(s)` gives a string, and the clock read by `new Date()`.
   */
  datatype Host = Host(parseTime: string -> JsNum, now: int)

  /** The entries of `builtinRules`. */
  datatype Rule = Required | DateRule | NumberRule | Lower | Higher | LowerEq | HigherEq

  function Builtin(name: string): Option<Rule>
  {
    if name == "required" then Some(Required)
    else if name == "date" then Some(DateRule)
    else if name == "number" then Some(NumberRule)
    else if name == "lower" then Some(Lower)
    else if name == "higher" then Some(Higher)
    else if name == "lowereq" then Some(LowerEq)
    else if name == "highereq" then Some(HigherEq)
    else None
  }

  /** The rules that compare against another field and clear its result. */
  predicate IsCrossField(r: Rule)
  {
    r.Lower? || r.Higher? || r.LowerEq? || r.HigherEq?
  }

  /** The comparison `pv OP qv` under which a cross-field rule reports. */
  function Violation(r: Rule): Relation
    requires IsCrossField(r)
  {
    match r
    case Lower => Ge
    case Higher => Le
    case LowerEq => Gt
    case HigherEq => Lt
  }

  function CrossMessage(r: Rule): string
    requires IsCrossField(r)
  {
    match r
    case Lower => "Input Lower."
    case Higher => "Input Higher."
    case LowerEq => "Input Lower Than Or Equal."
    case HigherEq => "Input Greater Than Or Equal."
  }

  /** Reading a field of the record: a missing field reads as `undefined`. */
  function Lookup(target: Record, key: string): Option<string>
  {
    if key in target then Some(target[key]) else None
  }

  /** The first rule argument, if there is one. */
  function FirstArg(args: seq<string>): Option<string>
  {
    if args == [] then None else Some(args[0])
  }

  /** The first rule argument used as a property key: a missing argument becomes the key "undefined". */
  function OtherField(args: seq<string>): string
  {
    if args == [] then "undefined" else args[0]
  }

  /** How `parseValue` converts a value under a datatype; a `value` of None is `undefined`. */
  function ParseValue(value: Option<string>, dtype: Option<string>, host: Host): (v: JsValue)
    ensures Truthy(v) ==> value.Some? && value.value != ""
    ensures v.Str? ==> dtype.None? || dtype.value == ""
  {
    var present := value.Some? && value.value != "";
    if dtype.None? || dtype.value == "" then (if value.Some? then Str(value.value) else Undefined)
    else if dtype.value == "number" then Number(if present then ToNumber(value.value) else Num(0))
    else if dtype.value == "date" then (if present then Date(host.parseTime(value.value)) else Null)
    else Undefined
  }

  /** `parseDate`: the format is not implemented and the current date is returned. */
  function ParseDate(s: string, fmt: Option<string>, host: Host): (d: JsValue)
    ensures d.Date? && Truthy(d)
  {
    Date(Num(host.now))
  }

  /** The message of a built-in rule that does not throw. */
  function RuleMessage(rule: Rule, args: seq<string>, dtype: Option<string>,
                       target: Record, value: string, host: Host): (m: string)
    ensures m == "" || (rule.Required? && m == "Required.") || (rule.NumberRule? && m == "Invalid Format.")
            || (IsCrossField(rule) && m == CrossMessage(rule))
    ensures m != "" ==> (rule.Required? <==> value == "")
  {
    match rule
    case Required => if value == "" then "Required." else ""
    case DateRule =>
      if value != "" && !Truthy(ParseDate(value, FirstArg(args), host)) then "Invalid Format." else ""
    case NumberRule =>
      // an empty value returns `undefined`, which `join` turns into ''
      if value == "" then "" else if ToNumber(value).NaN? then "Invalid Format." else ""
    case _ =>
      var pv := ParseValue(Some(value), dtype, host);
      var qv := ParseValue(Lookup(target, OtherField(args)), dtype, host);
      if Truthy(pv) && Holds(Violation(rule), pv, qv) then CrossMessage(rule) else ""
  }

  // ---------------------------------------------------------------------
  // One token
  // ---------------------------------------------------------------------

  /** The built-in rule a token names, with its parsed parts. */
  function Resolve(tok: RuleToken): Option<(Rule, ParsedToken)>
  {
    if tok.Text? then
      var t := ParseToken(tok.text);
      var r := Builtin(t.name);
      if r.Some? then Some((r.value, t)) else None
    else None
  }

  /**
   * A function token calls the unbound name `rule` (a ReferenceError); a
   * cross-field rule writes into `results`, which throws when there is none.
   */
  predicate Throws(tok: RuleToken, hasResults: bool): (b: bool)
    ensures b && hasResults ==> tok.Callback?
  {
    tok.Callback? || (!hasResults && Resolve(tok).Some? && IsCrossField(Resolve(tok).value.0))
  }

  /** The field whose result a token clears, if it is a cross-field rule. */
  function Cleared(tok: RuleToken): Option<string>
  {
    var res := Resolve(tok);
    if res.Some? && IsCrossField(res.value.0) then Some(OtherField(res.value.1.args)) else None
  }

  /** What a token that does not throw contributes to the joined message. */
  function TokenMessage(tok: RuleToken, target: Record, value: string, host: Host): string
  {
    var res := Resolve(tok);
    if res.Some? then RuleMessage(res.value.0, res.value.1.args, res.value.1.dtype, target, value, host)
    else ""
  }

  // ---------------------------------------------------------------------
  // A field's token list
  // ---------------------------------------------------------------------

  /** The outcome of `validate`: the joined message, or an exception; and the results map either way. */
  datatype Run =
    | Completed(message: string, results: Option<Record>)
    | Threw(results: Option<Record>)

  function ClearKey(results: Option<Record>, key: Option<string>): Option<Record>
  {
    if results.Some? && key.Some? then Some(results.value[key.value := ""]) else results
  }

  /** Storing a field's joined message, which happens only when there is a results map. */
  function Store(results: Option<Record>, p: string, message: string): Option<Record>
  {
    if results.Some? then Some(results.value[p := message]) else None
  }

  /** What `validate` does with a token list, token by token in list order. */
  function RunTokens(tokens: seq<RuleToken>, target: Record, value: string,
                     results: Option<Record>, host: Host): (r: Run)
    ensures r.results.Some? <==> results.Some?
    ensures r.Threw? ==> exists i :: 0 <= i < |tokens| && Throws(tokens[i], results.Some?)
    decreases |tokens|
  {
    if tokens == [] then Completed("", results)
    else
      var before := RunTokens(tokens[..|tokens| - 1], target, value, results, host);
      var tok := tokens[|tokens| - 1];
      if before.Threw? then before
      else if Throws(tok, before.results.Some?) then Threw(before.results)
      else Completed(before.message + TokenMessage(tok, target, value, host),
                     ClearKey(before.results, Cleared(tok)))
  }

  /** Every token's message concatenated in list order, with nothing between them. */
  function Messages(tokens: seq<RuleToken>, target: Record, value: string, host: Host): string
    decreases |tokens|
  {
    if tokens == [] then ""
    else TokenMessage(tokens[0], target, value, host) + Messages(tokens[1..], target, value, host)
  }

  /** The fields whose results the cross-field tokens of a list clear. */
  function ClearedFields(tokens: seq<RuleToken>): set<string>
    decreases |tokens|
  {
    if tokens == [] then {}
    else
      var c := Cleared(tokens[|tokens| - 1]);
      ClearedFields(tokens[..|tokens| - 1]) + (if c.Some? then {c.value} else {})
  }

  /** A field is cleared exactly when some cross-field token of the list names it. */
  lemma {:induction false} ClearedFieldsNamed(tokens: seq<RuleToken>, key: string)
    ensures key in ClearedFields(tokens)
        <==> exists i :: 0 <= i < |tokens| && Cleared(tokens[i]) == Some(key)
    decreases |tokens|
  {
    if tokens != [] {
      var init := tokens[..|tokens| - 1];
      ClearedFieldsNamed(init, key);
      if exists i :: 0 <= i < |tokens| && Cleared(tokens[i]) == Some(key) {
        var i :| 0 <= i < |tokens| && Cleared(tokens[i]) == Some(key);
        if i < |init| {
          assert init[i] == tokens[i];
        }
      }
      if exists i :: 0 <= i < |init| && Cleared(init[i]) == Some(key) {
        var i :| 0 <= i < |init| && Cleared(init[i]) == Some(key);
        assert tokens[i] == init[i];
      }
    }
  }

  /** A results map with every field that `tokens` clears set to ''. */
  function ClearAll(results: Option<Record>, tokens: seq<RuleToken>): (r: Option<Record>)
    ensures r.Some? == results.Some?
  {
    if results.None? then None
    else
      var cleared := ClearedFields(tokens);
      Some(map k | k in results.value.Keys + cleared :: if k in cleared then "" else results.value[k])
  }

  predicate NoneThrows(tokens: seq<RuleToken>, hasResults: bool)
  {
    forall i :: 0 <= i < |tokens| ==> !Throws(tokens[i], hasResults)
  }

  lemma {:induction false} MessagesSnoc(tokens: seq<RuleToken>, tok: RuleToken,
                                        target: Record, value: string, host: Host)
    ensures Messages(tokens + [tok], target, value, host)
         == Messages(tokens, target, value, host) + TokenMessage(tok, target, value, host)
    decreases |tokens|
  {
    if tokens != [] {
      assert (tokens + [tok])[1..] == tokens[1..] + [tok];
      MessagesSnoc(tokens[1..], tok, target, value, host);
    }
  }

  lemma ClearAllSnoc(results: Option<Record>, tokens: seq<RuleToken>, tok: RuleToken)
    ensures ClearAll(results, tokens + [tok]) == ClearKey(ClearAll(results, tokens), Cleared(tok))
  {
    var all := tokens + [tok];
    assert all[..|tokens|] == tokens && all[|tokens|] == tok;
    var c := Cleared(tok);
    assert ClearedFields(all) == ClearedFields(tokens) + (if c.Some? then {c.value} else {});
    if results.Some? {
      var lhs := ClearAll(results, all).value;
      var rhs := ClearKey(ClearAll(results, tokens), c).value;
      assert lhs.Keys == rhs.Keys;
      assert forall k | k in lhs :: lhs[k] == rhs[k];
      assert lhs == rhs;
    }
  }

  /** When no token throws, `validate` returns every token's message joined in order and clears every cross-field target. */
  lemma {:induction false} RunCompleted(tokens: seq<RuleToken>, target: Record, value: string,
                                        results: Option<Record>, host: Host)
    requires NoneThrows(tokens, results.Some?)
    ensures RunTokens(tokens, target, value, results, host)
         == Completed(Messages(tokens, target, value, host), ClearAll(results, tokens))
    decreases |tokens|
  {
    if tokens == [] {
      if results.Some? {
        assert ClearAll(results, tokens).value == results.value;
      }
    } else {
      var init := tokens[..|tokens| - 1];
      var tok := tokens[|tokens| - 1];
      assert tokens == init + [tok];
      assert NoneThrows(init, results.Some?) by {
        forall i | 0 <= i < |init| ensures !Throws(init[i], results.Some?) {
          assert init[i] == tokens[i];
        }
      }
      RunCompleted(init, target, value, results, host);
      MessagesSnoc(init, tok, target, value, host);
      ClearAllSnoc(results, init, tok);
    }
  }

  /** Once a prefix of the list has thrown, the later tokens change nothing. */
  lemma {:induction false} ThrewIsFinal(tokens: seq<RuleToken>, j: nat, target: Record, value: string,
                                        results: Option<Record>, host: Host)
    requires j <= |tokens| && RunTokens(tokens[..j], target, value, results, host).Threw?
    ensures RunTokens(tokens, target, value, results, host) == RunTokens(tokens[..j], target, value, results, host)
    decreases |tokens| - j
  {
    if j < |tokens| {
      var init := tokens[..|tokens| - 1];
      assert init[..j] == tokens[..j];
      ThrewIsFinal(init, j, target, value, results, host);
    } else {
      assert tokens[..j] == tokens;
    }
  }

  /**
   * When token `k` is the first that throws, `validate` throws, and the
   * clears made by the tokens before it stay in the results map.
   */
  lemma RunThrew(tokens: seq<RuleToken>, k: nat, target: Record, value: string,
                 results: Option<Record>, host: Host)
    requires k < |tokens| && Throws(tokens[k], results.Some?)
    requires NoneThrows(tokens[..k], results.Some?)
    ensures RunTokens(tokens, target, value, results, host) == Threw(ClearAll(results, tokens[..k]))
  {
    var upto := tokens[..k + 1];
    assert upto[..k] == tokens[..k] && upto[k] == tokens[k];
    RunCompleted(tokens[..k], target, value, results, host);
    ThrewIsFinal(tokens, k + 1, target, value, results, host);
  }

  /** `validate` throws exactly when some token of the list throws. */
  lemma RunThrowsIff(tokens: seq<RuleToken>, target: Record, value: string,
                     results: Option<Record>, host: Host)
    ensures RunTokens(tokens, target, value, results, host).Threw?
        <==> exists i :: 0 <= i < |tokens| && Throws(tokens[i], results.Some?)
  {
    if exists i :: 0 <= i < |tokens| && Throws(tokens[i], results.Some?) {
      var k := FirstThrow(tokens, results.Some?);
      RunThrew(tokens, k, target, value, results, host);
    } else {
      RunCompleted(tokens, target, value, results, host);
    }
  }

  /** The index of the first throwing token of a list that has one. */
  lemma FirstThrow(tokens: seq<RuleToken>, hasResults: bool) returns (k: nat)
    requires exists i :: 0 <= i < |tokens| && Throws(tokens[i], hasResults)
    ensures k < |tokens| && Throws(tokens[k], hasResults) && NoneThrows(tokens[..k], hasResults)
  {
    k := 0;
    while !Throws(tokens[k], hasResults)
      invariant k < |tokens| && forall i :: 0 <= i < k ==> !Throws(tokens[i], hasResults)
      decreases |tokens| - k
    {
      k := k + 1;
    }
  }

  // ---------------------------------------------------------------------
  // The built-in rules, token by token
  // ---------------------------------------------------------------------

  /** An unknown rule name and a non-string, non-function token contribute '' and do nothing else. */
  lemma UnknownContributesNothing(tok: RuleToken, target: Record, value: string, host: Host, hasResults: bool)
    requires tok.Other? || (tok.Text? && Builtin(ParseToken(tok.text).name).None?)
    ensures TokenMessage(tok, target, value, host) == ""
    ensures !Throws(tok, hasResults) && Cleared(tok).None?
  {
  }

  /** `required` reports "Required." exactly when the value is empty, and '' otherwise. */
  lemma RequiredReportsEmpty(tok: RuleToken, target: Record, value: string, host: Host)
    requires tok.Text? && ParseToken(tok.text).name == "required"
    ensures TokenMessage(tok, target, value, host) == (if value == "" then "Required." else "")
  {
  }

  /** `date` never reports: the placeholder `parseDate` always yields a date. */
  lemma DateNeverReports(tok: RuleToken, target: Record, value: string, host: Host)
    requires tok.Text? && ParseToken(tok.text).name == "date"
    ensures TokenMessage(tok, target, value, host) == ""
  {
  }

  /** `number` reports "Invalid Format." exactly for a non-empty value that is not a number. */
  lemma NumberReportsNaN(tok: RuleToken, target: Record, value: string, host: Host)
    requires tok.Text? && ParseToken(tok.text).name == "number"
    ensures TokenMessage(tok, target, value, host)
         == (if value != "" && ToNumber(value) == NaN then "Invalid Format." else "")
  {
  }

  /**
   * Under the `date` datatype both sides become time values, and an empty or
   * missing other field becomes `null`, which compares as 0. The incoming
   * value is a Date object and so always truthy: the rule reports exactly
   * when the value is non-empty, both times are valid and the comparison
   * holds on them. Whatever it reports, the other field's result is cleared.
   */
  lemma DateCrossField(tok: RuleToken, target: Record, value: string, host: Host)
    requires Resolve(tok).Some? && IsCrossField(Resolve(tok).value.0)
    requires Resolve(tok).value.1.dtype == Some("date")
    ensures var (r, t) := Resolve(tok).value;
      var q := OtherField(t.args);
      var other := if q in target && target[q] != "" then host.parseTime(target[q]) else Num(0);
      && Cleared(tok) == Some(q)
      && ((TokenMessage(tok, target, value, host) != "")
          <==> (value != "" && host.parseTime(value).Num? && other.Num?
                && IntHolds(Violation(r), host.parseTime(value).n, other.n)))
  {
  }

  /**
   * "lower^end:date" against an empty or missing `end`: every non-empty value
   * whose time is not before the epoch is reported as "Input Lower.".
   */
  lemma LowerDateAgainstEmpty(target: Record, value: string, host: Host)
    requires !("end" in target && target["end"] != "")
    ensures TokenMessage(Text("lower^end:date"), target, value, host)
         == (if value != "" && host.parseTime(value).Num? && host.parseTime(value).n >= 0
             then "Input Lower." else "")
  {
    LowerEndDateResolves();
    LowerDateAgainstEmptyFor(Text("lower^end:date"), target, value, host);
  }

  /** The same fact for any token that resolves as "lower^end:date" does. */
  lemma LowerDateAgainstEmptyFor(tok: RuleToken, target: Record, value: string, host: Host)
    requires Resolve(tok) == Some((Lower, ParsedToken("lower", ["end"], Some("date"))))
    requires !("end" in target && target["end"] != "")
    ensures TokenMessage(tok, target, value, host)
         == (if value != "" && host.parseTime(value).Num? && host.parseTime(value).n >= 0
             then "Input Lower." else "")
  {
  }

  /**
   * A datatype other than `number` and `date` turns the incoming value into
   * `undefined`, which is falsy: such a cross-field rule never reports, but
   * it still clears the other field's result.
   */
  lemma UnknownDatatypeNeverReports(tok: RuleToken, target: Record, value: string, host: Host)
    requires Resolve(tok).Some? && IsCrossField(Resolve(tok).value.0)
    requires Resolve(tok).value.1.dtype.Some?
    requires Resolve(tok).value.1.dtype.value !in {"", "number", "date"}
    ensures TokenMessage(tok, target, value, host) == ""
    ensures Cleared(tok) == Some(OtherField(Resolve(tok).value.1.args))
  {
  }

  /**
   * Without a datatype, or with an empty one, a cross-field rule compares raw strings: it reports
   * only for a non-empty value, an existing other field, and the string
   * comparison holding.
   */
  lemma RawCrossField(tok: RuleToken, target: Record, value: string, host: Host)
    requires Resolve(tok).Some? && IsCrossField(Resolve(tok).value.0)
    requires Resolve(tok).value.1.dtype.None? || Resolve(tok).value.1.dtype.value == ""
    ensures var (r, t) := Resolve(tok).value;
      var q := OtherField(t.args);
      (TokenMessage(tok, target, value, host) != "")
        <==> (value != "" && q in target && Holds(Violation(r), Str(value), Str(target[q])))
  {
    var (r, t) := Resolve(tok).value;
    UndefinedNeverCompares(Violation(r), Str(value));
  }

  /**
   * Under the `number` datatype an empty or missing other field counts as 0,
   * and a value that is 0 or NaN never reports.
   */
  lemma NumericCrossField(tok: RuleToken, target: Record, value: string, host: Host)
    requires Resolve(tok).Some? && IsCrossField(Resolve(tok).value.0)
    requires Resolve(tok).value.1.dtype == Some("number")
    ensures var (r, t) := Resolve(tok).value;
      var q := OtherField(t.args);
      var other := if q in target && target[q] != "" then ToNumber(target[q]) else Num(0);
      (TokenMessage(tok, target, value, host) != "")
        <==> (value != "" && ToNumber(value).Num? && ToNumber(value).n != 0
              && other.Num? && IntHolds(Violation(r), ToNumber(value).n, other.n))
  {
  }

  /** A list of one token that does not throw runs to its message and its clear. */
  lemma SingleToken(tok: RuleToken, target: Record, value: string, results: Option<Record>, host: Host)
    requires !Throws(tok, results.Some?)
    ensures RunTokens([tok], target, value, results, host)
         == Completed(TokenMessage(tok, target, value, host), ClearKey(results, Cleared(tok)))
  {
    assert [tok][..0] == [];
    assert "" + TokenMessage(tok, target, value, host) == TokenMessage(tok, target, value, host);
  }

  /** The text "lower^end" names rule `lower` with argument `end` and no datatype. */
  lemma LowerEndResolves()
    ensures Resolve(Text("lower^end")) == Some((Lower, ParsedToken("lower", ["end"], None)))
  {
    var t := ParsedToken("lower", ["end"], None);
    assert Join(["end"], '^') == "end";
    assert FormatToken(t) == "lower^end";
    ParseFormat(t);
  }

  /** The text "lower^end:number" names rule `lower` with argument `end` and datatype `number`. */
  lemma LowerEndNumberResolves()
    ensures Resolve(Text("lower^end:number")) == Some((Lower, ParsedToken("lower", ["end"], Some("number"))))
  {
    var t := ParsedToken("lower", ["end"], Some("number"));
    assert Join(["end"], '^') == "end";
    assert Join(["lower", "end"], '^') == "lower^end";
    assert FormatToken(t) == "lower^end:number";
    ParseFormat(t);
  }

  /** The text "lower^end:date" names rule `lower` with argument `end` and datatype `date`. */
  lemma LowerEndDateResolves()
    ensures Resolve(Text("lower^end:date")) == Some((Lower, ParsedToken("lower", ["end"], Some("date"))))
  {
    var t := ParsedToken("lower", ["end"], Some("date"));
    assert Join(["end"], '^') == "end";
    assert Join(["lower", "end"], '^') == "lower^end";
    assert FormatToken(t) == "lower^end:date";
    ParseFormat(t);
  }

  /** The text "required" names rule `required` with no argument and no datatype. */
  lemma RequiredResolves()
    ensures Resolve(Text("required")) == Some((Required, ParsedToken("required", [], None)))
  {
    var t := ParsedToken("required", [], None);
    assert FormatToken(t) == "required";
    ParseFormat(t);
  }

  /**
   * Rule "lower^end" on field `start`, writing "10" while `end` holds "5":
   * without a datatype the strings compare lexicographically and "10" < "5",
   * so nothing is reported, but the result of `end` is cleared.
   */
  lemma LowerRawExample(host: Host)
    ensures RunTokens([Text("lower^end")], map["end" := "5"], "10", Some(map["end" := "stale"]), host)
         == Completed("", Some(map["end" := ""]))
  {
    LowerEndResolves();
    LowerRawExampleFor(Text("lower^end"), host);
  }

  /** The write of LowerRawExample, for any token that resolves as "lower^end" does. */
  lemma LowerRawExampleFor(tok: RuleToken, host: Host)
    requires Resolve(tok) == Some((Lower, ParsedToken("lower", ["end"], None)))
    ensures RunTokens([tok], map["end" := "5"], "10", Some(map["end" := "stale"]), host)
         == Completed("", Some(map["end" := ""]))
  {
    assert StrLess("10", "5");
    SingleToken(tok, map["end" := "5"], "10", Some(map["end" := "stale"]), host);
    assert map["end" := "stale"]["end" := ""] == map["end" := ""];
  }

  /** The same write under "lower^end:number" compares 10 with 5 and reports. */
  lemma LowerNumberExample(host: Host)
    ensures RunTokens([Text("lower^end:number")], map["end" := "5"], "10", Some(map["end" := "stale"]), host)
         == Completed("Input Lower.", Some(map["end" := ""]))
  {
    LowerEndNumberResolves();
    LowerNumberExampleFor(Text("lower^end:number"), host);
  }

  /** The write of LowerNumberExample, for any token that resolves as "lower^end:number" does. */
  lemma LowerNumberExampleFor(tok: RuleToken, host: Host)
    requires Resolve(tok) == Some((Lower, ParsedToken("lower", ["end"], Some("number"))))
    ensures RunTokens([tok], map["end" := "5"], "10", Some(map["end" := "stale"]), host)
         == Completed("Input Lower.", Some(map["end" := ""]))
  {
    assert ToNumber("10") == Num(10) by {
      assert "10"[..1] == "1";
    }
    assert ToNumber("5") == Num(5);
    SingleToken(tok, map["end" := "5"], "10", Some(map["end" := "stale"]), host);
    assert map["end" := "stale"]["end" := ""] == map["end" := ""];
  }

  /** `number` on "abc" reports "Invalid Format."; on "" and on "42" it reports nothing. */
  lemma NumberExamples(target: Record, host: Host)
    ensures RuleMessage(NumberRule, [], None, target, "abc", host) == "Invalid Format."
    ensures RuleMessage(NumberRule, [], None, target, "", host) == ""
    ensures RuleMessage(NumberRule, [], None, target, "42", host) == ""
  {
    NotANumber("abc", 0);
    assert AllDigits("42");
  }

  /**
   * A cross-field token followed by a function token: the write fails, and
   * the other field's result stays cleared.
   */
  lemma ClearSurvivesThrow(tok: RuleToken, target: Record, value: string, results: Record, host: Host)
    requires Resolve(tok).Some? && IsCrossField(Resolve(tok).value.0)
    ensures RunTokens([tok, Callback], target, value, Some(results), host)
         == Threw(Some(results[OtherField(Resolve(tok).value.1.args) := ""]))
  {
    var tokens := [tok, Callback];
    assert tokens[..1] == [tok];
    RunThrew(tokens, 1, target, value, Some(results), host);
    var cleared := ClearAll(Some(results), [tok]).value;
    var q := OtherField(Resolve(tok).value.1.args);
    assert ClearedFields([tok]) == {q} by {
      assert [tok][..0] == [];
    }
    assert cleared == results[q := ""];
  }

  // ---------------------------------------------------------------------
  // The wrapped object
  // ---------------------------------------------------------------------

  /** The validating proxy: the wrapped object, the rule table and the optional results map. */
  class Validator {
    var obj: Record
    var results: Option<Record>
    const rules: map<string, seq<RuleToken>>
    const host: Host

    constructor (obj: Record, rules: map<string, seq<RuleToken>>, results: Option<Record>, host: Host)
      ensures this.obj == obj && this.rules == rules && this.results == results && this.host == host
    {
      this.obj := obj;
      this.rules := rules;
      this.results := results;
      this.host := host;
    }

    /** `validate` on the wrapped object: runs the tokens in order, clearing results as it goes. */
    method Validate(tokens: seq<RuleToken>, value: string) returns (message: Option<string>)
      modifies this`results
      ensures message.Some? ==> RunTokens(tokens, obj, value, old(results), host) == Completed(message.value, results)
      ensures message.None? ==> RunTokens(tokens, obj, value, old(results), host) == Threw(results)
    {
      var acc := "";
      var i := 0;
      while i < |tokens|
        invariant 0 <= i <= |tokens|
        invariant RunTokens(tokens[..i], obj, value, old(results), host) == Completed(acc, results)
        decreases |tokens| - i
      {
        assert tokens[..i + 1][..i] == tokens[..i];
        match tokens[i] {
        case Callback =>
          // the token calls `rule`, a name not bound here
          ThrewIsFinal(tokens, i + 1, obj, value, old(results), host);
          return None;
        case Other =>
        case Text(text) =>
          var t := ParseToken(text);
          var rule := Builtin(t.name);
          if rule.Some? {
            if IsCrossField(rule.value) {
              if results.None? {
                // clearing the other field's result needs a results map
                ThrewIsFinal(tokens, i + 1, obj, value, old(results), host);
                return None;
              }
              results := Some(results.value[OtherField(t.args) := ""]);
            }
            acc := acc + RuleMessage(rule.value, t.args, t.dtype, obj, value, host);
          }
        }
        i := i + 1;
      }
      assert tokens[..i] == tokens;
      message := Some(acc);
    }

    /**
     * The `set` trap. A field without rules is just written. Otherwise the
     * rules run against the incoming value; if none throws, the joined
     * message is stored under `p` (when there is a results map) and the
     * value is written, whatever the message. If a rule throws, the write
     * fails and the object is unchanged, but clears made before the throw stay.
     */
    method Set(p: string, newValue: string) returns (ok: bool)
      modifies this
      ensures p !in rules ==> ok && obj == old(obj)[p := newValue] && results == old(results)
      ensures p in rules ==>
        var run := RunTokens(rules[p], old(obj), newValue, old(results), host);
        && ok == run.Completed?
        && obj == (if ok then old(obj)[p := newValue] else old(obj))
        && results == (if run.Completed? then Store(run.results, p, run.message) else run.results)
    {
      if p in rules {
        var message := Validate(rules[p], newValue);
        if message.None? {
          return false;
        }
        if results.Some? {
          results := Some(results.value[p := message.value]);
        }
      }
      obj := obj[p := newValue];
      ok := true;
    }
  }

  /**
   * A function token makes the write fail: the field keeps its old value
   * and its result is not written.
   */
  method CallbackRejectsWrite(host: Host) returns (ok: bool, value: Option<string>, result: Option<string>)
    ensures !ok && value == Some("old") && result == None
  {
    var v := new Validator(map["f" := "old"], map["f" := [Callback]], Some(map[]), host);
    ok := v.Set("f", "new");
    value := Lookup(v.obj, "f");
    result := if v.results.Some? then Lookup(v.results.value, "f") else None;
  }

  /**
   * Validation does not block: with the rule list ["required"], writing ""
   * commits "" and stores "Required." as the field's result.
   */
  method RequiredDoesNotBlock(host: Host) returns (ok: bool, value: Option<string>, result: Option<string>)
    ensures ok && value == Some("") && result == Some("Required.")
  {
    RequiredResolves();
    EmptyRequiredFor(Text("required"), map["f" := "old"], Some(map[]), host);
    var v := new Validator(map["f" := "old"], map["f" := [Text("required")]], Some(map[]), host);
    ok := v.Set("f", "");
    value := Lookup(v.obj, "f");
    result := if v.results.Some? then Lookup(v.results.value, "f") else None;
  }

  /** A single `required` token on the empty value completes with "Required." and clears nothing. */
  lemma EmptyRequiredFor(tok: RuleToken, target: Record, results: Option<Record>, host: Host)
    requires Resolve(tok) == Some((Required, ParsedToken("required", [], None)))
    ensures RunTokens([tok], target, "", results, host) == Completed("Required.", results)
  {
    SingleToken(tok, target, "", results, host);
  }
}
