/**
 * Rule tokens of the form `name(^argument)*(:datatype)?`, as `validate`
 * takes them apart with `String.prototype.split`.
 */
module RuleTokens {
  import opened JsValues

  /** No piece contains the separator. */
  predicate SeparatorFree(parts: seq<string>, sep: char)
  {
    forall i :: 0 <= i < |parts| ==> sep !in parts[i]
  }

  /** Splitting on a one-character separator: never empty, and the empty string gives one empty piece. */
  function Split(s: string, sep: char): (parts: seq<string>)
    ensures |parts| >= 1
    ensures SeparatorFree(parts, sep)
    decreases |s|
  {
    if s == [] then [""]
    else
      var rest := Split(s[1..], sep);
      if s[0] == sep then [""] + rest
      else [[s[0]] + rest[0]] + rest[1..]
  }

  /** The pieces, with the separator between each two. */
  function Join(parts: seq<string>, sep: char): string
    requires |parts| >= 1
    decreases |parts|
  {
    if |parts| == 1 then parts[0] else parts[0] + [sep] + Join(parts[1..], sep)
  }

  /** Splitting a string that starts with a separator-free prefix. */
  lemma {:induction false} SplitPrefix(p: string, s: string, sep: char)
    requires sep !in p
    ensures Split(p + s, sep) == [p + Split(s, sep)[0]] + Split(s, sep)[1..]
    decreases |p|
  {
    if p != [] {
      var whole := Split(s, sep);
      assert p[0] != sep && sep !in p[1..];
      assert (p + s)[0] == p[0] && (p + s)[1..] == p[1..] + s;
      SplitPrefix(p[1..], s, sep);
      var rest := Split(p[1..] + s, sep);
      assert rest == [p[1..] + whole[0]] + whole[1..];
      assert Split(p + s, sep) == [[p[0]] + rest[0]] + rest[1..];
      assert [p[0]] + (p[1..] + whole[0]) == p + whole[0];
    } else {
      assert p + s == s;
      var whole := Split(s, sep);
      assert p + whole[0] == whole[0];
      assert [whole[0]] + whole[1..] == whole;
    }
  }

  /** Splitting undoes joining when no piece holds the separator. */
  lemma {:induction false} SplitJoin(parts: seq<string>, sep: char)
    requires |parts| >= 1 && SeparatorFree(parts, sep)
    ensures Split(Join(parts, sep), sep) == parts
    decreases |parts|
  {
    if |parts| == 1 {
      SplitPrefix(parts[0], "", sep);
      assert parts[0] + "" == parts[0];
    } else {
      var tail := Join(parts[1..], sep);
      SplitJoin(parts[1..], sep);
      assert parts[0] + [sep] + tail == parts[0] + ([sep] + tail);
      SplitPrefix(parts[0], [sep] + tail, sep);
      assert ([sep] + tail)[1..] == tail;
      assert Split([sep] + tail, sep) == [""] + parts[1..];
      assert parts[0] + "" == parts[0];
      assert parts == [parts[0]] + parts[1..];
    }
  }

  /** Joining undoes splitting, for every string. */
  lemma {:induction false} JoinSplit(s: string, sep: char)
    ensures Join(Split(s, sep), sep) == s
    decreases |s|
  {
    if s != [] {
      var rest := Split(s[1..], sep);
      JoinSplit(s[1..], sep);
      if s[0] != sep && |rest| > 1 {
        assert ([[s[0]] + rest[0]] + rest[1..])[1..] == rest[1..];
      }
    }
  }

  /** A rule token taken apart: the rule name, its `^` arguments and its optional datatype. */
  datatype ParsedToken = ParsedToken(name: string, args: seq<string>, dtype: Option<string>)

  /**
   * How `validate` reads a string token: it splits on ':' and keeps the
   * first two pieces (any further pieces are dropped), then splits the first
   * piece on '^' and takes the head as the rule name and the rest as its
   * arguments.
   */
  function ParseToken(token: string): (t: ParsedToken)
    ensures '^' !in t.name && ':' !in t.name
    ensures SeparatorFree(t.args, '^') && SeparatorFree(t.args, ':')
    ensures t.dtype.Some? ==> ':' !in t.dtype.value
    ensures (':' !in token) <==> t.dtype.None?
  {
    var pieces := Split(token, ':');
    var ruleargs := Split(pieces[0], '^');
    assert SeparatorFree(ruleargs, ':') by {
      forall i | 0 <= i < |ruleargs| ensures ':' !in ruleargs[i] {
        SplitPieceInside(pieces[0], '^', i, ':');
      }
    }
    JoinSplit(token, ':');
    ParsedToken(ruleargs[0], ruleargs[1..], if |pieces| > 1 then Some(pieces[1]) else None)
  }

  /** A piece of `Split(s, sep)` holds only characters of `s`. */
  lemma {:induction false} SplitPieceInside(s: string, sep: char, i: nat, c: char)
    requires i < |Split(s, sep)| && c !in s
    ensures c !in Split(s, sep)[i]
    decreases |s|
  {
    if s != [] {
      var rest := Split(s[1..], sep);
      assert c !in s[1..] by {
        assert forall k :: 0 <= k < |s[1..]| ==> s[1..][k] == s[k + 1];
      }
      if s[0] == sep {
        if i > 0 {
          SplitPieceInside(s[1..], sep, i - 1, c);
        }
      } else if i == 0 {
        SplitPieceInside(s[1..], sep, 0, c);
      } else {
        SplitPieceInside(s[1..], sep, i, c);
      }
    }
  }

  /** The text of a parsed token, `name^a1^...^ak` followed by `:datatype` when present. */
  function FormatToken(t: ParsedToken): string
  {
    Join([t.name] + t.args, '^') + (if t.dtype.Some? then ":" + t.dtype.value else "")
  }

  /** A token holds a separator-free name, arguments and datatype. */
  predicate WellFormed(t: ParsedToken)
  {
    && '^' !in t.name && ':' !in t.name
    && SeparatorFree(t.args, '^') && SeparatorFree(t.args, ':')
    && (t.dtype.Some? ==> ':' !in t.dtype.value)
  }

  /** `"name^a1^...^ak:dt"` parses back into `name`, `[a1, ..., ak]` and `dt`; without `:` the datatype is absent. */
  lemma ParseFormat(t: ParsedToken)
    requires WellFormed(t)
    ensures ParseToken(FormatToken(t)) == t
  {
    var parts := [t.name] + t.args;
    assert SeparatorFree(parts, '^');
    var rule := Join(parts, '^');
    assert ':' !in rule by {
      JoinAvoids(parts, '^', ':');
    }
    var token := FormatToken(t);
    if t.dtype.Some? {
      assert token == Join([rule, t.dtype.value], ':');
      SplitJoin([rule, t.dtype.value], ':');
    } else {
      assert token == Join([rule], ':');
      SplitJoin([rule], ':');
    }
    assert Split(token, ':')[0] == rule;
    SplitJoin(parts, '^');
    assert parts[0] == t.name && parts[1..] == t.args;
  }

  /** A join of pieces free of `c` is free of `c` when `c` is not the separator. */
  lemma {:induction false} JoinAvoids(parts: seq<string>, sep: char, c: char)
    requires |parts| >= 1 && SeparatorFree(parts, c) && c != sep
    ensures c !in Join(parts, sep)
    decreases |parts|
  {
    if |parts| > 1 {
      JoinAvoids(parts[1..], sep, c);
    }
  }

  /** Parsing then formatting gives the token back, unless it held a second `:`. */
  lemma FormatParse(token: string)
    requires |Split(token, ':')| <= 2
    ensures FormatToken(ParseToken(token)) == token
  {
    var pieces := Split(token, ':');
    JoinSplit(token, ':');
    JoinSplit(pieces[0], '^');
    var ruleargs := Split(pieces[0], '^');
    assert [ruleargs[0]] + ruleargs[1..] == ruleargs;
  }
}
