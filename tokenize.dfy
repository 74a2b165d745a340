/**
 * `tokenize_by_regex` (src/utils/text_preprocess.py): a SACR-annotated document is split
 * on the four delimiters `{ : = }`, keeping them, and every `{` opens a mention whose
 * label is read from the next token and whose class and text are read from the token
 * five places further on.
 */
module Tokenize {
  import opened Wrappers
  import opened Text
  import opened Mentions

  // ---------------------------------------------------------------------------
  // `re.split(r'({|:|=|})', annotation)`
  // ---------------------------------------------------------------------------

  predicate IsDelimiter(c: char) {
    c == '{' || c == ':' || c == '=' || c == '}'
  }

  predicate NoDelimiters(s: string) {
    forall k :: 0 <= k < |s| ==> !IsDelimiter(s[k])
  }

  function Concat(ts: seq<string>): string {
    if ts == [] then [] else ts[0] + Concat(ts[1..])
  }

  /** The split with a capturing group. */
  function SplitKeep(s: string): (r: seq<string>)
    ensures |r| >= 1
  {
    if s == [] then [""]
    else if IsDelimiter(s[0]) then ["", [s[0]]] + SplitKeep(s[1..])
    else
      var rest := SplitKeep(s[1..]);
      [[s[0]] + rest[0]] + rest[1..]
  }

  /** What the split returns: pieces free of delimiters at even positions, one delimiter per odd position. */
  lemma {:induction false} SplitKeepShape(s: string)
    ensures var r := SplitKeep(s);
      && |r| % 2 == 1
      && (forall k :: 0 <= k < |r| && k % 2 == 0 ==> NoDelimiters(r[k]))
      && (forall k :: 0 <= k < |r| && k % 2 == 1 ==> |r[k]| == 1 && IsDelimiter(r[k][0]))
  {
    if s != [] {
      var c := s[0];
      var rest := SplitKeep(s[1..]);
      SplitKeepShape(s[1..]);
      var r := SplitKeep(s);
      if IsDelimiter(c) {
        assert r == ["", [c]] + rest;
        forall k | 2 <= k < |r| ensures r[k] == rest[k - 2] { }
      } else {
        assert r == [[c] + rest[0]] + rest[1..];
        forall k | 1 <= k < |r| ensures r[k] == rest[k] { }
        assert NoDelimiters(r[0]) by {
          forall k | 0 <= k < |r[0]| ensures !IsDelimiter(r[0][k]) {
            if k > 0 { assert r[0][k] == rest[0][k - 1]; }
          }
        }
      }
    }
  }

  /** Joined back together, the pieces are the string split. */
  lemma {:induction false} SplitKeepJoins(s: string)
    ensures Concat(SplitKeep(s)) == s
  {
    if s != [] {
      var c := s[0];
      var rest := SplitKeep(s[1..]);
      SplitKeepJoins(s[1..]);
      var r := SplitKeep(s);
      assert s == [c] + s[1..];
      if IsDelimiter(c) {
        assert r == ["", [c]] + rest;
        assert Concat(r) == "" + Concat(r[1..]);
        assert r[1..][1..] == rest;
        assert Concat(r[1..]) == [c] + Concat(rest);
      } else {
        assert r == [[c] + rest[0]] + rest[1..];
        assert r[1..] == rest[1..];
        assert Concat(rest) == rest[0] + Concat(rest[1..]);
        assert Concat(r) == ([c] + rest[0]) + Concat(rest[1..]);
      }
    }
  }

  /** A delimiter-free prefix is glued to the first piece of what follows. */
  lemma {:induction false} SplitKeepPlainPrefix(x: string, y: string)
    requires NoDelimiters(x)
    ensures SplitKeep(x + y) == [x + SplitKeep(y)[0]] + SplitKeep(y)[1..]
  {
    var tail := SplitKeep(y);
    if x == [] {
      assert x + y == y && x + tail[0] == tail[0];
      assert [tail[0]] + tail[1..] == tail;
    } else {
      assert (x + y)[1..] == x[1..] + y;
      SplitKeepPlainPrefix(x[1..], y);
      var rest := SplitKeep(x[1..] + y);
      assert rest[0] == x[1..] + tail[0] && rest[1..] == tail[1..];
      assert x + tail[0] == [x[0]] + (x[1..] + tail[0]);
    }
  }

  /** Text, a delimiter and the rest split into the text, the delimiter and the split of the rest. */
  lemma SplitKeepDelimited(x: string, d: char, y: string)
    requires NoDelimiters(x) && IsDelimiter(d)
    ensures SplitKeep(x + [d] + y) == [x, [d]] + SplitKeep(y)
  {
    SplitKeepPlainPrefix(x, [d] + y);
    assert ([d] + y)[0] == d && ([d] + y)[1..] == y;
    var after := SplitKeep([d] + y);
    assert after == ["", [d]] + SplitKeep(y);
    assert x + after[0] == x && after[1..] == [[d]] + SplitKeep(y);
    assert x + [d] + y == x + ([d] + y);
  }

  // ---------------------------------------------------------------------------
  // Labels: `tokens[i][1:]`, read as a decimal number
  // ---------------------------------------------------------------------------

  /** Python's `t[1:]`, which is empty for an empty `t`. */
  function DropFirst(t: string): (r: string)
    ensures |t| > 0 ==> t == [t[0]] + r
    ensures |t| == 0 ==> r == []
  {
    if |t| == 0 then [] else t[1..]
  }

  predicate IsDigit(c: char) {
    '0' <= c <= '9'
  }

  predicate AllDigits(s: string) {
    forall k :: 0 <= k < |s| ==> IsDigit(s[k])
  }

  function DigitsValue(s: string): nat
    requires AllDigits(s)
  {
    if s == [] then 0 else DigitsValue(s[..|s| - 1]) * 10 + (s[|s| - 1] as int - '0' as int)
  }

  /** `int(s)` for a string of ASCII digits; anything else is refused. */
  function ParseDecimal(s: string): (r: Option<nat>)
    ensures r.Some? <==> s != [] && AllDigits(s)
  {
    if s != [] && AllDigits(s) then Some(DigitsValue(s)) else None
  }

  function DigitChar(d: nat): char
    requires d < 10
  {
    ('0' as int + d) as char
  }

  /** The decimal form of `n`, the partner of `ParseDecimal`. */
  function DecimalString(n: nat): (r: string)
    ensures r != [] && AllDigits(r)
  {
    if n < 10 then [DigitChar(n)] else DecimalString(n / 10) + [DigitChar(n % 10)]
  }

  lemma {:induction false} DecimalRoundTrip(n: nat)
    ensures ParseDecimal(DecimalString(n)) == Some(n)
  {
    var s := DecimalString(n);
    if n < 10 {
      assert s[..|s| - 1] == [];
      assert s[|s| - 1] as int == '0' as int + n;
      assert DigitsValue(s) == n;
    } else {
      DecimalRoundTrip(n / 10);
      assert s[..|s| - 1] == DecimalString(n / 10);
      assert s[|s| - 1] as int == '0' as int + n % 10;
      assert DigitsValue(s) == DigitsValue(DecimalString(n / 10)) * 10 + n % 10;
    }
  }

  // ---------------------------------------------------------------------------
  // The value token: `re.search(r'^"([^"]*)" (.*)$', token)`
  // ---------------------------------------------------------------------------

  function IndexOf(s: string, c: char): (r: Option<nat>)
    ensures r.Some? ==> r.value < |s| && s[r.value] == c && forall k :: 0 <= k < r.value ==> s[k] != c
    ensures r.None? ==> forall k :: 0 <= k < |s| ==> s[k] != c
  {
    if s == [] then None
    else if s[0] == c then Some(0)
    else match IndexOf(s[1..], c)
      case None => None
      case Some(k) => Some(k + 1)
  }

  predicate Lacks(s: string, c: char) {
    forall k :: 0 <= k < |s| ==> s[k] != c
  }

  /**
   * Group 1 and group 2 of the match, or `None` where Python's `search` finds none:
   * a quoted class free of `"`, one space, and a text that `.` can match to the end,
   * where `$` also accepts a single final newline.
   */
  function ParseValue(t: string): Option<(string, string)> {
    if |t| == 0 || t[0] != '"' then None
    else match IndexOf(t[1..], '"')
      case None => None
      case Some(q) =>
        if q + 2 >= |t| || t[q + 2] != ' ' then None
        else
          var cls, rest := t[1..q + 1], t[q + 3..];
          match IndexOf(rest, '\n')
          case None => Some((cls, rest))
          case Some(e) => if e == |rest| - 1 then Some((cls, rest[..e])) else None
  }

  /** What a match means: the token is the quoted class, a space and the text, maybe with a final newline. */
  lemma ParseValueSound(t: string)
    ensures var r := ParseValue(t);
      r.Some? ==> && Lacks(r.value.0, '"') && Lacks(r.value.1, '\n')
                  && (t == "\"" + r.value.0 + "\" " + r.value.1 || t == "\"" + r.value.0 + "\" " + r.value.1 + "\n")
  {
    if |t| > 0 && t[0] == '"' && IndexOf(t[1..], '"').Some? {
      var q := IndexOf(t[1..], '"').value;
      if q + 2 < |t| && t[q + 2] == ' ' {
        var cls, rest := t[1..q + 1], t[q + 3..];
        assert t == "\"" + cls + "\" " + rest;
        assert Lacks(cls, '"') by {
          forall k | 0 <= k < |cls| ensures cls[k] != '"' { assert cls[k] == t[1..][k]; }
        }
        match IndexOf(rest, '\n')
        case None =>
          assert ParseValue(t) == Some((cls, rest));
        case Some(e) =>
          if e == |rest| - 1 {
            assert ParseValue(t) == Some((cls, rest[..e]));
            assert rest == rest[..e] + "\n";
            assert Lacks(rest[..e], '\n');
          }
      }
    }
  }

  /** A well-formed value token yields back the class and text it was built from. */
  lemma ParseValueRoundTrip(cls: string, text: string)
    requires Lacks(cls, '"') && Lacks(text, '\n')
    ensures ParseValue("\"" + cls + "\" " + text) == Some((cls, text))
  {
    var t := "\"" + cls + "\" " + text;
    assert t[1..][|cls|] == '"';
    assert IndexOf(t[1..], '"') == Some(|cls|);
    assert t[1..|cls| + 1] == cls && t[|cls| + 3..] == text;
  }

  /** The same with the one final newline `$` lets through. */
  lemma ParseValueRoundTripNewline(cls: string, text: string)
    requires Lacks(cls, '"') && Lacks(text, '\n')
    ensures ParseValue("\"" + cls + "\" " + text + "\n") == Some((cls, text))
  {
    var u := "\"" + cls + "\" " + text + "\n";
    assert u[1..][|cls|] == '"';
    assert IndexOf(u[1..], '"') == Some(|cls|);
    assert u[1..|cls| + 1] == cls && u[|cls| + 3..] == text + "\n";
    assert (text + "\n")[|text|] == '\n';
    assert IndexOf(text + "\n", '\n') == Some(|text|);
    assert (text + "\n")[..|text|] == text;
  }

  // ---------------------------------------------------------------------------
  // The scan
  // ---------------------------------------------------------------------------

  /** Where Python raises: an index past the tokens, a label `int` refuses, or no match. */
  datatype TokenizeError = MissingLabelToken | BadLabel | MissingValueToken | BadValue

  /**
   * The loop from token `i` on, with `j` mentions made so far and bracket depth
   * `brackets`. After a `{` the loop steps over the label, `:`, the property name and
   * `=`, reads the value token, and goes on past it.
   */
  function Scan(tokens: seq<string>, i: nat, j: nat, brackets: int): Result<seq<Annotated>, TokenizeError>
    decreases |tokens| - i
  {
    if i >= |tokens| then Success([])
    else
      var depth := if tokens[i] == "}" then brackets - 1 else brackets;
      if tokens[i] != "{" then Scan(tokens, i + 1, j, depth)
      else match ReadMention(tokens, i, j, depth + 1)
        case Failure(e) => Failure(e)
        case Success(m) => Prepend([m], Scan(tokens, i + 6, j + 1, depth + 1))
  }

  /** A label token: a marker character followed by a decimal number, as in `M12`. */
  predicate LabelToken(t: string) {
    |t| > 1 && AllDigits(t[1..])
  }

  /**
   * The record for the `{` at token `i`, or the reason Python gives up on it: no label
   * token, a label that is not a number, no value token, or a value token the pattern
   * does not match, checked in that order. The record has id `j`, the label token's
   * number after its first character, `depth - 1` nested labels when the `{` brings the
   * depth above one, and the class and stripped text matched in token `i + 5`.
   */
  function ReadMention(tokens: seq<string>, i: nat, j: nat, depth: int): (r: Result<Annotated, TokenizeError>)
    ensures r == Failure(MissingLabelToken) <==> i + 1 >= |tokens|
    ensures r == Failure(BadLabel) <==> i + 1 < |tokens| && !LabelToken(tokens[i + 1])
    ensures r == Failure(MissingValueToken) <==> i + 1 < |tokens| && LabelToken(tokens[i + 1]) && i + 5 >= |tokens|
    ensures r == Failure(BadValue) <==>
      i + 5 < |tokens| && LabelToken(tokens[i + 1]) && ParseValue(tokens[i + 5]).None?
    ensures r.Success? ==>
      && i + 5 < |tokens| && LabelToken(tokens[i + 1]) && ParseValue(tokens[i + 5]).Some?
      && r.value.id == j
      && r.value.labels == [DigitsValue(tokens[i + 1][1..])]
      && r.value.numLabels == (if depth > 1 then depth - 1 else 0)
      && r.value.cls == ParseValue(tokens[i + 5]).value.0
      && r.value.text == Strip(ParseValue(tokens[i + 5]).value.1)
  {
    if i + 1 >= |tokens| then Failure(MissingLabelToken)
    else match ParseDecimal(DropFirst(tokens[i + 1]))
      case None => Failure(BadLabel)
      case Some(lbl) =>
        if i + 5 >= |tokens| then Failure(MissingValueToken)
        else match ParseValue(tokens[i + 5])
          case None => Failure(BadValue)
          case Some((cls, text)) => Success(Annotated(j, [lbl], if depth > 1 then depth - 1 else 0, cls, Strip(text)))
  }

  /** `ms` in front of a successful result; a failure stays a failure. */
  function Prepend(ms: seq<Annotated>, r: Result<seq<Annotated>, TokenizeError>): Result<seq<Annotated>, TokenizeError> {
    match r
    case Failure(e) => Failure(e)
    case Success(rest) => Success(ms + rest)
  }

  lemma PrependPrepend(ms: seq<Annotated>, m: Annotated, r: Result<seq<Annotated>, TokenizeError>)
    ensures Prepend(ms, Prepend([m], r)) == Prepend(ms + [m], r)
  {
    if r.Success? {
      assert ms + ([m] + r.value) == (ms + [m]) + r.value;
    }
  }

  /** Mention `k` of `ms` has id `j + k` and carries one label. */
  predicate NumberedFrom(ms: seq<Annotated>, j: nat) {
    forall k :: 0 <= k < |ms| ==> ms[k].id == j + k && |ms[k].labels| == 1
  }

  /** The mentions the scan makes are numbered on from `j` and carry one label each. */
  lemma {:induction false} ScanNumbers(tokens: seq<string>, i: nat, j: nat, brackets: int)
    ensures var r := Scan(tokens, i, j, brackets);
      r.Success? ==> NumberedFrom(r.value, j)
    decreases |tokens| - i
  {
    if i < |tokens| {
      var depth := if tokens[i] == "}" then brackets - 1 else brackets;
      if tokens[i] != "{" {
        ScanNumbers(tokens, i + 1, j, depth);
      } else if ReadMention(tokens, i, j, depth + 1).Success? {
        ScanNumbers(tokens, i + 6, j + 1, depth + 1);
      }
    }
  }

  /** One step of the scan at token `i`, after the depth has been adjusted for a `}`: a helper of the loop. */
  lemma ScanStep(tokens: seq<string>, i: nat, j: nat, brackets: int)
    requires i < |tokens|
    ensures var depth := if tokens[i] == "}" then brackets - 1 else brackets;
      && (tokens[i] != "{" ==> Scan(tokens, i, j, brackets) == Scan(tokens, i + 1, j, depth))
      && (tokens[i] == "{" ==> (Scan(tokens, i, j, brackets) ==
            match ReadMention(tokens, i, j, depth + 1)
            case Failure(e) => Failure(e)
            case Success(m) => Prepend([m], Scan(tokens, i + 6, j + 1, depth + 1))))
  {
  }

  /** What `tokenize_by_regex` returns for a whole annotation. */
  function Tokenized(annotation: string): Result<seq<Annotated>, TokenizeError> {
    Scan(SplitKeep(annotation), 0, 0, 0)
  }

  /**
   * `tokenize_by_regex`: the `while` loop over the split tokens, appending one record per
   * `{`. The exceptions Python would raise come back as a `Failure`.
   */
  method TokenizeByRegex(annotation: string) returns (r: Result<seq<Annotated>, TokenizeError>)
    ensures r == Tokenized(annotation)
    ensures r.Success? ==> NumberedFrom(r.value, 0)
  {
    var tokens := SplitKeep(annotation);
    var i: nat := 0;
    var j: nat := 0;
    var brackets: int := 0;
    var mentions: seq<Annotated> := [];
    assert Prepend([], Scan(tokens, 0, 0, 0)) == Scan(tokens, 0, 0, 0) by {
      if Scan(tokens, 0, 0, 0).Success? {
        assert [] + Scan(tokens, 0, 0, 0).value == Scan(tokens, 0, 0, 0).value;
      }
    }
    while i < |tokens|
      invariant |mentions| == j
      invariant Tokenized(annotation) == Prepend(mentions, Scan(tokens, i, j, brackets))
      decreases |tokens| - i
    {
      ScanStep(tokens, i, j, brackets);
      if tokens[i] == "}" {
        brackets := brackets - 1;
      }
      if tokens[i] == "{" {
        brackets := brackets + 1;
        var at := i + 1;
        if at >= |tokens| {
          return Failure(MissingLabelToken);
        }
        var lbl := ParseDecimal(DropFirst(tokens[at]));
        if lbl.None? {
          return Failure(BadLabel);
        }
        // skipping `:`, the property name and `=`
        at := at + 4;
        if at >= |tokens| {
          return Failure(MissingValueToken);
        }
        var found := ParseValue(tokens[at]);
        if found.None? {
          return Failure(BadValue);
        }
        var numLabels: nat := if brackets > 1 then brackets - 1 else 0;
        var mention := Annotated(j, [lbl.value], numLabels, found.value.0, Strip(found.value.1));
        assert ReadMention(tokens, i, j, brackets) == Success(mention);
        PrependPrepend(mentions, mention, Scan(tokens, i + 6, j + 1, brackets));
        mentions := mentions + [mention];
        j := j + 1;
        i := at;
      }
      i := i + 1;
    }
    assert mentions + [] == mentions;
    ScanNumbers(tokens, 0, 0, 0);
    return Success(mentions);
  }
}
