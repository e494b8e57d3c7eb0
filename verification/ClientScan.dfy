/** Text scanning in the API contract gate: the first argument of a call
    expression, and the line on which a character offset falls. */
module ClientScan {
  import opened Text

  // ---------------------------------------------------------------------------
  // The first argument of a call
  // ---------------------------------------------------------------------------

  predicate IsSpace(c: char) {
    c == ' ' || c == '\t' || c == '\n' || c == '\r'
  }

  function Strip(s: string): string
    decreases |s|
  {
    if s != [] && IsSpace(s[0]) then Strip(s[1..])
    else if s != [] && IsSpace(s[|s| - 1]) then Strip(s[..|s| - 1])
    else s
  }

  /** Stripping removes space from both ends, all of it and nothing else. */
  lemma {:induction false} StripMeaning(s: string) returns (left: nat)
    ensures left + |Strip(s)| <= |s| && Strip(s) == s[left..left + |Strip(s)|]
    ensures forall i :: 0 <= i < |s| && !(left <= i < left + |Strip(s)|) ==> s[i] in {' ', '\t', '\n', '\r'}
    ensures Strip(s) != [] ==> {Strip(s)[0], Strip(s)[|Strip(s)| - 1]} !! {' ', '\t', '\n', '\r'}
    decreases |s|
  {
    if s != [] && IsSpace(s[0]) {
      left := StripMeaning(s[1..]);
      assert forall i :: 1 <= i < |s| ==> s[i] == s[1..][i - 1];
      left := left + 1;
    } else if s != [] && IsSpace(s[|s| - 1]) {
      left := StripMeaning(s[..|s| - 1]);
    } else {
      left := 0;
    }
  }

  /** Where the argument being scanned ends, scanning on from i. */
  function ArgEnd(text: string, i: nat, depth: int, inStr: bool): (r: Option<nat>)
    requires inStr ==> i > 0
    ensures r.Some? ==> i <= r.value < |text|
    decreases |text| - i
  {
    if i >= |text| then None
    else if inStr then ArgEnd(text, i + 1, depth, !(text[i] == '\'' && text[i - 1] != '\\'))
    else if text[i] == '\'' then ArgEnd(text, i + 1, depth, true)
    else if text[i] == '(' then ArgEnd(text, i + 1, depth + 1, false)
    else if text[i] == ')' then if depth == 1 then Some(i) else ArgEnd(text, i + 1, depth - 1, false)
    else if text[i] == ',' && depth == 1 then Some(i)
    else ArgEnd(text, i + 1, depth, false)
  }

  function FirstArg(text: string, start: nat): Option<string> {
    match ArgEnd(text, start, 0, false)
    case None => None
    case Some(end) => if start < end then Some(Strip(text[start + 1..end])) else Some([])
  }

  /** None stands for the ValueError of an unbalanced call expression. */
  method ExtractFirstArg(text: string, start: nat) returns (arg: Option<string>)
    ensures arg == FirstArg(text, start)
  {
    var depth, i, inStr := 0, start, false;
    while i < |text|
      invariant inStr ==> i > start
      invariant i >= start
      invariant ArgEnd(text, start, 0, false) == ArgEnd(text, i, depth, inStr)
    {
      var c := text[i];
      if inStr {
        if c == '\'' && text[i - 1] != '\\' {
          inStr := false;
        }
      } else if c == '\'' {
        inStr := true;
      } else if c == '(' {
        depth := depth + 1;
      } else if c == ')' {
        depth := depth - 1;
        if depth == 0 {
          return Some(if start < i then Strip(text[start + 1..i]) else []);
        }
      } else if c == ',' && depth == 1 {
        return Some(if start < i then Strip(text[start + 1..i]) else []);
      }
      i := i + 1;
    }
    return None;
  }

  /** An argument expression: plain characters, quoted strings, nested calls. */
  datatype Arg =
    | Done
    | Chr(c: char, rest: Arg)
    | Quoted(body: string, rest: Arg)
    | Nested(args: Arg, rest: Arg)

  function PrintArg(arg: Arg): string {
    match arg
    case Done => []
    case Chr(c, rest) => [c] + PrintArg(rest)
    case Quoted(body, rest) => ['\''] + body + ['\''] + PrintArg(rest)
    case Nested(args, rest) => ['('] + PrintArg(args) + [')'] + PrintArg(rest)
  }

  /** Every quote inside the body is escaped. */
  predicate QuotesEscaped(body: string) {
    && (body != [] ==> body[0] != '\'')
    && (forall i, j :: 0 <= i < |body| && 0 <= j < |body| && j == i + 1 && body[j] == '\'' ==> body[i] == '\\')
  }

  predicate EndsInBackslash(body: string) {
    body != [] && body[|body| - 1] == '\\'
  }

  /** Every quote inside the body is escaped, and the closing quote is not. */
  predicate WellQuoted(body: string) {
    QuotesEscaped(body) && !EndsInBackslash(body)
  }

  predicate IsComma(arg: Arg) {
    arg.Chr? && arg.c == ','
  }

  predicate ItemFormed(arg: Arg)
    decreases arg, 0
  {
    match arg
    case Done => true
    case Chr(c, _) => c !in {'\'', '(', ')'}
    case Quoted(body, _) => WellQuoted(body)
    case Nested(args, _) => WellFormed(args, false)
  }

  /** Commas may appear below the top level only. */
  predicate WellFormed(arg: Arg, top: bool)
    decreases arg, 1
  {
    arg.Done? || (ItemFormed(arg) && !(top && IsComma(arg)) && WellFormed(arg.rest, top))
  }

  /** The printed length of the first item. */
  function Size(arg: Arg): nat {
    match arg
    case Done => 0
    case Chr(_, _) => 1
    case Quoted(body, _) => |body| + 2
    case Nested(args, _) => |PrintArg(args)| + 2
  }

  predicate At(text: string, i: nat, part: string) {
    i + |part| <= |text| && forall k {:trigger part[k]} :: 0 <= k < |part| ==> text[i + k] == part[k]
  }

  lemma AtSlice(text: string, i: nat, part: string)
    requires At(text, i, part)
    ensures text[i..i + |part|] == part
  {}

  lemma AtPrefix(text: string, i: nat, part: string, k: nat)
    requires At(text, i, part) && k <= |part|
    ensures text[i..i + k] == part[..k]
  {}

  lemma AtConcat(text: string, i: nat, a: string, b: string)
    requires At(text, i, a + b)
    ensures At(text, i, a) && At(text, i + |a|, b)
  {
    assert forall k :: 0 <= k < |a| ==> (a + b)[k] == a[k];
    assert forall k :: 0 <= k < |b| ==> (a + b)[|a| + k] == b[k];
  }

  /** The parts of a bracketed piece of text. */
  lemma AtBracketed(text: string, i: nat, l: char, inner: string, r: char, rest: string)
    requires At(text, i, [l] + inner + [r] + rest)
    ensures text[i] == l && At(text, i + 1, inner) && text[i + 1 + |inner|] == r && At(text, i + 1 + |inner| + 1, rest)
  {
    assert [l] + inner + [r] + rest == [l] + (inner + ([r] + rest));
    AtConcat(text, i, [l], inner + ([r] + rest));
    AtConcat(text, i + 1, inner, [r] + rest);
    AtConcat(text, i + 1 + |inner|, [r], rest);
    assert [l][0] == l && [r][0] == r;
  }

  lemma {:induction false} SkipQuoted(text: string, i: nat, k: nat, body: string, depth: int)
    requires At(text, i, body) && i + |body| < |text| && text[i + |body|] == '\'' && i > 0 && text[i - 1] == '\''
    requires WellQuoted(body) && k <= |body|
    ensures ArgEnd(text, i + k, depth, true) == ArgEnd(text, i + |body| + 1, depth, false)
    decreases |body| - k
  {
    if k < |body| {
      assert text[i + k] == body[k];
      assert k > 0 ==> text[i + k - 1] == body[k - 1];
      SkipQuoted(text, i, k + 1, body, depth);
    } else {
      assert body != [] ==> text[i + k - 1] == body[k - 1];
    }
  }

  lemma PrintedItem(arg: Arg)
    requires !arg.Done?
    ensures |PrintArg(arg)| == Size(arg) + |PrintArg(arg.rest)|
    ensures PrintArg(arg)[Size(arg)..] == PrintArg(arg.rest)
    ensures PrintArg(arg) == PrintArg(arg)[..Size(arg)] + PrintArg(arg.rest)
  {}

  lemma ItemParts(text: string, i: nat, arg: Arg)
    requires !arg.Done? && At(text, i, PrintArg(arg))
    ensures |PrintArg(arg)| == Size(arg) + |PrintArg(arg.rest)|
    ensures At(text, i + Size(arg), PrintArg(arg.rest))
  {
    PrintedItem(arg);
    AtConcat(text, i, PrintArg(arg)[..Size(arg)], PrintArg(arg.rest));
  }

  lemma PassChr(text: string, i: nat, arg: Arg, depth: int)
    requires arg.Chr? && At(text, i, PrintArg(arg)) && depth >= 1 && ItemFormed(arg) && !(depth == 1 && IsComma(arg))
    ensures ArgEnd(text, i, depth, false) == ArgEnd(text, i + 1, depth, false)
  {
    AtConcat(text, i, [arg.c], PrintArg(arg.rest));
    assert [arg.c][0] == arg.c;
  }

  lemma PassQuoted(text: string, i: nat, arg: Arg, depth: int)
    requires arg.Quoted? && At(text, i, PrintArg(arg)) && depth >= 1 && WellQuoted(arg.body)
    ensures ArgEnd(text, i, depth, false) == ArgEnd(text, i + |arg.body| + 2, depth, false)
  {
    AtBracketed(text, i, '\'', arg.body, '\'', PrintArg(arg.rest));
    SkipQuoted(text, i + 1, 0, arg.body, depth);
  }

  /** Brackets around text that the scan passes over. */
  lemma PassBrackets(text: string, i: nat, close: nat, depth: int)
    requires i < close < |text| && text[i] == '(' && text[close] == ')' && depth >= 1
    requires ArgEnd(text, i + 1, depth + 1, false) == ArgEnd(text, close, depth + 1, false)
    ensures ArgEnd(text, i, depth, false) == ArgEnd(text, close + 1, depth, false)
  {}

  lemma {:induction false} PassItem(text: string, i: nat, arg: Arg, depth: int)
    requires !arg.Done? && At(text, i, PrintArg(arg)) && depth >= 1 && ItemFormed(arg) && !(depth == 1 && IsComma(arg))
    ensures ArgEnd(text, i, depth, false) == ArgEnd(text, i + Size(arg), depth, false)
    decreases arg, 0
  {
    match arg
    case Chr(_, _) => PassChr(text, i, arg, depth);
    case Quoted(_, _) => PassQuoted(text, i, arg, depth);
    case Nested(args, rest) =>
      AtBracketed(text, i, '(', PrintArg(args), ')', PrintArg(rest));
      SkipArg(text, i + 1, args, depth + 1);
      PassBrackets(text, i, i + 1 + |PrintArg(args)|, depth);
  }

  /** Scanning passes over a well-formed argument without stopping in it. */
  lemma {:induction false} SkipArg(text: string, i: nat, arg: Arg, depth: int)
    requires At(text, i, PrintArg(arg)) && depth >= 1 && WellFormed(arg, depth == 1)
    ensures ArgEnd(text, i, depth, false) == ArgEnd(text, i + |PrintArg(arg)|, depth, false)
    decreases arg, 1
  {
    if !arg.Done? {
      ItemParts(text, i, arg);
      PassItem(text, i, arg, depth);
      SkipArg(text, i + Size(arg), arg.rest, depth);
    }
  }

  /** The text has a call at start, whose first argument is printed as arg and ended
      by sep. */
  predicate HasCall(text: string, start: nat, arg: string, sep: char) {
    && start + 1 + |arg| < |text| && text[start] == '(' && text[start + 1 + |arg|] == sep
    && At(text, start + 1, arg)
  }

  /** Every text around a call has it. */
  lemma CallInText(before: string, arg: string, sep: char, after: string)
    ensures HasCall(before + ['('] + arg + [sep] + after, |before|, arg, sep)
  {}

  lemma ScanEntersCall(text: string, start: nat)
    requires start < |text| && text[start] == '('
    ensures ArgEnd(text, start, 0, false) == ArgEnd(text, start + 1, 1, false)
  {}

  lemma ScanStops(text: string, end: nat)
    requires end < |text| && text[end] in {',', ')'}
    ensures ArgEnd(text, end, 1, false) == Some(end)
  {}

  /** The first argument of any call in any text is recovered, whatever strings,
      escaped quotes and nested calls it contains, with any commas inside those. */
  lemma FirstArgRecovered(text: string, start: nat, arg: Arg, sep: char)
    requires HasCall(text, start, PrintArg(arg), sep) && WellFormed(arg, true) && sep in {',', ')'}
    ensures FirstArg(text, start) == Some(Strip(PrintArg(arg)))
  {
    ScanOfCall(text, start, arg, sep);
    AtSlice(text, start + 1, PrintArg(arg));
    ArgBetween(text, start, start + 1 + |PrintArg(arg)|);
  }

  lemma ScanOfCall(text: string, start: nat, arg: Arg, sep: char)
    requires HasCall(text, start, PrintArg(arg), sep) && WellFormed(arg, true) && sep in {',', ')'}
    ensures ArgEnd(text, start, 0, false) == Some(start + 1 + |PrintArg(arg)|)
  {
    ScanEntersCall(text, start);
    SkipArg(text, start + 1, arg, 1);
    ScanStops(text, start + 1 + |PrintArg(arg)|);
  }

  lemma ArgBetween(text: string, start: nat, end: nat)
    requires start < end < |text| && ArgEnd(text, start, 0, false) == Some(end)
    ensures FirstArg(text, start) == Some(Strip(text[start + 1..end]))
  {}

  // ---------------------------------------------------------------------------
  // Commas outside parentheses
  // ---------------------------------------------------------------------------

  lemma {:induction false} StripKeeps(s: string, k: nat)
    requires k < |s| && !IsSpace(s[0]) && !IsSpace(s[k])
    ensures |Strip(s)| > k
    decreases |s|
  {
    if IsSpace(s[|s| - 1]) {
      StripKeeps(s[..|s| - 1], k);
    }
  }

  lemma {:induction false} StripShrinks(s: string)
    ensures |Strip(s)| <= |s|
    decreases |s|
  {
    if s != [] && IsSpace(s[0]) {
      StripShrinks(s[1..]);
    } else if s != [] && IsSpace(s[|s| - 1]) {
      StripShrinks(s[..|s| - 1]);
    }
  }

  /** What goes on after a piece of text is seen through the stripping. */
  lemma {:induction false} StripLonger(piece: string, c: char, rest: string)
    requires !IsSpace(c)
    ensures |Strip(piece + [c] + rest)| > |Strip(piece)|
    decreases |piece|
  {
    var whole := piece + [c] + rest;
    if piece != [] && IsSpace(piece[0]) {
      assert whole[1..] == piece[1..] + [c] + rest;
      StripLonger(piece[1..], c, rest);
    } else {
      StripShrinks(piece);
      StripKeeps(whole, |piece|);
    }
  }

  /** Where the first comma outside literals and parentheses is printed. */
  function CommaAt(arg: Arg): (k: nat)
    requires WellFormed(arg, false) && !WellFormed(arg, true)
    ensures k < |PrintArg(arg)| && PrintArg(arg)[k] == ','
  {
    if IsComma(arg) then 0
    else
      PrintedItem(arg);
      Size(arg) + CommaAt(arg.rest)
  }

  lemma {:induction false} StopsAtComma(text: string, i: nat, arg: Arg)
    requires At(text, i, PrintArg(arg)) && WellFormed(arg, false) && !WellFormed(arg, true)
    ensures ArgEnd(text, i, 1, false) == Some(i + CommaAt(arg))
    decreases arg
  {
    if IsComma(arg) {
      assert text[i] == PrintArg(arg)[0];
    } else {
      ItemParts(text, i, arg);
      PassItem(text, i, arg, 1);
      StopsAtComma(text, i + Size(arg), arg.rest);
    }
  }

  lemma CommaCutsArg(text: string, start: nat, arg: Arg, sep: char)
    requires HasCall(text, start, PrintArg(arg), sep) && WellFormed(arg, false) && !WellFormed(arg, true)
    ensures FirstArg(text, start) == Some(Strip(PrintArg(arg)[..CommaAt(arg)]))
  {
    ScanOfCut(text, start, arg, sep);
    ArgIsPrefix(text, start, PrintArg(arg), CommaAt(arg));
  }

  lemma ArgIsPrefix(text: string, start: nat, printed: string, k: nat)
    requires At(text, start + 1, printed) && k < |printed| && ArgEnd(text, start, 0, false) == Some(start + 1 + k)
    ensures FirstArg(text, start) == Some(Strip(printed[..k]))
  {
    AtPrefix(text, start + 1, printed, k);
    ArgBetween(text, start, start + 1 + k);
  }

  lemma ScanOfCut(text: string, start: nat, arg: Arg, sep: char)
    requires HasCall(text, start, PrintArg(arg), sep) && WellFormed(arg, false) && !WellFormed(arg, true)
    ensures ArgEnd(text, start, 0, false) == Some(start + 1 + CommaAt(arg))
  {
    ScanEntersCall(text, start);
    StopsAtComma(text, start + 1, arg);
  }

  /** Of the arguments built of characters, literals and balanced parentheses, exactly
      those without a comma outside literals and parentheses are recovered: square
      and curly brackets protect no comma. */
  lemma FirstArgExactly(text: string, start: nat, arg: Arg, sep: char)
    requires HasCall(text, start, PrintArg(arg), sep) && WellFormed(arg, false) && sep in {',', ')'}
    ensures FirstArg(text, start) == Some(Strip(PrintArg(arg))) <==> WellFormed(arg, true)
  {
    if WellFormed(arg, true) {
      FirstArgRecovered(text, start, arg, sep);
    } else {
      CommaCutsArg(text, start, arg, sep);
      CommaSeen(PrintArg(arg), CommaAt(arg));
    }
  }

  lemma CommaSeen(printed: string, k: nat)
    requires k < |printed| && printed[k] == ','
    ensures Strip(printed) != Strip(printed[..k])
  {
    assert printed == printed[..k] + [','] + printed[k + 1..];
    StripLonger(printed[..k], ',', printed[k + 1..]);
  }

  // ---------------------------------------------------------------------------
  // Literals that end in a backslash
  // ---------------------------------------------------------------------------

  /** A string literal's body as the language reads it: a backslash escapes the
      character after it, and no quote stands bare. */
  predicate Escaped(body: string) {
    || body == []
    || (body[0] == '\\' && |body| >= 2 && Escaped(body[2..]))
    || (body[0] != '\\' && body[0] != '\'' && Escaped(body[1..]))
  }

  /** Bodies are escaped character by character: by itself, or behind a backslash. */
  lemma EscapedParts(c: char, rest: string)
    ensures Escaped([]) && (Escaped(['\\', c] + rest) <==> Escaped(rest))
    ensures c != '\\' && c != '\'' ==> (Escaped([c] + rest) <==> Escaped(rest))
    ensures !Escaped(['\''] + rest) && !Escaped(['\\'])
  {
    assert (['\\', c] + rest)[2..] == rest && ([c] + rest)[1..] == rest;
  }

  lemma {:induction false} EscapedQuotes(body: string)
    requires Escaped(body)
    ensures QuotesEscaped(body)
  {
    if body != [] {
      var n := if body[0] == '\\' then 2 else 1;
      EscapedQuotes(body[n..]);
      assert forall i :: n <= i < |body| ==> body[i] == body[n..][i - n];
    }
  }

  /** The scan looks back one character only: it finds the end of a well-escaped
      literal if and only if the literal does not end in a backslash. */
  lemma QuotedExactly(body: string)
    requires Escaped(body)
    ensures WellQuoted(body) <==> !EndsInBackslash(body)
  {
    EscapedQuotes(body);
  }

  /** A literal that ends in a backslash is still open after its closing quote. */
  lemma {:induction false} StillQuoted(text: string, i: nat, k: nat, body: string, depth: int)
    requires At(text, i, body) && i + |body| < |text| && text[i + |body|] == '\'' && i > 0 && k <= |body|
    requires EndsInBackslash(body) && QuotesEscaped(body)
    ensures ArgEnd(text, i + k, depth, true) == ArgEnd(text, i + |body| + 1, depth, true)
    decreases |body| - k
  {
    if k < |body| {
      assert text[i + k] == body[k];
      assert k > 0 ==> text[i + k - 1] == body[k - 1];
      StillQuoted(text, i, k + 1, body, depth);
    } else {
      assert text[i + k - 1] == body[k - 1];
    }
  }

  function Literal(body: string): string {
    ['\''] + body + ['\'']
  }

  lemma LiteralParts(text: string, i: nat, body: string)
    requires At(text, i, Literal(body))
    ensures text[i] == '\'' && At(text, i + 1, body) && text[i + 1 + |body|] == '\''
  {
    assert ['\''] + body + ['\''] + [] == Literal(body);
    AtBracketed(text, i, '\'', body, '\'', []);
  }

  /** After the closing quote of such a literal the scan is still inside it. */
  lemma ScanStaysQuoted(text: string, start: nat, body: string, sep: char)
    requires HasCall(text, start, Literal(body), sep) && Escaped(body) && EndsInBackslash(body)
    ensures ArgEnd(text, start, 0, false) == ArgEnd(text, start + |body| + 3, 1, true)
  {
    LiteralParts(text, start + 1, body);
    EscapedQuotes(body);
    ScanFrom(text, start, body);
  }

  lemma ScanFrom(text: string, start: nat, body: string)
    requires start + 2 + |body| < |text| && text[start] == '(' && text[start + 1] == '\''
    requires At(text, start + 2, body) && text[start + 2 + |body|] == '\''
    requires QuotesEscaped(body) && EndsInBackslash(body)
    ensures ArgEnd(text, start, 0, false) == ArgEnd(text, start + |body| + 3, 1, true)
  {
    ScanEntersCall(text, start);
    OpensQuote(text, start + 1);
    StillQuoted(text, start + 2, 0, body, 1);
  }

  lemma OpensQuote(text: string, i: nat)
    requires i < |text| && text[i] == '\''
    ensures ArgEnd(text, i, 1, false) == ArgEnd(text, i + 1, 1, true)
  {}

  lemma StaysQuoted(text: string, i: nat)
    requires 0 < i < |text| && text[i] != '\''
    ensures ArgEnd(text, i, 1, true) == ArgEnd(text, i + 1, 1, true)
  {}

  /** The scan finds no argument, or one that reaches beyond the literal. */
  lemma LiteralLost(text: string, start: nat, body: string, sep: char)
    requires HasCall(text, start, Literal(body), sep) && sep in {',', ')'}
    requires Escaped(body) && EndsInBackslash(body)
    ensures var arg := FirstArg(text, start);
            arg.Some? ==> |arg.value| > |Literal(body)|
  {
    var n := |Literal(body)|;
    ScanStaysQuoted(text, start, body, sep);
    StaysQuoted(text, start + 1 + n);
    LiteralParts(text, start + 1, body);
    var end := ArgEnd(text, start, 0, false);
    if end.Some? {
      var arg := text[start + 1..end.value];
      assert arg[0] == '\'' && arg[n] == sep;
      StripKeeps(arg, n);
    }
  }

  lemma LiteralKept(text: string, start: nat, body: string, sep: char)
    requires HasCall(text, start, Literal(body), sep) && sep in {',', ')'}
    requires Escaped(body) && !EndsInBackslash(body)
    ensures FirstArg(text, start) == Some(Literal(body))
  {
    var arg := Quoted(body, Done);
    QuotedExactly(body);
    assert ItemFormed(arg);
    assert PrintArg(arg) == Literal(body);
    FirstArgRecovered(text, start, arg, sep);
  }

  /** A well-escaped literal as first argument, anywhere in a file, is read correctly
      if and only if it does not end in a backslash. */
  lemma LiteralCallExactly(text: string, start: nat, body: string, sep: char)
    requires HasCall(text, start, Literal(body), sep) && sep in {',', ')'} && Escaped(body)
    ensures FirstArg(text, start) == Some(Literal(body)) <==> !EndsInBackslash(body)
  {
    if EndsInBackslash(body) {
      LiteralLost(text, start, body, sep);
    } else {
      LiteralKept(text, start, body, sep);
    }
  }

  /** No quote stands at i or beyond. */
  predicate QuoteFree(text: string, i: nat)
    decreases |text| - i
  {
    i >= |text| || (text[i] != '\'' && QuoteFree(text, i + 1))
  }

  lemma {:induction false} NeverClosed(text: string, i: nat)
    requires 0 < i <= |text| && QuoteFree(text, i)
    ensures ArgEnd(text, i, 1, true) == None
    decreases |text| - i
  {
    if i < |text| {
      NeverClosed(text, i + 1);
    }
  }

  /** One way to fail: with no quote in the rest of the file the call counts as
      unbalanced. */
  lemma LiteralUnbalanced(text: string, start: nat, body: string, sep: char)
    requires HasCall(text, start, Literal(body), sep) && Escaped(body) && EndsInBackslash(body)
    requires QuoteFree(text, start + |body| + 3)
    ensures FirstArg(text, start) == None
  {
    ScanStaysQuoted(text, start, body, sep);
    NoArg(text, start, start + |body| + 3);
  }

  lemma NoArg(text: string, start: nat, i: nat)
    requires 0 < i <= |text| && ArgEnd(text, start, 0, false) == ArgEnd(text, i, 1, true) && QuoteFree(text, i)
    ensures FirstArg(text, start) == None
  {
    NeverClosed(text, i);
  }

  /** The other: a quote further on makes the scan return what is not an argument. */
  lemma LiteralWrongArgument(text: string, start: nat, body: string)
    requires HasCall(text, start, Literal(body) + ")'", ')') && Escaped(body) && EndsInBackslash(body)
    ensures FirstArg(text, start) == Some(Literal(body) + ")'")
  {
    var wrong := Literal(body) + ")'";
    var i := start + |body| + 3;
    AtConcat(text, start + 1, Literal(body), ")'");
    assert text[i] == ")'"[0] && text[i + 1] == ")'"[1];
    AtSlice(text, start + 1, wrong);
    ScanStaysQuoted(text, start, body, ')');
    StaysQuoted(text, i);
    ScanStops(text, i + 2);
    assert ArgEnd(text, i + 1, 1, true) == ArgEnd(text, i + 2, 1, false);
    assert Strip(wrong) == wrong;
  }

  // ---------------------------------------------------------------------------
  // Offsets and lines
  // ---------------------------------------------------------------------------

  /** The offset of line i in text whose lines end in one newline character. */
  function LineStart(lines: seq<string>, i: nat): nat
    requires i <= |lines|
  {
    if i == 0 then 0 else LineStart(lines, i - 1) + |lines[i - 1]| + 1
  }

  lemma {:induction false} LineStartsIncrease(lines: seq<string>, i: nat, j: nat)
    requires i < j <= |lines|
    ensures LineStart(lines, i) < LineStart(lines, j)
  {
    if i < j - 1 {
      LineStartsIncrease(lines, i, j - 1);
    }
  }

  method LineStarts(lines: seq<string>) returns (offsets: seq<nat>)
    ensures |offsets| == |lines|
    ensures forall k :: 0 <= k < |lines| ==> offsets[k] == LineStart(lines, k)
  {
    offsets := [];
    var pos := 0;
    for i := 0 to |lines|
      invariant |offsets| == i && pos == LineStart(lines, i)
      invariant forall k :: 0 <= k < i ==> offsets[k] == LineStart(lines, k)
    {
      offsets := offsets + [pos];
      pos := pos + |lines[i]| + 1;
    }
  }

  /** Binary search for the last start that is not beyond the offset. */
  method LineOf(lines: seq<string>, offset: nat) returns (line: nat)
    requires lines != []
    ensures line < |lines| && LineStart(lines, line) <= offset
    ensures line + 1 < |lines| ==> offset < LineStart(lines, line + 1)
  {
    var offsets := LineStarts(lines);
    var lo, hi := 0, |offsets| - 1;
    while lo < hi
      invariant 0 <= lo <= hi < |offsets|
      invariant offsets[lo] <= offset
      invariant hi + 1 < |offsets| ==> offset < offsets[hi + 1]
    {
      var mid := (lo + hi + 1) / 2;
      if offsets[mid] <= offset {
        lo := mid;
      } else {
        hi := mid - 1;
      }
    }
    line := lo;
  }

  /** The line found is the one whose text is at that offset. */
  lemma {:induction false} LineText(lines: seq<string>, i: nat)
    requires i < |lines|
    ensures At(Join(lines, '\n'), LineStart(lines, i), lines[i])
    decreases |lines|
  {
    if |lines| > 1 && i > 0 {
      LineText(lines[1..], i - 1);
      LineStartShift(lines, i);
      AtAfter(lines[0] + ['\n'], Join(lines[1..], '\n'), LineStart(lines[1..], i - 1), lines[i]);
    }
  }

  lemma AtAfter(front: string, text: string, i: nat, part: string)
    requires At(text, i, part)
    ensures At(front + text, |front| + i, part)
  {}

  lemma {:induction false} LineStartShift(lines: seq<string>, i: nat)
    requires 0 < i <= |lines|
    ensures LineStart(lines, i) == |lines[0]| + 1 + LineStart(lines[1..], i - 1)
  {
    if i > 1 {
      LineStartShift(lines, i - 1);
    }
  }
}
