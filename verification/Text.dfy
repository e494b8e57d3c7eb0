/** Strings as the three source languages use them: splitting and joining on a
    separator, suffix tests, and ASCII case folding. */
module Text {

  datatype Option<+T> = None | Some(value: T)

  /** Separator-delimited pieces of s, the empty ones included. */
  function Split(s: string, sep: char): (parts: seq<string>)
    ensures |parts| >= 1
    ensures forall i :: 0 <= i < |parts| ==> sep !in parts[i] && |parts[i]| <= |s|
  {
    if s == [] then [[]]
    else
      var rest := Split(s[1..], sep);
      if s[0] == sep then [[]] + rest else [[s[0]] + rest[0]] + rest[1..]
  }

  function Join(parts: seq<string>, sep: char): string
    requires |parts| >= 1
  {
    if |parts| == 1 then parts[0] else parts[0] + [sep] + Join(parts[1..], sep)
  }

  lemma {:induction false} JoinSplit(s: string, sep: char)
    ensures Join(Split(s, sep), sep) == s
  {
    if s != [] {
      JoinSplit(s[1..], sep);
      var rest := Split(s[1..], sep);
      if s[0] == sep {
        assert ([[]] + rest)[1..] == rest;
      } else {
        var parts := [[s[0]] + rest[0]] + rest[1..];
        assert parts[1..] == rest[1..];
        assert |parts| > 1 ==>
          parts[0] + [sep] + Join(parts[1..], sep) == [s[0]] + (rest[0] + [sep] + Join(rest[1..], sep));
      }
    }
  }

  /** Splitting peels off a separator-free first piece. */
  lemma {:induction false} SplitFirst(piece: string, tail: string, sep: char)
    requires sep !in piece
    ensures Split(piece, sep) == [piece]
    ensures Split(piece + [sep] + tail, sep) == [piece] + Split(tail, sep)
  {
    if piece == [] {
      assert piece + [sep] + tail == [sep] + tail;
      assert ([sep] + tail)[1..] == tail;
    } else {
      SplitFirst(piece[1..], tail, sep);
      assert [piece[0]] + piece[1..] == piece;
      var whole := piece + [sep] + tail;
      assert whole[1..] == piece[1..] + [sep] + tail;
    }
  }

  lemma {:induction false} SplitJoin(parts: seq<string>, sep: char)
    requires |parts| >= 1 && forall i :: 0 <= i < |parts| ==> sep !in parts[i]
    ensures Split(Join(parts, sep), sep) == parts
  {
    if |parts| == 1 {
      SplitFirst(parts[0], [], sep);
    } else {
      SplitJoin(parts[1..], sep);
      SplitFirst(parts[0], Join(parts[1..], sep), sep);
    }
  }

  predicate HasSuffix(s: string, suffix: string) {
    |suffix| <= |s| && s[|s| - |suffix|..] == suffix
  }

  function LowerChar(c: char): char {
    if 'A' <= c <= 'Z' then (c as int + 32) as char else c
  }

  function Lower(s: string): (r: string)
    ensures |r| == |s| && forall i :: 0 <= i < |s| ==> r[i] == LowerChar(s[i])
  {
    seq(|s|, i requires 0 <= i < |s| => LowerChar(s[i]))
  }

  lemma LowerIdempotent(s: string)
    ensures Lower(Lower(s)) == Lower(s)
  {}

  lemma LowerAppend(a: string, b: string)
    ensures Lower(a + b) == Lower(a) + Lower(b)
  {}

  /** The label list of whole ends with the label list of part. */
  ghost predicate LabelSuffix(part: string, whole: string) {
    var p, w := Split(part, '.'), Split(whole, '.');
    |p| <= |w| && w[|w| - |p|..] == p
  }

  lemma {:induction false} JoinAppend(a: seq<string>, b: seq<string>, sep: char)
    requires |a| >= 1 && |b| >= 1
    ensures Join(a + b, sep) == Join(a, sep) + [sep] + Join(b, sep)
  {
    if |a| == 1 {
      assert (a + b)[1..] == b;
    } else {
      JoinAppend(a[1..], b, sep);
      assert (a + b)[1..] == a[1..] + b;
    }
  }

  lemma SplitAppend(a: string, b: string, sep: char)
    ensures Split(a + [sep] + b, sep) == Split(a, sep) + Split(b, sep)
  {
    var l, r := Split(a, sep), Split(b, sep);
    JoinSplit(a, sep);
    JoinSplit(b, sep);
    JoinAppend(l, r, sep);
    SplitJoin(l + r, sep);
  }

  lemma SuffixOfConcat(front: string, tail: string)
    ensures HasSuffix(front + tail, tail)
  {
    assert (front + tail)[|front|..] == tail;
  }

  /** A character-level test for a label suffix: equal, or preceded by a dot. */
  lemma LabelSuffixByChars(part: string, whole: string)
    ensures LabelSuffix(part, whole) <==> whole == part || HasSuffix(whole, ['.'] + part)
  {
    JoinSplit(part, '.');
    JoinSplit(whole, '.');
    if LabelSuffix(part, whole) && whole != part {
      LabelSuffixToChars(part, whole);
    }
    if HasSuffix(whole, ['.'] + part) {
      LabelSuffixFromChars(part, whole);
    }
  }

  lemma LabelSuffixToChars(part: string, whole: string)
    requires LabelSuffix(part, whole) && whole != part
    ensures HasSuffix(whole, ['.'] + part)
  {
    var p, w := Split(part, '.'), Split(whole, '.');
    JoinSplit(part, '.');
    JoinSplit(whole, '.');
    var front := w[..|w| - |p|];
    assert w == front + p;
    if front != [] {
      JoinedSuffix(front, p);
    }
  }

  lemma SuffixAfterDot(front: string, tail: string)
    ensures HasSuffix(front + ['.'] + tail, ['.'] + tail)
  {
    assert front + ['.'] + tail == front + (['.'] + tail);
    SuffixOfConcat(front, ['.'] + tail);
  }

  lemma JoinedSuffix(front: seq<string>, p: seq<string>)
    requires |front| >= 1 && |p| >= 1
    ensures HasSuffix(Join(front + p, '.'), ['.'] + Join(p, '.'))
  {
    JoinAppend(front, p, '.');
    SuffixAfterDot(Join(front, '.'), Join(p, '.'));
  }

  lemma LabelSuffixFromChars(part: string, whole: string)
    requires HasSuffix(whole, ['.'] + part)
    ensures LabelSuffix(part, whole)
  {
    var front := whole[..|whole| - |part| - 1];
    var tail := ['.'] + part;
    assert |whole| - |tail| == |front| && whole[|front|..] == tail;
    assert whole == front + tail;
    assert front + tail == front + ['.'] + part;
    SplitAppend(front, part, '.');
  }
}
