/**
 * The string primitives of JavaScript that the modelled code relies on:
 * `trim`, the regex class `\s`, `toLowerCase`/`toUpperCase` (over ASCII),
 * `includes`, `split` on one character, `join`, and the decimal rendering
 * of a non-negative integer that a template literal performs.
 */
module Text {
  import opened Lists

  /** The ASCII members of ECMAScript's WhiteSpace and LineTerminator sets:
      space, tab, line feed, vertical tab, form feed and carriage return. */
  predicate IsWhitespace(c: char) {
    c == ' ' || ('\t' <= c <= '\r')
  }

  predicate AllWhitespace(s: string) {
    forall i :: 0 <= i < |s| ==> IsWhitespace(s[i])
  }

  predicate NoWhitespace(s: string) {
    forall i :: 0 <= i < |s| ==> !IsWhitespace(s[i])
  }

  /** A string that `trim` leaves alone: it neither starts nor ends with whitespace. */
  predicate Trimmed(s: string) {
    s == [] || (!IsWhitespace(s[0]) && !IsWhitespace(s[|s| - 1]))
  }

  /** `trimStart`: the suffix left after the longest all-whitespace prefix. */
  function TrimStart(s: string): (r: string)
    ensures |r| <= |s| && r == s[|s| - |r|..]
    ensures r == [] || !IsWhitespace(r[0])
    ensures forall i :: 0 <= i < |s| - |r| ==> IsWhitespace(s[i])
  {
    if s != [] && IsWhitespace(s[0]) then
      var t := s[1..];
      var r := TrimStart(t);
      assert t[|t| - |r|..] == s[|s| - |r|..];
      assert forall i :: 1 <= i < |s| - |r| ==> s[i] == t[i - 1];
      r
    else s
  }

  /** `trimEnd`: the prefix left after the longest all-whitespace suffix. */
  function TrimEnd(s: string): (r: string)
    ensures |r| <= |s| && r == s[..|r|]
    ensures r == [] || !IsWhitespace(r[|r| - 1])
    ensures forall i :: |r| <= i < |s| ==> IsWhitespace(s[i])
  {
    if s != [] && IsWhitespace(s[|s| - 1]) then TrimEnd(s[..|s| - 1]) else s
  }

  /** `String.prototype.trim`. */
  function Trim(s: string): (r: string)
    ensures Trimmed(r)
    ensures r == [] <==> AllWhitespace(s)
    ensures |r| <= |s|
  {
    var t := TrimStart(s);
    var r := TrimEnd(t);
    assert r != [] ==> !IsWhitespace(r[0]) by {
      if r != [] { assert r[0] == t[0]; }
    }
    r
  }

  /** The test `!s.trim()`, i.e. `s.trim()` is the empty string; by the contract of
      `Trim` that holds exactly when every character of `s` is whitespace (see `BlankIffTrimEmpty`). */
  predicate IsBlank(s: string) {
    AllWhitespace(s)
  }

  lemma {:induction false} TrimOfTrimmed(s: string)
    requires Trimmed(s)
    ensures Trim(s) == s
  {
    assert TrimStart(s) == s;
    assert TrimEnd(s) == s;
  }

  /** Trimming ignores whitespace added in front. */
  lemma {:induction false} TrimSkipsLeadingWhitespace(c: char, s: string)
    requires IsWhitespace(c)
    ensures Trim([c] + s) == Trim(s)
  {
    assert ([c] + s)[1..] == s;
  }

  /** Trimming is idempotent. */
  lemma TrimIdempotent(s: string)
    ensures Trim(Trim(s)) == Trim(s)
  {
    TrimOfTrimmed(Trim(s));
  }

  /** Every character of `Trim(s)` is a character of `s`. */
  lemma TrimKeepsOnlyItsChars(s: string, c: char)
    requires c !in s
    ensures c !in Trim(s)
  {
    var t := TrimStart(s);
    var r := TrimEnd(t);
    assert r == Trim(s);
    forall i | 0 <= i < |r| ensures r[i] != c {
      assert r[i] == t[i] == s[|s| - |t| + i];
    }
  }

  lemma BlankIffTrimEmpty(s: string)
    ensures IsBlank(s) <==> Trim(s) == []
  {
  }

  // ---------------------------------------------------------------- case

  function LowerChar(c: char): char {
    if 'A' <= c <= 'Z' then (c as int + 32) as char else c
  }

  function UpperChar(c: char): char {
    if 'a' <= c <= 'z' then (c as int - 32) as char else c
  }

  /** `toLowerCase`, over ASCII letters. */
  function ToLower(s: string): (r: string)
    ensures |r| == |s|
    ensures forall i :: 0 <= i < |s| ==> r[i] == LowerChar(s[i])
  {
    if s == [] then [] else [LowerChar(s[0])] + ToLower(s[1..])
  }

  /** `toUpperCase`, over ASCII letters. */
  function ToUpper(s: string): (r: string)
    ensures |r| == |s|
    ensures forall i :: 0 <= i < |s| ==> r[i] == UpperChar(s[i])
  {
    if s == [] then [] else [UpperChar(s[0])] + ToUpper(s[1..])
  }

  // ---------------------------------------------------------------- search

  predicate IsPrefix(p: string, s: string) {
    |p| <= |s| && s[..|p|] == p
  }

  predicate OccursAt(sub: string, s: string, i: int) {
    0 <= i && i + |sub| <= |s| && s[i..i + |sub|] == sub
  }

  /** `s.includes(sub)`: `sub` occurs in `s` at some position. */
  function Contains(s: string, sub: string): (r: bool)
    ensures r <==> exists i :: OccursAt(sub, s, i)
    decreases |s|
  {
    if IsPrefix(sub, s) then
      assert OccursAt(sub, s, 0);
      true
    else if s == [] then
      false
    else
      var r := Contains(s[1..], sub);
      assert forall i :: OccursAt(sub, s[1..], i) <==> OccursAt(sub, s, i + 1) by {
        forall i ensures OccursAt(sub, s[1..], i) <==> OccursAt(sub, s, i + 1) {
          if 0 <= i && i + |sub| <= |s[1..]| { assert s[1..][i..i + |sub|] == s[i + 1..i + 1 + |sub|]; }
        }
      }
      assert !OccursAt(sub, s, 0);
      assert r ==> exists i :: OccursAt(sub, s, i) by {
        if r { var i :| OccursAt(sub, s[1..], i); assert OccursAt(sub, s, i + 1); }
      }
      assert (exists i :: OccursAt(sub, s, i)) ==> r by {
        if exists i :: OccursAt(sub, s, i) {
          var i :| OccursAt(sub, s, i);
          assert i != 0;
          assert OccursAt(sub, s[1..], i - 1);
        }
      }
      r
  }

  // ---------------------------------------------------------------- split and join

  /** `xs.join(sep)`. */
  function Join(xs: seq<string>, sep: string): string {
    if |xs| == 0 then ""
    else if |xs| == 1 then xs[0]
    else xs[0] + sep + Join(xs[1..], sep)
  }

  /** `s.split(c)` for a one-character separator: the maximal pieces between
      occurrences of `c`; an empty string gives one empty piece. */
  function Split(s: string, c: char): (r: seq<string>)
    ensures |r| >= 1
    ensures forall k :: 0 <= k < |r| ==> c !in r[k]
    ensures Join(r, [c]) == s
  {
    if s == [] then [""]
    else
      var rest := Split(s[1..], c);
      if s[0] == c then
        assert Join([""] + rest, [c]) == [c] + Join(rest, [c]) by {
          assert ([""] + rest)[1..] == rest;
        }
        [""] + rest
      else
        var r := [[s[0]] + rest[0]] + rest[1..];
        assert Join(r, [c]) == [s[0]] + Join(rest, [c]) by {
          if |rest| > 1 { assert r[1..] == rest[1..]; }
        }
        assert s == [s[0]] + s[1..];
        r
  }

  /** Splitting a piece that does not contain the separator, followed by the separator. */
  lemma {:induction false} SplitAfterPiece(x: string, c: char, y: string)
    requires c !in x
    ensures Split(x + [c] + y, c) == [x] + Split(y, c)
    decreases |x|
  {
    if x == [] {
      assert x + [c] + y == [c] + y;
      assert ([c] + y)[1..] == y;
    } else {
      assert (x + [c] + y)[1..] == x[1..] + [c] + y;
      SplitAfterPiece(x[1..], c, y);
      assert [x[0]] + x[1..] == x;
    }
  }

  /** A last piece without the separator, after the separator, becomes the last field. */
  lemma {:induction false} SplitBeforeLast(x: string, c: char, y: string)
    requires c !in y
    ensures Split(x + [c] + y, c) == Split(x, c) + [y]
    decreases |x|
  {
    if x == [] {
      assert x + [c] + y == [c] + y;
      assert ([c] + y)[1..] == y;
      SplitWithoutSeparator(y, c);
    } else {
      var w := x[1..] + [c] + y;
      assert x + [c] + y == [x[0]] + w;
      assert x == [x[0]] + x[1..];
      SplitBeforeLast(x[1..], c, y);
      if x[0] == c {
        assert ([x[0]] + w)[1..] == w;
      } else {
        SplitConsChar(x[0], w, c);
        SplitConsChar(x[0], x[1..], c);
      }
    }
  }

  /** Splitting a string without the separator gives the string itself. */
  lemma {:induction false} SplitWithoutSeparator(x: string, c: char)
    requires c !in x
    ensures Split(x, c) == [x]
    decreases |x|
  {
    if x != [] {
      SplitWithoutSeparator(x[1..], c);
      assert [x[0]] + x[1..] == x;
    }
  }

  /** A character in front of the input (not the separator) lands in the first piece. */
  lemma {:induction false} SplitConsChar(a: char, y: string, c: char)
    requires a != c
    ensures var r := Split([a] + y, c); var q := Split(y, c);
      |r| == |q| && r[0] == [a] + q[0] && r[1..] == q[1..]
  {
    assert ([a] + y)[1..] == y;
  }

  /** An item that survives a round trip through a `", "`-joined list: non-empty,
      without surrounding whitespace, without a comma. */
  predicate IsListItem(s: string) {
    s != [] && Trimmed(s) && ',' !in s
  }

  /** The pieces that splitting a `", "`-joined list on ',' produces. */
  lemma {:induction false} SplitJoined(xs: seq<string>)
    requires xs != [] && forall i :: 0 <= i < |xs| ==> ',' !in xs[i]
    ensures var r := Split(Join(xs, ", "), ',');
      |r| == |xs| && r[0] == xs[0] && forall i :: 1 <= i < |xs| ==> r[i] == " " + xs[i]
  {
    if |xs| == 1 {
      SplitWithoutSeparator(xs[0], ',');
    } else {
      var rest := xs[1..];
      SplitJoined(rest);
      var tail := Join(rest, ", ");
      assert Join(xs, ", ") == xs[0] + [','] + (" " + tail);
      SplitAfterPiece(xs[0], ',', " " + tail);
      SplitConsChar(' ', tail, ',');
      var q := Split(tail, ',');
      var r := Split(Join(xs, ", "), ',');
      assert r == [xs[0]] + Split(" " + tail, ',');
      forall i | 1 <= i < |xs| ensures r[i] == " " + xs[i] {
        if i == 1 {
          assert r[1] == Split(" " + tail, ',')[0] == " " + q[0];
        } else {
          assert r[i] == Split(" " + tail, ',')[i - 1] == q[i - 1];
        }
      }
    }
  }

  /** Trimming the pieces of a `", "`-joined list of list items gives the list back. */
  lemma TrimmedPieces(xs: seq<string>)
    requires xs != [] && forall i :: 0 <= i < |xs| ==> IsListItem(xs[i])
    ensures Map(Split(Join(xs, ", "), ','), Trim) == xs
  {
    SplitJoined(xs);
    var pieces := Split(Join(xs, ", "), ',');
    forall i | 0 <= i < |xs| ensures Trim(pieces[i]) == xs[i] {
      TrimOfTrimmed(xs[i]);
      if i > 0 {
        assert pieces[i] == [' '] + xs[i];
        TrimSkipsLeadingWhitespace(' ', xs[i]);
      }
    }
  }

  // ---------------------------------------------------------------- decimal rendering

  predicate IsDigit(c: char) {
    '0' <= c <= '9'
  }

  function DigitChar(d: nat): (c: char)
    requires d < 10
    ensures IsDigit(c) && c as int - '0' as int == d
  {
    ('0' as int + d) as char
  }

  /** The decimal rendering of a non-negative number, as a template literal prints it. */
  function NatToString(n: nat): (r: string)
    ensures |r| >= 1
    ensures forall i :: 0 <= i < |r| ==> IsDigit(r[i])
  {
    if n < 10 then [DigitChar(n)] else NatToString(n / 10) + [DigitChar(n % 10)]
  }

  /** The value of a string of decimal digits; partner of `NatToString`. */
  function DecimalValue(s: string): nat
    requires forall i :: 0 <= i < |s| ==> IsDigit(s[i])
  {
    if s == [] then 0
    else
      assert IsDigit(s[|s| - 1]);
      10 * DecimalValue(s[..|s| - 1]) + (s[|s| - 1] as int - '0' as int)
  }

  lemma {:induction false} DecimalRoundTrip(n: nat)
    ensures DecimalValue(NatToString(n)) == n
  {
    var s := NatToString(n);
    if n >= 10 {
      DecimalRoundTrip(n / 10);
      assert s[..|s| - 1] == NatToString(n / 10);
    }
  }

  lemma NatToStringInjective(a: nat, b: nat)
    requires NatToString(a) == NatToString(b)
    ensures a == b
  {
    DecimalRoundTrip(a);
    DecimalRoundTrip(b);
  }
}
