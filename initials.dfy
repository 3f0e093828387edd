/**
 * The avatar initials of the navigation bar (src/components/Navigation.tsx,
 * `getUserInitials`): the first character of each space-separated word, joined,
 * upper-cased and cut to two characters.
 */
module Initials {
  import opened Text
  import opened Lists

  /** `n[0]` joined into a string: an empty word gives `undefined`, which `join` renders
      as the empty string. */
  function FirstChar(w: string): string {
    if w == "" then "" else [w[0]]
  }

  /** `s.slice(0, n)`. */
  function Take(s: string, n: nat): (r: string)
    ensures |r| == if |s| <= n then |s| else n
    ensures r == s[..|r|]
  {
    if |s| <= n then s else s[..n]
  }

  function UserInitials(name: string): (r: string)
    ensures |r| <= 2
  {
    Take(ToUpper(Join(Map(Split(name, ' '), FirstChar), "")), 2)
  }

  predicate NonEmpty(w: string) {
    w != ""
  }

  /** The words of a name: the pieces between single spaces that are not empty. */
  function Words(name: string): (ws: seq<string>)
    ensures forall i :: 0 <= i < |ws| ==> ws[i] != ""
  {
    Filter(Split(name, ' '), NonEmpty)
  }

  /** The first character of each of the given non-empty words. */
  function Heads(ws: seq<string>): (r: string)
    requires forall i :: 0 <= i < |ws| ==> ws[i] != ""
    ensures |r| == |ws| && forall i :: 0 <= i < |ws| ==> r[i] == ws[i][0]
  {
    if ws == [] then "" else [ws[0][0]] + Heads(ws[1..])
  }

  /** Joining the first characters with nothing between them skips the empty words. */
  lemma {:induction false} JoinedFirstChars(ws: seq<string>)
    ensures Join(Map(ws, FirstChar), "") == Heads(Filter(ws, NonEmpty))
    decreases |ws|
  {
    if ws != [] {
      JoinedFirstChars(ws[1..]);
      var m := Map(ws, FirstChar);
      assert m == [FirstChar(ws[0])] + Map(ws[1..], FirstChar);
      JoinCons(FirstChar(ws[0]), Map(ws[1..], FirstChar));
      var rest := Filter(ws[1..], NonEmpty);
      if NonEmpty(ws[0]) {
        assert Filter(ws, NonEmpty) == [ws[0]] + rest;
        assert ([ws[0]] + rest)[1..] == rest;
      }
    }
  }

  lemma JoinCons(x: string, ys: seq<string>)
    ensures Join([x] + ys, "") == x + Join(ys, "")
  {
    assert ([x] + ys)[1..] == ys;
    if ys == [] {
      assert x + Join(ys, "") == x;
    }
  }

  /** The initials are the upper-cased first characters of the first two words, in order. */
  lemma InitialsOfWords(name: string)
    ensures var ws := Words(name); var r := UserInitials(name);
      |r| == (if |ws| <= 2 then |ws| else 2)
      && forall k :: 0 <= k < |r| ==> r[k] == UpperChar(ws[k][0])
  {
    JoinedFirstChars(Split(name, ' '));
  }

  /** An empty name has no initials. */
  lemma EmptyNameHasNoInitials()
    ensures UserInitials("") == ""
  {
  }

  /** Spaces in front of a name change nothing: the empty words they make are skipped. */
  lemma {:induction false} LeadingSpaceIgnored(name: string)
    ensures UserInitials(" " + name) == UserInitials(name)
  {
    assert (" " + name)[0] == ' ' && (" " + name)[1..] == name;
    assert Split(" " + name, ' ') == [""] + Split(name, ' ');
    JoinedFirstChars(Split(" " + name, ' '));
    JoinedFirstChars(Split(name, ' '));
    assert Filter([""] + Split(name, ' '), NonEmpty) == Filter(Split(name, ' '), NonEmpty) by {
      assert ([""] + Split(name, ' '))[1..] == Split(name, ' ');
    }
  }

  /** Only the space separates words: a name without one, such as `"Ada\tLovelace"`,
      is a single word and gives a single initial. */
  lemma {:induction false} OneWord(name: string)
    requires ' ' !in name && name != ""
    ensures UserInitials(name) == [UpperChar(name[0])]
  {
    SplitWithoutSeparator(name, ' ');
    assert Words(name) == [name];
    InitialsOfWords(name);
  }

  lemma TabDoesNotSeparate()
    ensures UserInitials("ada\tlovelace") == "A"
  {
    OneWord("ada\tlovelace");
  }

  /** Two words separated by one space give the two upper-cased first letters. */
  lemma {:induction false} TwoWords(first: string, last: string)
    requires ' ' !in first && ' ' !in last && first != "" && last != ""
    ensures UserInitials(first + " " + last) == [UpperChar(first[0]), UpperChar(last[0])]
  {
    SplitAfterPiece(first, ' ', last);
    SplitWithoutSeparator(last, ' ');
    assert first + " " + last == first + [' '] + last;
    assert Split(first + " " + last, ' ') == [first, last];
    assert Words(first + " " + last) == [first, last];
    InitialsOfWords(first + " " + last);
  }
}
