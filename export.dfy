/**
 * The export gate of the resume builder (src/components/ResumeBuilder.tsx,
 * `exportResume` and the export button): an incomplete record is refused with
 * a message naming at most three missing fields; a complete one starts a PDF
 * export under a filename derived from the person's name. The PDF library's
 * outcome arrives later as one of two events.
 */
module ExportGate {
  import opened Wrappers
  import opened Text
  import opened Lists
  import opened ResumeModel
  import opened Validation

  // ---------------------------------------------------------------- the refusal message

  const IncompleteLead := "Please complete the following fields: "
  const AndMore := " and more..."

  /** `errors.slice(0, 3)`. */
  function Listed(errors: seq<string>): (r: seq<string>)
    ensures |r| == if |errors| <= 3 then |errors| else 3
    ensures r == errors[..|r|]
  {
    if |errors| <= 3 then errors else errors[..3]
  }

  /** The description of the "Incomplete Resume" toast. */
  function IncompleteMessage(errors: seq<string>): string {
    Composed(Join(Listed(errors), ", "), |errors| > 3)
  }

  /** The lead, the listed part, and " and more..." when `more` holds. */
  function Composed(listed: string, more: bool): string {
    IncompleteLead + listed + (if more then AndMore else "")
  }

  /** Reads a refusal message back: the listed errors, and whether the message said
      there were more. Partner of `IncompleteMessage`. */
  function ParseIncompleteMessage(m: string): Option<(seq<string>, bool)> {
    if |m| < |IncompleteLead| || m[..|IncompleteLead|] != IncompleteLead then None
    else
      var rest := m[|IncompleteLead|..];
      if |rest| >= |AndMore| && rest[|rest| - |AndMore|..] == AndMore then
        Some((Map(Split(rest[..|rest| - |AndMore|], ','), Trim), true))
      else
        Some((Map(Split(rest, ','), Trim), false))
  }

  /** An error text that can be read back out of a refusal message. */
  predicate Listable(e: string) {
    IsListItem(e) && e[|e| - 1] != '.'
  }

  /** The joined list ends with the last character of its last element. */
  lemma {:induction false} JoinEndsWithLast(xs: seq<string>, sep: string)
    requires xs != [] && xs[|xs| - 1] != []
    ensures var j := Join(xs, sep); j != [] && j[|j| - 1] == xs[|xs| - 1][|xs[|xs| - 1]| - 1]
  {
    if |xs| > 1 {
      JoinEndsWithLast(xs[1..], sep);
      assert xs[1..][|xs| - 2] == xs[|xs| - 1];
    }
  }

  /** A message made of the lead, a list part that does not end with a full stop, and
      the optional " and more..." reads back as that list part and that flag. */
  lemma {:induction false} ParseComposedMessage(j: string, more: bool)
    requires j != [] && j[|j| - 1] != '.'
    ensures ParseIncompleteMessage(Composed(j, more)) == Some((Map(Split(j, ','), Trim), more))
  {
    var tail := if more then AndMore else "";
    var m := IncompleteLead + j + tail;
    ConcatParts(IncompleteLead, j + tail);
    assert m == IncompleteLead + (j + tail);
    var rest := m[|IncompleteLead|..];
    assert rest == j + tail;
    if more {
      ConcatParts(j, AndMore);
    } else {
      assert rest == j;
      assert AndMore[|AndMore| - 1] == '.';
      assert !(|rest| >= |AndMore| && rest[|rest| - |AndMore|..] == AndMore) by {
        if |rest| >= |AndMore| {
          assert rest[|rest| - |AndMore|..][|AndMore| - 1] == rest[|rest| - 1];
        }
      }
    }
  }

  lemma ConcatParts(p: string, x: string)
    ensures (p + x)[..|p|] == p && (p + x)[|p|..] == x
    ensures |p + x| >= |x| && (p + x)[|p + x| - |x|..] == x && (p + x)[..|p + x| - |x|] == p
  {
  }

  /** A `", "`-joined list of listable texts reads back as the list and does not end
      with a full stop. */
  lemma JoinedListable(xs: seq<string>)
    requires xs != []
    requires forall i :: 0 <= i < |xs| ==> Listable(xs[i])
    ensures var j := Join(xs, ", "); j != [] && j[|j| - 1] != '.' && Map(Split(j, ','), Trim) == xs
  {
    assert forall i :: 0 <= i < |xs| ==> IsListItem(xs[i]);
    TrimmedPieces(xs);
    var last := xs[|xs| - 1];
    assert Listable(last);
    JoinEndsWithLast(xs, ", ");
  }

  /** The refusal message names exactly the first three errors (all of them when
      there are at most three) and says "and more" exactly when there are more. */
  lemma IncompleteMessageRoundTrip(errors: seq<string>)
    requires errors != []
    requires forall i :: 0 <= i < |errors| ==> Listable(errors[i])
    ensures ParseIncompleteMessage(IncompleteMessage(errors)) == Some((Listed(errors), |errors| > 3))
  {
    var listed := Listed(errors);
    var j := Join(listed, ", ");
    var more := |errors| > 3;
    assert j != [] && j[|j| - 1] != '.' && Map(Split(j, ','), Trim) == listed by {
      ListedListable(errors);
      JoinedListable(listed);
    }
    ParseComposedMessage(j, more);
  }

  lemma ListedListable(errors: seq<string>)
    requires forall i :: 0 <= i < |errors| ==> Listable(errors[i])
    ensures forall i :: 0 <= i < |Listed(errors)| ==> Listable(Listed(errors)[i])
  {
  }

  /** What the builder shows when it refuses a record: the refusal message lists the
      first three validation messages and says "and more" exactly when there are
      more than three. */
  lemma RefusalListsFirstMessages(d: ResumeData)
    requires Issues(d) != []
    ensures var errors := Messages(Issues(d));
      ParseIncompleteMessage(IncompleteMessage(errors)) == Some((Listed(errors), |Issues(d)| > 3))
  {
    MessagesListable(Issues(d));
    IncompleteMessageRoundTrip(Messages(Issues(d)));
  }

  lemma MessagesListable(issues: seq<Issue>)
    ensures forall i :: 0 <= i < |Messages(issues)| ==> Listable(Messages(issues)[i])
  {
    forall i | 0 <= i < |issues| ensures Listable(Messages(issues)[i]) {
      assert Messages(issues)[i] == Message(issues[i]);
      MessageListable(issues[i]);
    }
  }

  lemma MessageListable(a: Issue)
    ensures Listable(Message(a))
  {
    MessageIsListItem(a);
  }

  // ---------------------------------------------------------------- the filename

  /** `s.replace(/\s+/g, '_')`: every maximal run of whitespace becomes one '_'. */
  function Underscored(s: string): (r: string)
    ensures NoWhitespace(r)
    ensures |r| <= |s|
    decreases |s|
  {
    if s == [] then []
    else if IsWhitespace(s[0]) then "_" + Underscored(TrimStart(s))
    else [s[0]] + Underscored(s[1..])
  }

  /** A name without whitespace is kept as it is. */
  lemma {:induction false} UnderscoredKeepsPlainText(s: string)
    requires NoWhitespace(s)
    ensures Underscored(s) == s
  {
    if s != [] {
      UnderscoredKeepsPlainText(s[1..]);
    }
  }

  /** Skipping leading whitespace only looks at the part that has it. */
  lemma {:induction false} TrimStartConcat(a: string, x: string)
    requires !AllWhitespace(a)
    ensures TrimStart(a + x) == TrimStart(a) + x
  {
    assert a != [];
    assert (a + x)[1..] == a[1..] + x;
    if IsWhitespace(a[0]) {
      TrimStartConcat(a[1..], x);
    }
  }

  /** Whitespace in front of text is skipped whole. */
  lemma {:induction false} TrimStartRun(w: string, b: string)
    requires AllWhitespace(w)
    requires b == [] || !IsWhitespace(b[0])
    ensures TrimStart(w + b) == b
  {
    if w != [] {
      assert (w + b)[1..] == w[1..] + b;
      TrimStartRun(w[1..], b);
    }
  }

  /** A whitespace run between two parts becomes a single '_' between their images. */
  lemma {:induction false} UnderscoredRun(a: string, w: string, b: string)
    requires w != [] && AllWhitespace(w)
    requires a == [] || !IsWhitespace(a[|a| - 1])
    requires b == [] || !IsWhitespace(b[0])
    ensures Underscored(a + w + b) == Underscored(a) + "_" + Underscored(b)
    decreases |a|
  {
    if a == [] {
      assert a + w + b == w + b;
      UnderscoredLeadingRun(w, b);
    } else if IsWhitespace(a[0]) {
      var t := TrimStart(a);
      assert t != [] && t[|t| - 1] == a[|a| - 1];
      assert Underscored(a + w + b) == "_" + Underscored(t + w + b) by {
        UnderscoredSkipsRun(a, w + b);
        ConcatAssoc(a, w, b);
        ConcatAssoc(t, w, b);
      }
      assert Underscored(a) == "_" + Underscored(t) by {
        UnderscoredSkipsRun(a, []);
        assert a + [] == a && t + [] == t;
      }
      UnderscoredRun(t, w, b);
      ConcatAssoc("_", Underscored(t) + "_", Underscored(b));
      ConcatAssoc("_", Underscored(t), "_");
    } else {
      var c, rest := a[0], a[1..];
      assert Underscored(a + w + b) == [c] + Underscored(rest + w + b) by {
        assert a == [c] + rest;
        ConcatAssoc([c], rest, w);
        ConcatAssoc([c], rest + w, b);
        UnderscoredKeepsChar(c, rest + w + b);
      }
      assert Underscored(a) == [c] + Underscored(rest) by {
        assert a == [c] + rest;
        UnderscoredKeepsChar(c, rest);
      }
      UnderscoredRun(rest, w, b);
      ConcatAssoc([c], Underscored(rest) + "_", Underscored(b));
      ConcatAssoc([c], Underscored(rest), "_");
    }
  }

  lemma UnderscoredLeadingRun(w: string, b: string)
    requires w != [] && AllWhitespace(w)
    requires b == [] || !IsWhitespace(b[0])
    ensures Underscored(w + b) == "_" + Underscored(b)
  {
    assert (w + b)[0] == w[0];
    TrimStartRun(w, b);
  }

  lemma UnderscoredSkipsRun(a: string, x: string)
    requires a != [] && IsWhitespace(a[0]) && !IsWhitespace(a[|a| - 1])
    ensures Underscored(a + x) == "_" + Underscored(TrimStart(a) + x)
  {
    assert !AllWhitespace(a) by { assert !IsWhitespace(a[|a| - 1]); }
    TrimStartConcat(a, x);
    assert (a + x)[0] == a[0];
  }

  lemma UnderscoredKeepsChar(c: char, x: string)
    requires !IsWhitespace(c)
    ensures Underscored([c] + x) == [c] + Underscored(x)
  {
    assert ([c] + x)[0] == c && ([c] + x)[1..] == x;
  }

  lemma ConcatAssoc(x: string, y: string, z: string)
    ensures x + (y + z) == (x + y) + z
  {
  }

  /** `${name.replace(/\s+/g, '_')}_Resume.pdf`, the name the PDF is saved under. */
  function Filename(name: string): (r: string)
    ensures NoWhitespace(r)
    ensures |r| >= 11 && r[|r| - 11..] == "_Resume.pdf"
  {
    Underscored(name) + "_Resume.pdf"
  }

  /** There is no fallback for an empty name, and a blank name keeps one '_' for its run. */
  lemma FilenameOfBlankName()
    ensures Filename("") == "_Resume.pdf"
    ensures Filename("  ") == "_" + Filename("")
  {
    var blank := "  ";
    assert Underscored(blank) == "_" by {
      UnderscoredLeadingRun(blank, "");
      assert blank + "" == blank;
    }
  }

  /** Two words separated by a space and a tab are joined by one '_'. */
  lemma FilenameOfTwoWords()
    ensures Filename("Ada" + " \t" + "Kay") == "Ada" + "_" + "Kay" + "_Resume.pdf"
  {
    var first, run, last := "Ada", " \t", "Kay";
    assert Underscored(first) == first by {
      UnderscoredKeepsPlainText(first);
    }
    assert Underscored(last) == last by {
      UnderscoredKeepsPlainText(last);
    }
    UnderscoredRun(first, run, last);
  }

  // ---------------------------------------------------------------- the export state

  /** What pressing the export button leads to. */
  datatype ExportOutcome =
    | Refused(message: string)   // the "Incomplete Resume" toast; nothing else happens
    | NoPreview                  // the preview is not mounted; nothing happens
    | Started(filename: string)  // the PDF library was asked to save under this name

  /** The two flags the builder keeps for the export. */
  class Exporter {
    var isExportingPDF: bool
    var showSuccessCelebration: bool

    constructor()
      ensures !isExportingPDF && !showSuccessCelebration
    {
      isExportingPDF := false;
      showSuccessCelebration := false;
    }

    /** `exportResume`: validates, then either refuses, does nothing without a
        preview, or raises `isExportingPDF` and starts the save. */
    method ExportResume(d: ResumeData, previewMounted: bool) returns (outcome: ExportOutcome)
      modifies this
      ensures Issues(d) != [] ==> outcome == Refused(IncompleteMessage(Messages(Issues(d))))
      ensures Issues(d) == [] && !previewMounted ==> outcome == NoPreview
      ensures Issues(d) == [] && previewMounted ==> outcome == Started(Filename(d.personalInfo.name))
      ensures isExportingPDF == (old(isExportingPDF) || outcome.Started?)
      ensures showSuccessCelebration == old(showSuccessCelebration)
    {
      var errors := ValidateResumeData(d);
      if |errors| > 0 {
        outcome := Refused(IncompleteMessage(errors));
        return;
      }
      if !previewMounted {
        outcome := NoPreview;
        return;
      }
      isExportingPDF := true;
      outcome := Started(Filename(d.personalInfo.name));
    }

    /** The save promise resolved. */
    method OnSaved()
      modifies this
      ensures !isExportingPDF && showSuccessCelebration
    {
      isExportingPDF := false;
      showSuccessCelebration := true;
    }

    /** The save promise was rejected. */
    method OnSaveFailed()
      modifies this
      ensures !isExportingPDF
      ensures showSuccessCelebration == old(showSuccessCelebration)
    {
      isExportingPDF := false;
    }

    /** The five-second timer after a successful save ran out. */
    method OnCelebrationTimeout()
      modifies this
      ensures !showSuccessCelebration
      ensures isExportingPDF == old(isExportingPDF)
    {
      showSuccessCelebration := false;
    }

    /** The close button of the success card. */
    method Dismiss()
      modifies this
      ensures !showSuccessCelebration
      ensures isExportingPDF == old(isExportingPDF)
    {
      showSuccessCelebration := false;
    }

    /** The button's `disabled` attribute: `isExportingPDF || !isResumeComplete()`. */
    function ExportDisabled(d: ResumeData): (r: bool)
      reads this
      ensures r <==> isExportingPDF || !Complete(d)
    {
      IssuesEmptyIff(d);
      isExportingPDF || Issues(d) != []
    }

    /** The button's label. */
    function ButtonLabel(d: ResumeData): (r: string)
      reads this
      ensures r == "Export as PDF" <==> !ExportDisabled(d)
      ensures r == "Processing PDF..." <==> isExportingPDF
      ensures r == "Complete Resume to Export" <==> !isExportingPDF && !Complete(d)
    {
      IssuesEmptyIff(d);
      if isExportingPDF then "Processing PDF..."
      else if Issues(d) == [] then "Export as PDF"
      else "Complete Resume to Export"
    }
  }
}
