/**
 * The live preview of the resume builder (src/components/ResumeBuilder.tsx):
 * a header that always appears, with a placeholder for each empty contact
 * field, followed by at most four blocks in a fixed order (summary, skills,
 * experience, education), each present exactly when it has content.
 */
module Preview {
  import opened Wrappers
  import opened Text
  import opened Lists
  import opened ResumeModel
  import opened Validation

  datatype Header = Header(name: string, email: string, phone: string, location: string)

  datatype ExperienceCard = ExperienceCard(title: string, duration: string, company: string, description: Option<string>)

  datatype EducationCard = EducationCard(degree: string, institution: string, year: string)

  datatype Block =
    | SummaryBlock(summary: string)
    | SkillsBlock(skills: seq<string>)
    | ExperienceBlock(experience: seq<ExperienceCard>)
    | EducationBlock(education: seq<EducationCard>)

  datatype Page = Page(header: Header, blocks: seq<Block>)

  /** `value || placeholder` on a string: the placeholder replaces only the empty string. */
  function OrPlaceholder(value: string, placeholder: string): string {
    if value == "" then placeholder else value
  }

  function HeaderOf(p: PersonalInfo): Header {
    Header(OrPlaceholder(p.name, "Your Name"), OrPlaceholder(p.email, "your.email@example.com"),
           OrPlaceholder(p.phone, "+1 (555) 123-4567"), OrPlaceholder(p.location, "Your Location"))
  }

  /** One experience entry: the description paragraph appears only when it is non-empty. */
  function ExperienceCardOf(e: Experience): ExperienceCard {
    ExperienceCard(OrPlaceholder(e.position, "Job Title"), e.duration, OrPlaceholder(e.company, "Company Name"),
                   if e.description != "" then Some(e.description) else None)
  }

  function EducationCardOf(e: Education): EducationCard {
    EducationCard(OrPlaceholder(e.degree, "Degree"), OrPlaceholder(e.institution, "Institution"), e.year)
  }

  /** The position of a block kind in the page. */
  function Rank(b: Block): nat {
    match b
    case SummaryBlock(_) => 0
    case SkillsBlock(_) => 1
    case ExperienceBlock(_) => 2
    case EducationBlock(_) => 3
  }

  function Optional(present: bool, b: Block): seq<Block> {
    if present then [b] else []
  }

  /** Four optional blocks in this order. */
  function Layout(p0: bool, x0: Block, p1: bool, x1: Block, p2: bool, x2: Block, p3: bool, x3: Block): seq<Block> {
    Optional(p0, x0) + Optional(p1, x1) + Optional(p2, x2) + Optional(p3, x3)
  }

  /** The blocks under the header. */
  function Blocks(d: ResumeData): (r: seq<Block>)
    ensures |r| <= 4
    ensures Increasing(r)
  {
    var p := d.personalInfo;
    var x0, x1 := SummaryBlock(p.summary), SkillsBlock(d.skills);
    var x2 := ExperienceBlock(Map(d.experience, ExperienceCardOf));
    var x3 := EducationBlock(Map(d.education, EducationCardOf));
    LayoutIncreasing(p.summary != "", x0, |d.skills| > 0, x1, |d.experience| > 0, x2, |d.education| > 0, x3);
    Layout(p.summary != "", x0, |d.skills| > 0, x1, |d.experience| > 0, x2, |d.education| > 0, x3)
  }

  /** Block ranks strictly grow along the sequence: the blocks come in the fixed order. */
  predicate Increasing(s: seq<Block>) {
    forall i, j :: 0 <= i < j < |s| ==> Rank(s[i]) < Rank(s[j])
  }

  /** The sequence has a block of the given rank. */
  predicate HasRank(s: seq<Block>, rank: nat) {
    exists i :: 0 <= i < |s| && Rank(s[i]) == rank
  }

  lemma LayoutIncreasing(p0: bool, x0: Block, p1: bool, x1: Block, p2: bool, x2: Block, p3: bool, x3: Block)
    requires Rank(x0) == 0 && Rank(x1) == 1 && Rank(x2) == 2 && Rank(x3) == 3
    ensures var s := Layout(p0, x0, p1, x1, p2, x2, p3, x3); |s| <= 4 && Increasing(s)
  {
    var s := Layout(p0, x0, p1, x1, p2, x2, p3, x3);
    forall i, j | 0 <= i < j < |s| ensures Rank(s[i]) < Rank(s[j]) {
      LayoutRankAt(p0, x0, p1, x1, p2, x2, p3, x3, i);
      LayoutRankAt(p0, x0, p1, x1, p2, x2, p3, x3, j);
    }
  }

  /** The rank of the block at position `k` is the number of the group it came from;
      groups are numbered in order, so ranks grow with positions. */
  lemma LayoutRankAt(p0: bool, x0: Block, p1: bool, x1: Block, p2: bool, x2: Block, p3: bool, x3: Block, k: int)
    requires Rank(x0) == 0 && Rank(x1) == 1 && Rank(x2) == 2 && Rank(x3) == 3
    requires 0 <= k < |Layout(p0, x0, p1, x1, p2, x2, p3, x3)|
    ensures var s := Layout(p0, x0, p1, x1, p2, x2, p3, x3);
      var n0 := |Optional(p0, x0)|;
      var n1 := n0 + |Optional(p1, x1)|;
      var n2 := n1 + |Optional(p2, x2)|;
      if k < n0 then s[k] == x0
      else if k < n1 then s[k] == x1
      else if k < n2 then s[k] == x2
      else s[k] == x3
  {
  }

  /** A block of each rank is present exactly when its flag is set. */
  lemma LayoutPresence(p0: bool, x0: Block, p1: bool, x1: Block, p2: bool, x2: Block, p3: bool, x3: Block)
    requires Rank(x0) == 0 && Rank(x1) == 1 && Rank(x2) == 2 && Rank(x3) == 3
    ensures var s := Layout(p0, x0, p1, x1, p2, x2, p3, x3);
      (HasRank(s, 0) <==> p0) && (HasRank(s, 1) <==> p1) && (HasRank(s, 2) <==> p2) && (HasRank(s, 3) <==> p3)
  {
    var s := Layout(p0, x0, p1, x1, p2, x2, p3, x3);
    var n0 := |Optional(p0, x0)|;
    var n1 := n0 + |Optional(p1, x1)|;
    var n2 := n1 + |Optional(p2, x2)|;
    forall k | 0 <= k < |s| {
      LayoutRankAt(p0, x0, p1, x1, p2, x2, p3, x3, k);
    }
    if p0 { assert Rank(s[0]) == 0; }
    if p1 { assert Rank(s[n0]) == 1; }
    if p2 { assert Rank(s[n1]) == 2; }
    if p3 { assert Rank(s[n2]) == 3; }
  }

  /** The whole preview of a record. */
  function PageOf(d: ResumeData): Page {
    Page(HeaderOf(d.personalInfo), Blocks(d))
  }

  /** Each block appears exactly when it has content: the summary when it is
      non-empty, the other three when their lists are. */
  lemma BlockPresence(d: ResumeData)
    ensures HasRank(PageOf(d).blocks, 0) <==> d.personalInfo.summary != ""
    ensures HasRank(PageOf(d).blocks, 1) <==> |d.skills| > 0
    ensures HasRank(PageOf(d).blocks, 2) <==> |d.experience| > 0
    ensures HasRank(PageOf(d).blocks, 3) <==> |d.education| > 0
  {
    var p := d.personalInfo;
    var x0, x1 := SummaryBlock(p.summary), SkillsBlock(d.skills);
    var x2 := ExperienceBlock(Map(d.experience, ExperienceCardOf));
    var x3 := EducationBlock(Map(d.education, EducationCardOf));
    LayoutPresence(p.summary != "", x0, |d.skills| > 0, x1, |d.experience| > 0, x2, |d.education| > 0, x3);
  }

  /** The cards of the experience block are the entries, in order, one each. */
  lemma ExperienceCardsFollowEntries(d: ResumeData)
    requires |d.experience| > 0
    ensures exists i :: 0 <= i < |PageOf(d).blocks| && PageOf(d).blocks[i] == ExperienceBlock(Map(d.experience, ExperienceCardOf))
  {
    var a := Optional(d.personalInfo.summary != "", SummaryBlock(d.personalInfo.summary));
    var b := Optional(|d.skills| > 0, SkillsBlock(d.skills));
    var s := PageOf(d).blocks;
    assert s[|a| + |b|] == ExperienceBlock(Map(d.experience, ExperienceCardOf));
  }

  /** A record that passes the validator shows no header or entry placeholder and
      every experience description. */
  lemma CompleteRecordShowsNoPlaceholder(d: ResumeData)
    requires Complete(d)
    ensures HeaderOf(d.personalInfo)
            == Header(d.personalInfo.name, d.personalInfo.email, d.personalInfo.phone, d.personalInfo.location)
    ensures forall i :: 0 <= i < |d.experience| ==>
      ExperienceCardOf(d.experience[i])
      == ExperienceCard(d.experience[i].position, d.experience[i].duration, d.experience[i].company,
                        Some(d.experience[i].description))
    ensures forall i :: 0 <= i < |d.education| ==>
      EducationCardOf(d.education[i])
      == EducationCard(d.education[i].degree, d.education[i].institution, d.education[i].year)
  {
    forall i | 0 <= i < |d.experience|
      ensures ExperienceCardOf(d.experience[i])
              == ExperienceCard(d.experience[i].position, d.experience[i].duration, d.experience[i].company,
                                Some(d.experience[i].description))
    {
      assert ExperienceFilled(d.experience[i]);
    }
    forall i | 0 <= i < |d.education|
      ensures EducationCardOf(d.education[i])
              == EducationCard(d.education[i].degree, d.education[i].institution, d.education[i].year)
    {
      assert EducationFilled(d.education[i]);
    }
  }

  /** Placeholders replace only empty text: a name of spaces is shown as spaces, although
      the validator reports it as missing. */
  lemma BlankNameShownAsIs()
    ensures HeaderOf(InitialResumeData().personalInfo.(name := " ")).name == " "
    ensures IsBlank(" ")
  {
  }

  /** A fresh builder session shows the four header placeholders and no block. */
  lemma InitialPage()
    ensures PageOf(InitialResumeData())
            == Page(Header("Your Name", "your.email@example.com", "+1 (555) 123-4567", "Your Location"), [])
  {
  }
}
