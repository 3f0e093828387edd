/**
 * The completeness validator of the resume builder (`validateResumeData`
 * and `isResumeComplete`). Each problem it can report is an `Issue`; the
 * message the builder shows for it is `Message(issue)`. `Issues(d)` is the
 * list of problems of `d` in reporting order; the validator method returns
 * exactly their messages.
 */
module Validation {
  import opened Wrappers
  import opened Text
  import opened Lists
  import opened ResumeModel

  /** One reportable problem. Numbered problems carry the 1-based entry number. */
  datatype Issue =
    | NameMissing | EmailMissing | PhoneMissing | LocationMissing | SummaryMissing
    | NoExperience
    | CompanyMissing(entry: nat) | PositionMissing(entry: nat)
    | DurationMissing(entry: nat) | DescriptionMissing(entry: nat)
    | NoEducation
    | InstitutionMissing(entry: nat) | DegreeMissing(entry: nat) | YearMissing(entry: nat)
    | NoSkills

  /** The text the builder shows for an issue. */
  function Message(a: Issue): string {
    match a
    case NameMissing => "Full name is required"
    case EmailMissing => "Email is required"
    case PhoneMissing => "Phone number is required"
    case LocationMissing => "Location is required"
    case SummaryMissing => "Professional summary is required"
    case NoExperience => "At least one work experience is required"
    case CompanyMissing(n) => "Company name is required for experience " + NatToString(n)
    case PositionMissing(n) => "Job title is required for experience " + NatToString(n)
    case DurationMissing(n) => "Duration is required for experience " + NatToString(n)
    case DescriptionMissing(n) => "Description is required for experience " + NatToString(n)
    case NoEducation => "At least one education entry is required"
    case InstitutionMissing(n) => "Institution name is required for education " + NatToString(n)
    case DegreeMissing(n) => "Degree is required for education " + NatToString(n)
    case YearMissing(n) => "Year is required for education " + NatToString(n)
    case NoSkills => "At least one skill is required"
  }

  function Messages(issues: seq<Issue>): seq<string> {
    Map(issues, Message)
  }

  // ---------------------------------------------------------------- the issues of a record, in order

  function PersonalIssues(p: PersonalInfo): seq<Issue> {
    (if IsBlank(p.name) then [NameMissing] else [])
    + (if IsBlank(p.email) then [EmailMissing] else [])
    + (if IsBlank(p.phone) then [PhoneMissing] else [])
    + (if IsBlank(p.location) then [LocationMissing] else [])
    + (if IsBlank(p.summary) then [SummaryMissing] else [])
  }

  function ExperienceEntryIssues(e: Experience, n: nat): seq<Issue> {
    (if IsBlank(e.company) then [CompanyMissing(n)] else [])
    + (if IsBlank(e.position) then [PositionMissing(n)] else [])
    + (if IsBlank(e.duration) then [DurationMissing(n)] else [])
    + (if IsBlank(e.description) then [DescriptionMissing(n)] else [])
  }

  /** The issues of the first `k` experience entries. */
  function ExperienceIssuesUpTo(xs: seq<Experience>, k: nat): seq<Issue>
    requires k <= |xs|
  {
    if k == 0 then [] else ExperienceIssuesUpTo(xs, k - 1) + ExperienceEntryIssues(xs[k - 1], k)
  }

  function ExperienceIssues(xs: seq<Experience>): seq<Issue> {
    if |xs| == 0 then [NoExperience] else ExperienceIssuesUpTo(xs, |xs|)
  }

  function EducationEntryIssues(e: Education, n: nat): seq<Issue> {
    (if IsBlank(e.institution) then [InstitutionMissing(n)] else [])
    + (if IsBlank(e.degree) then [DegreeMissing(n)] else [])
    + (if IsBlank(e.year) then [YearMissing(n)] else [])
  }

  function EducationIssuesUpTo(xs: seq<Education>, k: nat): seq<Issue>
    requires k <= |xs|
  {
    if k == 0 then [] else EducationIssuesUpTo(xs, k - 1) + EducationEntryIssues(xs[k - 1], k)
  }

  function EducationIssues(xs: seq<Education>): seq<Issue> {
    if |xs| == 0 then [NoEducation] else EducationIssuesUpTo(xs, |xs|)
  }

  function SkillIssues(skills: seq<string>): seq<Issue> {
    if |skills| == 0 then [NoSkills] else []
  }

  /** Every problem of `d`, in the order the validator reports them. */
  function Issues(d: ResumeData): seq<Issue> {
    PersonalIssues(d.personalInfo) + ExperienceIssues(d.experience)
    + EducationIssues(d.education) + SkillIssues(d.skills)
  }

  // ---------------------------------------------------------------- the validator itself

  /** `validateResumeData`: pushes one message per problem onto a list, section by section. */
  method ValidateResumeData(d: ResumeData) returns (errors: seq<string>)
    ensures errors == Messages(Issues(d))
  {
    var personal := PersonalErrors(d.personalInfo);
    var experience := ExperienceErrors(d.experience);
    var education := EducationErrors(d.education);
    errors := personal + experience + education;
    if |d.skills| == 0 {
      errors := errors + [Message(NoSkills)];
    }
    ghost var a, b, c, e := PersonalIssues(d.personalInfo), ExperienceIssues(d.experience),
                            EducationIssues(d.education), SkillIssues(d.skills);
    MapConcat(a + b + c, e, Message);
    MapConcat(a + b, c, Message);
    MapConcat(a, b, Message);
  }

  /** The experience part of `validateResumeData`: one message if there is no entry,
      else the `forEach` over the entries. */
  method ExperienceErrors(xs: seq<Experience>) returns (errors: seq<string>)
    ensures errors == Messages(ExperienceIssues(xs))
  {
    if |xs| == 0 {
      errors := [Message(NoExperience)];
    } else {
      errors := [];
      var index := 0;
      while index < |xs|
        invariant 0 <= index <= |xs|
        invariant errors == Messages(ExperienceIssuesUpTo(xs, index))
      {
        var more := ExperienceEntryErrors(xs[index], index + 1);
        MapConcat(ExperienceIssuesUpTo(xs, index), ExperienceEntryIssues(xs[index], index + 1), Message);
        errors := errors + more;
        index := index + 1;
      }
    }
  }

  /** The education part of `validateResumeData`. */
  method EducationErrors(xs: seq<Education>) returns (errors: seq<string>)
    ensures errors == Messages(EducationIssues(xs))
  {
    if |xs| == 0 {
      errors := [Message(NoEducation)];
    } else {
      errors := [];
      var index := 0;
      while index < |xs|
        invariant 0 <= index <= |xs|
        invariant errors == Messages(EducationIssuesUpTo(xs, index))
      {
        var more := EducationEntryErrors(xs[index], index + 1);
        MapConcat(EducationIssuesUpTo(xs, index), EducationEntryIssues(xs[index], index + 1), Message);
        errors := errors + more;
        index := index + 1;
      }
    }
  }

  /** The five personal-information checks at the top of `validateResumeData`. */
  method PersonalErrors(p: PersonalInfo) returns (errors: seq<string>)
    ensures errors == Messages(PersonalIssues(p))
  {
    errors := [];
    ghost var issues: seq<Issue> := [];
    MessagesOptional(issues, IsBlank(p.name), NameMissing);
    if IsBlank(p.name) {
      errors := errors + [Message(NameMissing)];
    }
    issues := issues + if IsBlank(p.name) then [NameMissing] else [];
    MessagesOptional(issues, IsBlank(p.email), EmailMissing);
    if IsBlank(p.email) {
      errors := errors + [Message(EmailMissing)];
    }
    issues := issues + if IsBlank(p.email) then [EmailMissing] else [];
    MessagesOptional(issues, IsBlank(p.phone), PhoneMissing);
    if IsBlank(p.phone) {
      errors := errors + [Message(PhoneMissing)];
    }
    issues := issues + if IsBlank(p.phone) then [PhoneMissing] else [];
    MessagesOptional(issues, IsBlank(p.location), LocationMissing);
    if IsBlank(p.location) {
      errors := errors + [Message(LocationMissing)];
    }
    issues := issues + if IsBlank(p.location) then [LocationMissing] else [];
    MessagesOptional(issues, IsBlank(p.summary), SummaryMissing);
    if IsBlank(p.summary) {
      errors := errors + [Message(SummaryMissing)];
    }
    issues := issues + if IsBlank(p.summary) then [SummaryMissing] else [];
    assert [] + (if IsBlank(p.name) then [NameMissing] else []) == (if IsBlank(p.name) then [NameMissing] else []);
  }

  /** The messages of an optionally extended list. */
  lemma MessagesOptional(issues: seq<Issue>, present: bool, a: Issue)
    ensures Messages(issues + if present then [a] else [])
            == Messages(issues) + if present then [Message(a)] else []
  {
    if present { MapConcat(issues, [a], Message); } else { assert issues + [] == issues; }
  }

  /** The body of the `forEach` callback over experience entries; `n` is `index + 1`. */
  method ExperienceEntryErrors(exp: Experience, n: nat) returns (errors: seq<string>)
    ensures errors == Messages(ExperienceEntryIssues(exp, n))
  {
    errors := [];
    ghost var issues: seq<Issue> := [];
    MessagesOptional(issues, IsBlank(exp.company), CompanyMissing(n));
    if IsBlank(exp.company) {
      errors := errors + [Message(CompanyMissing(n))];
    }
    issues := issues + if IsBlank(exp.company) then [CompanyMissing(n)] else [];
    MessagesOptional(issues, IsBlank(exp.position), PositionMissing(n));
    if IsBlank(exp.position) {
      errors := errors + [Message(PositionMissing(n))];
    }
    issues := issues + if IsBlank(exp.position) then [PositionMissing(n)] else [];
    MessagesOptional(issues, IsBlank(exp.duration), DurationMissing(n));
    if IsBlank(exp.duration) {
      errors := errors + [Message(DurationMissing(n))];
    }
    issues := issues + if IsBlank(exp.duration) then [DurationMissing(n)] else [];
    MessagesOptional(issues, IsBlank(exp.description), DescriptionMissing(n));
    if IsBlank(exp.description) {
      errors := errors + [Message(DescriptionMissing(n))];
    }
    issues := issues + if IsBlank(exp.description) then [DescriptionMissing(n)] else [];
    assert [] + (if IsBlank(exp.company) then [CompanyMissing(n)] else []) == (if IsBlank(exp.company) then [CompanyMissing(n)] else []);
  }

  /** The body of the `forEach` callback over education entries; `n` is `index + 1`. */
  method EducationEntryErrors(edu: Education, n: nat) returns (errors: seq<string>)
    ensures errors == Messages(EducationEntryIssues(edu, n))
  {
    errors := [];
    ghost var issues: seq<Issue> := [];
    MessagesOptional(issues, IsBlank(edu.institution), InstitutionMissing(n));
    if IsBlank(edu.institution) {
      errors := errors + [Message(InstitutionMissing(n))];
    }
    issues := issues + if IsBlank(edu.institution) then [InstitutionMissing(n)] else [];
    MessagesOptional(issues, IsBlank(edu.degree), DegreeMissing(n));
    if IsBlank(edu.degree) {
      errors := errors + [Message(DegreeMissing(n))];
    }
    issues := issues + if IsBlank(edu.degree) then [DegreeMissing(n)] else [];
    MessagesOptional(issues, IsBlank(edu.year), YearMissing(n));
    if IsBlank(edu.year) {
      errors := errors + [Message(YearMissing(n))];
    }
    issues := issues + if IsBlank(edu.year) then [YearMissing(n)] else [];
    assert [] + (if IsBlank(edu.institution) then [InstitutionMissing(n)] else []) == (if IsBlank(edu.institution) then [InstitutionMissing(n)] else []);
  }

  // ---------------------------------------------------------------- completeness

  predicate ExperienceFilled(e: Experience) {
    !IsBlank(e.company) && !IsBlank(e.position) && !IsBlank(e.duration) && !IsBlank(e.description)
  }

  predicate EducationFilled(e: Education) {
    !IsBlank(e.institution) && !IsBlank(e.degree) && !IsBlank(e.year)
  }

  /** What a complete resume is, stated directly on the record. */
  predicate Complete(d: ResumeData) {
    var p := d.personalInfo;
    && !IsBlank(p.name) && !IsBlank(p.email) && !IsBlank(p.phone)
    && !IsBlank(p.location) && !IsBlank(p.summary)
    && |d.experience| > 0 && (forall i :: 0 <= i < |d.experience| ==> ExperienceFilled(d.experience[i]))
    && |d.education| > 0 && (forall i :: 0 <= i < |d.education| ==> EducationFilled(d.education[i]))
    && |d.skills| > 0
  }

  /** `isResumeComplete`: the validator reports nothing. */
  method IsResumeComplete(d: ResumeData) returns (complete: bool)
    ensures complete <==> Complete(d)
  {
    var errors := ValidateResumeData(d);
    complete := |errors| == 0;
    IssuesEmptyIff(d);
  }

  lemma {:induction false} ExperienceUpToEmptyIff(xs: seq<Experience>, k: nat)
    requires k <= |xs|
    ensures ExperienceIssuesUpTo(xs, k) == [] <==> forall i :: 0 <= i < k ==> ExperienceFilled(xs[i])
  {
    if k > 0 { ExperienceUpToEmptyIff(xs, k - 1); }
  }

  lemma {:induction false} EducationUpToEmptyIff(xs: seq<Education>, k: nat)
    requires k <= |xs|
    ensures EducationIssuesUpTo(xs, k) == [] <==> forall i :: 0 <= i < k ==> EducationFilled(xs[i])
  {
    if k > 0 { EducationUpToEmptyIff(xs, k - 1); }
  }

  /** The validator reports nothing exactly for complete records. */
  lemma {:induction false} IssuesEmptyIff(d: ResumeData)
    ensures Issues(d) == [] <==> Complete(d)
  {
    ExperienceUpToEmptyIff(d.experience, |d.experience|);
    EducationUpToEmptyIff(d.education, |d.education|);
  }

  /** Fields the validator never looks at do not change its result. */
  lemma IssuesIgnoreUncheckedFields(d: ResumeData, linkedin: string, gmail: string,
                                    title: Option<string>, website: Option<string>, instagram: Option<string>,
                                    certifications: seq<Certification>, projects: seq<Project>, awards: seq<Award>,
                                    publications: seq<Publication>, keywords: seq<string>)
    ensures var p := d.personalInfo.(linkedin := linkedin, gmail := gmail, title := title, website := website, instagram := instagram);
      Issues(d.(personalInfo := p, certifications := certifications, projects := projects, awards := awards,
                publications := publications, keywords := keywords)) == Issues(d)
  {
  }

  // ---------------------------------------------------------------- which issues are reported

  /** Whether a personal-information problem `a` holds of `p`, stated directly on the record. */
  predicate PersonalOccurs(p: PersonalInfo, a: Issue) {
    match a
    case NameMissing => IsBlank(p.name)
    case EmailMissing => IsBlank(p.email)
    case PhoneMissing => IsBlank(p.phone)
    case LocationMissing => IsBlank(p.location)
    case SummaryMissing => IsBlank(p.summary)
    case _ => false
  }

  /** Whether an experience problem `a` holds of `xs`; entries are numbered from 1. */
  predicate ExperienceOccurs(xs: seq<Experience>, a: Issue) {
    match a
    case NoExperience => |xs| == 0
    case CompanyMissing(n) => 1 <= n <= |xs| && IsBlank(xs[n - 1].company)
    case PositionMissing(n) => 1 <= n <= |xs| && IsBlank(xs[n - 1].position)
    case DurationMissing(n) => 1 <= n <= |xs| && IsBlank(xs[n - 1].duration)
    case DescriptionMissing(n) => 1 <= n <= |xs| && IsBlank(xs[n - 1].description)
    case _ => false
  }

  /** Whether an education problem `a` holds of `ys`; entries are numbered from 1. */
  predicate EducationOccurs(ys: seq<Education>, a: Issue) {
    match a
    case NoEducation => |ys| == 0
    case InstitutionMissing(n) => 1 <= n <= |ys| && IsBlank(ys[n - 1].institution)
    case DegreeMissing(n) => 1 <= n <= |ys| && IsBlank(ys[n - 1].degree)
    case YearMissing(n) => 1 <= n <= |ys| && IsBlank(ys[n - 1].year)
    case _ => false
  }

  /** Whether `d` has problem `a`, stated directly on the record. */
  predicate Occurs(d: ResumeData, a: Issue) {
    PersonalOccurs(d.personalInfo, a) || ExperienceOccurs(d.experience, a)
    || EducationOccurs(d.education, a) || (a == NoSkills && |d.skills| == 0)
  }

  lemma FiveMembership(b0: bool, b1: bool, b2: bool, b3: bool, b4: bool,
                       x0: Issue, x1: Issue, x2: Issue, x3: Issue, x4: Issue, a: Issue)
    ensures a in (if b0 then [x0] else []) + (if b1 then [x1] else []) + (if b2 then [x2] else [])
                 + (if b3 then [x3] else []) + (if b4 then [x4] else [])
            <==> (b0 && a == x0) || (b1 && a == x1) || (b2 && a == x2) || (b3 && a == x3) || (b4 && a == x4)
  {
  }

  lemma FourMembership(b0: bool, b1: bool, b2: bool, b3: bool, x0: Issue, x1: Issue, x2: Issue, x3: Issue, a: Issue)
    ensures a in (if b0 then [x0] else []) + (if b1 then [x1] else []) + (if b2 then [x2] else [])
                 + (if b3 then [x3] else [])
            <==> (b0 && a == x0) || (b1 && a == x1) || (b2 && a == x2) || (b3 && a == x3)
  {
  }

  lemma ThreeMembership(b0: bool, b1: bool, b2: bool, x0: Issue, x1: Issue, x2: Issue, a: Issue)
    ensures a in (if b0 then [x0] else []) + (if b1 then [x1] else []) + (if b2 then [x2] else [])
            <==> (b0 && a == x0) || (b1 && a == x1) || (b2 && a == x2)
  {
  }

  lemma PersonalMembership(p: PersonalInfo, a: Issue)
    ensures a in PersonalIssues(p) <==> PersonalOccurs(p, a)
  {
    FiveMembership(IsBlank(p.name), IsBlank(p.email), IsBlank(p.phone), IsBlank(p.location), IsBlank(p.summary),
                   NameMissing, EmailMissing, PhoneMissing, LocationMissing, SummaryMissing, a);
  }

  /** The issues of entry `k` are the entry problems of `xs` numbered `k`. */
  lemma ExperienceEntryMembership(xs: seq<Experience>, k: nat, a: Issue)
    requires 1 <= k <= |xs|
    ensures a in ExperienceEntryIssues(xs[k - 1], k) <==> ExperienceOccurs(xs, a) && Entry(a) == k
  {
    var e := xs[k - 1];
    FourMembership(IsBlank(e.company), IsBlank(e.position), IsBlank(e.duration), IsBlank(e.description),
                   CompanyMissing(k), PositionMissing(k), DurationMissing(k), DescriptionMissing(k), a);
    match a
    case CompanyMissing(m) =>
    case PositionMissing(m) =>
    case DurationMissing(m) =>
    case DescriptionMissing(m) =>
    case _ =>
  }

  lemma EducationEntryMembership(ys: seq<Education>, k: nat, a: Issue)
    requires 1 <= k <= |ys|
    ensures a in EducationEntryIssues(ys[k - 1], k) <==> EducationOccurs(ys, a) && Entry(a) == k
  {
    var e := ys[k - 1];
    ThreeMembership(IsBlank(e.institution), IsBlank(e.degree), IsBlank(e.year),
                    InstitutionMissing(k), DegreeMissing(k), YearMissing(k), a);
    match a
    case InstitutionMissing(m) =>
    case DegreeMissing(m) =>
    case YearMissing(m) =>
    case _ =>
  }

  lemma {:induction false} ExperienceUpToMembership(xs: seq<Experience>, k: nat, a: Issue)
    requires k <= |xs|
    ensures a in ExperienceIssuesUpTo(xs, k) <==> ExperienceOccurs(xs, a) && 1 <= Entry(a) <= k
  {
    if k > 0 {
      ExperienceUpToMembership(xs, k - 1, a);
      ExperienceEntryMembership(xs, k, a);
      var prev, last := ExperienceIssuesUpTo(xs, k - 1), ExperienceEntryIssues(xs[k - 1], k);
      assert ExperienceIssuesUpTo(xs, k) == prev + last;
      assert a in prev + last <==> a in prev || a in last;
    }
  }

  lemma {:induction false} EducationUpToMembership(ys: seq<Education>, k: nat, a: Issue)
    requires k <= |ys|
    ensures a in EducationIssuesUpTo(ys, k) <==> EducationOccurs(ys, a) && 1 <= Entry(a) <= k
  {
    if k > 0 {
      EducationUpToMembership(ys, k - 1, a);
      EducationEntryMembership(ys, k, a);
      var prev, last := EducationIssuesUpTo(ys, k - 1), EducationEntryIssues(ys[k - 1], k);
      assert EducationIssuesUpTo(ys, k) == prev + last;
      assert a in prev + last <==> a in prev || a in last;
    }
  }

  lemma ExperienceMembership(xs: seq<Experience>, a: Issue)
    ensures a in ExperienceIssues(xs) <==> ExperienceOccurs(xs, a)
  {
    if xs != [] { ExperienceUpToMembership(xs, |xs|, a); }
  }

  lemma EducationMembership(ys: seq<Education>, a: Issue)
    ensures a in EducationIssues(ys) <==> EducationOccurs(ys, a)
  {
    if ys != [] { EducationUpToMembership(ys, |ys|, a); }
  }

  /** The validator reports a problem exactly when the record has it. In particular an
      empty experience (education) list gives "At least one ..." and no numbered message. */
  lemma IssueMembership(d: ResumeData, a: Issue)
    ensures a in Issues(d) <==> Occurs(d, a)
  {
    PersonalMembership(d.personalInfo, a);
    ExperienceMembership(d.experience, a);
    EducationMembership(d.education, a);
  }

  // ---------------------------------------------------------------- the order of the report

  /** Reporting position: section (the five personal fields, experience, education, skills),
      then entry number, then field within the entry. */
  function Section(a: Issue): nat {
    match a
    case NameMissing => 0
    case EmailMissing => 1
    case PhoneMissing => 2
    case LocationMissing => 3
    case SummaryMissing => 4
    case NoExperience | CompanyMissing(_) | PositionMissing(_) | DurationMissing(_) | DescriptionMissing(_) => 5
    case NoEducation | InstitutionMissing(_) | DegreeMissing(_) | YearMissing(_) => 6
    case NoSkills => 7
  }

  function Entry(a: Issue): nat {
    match a
    case CompanyMissing(n) => n
    case PositionMissing(n) => n
    case DurationMissing(n) => n
    case DescriptionMissing(n) => n
    case InstitutionMissing(n) => n
    case DegreeMissing(n) => n
    case YearMissing(n) => n
    case _ => 0
  }

  function Field(a: Issue): nat {
    match a
    case PositionMissing(_) | DegreeMissing(_) => 1
    case DurationMissing(_) | YearMissing(_) => 2
    case DescriptionMissing(_) => 3
    case _ => 0
  }

  predicate Precedes(a: Issue, b: Issue) {
    Section(a) < Section(b)
    || (Section(a) == Section(b) && (Entry(a) < Entry(b) || (Entry(a) == Entry(b) && Field(a) < Field(b))))
  }

  predicate Ordered(s: seq<Issue>) {
    forall i, j :: 0 <= i < j < |s| ==> Precedes(s[i], s[j])
  }

  lemma OrderedConcat(a: seq<Issue>, b: seq<Issue>)
    requires Ordered(a) && Ordered(b)
    requires forall i, j :: 0 <= i < |a| && 0 <= j < |b| ==> Precedes(a[i], b[j])
    ensures Ordered(a + b)
  {
    var c := a + b;
    forall i, j | 0 <= i < j < |c| ensures Precedes(c[i], c[j]) {
      if j < |a| { assert c[i] == a[i] && c[j] == a[j]; }
      else if i >= |a| { assert c[i] == b[i - |a|] && c[j] == b[j - |a|]; }
      else { assert c[i] == a[i] && c[j] == b[j - |a|]; }
    }
  }

  /** Every issue of `s` precedes `x`. */
  predicate AllBefore(s: seq<Issue>, x: Issue) {
    forall i :: 0 <= i < |s| ==> Precedes(s[i], x)
  }

  /** Appending an optional issue that every issue so far precedes keeps the list ordered. */
  lemma AppendLast(a: seq<Issue>, present: bool, x: Issue)
    requires Ordered(a) && AllBefore(a, x)
    ensures Ordered(a + (if present then [x] else []))
  {
    if present { OrderedConcat(a, [x]); }
  }

  /** As `AppendLast`, and then everything precedes any `y` that `x` precedes. */
  lemma AppendBefore(a: seq<Issue>, present: bool, x: Issue, y: Issue)
    requires Ordered(a) && AllBefore(a, x) && Precedes(x, y)
    ensures var b := a + (if present then [x] else []); Ordered(b) && AllBefore(b, y)
  {
    AppendLast(a, present, x);
  }

  /** Every issue of `s` belongs to entry `n` of section `sec`. */
  predicate InEntry(s: seq<Issue>, sec: nat, n: nat) {
    forall i :: 0 <= i < |s| ==> Section(s[i]) == sec && Entry(s[i]) == n
  }

  lemma AppendInEntry(a: seq<Issue>, present: bool, x: Issue, sec: nat, n: nat)
    requires InEntry(a, sec, n) && Section(x) == sec && Entry(x) == n
    ensures InEntry(a + (if present then [x] else []), sec, n)
  {
  }

  /** Four optional issues in increasing position form an ordered list within one entry. */
  lemma FourOrdered(b0: bool, b1: bool, b2: bool, b3: bool, x0: Issue, x1: Issue, x2: Issue, x3: Issue,
                    sec: nat, n: nat)
    requires Precedes(x0, x1) && Precedes(x1, x2) && Precedes(x2, x3)
    requires Section(x0) == Section(x1) == Section(x2) == Section(x3) == sec
    requires Entry(x0) == Entry(x1) == Entry(x2) == Entry(x3) == n
    ensures var s := (if b0 then [x0] else []) + (if b1 then [x1] else [])
                     + (if b2 then [x2] else []) + (if b3 then [x3] else []);
            Ordered(s) && InEntry(s, sec, n)
  {
    var s0 := if b0 then [x0] else [];
    assert [] + s0 == s0;
    AppendBefore([], b0, x0, x1);
    AppendInEntry([], b0, x0, sec, n);
    AppendBefore(s0, b1, x1, x2);
    AppendInEntry(s0, b1, x1, sec, n);
    var s1 := s0 + if b1 then [x1] else [];
    AppendBefore(s1, b2, x2, x3);
    AppendInEntry(s1, b2, x2, sec, n);
    var s2 := s1 + if b2 then [x2] else [];
    AppendLast(s2, b3, x3);
    AppendInEntry(s2, b3, x3, sec, n);
  }

  lemma ThreeOrdered(b0: bool, b1: bool, b2: bool, x0: Issue, x1: Issue, x2: Issue, sec: nat, n: nat)
    requires Precedes(x0, x1) && Precedes(x1, x2)
    requires Section(x0) == Section(x1) == Section(x2) == sec && Entry(x0) == Entry(x1) == Entry(x2) == n
    ensures var s := (if b0 then [x0] else []) + (if b1 then [x1] else []) + (if b2 then [x2] else []);
            Ordered(s) && InEntry(s, sec, n)
  {
    var s0 := if b0 then [x0] else [];
    assert [] + s0 == s0;
    AppendBefore([], b0, x0, x1);
    AppendInEntry([], b0, x0, sec, n);
    AppendBefore(s0, b1, x1, x2);
    AppendInEntry(s0, b1, x1, sec, n);
    var s1 := s0 + if b1 then [x1] else [];
    AppendLast(s1, b2, x2);
    AppendInEntry(s1, b2, x2, sec, n);
  }

  lemma ExperienceEntryOrdered(e: Experience, n: nat)
    ensures Ordered(ExperienceEntryIssues(e, n)) && InEntry(ExperienceEntryIssues(e, n), 5, n)
  {
    FourOrdered(IsBlank(e.company), IsBlank(e.position), IsBlank(e.duration), IsBlank(e.description),
                CompanyMissing(n), PositionMissing(n), DurationMissing(n), DescriptionMissing(n), 5, n);
  }

  lemma EducationEntryOrdered(e: Education, n: nat)
    ensures Ordered(EducationEntryIssues(e, n)) && InEntry(EducationEntryIssues(e, n), 6, n)
  {
    ThreeOrdered(IsBlank(e.institution), IsBlank(e.degree), IsBlank(e.year),
                 InstitutionMissing(n), DegreeMissing(n), YearMissing(n), 6, n);
  }

  lemma {:induction false} ExperienceUpToOrdered(xs: seq<Experience>, k: nat)
    requires k <= |xs|
    ensures Ordered(ExperienceIssuesUpTo(xs, k))
    ensures forall i :: 0 <= i < |ExperienceIssuesUpTo(xs, k)| ==>
      var a := ExperienceIssuesUpTo(xs, k)[i]; Section(a) == 5 && 1 <= Entry(a) <= k
  {
    if k > 0 {
      ExperienceUpToOrdered(xs, k - 1);
      ExperienceEntryOrdered(xs[k - 1], k);
      OrderedConcat(ExperienceIssuesUpTo(xs, k - 1), ExperienceEntryIssues(xs[k - 1], k));
    }
  }

  lemma {:induction false} EducationUpToOrdered(xs: seq<Education>, k: nat)
    requires k <= |xs|
    ensures Ordered(EducationIssuesUpTo(xs, k))
    ensures forall i :: 0 <= i < |EducationIssuesUpTo(xs, k)| ==>
      var a := EducationIssuesUpTo(xs, k)[i]; Section(a) == 6 && 1 <= Entry(a) <= k
  {
    if k > 0 {
      EducationUpToOrdered(xs, k - 1);
      EducationEntryOrdered(xs[k - 1], k);
      OrderedConcat(EducationIssuesUpTo(xs, k - 1), EducationEntryIssues(xs[k - 1], k));
    }
  }

  /** The report is strictly ordered by `Rank`: name, email, phone, location, summary,
      then experience by entry and field, then education likewise, then skills. */
  predicate SectionsWithin(s: seq<Issue>, lo: nat, hi: nat) {
    forall i :: 0 <= i < |s| ==> lo <= Section(s[i]) <= hi
  }

  lemma OrderedBySection(a: seq<Issue>, b: seq<Issue>, m: nat)
    requires Ordered(a) && Ordered(b) && SectionsWithin(a, 0, m) && SectionsWithin(b, m + 1, 7)
    ensures Ordered(a + b) && SectionsWithin(a + b, 0, 7)
  {
    OrderedConcat(a, b);
  }

  /** Appending an optional issue of section `m` to an ordered list of earlier sections. */
  lemma AppendOptional(a: seq<Issue>, present: bool, x: Issue, m: nat)
    requires Ordered(a) && SectionsWithin(a, 0, m) && Section(x) == m + 1
    ensures var b := a + (if present then [x] else []); Ordered(b) && SectionsWithin(b, 0, m + 1)
  {
    if present { OrderedBySection(a, [x], m); }
  }

  lemma PersonalOrdered(p: PersonalInfo)
    ensures Ordered(PersonalIssues(p)) && SectionsWithin(PersonalIssues(p), 0, 4)
  {
    var s0 := if IsBlank(p.name) then [NameMissing] else [];
    var s1 := s0 + if IsBlank(p.email) then [EmailMissing] else [];
    AppendOptional(s0, IsBlank(p.email), EmailMissing, 0);
    var s2 := s1 + if IsBlank(p.phone) then [PhoneMissing] else [];
    AppendOptional(s1, IsBlank(p.phone), PhoneMissing, 1);
    var s3 := s2 + if IsBlank(p.location) then [LocationMissing] else [];
    AppendOptional(s2, IsBlank(p.location), LocationMissing, 2);
    AppendOptional(s3, IsBlank(p.summary), SummaryMissing, 3);
  }

  /** The report is strictly ordered by `Rank`: name, email, phone, location, summary,
      then experience by entry and field, then education likewise, then skills. */
  lemma {:induction false} IssuesOrdered(d: ResumeData)
    ensures Ordered(Issues(d))
  {
    PersonalOrdered(d.personalInfo);
    ExperienceOrdered(d.experience);
    EducationOrdered(d.education);
    SectionsOrdered(PersonalIssues(d.personalInfo), ExperienceIssues(d.experience),
                    EducationIssues(d.education), SkillIssues(d.skills));
  }

  lemma SectionsOrdered(a: seq<Issue>, b: seq<Issue>, c: seq<Issue>, e: seq<Issue>)
    requires Ordered(a) && SectionsWithin(a, 0, 4)
    requires Ordered(b) && SectionsWithin(b, 5, 5)
    requires Ordered(c) && SectionsWithin(c, 6, 6)
    requires Ordered(e) && SectionsWithin(e, 7, 7)
    ensures Ordered(a + b + c + e)
  {
    OrderedBySection(a, b, 4);
    OrderedBySection(a + b, c, 5);
    OrderedBySection(a + b + c, e, 6);
  }

  lemma ExperienceOrdered(xs: seq<Experience>)
    ensures Ordered(ExperienceIssues(xs)) && SectionsWithin(ExperienceIssues(xs), 5, 5)
  {
    if xs != [] { ExperienceUpToOrdered(xs, |xs|); }
  }

  lemma EducationOrdered(xs: seq<Education>)
    ensures Ordered(EducationIssues(xs)) && SectionsWithin(EducationIssues(xs), 6, 6)
  {
    if xs != [] { EducationUpToOrdered(xs, |xs|); }
  }

  /** The head of a strictly ordered list precedes every other member. */
  lemma HeadPrecedes(s: seq<Issue>, x: Issue)
    requires Ordered(s) && x in s
    ensures x == s[0] || Precedes(s[0], x)
  {
  }

  lemma PrecedesAsymmetric(a: Issue, b: Issue)
    ensures !(Precedes(a, b) && Precedes(b, a))
  {
  }

  /** A member of the tail of `s` is also in the tail of `t` when both are ordered, share their
      head and have the same members. */
  lemma InTail(s: seq<Issue>, t: seq<Issue>, x: Issue)
    requires Ordered(s) && s != [] && t != [] && s[0] == t[0]
    requires x in s[1..] && x in t
    ensures x in t[1..]
  {
    var i :| 0 <= i < |s| - 1 && s[1..][i] == x;
    assert Precedes(s[0], s[i + 1]);
    var j :| 0 <= j < |t| && t[j] == x;
    assert j != 0;
    assert t[1..][j - 1] == x;
  }

  lemma EmptyTogether(s: seq<Issue>, t: seq<Issue>)
    requires forall x :: x in s <==> x in t
    ensures s == [] <==> t == []
  {
    if s != [] { assert s[0] in t; }
    if t != [] { assert t[0] in s; }
  }

  /** Two strictly ordered reports with the same members are the same report. */
  lemma {:induction false} OrderedUnique(s: seq<Issue>, t: seq<Issue>)
    requires Ordered(s) && Ordered(t)
    requires forall x :: x in s <==> x in t
    ensures s == t
    decreases |s|
  {
    if s != [] && t != [] {
      HeadPrecedes(s, t[0]);
      HeadPrecedes(t, s[0]);
      PrecedesAsymmetric(s[0], t[0]);
      assert s[0] == t[0];
      forall x ensures x in s[1..] <==> x in t[1..] {
        if x in s[1..] { InTail(s, t, x); }
        if x in t[1..] { InTail(t, s, x); }
      }
      OrderedUnique(s[1..], t[1..]);
      assert s == [s[0]] + s[1..] && t == [t[0]] + t[1..];
    } else {
      EmptyTogether(s, t);
    }
  }

  /** `Issues(d)` is the one strictly ordered list of exactly the problems `d` has. */
  lemma IssuesDetermined(d: ResumeData, s: seq<Issue>)
    requires Ordered(s)
    requires forall a :: a in s <==> Occurs(d, a)
    ensures s == Issues(d)
  {
    IssuesOrdered(d);
    forall a ensures a in Issues(d) <==> Occurs(d, a) { IssueMembership(d, a); }
    OrderedUnique(s, Issues(d));
  }

  // ---------------------------------------------------------------- messages identify issues

  /** The position of each kind of issue in the declaration of `Issue`. */
  function Kind(a: Issue): nat {
    match a
    case NameMissing => 0
    case EmailMissing => 1
    case PhoneMissing => 2
    case LocationMissing => 3
    case SummaryMissing => 4
    case NoExperience => 5
    case CompanyMissing(_) => 6
    case PositionMissing(_) => 7
    case DurationMissing(_) => 8
    case DescriptionMissing(_) => 9
    case NoEducation => 10
    case InstitutionMissing(_) => 11
    case DegreeMissing(_) => 12
    case YearMissing(_) => 13
    case NoSkills => 14
  }

  /** Reads the kind of issue back from a message: the first, second, third or fourteenth
      character tell all fifteen texts apart. */
  function KindOfMessage(m: string): nat {
    if |m| < 14 then 15
    else if m[0] == 'F' then 0
    else if m[0] == 'E' then 1
    else if m[0] == 'P' then (if m[1] == 'h' then 2 else 4)
    else if m[0] == 'L' then 3
    else if m[0] == 'A' then (if m[13] == 'w' then 5 else if m[13] == 'e' then 10 else 14)
    else if m[0] == 'C' then 6
    else if m[0] == 'J' then 7
    else if m[0] == 'D' then (if m[1] == 'u' then 8 else if m[2] == 's' then 9 else 12)
    else if m[0] == 'I' then 11
    else if m[0] == 'Y' then 13
    else 15
  }

  lemma KindOfEachMessage(a: Issue)
    ensures KindOfMessage(Message(a)) == Kind(a)
  {
    if Kind(a) <= 4 {
      KindOfMessages0To4(a);
    } else if Kind(a) <= 7 {
      KindOfMessages5To7(a);
    } else if Kind(a) <= 9 {
      KindOfMessages8To9(a);
    } else if Kind(a) <= 11 {
      KindOfMessages10To11(a);
    } else if Kind(a) <= 13 {
      KindOfMessages12To13(a);
    }
  }

  lemma KindOfMessages0To4(a: Issue)
    requires 0 <= Kind(a) <= 4
    ensures KindOfMessage(Message(a)) == Kind(a)
  {
  }

  lemma KindOfMessages5To7(a: Issue)
    requires 5 <= Kind(a) <= 7
    ensures KindOfMessage(Message(a)) == Kind(a)
  {
    match a
    case CompanyMissing(n) => KindOfNumbered("Company name is required for experience ", n);
    case PositionMissing(n) => KindOfNumbered("Job title is required for experience ", n);
    case _ =>
  }

  lemma KindOfMessages8To9(a: Issue)
    requires 8 <= Kind(a) <= 9
    ensures KindOfMessage(Message(a)) == Kind(a)
  {
    match a
    case DurationMissing(n) => KindOfNumbered("Duration is required for experience ", n);
    case DescriptionMissing(n) => KindOfNumbered("Description is required for experience ", n);
    case _ =>
  }

  lemma KindOfMessages10To11(a: Issue)
    requires 10 <= Kind(a) <= 11
    ensures KindOfMessage(Message(a)) == Kind(a)
  {
    match a
    case InstitutionMissing(n) => KindOfNumbered("Institution name is required for education ", n);
    case _ =>
  }

  lemma KindOfMessages12To13(a: Issue)
    requires 12 <= Kind(a) <= 13
    ensures KindOfMessage(Message(a)) == Kind(a)
  {
    match a
    case DegreeMissing(n) => KindOfNumbered("Degree is required for education ", n);
    case YearMissing(n) => KindOfNumbered("Year is required for education ", n);
    case _ =>
  }

  /** The entry number appended to a message does not change the kind read back from it. */
  lemma KindOfNumbered(text: string, n: nat)
    requires |text| >= 14
    ensures KindOfMessage(text + NatToString(n)) == KindOfMessage(text)
  {
    var m := text + NatToString(n);
    assert m[0] == text[0] && m[1] == text[1] && m[2] == text[2] && m[13] == text[13];
  }

  /** Distinct issues have distinct messages, so the report names each problem unambiguously. */
  lemma MessageInjective(a: Issue, b: Issue)
    requires Message(a) == Message(b)
    ensures a == b
  {
    KindOfEachMessage(a);
    KindOfEachMessage(b);
    match a
    case CompanyMissing(n) => SameNumber("Company name is required for experience ", n, b.entry);
    case PositionMissing(n) => SameNumber("Job title is required for experience ", n, b.entry);
    case DurationMissing(n) => SameNumber("Duration is required for experience ", n, b.entry);
    case DescriptionMissing(n) => SameNumber("Description is required for experience ", n, b.entry);
    case InstitutionMissing(n) => SameNumber("Institution name is required for education ", n, b.entry);
    case DegreeMissing(n) => SameNumber("Degree is required for education ", n, b.entry);
    case YearMissing(n) => SameNumber("Year is required for education ", n, b.entry);
    case _ =>
  }

  lemma SameNumber(text: string, n: nat, m: nat)
    requires text + NatToString(n) == text + NatToString(m)
    ensures n == m
  {
    assert NatToString(n) == (text + NatToString(n))[|text|..];
    assert NatToString(m) == (text + NatToString(m))[|text|..];
    NatToStringInjective(n, m);
  }

  // ---------------------------------------------------------------- messages as list items

  /** Every message is non-empty, has no surrounding whitespace and no comma, so a
      `", "`-joined list of messages can be split back into the messages; none ends
      with a full stop. */
  lemma MessageIsListItem(a: Issue)
    ensures IsListItem(Message(a)) && Message(a)[|Message(a)| - 1] != '.'
  {
    if Kind(a) <= 1 {
      MessagesAreListItems0To1(a);
    } else if Kind(a) <= 3 {
      MessagesAreListItems2To3(a);
    } else if Kind(a) <= 5 {
      MessagesAreListItems4To5(a);
    } else if Kind(a) <= 7 {
      MessagesAreListItems6To7(a);
    } else if Kind(a) <= 9 {
      MessagesAreListItems8To9(a);
    } else if Kind(a) <= 11 {
      MessagesAreListItems10To11(a);
    } else {
      MessagesAreListItems12To14(a);
    }
  }

  lemma MessagesAreListItems0To1(a: Issue)
    requires 0 <= Kind(a) <= 1
    ensures IsListItem(Message(a)) && Message(a)[|Message(a)| - 1] != '.'
  {
    match a
    case NameMissing => FixedIsListItem(Message(NameMissing));
    case EmailMissing => FixedIsListItem(Message(EmailMissing));
    case _ =>
  }

  lemma MessagesAreListItems2To3(a: Issue)
    requires 2 <= Kind(a) <= 3
    ensures IsListItem(Message(a)) && Message(a)[|Message(a)| - 1] != '.'
  {
    match a
    case PhoneMissing => FixedIsListItem(Message(PhoneMissing));
    case LocationMissing => FixedIsListItem(Message(LocationMissing));
    case _ =>
  }

  lemma MessagesAreListItems4To5(a: Issue)
    requires 4 <= Kind(a) <= 5
    ensures IsListItem(Message(a)) && Message(a)[|Message(a)| - 1] != '.'
  {
    match a
    case SummaryMissing => FixedIsListItem(Message(SummaryMissing));
    case NoExperience => FixedIsListItem(Message(NoExperience));
    case _ =>
  }

  lemma MessagesAreListItems6To7(a: Issue)
    requires 6 <= Kind(a) <= 7
    ensures IsListItem(Message(a)) && Message(a)[|Message(a)| - 1] != '.'
  {
    match a
    case CompanyMissing(n) => NumberedIsListItem("Company name is required for experience ", n);
    case PositionMissing(n) => NumberedIsListItem("Job title is required for experience ", n);
    case _ =>
  }

  lemma MessagesAreListItems8To9(a: Issue)
    requires 8 <= Kind(a) <= 9
    ensures IsListItem(Message(a)) && Message(a)[|Message(a)| - 1] != '.'
  {
    match a
    case DurationMissing(n) => NumberedIsListItem("Duration is required for experience ", n);
    case DescriptionMissing(n) => NumberedIsListItem("Description is required for experience ", n);
    case _ =>
  }

  lemma MessagesAreListItems10To11(a: Issue)
    requires 10 <= Kind(a) <= 11
    ensures IsListItem(Message(a)) && Message(a)[|Message(a)| - 1] != '.'
  {
    match a
    case NoEducation => FixedIsListItem(Message(NoEducation));
    case InstitutionMissing(n) => NumberedIsListItem("Institution name is required for education ", n);
    case _ =>
  }

  lemma MessagesAreListItems12To14(a: Issue)
    requires 12 <= Kind(a) <= 14
    ensures IsListItem(Message(a)) && Message(a)[|Message(a)| - 1] != '.'
  {
    match a
    case DegreeMissing(n) => NumberedIsListItem("Degree is required for education ", n);
    case YearMissing(n) => NumberedIsListItem("Year is required for education ", n);
    case NoSkills => FixedIsListItem(Message(NoSkills));
    case _ =>
  }

  /** A fixed message: its first and last characters are letters and it has no comma. */
  lemma FixedIsListItem(m: string)
    requires m != [] && !IsWhitespace(m[0]) && !IsWhitespace(m[|m| - 1]) && m[|m| - 1] != '.'
    requires forall i | 0 <= i < |m| :: m[i] != ','
    ensures IsListItem(m) && m[|m| - 1] != '.'
  {
  }

  /** A fixed text followed by an entry number is a list item when the text starts
      with a non-whitespace character and has no comma. */
  lemma NumberedIsListItem(text: string, n: nat)
    requires text != [] && !IsWhitespace(text[0])
    requires forall i | 0 <= i < |text| :: text[i] != ','
    ensures IsListItem(text + NatToString(n))
    ensures IsDigit((text + NatToString(n))[|text + NatToString(n)| - 1])
  {
    var digits := NatToString(n);
    var m := text + digits;
    assert m[0] == text[0];
    assert m[|m| - 1] == digits[|digits| - 1];
    assert IsDigit(digits[|digits| - 1]);
    forall i | 0 <= i < |m| ensures m[i] != ',' {
      if i >= |text| {
        assert m[i] == digits[i - |text|];
        assert IsDigit(digits[i - |text|]);
      }
    }
  }

  // ---------------------------------------------------------------- two records

  /** A fresh builder session reports the five personal fields, then the three empty lists. */
  lemma InitialIssues()
    ensures Issues(InitialResumeData())
            == [NameMissing, EmailMissing, PhoneMissing, LocationMissing, SummaryMissing,
                NoExperience, NoEducation, NoSkills]
  {
  }

  /** A record with one filled entry in each list and every checked field set has no issues. */
  lemma FilledRecordHasNoIssues()
    ensures var p := PersonalInfo("Ada", "ada@example.com", "555", "London", "", "", "Engineer", None, None, None);
            Issues(ResumeData(p, [Experience("1", "Acme", "Dev", "2020", "Code")],
                              [Education("1", "Uni", "BSc", "2019")], ["Dafny"], [], [], [], [], [])) == []
  {
    var p := PersonalInfo("Ada", "ada@example.com", "555", "London", "", "", "Engineer", None, None, None);
    var d := ResumeData(p, [Experience("1", "Acme", "Dev", "2020", "Code")],
                        [Education("1", "Uni", "BSc", "2019")], ["Dafny"], [], [], [], [], []);
    assert !IsWhitespace(p.name[0]) && !IsWhitespace(p.email[0]) && !IsWhitespace(p.phone[0]);
    assert !IsWhitespace(p.location[0]) && !IsWhitespace(p.summary[0]);
    assert ExperienceFilled(d.experience[0]) by {
      var e := d.experience[0];
      assert !IsWhitespace(e.company[0]) && !IsWhitespace(e.position[0]);
      assert !IsWhitespace(e.duration[0]) && !IsWhitespace(e.description[0]);
    }
    assert EducationFilled(d.education[0]) by {
      var e := d.education[0];
      assert !IsWhitespace(e.institution[0]) && !IsWhitespace(e.degree[0]) && !IsWhitespace(e.year[0]);
    }
    IssuesEmptyIff(d);
  }
}
