/**
 * The record updates of the resume builder: adding, editing and removing
 * experience and education entries by id, and the three skill operations
 * (`addSkill`, `removeSkill` and the comma-separated bulk editor
 * `updateSkills`). Each is a pure function from the previous record to the
 * next, as the `setResumeData(prev => ...)` callbacks are.
 */
module Sections {
  import opened Text
  import opened Lists
  import opened ResumeModel
  import Validation

  // ---------------------------------------------------------------- experience

  /** The entry `addExperience` appends; `id` stands for `Date.now().toString()`. */
  function BlankExperience(id: string): Experience {
    Experience(id, "", "", "", "")
  }

  /** `addExperience`: one blank entry with the given id at the end; nothing else changes. */
  function AddExperience(d: ResumeData, id: string): (r: ResumeData)
    ensures |r.experience| == |d.experience| + 1
    ensures r.experience[..|d.experience|] == d.experience
    ensures r.experience[|d.experience|] == Experience(id, "", "", "", "")
    ensures r == d.(experience := r.experience)
  {
    var xs := d.experience + [BlankExperience(id)];
    assert xs[..|d.experience|] == d.experience;
    d.(experience := xs)
  }

  /** The keys of an `Experience` (`keyof Experience`). */
  datatype ExperienceField = Id | Company | Position | Duration | Description

  function ExperienceFieldValue(e: Experience, f: ExperienceField): string {
    match f
    case Id => e.id
    case Company => e.company
    case Position => e.position
    case Duration => e.duration
    case Description => e.description
  }

  /** `{ ...exp, [field]: value }`. */
  function SetExperienceField(e: Experience, f: ExperienceField, v: string): (r: Experience)
    ensures ExperienceFieldValue(r, f) == v
    ensures forall g :: g != f ==> ExperienceFieldValue(r, g) == ExperienceFieldValue(e, g)
  {
    match f
    case Id => e.(id := v)
    case Company => e.(company := v)
    case Position => e.(position := v)
    case Duration => e.(duration := v)
    case Description => e.(description := v)
  }

  /** The callback of `updateExperience`'s `map`. */
  function UpdateExperienceIfId(id: string, f: ExperienceField, v: string): Experience -> Experience {
    (e: Experience) => if e.id == id then SetExperienceField(e, f, v) else e
  }

  /** `updateExperience`: entries whose id matches get the field set, the rest are kept,
      and the length and order of the list stay as they were. */
  function UpdateExperience(d: ResumeData, id: string, f: ExperienceField, v: string): (r: ResumeData)
    ensures |r.experience| == |d.experience|
    ensures forall i :: 0 <= i < |d.experience| && d.experience[i].id == id ==>
      ExperienceFieldValue(r.experience[i], f) == v
      && forall g :: g != f ==> ExperienceFieldValue(r.experience[i], g) == ExperienceFieldValue(d.experience[i], g)
    ensures forall i :: 0 <= i < |d.experience| && d.experience[i].id != id ==> r.experience[i] == d.experience[i]
    ensures r == d.(experience := r.experience)
  {
    d.(experience := Map(d.experience, UpdateExperienceIfId(id, f, v)))
  }

  /** The callback of `removeExperience`'s `filter`. */
  function ExperienceIdIsNot(id: string): Experience -> bool {
    (e: Experience) => e.id != id
  }

  /** `removeExperience`: no entry with the id is left, every other entry is kept. */
  function RemoveExperience(d: ResumeData, id: string): (r: ResumeData)
    ensures forall i :: 0 <= i < |r.experience| ==> r.experience[i].id != id && r.experience[i] in d.experience
    ensures forall i :: 0 <= i < |d.experience| && d.experience[i].id != id ==> d.experience[i] in r.experience
    ensures r == d.(experience := r.experience)
  {
    d.(experience := Filter(d.experience, ExperienceIdIsNot(id)))
  }

  predicate HasExperienceId(xs: seq<Experience>, id: string) {
    exists i :: 0 <= i < |xs| && xs[i].id == id
  }

  /** Removal keeps the surviving entries in their order, each as often as before. */
  lemma RemoveExperienceKeepsOrder(d: ResumeData, id: string)
    ensures IsSubsequence(RemoveExperience(d, id).experience, d.experience)
    ensures forall e :: multiset(RemoveExperience(d, id).experience)[e]
                        == if e.id != id then multiset(d.experience)[e] else 0
  {
    FilterIsSubsequence(d.experience, ExperienceIdIsNot(id));
    FilterCounts(d.experience, ExperienceIdIsNot(id));
  }

  lemma UpdateUnknownExperience(d: ResumeData, id: string, f: ExperienceField, v: string)
    requires !HasExperienceId(d.experience, id)
    ensures UpdateExperience(d, id, f, v) == d
  {
    assert UpdateExperience(d, id, f, v).experience == d.experience;
  }

  lemma RemoveUnknownExperience(d: ResumeData, id: string)
    requires !HasExperienceId(d.experience, id)
    ensures RemoveExperience(d, id) == d
  {
    FilterKeepsAll(d.experience, ExperienceIdIsNot(id));
  }

  /** Editing the same field of the same entries to the same value twice is editing it once,
      even when the field is the id itself. */
  lemma UpdateExperienceIdempotent(d: ResumeData, id: string, f: ExperienceField, v: string)
    ensures UpdateExperience(UpdateExperience(d, id, f, v), id, f, v) == UpdateExperience(d, id, f, v)
  {
    var once := UpdateExperience(d, id, f, v);
    var twice := UpdateExperience(once, id, f, v);
    forall i | 0 <= i < |d.experience| ensures twice.experience[i] == once.experience[i] {
      var e := d.experience[i];
      if e.id == id {
        assert once.experience[i] == SetExperienceField(e, f, v);
        if f == Id {
          assert once.experience[i] == e.(id := v);
        } else {
          assert once.experience[i].id == id;
        }
      }
    }
  }

  /** Removing a freshly added entry by its (fresh) id restores the record. */
  lemma RemoveAddedExperience(d: ResumeData, id: string)
    requires !HasExperienceId(d.experience, id)
    ensures RemoveExperience(AddExperience(d, id), id) == d
  {
    var p := ExperienceIdIsNot(id);
    FilterConcat(d.experience, [BlankExperience(id)], p);
    FilterKeepsAll(d.experience, p);
    assert Filter([BlankExperience(id)], p) == [];
  }

  /** The issue list of a prefix does not change when entries are appended. */
  lemma {:induction false} ExperienceUpToPrefix(xs: seq<Experience>, ys: seq<Experience>, k: nat)
    requires k <= |xs|
    ensures Validation.ExperienceIssuesUpTo(xs + ys, k) == Validation.ExperienceIssuesUpTo(xs, k)
  {
    if k > 0 {
      ExperienceUpToPrefix(xs, ys, k - 1);
      var e := xs[k - 1];
      assert (xs + ys)[k - 1] == e;
      calc {
        Validation.ExperienceIssuesUpTo(xs + ys, k);
        Validation.ExperienceIssuesUpTo(xs + ys, k - 1) + Validation.ExperienceEntryIssues(e, k);
        Validation.ExperienceIssuesUpTo(xs, k - 1) + Validation.ExperienceEntryIssues(e, k);
        Validation.ExperienceIssuesUpTo(xs, k);
      }
    }
  }

  /** After `addExperience` the validator reports what it reported before about experience
      (less "At least one work experience is required") and then the four empty fields of
      the new entry, numbered one past the old length. */
  lemma AddExperienceIssues(d: ResumeData, id: string)
    ensures var n := |d.experience| + 1;
      Validation.ExperienceIssues(AddExperience(d, id).experience)
      == (if d.experience == [] then [] else Validation.ExperienceIssues(d.experience))
         + [Validation.CompanyMissing(n), Validation.PositionMissing(n),
            Validation.DurationMissing(n), Validation.DescriptionMissing(n)]
  {
    var xs := d.experience;
    ExperienceUpToPrefix(xs, [BlankExperience(id)], |xs|);
  }

  // ---------------------------------------------------------------- education

  /** The entry `addEducation` appends; `id` stands for `Date.now().toString()`. */
  function BlankEducation(id: string): Education {
    Education(id, "", "", "")
  }

  /** `addEducation`: one blank entry with the given id at the end; nothing else changes. */
  function AddEducation(d: ResumeData, id: string): (r: ResumeData)
    ensures |r.education| == |d.education| + 1
    ensures r.education[..|d.education|] == d.education
    ensures r.education[|d.education|] == Education(id, "", "", "")
    ensures r == d.(education := r.education)
  {
    var xs := d.education + [BlankEducation(id)];
    assert xs[..|d.education|] == d.education;
    d.(education := xs)
  }

  /** The keys of an `Education` (`keyof Education`). */
  datatype EducationField = EduId | Institution | Degree | Year

  function EducationFieldValue(e: Education, f: EducationField): string {
    match f
    case EduId => e.id
    case Institution => e.institution
    case Degree => e.degree
    case Year => e.year
  }

  /** `{ ...edu, [field]: value }`. */
  function SetEducationField(e: Education, f: EducationField, v: string): (r: Education)
    ensures EducationFieldValue(r, f) == v
    ensures forall g :: g != f ==> EducationFieldValue(r, g) == EducationFieldValue(e, g)
  {
    match f
    case EduId => e.(id := v)
    case Institution => e.(institution := v)
    case Degree => e.(degree := v)
    case Year => e.(year := v)
  }

  /** The callback of `updateEducation`'s `map`. */
  function UpdateEducationIfId(id: string, f: EducationField, v: string): Education -> Education {
    (e: Education) => if e.id == id then SetEducationField(e, f, v) else e
  }

  /** `updateEducation`: entries whose id matches get the field set, the rest are kept,
      and the length and order of the list stay as they were. */
  function UpdateEducation(d: ResumeData, id: string, f: EducationField, v: string): (r: ResumeData)
    ensures |r.education| == |d.education|
    ensures forall i :: 0 <= i < |d.education| && d.education[i].id == id ==>
      EducationFieldValue(r.education[i], f) == v
      && forall g :: g != f ==> EducationFieldValue(r.education[i], g) == EducationFieldValue(d.education[i], g)
    ensures forall i :: 0 <= i < |d.education| && d.education[i].id != id ==> r.education[i] == d.education[i]
    ensures r == d.(education := r.education)
  {
    d.(education := Map(d.education, UpdateEducationIfId(id, f, v)))
  }

  /** The callback of `removeEducation`'s `filter`. */
  function EducationIdIsNot(id: string): Education -> bool {
    (e: Education) => e.id != id
  }

  /** `removeEducation`: no entry with the id is left, every other entry is kept. */
  function RemoveEducation(d: ResumeData, id: string): (r: ResumeData)
    ensures forall i :: 0 <= i < |r.education| ==> r.education[i].id != id && r.education[i] in d.education
    ensures forall i :: 0 <= i < |d.education| && d.education[i].id != id ==> d.education[i] in r.education
    ensures r == d.(education := r.education)
  {
    d.(education := Filter(d.education, EducationIdIsNot(id)))
  }

  predicate HasEducationId(xs: seq<Education>, id: string) {
    exists i :: 0 <= i < |xs| && xs[i].id == id
  }

  lemma RemoveEducationKeepsOrder(d: ResumeData, id: string)
    ensures IsSubsequence(RemoveEducation(d, id).education, d.education)
    ensures forall e :: multiset(RemoveEducation(d, id).education)[e]
                        == if e.id != id then multiset(d.education)[e] else 0
  {
    FilterIsSubsequence(d.education, EducationIdIsNot(id));
    FilterCounts(d.education, EducationIdIsNot(id));
  }

  lemma UpdateUnknownEducation(d: ResumeData, id: string, f: EducationField, v: string)
    requires !HasEducationId(d.education, id)
    ensures UpdateEducation(d, id, f, v) == d
  {
    assert UpdateEducation(d, id, f, v).education == d.education;
  }

  lemma RemoveUnknownEducation(d: ResumeData, id: string)
    requires !HasEducationId(d.education, id)
    ensures RemoveEducation(d, id) == d
  {
    FilterKeepsAll(d.education, EducationIdIsNot(id));
  }

  lemma UpdateEducationIdempotent(d: ResumeData, id: string, f: EducationField, v: string)
    ensures UpdateEducation(UpdateEducation(d, id, f, v), id, f, v) == UpdateEducation(d, id, f, v)
  {
    var once := UpdateEducation(d, id, f, v);
    var twice := UpdateEducation(once, id, f, v);
    forall i | 0 <= i < |d.education| ensures twice.education[i] == once.education[i] {
      var e := d.education[i];
      if e.id == id {
        assert once.education[i] == SetEducationField(e, f, v);
        if f == EduId {
          assert once.education[i] == e.(id := v);
        } else {
          assert once.education[i].id == id;
        }
      }
    }
  }

  lemma RemoveAddedEducation(d: ResumeData, id: string)
    requires !HasEducationId(d.education, id)
    ensures RemoveEducation(AddEducation(d, id), id) == d
  {
    var p := EducationIdIsNot(id);
    FilterConcat(d.education, [BlankEducation(id)], p);
    FilterKeepsAll(d.education, p);
    assert Filter([BlankEducation(id)], p) == [];
  }

  lemma {:induction false} EducationUpToPrefix(xs: seq<Education>, ys: seq<Education>, k: nat)
    requires k <= |xs|
    ensures Validation.EducationIssuesUpTo(xs + ys, k) == Validation.EducationIssuesUpTo(xs, k)
  {
    if k > 0 {
      EducationUpToPrefix(xs, ys, k - 1);
      var e := xs[k - 1];
      assert (xs + ys)[k - 1] == e;
      calc {
        Validation.EducationIssuesUpTo(xs + ys, k);
        Validation.EducationIssuesUpTo(xs + ys, k - 1) + Validation.EducationEntryIssues(e, k);
        Validation.EducationIssuesUpTo(xs, k - 1) + Validation.EducationEntryIssues(e, k);
        Validation.EducationIssuesUpTo(xs, k);
      }
    }
  }

  lemma AddEducationIssues(d: ResumeData, id: string)
    ensures var n := |d.education| + 1;
      Validation.EducationIssues(AddEducation(d, id).education)
      == (if d.education == [] then [] else Validation.EducationIssues(d.education))
         + [Validation.InstitutionMissing(n), Validation.DegreeMissing(n), Validation.YearMissing(n)]
  {
    var xs := d.education;
    EducationUpToPrefix(xs, [BlankEducation(id)], |xs|);
  }

  // ---------------------------------------------------------------- skills

  /** `addSkill`: the trimmed skill is appended when it is non-empty and not yet listed. */
  function AddSkill(d: ResumeData, s: string): (r: ResumeData)
    ensures forall x :: x in r.skills <==> x in d.skills || (x == Trim(s) && !IsBlank(s))
    ensures |d.skills| <= |r.skills| <= |d.skills| + 1 && r.skills[..|d.skills|] == d.skills
    ensures r == d.(skills := r.skills)
    ensures IsBlank(s) || Trim(s) in d.skills ==> r == d
    ensures !IsBlank(s) && Trim(s) !in d.skills ==> r.skills == d.skills + [Trim(s)]
  {
    var t := Trim(s);
    if t != [] && t !in d.skills then
      var xs := d.skills + [t];
      assert xs[..|d.skills|] == d.skills;
      d.(skills := xs)
    else
      d
  }

  lemma AddSkillIdempotent(d: ResumeData, s: string)
    ensures AddSkill(AddSkill(d, s), s) == AddSkill(d, s)
  {
  }

  lemma AddSkillKeepsNoDuplicates(d: ResumeData, s: string)
    requires NoDuplicates(d.skills)
    ensures NoDuplicates(AddSkill(d, s).skills)
  {
  }

  /** The callback of `removeSkill`'s `filter`. */
  function SkillIsNot(s: string): string -> bool {
    x => x != s
  }

  /** `removeSkill`: every exact occurrence goes, every other skill stays as often as before. */
  function RemoveSkill(d: ResumeData, s: string): (r: ResumeData)
    ensures s !in r.skills
    ensures forall x :: x != s ==> multiset(r.skills)[x] == multiset(d.skills)[x]
    ensures r == d.(skills := r.skills)
  {
    FilterCounts(d.skills, SkillIsNot(s));
    d.(skills := Filter(d.skills, SkillIsNot(s)))
  }

  lemma RemoveSkillKeepsOrder(d: ResumeData, s: string)
    ensures IsSubsequence(RemoveSkill(d, s).skills, d.skills)
  {
    FilterIsSubsequence(d.skills, SkillIsNot(s));
  }

  /** Removing a skill twice removes nothing more the second time. */
  lemma RemoveSkillIdempotent(d: ResumeData, s: string)
    ensures RemoveSkill(RemoveSkill(d, s), s) == RemoveSkill(d, s)
  {
    FilterIdempotent(d.skills, SkillIsNot(s));
  }

  /** A duplicate-free skill list stays duplicate-free when a skill is removed. */
  lemma RemoveSkillKeepsNoDuplicates(d: ResumeData, s: string)
    requires NoDuplicates(d.skills)
    ensures NoDuplicates(RemoveSkill(d, s).skills)
  {
    FilterNoDuplicates(d.skills, SkillIsNot(s));
  }

  /** Removing a skill that was just added (and was new) restores the record. */
  lemma RemoveAddedSkill(d: ResumeData, s: string)
    requires !IsBlank(s) && Trim(s) !in d.skills
    ensures RemoveSkill(AddSkill(d, s), Trim(s)) == d
  {
    var p := SkillIsNot(Trim(s));
    FilterConcat(d.skills, [Trim(s)], p);
    FilterKeepsAll(d.skills, p);
    assert Filter([Trim(s)], p) == [];
  }

  function IsNonEmpty(s: string): bool {
    |s| > 0
  }

  /** The parse of `updateSkills`: split on ',', trim every piece, drop the empty ones.
      Duplicates are not removed. */
  function ParseSkills(text: string): (r: seq<string>)
    ensures forall i :: 0 <= i < |r| ==> IsListItem(r[i])
  {
    var pieces := Split(text, ',');
    var trimmed := Map(pieces, Trim);
    assert forall i :: 0 <= i < |trimmed| ==> Trimmed(trimmed[i]) && ',' !in trimmed[i] by {
      forall i | 0 <= i < |trimmed| ensures Trimmed(trimmed[i]) && ',' !in trimmed[i] {
        TrimKeepsOnlyItsChars(pieces[i], ',');
      }
    }
    Filter(trimmed, IsNonEmpty)
  }

  /** `updateSkills`: the list becomes the parse of the text. */
  function UpdateSkills(d: ResumeData, text: string): (r: ResumeData)
    ensures forall i :: 0 <= i < |r.skills| ==> IsListItem(r.skills[i])
    ensures r == d.(skills := r.skills)
  {
    d.(skills := ParseSkills(text))
  }

  /** The bulk editor shows `skills.join(', ')`; parsing that text back gives the same list
      whenever every skill is non-empty, trimmed and free of commas. */
  lemma ParseJoinedSkills(xs: seq<string>)
    requires forall i :: 0 <= i < |xs| ==> IsListItem(xs[i])
    ensures ParseSkills(Join(xs, ", ")) == xs
  {
    if xs == [] {
      assert Split("", ',') == [""];
      assert Map([""], Trim) == [Trim("")];
    } else {
      TrimmedPieces(xs);
      FilterKeepsAll(xs, IsNonEmpty);
    }
  }

  /** Editing the bulk text without changing it leaves the record alone. */
  lemma UpdateSkillsWithShownText(d: ResumeData)
    requires forall i :: 0 <= i < |d.skills| ==> IsListItem(d.skills[i])
    ensures UpdateSkills(d, Join(d.skills, ", ")) == d
  {
    ParseJoinedSkills(d.skills);
  }

  /** The parse keeps repeated skills. */
  lemma ParseKeepsDuplicates(s: string)
    requires IsListItem(s)
    ensures ParseSkills(s + ", " + s) == [s, s]
  {
    assert Join([s, s], ", ") == s + ", " + s;
    ParseJoinedSkills([s, s]);
  }
}
