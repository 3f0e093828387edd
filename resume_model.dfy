/**
 * The resume record edited by the builder (src/components/ResumeBuilder.tsx):
 * personal information, the repeatable experience and education entries,
 * the skill list, and the record types that are declared but never edited
 * or rendered (certifications, projects, awards, publications, keywords).
 */
module ResumeModel {
  import opened Wrappers

  datatype Experience = Experience(id: string, company: string, position: string, duration: string, description: string)

  datatype Education = Education(id: string, institution: string, degree: string, year: string)

  datatype Certification = Certification(id: string, name: string, issuer: string, year: string, expiry: Option<string>)

  datatype Project = Project(id: string, name: string, description: string, technologies: string, link: Option<string>)

  datatype Award = Award(id: string, name: string, issuer: string, year: string, description: Option<string>)

  datatype Publication = Publication(id: string, title: string, journal: Option<string>, year: string, link: Option<string>)

  datatype PersonalInfo = PersonalInfo(
    name: string, email: string, phone: string, location: string,
    linkedin: string, gmail: string, summary: string,
    title: Option<string>, website: Option<string>, instagram: Option<string>)

  datatype ResumeData = ResumeData(
    personalInfo: PersonalInfo,
    experience: seq<Experience>,
    education: seq<Education>,
    skills: seq<string>,
    certifications: seq<Certification>,
    projects: seq<Project>,
    awards: seq<Award>,
    publications: seq<Publication>,
    keywords: seq<string>)

  /** The record a builder session starts with: every text field empty, every list empty. */
  function InitialResumeData(): ResumeData {
    ResumeData(
      PersonalInfo("", "", "", "", "", "", "", Some(""), Some(""), Some("")),
      [], [], [], [], [], [], [], [])
  }
}
