/**
 * The records the agent reads and returns: a resume, its experience entries
 * and an ATS evaluation. Every field the source gives a default has the same
 * default in `EmptyResume` and `EmptyExperience`.
 */
module ResumeTypes {
  import opened Json

  /** One job of the resume; `enhancedBullets` stays empty until a rewrite pass fills it. */
  datatype ExperienceItem = ExperienceItem(
    role: string,
    company: string,
    duration: string,
    location: string,
    summaryInput: string,
    techStack: string,
    enhancedBullets: seq<string>)

  /**
   * The whole resume. `education` is a list of dicts and `skills` a dict, both
   * of arbitrary JSON values, as the source leaves them untyped.
   */
  datatype ResumeData = ResumeData(
    fullName: string,
    contactInfo: string,
    education: seq<seq<Member>>,
    skills: seq<Member>,
    experience: seq<ExperienceItem>)

  /** The keyword-match verdict of one audit. The source does not bound `score`. */
  datatype ATSEvaluation = ATSEvaluation(score: int, missingKeywords: seq<string>, suggestions: seq<string>)

  const EmptyExperience := ExperienceItem("", "", "", "", "", "", [])

  /** `ResumeData()`: every field at its default. */
  const EmptyResume := ResumeData("", "", [], [], [])
}
