/**
 * The language-model service, seen from the agent as an oracle.
 *
 * Each operation hands the oracle a structured prompt that records exactly
 * the inputs its text is built from (the prose around them is left abstract),
 * together with the number of calls the operation has already made, so that
 * a stub may answer the same prompt differently on a later call.
 */
module Gateway {
  import opened Wrappers
  import opened Json

  /** How much of a job description any prompt carries. */
  const JdLimit: nat := 3000

  /** The style block of a rewrite prompt: the ATS optimizer or the humanizer. */
  datatype StyleGuide = AtsOptimizer | Humanizer

  /** What the audit prompt shows of one job: its enhanced bullets, or its raw summary. */
  datatype ExperienceText = BulletsText(bullets: seq<string>) | SummaryText(summary: string)

  datatype Prompt =
    | ParseRequest(resumeText: string)
    | AuditRequest(jobDescription: string, skills: seq<Member>, experience: seq<ExperienceText>)
    | CoverLetterRequest(fullName: string, bullets: seq<seq<string>>, jobDescription: string)
    | RewriteRequest(
        targetRole: string,
        style: StyleGuide,
        jdContext: string,
        forbidden: set<string>,
        techStack: string,
        role: string,
        summary: string)

  /**
   * What a call yields: nothing at all (the API call failed), or the raw reply
   * text together with what `json.loads` makes of it (`None` when the text is
   * not valid JSON).
   */
  datatype Response = NoResponse | Reply(text: string, decoded: Option<Json>)

  /** The oracle: the number of earlier calls in this operation, the prompt, and the answer. */
  type Llm = (nat, Prompt) -> Response

  /** `json.loads(response)`: a missing response raises just as malformed text does. */
  function Decode(r: Response): (j: Option<Json>)
    ensures j.Some? ==> r.Reply?
  {
    match r
    case NoResponse => None
    case Reply(_, decoded) => decoded
  }
}
