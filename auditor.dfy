/**
 * `audit_resume`: the ATS keyword check of a resume against a job description.
 *
 * Without a job description the audit answers at once, without asking the
 * oracle. Otherwise it shows the oracle the skills and, per experience entry,
 * its enhanced bullets or, when there are none, its raw summary, together with
 * the first 3000 characters of the job description; the reply is validated as
 * an `ATSEvaluation`, and anything that fails gives a fixed error verdict.
 */
module Auditor {
  import opened Wrappers
  import opened Json
  import opened Text
  import opened ResumeTypes
  import opened Gateway

  /** The verdict without a job description to compare against. */
  const NoJdEvaluation := ATSEvaluation(100, [], ["No JD provided for comparison."])

  /** The verdict when the reply is missing, is not JSON or does not validate. */
  const AuditParseError := ATSEvaluation(0, ["Error parsing audit"], [])

  /** What the prompt shows of one entry: its enhanced bullets when it has any, else its raw summary. */
  function Shown(job: ExperienceItem): (t: ExperienceText)
    ensures t.BulletsText? <==> job.enhancedBullets != []
    ensures t.BulletsText? ==> t.bullets == job.enhancedBullets
    ensures t.SummaryText? ==> t.summary == job.summaryInput
  {
    if job.enhancedBullets != [] then BulletsText(job.enhancedBullets) else SummaryText(job.summaryInput)
  }

  /** The prompt of an audit: the truncated job description, the skills and each entry's text, in order. */
  function AuditPrompt(resume: ResumeData, jdText: string): (p: Prompt)
    ensures p.AuditRequest? && p.skills == resume.skills
    ensures p.jobDescription <= jdText
    ensures |p.jobDescription| == if |jdText| <= JdLimit then |jdText| else JdLimit
    ensures |p.experience| == |resume.experience|
    ensures forall k :: 0 <= k < |resume.experience| ==> p.experience[k] == Shown(resume.experience[k])
  {
    AuditRequest(
      Prefix(jdText, JdLimit),
      resume.skills,
      seq(|resume.experience|, k requires 0 <= k < |resume.experience| => Shown(resume.experience[k])))
  }

  /**
   * `ATSEvaluation(**data)`: `data` must be an object with an integer
   * `score` and lists of strings under `missing_keywords` and `suggestions`;
   * any other member is ignored.
   */
  function ValidateAudit(j: Json): (e: Option<ATSEvaluation>)
    ensures e.Some? ==> j.JObject? && Get(j.members, "score") == Some(JNum(e.value.score))
    ensures e.Some? ==>
      && Get(j.members, "missing_keywords") == Some(StrList(e.value.missingKeywords))
      && Get(j.members, "suggestions") == Some(StrList(e.value.suggestions))
  {
    if !j.JObject? then None
    else
      var score := Get(j.members, "score");
      var missing := Get(j.members, "missing_keywords");
      var suggestions := Get(j.members, "suggestions");
      if score.None? || !score.value.JNum? || missing.None? || suggestions.None? then None
      else
        match (AsStrings(missing.value), AsStrings(suggestions.value))
        case (Some(m), Some(s)) =>
          AsStringsSpec(missing.value);
          AsStringsSpec(suggestions.value);
          Some(ATSEvaluation(score.value.n, m, s))
        case _ => None
  }

  /** The verdict read from the oracle's answer. */
  function AuditOutcome(r: Response): (e: ATSEvaluation)
    ensures r.NoResponse? ==> e == AuditParseError
    ensures e != AuditParseError ==> Decode(r).Some? && ValidateAudit(Decode(r).value) == Some(e)
  {
    match Decode(r)
    case None => AuditParseError
    case Some(j) =>
      match ValidateAudit(j)
      case Some(e) => e
      case None => AuditParseError
  }

  /** The evaluation as the oracle is asked to write it. */
  function AuditJson(e: ATSEvaluation): Json {
    JObject([
      Member("score", JNum(e.score)),
      Member("missing_keywords", StrList(e.missingKeywords)),
      Member("suggestions", StrList(e.suggestions))])
  }

  /** `audit_resume`: the verdict and the prompts sent, which are none or exactly one. */
  method AuditResume(resume: ResumeData, jdText: string, llm: Llm)
    returns (eval: ATSEvaluation, calls: seq<Prompt>)
    ensures jdText == [] ==> eval == NoJdEvaluation && calls == []
    ensures jdText != [] ==> calls == [AuditPrompt(resume, jdText)] && eval == AuditOutcome(llm(0, calls[0]))
  {
    if jdText == [] {
      return NoJdEvaluation, [];
    }
    var experienceText: seq<ExperienceText> := [];
    for k := 0 to |resume.experience|
      invariant |experienceText| == k
      invariant forall i :: 0 <= i < k ==> experienceText[i] == Shown(resume.experience[i])
    {
      var job := resume.experience[k];
      if job.enhancedBullets != [] {
        experienceText := experienceText + [BulletsText(job.enhancedBullets)];
      } else {
        experienceText := experienceText + [SummaryText(job.summaryInput)];
      }
    }
    var prompt := AuditRequest(Prefix(jdText, JdLimit), resume.skills, experienceText);
    assert prompt == AuditPrompt(resume, jdText);
    calls := [prompt];
    eval := AuditOutcome(llm(0, prompt));
  }

  /** An evaluation written as the oracle is asked to validates back to itself. */
  lemma AuditRoundTrip(e: ATSEvaluation)
    ensures ValidateAudit(AuditJson(e)) == Some(e)
  {
    var members := AuditJson(e).members;
    assert Get(members, "score") == Some(JNum(e.score));
    assert members[1..][0].key == "missing_keywords";
    assert Get(members, "missing_keywords") == Some(StrList(e.missingKeywords));
    var rest := members[1..][1..];
    assert rest[0] == Member("suggestions", StrList(e.suggestions));
    assert Get(members[1..], "suggestions") == Get(rest, "suggestions");
    assert Get(members, "suggestions") == Some(StrList(e.suggestions));
    AsStringsOfStrList(e.missingKeywords);
    AsStringsOfStrList(e.suggestions);
  }

  /**
   * A reply holding an evaluation is passed on unchanged, whatever its score:
   * the score is not clamped to 0..100, and a reply that spells out the error
   * verdict cannot be told apart from a failure.
   */
  lemma AuditOfReply(text: string, e: ATSEvaluation)
    ensures AuditOutcome(Reply(text, Some(AuditJson(e)))) == e
  {
    AuditRoundTrip(e);
  }

  /** A failed call, text that is not JSON, or JSON that is not an object gives the error verdict. */
  lemma AuditFailsToSentinel(r: Response)
    requires r.NoResponse? || r.decoded.None? || !r.decoded.value.JObject?
    ensures AuditOutcome(r) == AuditParseError
  {
  }

  /** An object lacking any of the three fields, or with a score that is not an integer, does not validate. */
  lemma MissingFieldFails(members: seq<Member>)
    requires !HasKey(members, "score") || !HasKey(members, "missing_keywords") || !HasKey(members, "suggestions")
      || (Get(members, "score").Some? && !Get(members, "score").value.JNum?)
    ensures ValidateAudit(JObject(members)) == None
  {
    GetSpec(members, "score");
    GetSpec(members, "missing_keywords");
    GetSpec(members, "suggestions");
  }

  /** Members under any other key are ignored. */
  lemma ExtraKeyIgnored(members: seq<Member>, m: Member)
    requires m.key != "score" && m.key != "missing_keywords" && m.key != "suggestions"
    ensures ValidateAudit(JObject(members + [m])) == ValidateAudit(JObject(members))
  {
    GetAppendOther(members, m, "score");
    GetAppendOther(members, m, "missing_keywords");
    GetAppendOther(members, m, "suggestions");
  }
}
