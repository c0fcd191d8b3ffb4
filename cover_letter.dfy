/**
 * `generate_cover_letter`: one oracle call showing the candidate's name, each
 * entry's enhanced bullets and the first 3000 characters of the job
 * description. What comes back is never validated: the value under
 * `cover_letter` is returned whatever its type, an object without that key
 * is returned as its `str()` rendering, and anything that is not an object
 * (or not JSON) is returned as the raw reply text. A failed call yields `None`,
 * since decoding the missing reply raises and the handler hands it back.
 */
module CoverLetter {
  import opened Wrappers
  import opened Json
  import opened Text
  import opened ResumeTypes
  import opened Gateway

  /** What `generate_cover_letter` returns. */
  datatype Letter =
    | NoLetter                        // `None`: the call itself failed
    | LetterValue(value: Json)        // `data["cover_letter"]`, of whatever JSON type
    | ObjectText(data: seq<Member>)   // `str(data)` of an object without `cover_letter`, rendering left abstract
    | RawText(text: string)           // the reply text itself

  /** The bullets of every entry, in order. */
  function BulletsPerJob(jobs: seq<ExperienceItem>): (b: seq<seq<string>>)
    ensures |b| == |jobs|
    ensures forall k :: 0 <= k < |jobs| ==> b[k] == jobs[k].enhancedBullets
  {
    seq(|jobs|, k requires 0 <= k < |jobs| => jobs[k].enhancedBullets)
  }

  /** The cover-letter prompt: the name, the bullets per entry and the truncated job description. */
  function LetterPrompt(resume: ResumeData, jdText: string): (p: Prompt)
    ensures p.CoverLetterRequest? && p.fullName == resume.fullName
    ensures p.bullets == BulletsPerJob(resume.experience)
    ensures p.jobDescription <= jdText
    ensures |p.jobDescription| == if |jdText| <= JdLimit then |jdText| else JdLimit
  {
    CoverLetterRequest(resume.fullName, BulletsPerJob(resume.experience), Prefix(jdText, JdLimit))
  }

  /** What the composer makes of the oracle's answer. */
  function LetterOf(r: Response): (l: Letter)
    ensures l.LetterValue? ==>
      r.Reply? && r.decoded.Some? && r.decoded.value.JObject?
      && Get(r.decoded.value.members, "cover_letter") == Some(l.value)
    ensures l.ObjectText? ==> r.Reply? && r.decoded == Some(JObject(l.data)) && Get(l.data, "cover_letter").None?
    ensures l.RawText? ==> r.Reply? && l.text == r.text && (r.decoded.None? || !r.decoded.value.JObject?)
  {
    match r
    case NoResponse => NoLetter
    case Reply(text, decoded) =>
      match decoded
      case Some(JObject(members)) =>
        (match Get(members, "cover_letter")
         case Some(v) => LetterValue(v)
         case None => ObjectText(members))
      case _ => RawText(text)
  }

  /** `generate_cover_letter`. */
  function GenerateCoverLetter(resume: ResumeData, jdText: string, llm: Llm): (l: Letter)
    ensures l.NoLetter? <==> llm(0, LetterPrompt(resume, jdText)).NoResponse?
    ensures l.RawText? ==> l.text == llm(0, LetterPrompt(resume, jdText)).text
  {
    LetterOf(llm(0, LetterPrompt(resume, jdText)))
  }

  /** The letter as the oracle is asked to write it. */
  function LetterJson(letter: string): Json {
    JObject([Member("cover_letter", JStr(letter))])
  }

  /** A reply holding a letter gives back exactly that letter. */
  lemma LetterOfReply(text: string, letter: string)
    ensures LetterOf(Reply(text, Some(LetterJson(letter)))) == LetterValue(JStr(letter))
  {
  }

  /**
   * The composer never fails on what comes back: it yields `NoLetter` (the
   * handler's `None`) exactly when the call itself failed.
   */
  lemma NoLetterOnlyWithoutReply(r: Response)
    ensures LetterOf(r) == NoLetter <==> r == NoResponse
  {
  }

  /** A letter the caller receives as Python `None`: no letter at all, or a `cover_letter` member holding `null`. */
  predicate IsNone(l: Letter) {
    l.NoLetter? || l == LetterValue(JNull)
  }

  /**
   * The caller gets `None` exactly when the call failed or the reply is an
   * object whose `cover_letter` member is `null`.
   */
  lemma NoneExactlyWhen(r: Response)
    ensures IsNone(LetterOf(r)) <==>
      || r.NoResponse?
      || (r.decoded.Some? && r.decoded.value.JObject? && Get(r.decoded.value.members, "cover_letter") == Some(JNull))
  {
  }

  /** Text that is not JSON, or JSON that is not an object, is handed back as the reply text. */
  lemma BadPayloadGivesRawText(text: string, decoded: Option<Json>)
    requires decoded.None? || !decoded.value.JObject?
    ensures LetterOf(Reply(text, decoded)) == RawText(text)
  {
  }

  /**
   * An object is never passed back as raw text: its `cover_letter` member
   * when it has one (stored under exactly that key), otherwise its rendering.
   */
  lemma ObjectReplyIsRead(text: string, members: seq<Member>)
    ensures HasKey(members, "cover_letter") ==>
      LetterOf(Reply(text, Some(JObject(members)))).LetterValue?
      && Member("cover_letter", LetterOf(Reply(text, Some(JObject(members)))).value) in members
    ensures !HasKey(members, "cover_letter") ==> LetterOf(Reply(text, Some(JObject(members)))) == ObjectText(members)
  {
    GetSpec(members, "cover_letter");
  }
}
