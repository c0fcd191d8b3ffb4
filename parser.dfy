/**
 * `parse_resume_text`: the oracle turns the first 8000 characters of a
 * resume's text into a JSON object, which is validated as a `ResumeData`;
 * a failed call, a reply that is not JSON, or one that does not validate
 * gives the all-default record.
 *
 * Validation follows the declared fields: a string field must hold a string
 * and defaults to "" when absent; `education` must be a list of objects,
 * `skills` an object and `experience` a list of objects each validated as an
 * `ExperienceItem`, all defaulting to empty; members under other keys are
 * ignored.
 */
module Parser {
  import opened Wrappers
  import opened Json
  import opened Text
  import opened ResumeTypes
  import opened Gateway

  /** How much of the resume's text the parse prompt carries. */
  const TextLimit: nat := 8000

  /** The parse prompt: the first 8000 characters of the resume's text. */
  function ParsePrompt(rawText: string): (p: Prompt)
    ensures p.ParseRequest? && p.resumeText <= rawText
    ensures |p.resumeText| == if |rawText| <= TextLimit then |rawText| else TextLimit
  {
    ParseRequest(Prefix(rawText, TextLimit))
  }

  /** A `str` field with default "": absent gives "", a string gives itself, anything else fails. */
  function StrField(members: seq<Member>, key: string): Option<string> {
    match Get(members, key)
    case None => Some("")
    case Some(JStr(s)) => Some(s)
    case Some(_) => None
  }

  /** `s` is what a `str` field under `key` holds: the string stored there, or "" when the key is absent. */
  predicate ReadsAs(members: seq<Member>, key: string, s: string) {
    Get(members, key) == Some(JStr(s)) || (Get(members, key).None? && s == "")
  }

  /** A `List[str]` field with an empty default. */
  function StringsField(members: seq<Member>, key: string): Option<seq<string>> {
    match Get(members, key)
    case None => Some([])
    case Some(v) => AsStrings(v)
  }

  /** A list whose every element is an object, read as those objects' members. */
  function Objects(items: seq<Json>): (r: Option<seq<seq<Member>>>)
    ensures r.Some? <==> forall k :: 0 <= k < |items| ==> items[k].JObject?
    ensures r.Some? ==> |r.value| == |items| && forall k :: 0 <= k < |items| ==> items[k] == JObject(r.value[k])
  {
    if items == [] then Some([])
    else if !items[0].JObject? then None
    else
      match Objects(items[1..])
      case Some(rest) => Some([items[0].members] + rest)
      case None => None
  }

  /** `ExperienceItem(**data)`: every field a string defaulting to "", and the bullets a list of strings. */
  function ValidateExperience(j: Json): (e: Option<ExperienceItem>)
    ensures e.Some? ==> j.JObject?
    ensures e.Some? ==>
      && ReadsAs(j.members, "role", e.value.role)
      && ReadsAs(j.members, "company", e.value.company)
      && ReadsAs(j.members, "duration", e.value.duration)
      && ReadsAs(j.members, "location", e.value.location)
      && ReadsAs(j.members, "summary_input", e.value.summaryInput)
      && ReadsAs(j.members, "tech_stack", e.value.techStack)
    ensures e.Some? && Get(j.members, "enhanced_bullets").Some? ==>
      Get(j.members, "enhanced_bullets") == Some(StrList(e.value.enhancedBullets))
    ensures e.Some? && Get(j.members, "enhanced_bullets").None? ==> e.value.enhancedBullets == []
  {
    if !j.JObject? then None
    else
      var role := StrField(j.members, "role");
      var company := StrField(j.members, "company");
      var duration := StrField(j.members, "duration");
      var location := StrField(j.members, "location");
      var summary := StrField(j.members, "summary_input");
      var techStack := StrField(j.members, "tech_stack");
      var bullets := StringsField(j.members, "enhanced_bullets");
      if role.Some? && company.Some? && duration.Some? && location.Some? && summary.Some? && techStack.Some? && bullets.Some?
      then
        var e := ExperienceItem(role.value, company.value, duration.value, location.value, summary.value, techStack.value, bullets.value);
        if Get(j.members, "enhanced_bullets").Some? then
          AsStringsSpec(Get(j.members, "enhanced_bullets").value); Some(e)
        else Some(e)
      else None
  }

  /** `List[ExperienceItem]`: every element validates, in order. */
  function ValidateExperiences(items: seq<Json>): (r: Option<seq<ExperienceItem>>)
    ensures r.Some? <==> forall k :: 0 <= k < |items| ==> ValidateExperience(items[k]).Some?
    ensures r.Some? ==> |r.value| == |items| && forall k :: 0 <= k < |items| ==> ValidateExperience(items[k]) == Some(r.value[k])
  {
    if items == [] then Some([])
    else
      match (ValidateExperience(items[0]), ValidateExperiences(items[1..]))
      case (Some(e), Some(rest)) => Some([e] + rest)
      case _ => None
  }

  /** The `education` field: a list of objects, empty when absent. */
  function EducationField(members: seq<Member>): Option<seq<seq<Member>>> {
    match Get(members, "education")
    case None => Some([])
    case Some(JList(items)) => Objects(items)
    case Some(_) => None
  }

  /** The `skills` field: an object, empty when absent. */
  function SkillsField(members: seq<Member>): Option<seq<Member>> {
    match Get(members, "skills")
    case None => Some([])
    case Some(JObject(skills)) => Some(skills)
    case Some(_) => None
  }

  /** The `experience` field: a list of valid entries, empty when absent. */
  function ExperienceField(members: seq<Member>): Option<seq<ExperienceItem>> {
    match Get(members, "experience")
    case None => Some([])
    case Some(JList(items)) => ValidateExperiences(items)
    case Some(_) => None
  }

  /** `ResumeData(**data)`: `data` must be an object whose five fields all validate. */
  function ValidateResume(j: Json): (r: Option<ResumeData>)
    ensures r.Some? ==> j.JObject?
    ensures r.Some? ==>
      && ReadsAs(j.members, "full_name", r.value.fullName)
      && ReadsAs(j.members, "contact_info", r.value.contactInfo)
    ensures r.Some? ==>
      Get(j.members, "skills") == Some(JObject(r.value.skills)) || (Get(j.members, "skills").None? && r.value.skills == [])
    ensures r.Some? && Get(j.members, "education").Some? ==>
      Get(j.members, "education").value.JList? && |Get(j.members, "education").value.items| == |r.value.education|
    ensures r.Some? && Get(j.members, "experience").Some? ==>
      Get(j.members, "experience").value.JList? && |Get(j.members, "experience").value.items| == |r.value.experience|
    ensures r.Some? && Get(j.members, "education").None? ==> r.value.education == []
    ensures r.Some? && Get(j.members, "experience").None? ==> r.value.experience == []
  {
    if !j.JObject? then None
    else
      var fullName := StrField(j.members, "full_name");
      var contactInfo := StrField(j.members, "contact_info");
      var education := EducationField(j.members);
      var skills := SkillsField(j.members);
      var experience := ExperienceField(j.members);
      if fullName.Some? && contactInfo.Some? && education.Some? && skills.Some? && experience.Some?
      then Some(ResumeData(fullName.value, contactInfo.value, education.value, skills.value, experience.value))
      else None
  }

  /** `parse_resume_text`: the validated reply, or `ResumeData()` when anything fails. */
  function ParseResume(rawText: string, llm: Llm): (r: ResumeData)
    ensures Decode(llm(0, ParsePrompt(rawText))).None? ==> r == EmptyResume
    ensures r != EmptyResume ==>
      Decode(llm(0, ParsePrompt(rawText))).Some? && ValidateResume(Decode(llm(0, ParsePrompt(rawText))).value) == Some(r)
  {
    match Decode(llm(0, ParsePrompt(rawText)))
    case None => EmptyResume
    case Some(j) =>
      match ValidateResume(j)
      case Some(r) => r
      case None => EmptyResume
  }

  /** An experience entry written with every field present. */
  function ExperienceJson(e: ExperienceItem): Json {
    JObject([
      Member("role", JStr(e.role)),
      Member("company", JStr(e.company)),
      Member("duration", JStr(e.duration)),
      Member("location", JStr(e.location)),
      Member("summary_input", JStr(e.summaryInput)),
      Member("tech_stack", JStr(e.techStack)),
      Member("enhanced_bullets", StrList(e.enhancedBullets))])
  }

  /** A resume written with every field present, as the oracle is asked to write it. */
  function ResumeJson(r: ResumeData): Json {
    JObject([
      Member("full_name", JStr(r.fullName)),
      Member("contact_info", JStr(r.contactInfo)),
      Member("education", JList(ObjectsJson(r.education))),
      Member("skills", JObject(r.skills)),
      Member("experience", JList(ExperiencesJson(r.experience)))])
  }

  /** A list of objects, written out. */
  function ObjectsJson(objects: seq<seq<Member>>): (items: seq<Json>)
    ensures |items| == |objects|
  {
    seq(|objects|, k requires 0 <= k < |objects| => JObject(objects[k]))
  }

  /** A list of experience entries, written out. */
  function ExperiencesJson(entries: seq<ExperienceItem>): (items: seq<Json>)
    ensures |items| == |entries|
  {
    seq(|entries|, k requires 0 <= k < |entries| => ExperienceJson(entries[k]))
  }

  /** Any list of objects reads back as their members. */
  lemma {:induction false} ObjectsRoundTrip(objects: seq<seq<Member>>)
    ensures Objects(ObjectsJson(objects)) == Some(objects)
  {
    var items := ObjectsJson(objects);
    if objects != [] {
      var tail := objects[1..];
      assert items[1..] == ObjectsJson(tail);
      ObjectsRoundTrip(tail);
      assert [objects[0]] + tail == objects;
    }
  }

  /** An entry written with every field present validates back to itself. */
  lemma ExperienceRoundTrip(e: ExperienceItem)
    ensures ValidateExperience(ExperienceJson(e)) == Some(e)
  {
    ExperienceLeadingFields(e);
    ExperienceTrailingFields(e);
    AsStringsOfStrList(e.enhancedBullets);
  }

  /** The first four members of a written entry are found under their keys. */
  lemma ExperienceLeadingFields(e: ExperienceItem)
    ensures Get(ExperienceJson(e).members, "role") == Some(JStr(e.role))
    ensures Get(ExperienceJson(e).members, "company") == Some(JStr(e.company))
    ensures Get(ExperienceJson(e).members, "duration") == Some(JStr(e.duration))
    ensures Get(ExperienceJson(e).members, "location") == Some(JStr(e.location))
  {
    var ms := ExperienceJson(e).members;
    GetAt(ms, 0);
    GetAt(ms, 1);
    GetAt(ms, 2);
    GetAt(ms, 3);
  }

  /** The last three members of a written entry are found under their keys. */
  lemma ExperienceTrailingFields(e: ExperienceItem)
    ensures Get(ExperienceJson(e).members, "summary_input") == Some(JStr(e.summaryInput))
    ensures Get(ExperienceJson(e).members, "tech_stack") == Some(JStr(e.techStack))
    ensures Get(ExperienceJson(e).members, "enhanced_bullets") == Some(StrList(e.enhancedBullets))
  {
    var ms := ExperienceJson(e).members;
    GetAt(ms, 4);
    GetAt(ms, 5);
    GetAt(ms, 6);
  }

  /** Written entries, in order, validate back to themselves. */
  lemma {:induction false} ExperiencesRoundTrip(entries: seq<ExperienceItem>)
    ensures ValidateExperiences(ExperiencesJson(entries)) == Some(entries)
  {
    var items := ExperiencesJson(entries);
    if entries != [] {
      var tail := entries[1..];
      assert items[1..] == ExperiencesJson(tail);
      ExperienceRoundTrip(entries[0]);
      ExperiencesRoundTrip(tail);
      assert [entries[0]] + tail == entries;
    }
  }

  /** A resume written with every field present validates back to itself. */
  lemma ResumeRoundTrip(r: ResumeData)
    ensures ValidateResume(ResumeJson(r)) == Some(r)
  {
    ResumeFields(r);
    ObjectsRoundTrip(r.education);
    ExperiencesRoundTrip(r.experience);
  }

  /** Each member of a written resume is found under its key. */
  lemma ResumeFields(r: ResumeData)
    ensures Get(ResumeJson(r).members, "full_name") == Some(JStr(r.fullName))
    ensures Get(ResumeJson(r).members, "contact_info") == Some(JStr(r.contactInfo))
    ensures Get(ResumeJson(r).members, "education") == Some(JList(ObjectsJson(r.education)))
    ensures Get(ResumeJson(r).members, "skills") == Some(JObject(r.skills))
    ensures Get(ResumeJson(r).members, "experience") == Some(JList(ExperiencesJson(r.experience)))
  {
    var ms := ResumeJson(r).members;
    GetAt(ms, 0);
    GetAt(ms, 1);
    GetAt(ms, 2);
    GetAt(ms, 3);
    GetAt(ms, 4);
  }

  /** A reply that holds a written resume is parsed to exactly that resume. */
  lemma ParseOfReply(rawText: string, llm: Llm, text: string, r: ResumeData)
    requires llm(0, ParsePrompt(rawText)) == Reply(text, Some(ResumeJson(r)))
    ensures ParseResume(rawText, llm) == r
  {
    ResumeRoundTrip(r);
  }

  /** A failed call, a reply that is not JSON, or JSON that is not an object gives the all-default record. */
  lemma ParseFailsToDefault(rawText: string, llm: Llm)
    requires Decode(llm(0, ParsePrompt(rawText))).None? || !Decode(llm(0, ParsePrompt(rawText))).value.JObject?
    ensures ParseResume(rawText, llm) == EmptyResume
  {
  }

  /** Every field is optional: an object with none of them gives the all-default record. */
  lemma AbsentFieldsDefault(members: seq<Member>)
    requires forall i :: 0 <= i < |members| ==>
      members[i].key !in ["full_name", "contact_info", "education", "skills", "experience"]
    ensures ValidateResume(JObject(members)) == Some(EmptyResume)
  {
    GetSpec(members, "full_name");
    GetSpec(members, "contact_info");
    GetSpec(members, "education");
    GetSpec(members, "skills");
    GetSpec(members, "experience");
  }

  /** A present field of the wrong type makes the whole record fail, so the parse gives the default. */
  lemma WrongTypeFails(members: seq<Member>, key: string, v: Json)
    requires Get(members, key) == Some(v)
    requires (key == "full_name" && !v.JStr?) || (key == "contact_info" && !v.JStr?) || (key == "skills" && !v.JObject?)
      || (key == "experience" && !v.JList?) || (key == "education" && !v.JList?)
    ensures ValidateResume(JObject(members)) == None
  {
  }

  /** One element of `education` that is not an object makes the whole record fail. */
  lemma BadEducationElementFails(members: seq<Member>, items: seq<Json>, k: int)
    requires Get(members, "education") == Some(JList(items))
    requires 0 <= k < |items| && !items[k].JObject?
    ensures ValidateResume(JObject(members)) == None
  {
  }

  /** One element of `experience` that does not validate as an entry makes the whole record fail. */
  lemma BadExperienceElementFails(members: seq<Member>, items: seq<Json>, k: int)
    requires Get(members, "experience") == Some(JList(items))
    requires 0 <= k < |items| && ValidateExperience(items[k]).None?
    ensures ValidateResume(JObject(members)) == None
  {
  }

  /** Every entry field is optional: an object with none of them validates to the all-default entry. */
  lemma AbsentEntryFieldsDefault(members: seq<Member>)
    requires forall i :: 0 <= i < |members| ==>
      members[i].key !in ["role", "company", "duration", "location", "summary_input", "tech_stack", "enhanced_bullets"]
    ensures ValidateExperience(JObject(members)) == Some(EmptyExperience)
  {
    GetSpec(members, "role");
    GetSpec(members, "company");
    GetSpec(members, "duration");
    GetSpec(members, "location");
    GetSpec(members, "summary_input");
    GetSpec(members, "tech_stack");
    GetSpec(members, "enhanced_bullets");
  }

  /** Members under any other key are ignored. */
  lemma ExtraKeyIgnored(members: seq<Member>, m: Member)
    requires m.key !in ["full_name", "contact_info", "education", "skills", "experience"]
    ensures ValidateResume(JObject(members + [m])) == ValidateResume(JObject(members))
  {
    var more := members + [m];
    GetAppendOther(members, m, "full_name");
    GetAppendOther(members, m, "contact_info");
    GetAppendOther(members, m, "education");
    GetAppendOther(members, m, "skills");
    GetAppendOther(members, m, "experience");
    assert StrField(more, "full_name") == StrField(members, "full_name");
    assert StrField(more, "contact_info") == StrField(members, "contact_info");
    assert EducationField(more) == EducationField(members);
    assert SkillsField(more) == SkillsField(members);
    assert ExperienceField(more) == ExperienceField(members);
  }
}
