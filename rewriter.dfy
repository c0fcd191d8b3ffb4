/**
 * The bullet rewriter (`ResumeAgent.rewrite_all_jobs`): one pass over the
 * experience entries in input order, one oracle call per entry, with the
 * leading verbs of all earlier entries' bullets sent as words to avoid.
 */
module Rewriter {
  import opened Wrappers
  import opened Json
  import opened Text
  import opened ResumeTypes
  import opened Gateway
  import opened Verbs

  /** The context sent in place of an empty job description. */
  const NoJdContext := "General industry standards for this role."

  /** The job-description context: its first 3000 characters, or the placeholder when it is empty. */
  function JdContext(jdText: string): (c: string)
    ensures jdText == [] ==> c == NoJdContext
    ensures jdText != [] ==> c != [] && c <= jdText && |c| == if |jdText| <= JdLimit then |jdText| else JdLimit
  {
    if jdText != [] then Prefix(jdText, JdLimit) else NoJdContext
  }

  /** The humanizer style is chosen by the exact tone "Humanized"; every other tone gets the ATS optimizer. */
  function StyleFor(tone: string): (g: StyleGuide)
    ensures g == Humanizer <==> tone == "Humanized"
  {
    if tone == "Humanized" then Humanizer else AtsOptimizer
  }

  /** The prompt for one entry, given the verbs collected so far. */
  function PromptFor(targetRole: string, jdText: string, tone: string, forbidden: set<string>, job: ExperienceItem): Prompt {
    RewriteRequest(targetRole, StyleFor(tone), JdContext(jdText), forbidden, job.techStack, job.role, job.summaryInput)
  }

  /** The two bullets an entry gets when its reply cannot be decoded. */
  function Fallback(role: string): seq<string> {
    ["Managed " + role + " responsibilities.", "Optimized team workflows."]
  }

  /** The outcome of the decoding block: a selected JSON value, or the fallback after an exception. */
  datatype Selection = Picked(value: Json) | FellBack

  /**
   * The decoding block: a list is taken as it is; otherwise an object's
   * "bullets" member; otherwise its first member. A failed call, malformed
   * JSON, an empty object and a scalar all raise inside the block and fall back.
   */
  function Select(r: Response): (s: Selection)
    ensures s.FellBack? <==>
      || Decode(r).None?
      || Decode(r).value == JObject([])
      || !(Decode(r).value.JList? || Decode(r).value.JObject?)
    ensures s.Picked? && Decode(r).value.JList? ==> s.value == Decode(r).value
  {
    match Decode(r)
    case None => FellBack
    case Some(data) =>
      match data
      case JList(_) => Picked(data)
      case JObject(members) =>
        (match Get(members, "bullets")
         case Some(bullets) => Picked(bullets)
         case None => if members == [] then FellBack else Picked(members[0].value))
      case _ => FellBack
  }

  /**
   * The bullets an entry ends up with: the selected value when it is a list of
   * strings, the fallback pair after an exception, and `None` when the selected
   * value is not a list of strings (the pass then stops at this entry).
   */
  function NewBullets(r: Response, role: string): Option<seq<string>> {
    match Select(r)
    case FellBack => Some(Fallback(role))
    case Picked(value) => AsStrings(value)
  }

  /** A bare JSON list of strings is taken as the bullets, whatever else the reply holds. */
  lemma DecodesBareList(text: string, bullets: seq<string>, role: string)
    ensures NewBullets(Reply(text, Some(StrList(bullets))), role) == Some(bullets)
  {
    AsStringsOfStrList(bullets);
  }

  /** An object with a "bullets" member yields that member, wherever it stands among the others. */
  lemma DecodesBulletsMember(text: string, members: seq<Member>, bullets: seq<string>, role: string)
    requires Get(members, "bullets") == Some(StrList(bullets))
    ensures NewBullets(Reply(text, Some(JObject(members))), role) == Some(bullets)
  {
    AsStringsOfStrList(bullets);
  }

  /** An object without a "bullets" member yields its first member's value. */
  lemma DecodesFirstMember(text: string, key: string, bullets: seq<string>, others: seq<Member>, role: string)
    requires !HasKey([Member(key, StrList(bullets))] + others, "bullets")
    ensures NewBullets(Reply(text, Some(JObject([Member(key, StrList(bullets))] + others))), role) == Some(bullets)
  {
    GetSpec([Member(key, StrList(bullets))] + others, "bullets");
    AsStringsOfStrList(bullets);
  }

  /** A failed call, malformed JSON, an empty object or a scalar gives exactly the fallback pair. */
  lemma FailureFallsBack(r: Response, role: string)
    requires || r.NoResponse?
             || r.decoded.None?
             || r.decoded.value == JObject([])
             || r.decoded.value.JNull? || r.decoded.value.JBool?
             || r.decoded.value.JNum? || r.decoded.value.JStr?
    ensures NewBullets(r, role) == Some(["Managed " + role + " responsibilities.", "Optimized team workflows."])
  {
  }

  /** The fallback pair adds exactly "Managed" and "Optimized" to the verbs to avoid. */
  lemma FallbackVerbs(role: string)
    ensures VerbsOf(Fallback(role)) == {"Managed", "Optimized"}
  {
    var managed := Fallback(role)[0];
    var optimized := Fallback(role)[1];
    ManagedVerb(role);
    OptimizedVerb();
    VerbsOfSnoc([], managed);
    VerbsOfSnoc([managed], optimized);
    assert [] + [managed] == [managed];
    assert [managed] + [optimized] == Fallback(role);
  }

  lemma ManagedVerb(role: string)
    ensures VerbSet(Fallback(role)[0]) == {"Managed"}
  {
    assert Fallback(role)[0] == "Managed" + [' '] + (role + " responsibilities.");
    WordVerb("Managed", ' ', role + " responsibilities.");
  }

  lemma OptimizedVerb()
    ensures VerbSet("Optimized team workflows.") == {"Optimized"}
  {
    assert "Optimized team workflows." == "Optimized" + [' '] + "team workflows.";
    WordVerb("Optimized", ' ', "team workflows.");
  }

  /** A capitalized word without dots or commas, followed by whitespace, leads with itself. */
  lemma WordVerb(w: string, c: char, tail: string)
    requires w != [] && NoSpace(w) && IsSpace(c)
    requires !IsDotOrComma(w[0]) && !IsDotOrComma(w[|w| - 1])
    requires !('a' <= w[0] <= 'z') && forall k :: 1 <= k < |w| ==> !('A' <= w[k] <= 'Z')
    ensures VerbSet(w + [c] + tail) == {w}
  {
    FirstTokenOfWord(w, c, tail);
    StripDotsCommasKeeps(w);
    CapitalizeKeeps(w);
  }

  /**
   * The verbs to avoid when entry `i` is sent: those of the bullets of entries
   * `0 .. i-1` of `done`, the entries as the pass has left them.
   */
  function Forbidden(done: seq<ExperienceItem>, i: nat): set<string>
    requires i <= |done|
  {
    if i == 0 then {} else Forbidden(done, i - 1) + VerbsOf(done[i - 1].enhancedBullets)
  }

  /** A verb is forbidden for entry `i` exactly when the bullets of some earlier entry contribute it. */
  lemma {:induction false} ForbiddenMembers(done: seq<ExperienceItem>, i: nat, v: string)
    requires i <= |done|
    ensures v in Forbidden(done, i) <==> exists j :: 0 <= j < i && v in VerbsOf(done[j].enhancedBullets)
  {
    if i > 0 {
      var last := VerbsOf(done[i - 1].enhancedBullets);
      assert Forbidden(done, i) == Forbidden(done, i - 1) + last;
      ForbiddenMembers(done, i - 1, v);
      if v in last {
        assert 0 <= i - 1 < i && v in VerbsOf(done[i - 1].enhancedBullets);
      }
    }
  }

  /** The set only grows along the pass: what entry `i` must avoid, every later entry must avoid too. */
  lemma {:induction false} ForbiddenGrows(done: seq<ExperienceItem>, i: nat, j: nat)
    requires i <= j <= |done|
    ensures Forbidden(done, i) <= Forbidden(done, j)
  {
    if i < j {
      ForbiddenGrows(done, i, j - 1);
      assert Forbidden(done, j) == Forbidden(done, j - 1) + VerbsOf(done[j - 1].enhancedBullets);
    }
  }

  /** The set for entry `i` reads entries before `i` only: not entry `i`'s own bullets, nor any later ones. */
  lemma {:induction false} ForbiddenReadsPrefix(a: seq<ExperienceItem>, b: seq<ExperienceItem>, i: nat)
    requires i <= |a| && i <= |b| && a[..i] == b[..i]
    ensures Forbidden(a, i) == Forbidden(b, i)
  {
    if i > 0 {
      assert a[i - 1] == a[..i][i - 1] == b[..i][i - 1] == b[i - 1];
      assert a[..i - 1] == a[..i][..i - 1];
      assert b[..i - 1] == b[..i][..i - 1];
      ForbiddenReadsPrefix(a, b, i - 1);
    }
  }

  /** How a pass ends: it returns the entries, or an exception leaves them as they were at that point. */
  datatype PassOutcome = Returned(jobs: seq<ExperienceItem>) | Raised(jobs: seq<ExperienceItem>)

  /** The number of entries a pass rewrote: every entry it sent, except the one whose reply raised. */
  function Rewritten(out: PassOutcome, calls: seq<Prompt>): int {
    if out.Returned? then |calls| else |calls| - 1
  }

  /** Prompt `k` was built for entry `k` with the verbs of the entries of `done` before it. */
  ghost predicate SentAt(
    jobs: seq<ExperienceItem>, targetRole: string, jdText: string, tone: string,
    done: seq<ExperienceItem>, calls: seq<Prompt>, k: int)
  {
    0 <= k < |calls| && k < |jobs| && k <= |done|
    && calls[k] == PromptFor(targetRole, jdText, tone, Forbidden(done, k), jobs[k])
  }

  /** Every prompt was built in order, each for its entry with the verbs of the entries of `done` before it. */
  ghost predicate SentInOrder(
    jobs: seq<ExperienceItem>, targetRole: string, jdText: string, tone: string,
    done: seq<ExperienceItem>, calls: seq<Prompt>)
  {
    && |calls| <= |jobs| && |calls| <= |done| + 1
    && forall k :: 0 <= k < |calls| ==> SentAt(jobs, targetRole, jdText, tone, done, calls, k)
  }

  /** `entry` is `job` with its bullets overwritten by those decoded from `reply`, and nothing else changed. */
  predicate RewrittenFrom(job: ExperienceItem, reply: Response, entry: ExperienceItem) {
    && NewBullets(reply, job.role) == Some(entry.enhancedBullets)
    && entry == job.(enhancedBullets := entry.enhancedBullets)
  }

  /** Entry `k` of `done` is entry `k` of `jobs` rewritten from the reply to prompt `k`. */
  ghost predicate RewrittenAt(jobs: seq<ExperienceItem>, llm: Llm, calls: seq<Prompt>, done: seq<ExperienceItem>, k: int) {
    0 <= k < |calls| && k < |jobs| && k < |done| && RewrittenFrom(jobs[k], llm(k, calls[k]), done[k])
  }

  /** The first `n` entries of `done` are rewritten from the replies to their prompts. */
  ghost predicate RewrittenUpTo(jobs: seq<ExperienceItem>, llm: Llm, calls: seq<Prompt>, done: seq<ExperienceItem>, n: int) {
    && 0 <= n <= |calls| && n <= |jobs| && n <= |done|
    && forall k :: 0 <= k < n ==> RewrittenAt(jobs, llm, calls, done, k)
  }

  /**
   * What one pass does, given the oracle's answers: the entries are sent one
   * at a time, in order, with the verbs of all earlier entries to avoid; each
   * rewritten entry has its bullets replaced by the decoded reply and every
   * other field kept; a reply whose selected value is not a list of strings
   * ends the pass, leaving that entry and the later ones untouched.
   */
  ghost predicate IsPass(
    jobs: seq<ExperienceItem>, targetRole: string, jdText: string, tone: string, llm: Llm,
    out: PassOutcome, calls: seq<Prompt>)
  {
    && |out.jobs| == |jobs|
    && (out.Returned? ==> |calls| == |jobs|)
    && (out.Raised? ==> 0 < |calls| <= |jobs| && NewBullets(llm(|calls| - 1, calls[|calls| - 1]), jobs[|calls| - 1].role).None?)
    && SentInOrder(jobs, targetRole, jdText, tone, out.jobs, calls)
    && RewrittenUpTo(jobs, llm, calls, out.jobs, Rewritten(out, calls))
    && out.jobs[Rewritten(out, calls)..] == jobs[Rewritten(out, calls)..]
  }

  /** Prompts built from the entries before each call stay valid when later entries change. */
  lemma SentInOrderKeepsPrefix(
    jobs: seq<ExperienceItem>, targetRole: string, jdText: string, tone: string,
    done: seq<ExperienceItem>, done': seq<ExperienceItem>, calls: seq<Prompt>)
    requires SentInOrder(jobs, targetRole, jdText, tone, done, calls)
    requires |calls| <= |done'| + 1
    requires |calls| > 0 ==> done[..|calls| - 1] == done'[..|calls| - 1]
    ensures SentInOrder(jobs, targetRole, jdText, tone, done', calls)
  {
    forall k | 0 <= k < |calls|
      ensures SentAt(jobs, targetRole, jdText, tone, done', calls, k)
    {
      assert SentAt(jobs, targetRole, jdText, tone, done, calls, k);
      assert done[..k] == done[..|calls| - 1][..k];
      assert done'[..k] == done'[..|calls| - 1][..k];
      ForbiddenReadsPrefix(done, done', k);
    }
  }

  /** Sending the next entry with the verbs of all entries before it keeps the prompts in order. */
  lemma SentOneMore(
    jobs: seq<ExperienceItem>, targetRole: string, jdText: string, tone: string,
    done: seq<ExperienceItem>, calls: seq<Prompt>, prompt: Prompt)
    requires SentInOrder(jobs, targetRole, jdText, tone, done, calls)
    requires |calls| == |done| < |jobs|
    requires prompt == PromptFor(targetRole, jdText, tone, Forbidden(done, |done|), jobs[|done|])
    ensures SentInOrder(jobs, targetRole, jdText, tone, done, calls + [prompt])
  {
    var calls' := calls + [prompt];
    forall k | 0 <= k < |calls'|
      ensures SentAt(jobs, targetRole, jdText, tone, done, calls', k)
    {
      if k < |calls| {
        assert SentAt(jobs, targetRole, jdText, tone, done, calls, k);
        assert calls'[k] == calls[k];
      } else {
        assert calls'[k] == prompt;
      }
    }
  }

  /** Entries rewritten so far stay rewritten from the replies to their own prompts when another prompt is sent. */
  lemma RewrittenKeepsCalls(
    jobs: seq<ExperienceItem>, llm: Llm, calls: seq<Prompt>, done: seq<ExperienceItem>, prompt: Prompt)
    requires RewrittenUpTo(jobs, llm, calls, done, |done|)
    ensures RewrittenUpTo(jobs, llm, calls + [prompt], done, |done|)
  {
    forall k | 0 <= k < |done|
      ensures RewrittenAt(jobs, llm, calls + [prompt], done, k)
    {
      assert RewrittenAt(jobs, llm, calls, done, k);
    }
  }

  /** Appending the rewritten entry extends the rewritten prefix by one. */
  lemma RewrittenOneMore(
    jobs: seq<ExperienceItem>, llm: Llm, calls: seq<Prompt>, done: seq<ExperienceItem>, entry: ExperienceItem)
    requires RewrittenUpTo(jobs, llm, calls, done, |done|)
    requires |done| < |calls| && |done| < |jobs|
    requires RewrittenFrom(jobs[|done|], llm(|done|, calls[|done|]), entry)
    ensures RewrittenUpTo(jobs, llm, calls, done + [entry], |done| + 1)
  {
    var done' := done + [entry];
    forall k | 0 <= k < |done'|
      ensures RewrittenAt(jobs, llm, calls, done', k)
    {
      if k < |done| {
        assert RewrittenAt(jobs, llm, calls, done, k);
      }
    }
  }

  /** A pass stopped by the reply to entry `|done|` leaves that entry and all later ones as they were. */
  lemma RaisedIsPass(
    jobs: seq<ExperienceItem>, targetRole: string, jdText: string, tone: string, llm: Llm,
    done: seq<ExperienceItem>, calls: seq<Prompt>)
    requires |calls| == |done| + 1 <= |jobs|
    requires SentInOrder(jobs, targetRole, jdText, tone, done, calls)
    requires RewrittenUpTo(jobs, llm, calls, done, |done|)
    requires NewBullets(llm(|done|, calls[|done|]), jobs[|done|].role).None?
    ensures IsPass(jobs, targetRole, jdText, tone, llm, Raised(done + jobs[|done|..]), calls)
  {
    var out := done + jobs[|done|..];
    assert out[..|done|] == done;
    SentInOrderKeepsPrefix(jobs, targetRole, jdText, tone, done, out, calls);
    forall k | 0 <= k < |done|
      ensures RewrittenAt(jobs, llm, calls, out, k)
    {
      assert RewrittenAt(jobs, llm, calls, done, k);
    }
    assert out[|done|..] == jobs[|done|..];
  }

  /** The inner loop of the pass: the leading verb of each bullet, in turn, joins the verbs to avoid. */
  method AddLeadingVerbs(usedVerbs: set<string>, bullets: seq<string>) returns (verbs: set<string>)
    ensures verbs == usedVerbs + VerbsOf(bullets)
  {
    verbs := usedVerbs;
    for j := 0 to |bullets|
      invariant verbs == usedVerbs + VerbsOf(bullets[..j])
    {
      var words := FirstToken(bullets[j]);
      if words.Some? {
        var firstWord := Capitalize(StripDotsCommas(words.value));
        verbs := verbs + {firstWord};
      }
      VerbsOfStep(bullets, j);
    }
    assert bullets[..|bullets|] == bullets;
  }

  /** `rewrite_all_jobs`: the pass itself, returning the outcome and the prompts it sent, in order. */
  method RewriteAllJobs(jobs: seq<ExperienceItem>, targetRole: string, jdText: string, tone: string, llm: Llm)
    returns (out: PassOutcome, calls: seq<Prompt>)
    ensures IsPass(jobs, targetRole, jdText, tone, llm, out, calls)
    ensures jobs == [] ==> out == Returned([]) && calls == []
  {
    var usedVerbs: set<string> := {};
    var processed: seq<ExperienceItem> := [];
    var jdContext := JdContext(jdText);
    calls := [];
    for i := 0 to |jobs|
      invariant |processed| == |calls| == i
      invariant usedVerbs == Forbidden(processed, i)
      invariant SentInOrder(jobs, targetRole, jdText, tone, processed, calls)
      invariant RewrittenUpTo(jobs, llm, calls, processed, i)
    {
      var job := jobs[i];
      var style := if tone == "Humanized" then Humanizer else AtsOptimizer;
      var prompt := RewriteRequest(targetRole, style, jdContext, usedVerbs, job.techStack, job.role, job.summaryInput);
      var response := llm(i, prompt);
      SentOneMore(jobs, targetRole, jdText, tone, processed, calls, prompt);
      RewrittenKeepsCalls(jobs, llm, calls, processed, prompt);
      calls := calls + [prompt];
      var newBullets := NewBullets(response, job.role);
      if newBullets.None? {
        out := Raised(processed + jobs[i..]);
        RaisedIsPass(jobs, targetRole, jdText, tone, llm, processed, calls);
        return;
      }
      var bullets := newBullets.value;
      usedVerbs := AddLeadingVerbs(usedVerbs, bullets);
      var entry := job.(enhancedBullets := bullets);
      var next := processed + [entry];
      RewrittenOneMore(jobs, llm, calls, processed, entry);
      assert next[..i] == processed;
      SentInOrderKeepsPrefix(jobs, targetRole, jdText, tone, processed, next, calls);
      ForbiddenReadsPrefix(processed, next, i);
      processed := next;
    }
    out := Returned(processed);
  }

  /** What entry `job` becomes once `reply` has come back and did not raise. */
  function Settled(job: ExperienceItem, reply: Response): ExperienceItem {
    match NewBullets(reply, job.role)
    case Some(bullets) => job.(enhancedBullets := bullets)
    case None => job
  }

  /** Entry `k` of a pass's result is fixed by the reply to prompt `k`; the pass stops at the first reply that does not decode. */
  lemma EntryOfPass(
    jobs: seq<ExperienceItem>, targetRole: string, jdText: string, tone: string, llm: Llm,
    out: PassOutcome, calls: seq<Prompt>, k: nat)
    requires IsPass(jobs, targetRole, jdText, tone, llm, out, calls)
    requires k < |calls|
    ensures out.jobs[k] == Settled(jobs[k], llm(k, calls[k]))
  {
    var decoded := NewBullets(llm(k, calls[k]), jobs[k].role);
    var r := Rewritten(out, calls);
    if k < r {
      assert RewrittenAt(jobs, llm, calls, out.jobs, k);
      assert decoded == Some(out.jobs[k].enhancedBullets);
    } else {
      assert out.Raised? && k == |calls| - 1;
      assert decoded.None?;
      assert out.jobs[k] == out.jobs[r..][k - r] == jobs[r..][k - r];
    }
  }

  /** A pass stops exactly at the first reply whose bullets do not decode. */
  lemma StopOfPass(
    jobs: seq<ExperienceItem>, targetRole: string, jdText: string, tone: string, llm: Llm,
    out: PassOutcome, calls: seq<Prompt>, k: nat)
    requires IsPass(jobs, targetRole, jdText, tone, llm, out, calls)
    requires k < |calls|
    ensures NewBullets(llm(k, calls[k]), jobs[k].role).None? <==> k == Rewritten(out, calls)
  {
    if k < Rewritten(out, calls) {
      assert RewrittenAt(jobs, llm, calls, out.jobs, k);
    }
  }

  /** Prompt `k` of a pass asks to avoid the verbs of the result's entries before `k`. */
  lemma PromptOfPass(
    jobs: seq<ExperienceItem>, targetRole: string, jdText: string, tone: string, llm: Llm,
    out: PassOutcome, calls: seq<Prompt>, k: nat)
    requires IsPass(jobs, targetRole, jdText, tone, llm, out, calls)
    requires k < |calls|
    ensures calls[k] == PromptFor(targetRole, jdText, tone, Forbidden(out.jobs, k), jobs[k])
  {
    assert SentAt(jobs, targetRole, jdText, tone, out.jobs, calls, k);
  }

  /** Two passes sent the same prompt `k` and left entry `k` the same. */
  predicate AgreeAt(calls1: seq<Prompt>, calls2: seq<Prompt>, done1: seq<ExperienceItem>, done2: seq<ExperienceItem>, k: int) {
    0 <= k < |calls1| && k < |calls2| && k < |done1| && k < |done2| && calls1[k] == calls2[k] && done1[k] == done2[k]
  }

  /** Two passes over the same entries with the same oracle agree on their first `n` prompts and entries. */
  lemma {:induction false} PassesAgreeUpTo(
    jobs: seq<ExperienceItem>, targetRole: string, jdText: string, tone: string, llm: Llm,
    out1: PassOutcome, calls1: seq<Prompt>, out2: PassOutcome, calls2: seq<Prompt>, n: nat)
    requires IsPass(jobs, targetRole, jdText, tone, llm, out1, calls1)
    requires IsPass(jobs, targetRole, jdText, tone, llm, out2, calls2)
    requires n <= |calls1| && n <= |calls2|
    ensures forall k :: 0 <= k < n ==> AgreeAt(calls1, calls2, out1.jobs, out2.jobs, k)
  {
    if n > 0 {
      var m := n - 1;
      PassesAgreeUpTo(jobs, targetRole, jdText, tone, llm, out1, calls1, out2, calls2, m);
      forall k | 0 <= k < m ensures out1.jobs[k] == out2.jobs[k] {
        assert AgreeAt(calls1, calls2, out1.jobs, out2.jobs, k);
      }
      assert out1.jobs[..m] == out2.jobs[..m];
      ForbiddenReadsPrefix(out1.jobs, out2.jobs, m);
      PromptOfPass(jobs, targetRole, jdText, tone, llm, out1, calls1, m);
      PromptOfPass(jobs, targetRole, jdText, tone, llm, out2, calls2, m);
      EntryOfPass(jobs, targetRole, jdText, tone, llm, out1, calls1, m);
      EntryOfPass(jobs, targetRole, jdText, tone, llm, out2, calls2, m);
      assert AgreeAt(calls1, calls2, out1.jobs, out2.jobs, m);
    }
  }

  /**
   * A pass is determined by its inputs and the oracle's answers: rewriting the
   * same entries twice against the same replies sends the same prompts and
   * ends the same way with the same entries.
   */
  lemma PassIsDeterministic(
    jobs: seq<ExperienceItem>, targetRole: string, jdText: string, tone: string, llm: Llm,
    out1: PassOutcome, calls1: seq<Prompt>, out2: PassOutcome, calls2: seq<Prompt>)
    requires IsPass(jobs, targetRole, jdText, tone, llm, out1, calls1)
    requires IsPass(jobs, targetRole, jdText, tone, llm, out2, calls2)
    ensures out1 == out2 && calls1 == calls2
  {
    StopsWhereOtherStops(jobs, targetRole, jdText, tone, llm, out1, calls1, out2, calls2);
    StopsWhereOtherStops(jobs, targetRole, jdText, tone, llm, out2, calls2, out1, calls1);
    var c := |calls1|;
    PassesAgreeUpTo(jobs, targetRole, jdText, tone, llm, out1, calls1, out2, calls2, c);
    if c > 0 {
      assert AgreeAt(calls1, calls2, out1.jobs, out2.jobs, c - 1);
      StopOfPass(jobs, targetRole, jdText, tone, llm, out1, calls1, c - 1);
      StopOfPass(jobs, targetRole, jdText, tone, llm, out2, calls2, c - 1);
    }
    assert out1.Returned? == out2.Returned?;
    forall k | 0 <= k < c ensures calls1[k] == calls2[k] && out1.jobs[k] == out2.jobs[k] {
      assert AgreeAt(calls1, calls2, out1.jobs, out2.jobs, k);
    }
    assert out1.jobs == out2.jobs;
  }

  /** Neither of two passes against the same replies sends fewer prompts than the other. */
  lemma StopsWhereOtherStops(
    jobs: seq<ExperienceItem>, targetRole: string, jdText: string, tone: string, llm: Llm,
    out1: PassOutcome, calls1: seq<Prompt>, out2: PassOutcome, calls2: seq<Prompt>)
    requires IsPass(jobs, targetRole, jdText, tone, llm, out1, calls1)
    requires IsPass(jobs, targetRole, jdText, tone, llm, out2, calls2)
    ensures |calls1| >= |calls2|
  {
    if |calls1| < |calls2| {
      var m := |calls1| - 1;
      PassesAgreeUpTo(jobs, targetRole, jdText, tone, llm, out1, calls1, out2, calls2, |calls1|);
      assert AgreeAt(calls1, calls2, out1.jobs, out2.jobs, m);
      StopOfPass(jobs, targetRole, jdText, tone, llm, out1, calls1, m);
      StopOfPass(jobs, targetRole, jdText, tone, llm, out2, calls2, m);
    }
  }

  /**
   * The worked example of two entries: when the first reply leads its bullets
   * with "Built" and "Led", the second entry is asked to avoid exactly those two.
   */
  lemma SecondEntryAvoidsFirstVerbs(
    jobs: seq<ExperienceItem>, targetRole: string, jdText: string, tone: string, llm: Llm,
    out: PassOutcome, calls: seq<Prompt>, text: string)
    requires |jobs| == 2
    requires IsPass(jobs, targetRole, jdText, tone, llm, out, calls)
    requires llm(0, calls[0]) == Reply(text, Some(StrList(["Built an API.", "Led a team of four."])))
    ensures |calls| == 2
    ensures calls[1].RewriteRequest? && calls[1].forbidden == {"Built", "Led"}
  {
    var bullets := ["Built an API.", "Led a team of four."];
    DecodesBareList(text, bullets, jobs[0].role);
    assert 0 < Rewritten(out, calls);
    assert RewrittenAt(jobs, llm, calls, out.jobs, 0);
    assert out.jobs[0].enhancedBullets == bullets;
    ExampleVerbs();
    assert Forbidden(out.jobs, 1) == VerbsOf(bullets);
    assert SentAt(jobs, targetRole, jdText, tone, out.jobs, calls, 1);
  }

  /** The verbs that lead the two bullets of the worked example. */
  lemma ExampleVerbs()
    ensures VerbsOf(["Built an API.", "Led a team of four."]) == {"Built", "Led"}
  {
    var bullets := ["Built an API.", "Led a team of four."];
    BuiltVerb();
    LedVerb();
    VerbsOfSnoc([], bullets[0]);
    VerbsOfSnoc([bullets[0]], bullets[1]);
    assert [] + [bullets[0]] == [bullets[0]];
    assert [bullets[0]] + [bullets[1]] == bullets;
  }

  lemma BuiltVerb()
    ensures VerbSet("Built an API.") == {"Built"}
  {
    assert "Built an API." == "Built" + [' '] + "an API.";
    WordVerb("Built", ' ', "an API.");
  }

  lemma LedVerb()
    ensures VerbSet("Led a team of four.") == {"Led"}
  {
    assert "Led a team of four." == "Led" + [' '] + "a team of four.";
    WordVerb("Led", ' ', "a team of four.");
  }
}
