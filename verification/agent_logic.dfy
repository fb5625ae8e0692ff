/**
 * The model path of agent_logic.py: `process_email` asks the language
 * model for a categorisation and for action items, falls back to fixed
 * values when a call or its parse fails, and merges the answers into the
 * record; `draft_reply` asks for a reply draft and falls back to a canned
 * one.
 *
 * The model call followed by `json.loads` is one abstract function of the
 * full prompt that either yields a parsed value or fails.
 */
module AgentLogic {
  import opened Wrappers
  import opened Json
  import opened Results

  /** `json.loads(call_gemini(...))` as a function of the full prompt;
      `None` when the call raises or its reply is not JSON. */
  type Completion = string -> Option<Value>

  /** `call_gemini(system, user)` and the parse of its reply, inside the
      caller's `try`. `system + "\n\n" + user` raises when the stored
      prompt is not a string, and that failure is caught like any other. */
  function Ask(llm: Completion, system: Value, user: string): Option<Value> {
    if system.Str? then llm(system.s + "\n\n" + user) else None
  }

  /** `prompts.get(key, "")`. */
  function PromptOf(prompts: Record, key: string): Value {
    GetOr(prompts, key, Str(""))
  }

  /** The text shown to the model: the `text` of a dict body (possibly
      absent, hence `None`), otherwise `str(body)`; a missing body is `{}`. */
  function Content(email: Record): (c: Value)
    ensures "body" !in Keys(email) ==> c == Null
    ensures GetOr(email, "body", Null).Dict? ==> c == GetOr(GetOr(email, "body", Null).fields, "text", Null)
    ensures "body" in Keys(email) && !GetOr(email, "body", Null).Dict? ==>
      c == Str(ToStr(GetOr(email, "body", Null)))
  {
    var body := GetOr(email, "body", Dict([]));
    if body.Dict? then GetOr(body.fields, "text", Null) else Str(ToStr(body))
  }

  function CategoryPrompt(content: Value): string {
    "Email:\n" + ToStr(content) + "\n\nReturn category and reason in JSON."
  }

  function ActionPrompt(content: Value): string {
    "Email:\n" + ToStr(content) + "\n\nReturn JSON array: [{'task':..., 'deadline':...}]"
  }

  /** What the categorisation step yields when the call or its parse
      fails. */
  const CategoryFallback: Value :=
    Dict([Field("category", Str("Unknown")), Field("reason", Str("Gemini parsing error"))])

  /** The parsed categorisation, or the fallback. */
  function Categorisation(email: Record, prompts: Record, llm: Completion): Value {
    match Ask(llm, PromptOf(prompts, "categorization_prompt"), CategoryPrompt(Content(email)))
    case Some(v) => v
    case None => CategoryFallback
  }

  /** The parsed action items, or the empty list. */
  function ActionItems(email: Record, prompts: Record, llm: Completion): Value {
    match Ask(llm, PromptOf(prompts, "action_item_prompt"), ActionPrompt(Content(email)))
    case Some(v) => v
    case None => List([])
  }

  /** The merge at the end of `process_email`, given the parsed
      categorisation and action items. A categorisation that is not a dict
      makes `cat_json.get` raise; otherwise the record gets its `category`
      (default "Unknown") and `reason` (default ""), the action items, and
      keeps every other key. */
  function Merge(email: Record, cat: Value, actions: Value): (r: Result<Record, string>)
    ensures r.Failure? <==> !cat.Dict?
    ensures r.Failure? ==> r.error == "'" + TypeName(cat) + "' object has no attribute 'get'"
    ensures r.Success? ==>
      && Get(r.value, "category") == Some(GetOr(cat.fields, "category", Str("Unknown")))
      && Get(r.value, "category_reason") == Some(GetOr(cat.fields, "reason", Str("")))
      && Get(r.value, "action_items") == Some(actions)
    ensures r.Success? ==> forall k :: k != "category" && k != "category_reason" && k != "action_items" ==>
      Get(r.value, k) == Get(email, k)
  {
    if cat.Dict? then
      Success(WithResults(email, GetOr(cat.fields, "category", Str("Unknown")),
                          GetOr(cat.fields, "reason", Str("")), actions))
    else
      Failure("'" + TypeName(cat) + "' object has no attribute 'get'")
  }

  /** `process_email`: both model steps, then the merge. It fails exactly
      when the categorisation is not a dict; otherwise the email comes back
      with its category, reason and action items, and every other key as
      it was. */
  function ProcessEmail(email: Record, prompts: Record, llm: Completion): (r: Result<Record, string>)
    ensures r.Failure? <==> !Categorisation(email, prompts, llm).Dict?
    ensures r.Success? ==>
      var cat := Categorisation(email, prompts, llm).fields;
      && Get(r.value, "category") == Some(GetOr(cat, "category", Str("Unknown")))
      && Get(r.value, "category_reason") == Some(GetOr(cat, "reason", Str("")))
      && Get(r.value, "action_items") == Some(ActionItems(email, prompts, llm))
    ensures r.Success? ==> forall k :: k != "category" && k != "category_reason" && k != "action_items" ==>
      Get(r.value, k) == Get(email, k)
  {
    Merge(email, Categorisation(email, prompts, llm), ActionItems(email, prompts, llm))
  }

  /** A failed categorisation call or parse gives category "Unknown" with
      reason "Gemini parsing error", whatever the action step does. */
  lemma CategoryFailureFallback(email: Record, prompts: Record, llm: Completion)
    requires Ask(llm, PromptOf(prompts, "categorization_prompt"), CategoryPrompt(Content(email))) == None
    ensures ProcessEmail(email, prompts, llm).Success?
    ensures Get(ProcessEmail(email, prompts, llm).value, "category") == Some(Str("Unknown"))
    ensures Get(ProcessEmail(email, prompts, llm).value, "category_reason") == Some(Str("Gemini parsing error"))
  {
  }

  /** A failed action call or parse gives the empty list of action items. */
  lemma ActionFailureFallback(email: Record, prompts: Record, llm: Completion)
    requires Ask(llm, PromptOf(prompts, "action_item_prompt"), ActionPrompt(Content(email))) == None
    requires ProcessEmail(email, prompts, llm).Success?
    ensures Get(ProcessEmail(email, prompts, llm).value, "action_items") == Some(List([]))
  {
  }

  /** The two steps fail independently: two models that answer the
      categorisation prompt alike give the same category and reason (and
      the same success or failure), however they answer the action
      prompt. */
  lemma CategoryIndependentOfActions(email: Record, prompts: Record, llm1: Completion, llm2: Completion)
    requires
      var system := PromptOf(prompts, "categorization_prompt");
      Ask(llm1, system, CategoryPrompt(Content(email))) == Ask(llm2, system, CategoryPrompt(Content(email)))
    ensures ProcessEmail(email, prompts, llm1).Success? == ProcessEmail(email, prompts, llm2).Success?
    ensures ProcessEmail(email, prompts, llm1).Success? ==>
      && Get(ProcessEmail(email, prompts, llm1).value, "category") ==
         Get(ProcessEmail(email, prompts, llm2).value, "category")
      && Get(ProcessEmail(email, prompts, llm1).value, "category_reason") ==
         Get(ProcessEmail(email, prompts, llm2).value, "category_reason")
  {
  }

  /** ... and two models that answer the action prompt alike give the same
      action items whenever both runs succeed, however they answer the
      categorisation prompt. */
  lemma ActionsIndependentOfCategory(email: Record, prompts: Record, llm1: Completion, llm2: Completion)
    requires
      var system := PromptOf(prompts, "action_item_prompt");
      Ask(llm1, system, ActionPrompt(Content(email))) == Ask(llm2, system, ActionPrompt(Content(email)))
    requires ProcessEmail(email, prompts, llm1).Success? && ProcessEmail(email, prompts, llm2).Success?
    ensures Get(ProcessEmail(email, prompts, llm1).value, "action_items") ==
            Get(ProcessEmail(email, prompts, llm2).value, "action_items")
  {
  }

  /** A parsed categorisation without `category` gives "Unknown"; one
      without `reason` gives "". */
  lemma MissingCategoryKeys(email: Record, prompts: Record, llm: Completion)
    requires Categorisation(email, prompts, llm).Dict?
    ensures ProcessEmail(email, prompts, llm).Success?
    ensures "category" !in Keys(Categorisation(email, prompts, llm).fields) ==>
      Get(ProcessEmail(email, prompts, llm).value, "category") == Some(Str("Unknown"))
    ensures "reason" !in Keys(Categorisation(email, prompts, llm).fields) ==>
      Get(ProcessEmail(email, prompts, llm).value, "category_reason") == Some(Str(""))
  {
  }

  /** A missing prompt key behaves exactly like a stored empty prompt. */
  lemma MissingPromptIsEmpty(email: Record, prompts: Record, llm: Completion, key: string)
    requires key == "categorization_prompt" || key == "action_item_prompt"
    requires key !in Keys(prompts)
    ensures ProcessEmail(email, prompts, llm) == ProcessEmail(email, Put(prompts, key, Str("")), llm)
  {
    var prompts' := Put(prompts, key, Str(""));
    assert PromptOf(prompts', "categorization_prompt") == PromptOf(prompts, "categorization_prompt");
    assert PromptOf(prompts', "action_item_prompt") == PromptOf(prompts, "action_item_prompt");
  }

  // ---------------------------------------------------------------------
  // Drafting a reply
  // ---------------------------------------------------------------------

  function DraftPrompt(tone: string, content: Value): string {
    "Tone: " + tone + "\n\nOriginal Email:\n" + ToStr(content)
  }

  /** `draft_reply`: the parsed draft, or a canned reply to the subject.
      Building the canned subject raises when the subject is a truthy
      non-string, and that error escapes the handler. */
  function DraftReply(email: Record, prompts: Record, tone: string, llm: Completion): (r: Result<Value, string>)
    ensures Ask(llm, PromptOf(prompts, "auto_reply_prompt"), DraftPrompt(tone, Content(email))).Some? ==>
      r == Success(Ask(llm, PromptOf(prompts, "auto_reply_prompt"), DraftPrompt(tone, Content(email))).value)
    ensures r.Failure? ==> Truthy(GetOr(email, "subject", Null)) && !GetOr(email, "subject", Null).Str?
  {
    match Ask(llm, PromptOf(prompts, "auto_reply_prompt"), DraftPrompt(tone, Content(email)))
    case Some(draft) => Success(draft)
    case None =>
      var subject := Or(GetOr(email, "subject", Null), Str(""));
      if subject.Str? then Success(CannedReply(subject.s))
      else
        Failure("can only concatenate str (not \"" + TypeName(subject) + "\") to str")
  }

  /** The canned reply `draft_reply` falls back to. */
  function CannedReply(subject: string): Value {
    Dict([Field("subject", Str("Re: " + subject)),
          Field("body", Str("Thank you for your email.")),
          Field("suggested_followups", List([]))])
  }

  /** When drafting fails and the subject is a string or falsy, the reply
      is the canned one for "Re: " + the subject, or for "Re: " when the
      subject is missing or falsy; a truthy non-string subject raises. */
  lemma DraftFallback(email: Record, prompts: Record, tone: string, llm: Completion)
    requires Ask(llm, PromptOf(prompts, "auto_reply_prompt"), DraftPrompt(tone, Content(email))) == None
    ensures GetOr(email, "subject", Null).Str? ==>
      DraftReply(email, prompts, tone, llm) == Success(CannedReply(GetOr(email, "subject", Null).s))
    ensures !Truthy(GetOr(email, "subject", Null)) ==>
      DraftReply(email, prompts, tone, llm) == Success(CannedReply(""))
    ensures Truthy(GetOr(email, "subject", Null)) && !GetOr(email, "subject", Null).Str? ==>
      DraftReply(email, prompts, tone, llm).Failure?
  {
  }

  /** The canned reply's fields: subject "Re: " + subject, body "Thank you
      for your email.", and no follow-ups. */
  lemma CannedReplyFields(subject: string)
    ensures Get(CannedReply(subject).fields, "subject") == Some(Str("Re: " + subject))
    ensures Get(CannedReply(subject).fields, "body") == Some(Str("Thank you for your email."))
    ensures Get(CannedReply(subject).fields, "suggested_followups") == Some(List([]))
    ensures Keys(CannedReply(subject).fields) == {"subject", "body", "suggested_followups"}
  {
    var d := CannedReply(subject).fields;
    assert d == [d[0]] + [d[1]] + [d[2]];
    KeysCons(d[2], []);
    KeysCons(d[1], [d[2]]);
    KeysCons(d[0], [d[1]] + [d[2]]);
  }
}
