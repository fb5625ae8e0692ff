/**
 * The keyword heuristic that stands in for the language model
 * (`_simple_simulate_processing` in gmail_to_agent.py): a classifier
 * whose rules run in a fixed priority order, an action-item extractor
 * that scans the body line by line and falls back to the subject, and the
 * merge of both results into the message record.
 */
module Simulator {
  import opened Wrappers
  import opened Text
  import opened Json
  import opened Results

  datatype Category = Newsletter | Spam | ToDo | Important | Unknown

  /** The category string stored in a record. */
  function CategoryName(c: Category): string {
    match c
    case Newsletter => "Newsletter"
    case Spam => "Spam"
    case ToDo => "To-Do"
    case Important => "Important"
    case Unknown => "Unknown"
  }

  /** The fixed reason string each heuristic rule reports. */
  function ReasonFor(c: Category): string {
    match c
    case Newsletter => "Contains newsletter/unsubscribe keywords"
    case Spam => "Contains spammy keywords"
    case ToDo => "Contains direct request or action language"
    case Important => "Default fallback"
    case Unknown => ""
  }

  const NewsletterWords: seq<string> := ["unsubscribe", "newsletter", "subscribe", "weekly"]
  const SpamWords: seq<string> := ["free", "win", "congratulations", "offer"]
  const RequestWords: seq<string> :=
    ["please", "could you", "can you", "please review", "please confirm", "action", "deadline"]
  const ActionLineWords: seq<string> :=
    ["please", "could you", "can you", "please review", "please confirm", "action:", "todo"]
  const SubjectTaskWords: seq<string> := ["task", "request", "todo", "please"]

  // ---------------------------------------------------------------------
  // Classifier
  // ---------------------------------------------------------------------

  datatype Classification = Classification(category: Category, reason: string)

  /** A newsletter keyword occurs in the body or in the subject. */
  ghost predicate NewsletterSignal(body: string, subject: string) {
    Mentions(NewsletterWords, body) || Mentions(NewsletterWords, subject)
  }

  /** A spam keyword occurs in the body or in the subject. */
  ghost predicate SpamSignal(body: string, subject: string) {
    Mentions(SpamWords, body) || Mentions(SpamWords, subject)
  }

  /** The rules over the lower-cased body and subject, first match wins:
      Newsletter, then Spam, then To-Do (body only), then Important. */
  function Classify(body: string, subject: string): (c: Classification)
    ensures c.category != Unknown
    ensures c.reason == ReasonFor(c.category)
    ensures c.category == Newsletter <==> NewsletterSignal(body, subject)
    ensures c.category == Spam <==> !NewsletterSignal(body, subject) && SpamSignal(body, subject)
    ensures c.category == ToDo <==>
      !NewsletterSignal(body, subject) && !SpamSignal(body, subject) && Mentions(RequestWords, body)
    ensures c.category == Important <==>
      !NewsletterSignal(body, subject) && !SpamSignal(body, subject) && !Mentions(RequestWords, body)
  {
    if AnyIn(NewsletterWords, body) || AnyIn(NewsletterWords, subject) then
      Classification(Newsletter, ReasonFor(Newsletter))
    else if AnyIn(SpamWords, body) || AnyIn(SpamWords, subject) then
      Classification(Spam, ReasonFor(Spam))
    else if AnyIn(RequestWords, body) then
      Classification(ToDo, ReasonFor(ToDo))
    else
      Classification(Important, ReasonFor(Important))
  }

  /** Request language in the subject alone never makes a message To-Do:
      with the same body, a subject free of newsletter and spam keywords
      yields the same verdict whatever else it says. */
  lemma RequestRuleReadsBodyOnly(body: string, subject1: string, subject2: string)
    requires !Mentions(NewsletterWords, subject1) && !Mentions(SpamWords, subject1)
    requires !Mentions(NewsletterWords, subject2) && !Mentions(SpamWords, subject2)
    ensures Classify(body, subject1) == Classify(body, subject2)
  {
  }

  /** A keyword occurrence survives lower-casing of both strings. */
  lemma {:induction false} LowerKeepsOccurrence(needle: string, hay: string)
    requires Occurs(needle, hay)
    ensures Occurs(Lower(needle), Lower(hay))
  {
    var i :| OccursAt(needle, hay, i);
    var lh := Lower(hay);
    assert forall m :: 0 <= m < |needle| ==> lh[i + m] == LowerChar(hay[i + m]) == LowerChar(needle[m]);
    assert lh[i..i + |needle|] == Lower(needle);
    assert OccursAt(Lower(needle), lh, i);
  }

  // ---------------------------------------------------------------------
  // Action-item extractor
  // ---------------------------------------------------------------------

  datatype ActionItem = ActionItem(task: string, deadline: Option<string>)

  /** The extractor's test of one line: the stripped, lower-cased line
      contains one of `words` (`AnyIn` decides `Mentions`). */
  predicate Requests(words: seq<string>, line: string) {
    AnyIn(words, Lower(Strip(line)))
  }

  /** No line of `lines` asks for anything. */
  ghost predicate NoRequests(words: seq<string>, lines: seq<string>) {
    forall k :: 0 <= k < |lines| ==> !Requests(words, lines[k])
  }

  /** One item per requesting line, in order, with no deadline. */
  function LineItems(words: seq<string>, lines: seq<string>): (items: seq<ActionItem>)
    ensures |items| <= |lines|
    ensures forall j :: 0 <= j < |items| ==> items[j].deadline == None
    decreases |lines|
  {
    if |lines| == 0 then []
    else
      var rest := LineItems(words, lines[1..]);
      if Requests(words, lines[0]) then [ActionItem(Strip(lines[0]), None)] + rest
      else rest
  }

  /** The scan finds nothing exactly when no line asks for anything. */
  lemma {:induction false} LineItemsEmpty(words: seq<string>, lines: seq<string>)
    ensures LineItems(words, lines) == [] <==> NoRequests(words, lines)
    decreases |lines|
  {
    if |lines| > 0 {
      LineItemsEmpty(words, lines[1..]);
      assert forall k :: 1 <= k < |lines| ==> lines[k] == lines[1..][k - 1];
    }
  }

  /** Every item's task is a requesting line, stripped, in its original
      case; the `j`-th item comes from a line at index `j` or later. */
  lemma {:induction false} LineItemsTask(words: seq<string>, lines: seq<string>, j: int) returns (k: int)
    requires 0 <= j < |LineItems(words, lines)|
    ensures j <= k < |lines|
    ensures Requests(words, lines[k])
    ensures LineItems(words, lines)[j].task == Strip(lines[k])
    decreases |lines|
  {
    var head := LineItemsHead(words, lines);
    if |head| == 1 && j == 0 {
      k := TaskFirst(words, lines, head);
    } else {
      var k1 := LineItemsTask(words, lines[1..], j - |head|);
      k := TaskShift(words, lines, head, j, k1);
    }
  }

  /** The items the first line contributes, and the equation that puts
      them in front of the rest. */
  lemma LineItemsHead(words: seq<string>, lines: seq<string>) returns (head: seq<ActionItem>)
    requires |lines| > 0
    ensures LineItems(words, lines) == head + LineItems(words, lines[1..])
    ensures |head| <= 1
    ensures |head| == 1 ==> Requests(words, lines[0]) && head[0].task == Strip(lines[0])
  {
    head := if Requests(words, lines[0]) then [ActionItem(Strip(lines[0]), None)] else [];
  }

  /** The base case of `LineItemsTask`: an item from the first line
      is found at index 0. */
  lemma TaskFirst(words: seq<string>, lines: seq<string>, head: seq<ActionItem>) returns (k: int)
    requires |lines| > 0 && LineItems(words, lines) == head + LineItems(words, lines[1..])
    requires |head| == 1 && Requests(words, lines[0]) && head[0].task == Strip(lines[0])
    ensures 0 <= k < |lines| && k == 0
    ensures Requests(words, lines[k])
    ensures LineItems(words, lines)[0].task == Strip(lines[k])
  {
    k := 0;
  }

  /** The inductive step of `LineItemsTask`: an item found at `k1` among
      the later lines is found at `k1 + 1`. */
  lemma TaskShift(words: seq<string>, lines: seq<string>, head: seq<ActionItem>, j: int, k1: int)
    returns (k: int)
    requires |lines| > 0 && LineItems(words, lines) == head + LineItems(words, lines[1..]) && |head| <= 1
    requires |head| <= j < |LineItems(words, lines)|
    requires j - |head| <= k1 < |lines[1..]|
    requires Requests(words, lines[1..][k1])
    requires LineItems(words, lines[1..])[j - |head|].task == Strip(lines[1..][k1])
    ensures j <= k < |lines|
    ensures Requests(words, lines[k])
    ensures LineItems(words, lines)[j].task == Strip(lines[k])
  {
    k := k1 + 1;
    assert lines[k] == lines[1..][k1];
    assert LineItems(words, lines)[j] == LineItems(words, lines[1..])[j - |head|];
  }

  /** Scanning keeps source order and drops nothing twice or once too
      often: the items of two blocks of lines are the items of the first
      followed by those of the second. */
  lemma {:induction false} LineItemsAppend(words: seq<string>, a: seq<string>, b: seq<string>)
    ensures LineItems(words, a + b) == LineItems(words, a) + LineItems(words, b)
    decreases |a|
  {
    if |a| > 0 {
      assert (a + b)[1..] == a[1..] + b;
      assert (a + b)[0] == a[0];
      LineItemsAppend(words, a[1..], b);
      var head := if Requests(words, a[0]) then [ActionItem(Strip(a[0]), None)] else [];
      assert LineItems(words, a) == head + LineItems(words, a[1..]);
      assert LineItems(words, a + b) == head + LineItems(words, a[1..] + b);
      assert head + (LineItems(words, a[1..]) + LineItems(words, b)) == (head + LineItems(words, a[1..])) + LineItems(words, b);
    } else {
      assert a + b == b;
    }
  }

  /** A single line yields an item exactly when it contains a keyword. */
  lemma LineItemsSingle(words: seq<string>, line: string)
    ensures LineItems(words, [line]) == if Requests(words, line) then [ActionItem(Strip(line), None)] else []
  {
  }

  /** Nothing is deduplicated: repeating the lines repeats the items. */
  lemma LineItemsRepeat(words: seq<string>, lines: seq<string>)
    ensures LineItems(words, lines + lines) == LineItems(words, lines) + LineItems(words, lines)
  {
    LineItemsAppend(words, lines, lines);
  }

  /** The items of the lines of `source`; when no line asks for anything
      and the lower-cased subject contains task/request/todo/please, a
      single item whose task is that subject. */
  function ExtractActions(source: string, lowSubject: string): (items: seq<ActionItem>)
    ensures !NoRequests(ActionLineWords, SplitLines(source)) ==> items == LineItems(ActionLineWords, SplitLines(source))
    ensures NoRequests(ActionLineWords, SplitLines(source)) ==>
      items == if Mentions(SubjectTaskWords, lowSubject) then [ActionItem(lowSubject, None)] else []
  {
    var items := LineItems(ActionLineWords, SplitLines(source));
    LineItemsEmpty(ActionLineWords, SplitLines(source));
    if items == [] && AnyIn(SubjectTaskWords, lowSubject) then [ActionItem(lowSubject, None)]
    else items
  }

  /** An action item as a record: `{"task": ..., "deadline": ...}`, read
      back through lookups: exactly these two keys, the task text, and
      `None` for a missing deadline. */
  function ItemValue(item: ActionItem): (v: Value)
    ensures v.Dict? && Keys(v.fields) == {"task", "deadline"}
    ensures Get(v.fields, "task") == Some(Str(item.task))
    ensures item.deadline == None ==> Get(v.fields, "deadline") == Some(Null)
    ensures item.deadline.Some? ==> Get(v.fields, "deadline") == Some(Str(item.deadline.value))
  {
    var deadline := match item.deadline case None => Null case Some(d) => Str(d);
    PairLookup("task", Str(item.task), "deadline", deadline);
    Dict([Field("task", Str(item.task)), Field("deadline", deadline)])
  }

  function ItemsValue(items: seq<ActionItem>): (v: Value)
    ensures v.List? && |v.items| == |items|
    ensures forall j :: 0 <= j < |items| ==> v.items[j] == ItemValue(items[j])
  {
    List(seq(|items|, j requires 0 <= j < |items| => ItemValue(items[j])))
  }

  // ---------------------------------------------------------------------
  // The simulated processing of one record
  // ---------------------------------------------------------------------

  /** The body text the classifier reads, before lower-casing: the `text`
      of a dict body or `""`; otherwise `str(body or "")`. */
  function BodyText(body: Value): (t: Value)
    ensures !body.Dict? ==> t == Str(ToStr(Or(body, Str(""))))
    ensures body.Dict? && GetOr(body.fields, "text", Null).Str? ==> t == GetOr(body.fields, "text", Null)
    ensures body.Dict? && !Truthy(GetOr(body.fields, "text", Null)) ==> t == Str("")
  {
    if body.Dict? then Or(GetOr(body.fields, "text", Null), Str("")) else Str(ToStr(Or(body, Str(""))))
  }

  /** The text whose lines are scanned: `body.get("text", "")` of a dict
      body (an empty dict included), otherwise `str(email.get("body", ""))`
      — so a stored `None` body is scanned as the line "None". */
  function LineSource(email: Record): Value {
    var body := GetOr(email, "body", Null);
    if body.Dict? then GetOr(body.fields, "text", Str(""))
    else Str(ToStr(GetOr(email, "body", Str(""))))
  }

  /** What the heuristic needs to run without raising: a subject that is
      a string or falsy (`.lower()`), and for a dict body a `text` that is
      absent or a string (`.splitlines()` on `None` raises). */
  predicate Ready(email: Record) {
    var subject := GetOr(email, "subject", Null);
    var body := GetOr(email, "body", Null);
    (!Truthy(subject) || subject.Str?) && (body.Dict? ==> GetOr(body.fields, "text", Str("")).Str?)
  }

  /** The lower-cased subject the heuristic reads. */
  function LowSubject(email: Record): string
    requires Ready(email)
  {
    Lower(Or(GetOr(email, "subject", Null), Str("")).s)
  }

  /** The classifier's verdict for a record. */
  function Verdict(email: Record): Classification
    requires Ready(email)
  {
    Classify(Lower(BodyText(GetOr(email, "body", Null)).s), LowSubject(email))
  }

  /** The extractor's items for a record. */
  function Actions(email: Record): seq<ActionItem>
    requires Ready(email)
  {
    ExtractActions(LineSource(email).s, LowSubject(email))
  }

  /** `_simple_simulate_processing`: the record with the heuristic's
      verdict and items merged in (see `Results.WithResults` for what the
      merge keeps). */
  function Simulate(email: Record): (r: Record)
    requires Ready(email)
    ensures Get(r, "category") == Some(Str(CategoryName(Verdict(email).category)))
    ensures Get(r, "category_reason") == Some(Str(ReasonFor(Verdict(email).category)))
    ensures Get(r, "action_items") == Some(ItemsValue(Actions(email)))
    ensures forall k :: k != "category" && k != "category_reason" && k != "action_items" ==>
      Get(r, k) == Get(email, k)
  {
    var verdict := Verdict(email);
    WithResults(email, Str(CategoryName(verdict.category)), Str(verdict.reason), ItemsValue(Actions(email)))
  }

  /** Every verdict is one of the four heuristic categories, reported
      with that rule's fixed reason. */
  lemma SimulateTotal(email: Record)
    requires Ready(email)
    ensures exists c :: (c in {Newsletter, Spam, ToDo, Important} &&
      Get(Simulate(email), "category") == Some(Str(CategoryName(c))) &&
      Get(Simulate(email), "category_reason") == Some(Str(ReasonFor(c))))
  {
    var c := Verdict(email).category;
    assert c in {Newsletter, Spam, ToDo, Important};
  }

  /** Matching ignores case: a newsletter keyword written in any mix of
      cases anywhere in the subject makes the record a Newsletter, whatever
      spam or request words it also carries. */
  lemma SubjectKeywordInAnyCase(email: Record, written: string)
    requires Ready(email)
    requires Lower(written) in NewsletterWords
    requires Occurs(written, Or(GetOr(email, "subject", Null), Str("")).s)
    ensures Get(Simulate(email), "category") == Some(Str("Newsletter"))
  {
    LowerKeepsOccurrence(written, Or(GetOr(email, "subject", Null), Str("")).s);
  }
}
