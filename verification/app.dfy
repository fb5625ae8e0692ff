/**
 * The inbox operations of the Streamlit front end (app.py): mapping the
 * processing mode to the flags of the fetch, merging a fetch into the
 * inbox, replacing a re-processed record, and the pieces of the detail
 * view that are plain data: the body shown, its paragraphs, and the list
 * of action items.
 */
module App {
  import opened Wrappers
  import opened Text
  import opened Json
  import Simulator
  import AgentLogic
  import GmailToAgent

  // ---------------------------------------------------------------------
  // Processing mode
  // ---------------------------------------------------------------------

  /** The `skip_processing` and `simulate_processing` flags of a fetch. */
  datatype Flags = Flags(skip: bool, simulate: bool)

  const RealMode: string := "LLM (real)"
  const SimulateMode: string := "Simulate (heuristic)"
  const SkipMode: string := "Skip processing"

  /** The flags for the selected mode; any label other than the first two
      means skipping. */
  function ModeFlags(mode: string): (f: Flags)
    ensures f.skip <==> mode != RealMode
    ensures f.simulate <==> mode == SimulateMode
  {
    if mode == RealMode then Flags(false, false)
    else if mode == SimulateMode then Flags(true, true)
    else Flags(true, false)
  }

  /** The radio label that selects the given flags. */
  function ModeOf(f: Flags): string {
    if !f.skip then RealMode else if f.simulate then SimulateMode else SkipMode
  }

  /** Each of the three labels maps to its own flags, and the three flag
      combinations reachable from the radio are exactly those with
      `simulate` only alongside `skip`. */
  lemma ModeRoundTrip(mode: string, f: Flags)
    ensures mode in {RealMode, SimulateMode, SkipMode} ==> ModeOf(ModeFlags(mode)) == mode
    ensures (f.simulate ==> f.skip) ==> ModeFlags(ModeOf(f)) == f
    ensures ModeFlags(mode).simulate ==> ModeFlags(mode).skip
  {
  }

  // ---------------------------------------------------------------------
  // Merging a fetch into the inbox
  // ---------------------------------------------------------------------

  /** `e.get("id")`. */
  function IdOf(e: Record): Value {
    GetOr(e, "id", Null)
  }

  /** `{p.get("id") for p in processed}`. */
  function Ids(rs: seq<Record>): set<Value> {
    set i | 0 <= i < |rs| :: IdOf(rs[i])
  }

  predicate IdsHashable(rs: seq<Record>) {
    forall i :: 0 <= i < |rs| ==> Hashable(IdOf(rs[i]))
  }

  /** The inbox records whose id was not fetched, in their order. */
  function Unfetched(ids: set<Value>, inbox: seq<Record>): (kept: seq<Record>)
    ensures |kept| <= |inbox|
    ensures forall e :: e in kept <==> e in inbox && IdOf(e) !in ids
    decreases |inbox|
  {
    if |inbox| == 0 then []
    else
      var rest := Unfetched(ids, inbox[1..]);
      assert forall e :: e in inbox <==> e == inbox[0] || e in inbox[1..];
      if IdOf(inbox[0]) in ids then rest else [inbox[0]] + rest
  }

  /** The inbox after a fetch: the fetched records first, then the inbox
      records whose id was not fetched. Building the id set, or testing an
      id against it, raises on an unhashable id; the handler then leaves
      the inbox as it was, which `None` stands for. */
  function MergeFetched(fetched: seq<Record>, inbox: seq<Record>): (r: Option<seq<Record>>)
    ensures r.None? <==> !IdsHashable(fetched) || !IdsHashable(inbox)
    ensures r.Some? ==> |r.value| >= |fetched| && r.value[..|fetched|] == fetched
    ensures r.Some? ==> forall e :: e in r.value[|fetched|..] <==> e in inbox && IdOf(e) !in Ids(fetched)
    ensures r.Some? ==> r.value == fetched + Unfetched(Ids(fetched), inbox)
  {
    if IdsHashable(fetched) && IdsHashable(inbox) then
      var r := fetched + Unfetched(Ids(fetched), inbox);
      assert r[|fetched|..] == Unfetched(Ids(fetched), inbox);
      Some(r)
    else None
  }

  lemma {:induction false} UnfetchedAppend(ids: set<Value>, a: seq<Record>, b: seq<Record>)
    ensures Unfetched(ids, a + b) == Unfetched(ids, a) + Unfetched(ids, b)
    decreases |a|
  {
    if |a| == 0 {
      assert a + b == b;
    } else {
      assert (a + b)[0] == a[0] && (a + b)[1..] == a[1..] + b;
      UnfetchedAppend(ids, a[1..], b);
    }
  }

  /** Records whose ids are all outside the set are all kept. */
  lemma {:induction false} UnfetchedKeepsAll(ids: set<Value>, inbox: seq<Record>)
    requires forall i :: 0 <= i < |inbox| ==> IdOf(inbox[i]) !in ids
    ensures Unfetched(ids, inbox) == inbox
    decreases |inbox|
  {
    if |inbox| > 0 {
      UnfetchedKeepsAll(ids, inbox[1..]);
      assert inbox == [inbox[0]] + inbox[1..];
    }
  }

  /** Records whose ids are all in the set are all dropped. */
  lemma {:induction false} UnfetchedDropsAll(ids: set<Value>, inbox: seq<Record>)
    requires forall i :: 0 <= i < |inbox| ==> IdOf(inbox[i]) in ids
    ensures Unfetched(ids, inbox) == []
    decreases |inbox|
  {
    if |inbox| > 0 {
      UnfetchedDropsAll(ids, inbox[1..]);
    }
  }

  /** Fetching the same records twice leaves the inbox as after the first
      fetch: nothing is duplicated. */
  lemma MergeIdempotent(fetched: seq<Record>, inbox: seq<Record>)
    requires MergeFetched(fetched, inbox).Some?
    ensures MergeFetched(fetched, MergeFetched(fetched, inbox).value) == MergeFetched(fetched, inbox)
  {
    var ids := Ids(fetched);
    var kept := Unfetched(ids, inbox);
    assert MergeFetched(fetched, inbox).value == fetched + kept;
    KeptHashable(ids, fetched, inbox);
    RemergeKeeps(ids, fetched, kept);
  }

  /** The merged records' ids are all hashable when the inputs' are. */
  lemma KeptHashable(ids: set<Value>, fetched: seq<Record>, inbox: seq<Record>)
    requires IdsHashable(fetched) && IdsHashable(inbox)
    ensures IdsHashable(fetched + Unfetched(ids, inbox))
  {
    var kept := Unfetched(ids, inbox);
    var merged := fetched + kept;
    forall i | 0 <= i < |merged| ensures Hashable(IdOf(merged[i])) {
      if i >= |fetched| {
        assert merged[i] in kept;
        var j :| 0 <= j < |inbox| && inbox[j] == merged[i];
      }
    }
  }

  /** Re-merging drops the fetched records again and keeps the rest. */
  lemma RemergeKeeps(ids: set<Value>, fetched: seq<Record>, kept: seq<Record>)
    requires ids == Ids(fetched)
    requires forall i :: 0 <= i < |kept| ==> IdOf(kept[i]) !in ids
    ensures Unfetched(ids, fetched + kept) == kept
  {
    UnfetchedAppend(ids, fetched, kept);
    UnfetchedDropsAll(ids, fetched);
    UnfetchedKeepsAll(ids, kept);
    assert [] + kept == kept;
  }

  /** The positions in `inbox` of the records `Unfetched` keeps. */
  function Positions(ids: set<Value>, inbox: seq<Record>): seq<nat>
    decreases |inbox|
  {
    if |inbox| == 0 then []
    else
      var tail := Shift(Positions(ids, inbox[1..]));
      if IdOf(inbox[0]) in ids then tail else [0] + tail
  }

  function Shift(s: seq<nat>): (r: seq<nat>)
    ensures |r| == |s| && forall j :: 0 <= j < |s| ==> r[j] == s[j] + 1
  {
    seq(|s|, j requires 0 <= j < |s| => s[j] + 1)
  }

  /** The `j`-th kept record is the inbox record at the `j`-th position. */
  lemma {:induction false} PositionsIndex(ids: set<Value>, inbox: seq<Record>)
    ensures |Positions(ids, inbox)| == |Unfetched(ids, inbox)|
    ensures forall j :: 0 <= j < |Positions(ids, inbox)| ==>
      Positions(ids, inbox)[j] < |inbox| && Unfetched(ids, inbox)[j] == inbox[Positions(ids, inbox)[j]]
    decreases |inbox|
  {
    if |inbox| > 0 {
      PositionsIndex(ids, inbox[1..]);
      var tail := Positions(ids, inbox[1..]);
      var rest := Unfetched(ids, inbox[1..]);
      var d := if IdOf(inbox[0]) in ids then 0 else 1;
      IndexStep(inbox, tail, rest, Positions(ids, inbox), Unfetched(ids, inbox), d);
    }
  }

  /** The inductive step of `PositionsIndex`, stated over the pieces alone:
      `d` records (0 or 1) whether the first inbox record is kept. */
  lemma IndexStep(inbox: seq<Record>, tail: seq<nat>, rest: seq<Record>, p: seq<nat>, kept: seq<Record>, d: nat)
    requires |inbox| > 0 && d <= 1 && |tail| == |rest|
    requires forall j :: 0 <= j < |tail| ==> tail[j] < |inbox| - 1 && rest[j] == inbox[1..][tail[j]]
    requires p == (if d == 0 then [] else [0]) + Shift(tail)
    requires kept == (if d == 0 then [] else [inbox[0]]) + rest
    ensures |p| == |kept|
    ensures forall j :: 0 <= j < |p| ==> p[j] < |inbox| && kept[j] == inbox[p[j]]
  {
    forall j | d <= j < |p| ensures p[j] < |inbox| && kept[j] == inbox[p[j]] {
      assert p[j] == tail[j - d] + 1 && kept[j] == rest[j - d];
    }
  }

  /** The positions increase: kept records keep their relative order. */
  lemma {:induction false} PositionsIncrease(ids: set<Value>, inbox: seq<Record>)
    ensures forall j, k :: 0 <= j < k < |Positions(ids, inbox)| ==>
      Positions(ids, inbox)[j] < Positions(ids, inbox)[k]
    decreases |inbox|
  {
    if |inbox| > 0 {
      PositionsIncrease(ids, inbox[1..]);
    }
  }

  /** Every inbox record with an unfetched id is kept. */
  lemma {:induction false} PositionsComplete(ids: set<Value>, inbox: seq<Record>)
    ensures forall i :: 0 <= i < |inbox| && IdOf(inbox[i]) !in ids ==> i in Positions(ids, inbox)
    decreases |inbox|
  {
    if |inbox| > 0 {
      PositionsComplete(ids, inbox[1..]);
      var tail := Positions(ids, inbox[1..]);
      var p := Positions(ids, inbox);
      forall i | 1 <= i < |inbox| && IdOf(inbox[i]) !in ids ensures i in p {
        assert inbox[1..][i - 1] == inbox[i];
        var j :| 0 <= j < |tail| && tail[j] == i - 1;
        assert Shift(tail)[j] == i;
      }
    }
  }

  /** The distinct entries of a sequence. */
  function Elems(s: seq<nat>): set<nat> {
    set x | x in s
  }

  /** A strictly increasing sequence has as many distinct entries as
      entries. */
  lemma {:induction false} IncreasingCard(s: seq<nat>)
    requires forall j, k :: 0 <= j < k < |s| ==> s[j] < s[k]
    ensures |Elems(s)| == |s|
    decreases |s|
  {
    if |s| > 0 {
      var rest := s[1..];
      IncreasingCard(rest);
      ElemsCons(s);
      assert s[0] !in Elems(rest) by {
        assert forall j :: 0 <= j < |rest| ==> rest[j] == s[j + 1];
      }
    }
  }

  lemma ElemsCons(s: seq<nat>)
    requires |s| > 0
    ensures Elems(s) == Elems(s[1..]) + {s[0]}
  {
    assert forall x :: x in s <==> x == s[0] || x in s[1..];
  }

  /** One record is kept per inbox position whose id is outside `ids`. */
  lemma UnfetchedCount(ids: set<Value>, inbox: seq<Record>)
    ensures |Unfetched(ids, inbox)| == |set i | 0 <= i < |inbox| && IdOf(inbox[i]) !in ids|
  {
    var kept := Unfetched(ids, inbox);
    var idx := Positions(ids, inbox);
    PositionsIndex(ids, inbox);
    assert |Elems(idx)| == |idx| by {
      PositionsIncrease(ids, inbox);
      IncreasingCard(idx);
    }
    assert Elems(idx) == (set i | 0 <= i < |inbox| && IdOf(inbox[i]) !in ids) by {
      PositionsComplete(ids, inbox);
      forall x | x in idx ensures 0 <= x < |inbox| && IdOf(inbox[x]) !in ids {
        var j :| 0 <= j < |idx| && idx[j] == x;
        assert kept[j] in kept;
      }
    }
  }

  /** The merged inbox holds the fetched records plus one record per inbox
      record whose id was not fetched. */
  lemma MergeLength(fetched: seq<Record>, inbox: seq<Record>)
    requires MergeFetched(fetched, inbox).Some?
    ensures |MergeFetched(fetched, inbox).value| ==
      |fetched| + |set i | 0 <= i < |inbox| && IdOf(inbox[i]) !in Ids(fetched)|
  {
    UnfetchedCount(Ids(fetched), inbox);
  }

  // ---------------------------------------------------------------------
  // Replacing a re-processed record
  // ---------------------------------------------------------------------

  /** The inbox after "Re-run processing": every record with the updated
      record's id is replaced by it. */
  function ReplaceById(updated: Record, emails: seq<Record>): (r: seq<Record>)
    ensures |r| == |emails|
    ensures forall i :: 0 <= i < |emails| ==>
      r[i] == if IdOf(emails[i]) == IdOf(updated) then updated else emails[i]
    decreases |emails|
  {
    if |emails| == 0 then []
    else
      var rest := ReplaceById(updated, emails[1..]);
      [if IdOf(emails[0]) == IdOf(updated) then updated else emails[0]] + rest
  }

  /** Replacing twice is replacing once. */
  lemma ReplaceIdempotent(updated: Record, emails: seq<Record>)
    ensures ReplaceById(updated, ReplaceById(updated, emails)) == ReplaceById(updated, emails)
  {
  }

  /** Re-running the model path on the selected record puts its result in
      that record's slot: processing keeps the id. Records with other ids
      stay as they were. */
  lemma RerunReplacesSelected(emails: seq<Record>, i: int, prompts: Record, llm: AgentLogic.Completion)
    requires 0 <= i < |emails|
    requires AgentLogic.ProcessEmail(emails[i], prompts, llm).Success?
    ensures var updated := AgentLogic.ProcessEmail(emails[i], prompts, llm).value;
      && IdOf(updated) == IdOf(emails[i])
      && ReplaceById(updated, emails)[i] == updated
      && forall j :: 0 <= j < |emails| && IdOf(emails[j]) != IdOf(emails[i]) ==>
           ReplaceById(updated, emails)[j] == emails[j]
  {
    var updated := AgentLogic.ProcessEmail(emails[i], prompts, llm).value;
    ProcessingKeepsId(emails[i], prompts, llm);
    ReplaceSelected(updated, emails, i);
  }

  /** Replacing by the id of the record in slot `i` puts the new record
      there and leaves the records with other ids alone. */
  lemma ReplaceSelected(updated: Record, emails: seq<Record>, i: int)
    requires 0 <= i < |emails| && IdOf(updated) == IdOf(emails[i])
    ensures ReplaceById(updated, emails)[i] == updated
    ensures forall j :: 0 <= j < |emails| && IdOf(emails[j]) != IdOf(emails[i]) ==>
      ReplaceById(updated, emails)[j] == emails[j]
  {
  }

  lemma ProcessingKeepsId(email: Record, prompts: Record, llm: AgentLogic.Completion)
    requires AgentLogic.ProcessEmail(email, prompts, llm).Success?
    ensures IdOf(AgentLogic.ProcessEmail(email, prompts, llm).value) == IdOf(email)
  {
    var updated := AgentLogic.ProcessEmail(email, prompts, llm).value;
    assert Get(updated, "id") == Get(email, "id");
  }

  // ---------------------------------------------------------------------
  // The detail view
  // ---------------------------------------------------------------------

  /** The body text and html the detail view works from. */
  datatype Shown = Shown(text: Value, html: Value)

  /** The body shown for a record: a dict body gives its `text` (or "")
      and its `html`; any other body gives its `str` (or "") and no html. */
  function DisplayBody(email: Record): (d: Shown)
    ensures !Truthy(GetOr(email, "body", Null)) ==> d == Shown(Str(""), Null)
    ensures GetOr(email, "body", Null).Dict? && GetOr(email, "body", Null).fields != [] ==>
      d == Shown(Or(GetOr(GetOr(email, "body", Null).fields, "text", Null), Str("")),
                 GetOr(GetOr(email, "body", Null).fields, "html", Null))
    ensures Truthy(GetOr(email, "body", Null)) && !GetOr(email, "body", Null).Dict? ==>
      d == Shown(Str(ToStr(GetOr(email, "body", Null))), Null)
  {
    var body := Or(GetOr(email, "body", Null), Dict([]));
    if body.Dict? then
      Shown(Or(GetOr(body.fields, "text", Null), Str("")), GetOr(body.fields, "html", Null))
    else
      Shown(Str(ToStr(Or(body, Str("")))), Null)
  }

  /** A record built by the fetch loop shows what its message's body
      carried: a dict body's text (or "" when falsy) and html, and any
      other body itself (or "" when falsy) with no html. */
  lemma DisplayFetched(msg: Record)
    ensures var b := GetOr(msg, "body", Null);
      DisplayBody(GmailToAgent.Normalise(msg)) ==
        if b.Dict? then Shown(Or(GetOr(b.fields, "text", Null), Str("")), GetOr(b.fields, "html", Null))
        else Shown(Or(b, Str("")), Null)
  {
    var b := GetOr(msg, "body", Null);
    GmailToAgent.NormaliseFields(msg);
    var nb := GmailToAgent.NormalBody(b);
    assert GetOr(GmailToAgent.Normalise(msg), "body", Null) == nb;
    assert nb.fields != [];
    OrLaws(b, Str(""), Str(""));
  }

  /** The paragraphs shown: the text with CRLF turned into LF is split at
      blank lines, each piece is stripped, and empty pieces are dropped. */
  function Paragraphs(text: string): seq<string> {
    NonBlank(Split(Replace(text, "\r\n", "\n"), "\n\n"))
  }

  /** The stripped pieces that are not empty, in order: no kept piece is
      empty, every piece that strips to something is kept, and everything
      kept is some piece stripped. */
  function NonBlank(pieces: seq<string>): (kept: seq<string>)
    ensures |kept| <= |pieces|
    ensures forall k :: 0 <= k < |kept| ==> kept[k] != ""
    ensures forall j :: 0 <= j < |pieces| && Strip(pieces[j]) != "" ==> Strip(pieces[j]) in kept
    ensures forall p :: p in kept ==> exists j :: 0 <= j < |pieces| && p == Strip(pieces[j])
    decreases |pieces|
  {
    if |pieces| == 0 then []
    else
      var rest := NonBlank(pieces[1..]);
      if Strip(pieces[0]) != "" then [Strip(pieces[0])] + rest else rest
  }

  /** One piece is kept, stripped, exactly when it is not blank. */
  lemma NonBlankSingle(p: string)
    ensures NonBlank([p]) == if Strip(p) != "" then [Strip(p)] else []
  {
    assert [p][1..] == [];
  }

  /** Filtering keeps order and multiplicity: the kept pieces of two runs
      are those of the first followed by those of the second. */
  lemma {:induction false} NonBlankAppend(a: seq<string>, b: seq<string>)
    ensures NonBlank(a + b) == NonBlank(a) + NonBlank(b)
    decreases |a|
  {
    if |a| == 0 {
      assert a + b == b;
    } else {
      assert (a + b)[0] == a[0];
      assert (a + b)[1..] == a[1..] + b;
      NonBlankAppend(a[1..], b);
    }
  }

  /** The Markdown the view renders for a non-blank body. */
  function NormalizeParagraphs(text: string): string {
    Join(Paragraphs(text), "\n\n")
  }

  /** A paragraph as shown: not empty, without surrounding whitespace, and
      without a blank line inside. */
  ghost predicate CleanParagraph(p: string) {
    p != "" && !IsSpace(p[0]) && !IsSpace(p[|p| - 1]) && !Occurs("\n\n", p)
  }

  lemma {:induction false} NonBlankClean(pieces: seq<string>)
    requires forall k :: 0 <= k < |pieces| ==> !Occurs("\n\n", pieces[k])
    ensures forall k :: 0 <= k < |NonBlank(pieces)| ==> CleanParagraph(NonBlank(pieces)[k])
    decreases |pieces|
  {
    if |pieces| > 0 {
      NonBlankClean(pieces[1..]);
      var p := Strip(pieces[0]);
      if p != "" {
        var _ := StripSpec(pieces[0]);
        if Occurs("\n\n", p) {
          OccursTransitive("\n\n", p, pieces[0]);
        }
        assert CleanParagraph(p);
        CleanCons(p, NonBlank(pieces[1..]));
      }
    }
  }

  lemma CleanCons(p: string, ps: seq<string>)
    requires CleanParagraph(p)
    requires forall k :: 0 <= k < |ps| ==> CleanParagraph(ps[k])
    ensures forall k :: 0 <= k < |[p] + ps| ==> CleanParagraph(([p] + ps)[k])
  {
  }

  /** Every paragraph shown is clean. */
  lemma ParagraphsClean(text: string)
    ensures forall k :: 0 <= k < |Paragraphs(text)| ==> CleanParagraph(Paragraphs(text)[k])
  {
    SplitPiecesFree(Replace(text, "\r\n", "\n"), "\n\n");
    NonBlankClean(Split(Replace(text, "\r\n", "\n"), "\n\n"));
  }

  /** No blank line starts inside a clean paragraph. */
  lemma CleanHasNoBreak(p: string)
    requires CleanParagraph(p)
    ensures forall i :: 0 <= i < |p| ==> !("\n\n" <= p[i..])
  {
    forall i | 0 <= i < |p| ensures !("\n\n" <= p[i..]) {
      assert "\n\n" <= p[i..] ==> OccursAt("\n\n", p, i);
    }
  }

  /** ... nor does one start inside it when a blank line and more text
      follow, since its last character is not a line break. */
  lemma CleanThenBreak(p: string, y: string)
    requires CleanParagraph(p)
    ensures forall i :: 0 <= i < |p| ==> !("\n\n" <= (p + "\n\n" + y)[i..])
  {
    CleanHasNoBreak(p);
    var s := p + "\n\n" + y;
    forall i | 0 <= i < |p| ensures !("\n\n" <= s[i..]) {
      if i < |p| - 1 {
        assert s[i..i + 2] == p[i..i + 2];
        assert !("\n\n" <= p[i..]);
      } else {
        assert s[i] == p[|p| - 1];
      }
    }
  }

  /** Clean paragraphs joined at blank lines split back into themselves. */
  lemma {:induction false} SplitJoinClean(ps: seq<string>)
    requires |ps| >= 1
    requires forall k :: 0 <= k < |ps| ==> CleanParagraph(ps[k])
    ensures Split(Join(ps, "\n\n"), "\n\n") == ps
    decreases |ps|
  {
    var p := ps[0];
    if |ps| == 1 {
      CleanHasNoBreak(p);
      SplitWhole(p, "\n\n");
    } else {
      var y := Join(ps[1..], "\n\n");
      SplitJoinClean(ps[1..]);
      CleanThenBreak(p, y);
      SplitCons(p, "\n\n", y);
      assert ps == [p] + ps[1..];
    }
  }

  /** Splitting the rendered Markdown at blank lines gives back the
      paragraphs; with no paragraph the Markdown is empty. */
  lemma NormalizeRoundTrip(text: string)
    ensures Paragraphs(text) != [] ==> Split(NormalizeParagraphs(text), "\n\n") == Paragraphs(text)
    ensures Paragraphs(text) == [] ==> NormalizeParagraphs(text) == ""
  {
    ParagraphsClean(text);
    if Paragraphs(text) != [] {
      SplitJoinClean(Paragraphs(text));
    }
  }

  // ---------------------------------------------------------------------
  // Action items
  // ---------------------------------------------------------------------

  /** What the view shows under "Action Items". */
  datatype ActionsShown =
    | NotProcessed
    | NoTasks
    | Numbered(lines: seq<string>)
    | NotIterable(typeName: string)

  /** The elements `enumerate` walks: list items, the characters of a
      string, the keys of a dict; other values are not iterable. */
  function Elements(v: Value): Option<seq<Value>> {
    match v
    case List(xs) => Some(xs)
    case Str(s) => Some(seq(|s|, k requires 0 <= k < |s| => Str([s[k]])))
    case Dict(fs) => Some(seq(|fs|, k requires 0 <= k < |fs| => Str(fs[k].key)))
    case _ => None
  }

  /** The bullet prefix of the `n`-th item. */
  function Bullet(n: nat): string {
    "- **" + NatToString(n) + ".** "
  }

  /** The line of the `n`-th item: its bullet, then its text. */
  function ItemLine(n: nat, item: Value): string {
    Bullet(n) + ItemText(item)
  }

  /** What follows the bullet: a dict shows its `task` (default "") and,
      when truthy, its deadline; anything else shows as `str(item)`. */
  function ItemText(item: Value): string {
    if item.Dict? then
      var task := GetOr(item.fields, "task", Str(""));
      var deadline := GetOr(item.fields, "deadline", Null);
      if Truthy(deadline) then ToStr(task) + " _(deadline: " + ToStr(deadline) + ")_"
      else ToStr(task)
    else ToStr(item)
  }

  /** The lines of `items`, numbered from 1. */
  function NumberedLines(items: seq<Value>): seq<string> {
    seq(|items|, k requires 0 <= k < |items| => ItemLine(k + 1, items[k]))
  }

  /** The action-item section of the detail view. */
  function ShowActions(email: Record): (v: ActionsShown)
    ensures v == NotProcessed <==> GetOr(email, "action_items", Null) == Null
    ensures v == NoTasks <==> GetOr(email, "action_items", Null) != Null && !Truthy(GetOr(email, "action_items", Null))
    ensures v.Numbered? ==>
      && Elements(GetOr(email, "action_items", Null)).Some?
      && |v.lines| == |Elements(GetOr(email, "action_items", Null)).value|
    ensures Truthy(GetOr(email, "action_items", Null)) && Elements(GetOr(email, "action_items", Null)).Some? ==>
      v == Numbered(NumberedLines(Elements(GetOr(email, "action_items", Null)).value))
    ensures v.NotIterable? <==>
      Truthy(GetOr(email, "action_items", Null)) && Elements(GetOr(email, "action_items", Null)).None?
  {
    var items := GetOr(email, "action_items", Null);
    if items == Null then NotProcessed
    else if !Truthy(items) then NoTasks
    else
      match Elements(items)
      case Some(xs) => Numbered(NumberedLines(xs))
      case None => NotIterable(TypeName(items))
  }

  /** The numbers shown are 1, 2, 3, ... in item order: line `k` starts
      with the bullet of `k + 1`, whose digits read back as `k + 1`. */
  lemma NumberedFromOne(items: seq<Value>, k: int)
    requires 0 <= k < |items|
    ensures Bullet(k + 1) <= NumberedLines(items)[k]
    ensures DigitsValue(NatToString(k + 1)) == k + 1
  {
    NatToStringRoundTrip(k + 1);
  }

  /** An item of the heuristic, which has no deadline, shows as its task
      after the bullet. */
  lemma SimulatedItemLine(n: nat, item: Simulator.ActionItem)
    requires item.deadline == None
    ensures ItemLine(n, Simulator.ItemValue(item)) == Bullet(n) + item.task
  {
    var fs := Simulator.ItemValue(item).fields;
    GetFirst(fs, "task", 0);
    GetFirst(fs, "deadline", 1);
  }
}
