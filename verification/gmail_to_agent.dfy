/**
 * The per-message loop of `fetch_and_process_gmail`: each fetched message
 * is normalised into an inbox record and then either passed through,
 * run through the keyword heuristic, or run through the model path, whose
 * errors are turned into an "Unknown" record instead of escaping.
 */
module GmailToAgent {
  import opened Wrappers
  import opened Json
  import opened Results
  import Simulator
  import AgentLogic

  /** The `body` of the normalised record, read back through lookups: a
      dict with exactly the keys `text` then `html`; a dict body passes on
      its own `text` and `html` (`None` when missing), any other body
      becomes the text (or "" when falsy) with no html. */
  function NormalBody(body: Value): (b: Value)
    ensures b.Dict? && Keys(b.fields) == {"text", "html"} && b.fields[0].key == "text"
    ensures body.Dict? ==>
      Get(b.fields, "text") == Some(GetOr(body.fields, "text", Null)) &&
      Get(b.fields, "html") == Some(GetOr(body.fields, "html", Null))
    ensures !body.Dict? ==>
      Get(b.fields, "text") == Some(Or(body, Str(""))) && Get(b.fields, "html") == Some(Null)
  {
    var text := if body.Dict? then GetOr(body.fields, "text", Null) else Or(body, Str(""));
    var html := if body.Dict? then GetOr(body.fields, "html", Null) else Null;
    PairLookup("text", text, "html", html);
    Dict([Field("text", text), Field("html", html)])
  }

  /** An inbox record, with its keys in the order the loop writes them. */
  function InboxRecord(id: Value, sender: Value, subject: Value, body: Value, timestamp: Value, raw: Value)
    : Record
  {
    [Field("id", id), Field("sender", sender), Field("subject", subject), Field("body", body),
     Field("timestamp", timestamp), Field("raw_gmail", raw)]
  }

  /** The key in slot `i` of an inbox record is found there: no earlier
      slot carries it. */
  lemma InboxRecordAt(id: Value, sender: Value, subject: Value, body: Value, timestamp: Value, raw: Value, i: int)
    requires 0 <= i < 6
    ensures var e := InboxRecord(id, sender, subject, body, timestamp, raw); Get(e, e[i].key) == Some(e[i].value)
  {
    var e := InboxRecord(id, sender, subject, body, timestamp, raw);
    if i == 0 { GetFirst(e, "id", 0); }
    else if i == 1 { GetFirst(e, "sender", 1); }
    else if i == 2 { GetFirst(e, "subject", 2); }
    else if i == 3 { GetFirst(e, "body", 3); }
    else if i == 4 { GetFirst(e, "timestamp", 4); }
    else { GetFirst(e, "raw_gmail", 5); }
  }

  /** Each key of an inbox record holds the value it was built with. */
  lemma InboxRecordFields(id: Value, sender: Value, subject: Value, body: Value, timestamp: Value, raw: Value)
    ensures var e := InboxRecord(id, sender, subject, body, timestamp, raw);
      && Get(e, "id") == Some(id) && Get(e, "sender") == Some(sender) && Get(e, "subject") == Some(subject)
      && Get(e, "body") == Some(body) && Get(e, "timestamp") == Some(timestamp) && Get(e, "raw_gmail") == Some(raw)
  {
    InboxRecordAt(id, sender, subject, body, timestamp, raw, 0);
    InboxRecordAt(id, sender, subject, body, timestamp, raw, 1);
    InboxRecordAt(id, sender, subject, body, timestamp, raw, 2);
    InboxRecordAt(id, sender, subject, body, timestamp, raw, 3);
    InboxRecordAt(id, sender, subject, body, timestamp, raw, 4);
    InboxRecordAt(id, sender, subject, body, timestamp, raw, 5);
  }

  /** The inbox record built from a fetched message: its id, sender,
      subject and timestamp (`None` when missing), the normalised body, and
      the raw message (`{}` when missing). */
  function Normalise(msg: Record): Record {
    InboxRecord(GetOr(msg, "id", Null), GetOr(msg, "sender", Null), GetOr(msg, "subject", Null),
                NormalBody(GetOr(msg, "body", Null)), GetOr(msg, "timestamp", Null),
                GetOr(msg, "raw_gmail", Dict([])))
  }

  /** Read back through lookups, the inbox record holds the message's id,
      sender, subject and timestamp (`None` when missing), its normalised
      body, and its raw message (`{}` when missing). */
  lemma NormaliseFields(msg: Record)
    ensures var e := Normalise(msg);
      && Get(e, "id") == Some(GetOr(msg, "id", Null))
      && Get(e, "sender") == Some(GetOr(msg, "sender", Null))
      && Get(e, "subject") == Some(GetOr(msg, "subject", Null))
      && Get(e, "body") == Some(NormalBody(GetOr(msg, "body", Null)))
      && Get(e, "timestamp") == Some(GetOr(msg, "timestamp", Null))
      && Get(e, "raw_gmail") == Some(GetOr(msg, "raw_gmail", Dict([])))
  {
    InboxRecordFields(GetOr(msg, "id", Null), GetOr(msg, "sender", Null), GetOr(msg, "subject", Null),
                      NormalBody(GetOr(msg, "body", Null)), GetOr(msg, "timestamp", Null),
                      GetOr(msg, "raw_gmail", Dict([])));
  }

  /** Normalising a normalised record changes nothing. */
  lemma NormaliseIdempotent(msg: Record)
    ensures Normalise(Normalise(msg)) == Normalise(msg)
  {
    var e := Normalise(msg);
    InboxRecordFields(e[0].value, e[1].value, e[2].value, e[3].value, e[4].value, e[5].value);
    NormalBodyIdempotent(GetOr(msg, "body", Null));
  }

  /** A normalised body is its own normal form. */
  lemma NormalBodyIdempotent(body: Value)
    ensures NormalBody(NormalBody(body)) == NormalBody(body)
  {
    var b := NormalBody(body);
    GetFirst(b.fields, "text", 0);
    GetFirst(b.fields, "html", 1);
  }

  /** A message `fetch_and_process_gmail` can handle with the given flags:
      the heuristic raises on a record it is not `Ready` for. */
  predicate Processable(msg: Record, skip: bool, simulate: bool) {
    msg != [] && skip && simulate ==> Simulator.Ready(Normalise(msg))
  }

  /** The record a fetched message turns into, or `None` for an empty
      fetch result, which is skipped. */
  function ProcessFetched(msg: Record, skip: bool, simulate: bool, prompts: Record, llm: AgentLogic.Completion)
    : (r: Option<Record>)
    requires Processable(msg, skip, simulate)
    ensures r == None <==> msg == []
  {
    if msg == [] then None
    else
      var e := Normalise(msg);
      if skip then
        if simulate then Some(Simulator.Simulate(e)) else Some(e)
      else
        match AgentLogic.ProcessEmail(e, prompts, llm)
        case Success(updated) => Some(updated)
        case Failure(error) =>
          Some(WithResults(e, Str("Unknown"), Str("Processing error: " + error), List([])))
  }

  /** Skip with simulate gives the heuristic's record; skip alone gives the
      normalised record unchanged. */
  lemma DispatchSkip(msg: Record, simulate: bool, prompts: Record, llm: AgentLogic.Completion)
    requires msg != [] && Processable(msg, true, simulate)
    ensures simulate ==> ProcessFetched(msg, true, simulate, prompts, llm) == Some(Simulator.Simulate(Normalise(msg)))
    ensures !simulate ==> ProcessFetched(msg, true, simulate, prompts, llm) == Some(Normalise(msg))
  {
  }

  /** Without skip, a successful model run is kept as is, and a raised
      error becomes category "Unknown" with reason "Processing error: "
      followed by the message, and no action items. */
  lemma DispatchModel(msg: Record, prompts: Record, llm: AgentLogic.Completion)
    requires msg != []
    ensures var p := AgentLogic.ProcessEmail(Normalise(msg), prompts, llm);
      && (p.Success? ==> ProcessFetched(msg, false, false, prompts, llm) == Some(p.value))
      && (p.Failure? ==>
            var r := ProcessFetched(msg, false, false, prompts, llm).value;
            && Get(r, "category") == Some(Str("Unknown"))
            && Get(r, "category_reason") == Some(Str("Processing error: " + p.error))
            && Get(r, "action_items") == Some(List([])))
  {
  }

  /** Whatever the mode, the record keeps every normalised field except
      the three result keys. */
  lemma DispatchKeepsFields(msg: Record, skip: bool, simulate: bool, prompts: Record, llm: AgentLogic.Completion)
    requires msg != [] && Processable(msg, skip, simulate)
    ensures forall k :: k != "category" && k != "category_reason" && k != "action_items" ==>
      Get(ProcessFetched(msg, skip, simulate, prompts, llm).value, k) == Get(Normalise(msg), k)
  {
    var e := Normalise(msg);
    if !skip {
      var p := AgentLogic.ProcessEmail(e, prompts, llm);
      if p.Failure? {
        assert ProcessFetched(msg, skip, simulate, prompts, llm).value ==
          WithResults(e, Str("Unknown"), Str("Processing error: " + p.error), List([]));
      }
    }
  }

  /** `simulate` only matters together with `skip`. */
  lemma SimulateNeedsSkip(msg: Record, prompts: Record, llm: AgentLogic.Completion)
    ensures ProcessFetched(msg, false, true, prompts, llm) == ProcessFetched(msg, false, false, prompts, llm)
  {
  }

  /** The records a run keeps from its dispatch results: the present ones,
      in order. */
  function Kept(outs: seq<Option<Record>>): (rs: seq<Record>)
    ensures |rs| <= |outs|
    decreases |outs|
  {
    if |outs| == 0 then []
    else
      var init := Kept(outs[..|outs| - 1]);
      match outs[|outs| - 1]
      case Some(r) => init + [r]
      case None => init
  }

  /** With no absent result, every result is kept, in its own slot. */
  lemma {:induction false} KeptAll(outs: seq<Option<Record>>)
    requires forall i :: 0 <= i < |outs| ==> outs[i].Some?
    ensures |Kept(outs)| == |outs|
    ensures forall i :: 0 <= i < |outs| ==> Kept(outs)[i] == outs[i].value
    decreases |outs|
  {
    if |outs| > 0 {
      var init := outs[..|outs| - 1];
      KeptAll(init);
      assert Kept(outs) == Kept(init) + [outs[|outs| - 1].value];
    }
  }

  /** Keeping distributes over concatenation: each result's fate depends
      on itself only. */
  lemma {:induction false} KeptAppend(a: seq<Option<Record>>, b: seq<Option<Record>>)
    ensures Kept(a + b) == Kept(a) + Kept(b)
    decreases |b|
  {
    if |b| == 0 {
      assert a + b == a;
    } else {
      var b' := b[..|b| - 1];
      KeptAppend(a, b');
      assert (a + b)[..|a + b| - 1] == a + b';
    }
  }

  /** The records of a run over the fetched messages, in fetch order. */
  function Processed(msgs: seq<Record>, skip: bool, simulate: bool, prompts: Record, llm: AgentLogic.Completion)
    : (rs: seq<Record>)
    requires forall i :: 0 <= i < |msgs| ==> Processable(msgs[i], skip, simulate)
    ensures |rs| <= |msgs|
  {
    Kept(Dispatched(msgs, skip, simulate, prompts, llm))
  }

  /** The dispatch result of each fetched message. */
  function Dispatched(msgs: seq<Record>, skip: bool, simulate: bool, prompts: Record, llm: AgentLogic.Completion)
    : (outs: seq<Option<Record>>)
    requires forall i :: 0 <= i < |msgs| ==> Processable(msgs[i], skip, simulate)
    ensures |outs| == |msgs|
  {
    seq(|msgs|, i requires 0 <= i < |msgs| => ProcessFetched(msgs[i], skip, simulate, prompts, llm))
  }

  /** There is one dispatch result per message, and it is absent exactly
      for an empty message. */
  lemma DispatchedSlots(msgs: seq<Record>, skip: bool, simulate: bool, prompts: Record, llm: AgentLogic.Completion)
    requires forall i :: 0 <= i < |msgs| ==> Processable(msgs[i], skip, simulate)
    ensures var outs := Dispatched(msgs, skip, simulate, prompts, llm);
      forall i :: 0 <= i < |msgs| ==> (outs[i].None? <==> msgs[i] == [])
  {
  }

  /** Only empty fetch results are dropped: without them, the run yields
      one record per message, each the dispatch of that message. */
  lemma ProcessedKeepsAll(msgs: seq<Record>, skip: bool, simulate: bool, prompts: Record, llm: AgentLogic.Completion)
    requires forall i :: 0 <= i < |msgs| ==> Processable(msgs[i], skip, simulate)
    requires forall i :: 0 <= i < |msgs| ==> msgs[i] != []
    ensures |Processed(msgs, skip, simulate, prompts, llm)| == |msgs|
    ensures forall i :: 0 <= i < |msgs| ==>
      Some(Processed(msgs, skip, simulate, prompts, llm)[i]) == Dispatched(msgs, skip, simulate, prompts, llm)[i]
  {
    KeptAll(Dispatched(msgs, skip, simulate, prompts, llm));
  }

  /** Empty fetch results leave no trace in the run. */
  lemma ProcessedSkipsEmpty(msgs: seq<Record>, skip: bool, simulate: bool, prompts: Record, llm: AgentLogic.Completion)
    requires forall i :: 0 <= i < |msgs| ==> Processable(msgs[i], skip, simulate)
    ensures Processed(msgs + [[]], skip, simulate, prompts, llm) == Processed(msgs, skip, simulate, prompts, llm)
  {
    var outs := Dispatched(msgs, skip, simulate, prompts, llm);
    assert Dispatched(msgs + [[]], skip, simulate, prompts, llm) == outs + [None];
    KeptAppend(outs, [None]);
  }

  /** The loop of `fetch_and_process_gmail` over the dispatch results of
      the fetched messages: present records are appended in order. */
  method KeepPresent(outs: seq<Option<Record>>) returns (processed: seq<Record>)
    ensures processed == Kept(outs)
  {
    processed := [];
    var i := 0;
    while i < |outs|
      invariant 0 <= i <= |outs|
      invariant processed == Kept(outs[..i])
    {
      assert outs[..i + 1][..i] == outs[..i];
      if outs[i].Some? {
        processed := processed + [outs[i].value];
      }
      i := i + 1;
    }
    assert outs[..i] == outs;
  }
}
