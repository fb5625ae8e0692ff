/**
 * The message side of gmail_client.py: the walk over a message's MIME
 * part tree that collects its text/plain and text/html payloads, the rule
 * that picks the body to show from them, and the header mapping of
 * `get_message`.
 *
 * Base64url decoding (section 5 of RFC 4648) followed by UTF-8 decoding,
 * HTML sanitising and HTML-to-text conversion are parameters: `decode`
 * yields `None` where the library call raises.
 */
module GmailClient {
  import opened Wrappers
  import opened Text
  import opened Json

  /** A header line of a part. */
  datatype Header = Header(name: string, value: string)

  /** A MIME part: its `mimeType` ("" when missing), its headers, the
      base64url `data` of its body ("" when missing or empty), and its
      sub-parts. */
  datatype Part = Part(mimeType: string, headers: seq<Header>, data: string, parts: seq<Part>)

  /** Base64url decoding followed by UTF-8 decoding with replacement. */
  type Decoder = string -> Option<string>

  /** What a walk collects: the decoded plain and html payloads. */
  datatype Collected = Collected(plain: seq<string>, html: seq<string>)

  function Concat(a: Collected, b: Collected): Collected {
    Collected(a.plain + b.plain, a.html + b.html)
  }

  lemma ConcatAssoc(x: Collected, y: Collected, z: Collected)
    ensures Concat(x, Concat(y, z)) == Concat(Concat(x, y), z)
  {
    assert x.plain + (y.plain + z.plain) == (x.plain + y.plain) + z.plain;
    assert x.html + (y.html + z.html) == (x.html + y.html) + z.html;
  }

  /** The payload a part contributes by itself: a text/plain or text/html
      part with data contributes its decoded data, to one list only; a
      failed decode contributes nothing. */
  function Own(decode: Decoder, p: Part): (c: Collected)
    ensures |c.plain| + |c.html| <= 1
    ensures p.data == "" ==> c == Collected([], [])
    ensures |c.plain| == 1 ==> p.mimeType == "text/plain" && decode(p.data) == Some(c.plain[0])
    ensures |c.html| == 1 ==> p.mimeType == "text/html" && decode(p.data) == Some(c.html[0])
  {
    if p.data == "" || decode(p.data).None? then Collected([], [])
    else if p.mimeType == "text/plain" then Collected([decode(p.data).value], [])
    else if p.mimeType == "text/html" then Collected([], [decode(p.data).value])
    else Collected([], [])
  }

  /** `_extract_parts`: the part's own payload, then those of its
      sub-parts in order. */
  function ExtractParts(decode: Decoder, p: Part): Collected
    decreases p
  {
    Concat(Own(decode, p), ExtractAll(decode, p.parts))
  }

  /** The payloads of a list of sibling parts, in order. */
  function ExtractAll(decode: Decoder, ps: seq<Part>): Collected
    decreases ps
  {
    if |ps| == 0 then Collected([], [])
    else Concat(ExtractParts(decode, ps[0]), ExtractAll(decode, ps[1..]))
  }

  // ---------------------------------------------------------------------
  // The walk as a pre-order listing of the tree's nodes
  // ---------------------------------------------------------------------

  /** The nodes of a part tree in depth-first pre-order. */
  function Nodes(p: Part): (ns: seq<Part>)
    ensures |ns| >= 1 && ns[0] == p
    decreases p
  {
    [p] + NodesAll(p.parts)
  }

  function NodesAll(ps: seq<Part>): seq<Part>
    decreases ps
  {
    if |ps| == 0 then [] else Nodes(ps[0]) + NodesAll(ps[1..])
  }

  /** The own payloads of a list of nodes, in order. */
  function OwnAll(decode: Decoder, ns: seq<Part>): Collected
    decreases |ns|
  {
    if |ns| == 0 then Collected([], []) else Concat(Own(decode, ns[0]), OwnAll(decode, ns[1..]))
  }

  lemma {:induction false} OwnAllAppend(decode: Decoder, a: seq<Part>, b: seq<Part>)
    ensures OwnAll(decode, a + b) == Concat(OwnAll(decode, a), OwnAll(decode, b))
    decreases |a|
  {
    if |a| == 0 {
      assert a + b == b;
    } else {
      assert (a + b)[0] == a[0] && (a + b)[1..] == a[1..] + b;
      OwnAllAppend(decode, a[1..], b);
      ConcatAssoc(Own(decode, a[0]), OwnAll(decode, a[1..]), OwnAll(decode, b));
    }
  }

  /** The walk collects exactly the own payloads of the tree's nodes, in
      pre-order: a node's payload comes before its children's, and
      children are visited in order. */
  lemma {:induction false} ExtractPartsPreOrder(decode: Decoder, p: Part)
    ensures ExtractParts(decode, p) == OwnAll(decode, Nodes(p))
    decreases p
  {
    ExtractAllPreOrder(decode, p.parts);
    OwnAllAppend(decode, [p], NodesAll(p.parts));
  }

  lemma {:induction false} ExtractAllPreOrder(decode: Decoder, ps: seq<Part>)
    ensures ExtractAll(decode, ps) == OwnAll(decode, NodesAll(ps))
    decreases ps
  {
    if |ps| > 0 {
      ExtractPartsPreOrder(decode, ps[0]);
      ExtractAllPreOrder(decode, ps[1..]);
      OwnAllAppend(decode, Nodes(ps[0]), NodesAll(ps[1..]));
    }
  }

  /** A plain payload is collected exactly when some node of the tree is a
      text/plain part with data that decodes to it. */
  lemma {:induction false} OwnAllPlain(decode: Decoder, ns: seq<Part>, s: string)
    ensures s in OwnAll(decode, ns).plain <==>
      exists n :: n in ns && n.mimeType == "text/plain" && n.data != "" && decode(n.data) == Some(s)
    decreases |ns|
  {
    if |ns| > 0 {
      OwnAllPlain(decode, ns[1..], s);
      assert ns == [ns[0]] + ns[1..];
      if exists n :: n in ns && n.mimeType == "text/plain" && n.data != "" && decode(n.data) == Some(s) {
        var n :| n in ns && n.mimeType == "text/plain" && n.data != "" && decode(n.data) == Some(s);
        if n != ns[0] {
          assert n in ns[1..];
        }
      }
    }
  }

  /** The same for html payloads. */
  lemma {:induction false} OwnAllHtml(decode: Decoder, ns: seq<Part>, s: string)
    ensures s in OwnAll(decode, ns).html <==>
      exists n :: n in ns && n.mimeType == "text/html" && n.data != "" && decode(n.data) == Some(s)
    decreases |ns|
  {
    if |ns| > 0 {
      OwnAllHtml(decode, ns[1..], s);
      assert ns == [ns[0]] + ns[1..];
      if exists n :: n in ns && n.mimeType == "text/html" && n.data != "" && decode(n.data) == Some(s) {
        var n :| n in ns && n.mimeType == "text/html" && n.data != "" && decode(n.data) == Some(s);
        if n != ns[0] {
          assert n in ns[1..];
        }
      }
    }
  }

  /** A part without data, or whose data fails to decode, contributes
      nothing itself, and its sub-parts are still walked. */
  lemma SkippedPartWalksChildren(decode: Decoder, p: Part)
    requires p.data == "" || decode(p.data) == None
    ensures ExtractParts(decode, p) == ExtractAll(decode, p.parts)
  {
    assert Own(decode, p) == Collected([], []);
  }

  /** Each node contributes to at most one of the two lists, so the walk
      never collects more payloads than the tree has nodes. */
  lemma {:induction false} OwnAllBound(decode: Decoder, ns: seq<Part>)
    ensures |OwnAll(decode, ns).plain| + |OwnAll(decode, ns).html| <= |ns|
    decreases |ns|
  {
    if |ns| > 0 {
      OwnAllBound(decode, ns[1..]);
    }
  }

  // ---------------------------------------------------------------------
  // Choosing the body
  // ---------------------------------------------------------------------

  /** The `{"text": ..., "html": ...}` result; `html` is `None` where the
      code stores `None`. */
  datatype Body = Body(text: string, html: Option<string>)

  /** Why the body could not be chosen. */
  datatype BodyError = UnboundText

  /** The html-to-text conversion as called: `_html_to_text` returns ""
      for an empty string without consulting the parser. */
  function HtmlToText(toText: string -> string, html: string): string {
    if html == "" then "" else toText(html)
  }

  /** The body chosen from the walk: plain parts win, with the sanitised
      joined html alongside (or `None` when it is empty); otherwise the
      html parts give both the sanitised html and its text. */
  function FromParts(clean: string -> string, toText: string -> string, c: Collected): (r: Option<Body>)
    ensures r.None? <==> c.plain == [] && c.html == []
    ensures c.plain != [] ==> r.value.text == Join(c.plain, "\n\n")
    ensures c.plain != [] ==> (r.value.html.None? <==> Join(c.html, "\n\n") == "")
    ensures c.plain != [] && r.value.html.Some? ==> r.value.html.value == clean(Join(c.html, "\n\n"))
    ensures c.plain == [] && c.html != [] ==>
      r.value == Body(HtmlToText(toText, Join(c.html, "\n\n")), Some(clean(Join(c.html, "\n\n"))))
  {
    if c.plain != [] then
      var html := if c.html != [] then Join(c.html, "\n\n") else "";
      Some(Body(Join(c.plain, "\n\n"), if html != "" then Some(clean(html)) else None))
    else if c.html != [] then
      var html := Join(c.html, "\n\n");
      Some(Body(HtmlToText(toText, html), Some(clean(html))))
    else None
  }

  /** The payload's own body, when it has data that decodes. */
  function DirectBody(decode: Decoder, payload: Part): Option<string> {
    if payload.data != "" then decode(payload.data) else None
  }

  /** `extract_message_body` as written: with neither a direct body nor any
      collected part, the final `return` reads `text` and `safe_html`,
      which were never assigned, and raises. */
  function ExtractMessageBodyAsWritten(decode: Decoder, clean: string -> string, toText: string -> string,
                                       payload: Part): (r: Result<Body, BodyError>)
    ensures DirectBody(decode, payload).Some? ==> r == Success(Body(DirectBody(decode, payload).value, None))
    ensures r.Failure? <==>
      DirectBody(decode, payload).None? && ExtractParts(decode, payload) == Collected([], [])
  {
    match DirectBody(decode, payload)
    case Some(raw) => Success(Body(raw, None))
    case None =>
      match FromParts(clean, toText, ExtractParts(decode, payload))
      case Some(b) => Success(b)
      case None => Failure(UnboundText)
  }

  /** `extract_message_body` as its documentation describes it: with
      neither plain nor html parts, empty strings. */
  function ExtractMessageBody(decode: Decoder, clean: string -> string, toText: string -> string,
                              payload: Part): (r: Body)
    ensures DirectBody(decode, payload).Some? ==> r == Body(DirectBody(decode, payload).value, None)
    ensures DirectBody(decode, payload).None? && ExtractParts(decode, payload) == Collected([], []) ==>
      r == Body("", Some(""))
  {
    match DirectBody(decode, payload)
    case Some(raw) => Body(raw, None)
    case None =>
      match FromParts(clean, toText, ExtractParts(decode, payload))
      case Some(b) => b
      case None => Body("", Some(""))
  }

  /** The corrected body agrees with the code wherever the code returns. */
  lemma ExtractMessageBodyAgrees(decode: Decoder, clean: string -> string, toText: string -> string, payload: Part)
    ensures ExtractMessageBodyAsWritten(decode, clean, toText, payload).Success? ==>
      ExtractMessageBodyAsWritten(decode, clean, toText, payload).value ==
      ExtractMessageBody(decode, clean, toText, payload)
  {
  }

  /** A multipart payload with no body and no sub-parts makes the code
      raise, where empty strings were promised. */
  lemma EmptyPayloadRaises(decode: Decoder, clean: string -> string, toText: string -> string)
    ensures ExtractMessageBodyAsWritten(decode, clean, toText, Part("multipart/mixed", [], "", [])).Failure?
    ensures ExtractMessageBody(decode, clean, toText, Part("multipart/mixed", [], "", [])) == Body("", Some(""))
  {
    assert ExtractParts(decode, Part("multipart/mixed", [], "", [])) == Collected([], []);
  }

  /** Without a usable direct body, the plain parts win: the text is their
      join, and html is absent exactly when the joined html is empty. */
  lemma PlainPreferred(decode: Decoder, clean: string -> string, toText: string -> string, payload: Part)
    requires DirectBody(decode, payload).None?
    requires ExtractParts(decode, payload).plain != []
    ensures var c := ExtractParts(decode, payload);
      var r := ExtractMessageBody(decode, clean, toText, payload);
      && r.text == Join(c.plain, "\n\n")
      && (r.html.None? <==> Join(c.html, "\n\n") == "")
      && (c.html == [] ==> r.html.None?)
  {
  }

  /** With html parts and no plain ones, both fields come from the joined
      html. */
  lemma HtmlFallback(decode: Decoder, clean: string -> string, toText: string -> string, payload: Part)
    requires DirectBody(decode, payload).None?
    requires ExtractParts(decode, payload).plain == [] && ExtractParts(decode, payload).html != []
    ensures var html := Join(ExtractParts(decode, payload).html, "\n\n");
      ExtractMessageBody(decode, clean, toText, payload) == Body(HtmlToText(toText, html), Some(clean(html)))
  {
  }

  /** A failed direct decode falls through to the walk, which starts with
      the payload itself. */
  lemma DirectFailureFallsThrough(decode: Decoder, clean: string -> string, toText: string -> string, payload: Part)
    requires payload.data != "" && decode(payload.data) == None
    ensures ExtractMessageBody(decode, clean, toText, payload) ==
      ExtractMessageBody(decode, clean, toText, payload.(data := ""))
  {
    assert ExtractParts(decode, payload) == ExtractParts(decode, payload.(data := ""));
  }

  // ---------------------------------------------------------------------
  // Headers and get_message
  // ---------------------------------------------------------------------

  /** `{h["name"].lower(): h["value"] for h in headers}`: later headers
      overwrite earlier ones with the same lower-cased name. */
  function HeaderDict(headers: seq<Header>): (d: Record)
    ensures UniqueKeys(d)
    decreases |headers|
  {
    if |headers| == 0 then []
    else
      var init := headers[..|headers| - 1];
      var h := headers[|headers| - 1];
      PutUnique(HeaderDict(init), Lower(h.name), Str(h.value));
      Put(HeaderDict(init), Lower(h.name), Str(h.value))
  }

  /** The header dict's keys are exactly the lower-cased header names. */
  lemma {:induction false} HeaderDictKeys(headers: seq<Header>, key: string)
    ensures key in Keys(HeaderDict(headers)) <==> HasName(headers, key)
    decreases |headers|
  {
    if |headers| > 0 {
      var init := headers[..|headers| - 1];
      HeaderDictKeys(init, key);
      HasNameStep(headers, key);
      assert Keys(HeaderDict(headers)) == Keys(HeaderDict(init)) + {Lower(headers[|headers| - 1].name)};
    }
  }

  /** Some header has the lower-cased name `key`. */
  predicate HasName(headers: seq<Header>, key: string) {
    exists i :: 0 <= i < |headers| && Lower(headers[i].name) == key
  }

  lemma HasNameStep(headers: seq<Header>, key: string)
    requires |headers| > 0
    ensures HasName(headers, key) <==>
      HasName(headers[..|headers| - 1], key) || Lower(headers[|headers| - 1].name) == key
  {
    var init := headers[..|headers| - 1];
    if HasName(headers, key) {
      var i :| 0 <= i < |headers| && Lower(headers[i].name) == key;
      if i < |init| {
        assert init[i] == headers[i];
      }
    }
    if HasName(init, key) {
      var i :| 0 <= i < |init| && Lower(init[i].name) == key;
      assert headers[i] == init[i];
    }
  }

  /** The value of the last header whose lower-cased name is `key`. */
  function LastValue(headers: seq<Header>, key: string): (r: Option<string>)
    ensures r.Some? <==> exists i :: 0 <= i < |headers| && Lower(headers[i].name) == key
    decreases |headers|
  {
    if |headers| == 0 then None
    else if Lower(headers[|headers| - 1].name) == key then Some(headers[|headers| - 1].value)
    else
      var init := headers[..|headers| - 1];
      var r := LastValue(init, key);
      assert forall i :: 0 <= i < |init| ==> init[i] == headers[i];
      r
  }

  /** Looking a name up in the header dict gives the last header with that
      name, whatever the case it was written in. */
  lemma {:induction false} HeaderDictLast(headers: seq<Header>, key: string)
    ensures Get(HeaderDict(headers), key) ==
      match LastValue(headers, key) case Some(v) => Some(Str(v)) case None => None
    decreases |headers|
  {
    if |headers| > 0 {
      HeaderDictLast(headers[..|headers| - 1], key);
    }
  }

  /** `header_dict.get(key, default)`: the last header with that name in
      any case, or the default. */
  lemma HeaderLookup(headers: seq<Header>, key: string, default: string)
    ensures GetOr(HeaderDict(headers), key, Str(default)) ==
      match LastValue(headers, key) case Some(v) => Str(v) case None => Str(default)
  {
    HeaderDictLast(headers, key);
  }

  /** A fetched message: its thread id (`None` when missing), its payload
      (an empty part when missing), and the message as returned, kept
      under `raw_gmail`. */
  datatype Message = Message(threadId: Value, payload: Part, raw: Value)

  /** The `body` value of the returned dict. */
  function BodyValue(b: Body): Value {
    Dict([Field("text", Str(b.text)), Field("html", match b.html case Some(h) => Str(h) case None => Null)])
  }

  /** The dict `get_message` returns: the literal's keys inserted in the
      order written. */
  function MessageRecord(id: Value, threadId: Value, subject: Value, sender: Value, timestamp: Value,
                         body: Value, raw: Value): Record
  {
    Put(Put(Put(Put(Put(Put(Put([], "id", id), "threadId", threadId), "subject", subject), "sender", sender),
      "timestamp", timestamp), "body", body), "raw_gmail", raw)
  }

  /** Each key of such a record holds the value it was built with. */
  lemma MessageRecordFields(id: Value, threadId: Value, subject: Value, sender: Value, timestamp: Value,
                            body: Value, raw: Value)
    ensures var r := MessageRecord(id, threadId, subject, sender, timestamp, body, raw);
      && Get(r, "id") == Some(id) && Get(r, "threadId") == Some(threadId)
      && Get(r, "subject") == Some(subject) && Get(r, "sender") == Some(sender)
      && Get(r, "timestamp") == Some(timestamp) && Get(r, "body") == Some(body)
      && Get(r, "raw_gmail") == Some(raw)
  {
    var d3 := Put(Put(Put([], "id", id), "threadId", threadId), "subject", subject);
    EarlyFields(id, threadId, subject);
    LaterFields(d3, sender, timestamp, body, raw, "id");
    LaterFields(d3, sender, timestamp, body, raw, "threadId");
    LaterFields(d3, sender, timestamp, body, raw, "subject");
  }

  lemma EarlyFields(id: Value, threadId: Value, subject: Value)
    ensures var d := Put(Put(Put([], "id", id), "threadId", threadId), "subject", subject);
      Get(d, "id") == Some(id) && Get(d, "threadId") == Some(threadId) && Get(d, "subject") == Some(subject)
  {
    var d1 := Put([], "id", id);
    var d2 := Put(d1, "threadId", threadId);
    assert Get(d2, "id") == Some(id);
  }

  /** The last four keys are set last, and the keys before them are left
      alone. */
  lemma LaterFields(d: Record, sender: Value, timestamp: Value, body: Value, raw: Value, k: string)
    requires k != "sender" && k != "timestamp" && k != "body" && k != "raw_gmail"
    ensures var r := Put(Put(Put(Put(d, "sender", sender), "timestamp", timestamp), "body", body), "raw_gmail", raw);
      && Get(r, "sender") == Some(sender) && Get(r, "timestamp") == Some(timestamp)
      && Get(r, "body") == Some(body) && Get(r, "raw_gmail") == Some(raw)
      && Get(r, k) == Get(d, k)
  {
    var d4 := Put(d, "sender", sender);
    var d5 := Put(d4, "timestamp", timestamp);
    var d6 := Put(d5, "body", body);
    assert Get(d6, "sender") == Some(sender);
  }

  /** `get_message` given the outcome of the fetch, with the body chosen
      as `extract_message_body` documents it (`ExtractMessageBody`): `{}`
      when the fetch failed, otherwise the record. The code as written
      raises instead on a payload with no usable body; that behaviour is
      `GetMessageAsWritten`. */
  function GetMessage(fetched: Option<Message>, msgId: string, decode: Decoder, clean: string -> string,
                      toText: string -> string): (r: Record)
    ensures r == [] <==> fetched.None?
  {
    match fetched
    case None => []
    case Some(m) =>
      var headers := HeaderDict(m.payload.headers);
      MessageRecord(Str(msgId), m.threadId, GetOr(headers, "subject", Str("(no subject)")),
                    GetOr(headers, "from", Str("(unknown)")), GetOr(headers, "date", Str("")),
                    BodyValue(ExtractMessageBody(decode, clean, toText, m.payload)), m.raw)
  }

  /** `get_message` as written: the `UnboundLocalError` of
      `extract_message_body` is not caught, so it escapes. Wherever the
      code returns, it returns the record `GetMessage` builds. */
  function GetMessageAsWritten(fetched: Option<Message>, msgId: string, decode: Decoder, clean: string -> string,
                               toText: string -> string): (r: Result<Record, BodyError>)
    ensures r.Failure? <==>
      fetched.Some? && ExtractMessageBodyAsWritten(decode, clean, toText, fetched.value.payload).Failure?
    ensures r.Success? ==> r.value == GetMessage(fetched, msgId, decode, clean, toText)
  {
    match fetched
    case None => Success([])
    case Some(m) =>
      match ExtractMessageBodyAsWritten(decode, clean, toText, m.payload)
      case Failure(e) => Failure(e)
      case Success(b) =>
        ExtractMessageBodyAgrees(decode, clean, toText, m.payload);
        var headers := HeaderDict(m.payload.headers);
        Success(MessageRecord(Str(msgId), m.threadId, GetOr(headers, "subject", Str("(no subject)")),
                              GetOr(headers, "from", Str("(unknown)")), GetOr(headers, "date", Str("")),
                              BodyValue(b), m.raw))
  }

  /** A fetched message whose payload has neither a direct body nor any
      text part makes `get_message` raise as written; corrected, it yields
      a record with an empty body. */
  lemma AttachmentOnlyMessageRaises(m: Message, msgId: string, decode: Decoder, clean: string -> string,
                                    toText: string -> string)
    requires m.payload == Part("multipart/mixed", [], "", [])
    ensures GetMessageAsWritten(Some(m), msgId, decode, clean, toText).Failure?
    ensures Get(GetMessage(Some(m), msgId, decode, clean, toText), "body") == Some(BodyValue(Body("", Some(""))))
  {
    EmptyPayloadRaises(decode, clean, toText);
    GetMessageFields(m, msgId, decode, clean, toText);
  }

  /** The value a header field gets when the message carries that header,
      or the default. */
  function HeaderField(headers: seq<Header>, key: string, default: string): Value {
    match LastValue(headers, key)
    case Some(v) => Str(v)
    case None => Str(default)
  }

  /** The fields of a fetched message's record: the requested id, the
      subject, sender and date from the last header of each name in any
      case (or the defaults "(no subject)", "(unknown)" and ""), the chosen
      body, and the message itself. */
  lemma GetMessageFields(m: Message, msgId: string, decode: Decoder, clean: string -> string,
                         toText: string -> string)
    ensures var r := GetMessage(Some(m), msgId, decode, clean, toText);
      var hs := m.payload.headers;
      && Get(r, "id") == Some(Str(msgId))
      && Get(r, "subject") == Some(HeaderField(hs, "subject", "(no subject)"))
      && Get(r, "sender") == Some(HeaderField(hs, "from", "(unknown)"))
      && Get(r, "timestamp") == Some(HeaderField(hs, "date", ""))
      && Get(r, "body") == Some(BodyValue(ExtractMessageBody(decode, clean, toText, m.payload)))
      && Get(r, "raw_gmail") == Some(m.raw)
  {
    var hs := m.payload.headers;
    var headers := HeaderDict(hs);
    HeaderLookup(hs, "subject", "(no subject)");
    HeaderLookup(hs, "from", "(unknown)");
    HeaderLookup(hs, "date", "");
    MessageRecordFields(Str(msgId), m.threadId, GetOr(headers, "subject", Str("(no subject)")),
                        GetOr(headers, "from", Str("(unknown)")), GetOr(headers, "date", Str("")),
                        BodyValue(ExtractMessageBody(decode, clean, toText, m.payload)), m.raw);
  }
}
