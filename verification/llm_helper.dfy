/**
 * `call_llm_json` of llm_helper.py: the reply of the model is cut at the
 * first `{` (or, failing that, the first `[`) and parsed; a parse failure
 * gives `None`. The model call and `json.loads` are parameters.
 */
module LlmHelper {
  import opened Wrappers
  import opened Text
  import opened Json

  /** Where the JSON is taken to start: the first `{`, otherwise the first
      `[`, otherwise -1. */
  function SpanStart(text: string): (start: int)
    ensures -1 <= start < |text|
    ensures start == -1 <==> '{' !in text && '[' !in text
    ensures '{' in text ==> 0 <= start && text[start] == '{' && '{' !in text[..start]
    ensures '{' !in text && '[' in text ==> 0 <= start && text[start] == '[' && '[' !in text[..start]
  {
    var start := Find(text, '{');
    if start == -1 then Find(text, '[') else start
  }

  /** The text handed to `json.loads`: the suffix from the span start, or
      the whole reply when it has neither bracket. */
  function JsonSpan(text: string): (span: string)
    ensures |span| <= |text| && span == text[|text| - |span|..]
    ensures '{' in text ==> |span| > 0 && span[0] == '{' && '{' !in text[..|text| - |span|]
    ensures '{' !in text && '[' in text ==> |span| > 0 && span[0] == '[' && '[' !in text[..|text| - |span|]
    ensures '{' !in text && '[' !in text ==> span == text
  {
    var start := SpanStart(text);
    if start != -1 then text[start..] else text
  }

  /** The span of a span is itself: it already starts at its first
      bracket. */
  lemma JsonSpanIdempotent(text: string)
    ensures JsonSpan(JsonSpan(text)) == JsonSpan(text)
  {
    var span := JsonSpan(text);
    var cut := |text| - |span|;
    if '{' in text {
      assert SpanStart(span) == 0;
    } else if '[' in text {
      assert forall k :: 0 <= k < |span| ==> span[k] == text[cut + k];
      assert '{' !in span;
      assert SpanStart(span) == 0;
    }
  }

  /** A `{` is preferred even when a `[` comes before it. */
  lemma BracePreferred(text: string, i: int, j: int)
    requires 0 <= i < j < |text| && text[i] == '[' && text[j] == '{' && '{' !in text[..j]
    ensures JsonSpan(text) == text[j..]
  {
    assert text[j] in text;
  }

  /** `call_llm_json` given the outcome of `call_llm` (a failure there
      propagates; its content may be `None`) and `json.loads` (`None` where
      it raises). Everything after the call sits inside the `try`: content
      that is not a string makes `.find` raise, and that gives `None` too. */
  function CallLlmJson(reply: Result<Option<string>, string>, parse: string -> Option<Value>)
    : (r: Result<Value, string>)
    ensures reply.Failure? <==> r.Failure?
    ensures reply.Failure? ==> r.error == reply.error
    ensures reply.Success? && reply.value.None? ==> r == Success(Null)
    ensures reply.Success? && reply.value.Some? && parse(JsonSpan(reply.value.value)).None? ==> r == Success(Null)
    ensures reply.Success? && reply.value.Some? && parse(JsonSpan(reply.value.value)).Some? ==>
      r == Success(parse(JsonSpan(reply.value.value)).value)
  {
    match reply
    case Failure(e) => Failure(e)
    case Success(None) => Success(Null)
    case Success(Some(text)) =>
      match parse(JsonSpan(text))
      case Some(v) => Success(v)
      case None => Success(Null)
  }

  /** A reply the parser accepts from its first bracket on is returned
      parsed, whatever text precedes that bracket. */
  lemma ProseBeforeJsonIgnored(prose: string, json: string, parse: string -> Option<Value>)
    requires '{' !in prose && '[' !in prose
    requires |json| > 0 && (json[0] == '{' || (json[0] == '[' && '{' !in json))
    requires parse(json).Some?
    ensures CallLlmJson(Success(Some(prose + json)), parse) == Success(parse(json).value)
  {
    var text := prose + json;
    assert text[|prose|..] == json;
    assert text[..|prose|] == prose;
    if json[0] == '{' {
      assert text[|prose|] == '{';
      assert SpanStart(text) == |prose|;
    } else {
      assert text[|prose|] == '[';
      assert forall k :: 0 <= k < |json| ==> text[|prose| + k] == json[k];
      assert '{' !in text;
      assert SpanStart(text) == |prose|;
    }
  }
}
