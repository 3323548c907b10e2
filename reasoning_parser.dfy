/**
  The reasoning parser: it separates a model's reasoning trace from the
  answer shown to the user, using a start marker and an end marker.

  - `DetectAndParse` splits a whole text at once.
  - `BaseReasoningParser.ParseStreamingIncrement` consumes fragments one by
    one, with the two-state machine whose state is `isReasoning` and `buffer`;
    the pure function `StreamStep` is its specification.
  - `ReasoningParser` is the registry front end: it maps a model-family name
    to a parser instance and forwards both kinds of call to it.

  Python exceptions become `Err` values: `IndexError` for indexing past the
  end of a list, `KeyError` for a missing dictionary key.
*/
module Reasoning {
  import opened PyStr
  import opened Regex

  /** Characters that Python's `re` does not read literally. */
  const RegexMetacharacters: set<char> :=
    {'.', '^', '$', '*', '+', '?', '{', '}', '[', ']', '\\', '|', '(', ')'}

  /** A marker the model covers: non-empty and free of regex metacharacters,
      so that interpolating it into the pattern matches it literally. */
  type Marker = s: string | |s| > 0 && forall i :: 0 <= i < |s| ==> s[i] !in RegexMetacharacters
    witness "a"

  /** The marker pair of the DeepSeek-R1 family; the trailing space is part of each marker. */
  const DeepSeekStart: Marker := "<think> "
  const DeepSeekEnd: Marker := "</think> "

  datatype Error = IndexError | KeyError(key: string)

  datatype Result<T> = Ok(value: T) | Err(error: Error)

  /** The pair `(reasoning_content, content)` every call returns. */
  datatype Output = Output(reasoning: string, content: string)

  // ---------------------------------------------------------------------------
  // Non-streaming parse
  // ---------------------------------------------------------------------------

  /** `BaseReasoningParser.detect_and_parse`. Without an end marker the whole
      text is reasoning. Otherwise the start marker is prepended, the group of
      the first lazy `start(.*?)end` match is the reasoning, and the content is
      what follows the matched end marker. The net effect is a split at the
      first end marker, and `findall(...)[0]` never fails. */
  function DetectAndParse(thinkStart: Marker, thinkEnd: Marker, text: string): (r: Result<Output>)
    ensures !Contains(text, thinkEnd) ==> r == Ok(Output(text, ""))
    ensures Contains(text, thinkEnd) ==>
              && r.Ok?
              && r.value.reasoning + thinkEnd + r.value.content == text
              && Find(text, thinkEnd, 0) == Some(|r.value.reasoning|)
  {
    if !Contains(text, thinkEnd) then Ok(Output(text, ""))
    else
      var t := thinkStart + text;
      var i := Find(text, thinkEnd, 0).value;
      PrependedMatch(thinkStart, thinkEnd, text, i);
      PrependedRest(thinkStart, thinkEnd, text, i);
      match FindAllFirst(t, thinkStart, thinkEnd)
      case None => Err(IndexError)
      case Some(reasoningContent) =>
        Ok(Output(reasoningContent,
                  SliceFrom(t, |thinkStart| + |reasoningContent| + |thinkEnd|)))
  }

  /** After prepending the start marker, the first match starts at 0 and its
      group is the text before the first end marker of the original text. */
  lemma PrependedMatch(thinkStart: Marker, thinkEnd: Marker, text: string, i: nat)
    requires Find(text, thinkEnd, 0) == Some(i)
    ensures FindAllFirst(thinkStart + text, thinkStart, thinkEnd) == Some(text[..i])
  {
    var t := thinkStart + text;
    assert t[|thinkStart|..] == text;
    assert OccursAt(t, thinkStart, 0) by {
      assert t[..|thinkStart|] == thinkStart;
    }
    FindAllFirstAtStart(t, thinkStart, thinkEnd, i);
  }

  /** The slice offset lands just after the first end marker, and the text is
      the reasoning, the marker and that remainder. */
  lemma PrependedRest(thinkStart: Marker, thinkEnd: Marker, text: string, i: nat)
    requires Find(text, thinkEnd, 0) == Some(i)
    ensures SliceFrom(thinkStart + text, |thinkStart| + i + |thinkEnd|) == text[i + |thinkEnd|..]
    ensures text[..i] + thinkEnd + text[i + |thinkEnd|..] == text
  {
    var t := thinkStart + text;
    assert t[|thinkStart| + i + |thinkEnd|..] == text[i + |thinkEnd|..];
    FindOccurs(text, thinkEnd, 0);
    SliceAround(text, thinkEnd, 0, i);
    assert text[0..] == text && text[0..i] == text[..i];
  }

  // ---------------------------------------------------------------------------
  // Streaming parse
  // ---------------------------------------------------------------------------

  /** The mutable part of a parser: `is_reasoning` and `_buffer`. */
  datatype StreamState = StreamState(isReasoning: bool, buffer: string)

  /** The state `__init__` sets up. */
  const InitialState := StreamState(true, "")

  /** What one call of the streaming parse returns, and the state it leaves. */
  datatype StepResult = StepResult(out: Result<Output>, next: StreamState)

  /** One call of `parse_streaming_increment`, as a function of the state.
      In reasoning mode the fragment is appended to the buffer first; if the
      buffer now holds the end marker, the FRAGMENT alone is split, and when
      the fragment itself lacks the marker, taking piece [1] raises IndexError
      after the buffer was already extended. In content mode the fragment is
      content and nothing changes. */
  function StreamStep(thinkEnd: Marker, st: StreamState, newText: string): (r: StepResult)
    ensures r.next.isReasoning ==> st.isReasoning
    ensures st.isReasoning && r.next.isReasoning ==> r.next.buffer == st.buffer + newText
    ensures st.isReasoning && !r.next.isReasoning ==> r.next.buffer == "" && r.out.Ok?
    ensures !st.isReasoning ==> r.next == st && r.out == Ok(Output("", newText))
  {
    if st.isReasoning then
      var buffer := st.buffer + newText;
      if !Contains(buffer, thinkEnd) then
        StepResult(Ok(Output(newText, "")), StreamState(true, buffer))
      else
        var pieces := Split(newText, thinkEnd);
        if |pieces| < 2 then StepResult(Err(IndexError), StreamState(true, buffer))
        else StepResult(Ok(Output(pieces[0], pieces[1])), StreamState(false, ""))
    else
      StepResult(Ok(Output("", newText)), st)
  }

  /** The outputs and the final state of feeding `fragments` in order, one call each. */
  datatype Trace = Trace(outs: seq<Result<Output>>, final: StreamState)

  function Run(thinkEnd: Marker, st: StreamState, fragments: seq<string>): (tr: Trace)
    ensures |tr.outs| == |fragments|
    decreases |fragments|
  {
    if fragments == [] then Trace([], st)
    else
      var step := StreamStep(thinkEnd, st, fragments[0]);
      var rest := Run(thinkEnd, step.next, fragments[1..]);
      Trace([step.out] + rest.outs, rest.final)
  }

  /** `BaseReasoningParser` together with its subclass `DeepSeekR1ReasoningParser`,
      which only fixes the marker pair. The compiled `pattern` field is the
      marker pair itself, read through `Regex.FindAllFirst`. */
  class BaseReasoningParser {
    var buffer: string
    const thinkStartToken: Marker
    const thinkEndToken: Marker
    var isReasoning: bool

    constructor (thinkStartToken: Marker, thinkEndToken: Marker)
      ensures this.thinkStartToken == thinkStartToken && this.thinkEndToken == thinkEndToken
      ensures State() == InitialState
    {
      buffer := "";
      this.thinkStartToken := thinkStartToken;
      this.thinkEndToken := thinkEndToken;
      isReasoning := true;
    }

    /** `DeepSeekR1ReasoningParser()`. */
    constructor DeepSeekR1()
      ensures thinkStartToken == DeepSeekStart && thinkEndToken == DeepSeekEnd
      ensures State() == InitialState
    {
      buffer := "";
      thinkStartToken := DeepSeekStart;
      thinkEndToken := DeepSeekEnd;
      isReasoning := true;
    }

    function State(): StreamState
      reads this
    {
      StreamState(isReasoning, buffer)
    }

    /** `parse_streaming_increment`: returns the pair for this fragment (or the
        IndexError it raises) and updates `isReasoning` and `buffer` in place. */
    method ParseStreamingIncrement(newText: string) returns (r: Result<Output>)
      modifies this
      ensures StepResult(r, State()) == StreamStep(thinkEndToken, old(State()), newText)
    {
      if isReasoning {
        buffer := buffer + newText;
        if !Contains(buffer, thinkEndToken) {
          return Ok(Output(newText, ""));
        } else {
          var reasoningPart := Split(newText, thinkEndToken)[0];
          var pieces := Split(newText, thinkEndToken);
          if |pieces| < 2 {
            return Err(IndexError);
          }
          var contentPart := pieces[1];
          isReasoning := false;
          buffer := "";
          return Ok(Output(reasoningPart, contentPart));
        }
      } else {
        return Ok(Output("", newText));
      }
    }
  }

  // ---------------------------------------------------------------------------
  // Registry
  // ---------------------------------------------------------------------------

  /** The parser classes the registry can instantiate. */
  datatype ParserKind = DeepSeekR1Kind

  /** `ReasoningParser.ReasoningParserDict`. */
  const ReasoningParserDict: map<string, ParserKind> := map["deepseek-r1" := DeepSeekR1Kind]

  /** `ReasoningParserDict[name]`: a KeyError for any unregistered name, with no default. */
  function LookupParser(name: string): (r: Result<ParserKind>)
    ensures r.Ok? <==> name == "deepseek-r1"
    ensures r.Ok? ==> r.value == DeepSeekR1Kind
    ensures r.Err? ==> r.error == KeyError(name)
  {
    if name in ReasoningParserDict then Ok(ReasoningParserDict[name]) else Err(KeyError(name))
  }

  /** `ReasoningParser`: one parser instance, held for the lifetime of a stream. */
  class ReasoningParser {
    const parser: BaseReasoningParser

    constructor (parser: BaseReasoningParser)
      ensures this.parser == parser
    {
      this.parser := parser;
    }

    /** `ReasoningParser(reasoning_parser)`: looks the name up and instantiates
        the registered class; an unknown name raises KeyError. */
    static method Create(reasoningParser: string) returns (r: Result<ReasoningParser>)
      ensures r.Ok? <==> reasoningParser == "deepseek-r1"
      ensures r.Err? ==> r.error == KeyError(reasoningParser)
      ensures r.Ok? ==> fresh(r.value) && fresh(r.value.parser)
      ensures r.Ok? ==> (&& r.value.parser.thinkStartToken == DeepSeekStart
                         && r.value.parser.thinkEndToken == DeepSeekEnd
                         && r.value.parser.State() == InitialState)
    {
      var kind := LookupParser(reasoningParser);
      if kind.Err? {
        return Err(kind.error);
      }
      assert kind.value == DeepSeekR1Kind;
      var p := new BaseReasoningParser.DeepSeekR1();
      var rp := new ReasoningParser(p);
      r := Ok(rp);
    }

    /** `parse_non_stream`: the non-streaming parse of the held instance,
        which never fails. */
    function ParseNonStream(fullText: string): (r: Result<Output>)
      ensures r == DetectAndParse(parser.thinkStartToken, parser.thinkEndToken, fullText)
      ensures r.Ok?
    {
      DetectAndParse(parser.thinkStartToken, parser.thinkEndToken, fullText)
    }

    /** `parse_stream_chunk`: one streaming call on the held instance, whose
        state therefore carries over from one chunk to the next. */
    method ParseStreamChunk(chunkText: string) returns (r: Result<Output>)
      modifies parser
      ensures StepResult(r, parser.State()) == StreamStep(parser.thinkEndToken, old(parser.State()), chunkText)
    {
      r := parser.ParseStreamingIncrement(chunkText);
    }
  }
}
