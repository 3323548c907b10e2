# Reasoning parser model

A Dafny model of the reasoning/content splitter of SGLang
(`python/sglang/srt/reasoning_parser.py`). A reasoning model writes its
reasoning trace before an end marker and its answer after it. The parser
separates the two parts in one of two ways:

- **Non-streaming.** `detect_and_parse` looks at the whole text. When the end
  marker is absent, the whole text is reasoning. Otherwise it prepends the
  start marker, takes the group of the first lazy `start(.*?)end` match as the
  reasoning, and takes everything after the matched end marker as the
  content.
- **Streaming.** `parse_streaming_increment` is a two-state machine over the
  fields `is_reasoning` and `_buffer`. While reasoning, it appends each
  fragment to the buffer and returns the fragment as reasoning until the
  buffer holds the end marker. Then it splits the current fragment, not the
  buffer, at the marker, clears the buffer and switches to content mode for
  good. In content mode it returns each fragment whole as content and changes
  neither field (lines 40-41).

`ReasoningParser` is a one-entry registry. It maps `"deepseek-r1"` to the
marker pair `"<think> "` / `"</think> "` and forwards both kinds of call to
the instance it holds.

Files:

- `pystr.dfy` (module `PyStr`): the Python string operations the parser is
  written with. These are `in` (`Contains`, at lines 28 and 45), `str.split`
  with a separator (`Split`, at lines 32-33) and the open-ended slice `s[k:]`
  (`SliceFrom`, at lines 52-56), each with lemmas. `Find`, the
  leftmost-occurrence search, is the search behind `in` and `split`; the code
  does not call `str.find`. `Join` (`sep.join`) is not used by the code
  either; it is there only to state the round trip of `split`.
- `regex.dfy` (module `Regex`): the one compiled pattern,
  `re.compile(start(.*?)end, re.DOTALL).findall(t)[0]`, read literally for
  markers free of regex metacharacters.
- `reasoning_parser.dfy` (module `Reasoning`): the parser itself.
  - `DetectAndParse` is the non-streaming parse.
  - `StreamStep` is a pure specification of one streaming call.
  - The class `BaseReasoningParser` holds the mutable fields. Its method
    `ParseStreamingIncrement` updates them in place and is proved equal to
    `StreamStep`.
  - The registry is `ReasoningParserDict`, `LookupParser` and the class
    `ReasoningParser`.
- `reasoning_props.dfy` (module `ReasoningProps`): the properties.
  - Non-streaming: the split at the first end marker, in both directions.
  - Streaming: single calls, the invariant and the "jammed" state, whole
    streams (`Run`), conservation of the text, and agreement with the
    non-streaming parse.
- `reasoning_examples.dfy` (module `ReasoningExamples`): concrete inputs for
  the DeepSeek-R1 markers that show the sharp edges.
  - A literal start marker is kept.
  - A fragment with two end markers loses its tail.
  - An end marker split across two fragments raises IndexError and jams the
    parser, or moves the split to a later marker.

Python exceptions are values: `Err(IndexError)` and `Err(KeyError(name))` of
`Reasoning.Result`.

### Sharp edges of the code

- **The straddled marker.** When the end marker first appears in `_buffer`
  only because it straddles the previous fragment and the current one
  (line 25), the current fragment lacks it, so piece `[1]` of
  `new_text.split(end)` raises IndexError (line 33).
  - It raises after `_buffer` was extended (line 25) and before
    `is_reasoning` is cleared (line 35). From then on every call, even one
    with an empty fragment, raises again until a fragment holds the marker
    (`JammedStep`, `StraddledMarkerFails`).
  - When the fragment after the straddle holds a further marker, no call
    raises, and the split lands at that later marker rather than at the
    straddled one (`StraddleMisplacesSplit`).
- **The lost tail.** Lines 31-38 keep only pieces `[0]` and `[1]` of the
  split, so in the fragment that ends the reasoning the text after a second
  end marker is returned nowhere (`SecondMarkerDropsText`). The text of a
  stream is conserved for streams in which no call raises and the fragment
  that ends the reasoning holds the marker once (`StreamConservation`).
- **The empty fragment.** An empty fragment returns `("", "")` and changes
  nothing in reasoning mode and in content mode (lines 24-29, 40-41), except
  in the jammed state, where lines 25-33 raise IndexError again
  (`EmptyFragment`, `EmptyFragmentWhenJammed`).
- **Error kinds.**
  - An unknown family name raises a plain `KeyError` from the dictionary
    lookup at line 79, not a dedicated error kind.
  - Line 51 indexes `findall(...)[0]` without a guard, which would raise
    IndexError on an empty list. The model keeps that branch and proves it
    unreachable whenever the end marker is present (`DetectAndParse` always
    returns `Ok`).

## Model

| member | source | states |
|---|---|---|
| PyStr.Find | python/sglang/srt/reasoning_parser.py:28 | a found index lies at or after the start of the search, with the whole marker inside the text |
| PyStr.FindOccurs | python/sglang/srt/reasoning_parser.py:28 | the marker occurs at the index the search returns |
| PyStr.FindFirst | python/sglang/srt/reasoning_parser.py:28 | no occurrence lies between the start of the search and the index it returns |
| PyStr.FindNone | python/sglang/srt/reasoning_parser.py:45 | when the search finds nothing, the marker occurs nowhere after its start (so `end not in text` means no occurrence at all) |
| PyStr.FindUnique | python/sglang/srt/reasoning_parser.py:45 | an occurrence with none before it is exactly what the search returns |
| PyStr.FindAtMost | python/sglang/srt/reasoning_parser.py:28 | any occurrence makes the search succeed, at that index or earlier |
| PyStr.Contains | python/sglang/srt/reasoning_parser.py:28 | `end in text` holds exactly when the marker occurs at some index of the text |
| PyStr.NoOccurrence | python/sglang/srt/reasoning_parser.py:45 | when the search from the start finds nothing, the marker occurs at no index |
| PyStr.Mismatch | python/sglang/srt/reasoning_parser.py:28 | one differing character rules out an occurrence |
| PyStr.OccursShift | python/sglang/srt/reasoning_parser.py:25 | an occurrence in a fragment is the same occurrence in the buffer it was appended to, shifted by the buffer's old length |
| PyStr.ContainsAppendLeft | python/sglang/srt/reasoning_parser.py:25-28 | a marker in the fragment is in the extended buffer too |
| PyStr.ContainsAppendRight | python/sglang/srt/reasoning_parser.py:25-28 | a marker already in the buffer stays there after any fragment is appended |
| PyStr.SliceFrom | python/sglang/srt/reasoning_parser.py:52-56 | `s[k:]` has length `len(s) - k`, or 0 when `k` is past the end, and is the suffix of `s` of that length |
| PyStr.Split | python/sglang/srt/reasoning_parser.py:32-33 | `split` gives at least one piece, and exactly one exactly when the separator is absent (so piece `[1]` raises IndexError exactly then) |
| PyStr.SplitFrom | python/sglang/srt/reasoning_parser.py:32-33 | the pieces of the rest of the text; one piece exactly when no separator remains |
| PyStr.SplitFromFound | python/sglang/srt/reasoning_parser.py:32-33 | the first piece ends at the first separator and the scan resumes after it |
| PyStr.JoinCons | python/sglang/srt/reasoning_parser.py:32-33 | joining a piece in front of further pieces puts one separator between them |
| PyStr.SplitFromJoin | python/sglang/srt/reasoning_parser.py:32-33 | joining the pieces of the rest of the text with the separator gives that rest back |
| PyStr.JoinAround | python/sglang/srt/reasoning_parser.py:32-33 | the piece before a separator, joined to pieces that rebuild what follows it, rebuilds the text |
| PyStr.SplitJoin | python/sglang/srt/reasoning_parser.py:32-33 | `sep.join(s.split(sep)) == s` |
| PyStr.SliceAround | python/sglang/srt/reasoning_parser.py:52-56 | a text is the part before an occurrence, the occurrence and the part after it |
| PyStr.SliceConcat | python/sglang/srt/reasoning_parser.py:52-56 | adjacent slices join into one |
| PyStr.SliceBeforeNext | python/sglang/srt/reasoning_parser.py:32 | a piece that ends before the next separator holds no separator |
| PyStr.PieceBeforeFirstFree | python/sglang/srt/reasoning_parser.py:32 | the text before the first separator holds no separator |
| PyStr.LastPieceFree | python/sglang/srt/reasoning_parser.py:33 | the rest of a text past its last separator holds no separator |
| PyStr.PiecesFreeCons | python/sglang/srt/reasoning_parser.py:32-33 | a separator-free piece in front of separator-free pieces keeps the whole list free |
| PyStr.SplitFromPiecesFree | python/sglang/srt/reasoning_parser.py:32-33 | no piece of the rest of the text holds the separator |
| PyStr.SplitPiecesFree | python/sglang/srt/reasoning_parser.py:32-33 | no piece of `s.split(sep)` holds the separator |
| PyStr.SplitFirstTwo | python/sglang/srt/reasoning_parser.py:32-33 | piece `[0]` is the text before the first separator; piece `[1]` runs from its end to the next separator, or to the end of the text |
| PyStr.SplitSingleOccurrence | python/sglang/srt/reasoning_parser.py:32-33 | with one separator there are exactly two pieces, and piece 0, the separator and piece 1 make up the text |
| Regex.FirstMatchFrom | python/sglang/srt/reasoning_parser.py:14-16 | a match position found is at or after the scan start, and a match of `start(.*?)end` begins there |
| Regex.FirstMatchLeftmost | python/sglang/srt/reasoning_parser.py:51 | no match begins before the one `findall` reports first |
| Regex.FirstMatchNone | python/sglang/srt/reasoning_parser.py:51 | when no match is found, none begins anywhere after the scan start |
| Regex.FindAllFirst | python/sglang/srt/reasoning_parser.py:14-16 | there is a group exactly when some `start` is followed by an `end`; the group begins right after the leftmost such `start`, is followed by an `end`, and holds no `end` before it (the lazy `(.*?)`); line 51 takes this group |
| Regex.GroupInSuffix | python/sglang/srt/reasoning_parser.py:51 | the text from a position up to the first `end` after it, read in the whole text: followed by `end`, with no `end` starting inside it |
| Regex.FindAllFirstAtStart | python/sglang/srt/reasoning_parser.py:49-51 | in a text beginning with the start marker, the first group runs from that marker to the first end marker after it |
| Reasoning.DetectAndParse | python/sglang/srt/reasoning_parser.py:43-58 | no end marker gives `(text, "")`; otherwise the call succeeds, the reasoning is exactly the text before the first end marker, and reasoning, marker and content make up the text |
| Reasoning.PrependedMatch | python/sglang/srt/reasoning_parser.py:49-51 | after the start marker is prepended, the first match's group is the text before the first end marker |
| Reasoning.PrependedRest | python/sglang/srt/reasoning_parser.py:52-56 | the slice offset lands just past the first end marker of the original text |
| Reasoning.StreamStep | python/sglang/srt/reasoning_parser.py:19-41 | content mode is never left; while reasoning continues the buffer grows by exactly the fragment; the transition empties it and succeeds; content mode returns `("", new_text)` and changes nothing |
| Reasoning.Run | python/sglang/srt/reasoning_parser.py:19-41 | a stream of fragments yields one result per call |
| Reasoning.BaseReasoningParser.constructor | python/sglang/srt/reasoning_parser.py:10-17 | the markers are kept, the buffer is empty and the parser is reasoning |
| Reasoning.BaseReasoningParser.DeepSeekR1 | python/sglang/srt/reasoning_parser.py:61-68 | the DeepSeek-R1 parser has markers `"<think> "` / `"</think> "` and starts in the initial state |
| Reasoning.BaseReasoningParser.ParseStreamingIncrement | python/sglang/srt/reasoning_parser.py:19-41 | the returned pair or error and the new `is_reasoning` / `_buffer` are exactly what `StreamStep` gives for the old fields |
| Reasoning.LookupParser | python/sglang/srt/reasoning_parser.py:74-79 | the lookup succeeds exactly for `"deepseek-r1"`, giving the DeepSeek-R1 class; any other name raises `KeyError` carrying the name |
| Reasoning.ReasoningParser.constructor | python/sglang/srt/reasoning_parser.py:79 | the front end holds the given parser instance |
| Reasoning.ReasoningParser.Create | python/sglang/srt/reasoning_parser.py:74-79 | `ReasoningParser(name)` succeeds exactly for `"deepseek-r1"`, with a fresh DeepSeek-R1 parser in its initial state; any other name raises `KeyError(name)` and no default is used |
| Reasoning.ReasoningParser.ParseNonStream | python/sglang/srt/reasoning_parser.py:81-86 | forwards to the held parser's non-streaming parse, which never raises |
| Reasoning.ReasoningParser.ParseStreamChunk | python/sglang/srt/reasoning_parser.py:88-93 | forwards to the held parser's streaming call, so its state carries from one chunk to the next |
| ReasoningProps.DetectAndParseSplitsAtFirst | python/sglang/srt/reasoning_parser.py:45-58 | a pair is the result exactly when it is the split at the first end marker, or `(text, "")` without one |
| ReasoningProps.DetectAndParseReasoningFree | python/sglang/srt/reasoning_parser.py:49-56 | the reasoning part never holds the end marker |
| ReasoningProps.InitialConsistent | python/sglang/srt/reasoning_parser.py:11-17 | the initial state satisfies the parser invariant and is not jammed |
| ReasoningProps.StillReasoning | python/sglang/srt/reasoning_parser.py:24-29 | while the extended buffer lacks the marker, the call returns `(new_text, "")` and the buffer becomes old buffer plus fragment |
| ReasoningProps.Transition | python/sglang/srt/reasoning_parser.py:31-38 | a fragment with the marker returns the text before its first marker and the text up to its next marker (or end), and leaves content mode with an empty buffer |
| ReasoningProps.StepFailsIff | python/sglang/srt/reasoning_parser.py:31-36 | a call raises exactly when it is reasoning, the extended buffer holds the marker and the fragment does not; it raises IndexError and leaves the parser jammed with the extended buffer |
| ReasoningProps.ContentMode | python/sglang/srt/reasoning_parser.py:40-41 | in content mode every call returns `("", new_text)` and changes nothing |
| ReasoningProps.StepKeepsConsistent | python/sglang/srt/reasoning_parser.py:24-41 | a successful call keeps the invariant and a failed one jams the parser |
| ReasoningProps.EmptyFragment | python/sglang/srt/reasoning_parser.py:25-29 | an empty fragment returns `("", "")` and changes nothing, in either mode, unless the parser is jammed |
| ReasoningProps.JammedStep | python/sglang/srt/reasoning_parser.py:25-36 | from the jammed state a fragment without the marker raises again and leaves it jammed; one with the marker completes the transition |
| ReasoningProps.EmptyFragmentWhenJammed | python/sglang/srt/reasoning_parser.py:25-33 | the jammed parser raises even for the empty fragment and stays unchanged |
| ReasoningProps.RunAppend | python/sglang/srt/reasoning_parser.py:19-41 | feeding two fragment lists in turn is feeding their concatenation |
| ReasoningProps.NoReturnToReasoning | python/sglang/srt/reasoning_parser.py:35-41 | once in content mode the state never changes again and every fragment comes back whole as content |
| ReasoningProps.TransitionAtMostOnce | python/sglang/srt/reasoning_parser.py:35-41 | a parser still reasoning after a stream was reasoning after each prefix of it, so the transition happens at most once |
| ReasoningProps.ReachableStates | python/sglang/srt/reasoning_parser.py:19-41 | every state a stream reaches from a consistent or jammed one is consistent or jammed, so a parser in content mode always has an empty buffer |
| ReasoningProps.ConsistentRun | python/sglang/srt/reasoning_parser.py:19-41 | along a stream in which no call raises, a reasoning parser's buffer never holds the end marker and a content-mode parser's buffer is empty |
| ReasoningProps.RunCons | python/sglang/srt/reasoning_parser.py:19-41 | the joined outputs of a stream are those of its first call followed by those of the rest |
| ReasoningProps.ContentRunConserves | python/sglang/srt/reasoning_parser.py:40-41 | in content mode the joined content is the joined input and there is no reasoning |
| ReasoningProps.ConservedReasoningStep | python/sglang/srt/reasoning_parser.py:24-29 | a fragment that keeps the parser reasoning extends the conserved prefix by itself |
| ReasoningProps.ConservedTransitionStep | python/sglang/srt/reasoning_parser.py:31-41 | the transition fragment contributes reasoning, marker and content that make up the fragment |
| ReasoningProps.StreamConservation | python/sglang/srt/reasoning_parser.py:19-41 | for a stream in which no call raises and the fragment that ends the reasoning holds the marker once: before the marker all input is reasoning and sits in the buffer; after it, reasoning, marker and content make up the whole input |
| ReasoningProps.MarkerOnceCons | python/sglang/srt/reasoning_parser.py:24-41 | the condition that fragments reaching a reasoning parser hold the marker at most once passes from a stream to its first fragment and to the rest of the stream |
| ReasoningProps.SingleFragmentAgrees | python/sglang/srt/reasoning_parser.py:19-58 | a text with at most one end marker, sent whole to a fresh parser, gives the same pair as the non-streaming parse |
| ReasoningExamples.LiteralStartFind | python/sglang/srt/reasoning_parser.py:45 | the first end marker of `"<think> a</think> b"` is at index 9 |
| ReasoningExamples.LiteralStartOccurs | python/sglang/srt/reasoning_parser.py:45 | the end marker occurs at index 9 of that text |
| ReasoningExamples.LiteralStartPieces | python/sglang/srt/reasoning_parser.py:52-56 | the text before and after that marker |
| ReasoningExamples.LiteralStartKept | python/sglang/srt/reasoning_parser.py:49-51 | a literal start marker at the front of the text stays in the reasoning: `("<think> a", "b")` |
| ReasoningExamples.TwoMarkersOccurs | python/sglang/srt/reasoning_parser.py:32-33 | `"a</think> b</think> c"` holds the end marker at 1 and at 11 |
| ReasoningExamples.TwoMarkersFind | python/sglang/srt/reasoning_parser.py:32-33 | those are the first occurrences from 0 and from 10 |
| ReasoningExamples.TwoMarkersPieces | python/sglang/srt/reasoning_parser.py:32-33 | the pieces of that text between its markers |
| ReasoningExamples.SecondMarkerDropsText | python/sglang/srt/reasoning_parser.py:31-38 | sent as one fragment, that text yields `("a", "b")`: the part after the second marker is lost |
| ReasoningExamples.SecondMarkerKeptWhole | python/sglang/srt/reasoning_parser.py:43-58 | the non-streaming parse of the same text keeps it: `("a", "b</think> c")` |
| ReasoningExamples.StraddleBuffer | python/sglang/srt/reasoning_parser.py:25-28 | neither `"a</thi"` nor `"nk> b"` holds the end marker, their concatenation does |
| ReasoningExamples.StraddleFirstStep | python/sglang/srt/reasoning_parser.py:24-29 | the first fragment is plain reasoning and is buffered |
| ReasoningExamples.StraddledMarkerFails | python/sglang/srt/reasoning_parser.py:24-36 | the stream `"a</thi"`, `"nk> b"`, `""` returns `("a</thi", "")`, then raises IndexError twice, and leaves the parser jammed |
| ReasoningExamples.LateMarkerOccurs | python/sglang/srt/reasoning_parser.py:32-33 | `"nk> b</think> c"` holds the end marker at 5 |
| ReasoningExamples.LateMarkerFind | python/sglang/srt/reasoning_parser.py:32-33 | that is its first occurrence, with `"nk> b"` before it and `"c"` after it |
| ReasoningExamples.StraddleJoin | python/sglang/srt/reasoning_parser.py:25 | the two fragments joined are the text with two end markers |
| ReasoningExamples.StraddleMisplacesSplit | python/sglang/srt/reasoning_parser.py:24-38 | when the fragment after a straddled marker holds a second marker, no call raises but the stream splits at the second marker, while the non-streaming parse of the joined text splits at the first |

## Left out

- The regex engine in general. `re.compile(...).findall(t)[0]` is read
  literally, for markers with no regex metacharacter (the `Marker` type). The
  code interpolates the markers into the pattern without escaping, so other
  markers would be read differently.
- Empty markers. `"" in s` is always true and `str.split("")` raises, so the
  `Marker` type excludes them.
- Regex.FindAllFirst: it gives only the first element of `findall`'s list
  (`None` standing for the IndexError of an empty list), not the whole list.
  The parser reads nothing else of the list.
- The compiled `pattern` field is not stored. It is fully determined by the
  two immutable markers, which `Regex.FindAllFirst` takes instead.
- The `Optional[...]` return annotations and the unused `json`, `logging` and
  `typing` imports. Every path returns two strings or raises.
- The subclass `DeepSeekR1ReasoningParser` is the named constructor
  `BaseReasoningParser.DeepSeekR1`, since it does nothing but fix the marker
  pair. The registry's dictionary of classes maps to the enumeration
  `ParserKind`, which `Create` instantiates.
- Exception messages, tracebacks and the exception class hierarchy. Only the
  exception kind (`IndexError`, `KeyError` with its key) is modelled.
- `benchmark/kernels/deepseek/benchmark_deepgemm_fp8_gemm.py` is not part of
  this model. It is a GPU benchmark built on foreign kernels and floating
  point.
- Concurrency. A parser instance is owned by one stream and called in order;
  the model has no concurrent callers.
