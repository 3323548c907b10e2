/**
  Properties of the reasoning parser: what the non-streaming parse computes,
  how one streaming call moves the state machine, what a whole stream of
  fragments produces, and where the two parses agree and disagree.
*/
module ReasoningProps {
  import opened PyStr
  import opened Reasoning

  // ---------------------------------------------------------------------------
  // Non-streaming parse
  // ---------------------------------------------------------------------------

  /** The non-streaming parse splits the text at its first end marker, and
      keeps the whole text as reasoning when there is none; both directions. */
  lemma {:induction false} DetectAndParseSplitsAtFirst(thinkStart: Marker, thinkEnd: Marker, text: string,
                                                       reasoning: string, content: string)
    ensures DetectAndParse(thinkStart, thinkEnd, text) == Ok(Output(reasoning, content)) <==>
              if Contains(text, thinkEnd) then
                reasoning + thinkEnd + content == text && Find(text, thinkEnd, 0) == Some(|reasoning|)
              else
                reasoning == text && content == ""
  {
    var r := DetectAndParse(thinkStart, thinkEnd, text);
    if Contains(text, thinkEnd) && reasoning + thinkEnd + content == text
       && Find(text, thinkEnd, 0) == Some(|reasoning|)
    {
      var n := |reasoning|;
      assert |r.value.reasoning| == n;
      assert reasoning == text[..n] == r.value.reasoning;
      assert content == text[n + |thinkEnd|..] == r.value.content;
    }
  }

  /** The reasoning part of a non-streaming parse never holds the end marker. */
  lemma {:induction false} DetectAndParseReasoningFree(thinkStart: Marker, thinkEnd: Marker, text: string)
    ensures !Contains(DetectAndParse(thinkStart, thinkEnd, text).value.reasoning, thinkEnd)
  {
    if Contains(text, thinkEnd) {
      var i := Find(text, thinkEnd, 0).value;
      PieceBeforeFirstFree(text, thinkEnd, 0, i);
      assert DetectAndParse(thinkStart, thinkEnd, text).value.reasoning == text[0..i];
    }
  }

  // ---------------------------------------------------------------------------
  // One streaming call
  // ---------------------------------------------------------------------------

  /** The invariant of a well-behaved parser: while reasoning, the buffer has
      not yet seen the end marker; after the transition, the buffer is empty. */
  predicate Consistent(thinkEnd: Marker, st: StreamState)
  {
    (st.isReasoning ==> !Contains(st.buffer, thinkEnd)) && (!st.isReasoning ==> st.buffer == "")
  }

  /** The state a failed transition leaves: still reasoning, with the end
      marker already in the buffer. */
  predicate Jammed(thinkEnd: Marker, st: StreamState)
  {
    st.isReasoning && Contains(st.buffer, thinkEnd)
  }

  /** The state `__init__` sets up satisfies the invariant. */
  lemma InitialConsistent(thinkEnd: Marker)
    ensures Consistent(thinkEnd, InitialState) && !Jammed(thinkEnd, InitialState)
  {
    assert Find("", thinkEnd, 0) == None;
  }

  /** While the buffer, extended by the fragment, still lacks the end marker,
      the fragment is reasoning and is remembered in the buffer. */
  lemma StillReasoning(thinkEnd: Marker, st: StreamState, newText: string)
    requires st.isReasoning && !Contains(st.buffer + newText, thinkEnd)
    ensures StreamStep(thinkEnd, st, newText)
            == StepResult(Ok(Output(newText, "")), StreamState(true, st.buffer + newText))
    ensures Consistent(thinkEnd, StreamStep(thinkEnd, st, newText).next)
  {
  }

  /** A fragment holding the end marker ends the reasoning: the text before
      its first marker is reasoning, the text up to the next marker (or the
      end) is content, and the state becomes content mode with an empty buffer. */
  lemma {:induction false} Transition(thinkEnd: Marker, st: StreamState, newText: string, i: nat)
    requires st.isReasoning && Find(newText, thinkEnd, 0) == Some(i)
    ensures StreamStep(thinkEnd, st, newText)
            == StepResult(Ok(Output(newText[..i], NextPiece(newText, thinkEnd, i + |thinkEnd|))),
                          StreamState(false, ""))
  {
    ContainsAppendLeft(st.buffer, newText, thinkEnd);
    SplitFirstTwo(newText, thinkEnd, i);
  }

  /** A streaming call fails exactly when it is in reasoning mode, the
      extended buffer holds the end marker, and the fragment itself does not. */
  lemma {:induction false} StepFailsIff(thinkEnd: Marker, st: StreamState, newText: string)
    ensures StreamStep(thinkEnd, st, newText).out.Err? <==>
              st.isReasoning && Contains(st.buffer + newText, thinkEnd) && !Contains(newText, thinkEnd)
    ensures StreamStep(thinkEnd, st, newText).out.Err? ==>
              && StreamStep(thinkEnd, st, newText).out == Err(IndexError)
              && StreamStep(thinkEnd, st, newText).next == StreamState(true, st.buffer + newText)
              && Jammed(thinkEnd, StreamStep(thinkEnd, st, newText).next)
  {
  }

  /** In content mode every fragment is content and the state does not change. */
  lemma ContentMode(thinkEnd: Marker, st: StreamState, newText: string)
    requires !st.isReasoning
    ensures StreamStep(thinkEnd, st, newText) == StepResult(Ok(Output("", newText)), st)
  {
  }

  /** A successful call keeps the invariant; a failed one jams the parser. */
  lemma {:induction false} StepKeepsConsistent(thinkEnd: Marker, st: StreamState, newText: string)
    requires Consistent(thinkEnd, st)
    ensures var step := StreamStep(thinkEnd, st, newText);
            if step.out.Ok? then Consistent(thinkEnd, step.next) else Jammed(thinkEnd, step.next)
  {
    StepFailsIff(thinkEnd, st, newText);
  }

  /** An empty fragment returns two empty strings and changes nothing, in
      either mode, unless the parser is jammed. */
  lemma EmptyFragment(thinkEnd: Marker, st: StreamState)
    requires !Jammed(thinkEnd, st)
    ensures StreamStep(thinkEnd, st, "") == StepResult(Ok(Output("", "")), st)
  {
    assert st.buffer + "" == st.buffer;
  }

  /** From a jammed state a fragment without the end marker, even an empty
      one, raises IndexError again and leaves the parser jammed; a fragment
      with the marker completes the transition. */
  lemma {:induction false} JammedStep(thinkEnd: Marker, st: StreamState, newText: string)
    requires Jammed(thinkEnd, st)
    ensures var step := StreamStep(thinkEnd, st, newText);
            if Contains(newText, thinkEnd) then step.out.Ok? && step.next == StreamState(false, "")
            else step.out == Err(IndexError) && Jammed(thinkEnd, step.next)
  {
    ContainsAppendRight(st.buffer, newText, thinkEnd);
    StepFailsIff(thinkEnd, st, newText);
  }

  /** The jammed parser rejects even the empty fragment. */
  lemma EmptyFragmentWhenJammed(thinkEnd: Marker, st: StreamState)
    requires Jammed(thinkEnd, st)
    ensures StreamStep(thinkEnd, st, "") == StepResult(Err(IndexError), st)
  {
    assert st.buffer + "" == st.buffer;
    assert Find("", thinkEnd, 0) == None;
  }

  // ---------------------------------------------------------------------------
  // A stream of fragments
  // ---------------------------------------------------------------------------

  /** The fragments joined end to end. */
  function Concat(fragments: seq<string>): string
  {
    if fragments == [] then "" else fragments[0] + Concat(fragments[1..])
  }

  /** Every call of the trace returned a pair rather than raising. */
  predicate AllOk(outs: seq<Result<Output>>)
  {
    outs == [] || (outs[0].Ok? && AllOk(outs[1..]))
  }

  /** The reasoning parts of the returned pairs, joined. */
  function Reasonings(outs: seq<Result<Output>>): string
  {
    if outs == [] then ""
    else (if outs[0].Ok? then outs[0].value.reasoning else "") + Reasonings(outs[1..])
  }

  /** The content parts of the returned pairs, joined. */
  function Contents(outs: seq<Result<Output>>): string
  {
    if outs == [] then ""
    else (if outs[0].Ok? then outs[0].value.content else "") + Contents(outs[1..])
  }

  /** Feeding `f1 + f2` is feeding `f1`, then `f2` from the state `f1` left. */
  lemma {:induction false} RunAppend(thinkEnd: Marker, st: StreamState, f1: seq<string>, f2: seq<string>)
    ensures var first := Run(thinkEnd, st, f1);
            var second := Run(thinkEnd, first.final, f2);
            Run(thinkEnd, st, f1 + f2) == Trace(first.outs + second.outs, second.final)
    decreases |f1|
  {
    if f1 != [] {
      assert (f1 + f2)[0] == f1[0];
      assert (f1 + f2)[1..] == f1[1..] + f2;
      var step := StreamStep(thinkEnd, st, f1[0]);
      RunAppend(thinkEnd, step.next, f1[1..], f2);
      var rest1 := Run(thinkEnd, step.next, f1[1..]);
      var second := Run(thinkEnd, rest1.final, f2);
      assert [step.out] + (rest1.outs + second.outs) == ([step.out] + rest1.outs) + second.outs;
    } else {
      assert [] + f2 == f2;
    }
  }

  /** Once in content mode, a parser never returns to reasoning mode; every
      later fragment is returned unchanged as content. */
  lemma {:induction false} NoReturnToReasoning(thinkEnd: Marker, st: StreamState, fragments: seq<string>)
    requires !st.isReasoning
    ensures Run(thinkEnd, st, fragments).final == st
    ensures forall k :: 0 <= k < |fragments| ==> Run(thinkEnd, st, fragments).outs[k] == Ok(Output("", fragments[k]))
    decreases |fragments|
  {
    if fragments != [] {
      NoReturnToReasoning(thinkEnd, st, fragments[1..]);
      var rest := Run(thinkEnd, st, fragments[1..]);
      forall k | 0 <= k < |fragments| ensures Run(thinkEnd, st, fragments).outs[k] == Ok(Output("", fragments[k])) {
        if k > 0 {
          assert Run(thinkEnd, st, fragments).outs[k] == rest.outs[k - 1];
        }
      }
    }
  }

  /** The reasoning-to-content transition happens at most once in a stream:
      if the parser is in reasoning mode after a longer stream, it was in
      reasoning mode after every prefix of it. */
  lemma {:induction false} TransitionAtMostOnce(thinkEnd: Marker, st: StreamState, fragments: seq<string>, k: nat)
    requires k <= |fragments| && Run(thinkEnd, st, fragments).final.isReasoning
    ensures Run(thinkEnd, st, fragments[..k]).final.isReasoning
  {
    var first := Run(thinkEnd, st, fragments[..k]);
    assert fragments == fragments[..k] + fragments[k..];
    RunAppend(thinkEnd, st, fragments[..k], fragments[k..]);
    if !first.final.isReasoning {
      NoReturnToReasoning(thinkEnd, first.final, fragments[k..]);
    }
  }

  /** From a consistent or jammed state, every state a stream reaches is
      consistent or jammed: a parser in content mode always has an empty
      buffer. */
  lemma {:induction false} ReachableStates(thinkEnd: Marker, st: StreamState, fragments: seq<string>)
    requires Consistent(thinkEnd, st) || Jammed(thinkEnd, st)
    ensures Consistent(thinkEnd, Run(thinkEnd, st, fragments).final) || Jammed(thinkEnd, Run(thinkEnd, st, fragments).final)
    decreases |fragments|
  {
    if fragments != [] {
      var step := StreamStep(thinkEnd, st, fragments[0]);
      if Consistent(thinkEnd, st) {
        StepKeepsConsistent(thinkEnd, st, fragments[0]);
      } else {
        ContainsAppendRight(st.buffer, fragments[0], thinkEnd);
        JammedStep(thinkEnd, st, fragments[0]);
      }
      ReachableStates(thinkEnd, step.next, fragments[1..]);
    }
  }

  /** The invariant holds along every stream in which no call raises: the
      buffer of a reasoning parser never holds the end marker, and the buffer
      of a parser in content mode is empty. */
  lemma {:induction false} ConsistentRun(thinkEnd: Marker, st: StreamState, fragments: seq<string>)
    requires Consistent(thinkEnd, st)
    requires AllOk(Run(thinkEnd, st, fragments).outs)
    ensures Consistent(thinkEnd, Run(thinkEnd, st, fragments).final)
    decreases |fragments|
  {
    if fragments != [] {
      RunCons(thinkEnd, st, fragments);
      StepKeepsConsistent(thinkEnd, st, fragments[0]);
      ConsistentRun(thinkEnd, StreamStep(thinkEnd, st, fragments[0]).next, fragments[1..]);
    }
  }

  /** One step of `Run`, read through the joined outputs. */
  lemma {:induction false} RunCons(thinkEnd: Marker, st: StreamState, fragments: seq<string>)
    requires fragments != []
    ensures var step := StreamStep(thinkEnd, st, fragments[0]);
            var rest := Run(thinkEnd, step.next, fragments[1..]);
            var tr := Run(thinkEnd, st, fragments);
            && tr.final == rest.final
            && (AllOk(tr.outs) <==> step.out.Ok? && AllOk(rest.outs))
            && Reasonings(tr.outs) == (if step.out.Ok? then step.out.value.reasoning else "") + Reasonings(rest.outs)
            && Contents(tr.outs) == (if step.out.Ok? then step.out.value.content else "") + Contents(rest.outs)
  {
    var step := StreamStep(thinkEnd, st, fragments[0]);
    var rest := Run(thinkEnd, step.next, fragments[1..]);
    var outs := Run(thinkEnd, st, fragments).outs;
    assert outs == [step.out] + rest.outs;
    assert outs[0] == step.out && outs[1..] == rest.outs;
  }

  /** In content mode the stream is all content. */
  lemma {:induction false} ContentRunConserves(thinkEnd: Marker, st: StreamState, fragments: seq<string>)
    requires !st.isReasoning
    ensures var tr := Run(thinkEnd, st, fragments);
            AllOk(tr.outs) && Reasonings(tr.outs) == "" && Contents(tr.outs) == Concat(fragments)
    decreases |fragments|
  {
    if fragments != [] {
      ContentRunConserves(thinkEnd, st, fragments[1..]);
      RunCons(thinkEnd, st, fragments);
    }
  }

  /** What a trace from state `st` over `fragments` must satisfy for nothing
      to be lost or duplicated: before the end marker arrives, all of the
      input is reasoning and sits in the buffer; after it, the reasoning, the
      marker and the content make up the whole input. */
  predicate Conserved(thinkEnd: Marker, st: StreamState, fragments: seq<string>, tr: Trace)
  {
    if tr.final.isReasoning then
      && Reasonings(tr.outs) == Concat(fragments)
      && Contents(tr.outs) == ""
      && tr.final.buffer == st.buffer + Concat(fragments)
    else
      Reasonings(tr.outs) + thinkEnd + Contents(tr.outs) == Concat(fragments)
  }

  /** Every fragment that reaches the parser while it is still reasoning
      holds the end marker at most once; what arrives in content mode is
      returned whole and may hold it any number of times. */
  ghost predicate MarkerOnceWhileReasoning(thinkEnd: Marker, st: StreamState, fragments: seq<string>)
  {
    forall k :: 0 <= k < |fragments| && Run(thinkEnd, st, fragments[..k]).final.isReasoning ==>
      AtMostOnce(fragments[k], thinkEnd)
  }

  /** The condition above, split into the first fragment and the rest. */
  lemma MarkerOnceCons(thinkEnd: Marker, st: StreamState, fragments: seq<string>)
    requires fragments != [] && MarkerOnceWhileReasoning(thinkEnd, st, fragments)
    ensures st.isReasoning ==> AtMostOnce(fragments[0], thinkEnd)
    ensures MarkerOnceWhileReasoning(thinkEnd, StreamStep(thinkEnd, st, fragments[0]).next, fragments[1..])
  {
    assert fragments[..0] == [];
    var next := StreamStep(thinkEnd, st, fragments[0]).next;
    forall k | 0 <= k < |fragments[1..]| && Run(thinkEnd, next, fragments[1..][..k]).final.isReasoning
      ensures AtMostOnce(fragments[1..][k], thinkEnd)
    {
      assert fragments[..k + 1][0] == fragments[0];
      assert fragments[..k + 1][1..] == fragments[1..][..k];
      assert fragments[1..][k] == fragments[k + 1];
    }
  }

  /** Nothing is lost or duplicated in a stream in which no call raises and
      the fragment that ends the reasoning holds the end marker once. */
  lemma {:induction false} StreamConservation(thinkEnd: Marker, st: StreamState, fragments: seq<string>)
    requires st.isReasoning
    requires AllOk(Run(thinkEnd, st, fragments).outs)
    requires MarkerOnceWhileReasoning(thinkEnd, st, fragments)
    ensures Conserved(thinkEnd, st, fragments, Run(thinkEnd, st, fragments))
    decreases |fragments|
  {
    if fragments == [] {
      assert st.buffer + "" == st.buffer;
    } else {
      var f := fragments[0];
      var step := StreamStep(thinkEnd, st, f);
      RunCons(thinkEnd, st, fragments);
      var rest := Run(thinkEnd, step.next, fragments[1..]);
      MarkerOnceCons(thinkEnd, st, fragments);
      if !Contains(st.buffer + f, thinkEnd) {
        assert step == StepResult(Ok(Output(f, "")), StreamState(true, st.buffer + f));
        StreamConservation(thinkEnd, step.next, fragments[1..]);
        ConservedReasoningStep(thinkEnd, st, f, fragments[1..], rest, Run(thinkEnd, st, fragments));
      } else {
        StepFailsIff(thinkEnd, st, f);
        SplitSingleOccurrence(f, thinkEnd);
        var pieces := Split(f, thinkEnd);
        assert step == StepResult(Ok(Output(pieces[0], pieces[1])), StreamState(false, ""));
        ContentRunConserves(thinkEnd, step.next, fragments[1..]);
        NoReturnToReasoning(thinkEnd, step.next, fragments[1..]);
        ConservedTransitionStep(thinkEnd, st, f, pieces[0], pieces[1], fragments[1..], rest, Run(thinkEnd, st, fragments));
      }
    }
  }

  /** The conservation step for a fragment that leaves the parser reasoning. */
  lemma ConservedReasoningStep(thinkEnd: Marker, st: StreamState, f: string, more: seq<string>, rest: Trace, tr: Trace)
    requires Conserved(thinkEnd, StreamState(true, st.buffer + f), more, rest)
    requires tr.final == rest.final
    requires Reasonings(tr.outs) == f + Reasonings(rest.outs)
    requires Contents(tr.outs) == "" + Contents(rest.outs)
    ensures Conserved(thinkEnd, st, [f] + more, tr)
  {
    assert ([f] + more)[0] == f && ([f] + more)[1..] == more;
    var tail := Concat(more);
    var R := Reasonings(rest.outs);
    var C := Contents(rest.outs);
    assert Concat([f] + more) == f + tail;
    assert "" + C == C;
    if rest.final.isReasoning {
      assert st.buffer + f + tail == st.buffer + (f + tail);
    } else {
      assert f + R + thinkEnd + C == f + (R + thinkEnd + C);
    }
  }

  /** The conservation step for the fragment that carries the end marker. */
  lemma ConservedTransitionStep(thinkEnd: Marker, st: StreamState, f: string, r: string, c: string,
                                more: seq<string>, rest: Trace, tr: Trace)
    requires r + thinkEnd + c == f
    requires Reasonings(rest.outs) == "" && Contents(rest.outs) == Concat(more) && !rest.final.isReasoning
    requires tr.final == rest.final
    requires Reasonings(tr.outs) == r + Reasonings(rest.outs)
    requires Contents(tr.outs) == c + Contents(rest.outs)
    ensures Conserved(thinkEnd, st, [f] + more, tr)
  {
    assert ([f] + more)[0] == f && ([f] + more)[1..] == more;
    var tail := Concat(more);
    assert Concat([f] + more) == f + tail;
    assert r + "" + thinkEnd + (c + tail) == (r + thinkEnd + c) + tail;
  }

  // ---------------------------------------------------------------------------
  // The two parses compared
  // ---------------------------------------------------------------------------

  /** A whole text sent as one fragment to a fresh parser gives the same pair
      as the non-streaming parse, when the end marker occurs at most once. */
  lemma {:induction false} SingleFragmentAgrees(thinkStart: Marker, thinkEnd: Marker, text: string)
    requires AtMostOnce(text, thinkEnd)
    ensures StreamStep(thinkEnd, InitialState, text).out == DetectAndParse(thinkStart, thinkEnd, text)
  {
    assert InitialState.buffer + text == text;
    if Contains(text, thinkEnd) {
      var i := Find(text, thinkEnd, 0).value;
      SplitSingleOccurrence(text, thinkEnd);
      SplitFirstTwo(text, thinkEnd, i);
      var pieces := Split(text, thinkEnd);
      assert |pieces[0]| == i;
      DetectAndParseSplitsAtFirst(thinkStart, thinkEnd, text, pieces[0], pieces[1]);
    }
  }
}
