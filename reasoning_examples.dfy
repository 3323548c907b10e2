/**
  Concrete inputs for the DeepSeek-R1 marker pair that show how the parser
  behaves at its edges: a literal start marker, an end marker that occurs
  twice, and an end marker split across two fragments.
*/
module ReasoningExamples {
  import opened PyStr
  import opened Reasoning
  import opened ReasoningProps

  // ---------------------------------------------------------------------------
  // A literal start marker
  // ---------------------------------------------------------------------------

  /** A text that itself begins with the start marker. */
  const LiteralStart := "<think> a</think> b"

  /** Its first end marker is at index 9. */
  lemma LiteralStartFind()
    ensures Find(LiteralStart, DeepSeekEnd, 0) == Some(9)
  {
    var t := LiteralStart;
    LiteralStartOccurs();
    Mismatch(t, DeepSeekEnd, 0, 1);
    forall j | 1 <= j < 9 ensures !OccursAt(t, DeepSeekEnd, j) {
      Mismatch(t, DeepSeekEnd, j, 0);
    }
    FindUnique(t, DeepSeekEnd, 0, 9);
  }

  lemma LiteralStartOccurs()
    ensures OccursAt(LiteralStart, DeepSeekEnd, 9)
  {
    assert LiteralStart[9..18] == DeepSeekEnd;
  }

  lemma LiteralStartPieces()
    ensures LiteralStart[..9] == "<think> a" && LiteralStart[18..] == "b"
  {
  }

  /** The start marker at the front of the text is not stripped: the
      reasoning begins with it. */
  lemma LiteralStartKept()
    ensures DetectAndParse(DeepSeekStart, DeepSeekEnd, LiteralStart) == Ok(Output("<think> a", "b"))
  {
    LiteralStartFind();
    var r := DetectAndParse(DeepSeekStart, DeepSeekEnd, LiteralStart).value;
    assert r.reasoning == LiteralStart[..9] by {
      assert (r.reasoning + DeepSeekEnd + r.content)[..9] == r.reasoning;
    }
    assert r.content == LiteralStart[18..] by {
      assert (r.reasoning + DeepSeekEnd + r.content)[18..] == r.content;
    }
    LiteralStartPieces();
  }

  // ---------------------------------------------------------------------------
  // Two end markers in one text
  // ---------------------------------------------------------------------------

  /** A text with the end marker at index 1 and again at index 11. */
  const TwoMarkers := "a</think> b</think> c"

  lemma TwoMarkersFind()
    ensures Find(TwoMarkers, DeepSeekEnd, 0) == Some(1)
    ensures Find(TwoMarkers, DeepSeekEnd, 10) == Some(11)
  {
    TwoMarkersOccurs();
    Mismatch(TwoMarkers, DeepSeekEnd, 0, 0);
    FindUnique(TwoMarkers, DeepSeekEnd, 0, 1);
    Mismatch(TwoMarkers, DeepSeekEnd, 10, 0);
    FindUnique(TwoMarkers, DeepSeekEnd, 10, 11);
  }

  lemma TwoMarkersOccurs()
    ensures OccursAt(TwoMarkers, DeepSeekEnd, 1) && OccursAt(TwoMarkers, DeepSeekEnd, 11)
  {
    assert TwoMarkers[1..10] == DeepSeekEnd;
    assert TwoMarkers[11..20] == DeepSeekEnd;
  }

  lemma TwoMarkersPieces()
    ensures TwoMarkers[..1] == "a" && TwoMarkers[10..11] == "b" && TwoMarkers[10..] == "b</think> c"
  {
  }

  /** Sent as one fragment, the text loses everything after its second end
      marker: the content is only the text between the two markers. */
  lemma SecondMarkerDropsText()
    ensures StreamStep(DeepSeekEnd, InitialState, TwoMarkers).out == Ok(Output("a", "b"))
  {
    TwoMarkersFind();
    Transition(DeepSeekEnd, InitialState, TwoMarkers, 1);
    TwoMarkersPieces();
  }

  /** The non-streaming parse of the same text keeps it, second marker included. */
  lemma SecondMarkerKeptWhole()
    ensures DetectAndParse(DeepSeekStart, DeepSeekEnd, TwoMarkers) == Ok(Output("a", "b</think> c"))
  {
    TwoMarkersFind();
    var r := DetectAndParse(DeepSeekStart, DeepSeekEnd, TwoMarkers).value;
    assert r.reasoning == TwoMarkers[..1] by {
      assert (r.reasoning + DeepSeekEnd + r.content)[..1] == r.reasoning;
    }
    assert r.content == TwoMarkers[10..] by {
      assert (r.reasoning + DeepSeekEnd + r.content)[10..] == r.content;
    }
    TwoMarkersPieces();
  }

  // ---------------------------------------------------------------------------
  // An end marker split across two fragments
  // ---------------------------------------------------------------------------

  /** "a</thi" then "nk> b": neither fragment holds the end marker, the joined buffer does. */
  lemma StraddleBuffer()
    ensures !Contains("a</thi", DeepSeekEnd) && !Contains("nk> b", DeepSeekEnd)
    ensures Contains("a</thi" + "nk> b", DeepSeekEnd)
  {
    assert Find("a</thi", DeepSeekEnd, 0) == None;
    assert Find("nk> b", DeepSeekEnd, 0) == None;
    var b := "a</thi" + "nk> b";
    assert b[1..10] == DeepSeekEnd;
    FindAtMost(b, DeepSeekEnd, 0, 1);
  }

  /** The first call of the stream below: plain reasoning. */
  lemma StraddleFirstStep()
    ensures StreamStep(DeepSeekEnd, InitialState, "a</thi")
            == StepResult(Ok(Output("a</thi", "")), StreamState(true, "a</thi"))
  {
    StraddleBuffer();
    assert "" + "a</thi" == "a</thi";
  }

  /** The second call raises IndexError and jams the parser, so that even an
      empty third fragment raises again. */
  lemma StraddledMarkerFails()
    ensures var tr := Run(DeepSeekEnd, InitialState, ["a</thi", "nk> b", ""]);
            && tr.outs == [Ok(Output("a</thi", "")), Err(IndexError), Err(IndexError)]
            && tr.final == StreamState(true, "a</thi" + "nk> b")
  {
    StraddleBuffer();
    StraddleFirstStep();
    var s1 := StreamState(true, "a</thi");
    var s2 := StreamState(true, "a</thi" + "nk> b");
    StepFailsIff(DeepSeekEnd, s1, "nk> b");
    EmptyFragmentWhenJammed(DeepSeekEnd, s2);
    assert ["a</thi", "nk> b", ""][1..] == ["nk> b", ""];
    assert ["nk> b", ""][1..] == [""];
  }

  /** The second fragment of the stream below and its end marker at index 5. */
  const LateMarker := "nk> b</think> c"

  lemma LateMarkerFind()
    ensures Find(LateMarker, DeepSeekEnd, 0) == Some(5)
    ensures LateMarker[..5] == "nk> b"
    ensures NextPiece(LateMarker, DeepSeekEnd, 14) == "c"
  {
    var f := LateMarker;
    LateMarkerOccurs();
    forall j | 0 <= j < 5 ensures !OccursAt(f, DeepSeekEnd, j) {
      Mismatch(f, DeepSeekEnd, j, 0);
    }
    FindUnique(f, DeepSeekEnd, 0, 5);
    assert Find(f, DeepSeekEnd, 14) == None;
  }

  lemma LateMarkerOccurs()
    ensures OccursAt(LateMarker, DeepSeekEnd, 5)
  {
    assert LateMarker[5..14] == DeepSeekEnd;
  }

  /** The two fragments joined are the text with two end markers. */
  lemma StraddleJoin()
    ensures "a</thi" + LateMarker == TwoMarkers
  {
    var j := "a</thi" + LateMarker;
    assert |j| == |TwoMarkers|;
    forall k | 0 <= k < |j| ensures j[k] == TwoMarkers[k] {
      if k < 6 {
        assert j[k] == "a</thi"[k];
      } else {
        assert j[k] == LateMarker[k - 6];
      }
    }
  }

  /** When the fragment after the split marker holds another end marker, no
      call raises, but the stream ends the reasoning at that later marker: the
      reasoning it returns, "a</thi" then "nk> b", holds the split marker,
      which the non-streaming parse of the joined text splits at. */
  lemma StraddleMisplacesSplit()
    ensures Run(DeepSeekEnd, InitialState, ["a</thi", LateMarker]).outs
            == [Ok(Output("a</thi", "")), Ok(Output("nk> b", "c"))]
    ensures "a</thi" + LateMarker == TwoMarkers
    ensures DetectAndParse(DeepSeekStart, DeepSeekEnd, "a</thi" + LateMarker) == Ok(Output("a", "b</think> c"))
  {
    StraddleFirstStep();
    LateMarkerFind();
    Transition(DeepSeekEnd, StreamState(true, "a</thi"), LateMarker, 5);
    assert ["a</thi", LateMarker][1..] == [LateMarker];
    StraddleJoin();
    SecondMarkerKeptWhole();
  }
}
