/**
 * The per-response termination policy of the response loop in `main`: an
 * error code other than OK aborts the session; otherwise a confident
 * "exit" or "quit" among the alternatives asks for the stop flag to be set.
 */
module Policy {
  import opened Messages
  import opened Text

  const CONFIDENCE_THRESHOLD: real := 0.5

  predicate IsKeyword(s: string)
  {
    s == "exit" || s == "quit"
  }

  /** `alt.confidence > .5 and alt.transcript.strip() in ('exit', 'quit')` */
  predicate IsStopAlternative(alt: SpeechRecognitionAlternative)
  {
    alt.confidence > CONFIDENCE_THRESHOLD && IsKeyword(Strip(alt.transcript))
  }

  /** Left-to-right `any` over the alternatives of one result. */
  function AnyStopAlternative(alts: seq<SpeechRecognitionAlternative>): (b: bool)
    ensures b <==> exists j :: 0 <= j < |alts| && IsStopAlternative(alts[j])
  {
    if alts == [] then false
    else IsStopAlternative(alts[0]) || AnyStopAlternative(alts[1..])
  }

  /** `any` over the nested comprehension: every alternative of every result, in order. */
  function AnyStopResult(results: seq<SpeechRecognitionResult>): (b: bool)
    ensures b <==>
      exists i, j :: 0 <= i < |results| && 0 <= j < |results[i].alternatives| &&
        IsStopAlternative(results[i].alternatives[j])
  {
    if results == [] then false
    else AnyStopAlternative(results[0].alternatives) || AnyStopResult(results[1..])
  }

  /** What the loop does with one response. */
  datatype Action = Proceed | ProceedAndStop | Abort(message: string)

  /**
   * The error check comes first: a response with an error is never examined
   * for keywords. A keyword match does not end the loop; it only asks for
   * the stop flag to be set.
   */
  function Decide(resp: RecognizeResponse): Action
  {
    if resp.error.code != OK then Abort("Server error: " + resp.error.message)
    else if AnyStopResult(resp.results) then ProceedAndStop
    else Proceed
  }

  /**
   * A response aborts exactly when its error code is not OK, with the
   * server's message behind "Server error: "; otherwise it asks for a stop
   * exactly when some alternative of some result is a stop alternative.
   */
  lemma DecideIff(resp: RecognizeResponse)
    ensures Decide(resp).Abort? <==> resp.error.code != OK
    ensures Decide(resp).Abort? ==> Decide(resp).message == "Server error: " + resp.error.message
    ensures Decide(resp) == ProceedAndStop <==>
      resp.error.code == OK &&
      exists i, j :: 0 <= i < |resp.results| && 0 <= j < |resp.results[i].alternatives| &&
        IsStopAlternative(resp.results[i].alternatives[j])
  {
  }

  /**
   * An alternative stops the session exactly when it is more than 50%
   * confident and its transcript is "exit" or "quit" (case-sensitive) with
   * only whitespace around it.
   */
  lemma StopAlternativeIff(alt: SpeechRecognitionAlternative)
    ensures IsStopAlternative(alt) <==>
      alt.confidence > 0.5 &&
      exists i, j :: 0 <= i <= j <= |alt.transcript| &&
        IsKeyword(alt.transcript[i..j]) &&
        AllSpace(alt.transcript[..i]) && AllSpace(alt.transcript[j..])
  {
    var s := alt.transcript;
    assert !IsSpace('e') && !IsSpace('t') && !IsSpace('q');
    StripEquals(s, "exit");
    StripEquals(s, "quit");
  }

  /** Whitespace around the keyword is ignored once the confidence clears the threshold. */
  lemma PaddedKeywordStops()
    ensures IsStopAlternative(SpeechRecognitionAlternative(" exit ", 0.6))
  {
    StripOfPadded(" ", "exit", " ");
    assert " " + "exit" + " " == " exit ";
  }

  lemma OtherWhitespaceIsStripped()
    ensures IsStopAlternative(SpeechRecognitionAlternative("\tquit\n", 0.51))
  {
    StripOfPadded("\t", "quit", "\n");
    assert "\t" + "quit" + "\n" == "\tquit\n";
  }

  /** The threshold is strict: 0.5 itself, and anything lower, does not stop. */
  lemma LowConfidenceDoesNotStop()
    ensures !IsStopAlternative(SpeechRecognitionAlternative("exit", 0.4))
    ensures !IsStopAlternative(SpeechRecognitionAlternative("quit", 0.5))
  {
  }

  /** The comparison is case-sensitive. */
  lemma CapitalisedKeywordDoesNotStop()
    ensures !IsStopAlternative(SpeechRecognitionAlternative("Exit", 0.9))
  {
  }
}
