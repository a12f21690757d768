/**
 * The response loop of `main`: responses are handled one at a time in the
 * order received; a server error raises, a keyword match sets the stop flag
 * without leaving the loop, and the `finally` sets the flag on every exit.
 */
module Session {
  import opened Messages
  import opened Signal
  import opened Audio
  import opened Framing
  import opened Policy

  /** How the inbound response stream ended: closed by the server, or with a transport error such as the deadline. */
  datatype StreamEnd = EndOfStream | Fault(message: string)

  datatype Error = ServerError(message: string) | TransportError(message: string)

  /** How `main` leaves the response loop: normally, or by an exception. */
  datatype Outcome = Completed | Raised(error: Error)

  /** The outcome of the loop over `responses`, followed by `end`. */
  function Verdict(responses: seq<RecognizeResponse>, end: StreamEnd): Outcome
  {
    if responses == [] then
      (if end.EndOfStream? then Completed else Raised(TransportError(end.message)))
    else
      match Decide(responses[0])
      case Abort(m) => Raised(ServerError(m))
      case _ => Verdict(responses[1..], end)
  }

  /**
   * How many responses the loop takes: up to and including the first one
   * with an error, or all of them.
   */
  function Taken(responses: seq<RecognizeResponse>): nat
  {
    if responses == [] then 0
    else if responses[0].error.code != OK then 1
    else 1 + Taken(responses[1..])
  }

  /** Some response among the first `n` asks for a stop. */
  predicate StopRequestedWithin(responses: seq<RecognizeResponse>, n: nat)
  {
    exists j :: 0 <= j < n && j < |responses| && Decide(responses[j]) == ProceedAndStop
  }

  /**
   * The loop takes every response before the first error and that error
   * itself; with no error it takes them all.
   */
  lemma {:induction false} TakenIff(responses: seq<RecognizeResponse>)
    ensures Taken(responses) <= |responses|
    ensures forall j :: 0 <= j < Taken(responses) - 1 ==> responses[j].error.code == OK
    ensures Taken(responses) == |responses| ||
      (0 < Taken(responses) && responses[Taken(responses) - 1].error.code != OK)
  {
    if responses != [] && responses[0].error.code == OK {
      var rest := responses[1..];
      TakenIff(rest);
      forall j | 0 <= j < Taken(responses) - 1
        ensures responses[j].error.code == OK
      {
        if j > 0 {
          assert responses[j] == rest[j - 1];
        }
      }
      if Taken(rest) != |rest| {
        assert responses[Taken(responses) - 1] == rest[Taken(rest) - 1];
      }
    }
  }

  lemma StopRequestedStep(responses: seq<RecognizeResponse>, i: nat)
    requires i < |responses|
    ensures StopRequestedWithin(responses, i + 1) ==
      (StopRequestedWithin(responses, i) || Decide(responses[i]) == ProceedAndStop)
  {
    if Decide(responses[i]) == ProceedAndStop {
      assert StopRequestedWithin(responses, i + 1);
    }
  }

  /** The first response with an error decides the outcome, whatever follows it and whatever came before it. */
  lemma {:induction false} FirstServerErrorRaises(responses: seq<RecognizeResponse>, end: StreamEnd, k: nat)
    requires k < |responses| && responses[k].error.code != OK
    requires forall j :: 0 <= j < k ==> responses[j].error.code == OK
    ensures Verdict(responses, end) == Raised(ServerError("Server error: " + responses[k].error.message))
  {
    if k > 0 {
      var rest := responses[1..];
      assert responses[0].error.code == OK;
      assert Verdict(responses, end) == Verdict(rest, end);
      forall j | 0 <= j < k - 1
        ensures rest[j].error.code == OK
      {
        assert rest[j] == responses[j + 1];
      }
      FirstServerErrorRaises(rest, end, k - 1);
    }
  }

  /** The loop completes normally exactly when no response has an error and the stream closes cleanly. */
  lemma {:induction false} CompletedIff(responses: seq<RecognizeResponse>, end: StreamEnd)
    ensures Verdict(responses, end) == Completed <==>
      end == EndOfStream && forall j :: 0 <= j < |responses| ==> responses[j].error.code == OK
  {
    if responses != [] {
      CompletedIff(responses[1..], end);
      assert forall j :: 1 <= j < |responses| ==> responses[j] == responses[1..][j - 1];
    }
  }

  /**
   * A keyword match never ends the loop: two response sequences that agree
   * on every error field have the same outcome, whatever their transcripts.
   */
  lemma {:induction false} OutcomeIgnoresTranscripts(rs: seq<RecognizeResponse>, qs: seq<RecognizeResponse>, end: StreamEnd)
    requires |rs| == |qs|
    requires forall j :: 0 <= j < |rs| ==> rs[j].error == qs[j].error
    ensures Verdict(rs, end) == Verdict(qs, end)
  {
    if rs != [] {
      OutcomeIgnoresTranscripts(rs[1..], qs[1..], end);
    }
  }

  /**
   * A keyword in an OK response k that the loop reaches (no earlier
   * response has an error) is taken, and asks for a stop within the first
   * k + 1 responses.
   */
  lemma KeywordStopsPromptly(responses: seq<RecognizeResponse>, k: nat, i: nat, j: nat)
    requires k < |responses| && responses[k].error.code == OK
    requires forall m :: 0 <= m < k ==> responses[m].error.code == OK
    requires i < |responses[k].results| && j < |responses[k].results[i].alternatives|
    requires IsStopAlternative(responses[k].results[i].alternatives[j])
    ensures k < Taken(responses)
    ensures StopRequestedWithin(responses, k + 1)
  {
    DecideIff(responses[k]);
    assert Decide(responses[k]) == ProceedAndStop;
    TakenIff(responses);
  }

  /**
   * One response (lines 99-113): the error check, then the keyword check,
   * which sets the flag. An error does not set it here; the `finally` does.
   */
  method HandleResponse(resp: RecognizeResponse, stop: StopEvent) returns (action: Action)
    modifies stop
    ensures action == Decide(resp)
    ensures stop.isSet == (old(stop.isSet) || action == ProceedAndStop)
  {
    action := Decide(resp);
    if action == ProceedAndStop {
      stop.Set();
    }
  }

  /**
   * The loop over the inbound stream with its `try`/`finally`.
   * `flagAfter[k]` is the flag as the loop leaves response k.
   */
  method ConsumeResponses(responses: seq<RecognizeResponse>, end: StreamEnd, stop: StopEvent)
    returns (outcome: Outcome, ghost flagAfter: seq<bool>)
    modifies stop
    ensures stop.isSet
    ensures outcome == Verdict(responses, end)
    ensures |flagAfter| == Taken(responses)
    ensures forall k :: 0 <= k < |flagAfter| ==>
      flagAfter[k] == (old(stop.isSet) || StopRequestedWithin(responses, k + 1))
  {
    outcome := Completed;
    flagAfter := [];
    var i := 0;
    while i < |responses| && outcome == Completed
      invariant 0 <= i <= |responses| && |flagAfter| == i
      invariant outcome == Completed ==>
        Verdict(responses, end) == Verdict(responses[i..], end) &&
        Taken(responses) == i + Taken(responses[i..]) &&
        stop.isSet == (old(stop.isSet) || StopRequestedWithin(responses, i))
      invariant outcome != Completed ==> outcome == Verdict(responses, end) && Taken(responses) == i
      invariant forall k :: 0 <= k < i ==>
        flagAfter[k] == (old(stop.isSet) || StopRequestedWithin(responses, k + 1))
    {
      assert responses[i..][1..] == responses[i + 1..];
      StopRequestedStep(responses, i);
      var action := HandleResponse(responses[i], stop);
      flagAfter := flagAfter + [stop.isSet];
      if action.Abort? {
        outcome := Raised(ServerError(action.message));
      }
      i := i + 1;
    }
    if outcome == Completed {
      assert responses[i..] == [];
      if end.Fault? {
        outcome := Raised(TransportError(end.message));
      }
    }
    // the `finally`
    stop.Set();
  }

  /**
   * One interleaving of the two activities: the response loop runs to its
   * end, then the producer resumes at its loop check. Whatever ended the
   * loop, the producer yields nothing more and the device gets closed.
   */
  method ShutDown(stream: RequestStream, responses: seq<RecognizeResponse>, end: StreamEnd)
    returns (outcome: Outcome, last: Option<RecognizeRequest>)
    requires stream.Valid() && stream.phase == Streaming
    modifies stream, stream.device, stream.stop
    ensures stream.Valid()
    ensures outcome == Verdict(responses, end)
    ensures last == None && stream.phase == Exhausted && stream.device.state == Closed
    ensures stream.yielded == old(stream.yielded)
  {
    ghost var flagAfter;
    outcome, flagAfter := ConsumeResponses(responses, end, stream.stop);
    last := stream.Next();
  }
}
