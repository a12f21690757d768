# Streaming speech client: request framing and termination policy

A model of the core of `speech/api/speech_streaming.py`, a client that streams
microphone audio to a remote recognition service over a duplex call and stops
when a transcript says "exit" or "quit". It covers two pieces of logic:

- **Request framing** (`_request_stream`). `Framing.RequestStream` is the
  generator object. Each `Next` is one Python `next()`. The first resumption
  opens the device, reads one chunk, and yields it bundled with the
  `InitialRecognizeRequest(LINEAR16, rate)` metadata. Each later resumption
  checks the stop flag first. If the flag is unset, it reads one more chunk
  and yields it alone. If the flag is set, it closes the device and ends the
  sequence for good. The ghost field `checks` records the flag value seen at
  each loop check. The invariant `Valid()` ties `yielded` to
  `Framed(rate, device.delivered)`, the declarative description of the
  requests for the chunks read so far.
- **Response handling** (the loop in `main`). `Policy.Decide` is the pure
  decision for one response. A non-OK code aborts with "Server error: " plus
  the message. Otherwise, a confident keyword asks for a stop.
  `Session.ConsumeResponses` is the loop with its `try`/`finally`. Its result
  is tied to the specification function `Session.Verdict`.

The microphone is an input: `capture(i)` is what the i-th read returns. The
stop flag (`Signal.StopEvent`) is a plain boolean that can only be set. The
inbound response stream is a sequence of responses followed by a
`StreamEnd`: either the server closes it, or a transport error (such as the
8-hour deadline) ends it.

The comment at line 115 says the `finally` is there to stop the audio stream
on exceptions. The `finally` only sets the flag. The device itself is closed
by lines 58-60, and only when the generator leaves its `with` block normally:
`_record_audio` has no `try`/`finally` around its `yield`. The model follows
the code. The device is closed only on the path where the generator makes one
more loop check and sees the flag set.

## Model

| member | source | states |
|---|---|---|
| Signal.StopEvent.constructor | speech/api/speech_streaming.py:93 | the flag starts unset |
| Signal.StopEvent.Set | speech/api/speech_streaming.py:113-116 | after a set the flag is set, whatever it was before (idempotent); nothing in the model clears it |
| Audio.AudioStream.constructor | speech/api/speech_streaming.py:50 | a new device is unopened and has served no reads |
| Audio.AudioStream.Open | speech/api/speech_streaming.py:51-54 | opening records the channels, rate and frames per buffer, and serves no read |
| Audio.AudioStream.Read | speech/api/speech_streaming.py:85 | a read returns the device's next chunk unaltered, logs the frame count it asked for, and appends exactly that chunk to the ghost record `delivered` of chunks read |
| Audio.AudioStream.Close | speech/api/speech_streaming.py:58-60 | only an open device can be closed, so it is never closed twice; closing serves no read |
| Framing.AudioOnlyRequests | speech/api/speech_streaming.py:83-87 | one audio-only request per chunk, same length, request k carrying chunk k |
| Framing.FramedCarriesReads | speech/api/speech_streaming.py:75-87 | specifies `Framed`: there are as many requests as chunks read; request k carries chunk k unaltered; only request 0 carries metadata, and that metadata is LINEAR16 at the configured rate |
| Framing.NoMetadataInAudioOnly | speech/api/speech_streaming.py:85-87 | no loop-produced request carries metadata |
| Framing.ExactlyOneMetadata | speech/api/speech_streaming.py:79-87 | every non-empty run has exactly one request with metadata |
| Framing.FramedSnoc | speech/api/speech_streaming.py:83-87 | reading one more chunk appends one audio-only request and leaves the earlier requests unchanged |
| Framing.UnsetCount | speech/api/speech_streaming.py:83 | with every check unset, the number of unset checks is the number of checks |
| Framing.RequestStream.YieldCount | speech/api/speech_streaming.py:79-87 | once started, the generator has yielded one more request than the number of loop checks that saw the flag unset |
| Framing.RequestStream.constructor | speech/api/speech_streaming.py:63 | creating the generator opens nothing and yields nothing |
| Framing.RequestStream.Next | speech/api/speech_streaming.py:72-89 | the first `next` yields metadata plus chunk 0 without looking at the flag; each later `next` records the flag; if it is set, `next` ends the sequence, closes the device and reads nothing; otherwise it yields only the next chunk; an exhausted generator stays exhausted and touches nothing; all along the invariant holds: yielded requests equal `Framed` of the chunks read, every read asked for `chunk` frames, and once opened the device keeps the channels, rate and frames per buffer it was opened with |
| Framing.RequestStream.Start | speech/api/speech_streaming.py:72-81 | the first resumption opens the device with the configured parameters and yields the metadata bundled with the first chunk |
| Framing.RequestStream.Resume | speech/api/speech_streaming.py:83-89 | a later resumption checks the flag: set means close the device and end; unset means read one chunk and yield it alone |
| Framing.FlagSetBeforeStart | speech/api/speech_streaming.py:77-83 | a flag already set at the start still lets the first request (with metadata and chunk 0) through; the next resumption ends the sequence and the device is closed |
| Text.TrimStart | speech/api/speech_streaming.py:109 | returns a suffix of the input that does not start with whitespace, having removed only whitespace |
| Text.TrimEnd | speech/api/speech_streaming.py:109 | returns a prefix of the input that does not end with whitespace, having removed only whitespace |
| Text.TrimStartOfPadded | speech/api/speech_streaming.py:109 | leading whitespace in front of a text that does not start with whitespace is removed exactly |
| Text.TrimEndOfPadded | speech/api/speech_streaming.py:109 | trailing whitespace after a text that does not end with whitespace is removed exactly |
| Text.StripOfPadded | speech/api/speech_streaming.py:109 | stripping a word that has whitespace around it gives back the word |
| Text.StripBounds | speech/api/speech_streaming.py:109 | the stripped text is a slice of the input with only whitespace before and after it |
| Text.StripOfSplit | speech/api/speech_streaming.py:109 | a word found between two whitespace runs is what strip returns |
| Text.StripEquals | speech/api/speech_streaming.py:109 | specifies `Strip`: strip gives a word w (not starting or ending with whitespace) if and only if the input is w with whitespace around it |
| Text.StripIdempotent | speech/api/speech_streaming.py:109 | stripping twice is stripping once |
| Policy.AnyStopAlternative | speech/api/speech_streaming.py:108-111 | the left-to-right `any` over one result's alternatives is true iff some alternative is a stop alternative |
| Policy.AnyStopResult | speech/api/speech_streaming.py:108-111 | `any` over the nested comprehension is true iff some alternative of some result is a stop alternative |
| Policy.DecideIff | speech/api/speech_streaming.py:99-113 | specifies `Decide`: a response aborts iff its code is not OK, with message "Server error: " + its message; otherwise it asks for a stop iff some alternative of some result has confidence > 0.5 and a stripped transcript of "exit" or "quit" |
| Policy.StopAlternativeIff | speech/api/speech_streaming.py:108-109 | specifies `IsStopAlternative`: an alternative stops iff confidence > 0.5 and the transcript is "exit" or "quit", case-sensitive, with only whitespace around it |
| Policy.PaddedKeywordStops | speech/api/speech_streaming.py:108-109 | " exit " at 0.6 stops |
| Policy.OtherWhitespaceIsStripped | speech/api/speech_streaming.py:109 | tab and newline padding is stripped too: "\tquit\n" at 0.51 stops |
| Policy.LowConfidenceDoesNotStop | speech/api/speech_streaming.py:108 | "exit" at 0.4 and "quit" at exactly 0.5 do not stop |
| Policy.CapitalisedKeywordDoesNotStop | speech/api/speech_streaming.py:109 | "Exit" at 0.9 does not stop |
| Session.TakenIff | speech/api/speech_streaming.py:97-100 | specifies `Taken`, the number of responses the loop handles: every response before the first error and that error itself, or all of them when none has an error |
| Session.StopRequestedStep | speech/api/speech_streaming.py:108-113 | a stop is requested within the first i + 1 responses iff it was within the first i or response i asks for it |
| Session.FirstServerErrorRaises | speech/api/speech_streaming.py:97-100 | specifies `Verdict` on the error path: the first response whose code is not OK ends the loop with "Server error: " + its message, whatever comes later |
| Session.CompletedIff | speech/api/speech_streaming.py:96-116 | specifies `Verdict` on the normal path: the loop completes normally iff every response is OK and the stream closes without a transport error |
| Session.OutcomeIgnoresTranscripts | speech/api/speech_streaming.py:106-113 | the outcome depends only on the error fields, so a keyword match never ends the loop by itself |
| Session.KeywordStopsPromptly | speech/api/speech_streaming.py:108-113 | a keyword in an OK response k with no error before it is handled by the loop (k < `Taken`) and counts as a stop request within the first k + 1 responses |
| Session.HandleResponse | speech/api/speech_streaming.py:99-113 | the action taken is `Decide` of the response; afterwards the flag is set iff it was set before or the action is a keyword stop; an error alone does not set it here |
| Session.ConsumeResponses | speech/api/speech_streaming.py:96-116 | the loop handles exactly `Taken` responses; as it leaves response k the flag is set iff it was set at the start or one of responses 0..k asked for a stop, so a keyword sets the flag at once and the loop goes on; on every exit path (normal, server error, transport error) the flag ends up set through the `finally`; the outcome is `Verdict` of the responses and how the stream ended |
| Session.ShutDown | speech/api/speech_streaming.py:83-116 | after the response loop ends, however it ends, the producer's next loop check ends the request stream and closes the device, without yielding anything more |

## Left out

- `_make_channel` (lines 25-44): fetching credentials, TLS and composing the gRPC channel are foreign library calls.
- The gRPC stub, `service.Recognize` and the `DEADLINE_SECS` timeout (lines 94-98): the transport is not modelled. A deadline expiry or disconnect is an input, `StreamEnd.Fault`, at the end of the response sequence.
- Concurrency: in the source, the producer and the response loop run on different threads and share a `threading.Event`. The model has a plain boolean that is read at loop checks. `Session.ShutDown` is the one interleaving where the response loop finishes before the producer resumes.
- Device faults and the PyAudio library: opening and reading never fail in the model. What the microphone delivers is the input function `capture`, and the byte length of a chunk is not tied to the frame count.
- Release of the device on abnormal exit: when the response loop raises, the generator may be abandoned without another loop check. On that path lines 58-60 never run, and the model claims no release. `Session.ShutDown` covers only the path where the producer checks the flag once more, and then the device is closed.
- `print` output (lines 104 and 112), so the claim that an erroring response is never displayed is not modelled.
- `raise StopIteration()` (line 89) is modelled as the end of the sequence (`None`). How Python versions treat it is not modelled.
- Confidence is a `real`: the 32-bit float rounding of the wire format is not modelled.
- Whitespace for `strip()` follows Python 3's `str.isspace`. The Unicode tables of older Python releases differ slightly (U+180E) and are not modelled.
- `main`'s default arguments: the generator is built with the given channels, rate and chunk size. `main` passes the defaults `CHANNELS`, `RATE` and `CHUNK`, as `Framing.FlagSetBeforeStart` does.
