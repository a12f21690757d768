/**
 * Wire messages and configuration values of the streaming speech client
 * (speech/api/speech_streaming.py): the RecognizeRequest / RecognizeResponse
 * shapes of the cloud_speech protocol as far as the client uses them.
 */
module Messages {

  datatype Option<+T> = None | Some(value: T)

  /** One byte of the signed 16-bit PCM stream read from the microphone. */
  newtype byte = x: int | 0 <= x < 256

  /** The bytes returned by one read of the capture device. */
  type Chunk = seq<byte>

  /** Audio recording parameters and the call deadline. */
  const RATE: nat := 16000
  const CHANNELS: nat := 1
  const CHUNK: nat := 2048
  const DEADLINE_SECS: nat := 8 * 60 * 60

  /** google.rpc.Code.OK; every other code is an error. */
  const OK: int := 0

  datatype AudioEncoding = LINEAR16

  /** The stream metadata the server needs before it can interpret audio. */
  datatype InitialRecognizeRequest = InitialRecognizeRequest(encoding: AudioEncoding, sampleRate: int)

  datatype AudioRequest = AudioRequest(content: Chunk)

  /** A request may carry the metadata, an audio payload, or both (both fields are optional). */
  datatype RecognizeRequest = RecognizeRequest(
    initialRequest: Option<InitialRecognizeRequest>,
    audioRequest: Option<AudioRequest>)

  /**
   * google.rpc.Status. An unset `error` field of a response reads as the
   * default Status, whose code is OK, so it is modelled as always present.
   */
  datatype Status = Status(code: int, message: string)

  datatype SpeechRecognitionAlternative = SpeechRecognitionAlternative(transcript: string, confidence: real)

  /** The alternatives of one result, best first, as the service ranks them. */
  datatype SpeechRecognitionResult = SpeechRecognitionResult(alternatives: seq<SpeechRecognitionAlternative>)

  datatype RecognizeResponse = RecognizeResponse(error: Status, results: seq<SpeechRecognitionResult>)
}
