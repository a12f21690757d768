/**
 * The shared stop flag (`stop_audio`, a threading.Event). The client only
 * ever sets it and reads it, so the model has no way to clear it: once set it
 * stays set, and setting it again changes nothing.
 */
module Signal {

  class StopEvent {
    var isSet: bool

    constructor ()
      ensures !isSet
    {
      isSet := false;
    }

    /** Sets the flag; idempotent, and never turns it off. */
    method Set()
      modifies this
      ensures isSet
    {
      isSet := true;
    }
  }
}
