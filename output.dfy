/**
  * The output sinks the runner writes to. The `Outputter` class itself (outputter.py) is not
  * part of this model: a stream is the list of strings written to it, in order.
  */
module Output {
  /** A write-only text stream. */
  class Stream {
    var written: seq<string>

    constructor()
      ensures written == []
    {
      written := [];
    }

    /** `write(s)`: `s` is appended, nothing else changes. */
    method Write(s: string)
      modifies this
      ensures written == old(written) + [s]
    {
      written := written + [s];
    }
  }

  /** An outputter: an `info` and an `error` stream. */
  class Outputter {
    const info: Stream
    const error: Stream

    /** The two channels are separate streams. */
    predicate Valid() {
      info != error
    }

    constructor()
      ensures Valid() && fresh(info) && fresh(error)
      ensures info.written == [] && error.written == []
    {
      info := new Stream();
      error := new Stream();
    }
  }
}
