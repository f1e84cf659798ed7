/** The output sink the encoders write into: Go's `bytes.Buffer`, reduced to
    what the encoders use of it. */
module Sink {

  class Buffer {
    var contents: string

    constructor ()
      ensures contents == []
    {
      contents := [];
    }

    /** Appends `s`; the write never fails. */
    method WriteString(s: string)
      modifies this
      ensures contents == old(contents) + s
    {
      contents := contents + s;
    }

    function String(): string
      reads this
    {
      contents
    }
  }
}
