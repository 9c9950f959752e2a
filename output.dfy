/** The two mutable objects the rewriter writes to: the per-line string
    buffer and the line-oriented output sink. */
module Output {

  /** A growable character buffer. */
  class StringBuilder {
    var chars: string

    constructor ()
      ensures chars == []
    {
      chars := [];
    }

    function Length(): nat
      reads this
    {
      |chars|
    }

    method Append(s: string)
      modifies this
      ensures chars == old(chars) + s
    {
      chars := chars + s;
    }

    /** Deletes the whole contents, as `delete(0, length())` does. */
    method DeleteAll()
      modifies this
      ensures chars == []
    {
      chars := [];
    }
  }

  /** The output sink: receives finished lines in order until it is closed.
      Where the lines go (a file or standard output) is not modelled. */
  class Writer {
    var lines: seq<string>
    var closed: bool

    constructor ()
      ensures lines == [] && !closed
    {
      lines := [];
      closed := false;
    }

    method PutLine(s: string)
      requires !closed
      modifies this
      ensures lines == old(lines) + [s] && !closed
    {
      lines := lines + [s];
    }

    method Close()
      modifies this
      ensures lines == old(lines) && closed
    {
      closed := true;
    }
  }
}
