/** The output side of the generators: an append-only sink standing for an io.Writer. */
module Output {

  /** What has been written to one file, in order, one record per write. */
  class Sink<T> {
    var chunks: seq<T>

    constructor ()
      ensures chunks == []
    {
      chunks := [];
    }

    /** One emitted element (a line of fixed markup, a button, a table row, ...). */
    method Write(c: T)
      modifies this
      ensures chunks == old(chunks) + [c]
    {
      chunks := chunks + [c];
    }
  }

  /** Writing a, then b after `out` leaves the same text as writing a + b. */
  lemma AppendTwo<T>(out: seq<T>, a: seq<T>, b: seq<T>)
    ensures out + a + b == out + (a + b)
  {
  }

  /** Writing a, then b, then c after `out` leaves the same text as writing a + b + c. */
  lemma AppendThree<T>(out: seq<T>, a: seq<T>, b: seq<T>, c: seq<T>)
    ensures out + a + b + c == out + (a + b + c)
  {
  }

  lemma AppendFour<T>(out: seq<T>, a: seq<T>, b: seq<T>, c: seq<T>, d: seq<T>)
    ensures out + a + b + c + d == out + (a + b + c + d)
  {
  }
}
