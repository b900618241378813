/** The reading side of a stream, as the parts that write to it see it. */
module DuplexStream {

  class Readable {
    var received: seq<bv8>
    var paused: bool
    var over: bool

    constructor ()
      ensures received == [] && !paused && !over
    {
      received, paused, over := [], false, false;
    }

    /** The reader may pause, or go on, while it is handed the data. */
    method WriteData(data: seq<bv8>) returns (result: int)
      modifies this
      ensures received == old(received) + data && over == old(over)
      ensures result == if paused then 1 else 0
    {
      received := received + data;
      paused := *;
      result := if paused then 1 else 0;
    }

    method WriteEnd()
      modifies this`over
      ensures over
    {
      over := true;
    }
  }
}
