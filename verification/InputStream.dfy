/**
 A byte stream read in chunks within a limit, as every reader here does it: the native
 glue reads standard input and the HTTP adapters read request bodies this way.
 */
module InputStream {
  import opened Words

  /** A list crossing the component boundary has a 32-bit length. */
  type List8 = s: seq<byte> | |s| < TWO32 witness []

  datatype ReadResult = Chunk(bytes: List8) | ReadClosed | ReadFailed

  datatype Received = Input(bytes: seq<byte>) | FailedRead | OverBudget

  /** What a reader that already has `got` makes of the rest of a stream. */
  function Receive(got: seq<byte>, input: seq<ReadResult>, limit: nat): Received
    decreases |input|
  {
    if input == [] then Input(got)
    else
      match input[0]
      case ReadClosed => Input(got)
      case ReadFailed => FailedRead
      case Chunk(bs) =>
        if bs == [] then Input(got)
        else if |got| + |bs| > limit then OverBudget
        else Receive(got + bs, input[1..], limit)
  }

  /** The bytes of the non-empty chunks before the first other read. */
  function Leading(input: seq<ReadResult>): seq<byte>
    decreases |input|
  {
    if input == [] || !input[0].Chunk? || input[0].bytes == [] then []
    else input[0].bytes + Leading(input[1..])
  }

  /** The first read that is not a non-empty chunk failed. */
  predicate EndsInFailure(input: seq<ReadResult>)
    decreases |input|
  {
    input != [] && (input[0].ReadFailed? || (input[0].Chunk? && input[0].bytes != [] && EndsInFailure(input[1..])))
  }

  /** Input is refused exactly when its chunks pass the limit, and is otherwise the chunks read, in order. */
  lemma {:induction false} ReceivedIsItsChunks(got: seq<byte>, input: seq<ReadResult>, limit: nat)
    requires |got| <= limit
    ensures Receive(got, input, limit)
         == if |got| + |Leading(input)| > limit then OverBudget
            else if EndsInFailure(input) then FailedRead
            else Input(got + Leading(input))
    decreases |input|
  {
    assert got + [] == got;
    if input != [] && input[0].Chunk? && input[0].bytes != [] && |got| + |input[0].bytes| <= limit {
      ReceivedIsItsChunks(got + input[0].bytes, input[1..], limit);
      assert got + input[0].bytes + Leading(input[1..]) == got + (input[0].bytes + Leading(input[1..]));
    }
  }
}
