/** The receiving end of one QUIC stream, as `IrohBeam.Stream.recv/3` presents it. */
module Transport {
  import opened Bytes
  import opened Numbers

  /** `lib/iroh_beam/stream.ex`: the largest receive request accepted. */
  const MAX_RECEIVE: nat := 16 * 1024 * 1024

  datatype Reason = Closed | InvalidArgument | Native(code: nat)

  /** What the stream reports after its last byte. */
  datatype Ending = Eof | Failed(reason: Reason)

  /** The bytes still to be read, the sizes the transport happens to choose for the
      coming reads, and how the stream ends. Any list of sizes is a possible transport:
      statements about every `Input` hold for every way of cutting the stream. */
  datatype Input = Input(bytes: Binary, cuts: seq<nat>, ending: Ending)

  datatype Read = Data(data: Binary) | End | Failure(reason: Reason)

  /** The size of the next read: between one byte and everything asked for. */
  function CutSize(input: Input, limit: nat): (k: nat)
    requires limit > 0 && input.bytes != []
    ensures 1 <= k <= limit && k <= |input.bytes|
  {
    var most := Min(limit, |input.bytes|);
    if input.cuts == [] || input.cuts[0] == 0 || input.cuts[0] > most then most else input.cuts[0]
  }

  function Recv(input: Input, limit: nat): (r: (Read, Input))
    ensures r.0.Data? ==> 1 <= |r.0.data| <= limit
                          && r.0.data + r.1.bytes == input.bytes && r.1.ending == input.ending
    ensures 1 <= limit <= MAX_RECEIVE ==> (r.0.Data? <==> input.bytes != [])
    ensures 1 <= limit <= MAX_RECEIVE && input.bytes == [] ==>
              r.0 == match input.ending case Eof => End case Failed(reason) => Failure(reason)
    ensures !(1 <= limit <= MAX_RECEIVE) ==> r.0 == Failure(InvalidArgument)
  {
    if !(1 <= limit <= MAX_RECEIVE) then (Failure(InvalidArgument), input)
    else if input.bytes == [] then
      (match input.ending case Eof => End case Failed(reason) => Failure(reason), input)
    else
      var k := CutSize(input, limit);
      var cuts := if input.cuts == [] then [] else input.cuts[1..];
      (Data(input.bytes[..k]), Input(input.bytes[k..], cuts, input.ending))
  }

  /** Every legal read size is one the transport may choose. */
  lemma EveryCutPossible(bytes: Binary, limit: nat, k: nat, ending: Ending)
    requires 1 <= k <= limit <= MAX_RECEIVE && k <= |bytes|
    ensures Recv(Input(bytes, [k], ending), limit) == (Data(bytes[..k]), Input(bytes[k..], [], ending))
  {
  }

  // ----- recv_exact, the same loop in iroh_dist.erl and iroh_dist_preface.erl

  datatype Exact = Exactly(data: Binary, rest: Input) | Short(error: Reason)

  function RecvExact(input: Input, remaining: nat, chunks: seq<Binary>): (r: Exact)
    ensures r.Exactly? ==> |r.data| == |Collected(chunks)| + remaining
    decreases remaining
  {
    if remaining == 0 then Exactly(Collected(chunks), input)
    else
      match Recv(input, remaining)
      case (Data(data), rest) =>
        CollectedCons(data, chunks);
        RecvExact(rest, remaining - |data|, [data] + chunks)
      case (End, _) => Short(Closed)
      case (Failure(reason), _) => Short(reason)
  }

  function EndingError(ending: Ending): Reason {
    match ending case Eof => Closed case Failed(reason) => reason
  }

  lemma {:induction false} RecvExactLoop(input: Input, n: nat, chunks: seq<Binary>)
    requires n <= MAX_RECEIVE
    ensures n <= |input.bytes| ==>
              var r := RecvExact(input, n, chunks);
              && r.Exactly?
              && r.data == Collected(chunks) + input.bytes[..n]
              && r.rest.bytes == input.bytes[n..]
              && r.rest.ending == input.ending
    ensures n > |input.bytes| ==> RecvExact(input, n, chunks) == Short(EndingError(input.ending))
    decreases n
  {
    if n > 0 && input.bytes != [] {
      var (read, rest) := Recv(input, n);
      RecvExactLoop(rest, n - |read.data|, [read.data] + chunks);
      CollectedCons(read.data, chunks);
      if n <= |input.bytes| {
        PrefixAppend(read.data, rest.bytes, n);
        Assoc(Collected(chunks), read.data, rest.bytes[..n - |read.data|]);
      }
    }
  }

  lemma PrefixAppend(a: Binary, b: Binary, n: nat)
    requires |a| <= n <= |a| + |b|
    ensures (a + b)[..n] == a + b[..n - |a|]
    ensures (a + b)[n..] == b[n - |a|..]
  {
  }

  /** Whatever the cuts, `recv_exact` takes the next `n` bytes and not one more, and fails
      exactly when the stream ends before them, with the stream's own ending. */
  lemma RecvExactTakesPrefix(input: Input, n: nat)
    requires n <= MAX_RECEIVE
    ensures RecvExact(input, n, []).Exactly? <==> n <= |input.bytes|
    ensures n <= |input.bytes| ==>
              var r := RecvExact(input, n, []);
              && r.data == input.bytes[..n]
              && r.rest.bytes == input.bytes[n..]
              && r.rest.ending == input.ending
    ensures n > |input.bytes| ==> RecvExact(input, n, []) == Short(EndingError(input.ending))
  {
    RecvExactLoop(input, n, []);
  }

  // ----- sending

  /** How one `Stream.send` turns out: it writes everything, or stops after some bytes. */
  datatype SendOutcome = Sent | Broken(reason: Reason, after: nat)

  function Written(data: Binary, outcome: SendOutcome): (w: Binary)
    ensures w <= data && |w| == match outcome case Sent => |data| case Broken(_, after) => Min(after, |data|)
  {
    match outcome
    case Sent => data
    case Broken(_, after) => data[..Min(after, |data|)]
  }
}
