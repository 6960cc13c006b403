/** Bounded reading of a whole stream: `recv_to_end` of `lib/iroh_beam/stream.ex`. */
module RecvToEnd {
  import opened Bytes
  import opened Numbers
  import opened Transport

  const DEFAULT_CHUNK: nat := 64 * 1024

  datatype Result = Whole(data: Binary) | Exhausted | Errored(reason: Reason)

  /** The result, the sizes asked of the stream along the way, the most bytes held at any
      time, and what is left unread. */
  datatype Outcome = Outcome(result: Result, requests: seq<nat>, held: nat, rest: Input)

  function ReadToEnd(input: Input, hardLimit: int): Outcome {
    if hardLimit > 0 then Loop(input, hardLimit, [], 0) else Outcome(Errored(InvalidArgument), [], 0, input)
  }

  function Loop(input: Input, hardLimit: nat, chunks: seq<Binary>, total: nat): Outcome
    requires total < hardLimit
    decreases hardLimit - total
  {
    var size := Min(hardLimit - total, DEFAULT_CHUNK);
    match Recv(input, size)
    case (End, rest) => Outcome(Whole(Collected(chunks)), [size], total, rest)
    case (Failure(reason), rest) => Outcome(Errored(reason), [size], total, rest)
    case (Data(data), rest) =>
      var next := total + |data|;
      if next == hardLimit then
        match Recv(rest, 1)
        case (End, last) => Outcome(Whole(Collected([data] + chunks)), [size, 1], next, last)
        case (Data(extra), last) => Outcome(Exhausted, [size, 1], next + |extra|, last)
        case (Failure(reason), last) => Outcome(Errored(reason), [size, 1], next, last)
      else
        var more := Loop(rest, hardLimit, [data] + chunks, next);
        more.(requests := [size] + more.requests)
  }

  /** What the result must be, from the stream alone. */
  function Expected(bytes: Binary, ending: Ending, limit: nat): Result {
    if |bytes| > limit then Exhausted
    else match ending case Eof => Whole(bytes) case Failed(reason) => Errored(reason)
  }

  function WithPrefix(prefix: Binary, result: Result): Result {
    if result.Whole? then Whole(prefix + result.data) else result
  }

  lemma {:induction false} LoopResult(input: Input, hardLimit: nat, chunks: seq<Binary>, total: nat)
    requires total < hardLimit
    ensures Loop(input, hardLimit, chunks, total).result
            == WithPrefix(Collected(chunks), Expected(input.bytes, input.ending, hardLimit - total))
    decreases hardLimit - total
  {
    hide Recv, Collected;
    var size := Min(hardLimit - total, DEFAULT_CHUNK);
    var (read, rest) := Recv(input, size);
    if read.Data? {
      CollectedCons(read.data, chunks);
      Assoc(Collected(chunks), read.data, rest.bytes);
      if total + |read.data| == hardLimit {
        var (probe, _) := Recv(rest, 1);
        assert rest.bytes == [] ==> input.bytes == read.data;
      } else {
        LoopResult(rest, hardLimit, [read.data] + chunks, total + |read.data|);
      }
    } else {
      assert Collected(chunks) + [] == Collected(chunks);
    }
  }

  lemma {:induction false} LoopRequests(input: Input, hardLimit: nat, chunks: seq<Binary>, total: nat)
    requires total < hardLimit
    ensures var r := Loop(input, hardLimit, chunks, total);
            && (forall n <- r.requests :: 1 <= n <= DEFAULT_CHUNK)
            && |r.requests| <= hardLimit - total + 1
    decreases hardLimit - total
  {
    hide Recv, Collected;
    var size := Min(hardLimit - total, DEFAULT_CHUNK);
    var (read, rest) := Recv(input, size);
    if read.Data? && total + |read.data| != hardLimit {
      var chunks', next := [read.data] + chunks, total + |read.data|;
      LoopRequests(rest, hardLimit, chunks', next);
      var more := Loop(rest, hardLimit, chunks', next);
      assert Loop(input, hardLimit, chunks, total) == more.(requests := [size] + more.requests);
    }
  }

  ghost predicate Suffix(a: Binary, b: Binary) {
    |a| <= |b| && a == b[|b| - |a|..]
  }

  lemma SuffixTransitive(a: Binary, b: Binary, c: Binary)
    requires Suffix(a, b) && Suffix(b, c)
    ensures Suffix(a, c)
  {
  }

  lemma RecvLeavesSuffix(input: Input, limit: nat)
    requires 1 <= limit <= MAX_RECEIVE
    ensures var (read, rest) := Recv(input, limit);
            && Suffix(rest.bytes, input.bytes)
            && |input.bytes| - |rest.bytes| == (if read.Data? then |read.data| else 0)
  {
  }

  lemma {:induction false} LoopHeld(input: Input, hardLimit: nat, chunks: seq<Binary>, total: nat)
    requires total < hardLimit
    ensures var r := Loop(input, hardLimit, chunks, total);
            && Suffix(r.rest.bytes, input.bytes)
            && r.held == total + |input.bytes| - |r.rest.bytes|
            && r.held <= hardLimit + 1
    decreases hardLimit - total
  {
    hide Recv, Collected, Suffix;
    var size := Min(hardLimit - total, DEFAULT_CHUNK);
    var (read, rest) := Recv(input, size);
    RecvLeavesSuffix(input, size);
    if read.Data? {
      var next := total + |read.data|;
      if next == hardLimit {
        RecvLeavesSuffix(rest, 1);
        SuffixTransitive(Recv(rest, 1).1.bytes, rest.bytes, input.bytes);
      } else {
        LoopHeld(rest, hardLimit, [read.data] + chunks, next);
        SuffixTransitive(Loop(rest, hardLimit, [read.data] + chunks, next).rest.bytes, rest.bytes, input.bytes);
      }
    }
  }

  /** For every stream, cutting and limit: the whole stream exactly when it ends and is no
      longer than the limit; a longer one is refused whatever its ending; a failing one
      within the limit reports its failure. */
  lemma ReadToEndCorrect(input: Input, hardLimit: int)
    ensures ReadToEnd(input, hardLimit).result ==
            if hardLimit <= 0 then Errored(InvalidArgument) else Expected(input.bytes, input.ending, hardLimit)
    ensures hardLimit > 0 ==>
              (ReadToEnd(input, hardLimit).result == Whole(input.bytes)
               <==> |input.bytes| <= hardLimit && input.ending == Eof)
  {
    if hardLimit > 0 {
      LoopResult(input, hardLimit, [], 0);
      assert Collected([]) == [];
    }
  }

  /** No request is for nothing or beyond the default chunk, each one brings the budget
      closer to zero, and never more than the limit and one probing byte is taken. */
  lemma ReadToEndBounded(input: Input, hardLimit: nat)
    requires hardLimit > 0
    ensures var r := ReadToEnd(input, hardLimit);
            && (forall n <- r.requests :: 1 <= n <= DEFAULT_CHUNK)
            && |r.requests| <= hardLimit + 1
            && r.held <= hardLimit + 1
            && Suffix(r.rest.bytes, input.bytes)
            && |input.bytes| - |r.rest.bytes| == r.held
  {
    LoopRequests(input, hardLimit, [], 0);
    LoopHeld(input, hardLimit, [], 0);
  }

  ghost predicate Legal(requests: seq<nat>) {
    forall i | 0 <= i < |requests| :: 1 <= requests[i] <= MAX_RECEIVE
  }

  /** The bytes that a list of reads takes. */
  ghost function TakenBy(input: Input, requests: seq<nat>): nat
    requires Legal(requests)
    decreases |requests|
  {
    if requests == [] then 0
    else
      var (read, rest) := Recv(input, requests[0]);
      (if read.Data? then |read.data| else 0) + TakenBy(rest, requests[1..])
  }

  /** What the next read asks for, with `total` bytes taken of `hardLimit`. */
  function NextRequest(hardLimit: nat, total: nat): nat {
    if total < hardLimit then Min(hardLimit - total, DEFAULT_CHUNK) else 1
  }

  /** The first request of the loop and those after it. */
  lemma LoopAsksFirst(input: Input, hardLimit: nat, chunks: seq<Binary>, total: nat)
    requires total < hardLimit
    ensures var requests := Loop(input, hardLimit, chunks, total).requests;
            var size := Min(hardLimit - total, DEFAULT_CHUNK);
            var (read, rest) := Recv(input, size);
            && requests != [] && requests[0] == size
            && requests[1..] == if !read.Data? then [] else
                                if total + |read.data| == hardLimit then [1]
                                else Loop(rest, hardLimit, [read.data] + chunks, total + |read.data|).requests
  {
    hide Recv, Collected;
    var (read, rest) := Recv(input, Min(hardLimit - total, DEFAULT_CHUNK));
    if read.Data? && total + |read.data| != hardLimit {
      var more := Loop(rest, hardLimit, [read.data] + chunks, total + |read.data|).requests;
      assert ([Min(hardLimit - total, DEFAULT_CHUNK)] + more)[1..] == more;
    }
  }

  lemma TakenFirst(input: Input, requests: seq<nat>, i: nat)
    requires 0 < i < |requests| && Legal(requests)
    ensures var (read, rest) := Recv(input, requests[0]);
            && Legal(requests[..i]) && Legal(requests[1..][..i - 1])
            && TakenBy(input, requests[..i])
               == (if read.Data? then |read.data| else 0) + TakenBy(rest, requests[1..][..i - 1])
  {
    hide Recv;
    assert requests[..i][1..] == requests[1..][..i - 1];
  }

  lemma {:induction false} LoopAsks(input: Input, hardLimit: nat, chunks: seq<Binary>, total: nat, i: nat)
    requires total < hardLimit && i < |Loop(input, hardLimit, chunks, total).requests|
    ensures var requests := Loop(input, hardLimit, chunks, total).requests;
            && Legal(requests) && Legal(requests[..i])
            && requests[i] == NextRequest(hardLimit, total + TakenBy(input, requests[..i]))
    decreases hardLimit - total
  {
    hide Recv, Collected, Loop;
    LoopRequests(input, hardLimit, chunks, total);
    LoopAsksFirst(input, hardLimit, chunks, total);
    var requests := Loop(input, hardLimit, chunks, total).requests;
    assert Legal(requests) by {
      assert forall j | 0 <= j < |requests| :: requests[j] in requests;
    }
    var (read, rest) := Recv(input, Min(hardLimit - total, DEFAULT_CHUNK));
    if i > 0 {
      TakenFirst(input, requests, i);
      assert |requests[1..]| > 0 && read.Data?;
      var next := total + |read.data|;
      assert requests[i] == requests[1..][i - 1];
      if next == hardLimit {
        assert requests[1..][..0] == [];
      } else {
        LoopAsks(rest, hardLimit, [read.data] + chunks, next, i - 1);
      }
    }
  }

  /** Each read asks for all that is still allowed, up to the default chunk; the one after
      the limit has been reached asks for a single byte. */
  lemma ReadToEndAsks(input: Input, hardLimit: nat, i: nat)
    requires hardLimit > 0 && i < |ReadToEnd(input, hardLimit).requests|
    ensures var requests := ReadToEnd(input, hardLimit).requests;
            && Legal(requests) && Legal(requests[..i])
            && requests[i] == NextRequest(hardLimit, TakenBy(input, requests[..i]))
  {
    LoopAsks(input, hardLimit, [], 0, i);
  }
}
