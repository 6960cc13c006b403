/** Packet-four framing: the incremental parser of `iroh_dist_controller.erl` and the
    frames it undoes. */
module PacketFour {
  import opened Bytes

  /** A packet is delivered as iodata: a list of chunks. */
  type IoData = seq<Binary>

  datatype Parser =
    | Header(header: Binary)
    | Body(length: nat, chunks: seq<Binary>, size: nat)

  datatype FeedResult =
    | Fed(packets: seq<IoData>, parser: Parser)
    | FrameTooLarge(length: nat)

  const NEW: Parser := Header([])

  /** States the parser can be entered with. */
  ghost predicate Enterable(parser: Parser) {
    match parser
    case Header(header) => |header| < 4
    case Body(length, _, size) => size <= length
  }

  function Feed(parser: Parser, data: Binary, maxFrame: nat): FeedResult
    requires Enterable(parser)
  {
    FeedLoop(parser, data, maxFrame, [])
  }

  /** `packets` holds the packets finished so far, newest first. */
  function FeedLoop(parser: Parser, data: Binary, maxFrame: nat, packets: seq<IoData>): FeedResult
    requires Enterable(parser)
    decreases |data|, parser.Body?
  {
    match parser
    case Header(header) =>
      var need := 4 - |header|;
      if |data| < need then
        Fed(Reverse(packets), Header(header + data))
      else
        var length := Decode(header + data[..need]);
        if length <= maxFrame then
          FeedLoop(Body(length, [], 0), data[need..], maxFrame, packets)
        else
          FrameTooLarge(length)
    case Body(length, chunks, size) =>
      var remaining := length - size;
      if |data| < remaining then
        Fed(Reverse(packets), Body(length, AddChunk(data, chunks), size + |data|))
      else
        var packet := Reverse(AddChunk(data[..remaining], chunks));
        FeedLoop(NEW, data[remaining..], maxFrame, [packet] + packets)
  }

  function AddChunk(chunk: Binary, chunks: seq<Binary>): seq<Binary> {
    if chunk == [] then chunks else [chunk] + chunks
  }

  // ----- the frames, and a reference parser over plain bytes

  function Frame(packet: Binary): (b: Binary)
    ensures |b| == 4 + |packet|
  {
    Encode(|packet|, 4) + packet
  }

  function Frames(packets: seq<Binary>): Binary {
    if packets == [] then [] else Frame(packets[0]) + Frames(packets[1..])
  }

  ghost predicate Legal(packets: seq<Binary>, maxFrame: nat) {
    forall p <- packets :: |p| <= maxFrame
  }

  datatype Parsed =
    | Complete(packets: seq<Binary>, rest: Binary)
    | TooLarge(length: nat)

  /** All at once and without state: cut complete frames off the front. */
  function Parse(b: Binary, maxFrame: nat): Parsed
    decreases |b|
  {
    if |b| < 4 then Complete([], b)
    else
      var n := Decode(b[..4]);
      if n > maxFrame then TooLarge(n)
      else if |b| < 4 + n then Complete([], b)
      else Before([b[4..4 + n]], Parse(b[4 + n..], maxFrame))
  }

  /** The frames that come before the first one over the limit. */
  function BeforeOversize(b: Binary, maxFrame: nat): seq<Binary>
    decreases |b|
  {
    if |b| < 4 then []
    else
      var n := Decode(b[..4]);
      if n > maxFrame || |b| < 4 + n then [] else [b[4..4 + n]] + BeforeOversize(b[4 + n..], maxFrame)
  }

  function Before(packets: seq<Binary>, parsed: Parsed): Parsed {
    match parsed
    case Complete(more, rest) => Complete(packets + more, rest)
    case TooLarge(n) => TooLarge(n)
  }

  // ----- the incremental parser refines the reference

  /** States the parser can be left in between two calls. */
  ghost predicate Resting(parser: Parser, maxFrame: nat) {
    match parser
    case Header(header) => |header| < 4
    case Body(length, chunks, size) =>
      size < length <= maxFrame && length < Pow256(4) && size == |Collected(chunks)|
  }

  /** The bytes a state stands for. */
  ghost function Held(parser: Parser): Binary {
    match parser
    case Header(header) => header
    case Body(length, chunks, _) => Encode(length, 4) + Collected(chunks)
  }

  function Flat(packets: seq<IoData>): (f: seq<Binary>)
    ensures |f| == |packets|
  {
    seq(|packets|, i requires 0 <= i < |packets| => Concat(packets[i]))
  }

  ghost function View(result: FeedResult): Parsed {
    match result
    case Fed(packets, parser) => Complete(Flat(packets), Held(parser))
    case FrameTooLarge(n) => TooLarge(n)
  }

  lemma FlatCons(packet: IoData, packets: seq<IoData>)
    ensures Flat(Reverse([packet] + packets)) == Flat(Reverse(packets)) + [Concat(packet)]
  {
    assert ([packet] + packets)[1..] == packets;
  }

  lemma CollectedAdd(chunk: Binary, chunks: seq<Binary>)
    ensures Collected(AddChunk(chunk, chunks)) == Collected(chunks) + chunk
  {
    if chunk != [] {
      CollectedCons(chunk, chunks);
    }
  }

  lemma BeforeTwice(a: seq<Binary>, b: seq<Binary>, parsed: Parsed)
    ensures Before(a, Before(b, parsed)) == Before(a + b, parsed)
    ensures Before([], parsed) == parsed
  {
    if parsed.Complete? {
      Assoc(a, b, parsed.packets);
      assert [] + parsed.packets == parsed.packets;
    }
  }

  /** States met inside the loop: resting ones, and a body just begun. */
  ghost predicate Running(parser: Parser, maxFrame: nat) {
    || Resting(parser, maxFrame)
    || (parser.Body? && parser.chunks == [] && parser.size == 0
        && parser.length <= maxFrame && parser.length < Pow256(4))
  }

  /** A four-byte field stands for the length it encodes. */
  lemma FieldHeld(field: Binary)
    requires |field| == 4
    ensures Decode(field) < Pow256(4)
    ensures Held(Body(Decode(field), [], 0)) == field
  {
    EncodeDecode(field);
    assert Collected([]) == [];
    assert field + [] == field;
  }

  /** Enough of the header is there: the reference reads the same length. */
  lemma HeaderStep(header: Binary, data: Binary)
    requires |header| < 4 <= |header| + |data|
    ensures var need := 4 - |header|;
            var field := header + data[..need];
            && |field| == 4
            && (header + data)[..4] == field
            && field + data[need..] == header + data
  {
    var need := 4 - |header|;
    assert data == data[..need] + data[need..];
  }

  /** The bytes of a body state: the reference sees the same length, and no whole frame
      before `length` body bytes. */
  lemma BodyShort(length: nat, chunks: seq<Binary>, data: Binary, maxFrame: nat)
    requires length <= maxFrame && length < Pow256(4)
    requires |Collected(chunks)| + |data| < length
    ensures var all := Held(Body(length, chunks, |Collected(chunks)|)) + data;
            && Parse(all, maxFrame) == Complete([], all)
            && Held(Body(length, AddChunk(data, chunks), |Collected(chunks)| + |data|)) == all
  {
    hide Encode, Decode, Collected, AddChunk;
    DecodeEncode(length, 4);
    CollectedAdd(data, chunks);
    var field, held := Encode(length, 4), Collected(chunks);
    var all := field + held + data;
    assert all[..4] == field;
    assert all == field + (held + data);
  }

  lemma BodyFull(length: nat, chunks: seq<Binary>, data: Binary, maxFrame: nat)
    requires length <= maxFrame && length < Pow256(4)
    requires |Collected(chunks)| <= length <= |Collected(chunks)| + |data|
    ensures var remaining := length - |Collected(chunks)|;
            var packet := Reverse(AddChunk(data[..remaining], chunks));
            && Parse(Held(Body(length, chunks, |Collected(chunks)|)) + data, maxFrame)
               == Before([Concat(packet)], Parse(data[remaining..], maxFrame))
  {
    hide Encode, Parse, AddChunk;
    var remaining := length - |Collected(chunks)|;
    var last := data[..remaining];
    CollectedAdd(last, chunks);
    var body := Collected(chunks) + last;
    ParseFrame(body, data[remaining..], maxFrame);
    BodyCompleted(Encode(length, 4), Collected(chunks), data, remaining);
  }

  lemma BodyCompleted(field: Binary, held: Binary, data: Binary, remaining: nat)
    requires remaining <= |data|
    ensures field + held + data == field + (held + data[..remaining]) + data[remaining..]
  {
    assert data == data[..remaining] + data[remaining..];
  }

  lemma NewHoldsNothing(data: Binary)
    ensures Held(NEW) + data == data
  {
  }

  lemma {:induction false} FeedLoopRests(parser: Parser, data: Binary, maxFrame: nat, packets: seq<IoData>)
    requires Running(parser, maxFrame)
    ensures var r := FeedLoop(parser, data, maxFrame, packets);
            r.Fed? ==> Resting(r.parser, maxFrame)
    decreases |data|, parser.Body?
  {
    match parser
    case Header(header) =>
      var need := 4 - |header|;
      if |data| >= need && Decode(header + data[..need]) <= maxFrame {
        HeaderStep(header, data);
        FieldHeld(header + data[..need]);
        FeedLoopRests(Body(Decode(header + data[..need]), [], 0), data[need..], maxFrame, packets);
      }
    case Body(length, chunks, size) =>
      var remaining := length - size;
      if |data| < remaining {
        CollectedAdd(data, chunks);
      } else {
        FeedLoopRests(NEW, data[remaining..], maxFrame,
                      [Reverse(AddChunk(data[..remaining], chunks))] + packets);
      }
  }

  /** One turn of the loop, in terms of the reference, for whatever the rest comes to. */
  ghost predicate Refines(parser: Parser, data: Binary, maxFrame: nat, packets: seq<IoData>)
    requires Enterable(parser)
  {
    View(FeedLoop(parser, data, maxFrame, packets))
    == Before(Flat(Reverse(packets)), Parse(Held(parser) + data, maxFrame))
  }

  lemma {:induction false} HeaderRefines(header: Binary, data: Binary, maxFrame: nat, packets: seq<IoData>)
    requires |header| < 4
    ensures Refines(Header(header), data, maxFrame, packets)
    decreases |data|, false, 1
  {
    hide Encode, Collected, Decode;
    var need := 4 - |header|;
    if |data| >= need {
      HeaderStep(header, data);
      var field := header + data[..need];
      FieldHeld(field);
      if Decode(field) <= maxFrame {
        BodyRefines(Body(Decode(field), [], 0), data[need..], maxFrame, packets);
      }
    }
  }

  lemma {:induction false} BodyRefines(parser: Parser, data: Binary, maxFrame: nat, packets: seq<IoData>)
    requires Running(parser, maxFrame) && parser.Body?
    ensures Refines(parser, data, maxFrame, packets)
    decreases |data|, true, 0
  {
    hide Encode, AddChunk, Parse;
    var Body(length, chunks, size) := parser;
    var remaining := length - size;
    if |data| < remaining {
      BodyShort(length, chunks, data, maxFrame);
    } else {
      var packet := Reverse(AddChunk(data[..remaining], chunks));
      BodyFull(length, chunks, data, maxFrame);
      HeaderRefines([], data[remaining..], maxFrame, [packet] + packets);
      PacketDone(packet, packets, data[remaining..], maxFrame);
    }
  }

  /** A finished packet goes to the front of the packets that follow. */
  lemma PacketDone(packet: IoData, packets: seq<IoData>, tail: Binary, maxFrame: nat)
    ensures Before(Flat(Reverse([packet] + packets)), Parse(Held(NEW) + tail, maxFrame))
            == Before(Flat(Reverse(packets)), Before([Concat(packet)], Parse(tail, maxFrame)))
  {
    FlatCons(packet, packets);
    NewHoldsNothing(tail);
    BeforeTwice(Flat(Reverse(packets)), [Concat(packet)], Parse(tail, maxFrame));
  }

  /** The incremental parser computes exactly what the reference does on the bytes it held
      followed by the new ones, and comes to rest in a state holding the leftover. */
  lemma FeedRefinesParse(parser: Parser, data: Binary, maxFrame: nat)
    requires Resting(parser, maxFrame)
    ensures View(Feed(parser, data, maxFrame)) == Parse(Held(parser) + data, maxFrame)
    ensures var r := Feed(parser, data, maxFrame); r.Fed? ==> Resting(r.parser, maxFrame)
  {
    if parser.Header? {
      HeaderRefines(parser.header, data, maxFrame, []);
    } else {
      BodyRefines(parser, data, maxFrame, []);
    }
    FeedLoopRests(parser, data, maxFrame, []);
    BeforeTwice([], [], Parse(Held(parser) + data, maxFrame));
    assert Flat(Reverse<IoData>([])) == [];
  }

  // ----- what the reference means

  lemma CutFrame(b: Binary, n: nat, packets: seq<Binary>, rest: Binary)
    requires |b| >= 4 + n && n == Decode(b[..4])
    requires Frames(packets) + rest == b[4 + n..]
    ensures Frames([b[4..4 + n]] + packets) + rest == b
  {
    var p := b[4..4 + n];
    EncodeDecode(b[..4]);
    assert ([p] + packets)[1..] == packets;
    Assoc(Frame(p), Frames(packets), rest);
    assert b == Frame(p) + b[4 + n..];
  }

  lemma {:induction false} ParseLossless(b: Binary, maxFrame: nat)
    requires Parse(b, maxFrame).Complete?
    ensures var r := Parse(b, maxFrame); Frames(r.packets) + r.rest == b
    decreases |b|
  {
    if |b| >= 4 && |b| >= 4 + Decode(b[..4]) {
      var n := Decode(b[..4]);
      ParseLossless(b[4 + n..], maxFrame);
      var inner := Parse(b[4 + n..], maxFrame);
      CutFrame(b, n, inner.packets, inner.rest);
    }
  }

  lemma {:induction false} ParseLegal(b: Binary, maxFrame: nat)
    requires Parse(b, maxFrame).Complete?
    ensures Legal(Parse(b, maxFrame).packets, maxFrame)
    decreases |b|
  {
    if |b| >= 4 && |b| >= 4 + Decode(b[..4]) {
      ParseLegal(b[4 + Decode(b[..4])..], maxFrame);
    }
  }

  /** Cutting the input anywhere changes nothing, errors included. */
  lemma {:induction false} ParseSplit(a: Binary, b: Binary, maxFrame: nat)
    ensures Parse(a + b, maxFrame) ==
            match Parse(a, maxFrame)
            case Complete(packets, rest) => Before(packets, Parse(rest + b, maxFrame))
            case TooLarge(n) => TooLarge(n)
    decreases |a|
  {
    BeforeTwice([], [], Parse(a + b, maxFrame));
    if |a| >= 4 {
      assert (a + b)[..4] == a[..4];
      var n := Decode(a[..4]);
      if n <= maxFrame && |a| >= 4 + n {
        var p, tail := a[4..4 + n], a[4 + n..];
        ParseSplit(tail, b, maxFrame);
        assert (a + b)[4..4 + n] == p;
        assert (a + b)[4 + n..] == tail + b;
        var inner := Parse(tail, maxFrame);
        if inner.Complete? {
          BeforeTwice([p], inner.packets, Parse(inner.rest + b, maxFrame));
        }
      }
    }
  }

  /** A frame in front is peeled off exactly when it is within the limit. */
  lemma ParseFrame(packet: Binary, b: Binary, maxFrame: nat)
    requires |packet| < Pow256(4)
    ensures Parse(Frame(packet) + b, maxFrame) ==
            if |packet| <= maxFrame then Before([packet], Parse(b, maxFrame)) else TooLarge(|packet|)
  {
    var all := Frame(packet) + b;
    DecodeEncode(|packet|, 4);
    assert all[..4] == Encode(|packet|, 4);
    assert all[4..4 + |packet|] == packet;
    assert all[4 + |packet|..] == b;
  }

  /** Frames are read back as sent exactly when every one is within the reader's limit. */
  lemma {:induction false} ParseAcceptsIffLegal(packets: seq<Binary>, maxFrame: nat)
    requires forall p <- packets :: |p| < Pow256(4)
    ensures Parse(Frames(packets), maxFrame).Complete? <==> Legal(packets, maxFrame)
    ensures Legal(packets, maxFrame) ==> Parse(Frames(packets), maxFrame) == Complete(packets, [])
  {
    if packets != [] {
      var p, tail := packets[0], packets[1..];
      ParseAcceptsIffLegal(tail, maxFrame);
      ParseFrame(p, Frames(tail), maxFrame);
      assert packets == [p] + tail;
      assert Legal(packets, maxFrame) <==> |p| <= maxFrame && Legal(tail, maxFrame);
    }
  }

  lemma {:induction false} FramesSplit(a: seq<Binary>, b: seq<Binary>)
    ensures Frames(a + b) == Frames(a) + Frames(b)
  {
    if a == [] {
      assert a + b == b;
    } else {
      FramesSplit(a[1..], b);
      TailAppend(a, b);
      Assoc(Frame(a[0]), Frames(a[1..]), Frames(b));
    }
  }

  /** The packets before the first one over the limit. */
  function LegalPrefix(packets: seq<Binary>, maxFrame: nat): (legal: seq<Binary>)
    ensures legal <= packets && Legal(legal, maxFrame)
    ensures |legal| < |packets| ==> |packets[|legal|]| > maxFrame
  {
    if packets == [] || |packets[0]| > maxFrame then []
    else
      var rest := LegalPrefix(packets[1..], maxFrame);
      assert packets == [packets[0]] + packets[1..];
      [packets[0]] + rest
  }

  /** What the reference makes of a beginning of any stream of frames. */
  ghost predicate BeginningParses(b: Binary, packets: seq<Binary>, maxFrame: nat) {
    var legal := LegalPrefix(packets, maxFrame);
    && BeforeOversize(b, maxFrame) <= legal
    && match Parse(b, maxFrame)
       case Complete(cut, rest) => cut <= legal && (b == Frames(packets) <==> cut == packets && rest == [])
       case TooLarge(n) => |legal| < |packets| && n == |packets[|legal|]|
  }

  /** The beginning ends inside the first frame. */
  lemma FirstFrameCut(b: Binary, packets: seq<Binary>, maxFrame: nat)
    requires packets != [] && |packets[0]| < Pow256(4)
    requires b <= Frames(packets) && |b| < |Frame(packets[0])|
    ensures BeginningParses(b, packets, maxFrame)
  {
    hide Encode, Decode;
    var p := packets[0];
    if |b| >= 4 {
      DecodeEncode(|p|, 4);
      assert b[..4] == Frames(packets)[..4] == Encode(|p|, 4);
    }
  }

  lemma FirstFrameWhole(b: Binary, p: Binary, tail: seq<Binary>, maxFrame: nat)
    requires |p| < Pow256(4) && BeginningParses(b, tail, maxFrame)
    ensures BeginningParses(Frame(p) + b, [p] + tail, maxFrame)
  {
    hide Frame, Frames, LegalPrefix, Parse, BeforeOversize;
    ParseFrame(p, b, maxFrame);
    BeforeOversizeFrame(p, b, maxFrame);
    FirstOfMany(p, tail, maxFrame);
    SameTail(Frame(p), b, Frames(tail));
  }

  lemma FirstOfMany(p: Binary, tail: seq<Binary>, maxFrame: nat)
    ensures Frames([p] + tail) == Frame(p) + Frames(tail)
    ensures LegalPrefix([p] + tail, maxFrame) ==
            if |p| > maxFrame then [] else [p] + LegalPrefix(tail, maxFrame)
  {
    assert ([p] + tail)[1..] == tail;
  }

  lemma SameTail(front: Binary, a: Binary, b: Binary)
    ensures front + a == front + b <==> a == b
  {
    assert (front + a)[|front|..] == a && (front + b)[|front|..] == b;
  }

  lemma BeforeOversizeFrame(packet: Binary, b: Binary, maxFrame: nat)
    requires |packet| < Pow256(4)
    ensures BeforeOversize(Frame(packet) + b, maxFrame) ==
            if |packet| <= maxFrame then [packet] + BeforeOversize(b, maxFrame) else []
  {
    hide Encode, Decode;
    var all := Frame(packet) + b;
    DecodeEncode(|packet|, 4);
    assert all[..4] == Encode(|packet|, 4);
    assert all[4..4 + |packet|] == packet;
    assert all[4 + |packet|..] == b;
  }

  /** Any beginning of a stream of frames yields a beginning of the packets before the first
      one over the limit, and all packets only when every byte is there; it fails only on
      that first one. */
  lemma {:induction false} ParsePrefix(b: Binary, packets: seq<Binary>, maxFrame: nat)
    requires (forall p <- packets :: |p| < Pow256(4)) && b <= Frames(packets)
    ensures BeginningParses(b, packets, maxFrame)
    decreases |packets|
  {
    if packets != [] {
      hide BeginningParses, Frame;
      var p, tail := packets[0], packets[1..];
      if |b| >= |Frame(p)| {
        var b' := b[|Frame(p)|..];
        assert b == Frame(p) + b';
        ParsePrefix(b', tail, maxFrame);
        FirstFrameWhole(b', p, tail, maxFrame);
        assert packets == [p] + tail;
      } else {
        FirstFrameCut(b, packets, maxFrame);
      }
    }
  }

  // ----- frames over the limit

  lemma PeelFront(a: Binary, b: Binary, n: nat, maxFrame: nat)
    requires |a| >= 4 + n && n == Decode(a[..4]) && n <= maxFrame
    ensures BeforeOversize(a + b, maxFrame) == [a[4..4 + n]] + BeforeOversize(a[4 + n..] + b, maxFrame)
  {
    assert (a + b)[..4] == a[..4];
    assert (a + b)[4..4 + n] == a[4..4 + n];
    assert (a + b)[4 + n..] == a[4 + n..] + b;
  }

  /** The packets before the first oversize frame are those already cut off and those of
      what is left over and still to come. */
  lemma {:induction false} BeforeOversizeSplit(a: Binary, b: Binary, maxFrame: nat)
    requires Parse(a, maxFrame).Complete?
    ensures var r := Parse(a, maxFrame);
            BeforeOversize(a + b, maxFrame) == r.packets + BeforeOversize(r.rest + b, maxFrame)
    decreases |a|
  {
    if |a| >= 4 && |a| >= 4 + Decode(a[..4]) {
      var n := Decode(a[..4]);
      var tail := a[4 + n..];
      BeforeOversizeSplit(tail, b, maxFrame);
      PeelFront(a, b, n, maxFrame);
      var inner := Parse(tail, maxFrame);
      Assoc([a[4..4 + n]], inner.packets, BeforeOversize(inner.rest + b, maxFrame));
    } else {
      assert Parse(a, maxFrame) == Complete([], a);
    }
  }

  /** Where the last byte of the first oversize header is, when there is one. */
  function OversizeAt(b: Binary, maxFrame: nat): nat {
    |Frames(BeforeOversize(b, maxFrame))| + 3
  }

  lemma OversizeAtStep(b: Binary, n: nat, maxFrame: nat)
    requires |b| >= 4 + n && n == Decode(b[..4]) && n <= maxFrame
    ensures OversizeAt(b, maxFrame) == 4 + n + OversizeAt(b[4 + n..], maxFrame)
    ensures Parse(b, maxFrame).TooLarge? <==> Parse(b[4 + n..], maxFrame).TooLarge?
  {
    hide Decode, Encode;
    var rest := BeforeOversize(b[4 + n..], maxFrame);
    assert BeforeOversize(b, maxFrame) == [b[4..4 + n]] + rest;
    assert ([b[4..4 + n]] + rest)[1..] == rest;
  }

  ghost predicate FailsFrom(a: Binary, b: Binary, maxFrame: nat) {
    Parse(a, maxFrame).TooLarge? <==> Parse(a + b, maxFrame).TooLarge? && OversizeAt(a + b, maxFrame) < |a|
  }

  lemma FirstOversize(a: Binary, b: Binary, maxFrame: nat)
    requires |a| >= 4 && Decode(a[..4]) > maxFrame
    ensures FailsFrom(a, b, maxFrame)
  {
    hide Decode, Encode;
    assert (a + b)[..4] == a[..4];
    assert BeforeOversize(a + b, maxFrame) == [];
  }

  lemma FirstIncomplete(a: Binary, b: Binary, n: nat, maxFrame: nat)
    requires 4 <= |a| < 4 + n && n == Decode(a[..4]) <= maxFrame
    ensures FailsFrom(a, b, maxFrame)
  {
    hide Decode, OversizeAt;
    assert (a + b)[..4] == a[..4];
    if |a + b| >= 4 + n {
      OversizeAtStep(a + b, n, maxFrame);
    }
  }

  lemma FirstComplete(a: Binary, b: Binary, n: nat, maxFrame: nat)
    requires |a| >= 4 + n && n == Decode(a[..4]) <= maxFrame
    requires FailsFrom(a[4 + n..], b, maxFrame)
    ensures FailsFrom(a, b, maxFrame)
  {
    hide Decode, Parse, OversizeAt;
    assert (a + b)[..4] == a[..4];
    assert (a + b)[4 + n..] == a[4 + n..] + b;
    OversizeAtStep(a, n, maxFrame);
    OversizeAtStep(a + b, n, maxFrame);
  }

  /** Of a stream with an oversize frame, a beginning fails exactly when it reaches past the
      frame's header; with no oversize frame no beginning fails. */
  lemma {:induction false} FailsFromOversizeOn(a: Binary, b: Binary, maxFrame: nat)
    ensures FailsFrom(a, b, maxFrame)
    decreases |a|
  {
    hide Decode;
    if |a| >= 4 {
      hide FailsFrom;
      var n := Decode(a[..4]);
      if n > maxFrame {
        FirstOversize(a, b, maxFrame);
      } else if |a| >= 4 + n {
        FailsFromOversizeOn(a[4 + n..], b, maxFrame);
        FirstComplete(a, b, n, maxFrame);
      } else {
        FirstIncomplete(a, b, n, maxFrame);
      }
    }
  }

  // ----- the properties of the parser itself

  /** Nothing is lost or invented: the packets emitted, framed again, followed by the bytes
      the new state stands for, are the bytes held before followed by the input. */
  lemma FeedLossless(parser: Parser, data: Binary, maxFrame: nat)
    requires Resting(parser, maxFrame)
    ensures var r := Feed(parser, data, maxFrame);
            r.Fed? ==>
              && Frames(Flat(r.packets)) + Held(r.parser) == Held(parser) + data
              && Legal(Flat(r.packets), maxFrame)
  {
    FeedRefinesParse(parser, data, maxFrame);
    if Feed(parser, data, maxFrame).Fed? {
      ParseLossless(Held(parser) + data, maxFrame);
      ParseLegal(Held(parser) + data, maxFrame);
    }
  }

  /** Two states are interchangeable when they differ only in how the bytes collected so
      far are cut into chunks. */
  ghost predicate Equivalent(p: Parser, q: Parser) {
    match (p, q)
    case (Header(a), Header(b)) => a == b
    case (Body(n, a, i), Body(m, b, j)) => n == m && i == j && Collected(a) == Collected(b)
    case _ => false
  }

  /** Equivalence of resting states is exactly holding the same bytes. */
  lemma EquivalentIffSameBytes(p: Parser, q: Parser, maxFrame: nat)
    requires Resting(p, maxFrame) && Resting(q, maxFrame)
    ensures Equivalent(p, q) <==> Held(p) == Held(q)
  {
    if p.Body? && q.Body? && Held(p) == Held(q) {
      DecodeEncode(p.length, 4);
      DecodeEncode(q.length, 4);
      assert Held(p)[..4] == Encode(p.length, 4);
      assert Held(q)[..4] == Encode(q.length, 4);
      assert Held(p)[4..] == Collected(p.chunks);
      assert Held(q)[4..] == Collected(q.chunks);
    }
  }

  /** Feeding `a` and then `b` is feeding `a + b`: the same packets, an equivalent state,
      and the same failures. */
  lemma ChunkingIndependence(parser: Parser, a: Binary, b: Binary, maxFrame: nat)
    requires Resting(parser, maxFrame)
    ensures var whole := Feed(parser, a + b, maxFrame);
            match Feed(parser, a, maxFrame)
            case FrameTooLarge(n) => whole == FrameTooLarge(n)
            case Fed(first, middle) =>
              Resting(middle, maxFrame) &&
              match Feed(middle, b, maxFrame)
              case FrameTooLarge(n) => whole == FrameTooLarge(n)
              case Fed(second, last) =>
                && whole.Fed?
                && Flat(whole.packets) == Flat(first) + Flat(second)
                && Equivalent(whole.parser, last)
  {
    FeedRefinesParse(parser, a + b, maxFrame);
    FeedRefinesParse(parser, a, maxFrame);
    var whole, first := Feed(parser, a + b, maxFrame), Feed(parser, a, maxFrame);
    if first.Fed? {
      FeedRefinesParse(first.parser, b, maxFrame);
      SplitViews(Held(parser), a, b, whole, first, Feed(first.parser, b, maxFrame), maxFrame);
    } else {
      SplitViews(Held(parser), a, b, whole, first, first, maxFrame);
    }
  }

  lemma SplitViews(held: Binary, a: Binary, b: Binary,
                   whole: FeedResult, first: FeedResult, second: FeedResult, maxFrame: nat)
    requires View(whole) == Parse(held + (a + b), maxFrame)
    requires View(first) == Parse(held + a, maxFrame)
    requires first.Fed? ==> View(second) == Parse(Held(first.parser) + b, maxFrame)
    requires whole.Fed? ==> Resting(whole.parser, maxFrame)
    requires second.Fed? ==> Resting(second.parser, maxFrame)
    ensures first.FrameTooLarge? ==> whole == first
    ensures first.Fed? && second.FrameTooLarge? ==> whole == second
    ensures first.Fed? && second.Fed? ==>
              && whole.Fed?
              && Flat(whole.packets) == Flat(first.packets) + Flat(second.packets)
              && Equivalent(whole.parser, second.parser)
  {
    Assoc(held, a, b);
    ParseSplit(held + a, b, maxFrame);
    if first.Fed? && second.Fed? {
      EquivalentIffSameBytes(whole.parser, second.parser, maxFrame);
    }
  }

  /** Feeding the frames of a legal packet list gives back that list and the initial state. */
  lemma FeedOfFrames(packets: seq<Binary>, maxFrame: nat)
    requires Legal(packets, maxFrame) && maxFrame < Pow256(4)
    ensures var r := Feed(NEW, Frames(packets), maxFrame);
            r.Fed? && Flat(r.packets) == packets && r.parser == NEW
  {
    FeedRefinesParse(NEW, Frames(packets), maxFrame);
    ParseAcceptsIffLegal(packets, maxFrame);
    assert Held(NEW) + Frames(packets) == Frames(packets);
    EquivalentIffSameBytes(Feed(NEW, Frames(packets), maxFrame).parser, NEW, maxFrame);
  }

  /** An oversize frame takes the packets parsed before it in the same call with it, so
      what is delivered before the failure depends on how the stream was cut. */
  lemma OversizeDiscardsEarlierPackets(packet: Binary, oversize: Binary, maxFrame: nat)
    requires |packet| <= maxFrame < |oversize| < Pow256(4)
    ensures Feed(NEW, Frame(packet) + Frame(oversize), maxFrame) == FrameTooLarge(|oversize|)
    ensures var first := Feed(NEW, Frame(packet), maxFrame);
            && first.Fed? && Flat(first.packets) == [packet] && first.parser == NEW
            && Feed(first.parser, Frame(oversize), maxFrame) == FrameTooLarge(|oversize|)
  {
    FeedOfFrames([packet], maxFrame);
    assert Frames([packet]) == Frame(packet);
    ChunkingIndependence(NEW, Frame(packet), Frame(oversize), maxFrame);
    FeedRefinesParse(NEW, Frame(oversize), maxFrame);
    ParseFrame(oversize, [], maxFrame);
    assert Held(NEW) + Frame(oversize) == Frame(oversize) + [];
  }

  // ----- the bytes on the wire

  /** A frame: the length in four bytes, most significant first, and the packet. */
  lemma FrameBytes(packet: Binary)
    requires |packet| < Pow256(4)
    ensures var n := |packet|;
            && n < 0x1_0000_0000
            && Frame(packet) == [(n / 0x100_0000) as Byte, (n / 0x1_0000 % 0x100) as Byte,
                                 (n / 0x100 % 0x100) as Byte, (n % 0x100) as Byte] + packet
  {
    FieldRanges();
    Field4(|packet|);
  }

  /** And a header as the parser reads it, whatever the four bytes. */
  lemma HeaderRead(a: Byte, b: Byte, c: Byte, d: Byte, maxFrame: nat)
    ensures var n := a as nat * 0x100_0000 + b as nat * 0x1_0000 + c as nat * 0x100 + d as nat;
            Feed(NEW, [a, b, c, d], maxFrame) ==
            if n > maxFrame then FrameTooLarge(n) else if n == 0 then Fed([[]], NEW) else Fed([], Body(n, [], 0))
  {
    hide Decode, Encode;
    Read4(a, b, c, d);
    HeaderFed([a, b, c, d], maxFrame);
  }

  lemma HeaderFed(field: Binary, maxFrame: nat)
    requires |field| == 4
    ensures var n := Decode(field);
            Feed(NEW, field, maxFrame) ==
            if n > maxFrame then FrameTooLarge(n) else if n == 0 then Fed([[]], NEW) else Fed([], Body(n, [], 0))
  {
    hide Decode, Encode;
    assert [] + field[..4] == field && field[4..] == [];
    EmptyFed(Decode(field), maxFrame);
  }

  lemma EmptyFed(n: nat, maxFrame: nat)
    ensures FeedLoop(Body(n, [], 0), [], maxFrame, []) == if n == 0 then Fed([[]], NEW) else Fed([], Body(n, [], 0))
  {
    if n == 0 {
      NothingFed(maxFrame, [[]]);
    }
  }

  lemma NothingFed(maxFrame: nat, packets: seq<IoData>)
    ensures FeedLoop(NEW, [], maxFrame, packets) == Fed(Reverse(packets), NEW)
  {
    var nothing: Binary := [];
    assert nothing + nothing == nothing;
  }

  /** Chunks are never empty, in a packet delivered or one under way. */
  ghost predicate NoEmptyChunk(chunks: seq<Binary>) {
    forall chunk <- chunks :: chunk != []
  }

  ghost predicate NoEmptyChunks(result: FeedResult) {
    match result
    case Fed(packets, parser) =>
      (forall p <- packets :: NoEmptyChunk(p)) && (parser.Body? ==> NoEmptyChunk(parser.chunks))
    case FrameTooLarge(_) => true
  }

  lemma {:induction false} ReverseKeeps<T>(s: seq<T>)
    ensures forall x :: x in Reverse(s) <==> x in s
  {
    if s != [] {
      ReverseKeeps(s[1..]);
      assert s == [s[0]] + s[1..];
    }
  }

  lemma {:induction false} LoopKeepsNoEmptyChunk(parser: Parser, data: Binary, maxFrame: nat, packets: seq<IoData>)
    requires Enterable(parser) && (parser.Body? ==> NoEmptyChunk(parser.chunks))
    requires forall p <- packets :: NoEmptyChunk(p)
    ensures NoEmptyChunks(FeedLoop(parser, data, maxFrame, packets))
    decreases |data|, parser.Body?
  {
    hide Decode, Encode, Reverse;
    ReverseKeeps(packets);
    match parser
    case Header(header) =>
      var need := 4 - |header|;
      if |data| >= need && Decode(header + data[..need]) <= maxFrame {
        LoopKeepsNoEmptyChunk(Body(Decode(header + data[..need]), [], 0), data[need..], maxFrame, packets);
      }
    case Body(length, chunks, size) =>
      var remaining := length - size;
      if |data| >= remaining {
        ReverseKeeps(AddChunk(data[..remaining], chunks));
        LoopKeepsNoEmptyChunk(NEW, data[remaining..], maxFrame,
                              [Reverse(AddChunk(data[..remaining], chunks))] + packets);
      }
  }

  lemma NoChunkIsEmpty(parser: Parser, data: Binary, maxFrame: nat)
    requires Resting(parser, maxFrame) && (parser.Body? ==> NoEmptyChunk(parser.chunks))
    ensures NoEmptyChunks(Feed(parser, data, maxFrame))
  {
    LoopKeepsNoEmptyChunk(parser, data, maxFrame, []);
  }

  // ----- any number of calls

  /** The calls of a reader, one for each piece of the stream it receives. */
  function FeedMany(parser: Parser, pieces: seq<Binary>, maxFrame: nat): (r: FeedResult)
    requires Resting(parser, maxFrame)
    ensures r.Fed? ==> Resting(r.parser, maxFrame)
    decreases |pieces|
  {
    if pieces == [] then Fed([], parser)
    else
      FeedRefinesParse(parser, pieces[0], maxFrame);
      match Feed(parser, pieces[0], maxFrame)
      case FrameTooLarge(n) => FrameTooLarge(n)
      case Fed(packets, next) =>
        match FeedMany(next, pieces[1..], maxFrame)
        case FrameTooLarge(n) => FrameTooLarge(n)
        case Fed(more, last) => Fed(packets + more, last)
  }

  lemma RestingHoldsNoFrame(parser: Parser, maxFrame: nat)
    requires Resting(parser, maxFrame)
    ensures Parse(Held(parser), maxFrame) == Complete([], Held(parser))
  {
    if parser.Body? {
      BodyShort(parser.length, parser.chunks, [], maxFrame);
      assert Held(parser) + [] == Held(parser);
    }
  }

  lemma ParseInTurn(held: Binary, piece: Binary, later: Binary, maxFrame: nat)
    ensures Parse(held + (piece + later), maxFrame) ==
            match Parse(held + piece, maxFrame)
            case Complete(packets, rest) => Before(packets, Parse(rest + later, maxFrame))
            case TooLarge(n) => TooLarge(n)
  {
    Assoc(held, piece, later);
    ParseSplit(held + piece, later, maxFrame);
  }

  lemma ViewsJoin(packets: seq<IoData>, rest: FeedResult)
    ensures Before(Flat(packets), View(rest)) ==
            View(match rest
                 case FrameTooLarge(n) => FrameTooLarge(n)
                 case Fed(more, last) => Fed(packets + more, last))
  {
    if rest.Fed? {
      assert Flat(packets + rest.packets) == Flat(packets) + Flat(rest.packets);
    }
  }

  /** However often the parser is called, it has computed the reference on everything. */
  lemma {:induction false} FeedManyRefinesParse(parser: Parser, pieces: seq<Binary>, maxFrame: nat)
    requires Resting(parser, maxFrame)
    ensures var r := FeedMany(parser, pieces, maxFrame);
            View(r) == Parse(Held(parser) + Concat(pieces), maxFrame)
    decreases |pieces|
  {
    if pieces == [] {
      RestingHoldsNoFrame(parser, maxFrame);
      assert Held(parser) + [] == Held(parser);
    } else {
      FeedRefinesParse(parser, pieces[0], maxFrame);
      var first := Feed(parser, pieces[0], maxFrame);
      ParseInTurn(Held(parser), pieces[0], Concat(pieces[1..]), maxFrame);
      if first.Fed? {
        FeedManyRefinesParse(first.parser, pieces[1..], maxFrame);
        ViewsJoin(first.packets, FeedMany(first.parser, pieces[1..], maxFrame));
      }
    }
  }

  /** Any two cuttings of the same bytes, into any number of pieces, empty ones included,
      fail alike or give the same packets and equivalent states. */
  lemma AnyCutting(parser: Parser, a: seq<Binary>, b: seq<Binary>, maxFrame: nat)
    requires Resting(parser, maxFrame) && Concat(a) == Concat(b)
    ensures match (FeedMany(parser, a, maxFrame), FeedMany(parser, b, maxFrame))
            case (Fed(p, s), Fed(q, t)) => Flat(p) == Flat(q) && Equivalent(s, t)
            case (FrameTooLarge(n), FrameTooLarge(m)) => n == m
            case _ => false
  {
    FeedManyRefinesParse(parser, a, maxFrame);
    FeedManyRefinesParse(parser, b, maxFrame);
    var x, y := FeedMany(parser, a, maxFrame), FeedMany(parser, b, maxFrame);
    if x.Fed? && y.Fed? {
      EquivalentIffSameBytes(x.parser, y.parser, maxFrame);
    }
  }

  /** After any number of successful calls nothing is lost or invented, and what is retained
      is less than one frame of the largest size. */
  lemma ManyCallsLossless(parser: Parser, pieces: seq<Binary>, maxFrame: nat)
    requires Resting(parser, maxFrame)
    ensures var r := FeedMany(parser, pieces, maxFrame);
            r.Fed? ==>
              && Frames(Flat(r.packets)) + Held(r.parser) == Held(parser) + Concat(pieces)
              && Legal(Flat(r.packets), maxFrame)
              && |Held(r.parser)| < 4 + maxFrame
  {
    FeedManyRefinesParse(parser, pieces, maxFrame);
    if FeedMany(parser, pieces, maxFrame).Fed? {
      ParseLossless(Held(parser) + Concat(pieces), maxFrame);
      ParseLegal(Held(parser) + Concat(pieces), maxFrame);
    }
  }

  /** When a call fails on an oversize frame, the packets delivered by the calls before it
      are all those before that frame, except the ones that the failing call itself had
      parsed: they survive exactly when it had parsed none. */
  lemma EarlierPacketsSurviveIff(parser: Parser, pieces: seq<Binary>, last: Binary, maxFrame: nat)
    requires Resting(parser, maxFrame) && FeedMany(parser, pieces, maxFrame).Fed?
    requires Feed(FeedMany(parser, pieces, maxFrame).parser, last, maxFrame).FrameTooLarge?
    ensures var before := FeedMany(parser, pieces, maxFrame);
            var all := Held(parser) + Concat(pieces) + last;
            var lost := BeforeOversize(Held(before.parser) + last, maxFrame);
            && Flat(before.packets) + lost == BeforeOversize(all, maxFrame)
            && (Flat(before.packets) == BeforeOversize(all, maxFrame) <==> lost == [])
  {
    hide Feed, BeforeOversize, Parse;
    FeedManyRefinesParse(parser, pieces, maxFrame);
    BeforeOversizeSplit(Held(parser) + Concat(pieces), last, maxFrame);
  }
}
