/** The chunked write loop of `start_stream_send` in `native/iroh_beam_nif/src/stream.rs`. */
module Writer {
  import opened Bytes
  import opened Numbers

  /** How one call on the transport ends. `Interrupted` is a reset of the half, or the
      cancellation of the operation, while the call is under way: it is dropped wherever it
      is. A cancelled operation then reports nothing to its caller. */
  datatype Ended = Done | Refused | Interrupted

  /** The send half of a stream. `wire` is every byte the transport has taken from it; a
      `sound` transport refuses nothing. */
  class SendStream {
    ghost var wire: Binary
    const sound: bool

    constructor (sound: bool)
      ensures wire == [] && this.sound == sound
    {
      wire, this.sound := [], sound;
    }

    /** `write_all`: takes everything, or fails after taking part of it. */
    method WriteAll(data: Binary, reset: bool) returns (ended: Ended)
      modifies this`wire
      ensures ended.Interrupted? <==> reset
      ensures ended.Refused? ==> !sound
      ensures ended.Done? ==> wire == old(wire) + data
      ensures !ended.Done? ==> exists taken :: taken <= data && wire == old(wire) + taken
    {
      ghost var taken: nat :| taken <= |data|;
      var refused: bool := *;
      if reset {
        wire, ended := wire + data[..taken], Interrupted;
      } else if refused && !sound {
        wire, ended := wire + data[..taken], Refused;
      } else {
        wire, ended := wire + data, Done;
      }
    }

    /** `write`: takes some bytes, at least one when there is one, or fails taking none. */
    method Write(data: Binary, reset: bool) returns (ended: Ended, n: nat)
      modifies this`wire
      ensures ended.Interrupted? <==> reset
      ensures ended.Refused? ==> !sound
      ensures ended.Done? ==> n <= |data| && (data != [] ==> n > 0) && wire == old(wire) + data[..n]
      ensures !ended.Done? ==> wire == old(wire)
    {
      n := 0;
      var refused: bool := *;
      if reset {
        ended := Interrupted;
      } else if refused && !sound {
        ended := Refused;
      } else {
        ended := Done;
        if data != [] {
          n :| 1 <= n <= |data|;
        }
        wire := wire + data[..n];
      }
    }
  }

  /** The two kinds of `peer_aborted` have their own messages. */
  datatype Sent = Count(n: nat) | SendFailed | WasReset | Rejected

  lemma OneChunkMore(chunks: nat, chunkSize: nat)
    ensures (chunks + 1) * chunkSize == chunks * chunkSize + chunkSize
  {
  }

  lemma ChunksFit(fewer: nat, more: nat, chunkSize: nat)
    requires fewer <= more
    ensures fewer * chunkSize <= more * chunkSize
  {
    assert more * chunkSize == fewer * chunkSize + (more - fewer) * chunkSize;
  }

  /** The body of the operation. `calm` is how many calls on the transport go by before a
      reset arrives, in the middle of the next one if there is one. */
  method Send(stream: SendStream, data: Binary, sendAll: bool, chunkSize: nat, calm: nat) returns (sent: Sent)
    modifies stream`wire
    ensures sent.Rejected? <==> data == [] || chunkSize == 0
    ensures sent.Rejected? ==> stream.wire == old(stream.wire)
    ensures sent.SendFailed? ==> !stream.sound
    ensures sent.WasReset? ==> if sendAll then calm * chunkSize < |data| else calm == 0
    ensures sent.Count? ==> if sendAll then |data| <= calm * chunkSize else calm > 0
    ensures sent.WasReset? && sendAll ==>
              exists taken :: taken <= data && stream.wire == old(stream.wire) + taken
                              && calm * chunkSize <= |taken| <= calm * chunkSize + chunkSize
    ensures sent.Count? && sendAll ==> sent.n == |data| && stream.wire == old(stream.wire) + data
    ensures sent.Count? && !sendAll ==>
              1 <= sent.n <= Min(chunkSize, |data|) && stream.wire == old(stream.wire) + data[..sent.n]
    ensures exists taken :: taken <= data && stream.wire == old(stream.wire) + taken
  {
    ghost var start := stream.wire;
    assert start == start + data[..0];
    if data == [] || chunkSize == 0 {
      return Rejected;
    }
    if sendAll {
      var written: nat, quiet: nat := 0, calm;
      while written < |data|
        invariant written <= |data|
        invariant stream.wire == start + data[..written]
        invariant quiet <= calm && written <= (calm - quiet) * chunkSize
        invariant written < |data| ==> written == (calm - quiet) * chunkSize
      {
        var end := Min(written + chunkSize, |data|);
        var chunk := data[written..end];
        var ended := stream.WriteAll(chunk, quiet == 0);
        if !ended.Done? {
          ghost var taken :| taken <= chunk && stream.wire == start + data[..written] + taken;
          assert data[..written] + taken == data[..written + |taken|];
          Assoc(start, data[..written], taken);
          return if ended.Refused? then SendFailed else WasReset;
        }
        assert data[..written] + chunk == data[..end];
        Assoc(start, data[..written], chunk);
        OneChunkMore(calm - quiet, chunkSize);
        written, quiet := end, quiet - 1;
      }
      assert data[..written] == data;
      ChunksFit(calm - quiet, calm, chunkSize);
      sent := Count(|data|);
    } else {
      var end := Min(chunkSize, |data|);
      var ended, n := stream.Write(data[..end], calm == 0);
      if !ended.Done? {
        return if ended.Refused? then SendFailed else WasReset;
      }
      assert data[..end][..n] == data[..n];
      sent := Count(n);
    }
  }

  const IODATA_CHUNK: nat := 64 * 1024
  const MAX_IODATA: nat := 64 * 1024 * 1024 + 4

  /** The sizes `send_iodata` accepts. */
  predicate Sizes(data: Binary, expectedSize: nat, maxBytes: nat) {
    |data| == expectedSize && 0 < expectedSize <= maxBytes <= MAX_IODATA
  }

  /** `send_iodata` of `lib/iroh_beam/distribution/io.ex`: it succeeds only when the declared
      size was written whole, and does so unless a size is wrong, the transport refuses or the
      half is reset first. */
  method SendIoData(stream: SendStream, data: Binary, expectedSize: nat, maxBytes: nat, calm: nat) returns (ok: bool)
    modifies stream`wire
    ensures ok ==> Sizes(data, expectedSize, maxBytes) && stream.wire == old(stream.wire) + data
    ensures ok ==> |data| <= calm * IODATA_CHUNK
    ensures Sizes(data, expectedSize, maxBytes) && stream.sound && |data| <= calm * IODATA_CHUNK ==> ok
    ensures exists taken :: taken <= data && stream.wire == old(stream.wire) + taken
  {
    assert stream.wire == stream.wire + data[..0];
    if expectedSize == 0 || expectedSize > maxBytes || maxBytes == 0 || maxBytes > MAX_IODATA
       || |data| != expectedSize
    {
      return false;
    }
    var sent := Send(stream, data, true, IODATA_CHUNK, calm);
    ok := sent == Count(expectedSize);
  }
}
