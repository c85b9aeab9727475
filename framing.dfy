/**
 * The ARDOP data-channel framing used by hamChat: a 2-byte big-endian length,
 * the mode tag `FEC`, then the payload bytes. Outbound payloads are cut into
 * chunks of at most 1000 bytes, one frame each; inbound chunks have their
 * length and tag stripped and are concatenated until a body ends with `:END:`.
 */
module Framing {
  import opened Wrappers
  import opened Seqs
  import opened Utf8

  /** Bytes per outbound chunk. */
  const ChunkSize: nat := 1000

  /** `b'FEC'`, `b'FECFEC'`, `b'ERR'` and the payload footer `b':END:'`. */
  const Fec: seq<byte> := [0x46, 0x45, 0x43]
  const FecFec: seq<byte> := [0x46, 0x45, 0x43, 0x46, 0x45, 0x43]
  const Err: seq<byte> := [0x45, 0x52, 0x52]
  const End: seq<byte> := [0x3A, 0x45, 0x4E, 0x44, 0x3A]

  lemma TagsAreAscii()
    ensures Encode("FEC") == Fec && Encode("ERR") == Err && Encode(":END:") == End
    ensures FecFec == Fec + Fec
  {
  }

  /** `int.from_bytes(b, 'big')` */
  function FromBigEndian(b: seq<byte>): nat {
    if b == [] then 0 else FromBigEndian(b[..|b| - 1]) * 256 + b[|b| - 1] as nat
  }

  /** `n.to_bytes(2, 'big')` for an `n` that fits; Python raises OverflowError otherwise. */
  function BigEndian2(n: nat): (r: seq<byte>)
    requires n < 65536
    ensures |r| == 2 && FromBigEndian(r) == n
  {
    var r := [(n / 256) as byte, (n % 256) as byte];
    assert r[..1] == [r[0]] && [r[0]][..0] == [];
    assert FromBigEndian([r[0]]) == r[0] as nat;
    r
  }

  /** One data-channel frame: length of tag plus chunk, the tag, the chunk. */
  function Frame(chunk: seq<byte>): seq<byte>
    requires |chunk| + 3 < 65536
  {
    BigEndian2(|chunk| + 3) + Fec + chunk
  }

  /** A frame is five bytes longer than its chunk, declares the chunk length plus three, carries the tag, and ends with the chunk. */
  lemma FrameLayout(chunk: seq<byte>)
    requires |chunk| + 3 < 65536
    ensures |Frame(chunk)| == |chunk| + 5
    ensures FromBigEndian(Frame(chunk)[..2]) == |chunk| + 3
    ensures Frame(chunk)[2..5] == Fec && Frame(chunk)[5..] == chunk
  {
    assert Frame(chunk)[..2] == BigEndian2(|chunk| + 3);
  }

  /** `data[i:i+1000]` for `i` in `range(0, len(data), 1000)`. */
  function Chunks(data: seq<byte>): seq<seq<byte>>
    decreases |data|
  {
    if data == [] then []
    else if |data| <= ChunkSize then [data]
    else [data[..ChunkSize]] + Chunks(data[ChunkSize..])
  }

  /** The frames `append_bytes_to_buffer` sends for `data`, one per chunk, in order. */
  function Frames(data: seq<byte>): seq<seq<byte>>
    decreases |data|
  {
    if data == [] then []
    else if |data| <= ChunkSize then [Frame(data)]
    else [Frame(data[..ChunkSize])] + Frames(data[ChunkSize..])
  }

  /** The chunks number ceil(len/1000), none is empty, all but the last hold exactly 1000 bytes, and together they are the data. */
  lemma {:induction false} ChunksShape(data: seq<byte>)
    ensures |Chunks(data)| == (|data| + ChunkSize - 1) / ChunkSize
    ensures forall k :: 0 <= k < |Chunks(data)| ==> 0 < |Chunks(data)[k]| <= ChunkSize
    ensures forall k :: 0 <= k < |Chunks(data)| - 1 ==> |Chunks(data)[k]| == ChunkSize
    ensures Flatten(Chunks(data)) == data
    decreases |data|
  {
    if |data| > ChunkSize {
      var rest := data[ChunkSize..];
      ChunksShape(rest);
      assert Chunks(data)[1..] == Chunks(rest);
      assert data == data[..ChunkSize] + rest;
    }
  }

  /** Frame `k` is the frame of chunk `k`: nothing is sent for empty data. */
  lemma {:induction false} FramesOfChunks(data: seq<byte>)
    ensures |Frames(data)| == |Chunks(data)|
    ensures forall k :: 0 <= k < |Chunks(data)| ==>
      |Chunks(data)[k]| <= ChunkSize && Frames(data)[k] == Frame(Chunks(data)[k])
    decreases |data|
  {
    ChunksShape(data);
    if |data| > ChunkSize {
      FramesOfChunks(data[ChunkSize..]);
    }
  }

  /** Every frame declares at most 1003 bytes and is at most 1005 bytes long. */
  lemma FrameBounds(data: seq<byte>)
    ensures forall k :: 0 <= k < |Frames(data)| ==>
      5 < |Frames(data)[k]| <= ChunkSize + 5 && FromBigEndian(Frames(data)[k][..2]) <= ChunkSize + 3
  {
    FramesOfChunks(data);
    ChunksShape(data);
    forall k | 0 <= k < |Frames(data)|
      ensures 5 < |Frames(data)[k]| <= ChunkSize + 5 && FromBigEndian(Frames(data)[k][..2]) <= ChunkSize + 3
    {
      FrameLayout(Chunks(data)[k]);
    }
  }

  /** Concatenation of every frame with its first five bytes (length and tag) dropped. */
  function StripHeaders(frames: seq<seq<byte>>): seq<byte> {
    if frames == [] then [] else Drop(frames[0], 5) + StripHeaders(frames[1..])
  }

  /** Dropping the length and tag from each emitted frame and concatenating in order gives the data back. */
  lemma {:induction false} StripHeadersOfFrames(data: seq<byte>)
    ensures StripHeaders(Frames(data)) == data
    decreases |data|
  {
    if data != [] {
      var n := if |data| <= ChunkSize then |data| else ChunkSize;
      FrameLayout(data[..n]);
      if |data| > ChunkSize {
        StripHeadersOfFrames(data[ChunkSize..]);
        assert Frames(data)[1..] == Frames(data[ChunkSize..]);
        assert data == data[..ChunkSize] + data[ChunkSize..];
      } else {
        assert data[..n] == data;
      }
    }
  }

  // ---------------------------------------------------------------------------
  // Inbound reassembly (on_get_data)

  /** What one received chunk contributes: its bytes after the 2 length bytes and the tag; None for an `ERR` chunk. */
  function ChunkBody(raw: seq<byte>): Option<seq<byte>> {
    var r := Drop(raw, 2);
    if StartsWith(r, FecFec) then Some(r[6..])
    else if StartsWith(r, Fec) then Some(r[3..])
    else if StartsWith(r, Err) then None
    else Some(r)
  }

  /** A body that ends reassembly. */
  predicate IsLast(body: seq<byte>) {
    EndsWith(body, End)
  }

  /** The payload assembled from the chunks received before the timeout: bodies in order, up to and including the first that ends with `:END:`. */
  function Reassemble(received: seq<seq<byte>>): seq<byte> {
    if received == [] then []
    else match ChunkBody(received[0])
      case None => Reassemble(received[1..])
      case Some(body) => if IsLast(body) then body else body + Reassemble(received[1..])
  }

  /** The chunk is accepted and ends reassembly. */
  predicate Terminates(raw: seq<byte>) {
    ChunkBody(raw).Some? && IsLast(ChunkBody(raw).value)
  }

  /** Some chunk among these ends reassembly. */
  predicate Terminated(received: seq<seq<byte>>) {
    exists k :: 0 <= k < |received| && Terminates(received[k])
  }

  /** An `ERR` chunk, wherever it arrives, leaves the payload exactly as it would be without it. */
  lemma {:induction false} ErrChunkIgnored(before: seq<seq<byte>>, err: seq<byte>, after: seq<seq<byte>>)
    requires ChunkBody(err).None?
    ensures Reassemble(before + [err] + after) == Reassemble(before + after)
  {
    if before == [] {
      assert ([err] + after)[0] == err && ([err] + after)[1..] == after;
      assert before + [err] + after == [err] + after && before + after == after;
    } else {
      assert (before + [err] + after)[0] == before[0];
      assert (before + [err] + after)[1..] == before[1..] + [err] + after;
      assert (before + after)[0] == before[0];
      assert (before + after)[1..] == before[1..] + after;
      ErrChunkIgnored(before[1..], err, after);
    }
  }

  /** Chunks that arrive after the terminating one are never read into the payload. */
  lemma {:induction false} StopsAtTerminator(received: seq<seq<byte>>, later: seq<seq<byte>>)
    requires Terminated(received)
    ensures Reassemble(received + later) == Reassemble(received)
  {
    assert (received + later)[0] == received[0];
    assert (received + later)[1..] == received[1..] + later;
    if !Terminates(received[0]) {
      var k :| 0 <= k < |received| && Terminates(received[k]);
      assert k > 0 && received[1..][k - 1] == received[k];
      StopsAtTerminator(received[1..], later);
    }
  }

  /** Without a terminator, reassembly reads every chunk and goes on into what follows. */
  lemma {:induction false} ContinuesWithoutTerminator(received: seq<seq<byte>>, later: seq<seq<byte>>)
    requires !Terminated(received)
    ensures Reassemble(received + later) == Reassemble(received) + Reassemble(later)
  {
    if received == [] {
      assert received + later == later;
    } else {
      assert (received + later)[0] == received[0];
      assert (received + later)[1..] == received[1..] + later;
      assert !Terminated(received[1..]) by {
        forall k | 0 <= k < |received[1..]| ensures !Terminates(received[1..][k]) {
          assert received[1..][k] == received[k + 1];
        }
      }
      assert !Terminates(received[0]);
      ContinuesWithoutTerminator(received[1..], later);
    }
  }

  /** A frame of a chunk that does not itself begin with `FEC` gives the chunk back. */
  lemma ChunkBodyOfFrame(chunk: seq<byte>)
    requires |chunk| <= ChunkSize
    requires !StartsWith(chunk, Fec)
    ensures ChunkBody(Frame(chunk)) == Some(chunk)
  {
    var r := Drop(Frame(chunk), 2);
    assert r == Fec + chunk;
    assert !StartsWith(r, FecFec) by {
      if |r| >= 6 {
        assert r[3..6] == chunk[..3];
      }
    }
  }

  /** The modem hands the first frame of a series over with the tag twice (`FECFEC`). */
  function DoubledTag(frame: seq<byte>): seq<byte>
    requires |frame| >= 2
  {
    frame[..2] + Fec + frame[2..]
  }

  /** With the doubled tag, the first chunk comes back intact whatever its bytes are. */
  lemma ChunkBodyOfDoubledFrame(chunk: seq<byte>)
    requires |chunk| <= ChunkSize
    ensures ChunkBody(DoubledTag(Frame(chunk))) == Some(chunk)
  {
    var r := Drop(DoubledTag(Frame(chunk)), 2);
    assert r == FecFec + chunk;
  }

  /** The data can be sent and reassembled unchanged: no chunk starts with `FEC`, and only the last may end with `:END:`. */
  predicate Reassemblable(data: seq<byte>) {
    var cs := Chunks(data);
    && (forall k :: 0 <= k < |cs| ==> !StartsWith(cs[k], Fec))
    && (forall k :: 0 <= k < |cs| - 1 ==> !IsLast(cs[k]))
  }

  /** Frames received one per read, in the order sent, reassemble to exactly the data. */
  lemma {:induction false} RoundTrip(data: seq<byte>)
    requires Reassemblable(data)
    ensures Reassemble(Frames(data)) == data
    decreases |data|
  {
    ChunksShape(data);
    if |data| > ChunkSize {
      var head, rest := data[..ChunkSize], data[ChunkSize..];
      assert Chunks(data)[0] == head;
      assert Chunks(data)[1..] == Chunks(rest);
      ChunkBodyOfFrame(head);
      assert !IsLast(head);
      assert Reassemblable(rest) by {
        forall k | 0 <= k < |Chunks(rest)| ensures !StartsWith(Chunks(rest)[k], Fec) {
          assert Chunks(rest)[k] == Chunks(data)[k + 1];
        }
        forall k | 0 <= k < |Chunks(rest)| - 1 ensures !IsLast(Chunks(rest)[k]) {
          assert Chunks(rest)[k] == Chunks(data)[k + 1];
        }
      }
      RoundTrip(rest);
      assert Frames(data)[1..] == Frames(rest);
      assert data == head + rest;
    } else if data != [] {
      assert Chunks(data)[0] == data;
      ChunkBodyOfFrame(data);
    }
  }

  /** The same holds when the modem delivers the first frame with the doubled tag. */
  lemma RoundTripDoubledFirst(data: seq<byte>)
    requires data != [] && Reassemblable(data)
    ensures |Frames(data)| > 0 && |Frames(data)[0]| >= 2
    ensures Reassemble([DoubledTag(Frames(data)[0])] + Frames(data)[1..]) == data
  {
    var fs := Frames(data);
    FramesOfChunks(data);
    ChunksShape(data);
    var c0 := Chunks(data)[0];
    ChunkBodyOfDoubledFrame(c0);
    ChunkBodyOfFrame(c0);
    RoundTrip(data);
    assert fs[0] == Frame(c0);
    FrameLayout(c0);
    var gs := [DoubledTag(fs[0])] + fs[1..];
    assert gs[0] == DoubledTag(fs[0]) && gs[1..] == fs[1..];
    assert Reassemble(fs) == (if IsLast(c0) then c0 else c0 + Reassemble(fs[1..]));
    assert Reassemble(gs) == (if IsLast(c0) then c0 else c0 + Reassemble(fs[1..]));
    assert Reassemble(gs) == data;
  }

  /** A chunk that itself begins with `FEC` and is not first loses those three bytes: the receiver takes `FECFEC` for the doubled tag. */
  lemma ChunkStartingWithTagIsCut(chunk: seq<byte>)
    requires |chunk| <= ChunkSize && StartsWith(chunk, Fec)
    ensures ChunkBody(Frame(chunk)) == Some(chunk[3..])
  {
    var r := Drop(Frame(chunk), 2);
    assert r == Fec + chunk;
    assert r[..6] == Fec + chunk[..3] == FecFec;
    assert r[6..] == chunk[3..];
  }

  /** `:END:` split across two chunks does not end reassembly: the next chunk is still read. */
  lemma SplitFooterDoesNotEnd()
    ensures Reassemble([Frame([0x68, 0x69, 0x3A, 0x45, 0x4E]), Frame([0x44, 0x3A]), Frame([0x78])])
            == [0x68, 0x69, 0x3A, 0x45, 0x4E, 0x44, 0x3A, 0x78]
  {
    var a: seq<byte>, b: seq<byte>, c: seq<byte> := [0x68, 0x69, 0x3A, 0x45, 0x4E], [0x44, 0x3A], [0x78];
    assert a[..3][0] != Fec[0];
    ChunkBodyOfFrame(a);
    ChunkBodyOfFrame(b);
    ChunkBodyOfFrame(c);
    assert !IsLast(a) && !IsLast(b) && !IsLast(c);
    var rs := [Frame(a), Frame(b), Frame(c)];
    assert rs[1..] == [Frame(b), Frame(c)];
    assert rs[1..][1..] == [Frame(c)];
  }

  // ---------------------------------------------------------------------------
  // Single-frame senders and receivers

  /** Why a frame was not produced: over the caller's cap, or a length `to_bytes(2, 'big')` cannot hold. */
  datatype SendError = TooLong | Overflow

  /**
   * `send_text_to_buffer` as written: refused when `'FEC' + message` has more
   * than `cap` characters; otherwise the 2-byte count of those CHARACTERS
   * followed by their UTF-8 bytes.
   */
  function TextFrameAsWritten(message: string, cap: nat): (r: Result<seq<byte>, SendError>)
    ensures r.Failure? <==> |message| + 3 > cap || |message| + 3 >= 65536
    ensures r.Success? ==> |r.value| >= 2 && FromBigEndian(r.value[..2]) == |message| + 3 && r.value[2..] == Encode("FEC" + message)
  {
    var data := "FEC" + message;
    if |data| > cap then Failure(TooLong)
    else if |data| >= 65536 then Failure(Overflow)
    else
      var r := BigEndian2(|data|) + Encode(data);
      assert r[..2] == BigEndian2(|data|);
      Success(r)
  }

  /** The caps the modems use (1000 and 2000 characters) make the OverflowError branch unreachable. */
  lemma TextOverflowUnreachable(message: string, cap: nat)
    requires cap <= 65532
    ensures TextFrameAsWritten(message, cap) != Failure(Overflow)
    ensures TextFrame(message, cap) != Failure(Overflow)
  {
  }

  /** For ASCII text the declared length is the number of bytes that follow it. */
  lemma TextFrameAsciiLength(message: string, cap: nat)
    requires IsAscii(message) && TextFrameAsWritten(message, cap).Success?
    ensures var f := TextFrameAsWritten(message, cap).value; FromBigEndian(f[..2]) == |f| - 2
  {
    assert IsAscii("FEC" + message);
    EncodeAscii("FEC" + message);
  }

  /** With one non-ASCII character the declared length falls short of the bytes that follow it. */
  lemma TextFrameUndercounts(message: string, cap: nat, i: nat)
    requires i < |message| && message[i] as int >= 0x80 && TextFrameAsWritten(message, cap).Success?
    ensures var f := TextFrameAsWritten(message, cap).value; FromBigEndian(f[..2]) < |f| - 2
  {
    assert ("FEC" + message)[i + 3] == message[i];
    EncodeLonger("FEC" + message, i + 3);
  }

  /** The two-character message "é" is declared as 4 bytes but sent as 5. */
  lemma TextFrameUndercountExample()
    ensures TextFrameAsWritten("\U{e9}", 1000).Success?
    ensures var f := TextFrameAsWritten("\U{e9}", 1000).value; FromBigEndian(f[..2]) == 4 && |f| - 2 == 5
  {
    var f := TextFrameAsWritten("\U{e9}", 1000).value;
    assert EncodeChar('\U{e9}') == [0xC3, 0xA9];
    assert Encode("\U{e9}") == [0xC3, 0xA9];
    TagsAreAscii();
    EncodeAppend("FEC", "\U{e9}");
    assert |Encode("FEC" + "\U{e9}")| == 5;
    assert |f| == 7;
  }

  /**
   * The text frame with the length counted in bytes, as the data port reads
   * it: refused when the bytes of `'FEC' + message` exceed `cap`.
   */
  function TextFrame(message: string, cap: nat): (r: Result<seq<byte>, SendError>)
    ensures r.Failure? <==> |Encode("FEC" + message)| > cap || |Encode("FEC" + message)| >= 65536
    ensures r.Success? ==> |r.value| >= 2 && FromBigEndian(r.value[..2]) == |r.value| - 2 && r.value[2..] == Encode("FEC" + message)
  {
    var data := Encode("FEC" + message);
    if |data| > cap then Failure(TooLong)
    else if |data| >= 65536 then Failure(Overflow)
    else
      var r := BigEndian2(|data|) + data;
      assert r[..2] == BigEndian2(|data|);
      Success(r)
  }

  /** A text frame is the data frame of the message's UTF-8 bytes, and the receivers read the message back from it. */
  lemma TextFrameIsFrame(message: string, cap: nat)
    requires TextFrame(message, cap).Success?
    ensures |Encode(message)| + 3 < 65536
    ensures TextFrame(message, cap).value == Frame(Encode(message))
    ensures Decode(Drop(TextFrame(message, cap).value, 5)) == Some(message)
  {
    var m := Encode(message);
    var data := Encode("FEC" + message);
    TaggedText(message);
    assert data == Fec + m;
    assert TextFrame(message, cap).value == BigEndian2(|data|) + data;
    assert TextFrame(message, cap).value == Frame(m);
    FrameLayout(m);
    assert Drop(Frame(m), 5) == m;
    DecodeEncode(message);
  }

  lemma TaggedText(message: string)
    ensures Encode("FEC" + message) == Fec + Encode(message)
  {
    EncodeAppend("FEC", message);
    TagsAreAscii();
  }

  /** For ASCII text the corrected frame is the frame written before. */
  lemma TextFrameAgreesOnAscii(message: string, cap: nat)
    requires IsAscii(message)
    ensures TextFrame(message, cap) == TextFrameAsWritten(message, cap)
  {
    assert IsAscii("FEC" + message);
    EncodeAscii("FEC" + message);
  }

  /** `append_bytes_to_buffer` of the standalone modem: one frame for the whole payload; Python raises OverflowError above 65532 bytes. */
  function SingleFrame(data: seq<byte>): (r: Result<seq<byte>, SendError>)
    ensures r.Failure? <==> |data| > 65532
    ensures r.Success? ==> r.value == Frame(data)
  {
    if |data| + 3 >= 65536 then Failure(Overflow) else Success(Frame(data))
  }

  /** The leading `min(2, len)` bytes, `raw[:2]`. */
  function LengthField(raw: seq<byte>): (r: seq<byte>)
    ensures |r| <= 2 && StartsWith(raw, r)
  {
    if |raw| <= 2 then raw else raw[..2]
  }

  /** What the standalone modem's receiver returns for one read, and whether it warned about the declared length. */
  datatype Received = Received(payload: seq<byte>, lengthWarning: bool)

  /**
   * `recieve_from_data_buffer` of the standalone modem: None when nothing was
   * readable; otherwise always the bytes after the first eight, with a warning
   * exactly when the declared length differs from what follows it.
   */
  function ReceiveFixed(raw: Option<seq<byte>>): (r: Option<Received>)
    ensures r.None? <==> raw.None?
    ensures r.Some? ==> r.value.payload == Drop(raw.value, 8)
    ensures r.Some? ==> (r.value.lengthWarning <==> FromBigEndian(LengthField(raw.value)) != |Drop(raw.value, 2)|)
  {
    match raw
    case None => None
    case Some(b) =>
      Some(Received(Drop(Drop(b, 2), 6), FromBigEndian(LengthField(b)) != |Drop(b, 2)|))
  }

  /** A single frame delivered with the doubled tag is read back as the payload it carried. */
  lemma ReceiveFixedOfDoubledFrame(data: seq<byte>)
    requires SingleFrame(data).Success?
    ensures ReceiveFixed(Some(DoubledTag(SingleFrame(data).value))).value.payload == data
  {
    FrameLayout(data);
    var d := DoubledTag(Frame(data));
    assert d == Frame(data)[..2] + FecFec + data;
    assert Drop(Drop(d, 2), 6) == data;
  }
}
