/**
 * demultiplexLogs of internal/executor/docker_client.go: Docker's multiplexed log stream is a list
 * of frames, each an 8-byte header (stream, three reserved bytes, big-endian size) and a payload.
 * The encoder is the specification.
 */
module LogDemux {

  newtype byte = b: int | 0 <= b < 256

  const HEADER := 8
  const SIZE_LIMIT := 0x1_0000_0000

  datatype Frame = Frame(stream: byte, reserved: (byte, byte, byte), payload: seq<byte>)
  {
    /** The payload's length fits the four size bytes. */
    predicate Encodable() {
      |payload| < SIZE_LIMIT
    }
  }

  function BigEndian(n: nat): (bytes: seq<byte>)
    requires n < SIZE_LIMIT
    ensures |bytes| == 4
  {
    [(n / 0x100_0000) as byte, (n / 0x1_0000 % 0x100) as byte, (n / 0x100 % 0x100) as byte, (n % 0x100) as byte]
  }

  /** int(b4)<<24 | int(b5)<<16 | int(b6)<<8 | int(b7): the shifted bytes do not overlap, so | is +. */
  function FromBigEndian(a: byte, b: byte, c: byte, d: byte): (n: nat)
    ensures n < SIZE_LIMIT
  {
    a as nat * 0x100_0000 + b as nat * 0x1_0000 + c as nat * 0x100 + d as nat
  }

  lemma OrOfShiftedBytesIsSum(a: bv64, b: bv64, c: bv64, d: bv64)
    requires a < 256 && b < 256 && c < 256 && d < 256
    ensures (a << 24) | (b << 16) | (c << 8) | d == (a << 24) + (b << 16) + (c << 8) + d
  {
  }

  function EncodeFrame(f: Frame): (bytes: seq<byte>)
    requires f.Encodable()
    ensures |bytes| == HEADER + |f.payload|
  {
    [f.stream, f.reserved.0, f.reserved.1, f.reserved.2] + BigEndian(|f.payload|) + f.payload
  }

  function Encode(frames: seq<Frame>): seq<byte>
    requires forall f <- frames :: f.Encodable()
  {
    if frames == [] then [] else EncodeFrame(frames[0]) + Encode(frames[1..])
  }

  /** In-order concatenation of the payloads of one stream. */
  function Payloads(frames: seq<Frame>, stream: byte): seq<byte> {
    if frames == [] then []
    else (if frames[0].stream == stream then frames[0].payload else []) + Payloads(frames[1..], stream)
  }

  /** The size the header at position i announces. */
  function SizeAt(data: seq<byte>, i: nat): nat
    requires i + HEADER <= |data|
  {
    FromBigEndian(data[i + 4], data[i + 5], data[i + 6], data[i + 7])
  }

  /** A complete frame starts at position i. */
  predicate FrameAt(data: seq<byte>, i: nat) {
    i + HEADER <= |data| && i + HEADER + SizeAt(data, i) <= |data|
  }

  function EndAt(data: seq<byte>, i: nat): (end: nat)
    requires FrameAt(data, i)
    ensures i + HEADER <= end <= |data|
  {
    i + HEADER + SizeAt(data, i)
  }

  function FrameOf(data: seq<byte>, i: nat): (f: Frame)
    requires FrameAt(data, i)
    ensures f.Encodable()
  {
    Frame(data[i], (data[i + 1], data[i + 2], data[i + 3]), data[i + HEADER..EndAt(data, i)])
  }

  /** The maximal run of complete frames from position i on. */
  function FramesFrom(data: seq<byte>, i: nat): (frames: seq<Frame>)
    requires i <= |data|
    ensures forall f <- frames :: f.Encodable()
    decreases |data| - i
  {
    if !FrameAt(data, i) then []
    else
      [FrameOf(data, i)] + FramesFrom(data, EndAt(data, i))
  }

  function Frames(data: seq<byte>): (frames: seq<Frame>)
    ensures forall f <- frames :: f.Encodable()
  {
    FramesFrom(data, 0)
  }

  lemma {:induction false} PayloadsAppend(xs: seq<Frame>, ys: seq<Frame>, stream: byte)
    ensures Payloads(xs + ys, stream) == Payloads(xs, stream) + Payloads(ys, stream)
  {
    if xs == [] {
      assert xs + ys == ys;
    } else {
      assert (xs + ys)[1..] == xs[1..] + ys;
      PayloadsAppend(xs[1..], ys, stream);
    }
  }

  lemma {:induction false} FramesFromUnfold(data: seq<byte>, i: nat)
    requires FrameAt(data, i)
    ensures FramesFrom(data, i) == [FrameOf(data, i)] + FramesFrom(data, EndAt(data, i))
  {
  }

  /** What one round of the loop adds to the output of a stream. */
  lemma {:induction false} Advance(data: seq<byte>, i: nat, stream: byte, built: seq<byte>)
    requires FrameAt(data, i)
    ensures built + Payloads(FramesFrom(data, i), stream)
         == (if data[i] == stream then built + data[i + HEADER..EndAt(data, i)] else built)
            + Payloads(FramesFrom(data, EndAt(data, i)), stream)
  {
    FramesFromUnfold(data, i);
    assert FramesFrom(data, i)[1..] == FramesFrom(data, EndAt(data, i));
  }

  /** The loop of demultiplexLogs; its two string builders grow by one payload a round. */
  method DemultiplexLogs(logData: seq<byte>) returns (stdout: seq<byte>, stderr: seq<byte>)
    ensures stdout == Payloads(Frames(logData), 1)
    ensures stderr == Payloads(Frames(logData), 2)
  {
    stdout, stderr := [], [];
    var i := 0;
    while i < |logData|
      invariant 0 <= i <= |logData|
      invariant stdout + Payloads(FramesFrom(logData, i), 1) == Payloads(Frames(logData), 1)
      invariant stderr + Payloads(FramesFrom(logData, i), 2) == Payloads(Frames(logData), 2)
      decreases |logData| - i
    {
      if i + 8 > |logData| {
        break;
      }
      var streamType := logData[i];
      var size := FromBigEndian(logData[i + 4], logData[i + 5], logData[i + 6], logData[i + 7]);
      var dataStart := i + 8;
      var dataEnd := dataStart + size;
      if dataEnd > |logData| {
        break;
      }
      var data := logData[dataStart..dataEnd];
      Advance(logData, i, 1, stdout);
      Advance(logData, i, 2, stderr);
      if streamType == 1 {
        stdout := stdout + data;
      } else if streamType == 2 {
        stderr := stderr + data;
      }
      i := dataEnd;
    }
    assert FramesFrom(logData, i) == [];
  }

  // ----- Round trip -----

  lemma BigEndianRoundTrip(n: nat)
    requires n < SIZE_LIMIT
    ensures
      var b := BigEndian(n);
      FromBigEndian(b[0], b[1], b[2], b[3]) == n
  {
    assert n / 0x1_0000 == n / 0x100_0000 * 0x100 + n / 0x1_0000 % 0x100;
    assert n / 0x100 == n / 0x1_0000 * 0x100 + n / 0x100 % 0x100;
  }

  lemma BigEndianOfBytes(a: byte, b: byte, c: byte, d: byte)
    ensures BigEndian(FromBigEndian(a, b, c, d)) == [a, b, c, d]
  {
    var n := FromBigEndian(a, b, c, d);
    assert n / 0x100 == a as nat * 0x1_0000 + b as nat * 0x100 + c as nat;
    assert n / 0x1_0000 == a as nat * 0x100 + b as nat;
    assert n / 0x100_0000 == a as nat;
  }

  /** Parsing from position j only looks at the bytes from j on. */
  lemma {:induction false} FramesFromIsLocal(data: seq<byte>, i: nat, j: nat)
    requires i <= j <= |data|
    ensures FramesFrom(data, j) == FramesFrom(data[i..], j - i)
    decreases |data| - j
  {
    if FrameAt(data, j) {
      FramesFromIsLocal(data, i, EndAt(data, j));
      FirstThenLocal(data, i, j);
    } else {
      FrameIsLocal(data, i, j);
    }
  }

  lemma {:induction false} FirstThenLocal(data: seq<byte>, i: nat, j: nat)
    requires i <= j && FrameAt(data, j)
    requires FramesFrom(data, EndAt(data, j)) == FramesFrom(data[i..], EndAt(data, j) - i)
    ensures FramesFrom(data, j) == FramesFrom(data[i..], j - i)
  {
    FrameIsLocal(data, i, j);
    SameFrames(data, data[i..], j, j - i);
  }

  /** The same first frame, and the same frames behind it. */
  lemma {:induction false} SameFrames(xs: seq<byte>, ys: seq<byte>, i: nat, j: nat)
    requires FrameAt(xs, i) && FrameAt(ys, j) && FrameOf(xs, i) == FrameOf(ys, j)
    requires FramesFrom(xs, EndAt(xs, i)) == FramesFrom(ys, EndAt(ys, j))
    ensures FramesFrom(xs, i) == FramesFrom(ys, j)
  {
    FramesFromUnfold(xs, i);
    FramesFromUnfold(ys, j);
  }

  lemma {:induction false} FrameIsLocal(data: seq<byte>, i: nat, j: nat)
    requires i <= j <= |data|
    ensures FrameAt(data, j) <==> FrameAt(data[i..], j - i)
    ensures FrameAt(data, j) ==>
              EndAt(data[i..], j - i) == EndAt(data, j) - i && FrameOf(data[i..], j - i) == FrameOf(data, j)
  {
    var tail := data[i..];
    if j + HEADER <= |data| {
      assert SizeAt(data, j) == SizeAt(tail, j - i);
    }
  }

  lemma {:induction false} FirstFrame(f: Frame, tail: seq<byte>)
    requires f.Encodable()
    ensures Frames(EncodeFrame(f) + tail) == [f] + Frames(tail)
  {
    var data := EncodeFrame(f) + tail;
    BigEndianRoundTrip(|f.payload|);
    var end := HEADER + |f.payload|;
    assert SizeAt(data, 0) == |f.payload|;
    assert data[HEADER..end] == f.payload;
    FramesFromIsLocal(data, end, end);
    assert data[end..] == tail;
  }

  lemma {:induction false} FirstOfEncoded(frames: seq<Frame>, tail: seq<byte>)
    requires frames != [] && forall f <- frames :: f.Encodable()
    ensures Frames(Encode(frames) + tail) == [frames[0]] + Frames(Encode(frames[1..]) + tail)
  {
    var first, rest := EncodeFrame(frames[0]), Encode(frames[1..]);
    assert Encode(frames) + tail == first + (rest + tail);
    FirstFrame(frames[0], rest + tail);
  }

  /** Demultiplexing distributes over concatenation at a frame boundary. */
  lemma {:induction false} FramesAfterEncoded(frames: seq<Frame>, tail: seq<byte>)
    requires forall f <- frames :: f.Encodable()
    ensures Frames(Encode(frames) + tail) == frames + Frames(tail)
    decreases |frames|
  {
    if frames == [] {
      assert Encode(frames) + tail == tail && frames + Frames(tail) == Frames(tail);
    } else {
      FramesAfterEncoded(frames[1..], tail);
      FirstOfEncoded(frames, tail);
      assert [frames[0]] + (frames[1..] + Frames(tail)) == frames + Frames(tail);
    }
  }

  /** No complete frame at the start. */
  predicate Incomplete(tail: seq<byte>) {
    !FrameAt(tail, 0)
  }

  /** Demultiplexing undoes multiplexing, for any streams, reserved bytes and encodable payloads. */
  lemma {:induction false} FramesUndoEncode(frames: seq<Frame>)
    requires forall f <- frames :: f.Encodable()
    ensures Frames(Encode(frames)) == frames
  {
    FramesAfterEncoded(frames, []);
    assert Encode(frames) + [] == Encode(frames);
    assert Frames([]) == [];
  }

  /** Every byte string is the encoding of its frames followed by an incomplete rest. */
  lemma {:induction false} EveryStringIsFramesAndRest(data: seq<byte>) returns (rest: seq<byte>)
    ensures data == Encode(Frames(data)) + rest && Incomplete(rest)
    decreases |data|
  {
    if !FrameAt(data, 0) {
      rest := data;
    } else {
      var f := Frames(data)[0];
      var end := HEADER + SizeAt(data, 0);
      BigEndianOfBytes(data[4], data[5], data[6], data[7]);
      assert data == EncodeFrame(f) + data[end..];
      FramesFromIsLocal(data, end, end);
      rest := EveryStringIsFramesAndRest(data[end..]);
      assert Frames(data)[1..] == Frames(data[end..]);
    }
  }

  /** That decomposition is unique: the frames are the maximal run of complete leading frames. */
  lemma {:induction false} FramesAreTheMaximalRun(data: seq<byte>, frames: seq<Frame>, rest: seq<byte>)
    requires forall f <- frames :: f.Encodable()
    ensures data == Encode(frames) + rest && Incomplete(rest) ==> frames == Frames(data)
  {
    if data == Encode(frames) + rest && Incomplete(rest) {
      FramesAfterEncoded(frames, rest);
    }
  }

  /** No frame is complete in a part of one. */
  lemma {:induction false} PartOfFrame(f: Frame, n: nat)
    requires f.Encodable() && n < |EncodeFrame(f)|
    ensures Frames(EncodeFrame(f)[..n]) == []
  {
    var cut := EncodeFrame(f)[..n];
    BigEndianRoundTrip(|f.payload|);
    assert HEADER <= n ==> SizeAt(cut, 0) == |f.payload|;
  }

  lemma {:induction false} EncodePrefix(frames: seq<Frame>, k: nat)
    requires forall f <- frames :: f.Encodable()
    requires 0 < k <= |frames|
    ensures Encode(frames[..k]) == EncodeFrame(frames[0]) + Encode(frames[1..][..k - 1])
  {
    assert frames[..k][1..] == frames[1..][..k - 1];
  }

  /** The k-th frame is the last one whose encoding ends within n bytes. */
  ghost predicate EndsWithin(frames: seq<Frame>, n: nat, k: nat)
    requires forall f <- frames :: f.Encodable()
  {
    && k <= |frames|
    && |Encode(frames[..k])| <= n
    && (k < |frames| ==> n < |Encode(frames[..k + 1])|)
  }

  /** Of n bytes of the encoded frames, exactly the first k frames are complete. */
  ghost predicate CutsTo(frames: seq<Frame>, n: nat, k: nat)
    requires forall f <- frames :: f.Encodable()
    requires n <= |Encode(frames)|
  {
    EndsWithin(frames, n, k) && Frames(Encode(frames)[..n]) == frames[..k]
  }

  lemma {:induction false} EndsBehindFirst(frames: seq<Frame>, n: nat, k: nat)
    requires forall f <- frames :: f.Encodable()
    requires frames != [] && |EncodeFrame(frames[0])| <= n
    requires EndsWithin(frames[1..], n - |EncodeFrame(frames[0])|, k)
    ensures EndsWithin(frames, n, k + 1)
  {
    EncodePrefix(frames, k + 1);
    if k + 1 < |frames| {
      EncodePrefix(frames, k + 2);
    }
  }

  lemma {:induction false} FramesOfCut(frames: seq<Frame>, n: nat)
    requires forall f <- frames :: f.Encodable()
    requires frames != [] && |EncodeFrame(frames[0])| <= n <= |Encode(frames)|
    ensures Frames(Encode(frames)[..n])
         == [frames[0]] + Frames(Encode(frames[1..])[..n - |EncodeFrame(frames[0])|])
  {
    var first, rest := EncodeFrame(frames[0]), Encode(frames[1..]);
    assert Encode(frames)[..n] == first + rest[..n - |first|];
    FirstFrame(frames[0], rest[..n - |first|]);
  }

  lemma {:induction false} CutBehindFirst(frames: seq<Frame>, n: nat, k: nat)
    requires forall f <- frames :: f.Encodable()
    requires frames != [] && |EncodeFrame(frames[0])| <= n <= |Encode(frames)|
    requires CutsTo(frames[1..], n - |EncodeFrame(frames[0])|, k)
    ensures CutsTo(frames, n, k + 1)
  {
    EndsBehindFirst(frames, n, k);
    FramesOfCut(frames, n);
    assert frames[..k + 1] == [frames[0]] + frames[1..][..k];
  }

  /**
   * Truncation: cutting an encoded stream after n bytes yields exactly the first k frames, where the
   * k-th frame is the last one that ends within those n bytes.
   */
  lemma {:induction false} TruncationKeepsCompleteFrames(frames: seq<Frame>, n: nat)
    requires forall f <- frames :: f.Encodable()
    requires n <= |Encode(frames)|
    ensures CutsTo(frames, n, |Frames(Encode(frames)[..n])|)
    decreases |frames|
  {
    if frames == [] {
      assert Frames([]) == [];
    } else if n < |EncodeFrame(frames[0])| {
      assert Encode(frames)[..n] == EncodeFrame(frames[0])[..n];
      PartOfFrame(frames[0], n);
      EncodePrefix(frames, 1);
    } else {
      var m := n - |EncodeFrame(frames[0])|;
      TruncationKeepsCompleteFrames(frames[1..], m);
      CutBehindFirst(frames, n, |Frames(Encode(frames[1..])[..m])|);
    }
  }

  /** What the caller sees: both outputs of an encoded stream, whatever incomplete bytes follow it. */
  lemma {:induction false} OutputsOfEncoded(frames: seq<Frame>, tail: seq<byte>, stream: byte)
    requires forall f <- frames :: f.Encodable()
    ensures Payloads(Frames(Encode(frames) + tail), stream)
         == Payloads(frames, stream) + Payloads(Frames(tail), stream)
  {
    FramesAfterEncoded(frames, tail);
    PayloadsAppend(frames, Frames(tail), stream);
  }
}
