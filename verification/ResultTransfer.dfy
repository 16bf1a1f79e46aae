/**
 The chunked transfer of one bridged result: the sender's loop, the receiver that
 reassembles it on the requesting controller, and the theorems that tie the two.
 */
module ResultTransfer {
  import opened Arithmetic
  import opened Base64
  import opened Options
  import opened Text

  const FRAME_MAX: nat := 1024 * 1024
  const RESULT_MAX: nat := 32 * 1024 * 1024
  const CHUNK: nat := 184320   // 180 KiB
  const CHUNK_FRAME_MAX: nat := 256 * 1024
  const MAX_CHUNKS: nat := 183   // ceil(RESULT_MAX / CHUNK), see MaxChunksIsCeiling

  /** Serialised call ids up to this many bytes always fit into a chunk frame. */
  const SAFE_ID: nat := 16000

  datatype Frame =
    | Result(callId: string, result: Bytes)
    | ResultStart(callId: string, sequence: int, chunkCount: int, byteLength: int, sha256: string,
                  encoding: string, serialization: string)
    | ResultChunk(callId: string, sequence: int, payload: string)
    | ResultEnd(callId: string, chunkCount: int, byteLength: int, sha256: string)

  // ---------------------------------------------------------------------------
  // Frames of a chunked result
  // ---------------------------------------------------------------------------

  /** Where chunk `i` begins: `i * CHUNK`, with the literal so that products stay linear. */
  function Offset(i: int): int {
    184320 * i
  }

  function ChunkCount(result: Bytes): (count: nat)
    ensures |result| <= Offset(count) && (count > 0 ==> Offset(count - 1) < |result|)
  {
    CeilDivBounds(|result|, CHUNK);
    CeilDiv(|result|, CHUNK)
  }

  function Chunk(result: Bytes, i: nat): Bytes
    requires Offset(i) <= |result|
  {
    result[Offset(i)..Min(Offset(i + 1), |result|)]
  }

  lemma ChunkStarts(result: Bytes, i: nat)
    requires i < ChunkCount(result)
    ensures Offset(i) < |result|
  {
  }

  function Payload(result: Bytes, i: nat): string
    requires i < ChunkCount(result)
  {
    ChunkStarts(result, i);
    Encode(Chunk(result, i), false)
  }

  function ChunkFrames(callId: string, result: Bytes, n: nat): seq<Frame>
    requires n <= ChunkCount(result)
  {
    seq(n, i requires 0 <= i < n => ResultChunk(callId, i, Payload(result, i)))
  }

  function StartFrame(callId: string, result: Bytes, digest: string): Frame {
    ResultStart(callId, 0, ChunkCount(result), |result|, digest, "base64", "canonical-json-v1")
  }

  function EndFrame(callId: string, result: Bytes, digest: string): Frame {
    ResultEnd(callId, ChunkCount(result), |result|, digest)
  }

  function ChunkedFrames(callId: string, result: Bytes, digest: string): seq<Frame> {
    [StartFrame(callId, result, digest)]
    + ChunkFrames(callId, result, ChunkCount(result))
    + [EndFrame(callId, result, digest)]
  }

  /** The JSON text of a chunk frame; `idJson` is the serialised call id, quotes included. */
  function ChunkFrameText(idJson: string, sequence: nat, payload: string): string {
    "{\"type\":\"result_chunk\",\"call_id\":" + idJson + ",\"sequence\":" + Decimal(sequence)
    + ",\"payload\":\"" + payload + "\"}"
  }

  predicate Fits(idJson: string, sequence: nat, payload: string) {
    |ChunkFrameText(idJson, sequence, payload)| < CHUNK_FRAME_MAX
  }

  ghost predicate ChunksFit(idJson: string, result: Bytes) {
    forall i: nat :: i < ChunkCount(result) ==> Fits(idJson, i, Payload(result, i))
  }

  // ---------------------------------------------------------------------------
  // Arithmetic bounds
  // ---------------------------------------------------------------------------

  lemma {:induction false} MultiplyBelow(a: nat, b: nat, size: nat)
    ensures a < b ==> a * size <= (b - 1) * size
  {
    if a + 1 < b {
      MultiplyBelow(a, b - 1, size);
      assert (b - 1) * size == (b - 2) * size + size;
    }
  }

  lemma CeilDivUnique(n: nat, size: nat, q: nat)
    requires size > 0 && n <= q * size && (q > 0 ==> (q - 1) * size < n)
    ensures CeilDiv(n, size) == q
  {
    var r := CeilDiv(n, size);
    CeilDivBounds(n, size);
    MultiplyBelow(r, q, size);
    MultiplyBelow(q, r, size);
  }

  lemma MaxChunksIsCeiling()
    ensures CeilDiv(RESULT_MAX, CHUNK) == MAX_CHUNKS
  {
    CeilDivUnique(RESULT_MAX, CHUNK, MAX_CHUNKS);
  }

  /** The explicit chunk-count check of the sender can never fire. */
  lemma ChunkCountBounded(result: Bytes)
    requires |result| <= RESULT_MAX
    ensures ChunkCount(result) <= MAX_CHUNKS
  {
  }

  lemma PayloadLength(result: Bytes, i: nat)
    requires i < ChunkCount(result)
    ensures |Payload(result, i)| <= 4 * 61440
  {
    ChunkStarts(result, i);
    var chunk := Chunk(result, i);
    EncodedLength(chunk, false);
    CeilDivBounds(|chunk|, 3);
    MultiplyBelow(61440, CeilDiv(|chunk|, 3), 3);
  }

  lemma DecimalOfThreeDigits(n: nat)
    requires n < 1000
    ensures |Decimal(n)| <= 3
  {
    assert n >= 10 ==> Decimal(n) == Decimal(n / 10) + [(48 + n % 10) as char];
    assert n >= 100 ==> n / 10 / 10 < 10;
  }

  /** With a call id of at most `SAFE_ID` serialised bytes no chunk frame reaches the ceiling. */
  lemma SafeIdsFit(idJson: string, result: Bytes)
    requires |result| <= RESULT_MAX && |idJson| <= SAFE_ID
    ensures ChunksFit(idJson, result)
  {
    ChunkCountBounded(result);
    forall i: nat | i < ChunkCount(result)
      ensures Fits(idJson, i, Payload(result, i))
    {
      PayloadLength(result, i);
      DecimalOfThreeDigits(i);
    }
  }

  // ---------------------------------------------------------------------------
  // The payloads together are the encoding of the whole
  // ---------------------------------------------------------------------------

  function Payloads(result: Bytes): (payloads: seq<string>)
    ensures |payloads| == ChunkCount(result)
    ensures forall i :: 0 <= i < |payloads| ==> payloads[i] == Payload(result, i)
  {
    seq(ChunkCount(result), i requires 0 <= i < ChunkCount(result) => Payload(result, i))
  }

  function Concat(texts: seq<string>): string {
    if texts == [] then "" else Concat(texts[..|texts| - 1]) + texts[|texts| - 1]
  }

  function Prefix(result: Bytes, n: nat): Bytes {
    result[..Min(Offset(n), |result|)]
  }

  lemma PrefixGrows(result: Bytes, n: nat)
    requires n < ChunkCount(result)
    ensures Offset(n) <= |result|
    ensures Prefix(result, n + 1) == Prefix(result, n) + Chunk(result, n)
    ensures |Prefix(result, n)| == Offset(n)
  {
    ChunkStarts(result, n);
  }

  /** Chunk boundaries fall between base64 quanta. */
  lemma ChunkBoundary(n: nat)
    ensures Offset(n) % 3 == 0
  {
    assert Offset(n) == 3 * (61440 * n);
  }

  lemma PrefixEncodes(result: Bytes, n: nat)
    requires n < ChunkCount(result)
    ensures Encode(Prefix(result, n + 1), false) == Encode(Prefix(result, n), false) + Payload(result, n)
  {
    PrefixGrows(result, n);
    ChunkBoundary(n);
    EncodeConcat(Prefix(result, n), Chunk(result, n), false);
  }

  lemma {:induction false} Telescope(parts: seq<string>, prefixes: seq<string>)
    requires |prefixes| == |parts| + 1 && prefixes[0] == ""
    requires forall i :: 0 <= i < |parts| ==> prefixes[i + 1] == prefixes[i] + parts[i]
    ensures Concat(parts) == prefixes[|parts|]
  {
    if parts != [] {
      var n := |parts|;
      Telescope(parts[..n - 1], prefixes[..n]);
      assert prefixes[n - 1 + 1] == prefixes[n - 1] + parts[n - 1];
    }
  }

  /** Concatenating the payload texts gives the base64 text of the whole result. */
  lemma PayloadsEncodeWhole(result: Bytes)
    ensures Concat(Payloads(result)) == Encode(result, false)
  {
    var n := ChunkCount(result);
    var prefixes := seq(n + 1, i requires 0 <= i <= n => Encode(Prefix(result, i), false));
    forall i | 0 <= i < n ensures prefixes[i + 1] == prefixes[i] + Payloads(result)[i] {
      PrefixEncodes(result, i);
    }
    assert Prefix(result, 0) == [] && Prefix(result, n) == result;
    Telescope(Payloads(result), prefixes);
  }

  // ---------------------------------------------------------------------------
  // The sender
  // ---------------------------------------------------------------------------

  datatype SendOutcome = Sent | ProtocolError(message: string)

  /**
   Sends one result.  `smallFrameBytes` is the size of the unchunked frame as JSON, and
   `digestOf` stands for SHA-256 in hexadecimal.
   */
  method SendResult(callId: string, idJson: string, result: Bytes, smallFrameBytes: nat, negotiated: bool,
                    digestOf: Bytes -> string)
    returns (outcome: SendOutcome, frames: seq<Frame>)
    ensures |result| > RESULT_MAX ==> outcome.ProtocolError? && frames == []
    ensures |result| <= RESULT_MAX && smallFrameBytes <= FRAME_MAX ==>
              outcome == Sent && frames == [Result(callId, result)]
    ensures |result| <= RESULT_MAX && smallFrameBytes > FRAME_MAX && !negotiated ==>
              outcome.ProtocolError? && frames == []
    ensures |result| <= RESULT_MAX && smallFrameBytes > FRAME_MAX && negotiated ==>
              && (outcome == Sent <==> ChunksFit(idJson, result))
              && (outcome == Sent ==> frames == ChunkedFrames(callId, result, digestOf(result)))
              && frames <= ChunkedFrames(callId, result, digestOf(result))
  {
    frames := [];
    if |result| > RESULT_MAX {
      return ProtocolError("Bridge result exceeds maximum size"), [];
    }
    if smallFrameBytes <= FRAME_MAX {
      return Sent, [Result(callId, result)];
    }
    if !negotiated {
      return ProtocolError("Bridge result exceeds maximum frame size without negotiated chunking"), [];
    }
    var digest := digestOf(result);
    var chunkCount := CeilDiv(|result|, CHUNK);
    ChunkCountBounded(result);
    if chunkCount > MAX_CHUNKS {
      return ProtocolError("Bridge result chunk count exceeds maximum"), [];
    }
    var fit, chunks := SendChunks(callId, idJson, result, chunkCount);
    frames := [StartFrame(callId, result, digest)] + chunks;
    if !fit {
      ChunkFramesPrefix(callId, result, |chunks|);
      return ProtocolError("Bridge result chunk frame exceeds safety ceiling"), frames;
    }
    frames := frames + [EndFrame(callId, result, digest)];
    return Sent, frames;
  }

  lemma ChunkFramesPrefix(callId: string, result: Bytes, n: nat)
    requires n <= ChunkCount(result)
    ensures ChunkFrames(callId, result, n) <= ChunkFrames(callId, result, ChunkCount(result))
  {
  }

  /** The chunk loop: stops at the first chunk frame that would reach the ceiling. */
  method SendChunks(callId: string, idJson: string, result: Bytes, chunkCount: nat) returns (fit: bool, frames: seq<Frame>)
    requires chunkCount == ChunkCount(result)
    ensures |frames| <= chunkCount && frames == ChunkFrames(callId, result, |frames|)
    ensures forall i: nat :: i < |frames| ==> Fits(idJson, i, Payload(result, i))
    ensures fit <==> |frames| == chunkCount
    ensures !fit ==> !Fits(idJson, |frames|, Payload(result, |frames|))
  {
    frames := [];
    var sequence := 0;
    while sequence < chunkCount
      invariant 0 <= sequence <= chunkCount && |frames| == sequence
      invariant frames == ChunkFrames(callId, result, sequence)
      invariant forall i: nat :: i < sequence ==> Fits(idJson, i, Payload(result, i))
    {
      ChunkStarts(result, sequence);
      var payload := Encode(result[Offset(sequence)..Min(Offset(sequence + 1), |result|)], false);
      assert payload == Payload(result, sequence);
      if !Fits(idJson, sequence, payload) {
        return false, frames;
      }
      frames := frames + [ResultChunk(callId, sequence, payload)];
      sequence := sequence + 1;
    }
    return true, frames;
  }

  // ---------------------------------------------------------------------------
  // The receiver
  // ---------------------------------------------------------------------------

  datatype Assembly = Assembly(
    chunkCount: int, byteLength: int, sha256: string,
    chunks: seq<Option<Bytes>>, receivedBytes: int, nextSequence: int)

  /** The state of one pending call on the requesting controller. */
  datatype Receiver = Waiting | Assembling(assembly: Assembly) | Failed | Delivered(result: Bytes)

  /** What the receiver cannot compute here: digest, canonical-JSON test, free assembly budget. */
  datatype Context = Context(digestOf: Bytes -> string, canonical: Bytes -> bool, freeBytes: int, freeSlots: int)

  predicate HexDigest(digest: string) {
    |digest| == 64 && forall i :: 0 <= i < |digest| ==> '0' <= digest[i] <= '9' || 'a' <= digest[i] <= 'f'
  }

  predicate GoodStart(frame: Frame, ctx: Context)
    requires frame.ResultStart?
  {
    && 1 <= frame.chunkCount <= MAX_CHUNKS
    && 2 <= frame.byteLength <= RESULT_MAX
    && HexDigest(frame.sha256)
    && frame.sequence == 0 && frame.encoding == "base64" && frame.serialization == "canonical-json-v1"
    && frame.chunkCount == CeilDiv(frame.byteLength, CHUNK)
    && frame.byteLength <= ctx.freeBytes
    && ctx.freeSlots > 0
  }

  function Join(chunks: seq<Option<Bytes>>): Bytes {
    if chunks == [] then []
    else Join(chunks[..|chunks| - 1]) + chunks[|chunks| - 1].GetOr([])
  }

  function ExpectedLength(a: Assembly, sequence: int): int {
    if sequence < a.chunkCount - 1 then CHUNK else a.byteLength - Offset(a.chunkCount - 1)
  }

  function AcceptChunk(a: Assembly, sequence: int, payload: string): Receiver {
    if sequence < 0 || sequence >= a.chunkCount || sequence != a.nextSequence
       || |payload| > 4 * 61440 || sequence >= |a.chunks| then Failed
    else
      var decoded := Decode(payload, false);
      if decoded.None? then Failed
      else if |decoded.value| != ExpectedLength(a, sequence)
              || a.receivedBytes + |decoded.value| > a.byteLength then Failed
      else Assembling(a.(chunks := a.chunks[sequence := decoded],
                         receivedBytes := a.receivedBytes + |decoded.value|,
                         nextSequence := a.nextSequence + 1))
  }

  function AcceptEnd(a: Assembly, frame: Frame, ctx: Context): Receiver
    requires frame.ResultEnd?
  {
    var result := Join(a.chunks);
    if frame.chunkCount != a.chunkCount || frame.byteLength != a.byteLength || frame.sha256 != a.sha256
       || None in a.chunks || a.nextSequence != a.chunkCount || a.receivedBytes != a.byteLength
       || |result| != a.byteLength || ctx.digestOf(result) != a.sha256 || !ctx.canonical(result)
    then Failed
    else Delivered(result)
  }

  function Accept(r: Receiver, frame: Frame, ctx: Context): Receiver {
    match r
    case Failed => Failed
    case Delivered(_) => r
    case Waiting =>
      (match frame
       case Result(_, result) => Delivered(result)
       case ResultStart(_, _, count, length, digest, _, _) =>
         if GoodStart(frame, ctx)
         then Assembling(Assembly(count, length, digest, seq(count, _ => None), 0, 0)) else Failed
       case _ => Failed)
    case Assembling(a) =>
      (match frame
       case ResultChunk(_, sequence, payload) => AcceptChunk(a, sequence, payload)
       case ResultEnd(_, _, _, _) => AcceptEnd(a, frame, ctx)
       case _ => Failed)
  }

  function Receive(frames: seq<Frame>, ctx: Context): Receiver {
    if frames == [] then Waiting
    else Accept(Receive(frames[..|frames| - 1], ctx), frames[|frames| - 1], ctx)
  }

  // ---------------------------------------------------------------------------
  // Soundness: what arbitrary frames can deliver
  // ---------------------------------------------------------------------------

  /** The bytes of all chunk frames, decoded in the order of arrival. */
  function ChunkBytes(frames: seq<Frame>): Bytes {
    if frames == [] then []
    else
      var last := frames[|frames| - 1];
      ChunkBytes(frames[..|frames| - 1])
      + (if last.ResultChunk? then Decode(last.payload, false).GetOr([]) else [])
  }

  ghost predicate AssemblyOk(a: Assembly) {
    && 0 <= a.nextSequence <= a.chunkCount == |a.chunks|
    && (forall i :: 0 <= i < a.nextSequence ==> a.chunks[i].Some?)
    && (forall i :: a.nextSequence <= i < a.chunkCount ==> a.chunks[i].None?)
    && a.receivedBytes == |Join(a.chunks)|
  }

  lemma {:induction false} JoinOfNones(chunks: seq<Option<Bytes>>, k: nat)
    requires k <= |chunks| && forall i :: k <= i < |chunks| ==> chunks[i].None?
    ensures Join(chunks) == Join(chunks[..k])
  {
    if k < |chunks| {
      JoinOfNones(chunks[..|chunks| - 1], k);
      assert chunks[..|chunks| - 1][..k] == chunks[..k];
    } else {
      assert chunks[..k] == chunks;
    }
  }

  /** Filling the first empty slot appends its bytes. */
  lemma JoinFill(chunks: seq<Option<Bytes>>, k: nat, bytes: Bytes)
    requires k < |chunks| && forall i :: k <= i < |chunks| ==> chunks[i].None?
    ensures Join(chunks[k := Some(bytes)]) == Join(chunks) + bytes
  {
    var filled := chunks[k := Some(bytes)];
    JoinOfNones(chunks, k);
    JoinOfNones(filled, k + 1);
    assert filled[..k + 1][..k] == chunks[..k];
    assert filled[..k + 1][k] == Some(bytes);
  }

  lemma {:induction false} ReceiverInvariant(frames: seq<Frame>, ctx: Context)
    ensures var r := Receive(frames, ctx);
            && (r.Waiting? ==> frames == [])
            && (r.Assembling? ==> AssemblyOk(r.assembly) && Join(r.assembly.chunks) == ChunkBytes(frames))
  {
    if frames != [] {
      var front, last := frames[..|frames| - 1], frames[|frames| - 1];
      ReceiverInvariant(front, ctx);
      match Receive(front, ctx)
      case Waiting =>
        if last.ResultStart? && GoodStart(last, ctx) {
          JoinOfNones(seq(last.chunkCount, _ => None), 0);
        }
      case Assembling(a) =>
        if last.ResultChunk? && AcceptChunk(a, last.sequence, last.payload).Assembling? {
          JoinFill(a.chunks, last.sequence, Decode(last.payload, false).value);
        }
      case Failed =>
      case Delivered(_) =>
    }
  }

  /** The assembly stays within what the receiver can afford. */
  predicate Affordable(a: Assembly, ctx: Context) {
    && 1 <= a.chunkCount <= MAX_CHUNKS && a.chunkCount == |a.chunks|
    && 2 <= a.byteLength <= RESULT_MAX && a.byteLength <= ctx.freeBytes
    && 0 <= a.receivedBytes <= a.byteLength
  }

  /** Whatever frames arrive, the receiver never assembles more than the limits and its free budget allow. */
  lemma {:induction false} ReceiverBounded(frames: seq<Frame>, ctx: Context)
    ensures var r := Receive(frames, ctx); r.Assembling? ==> Affordable(r.assembly, ctx) && ctx.freeSlots > 0
  {
    if frames != [] {
      ReceiverBounded(frames[..|frames| - 1], ctx);
    }
  }

  /**
   Whatever frames arrive: if an end frame makes the receiver deliver a result, then that
   result is the concatenation of the chunks received, of the declared length, with the
   declared digest, and canonical.
   */
  lemma ReceiverSound(frames: seq<Frame>, ctx: Context)
    requires frames != [] && frames[|frames| - 1].ResultEnd?
    requires !Receive(frames[..|frames| - 1], ctx).Delivered?
    requires Receive(frames, ctx).Delivered?
    ensures var result, end := Receive(frames, ctx).result, frames[|frames| - 1];
            && result == ChunkBytes(frames)
            && |result| == end.byteLength && ctx.digestOf(result) == end.sha256 && ctx.canonical(result)
  {
    ReceiverInvariant(frames[..|frames| - 1], ctx);
  }

  // ---------------------------------------------------------------------------
  // Completeness: the sender's frames deliver the result
  // ---------------------------------------------------------------------------

  /** The chunk slots after the first `n` chunks. */
  ghost function Slots(result: Bytes, n: nat): (slots: seq<Option<Bytes>>)
    requires n <= ChunkCount(result)
    ensures |slots| == ChunkCount(result)
    ensures forall i :: 0 <= i < n ==> Offset(i) <= |result| && slots[i] == Some(Chunk(result, i))
    ensures forall i :: n <= i < |slots| ==> slots[i] == None
  {
    seq(ChunkCount(result), i requires 0 <= i < ChunkCount(result) =>
      if i < n then (ChunkStarts(result, i); Some(Chunk(result, i))) else None)
  }

  /** The receiver after the start frame and the first `n` chunks. */
  ghost function After(result: Bytes, digest: string, n: nat): Assembly
    requires n <= ChunkCount(result)
  {
    Assembly(ChunkCount(result), |result|, digest, Slots(result, n), |Prefix(result, n)|, n)
  }

  lemma FillSlot(result: Bytes, n: nat)
    requires n < ChunkCount(result)
    ensures Offset(n) <= |result|
    ensures Slots(result, n)[n := Some(Chunk(result, n))] == Slots(result, n + 1)
  {
    ChunkStarts(result, n);
  }

  lemma ChunkLength(result: Bytes, n: nat)
    requires n < ChunkCount(result)
    ensures Offset(n) <= |result|
    ensures |Chunk(result, n)| == if n < ChunkCount(result) - 1 then CHUNK else |result| - Offset(ChunkCount(result) - 1)
  {
    ChunkStarts(result, n);
    if n < ChunkCount(result) - 1 {
      ChunkStarts(result, n + 1);
    }
  }

  lemma AcceptNextChunk(result: Bytes, digest: string, n: nat)
    requires n < ChunkCount(result)
    ensures AcceptChunk(After(result, digest, n), n, Payload(result, n)) == Assembling(After(result, digest, n + 1))
  {
    PrefixGrows(result, n);
    PayloadLength(result, n);
    RoundTrip(Chunk(result, n), false);
    ChunkLength(result, n);
    FillSlot(result, n);
  }

  lemma JoinNoSlots(result: Bytes)
    ensures Join(Slots(result, 0)) == Prefix(result, 0)
  {
    JoinOfNones(Slots(result, 0), 0);
    assert Slots(result, 0)[..0] == [] && Prefix(result, 0) == [];
  }

  lemma JoinNextSlot(result: Bytes, n: nat)
    requires n < ChunkCount(result) && Join(Slots(result, n)) == Prefix(result, n)
    ensures Join(Slots(result, n + 1)) == Prefix(result, n + 1)
  {
    FillSlot(result, n);
    JoinFill(Slots(result, n), n, Chunk(result, n));
    PrefixGrows(result, n);
  }

  lemma {:induction false} JoinSlots(result: Bytes, n: nat)
    requires n <= ChunkCount(result)
    ensures Join(Slots(result, n)) == Prefix(result, n)
  {
    if n == 0 {
      JoinNoSlots(result);
    } else {
      JoinSlots(result, n - 1);
      JoinNextSlot(result, n - 1);
    }
  }

  lemma ReceiveSnoc(frames: seq<Frame>, last: Frame, ctx: Context)
    ensures Receive(frames + [last], ctx) == Accept(Receive(frames, ctx), last, ctx)
  {
    assert (frames + [last])[..|frames|] == frames;
  }

  lemma ReceiveStart(callId: string, result: Bytes, ctx: Context)
    requires 2 <= |result| <= RESULT_MAX && |result| <= ctx.freeBytes && ctx.freeSlots > 0
    requires HexDigest(ctx.digestOf(result))
    ensures Receive([StartFrame(callId, result, ctx.digestOf(result))], ctx)
         == Assembling(After(result, ctx.digestOf(result), 0))
  {
    var digest := ctx.digestOf(result);
    var start := StartFrame(callId, result, digest);
    ChunkCountBounded(result);
    ReceiveSnoc([], start, ctx);
    assert [] + [start] == [start];
    assert GoodStart(start, ctx);
    assert Slots(result, 0) == seq(ChunkCount(result), _ => None);
  }

  lemma ReceiveNextChunk(callId: string, result: Bytes, ctx: Context, before: seq<Frame>, n: nat)
    requires n < ChunkCount(result) && Receive(before, ctx) == Assembling(After(result, ctx.digestOf(result), n))
    ensures Receive(before + [ResultChunk(callId, n, Payload(result, n))], ctx)
         == Assembling(After(result, ctx.digestOf(result), n + 1))
  {
    ReceiveSnoc(before, ResultChunk(callId, n, Payload(result, n)), ctx);
    AcceptNextChunk(result, ctx.digestOf(result), n);
  }

  lemma ChunkFramesGrow(callId: string, result: Bytes, start: Frame, n: nat)
    requires n < ChunkCount(result)
    ensures [start] + ChunkFrames(callId, result, n + 1)
         == [start] + ChunkFrames(callId, result, n) + [ResultChunk(callId, n, Payload(result, n))]
  {
  }

  lemma {:induction false} ReceiveChunks(callId: string, result: Bytes, ctx: Context, n: nat)
    requires 2 <= |result| <= RESULT_MAX && |result| <= ctx.freeBytes && ctx.freeSlots > 0
    requires HexDigest(ctx.digestOf(result))
    requires n <= ChunkCount(result)
    ensures Receive([StartFrame(callId, result, ctx.digestOf(result))] + ChunkFrames(callId, result, n), ctx)
            == Assembling(After(result, ctx.digestOf(result), n))
  {
    var digest := ctx.digestOf(result);
    var start := StartFrame(callId, result, digest);
    if n == 0 {
      ReceiveStart(callId, result, ctx);
      assert [start] + ChunkFrames(callId, result, 0) == [start];
    } else {
      ReceiveChunks(callId, result, ctx, n - 1);
      ReceiveNextChunk(callId, result, ctx, [start] + ChunkFrames(callId, result, n - 1), n - 1);
      ChunkFramesGrow(callId, result, start, n - 1);
    }
  }

  lemma AcceptGoodEnd(callId: string, result: Bytes, ctx: Context)
    requires ctx.canonical(result)
    ensures var digest := ctx.digestOf(result);
            AcceptEnd(After(result, digest, ChunkCount(result)), EndFrame(callId, result, digest), ctx) == Delivered(result)
  {
    var n := ChunkCount(result);
    JoinSlots(result, n);
    assert Prefix(result, n) == result;
    assert None !in Slots(result, n);
  }

  /** End to end: chunking, base64, reassembly and verification give back the very bytes. */
  lemma TransferRoundTrip(callId: string, result: Bytes, ctx: Context)
    requires 2 <= |result| <= RESULT_MAX && |result| <= ctx.freeBytes && ctx.freeSlots > 0
    requires HexDigest(ctx.digestOf(result)) && ctx.canonical(result)
    ensures Receive(ChunkedFrames(callId, result, ctx.digestOf(result)), ctx) == Delivered(result)
  {
    var digest := ctx.digestOf(result);
    var before := [StartFrame(callId, result, digest)] + ChunkFrames(callId, result, ChunkCount(result));
    ReceiveChunks(callId, result, ctx, ChunkCount(result));
    ReceiveSnoc(before, EndFrame(callId, result, digest), ctx);
    AcceptGoodEnd(callId, result, ctx);
  }

  /**
   Sender and receiver together: a result of at most 32 MiB under a call id of at most `SAFE_ID`
   serialised bytes is delivered as it was, in one frame or in chunks.
   */
  method TransferResult(callId: string, idJson: string, result: Bytes, smallFrameBytes: nat, ctx: Context)
    returns (outcome: SendOutcome, frames: seq<Frame>)
    requires |result| <= RESULT_MAX && |idJson| <= SAFE_ID
    requires smallFrameBytes > FRAME_MAX ==> 2 <= |result| <= ctx.freeBytes && ctx.freeSlots > 0
    requires HexDigest(ctx.digestOf(result)) && ctx.canonical(result)
    ensures outcome == Sent && Receive(frames, ctx) == Delivered(result)
  {
    outcome, frames := SendResult(callId, idJson, result, smallFrameBytes, true, ctx.digestOf);
    if smallFrameBytes <= FRAME_MAX {
      ReceiveSnoc([], Result(callId, result), ctx);
      assert [] + [Result(callId, result)] == frames;
    } else {
      SafeIdsFit(idJson, result);
      TransferRoundTrip(callId, result, ctx);
    }
  }
}
