/** A file pushed over ADB's sync service: an upload that arrives in pieces of any size, passed on
    as full DATA frames. */
module AdbPush {
  import opened Bytes
  import opened Words
  import opened AdbMessage

  const SYNC_CHUNK := 64 * 1024

  /** What the upload yields next: bytes, or its failure. */
  datatype Piece = Arrived(bytes: seq<byte>) | Broken

  /** The bytes of the pieces that arrive before any failure. */
  function Upload(data: seq<Piece>): seq<byte> {
    if data == [] || data[0].Broken? then [] else data[0].bytes + Upload(data[1..])
  }

  predicate Complete(data: seq<Piece>) {
    forall i :: 0 <= i < |data| ==> data[i].Arrived?
  }

  /** An upload cut into chunks, each full but the last. */
  function Chunked(upload: seq<byte>): seq<seq<byte>> {
    if upload == [] then []
    else if |upload| <= SYNC_CHUNK then [upload]
    else [upload[..SYNC_CHUNK]] + Chunked(upload[SYNC_CHUNK..])
  }

  const SEND: seq<byte> := [83, 69, 78, 68]
  const DATA: seq<byte> := [68, 65, 84, 65]
  const DONE: seq<byte> := [68, 79, 78, 69]

  function SendFrame(target: seq<byte>): seq<byte>
    requires |target| <= MAX_PAYLOAD
  {
    SEND + Le32(|target|) + target
  }

  function DataFrame(chunk: seq<byte>): seq<byte>
    requires |chunk| <= MAX_PAYLOAD
  {
    DATA + Le32(|chunk|) + chunk
  }

  function DoneFrame(): seq<byte> {
    DONE + Le32(0)
  }

  predicate Chunks(chunks: seq<seq<byte>>) {
    forall i :: 0 <= i < |chunks| ==> 0 < |chunks[i]| <= SYNC_CHUNK
  }

  function DataFrames(chunks: seq<seq<byte>>): seq<seq<byte>>
    requires Chunks(chunks)
  {
    if chunks == [] then [] else [DataFrame(chunks[0])] + DataFrames(chunks[1..])
  }

  // ---------- cutting into chunks ----------

  function Joined(chunks: seq<seq<byte>>): seq<byte> {
    if chunks == [] then [] else chunks[0] + Joined(chunks[1..])
  }

  /** The chunks are the upload: none empty, all full but the last. */
  lemma {:induction false} ChunksAreTheUpload(upload: seq<byte>)
    ensures var chunks := Chunked(upload);
            && Joined(chunks) == upload && Chunks(chunks)
            && (forall i :: 0 <= i < |chunks| - 1 ==> |chunks[i]| == 65_536)
            && (chunks != [] ==> 0 < |chunks[|chunks| - 1]| <= 65_536)
    decreases |upload|
  {
    if upload != [] && |upload| > SYNC_CHUNK {
      ChunksAreTheUpload(upload[SYNC_CHUNK..]);
      assert upload == upload[..SYNC_CHUNK] + upload[SYNC_CHUNK..];
    } else if upload != [] {
      assert [upload][1..] == [];
      assert Joined([upload]) == upload + [];
    }
  }

  /** Only one cut has full chunks and then a last one: the frames an upload makes are its own,
      however they are gathered. */
  lemma {:induction false} OneWayToCut(chunks: seq<seq<byte>>)
    requires Chunks(chunks) && forall i :: 0 <= i < |chunks| - 1 ==> |chunks[i]| == SYNC_CHUNK
    ensures Chunked(Joined(chunks)) == chunks
    decreases |chunks|
  {
    if chunks != [] {
      var tail := Joined(chunks[1..]);
      OneWayToCut(chunks[1..]);
      assert Joined(chunks) == chunks[0] + tail;
      if |chunks| == 1 {
        assert tail == [] && Joined(chunks) == chunks[0];
        assert chunks == [chunks[0]];
      } else {
        FirstChunk(chunks[0], tail);
        assert chunks == [chunks[0]] + chunks[1..];
      }
    }
  }

  /** Whole chunks first, then the rest. */
  lemma {:induction false} ChunkedSplits(sent: seq<byte>, rest: seq<byte>)
    requires |sent| % SYNC_CHUNK == 0
    ensures Chunked(sent + rest) == Chunked(sent) + Chunked(rest)
    decreases |sent|
  {
    if sent == [] {
      assert sent + rest == rest;
    } else {
      var tail := sent[SYNC_CHUNK..];
      ChunkedSplits(tail, rest);
      assert (sent + rest)[SYNC_CHUNK..] == tail + rest;
      assert (sent + rest)[..SYNC_CHUNK] == sent[..SYNC_CHUNK];
      if tail == [] {
        assert sent[..SYNC_CHUNK] == sent;
        FirstChunk(sent, rest);
      }
    }
  }

  lemma FirstChunk(chunk: seq<byte>, rest: seq<byte>)
    requires |chunk| == SYNC_CHUNK
    ensures Chunked(chunk + rest) == [chunk] + Chunked(rest)
  {
    if rest == [] {
      assert chunk + rest == chunk;
    } else {
      assert (chunk + rest)[..SYNC_CHUNK] == chunk && (chunk + rest)[SYNC_CHUNK..] == rest;
    }
  }

  lemma {:induction false} FramesOfSum(a: seq<seq<byte>>, b: seq<seq<byte>>)
    requires Chunks(a) && Chunks(b)
    ensures Chunks(a + b) && DataFrames(a + b) == DataFrames(a) + DataFrames(b)
    decreases |a|
  {
    if a == [] {
      assert a + b == b;
    } else {
      FramesOfSum(a[1..], b);
      assert (a + b)[1..] == a[1..] + b;
    }
  }

  /** Every frame of an upload is a payload the connection carries. */
  lemma {:induction false} FramesFit(chunks: seq<seq<byte>>)
    requires Chunks(chunks)
    ensures forall i :: 0 <= i < |DataFrames(chunks)| ==> 8 < |DataFrames(chunks)[i]| <= 65_544 < 262_144
    decreases |chunks|
  {
    if chunks != [] {
      FramesFit(chunks[1..]);
    }
  }

  /** After whole chunks, the frames of what follows are added to theirs. */
  lemma FramesSplit(sent: seq<byte>, rest: seq<byte>)
    requires |sent| % SYNC_CHUNK == 0
    ensures Chunks(Chunked(sent)) && Chunks(Chunked(rest)) && Chunks(Chunked(sent + rest))
    ensures Chunked(sent + rest) == Chunked(sent) + Chunked(rest)
    ensures DataFrames(Chunked(sent + rest)) == DataFrames(Chunked(sent)) + DataFrames(Chunked(rest))
  {
    hide Chunked, DataFrames;
    ChunksAreTheUpload(sent);
    ChunksAreTheUpload(rest);
    ChunkedSplits(sent, rest);
    FramesOfSum(Chunked(sent), Chunked(rest));
  }

  lemma OneChunk(chunk: seq<byte>)
    requires 0 < |chunk| <= SYNC_CHUNK
    ensures Chunked(chunk) == [chunk] && DataFrames([chunk]) == [DataFrame(chunk)]
    ensures 8 < |DataFrame(chunk)| <= MAX_PAYLOAD
  {
    assert [chunk][1..] == [];
  }

  lemma {:induction false} UploadSplits(data: seq<Piece>, k: nat)
    requires k <= |data| && Complete(data[..k])
    ensures Upload(data) == Upload(data[..k]) + Upload(data[k..])
  {
    if k == 0 {
      assert data[0..] == data;
    } else {
      assert data[0] == data[..k][0];
      assert data[1..][..k - 1] == data[..k][1..] && data[1..][k - 1..] == data[k..];
      UploadSplits(data[1..], k - 1);
    }
  }

  lemma UploadGrows(data: seq<Piece>, k: nat)
    requires k < |data| && Complete(data[..k]) && data[k].Arrived?
    ensures Complete(data[..k + 1]) && Upload(data[..k + 1]) == Upload(data[..k]) + data[k].bytes
  {
    var longer := data[..k + 1];
    assert longer[..k] == data[..k] && longer[k..] == [data[k]];
    UploadSplits(longer, k);
    assert [data[k]][1..] == [];
    assert Upload([data[k]]) == data[k].bytes + [];
  }

  /** One turn of an upload: what was sent, and the first bytes of those pending, sent now. */
  lemma Turn(data: seq<Piece>, next: nat, sent: seq<byte>, pending: seq<byte>, take: nat)
    requires next <= |data| && Complete(data[..next]) && sent + pending == Upload(data[..next]) && take <= |pending|
    requires |sent| % SYNC_CHUNK == 0 && (take % SYNC_CHUNK == 0 || (take == |pending| && next == |data|))
    ensures var part, upload := pending[..take], Upload(data);
            && Chunks(Chunked(part)) && Chunks(Chunked(sent + part)) && Chunks(Chunked(upload)) && Chunks(Chunked(sent))
            && DataFrames(Chunked(sent + part)) == DataFrames(Chunked(sent)) + DataFrames(Chunked(part))
            && |Chunked(sent + part)| == |Chunked(sent)| + |Chunked(part)|
            && DataFrames(Chunked(sent + part)) <= DataFrames(Chunked(upload))
            && |Chunked(sent + part)| <= |Chunked(upload)|
            && (sent + part) + pending[take..] == Upload(data[..next])
            && (take == |pending| && next == |data| ==> sent + part == upload)
  {
    hide Chunked, DataFrames, Chunks, Upload;
    var part, rest := pending[..take], pending[take..] + Upload(data[next..]);
    UploadSplits(data, next);
    NoUpload(data);
    assert pending == part + pending[take..];
    assert Upload(data) == sent + part + rest;
    FramesSplit(sent, part);
    if take == |pending| && next == |data| {
      assert data[next..] == [] && rest == [];
      assert sent + part == Upload(data);
    } else {
      FramesSplit(sent + part, rest);
    }
  }

  lemma NoneTaken(sent: seq<byte>, pending: seq<byte>)
    ensures sent + pending[..0] == sent
  {
  }

  lemma WholeChunks(pending: nat)
    ensures var take := pending - pending % SYNC_CHUNK;
            0 <= take <= pending && take % SYNC_CHUNK == 0 && pending - take < SYNC_CHUNK
    ensures forall sent: nat :: sent % SYNC_CHUNK == 0 ==> (sent + (pending - pending % SYNC_CHUNK)) % SYNC_CHUNK == 0
  {
  }

  // ---------- the loop ----------

  /** An open sync stream: the frames the box acknowledged, and how many more it will. */
  class SyncStream {
    var frames: seq<seq<byte>>
    var patience: nat

    constructor (patience: nat)
      ensures frames == [] && this.patience == patience
    {
      this.frames, this.patience := [], patience;
    }

    /** One payload, and the wait for its acknowledgement. */
    method WriteStream(frame: seq<byte>) returns (ok: bool)
      modifies this
      ensures ok <==> |frame| <= MAX_PAYLOAD && old(patience) > 0
      ensures frames == old(frames) + if ok then [frame] else []
      ensures patience == old(patience) - if ok then 1 else 0
    {
      ok := |frame| <= MAX_PAYLOAD && patience > 0;
      if ok {
        frames := frames + [frame];
        patience := patience - 1;
      }
    }

    /** The chunks of some gathered bytes, one frame each. */
    method WriteChunks(pending: seq<byte>) returns (ok: bool)
      modifies this
      ensures Chunks(Chunked(pending))
      ensures ok <==> |Chunked(pending)| <= old(patience)
      ensures ok ==> frames == old(frames) + DataFrames(Chunked(pending))
      ensures ok ==> patience == old(patience) - |Chunked(pending)|
      ensures !ok ==> frames <= old(frames) + DataFrames(Chunked(pending))
    {
      hide DataFrame, Chunked, DataFrames, Chunks;
      NoChunks();
      FramesSplit([], pending);
      var start := 0;
      while start < |pending|
        invariant 0 <= start <= |pending| && (start % SYNC_CHUNK == 0 || start == |pending|)
        invariant Chunks(Chunked(pending[..start]))
        invariant frames == old(frames) + DataFrames(Chunked(pending[..start]))
        invariant patience == old(patience) - |Chunked(pending[..start])|
      {
        var end := if |pending| - start <= SYNC_CHUNK then |pending| else start + SYNC_CHUNK;
        var chunk := pending[start..end];
        var length := WireLength(|chunk|);
        var frame := DATA + Le32(length.value) + chunk;
        OneChunk(chunk);
        FramesSplit(pending[..start], chunk);
        FramesSplit(pending[..start], pending[start..]);
        SomeChunks(pending[start..]);
        assert pending[..start] + chunk == pending[..end] && pending[..start] + pending[start..] == pending;
        assert frame == DataFrame(chunk) by { FrameIs(chunk); }
        var written := WriteStream(frame);
        if !written {
          return false;
        }
        start := end;
      }
      assert pending[..start] == pending;
      ok := true;
    }

    /** Gathers an upload into full frames as it arrives: fewer than a chunk's bytes wait between
        two pieces, and only the last frame may be short. */
    method WriteData(data: seq<Piece>) returns (ok: bool)
      modifies this
      ensures Chunks(Chunked(Upload(data)))
      ensures ok <==> Complete(data) && |Chunked(Upload(data))| <= old(patience)
      ensures ok ==> frames == old(frames) + DataFrames(Chunked(Upload(data)))
      ensures ok ==> patience == old(patience) - |Chunked(Upload(data))|
      ensures !ok ==> frames <= old(frames) + DataFrames(Chunked(Upload(data)))
    {
      hide Chunked, DataFrames, Chunks, Upload;
      NoChunks();
      NoUpload(data);
      var pending: seq<byte> := [];
      ghost var sent: seq<byte> := [];
      var next := 0;
      while true
        invariant 0 <= next <= |data| && |pending| < SYNC_CHUNK && |sent| % SYNC_CHUNK == 0
        invariant Complete(data[..next]) && sent + pending == Upload(data[..next])
        invariant Chunks(Chunked(sent)) && frames == old(frames) + DataFrames(Chunked(sent))
        invariant patience == old(patience) - |Chunked(sent)|
        decreases |data| - next
      {
        var more := next < |data|;
        if more {
          if data[next].Broken? {
            Turn(data, next, sent, pending, 0);
            NoneTaken(sent, pending);
            return false;
          }
          UploadGrows(data, next);
          pending := pending + data[next].bytes;
          next := next + 1;
        }
        var take := if more then |pending| - |pending| % SYNC_CHUNK else |pending|;
        WholeChunks(|pending|);
        Turn(data, next, sent, pending, take);
        var written := WriteChunks(pending[..take]);
        if !written {
          return false;
        }
        sent := sent + pending[..take];
        pending := pending[take..];
        if !more {
          return true;
        }
      }
    }

    /** The whole push: where to, the upload, the end, and what the box makes of it. */
    method PushStream(target: seq<byte>, data: seq<Piece>, localId: u32, replies: seq<Message>) returns (ok: bool)
      modifies this
      ensures Chunks(Chunked(Upload(data)))
      ensures ok ==> |target| + 8 <= MAX_PAYLOAD
      ensures ok ==> frames == old(frames) + [SendFrame(target)] + DataFrames(Chunked(Upload(data))) + [DoneFrame()]
      ensures !ok && |target| + 8 > MAX_PAYLOAD ==> frames == old(frames)
      ensures !ok && |target| + 8 <= MAX_PAYLOAD ==>
                frames <= old(frames) + [SendFrame(target)] + DataFrames(Chunked(Upload(data))) + [DoneFrame()]
      ensures ok <==> && Complete(data) && |target| + 8 <= MAX_PAYLOAD
                      && |Chunked(Upload(data))| + 2 <= old(patience)
                      && SaidOkay(replies, localId)
    {
      hide Chunked, DataFrames, Chunks, Upload, Verdict, Said, Closed;
      ChunksAreTheUpload(Upload(data));
      var length := WireLength(|target|);
      if length.Err? {
        return false;
      }
      ok := WriteStream(SEND + Le32(length.value) + target);
      if !ok {
        return;
      }
      ok := WriteData(data);
      if !ok {
        return;
      }
      ok := WriteStream(DONE + Le32(0));
      if !ok {
        return;
      }
      var verdict := ReadVerdict(localId, replies);
      VerdictIsWhatTheBoxSaid(replies, localId, []);
      assert [] + Said(replies, localId) == Said(replies, localId);
      ok := verdict.Some? && OKAY <= verdict.value;
    }
  }

  // ---------- the verdict ----------

  const OKAY: seq<byte> := [79, 75, 65, 89]
  const A_WRTE: u32 := 0x4554_5257
  const A_CLSE: u32 := 0x4553_4c43
  const VERDICT_BYTES := 8

  predicate Writes(m: Message, localId: u32) { m.command == A_WRTE && m.arg1 == localId }

  predicate Closes(m: Message, localId: u32) { m.command == A_CLSE && m.arg1 == localId }

  /** What is gathered of the box's messages, `None` when they end first: eight bytes are enough,
      or what there is when it closes the stream. Messages of other streams are passed over. */
  function Verdict(replies: seq<Message>, localId: u32, got: seq<byte>): Option<seq<byte>> {
    if replies == [] then None
    else if Writes(replies[0], localId) then
      var more := got + replies[0].payload;
      if |more| >= VERDICT_BYTES then Some(more) else Verdict(replies[1..], localId, more)
    else if Closes(replies[0], localId) then Some(got)
    else Verdict(replies[1..], localId, got)
  }

  method ReadVerdict(localId: u32, replies: seq<Message>) returns (r: Option<seq<byte>>)
    ensures r == Verdict(replies, localId, [])
  {
    var verdict: seq<byte> := [];
    var next := 0;
    while next < |replies|
      invariant 0 <= next <= |replies|
      invariant Verdict(replies[next..], localId, verdict) == Verdict(replies, localId, [])
    {
      var m := replies[next];
      assert replies[next..][1..] == replies[next + 1..];
      if Writes(m, localId) {
        verdict := verdict + m.payload;
        if |verdict| >= VERDICT_BYTES {
          return Some(verdict);
        }
      } else if Closes(m, localId) {
        return Some(verdict);
      }
      next := next + 1;
    }
    r := None;
  }

  /** All the box writes to the stream before it closes it, however it is cut into messages. */
  function Said(replies: seq<Message>, localId: u32): seq<byte> {
    if replies == [] || Closes(replies[0], localId) then []
    else (if Writes(replies[0], localId) then replies[0].payload else []) + Said(replies[1..], localId)
  }

  predicate Closed(replies: seq<Message>, localId: u32) {
    exists i :: 0 <= i < |replies| && Closes(replies[i], localId)
  }

  /** The box takes the file: what it says starts so, and it says enough or closes the stream. */
  predicate SaidOkay(replies: seq<Message>, localId: u32) {
    OKAY <= Said(replies, localId) && (|Said(replies, localId)| >= VERDICT_BYTES || Closed(replies, localId))
  }

  /** The verdict gathered starts as all the box said does, and there is one exactly when it said
      enough or closed the stream. */
  lemma {:induction false} VerdictIsWhatTheBoxSaid(replies: seq<Message>, localId: u32, got: seq<byte>)
    requires |got| < VERDICT_BYTES
    ensures var said, verdict := got + Said(replies, localId), Verdict(replies, localId, got);
            && (verdict.Some? <==> |said| >= VERDICT_BYTES || Closed(replies, localId))
            && (verdict.Some? ==> (OKAY <= verdict.value <==> OKAY <= said))
    decreases |replies|
  {
    if replies != [] {
      var m, rest := replies[0], replies[1..];
      assert Closed(replies, localId) <==> Closes(m, localId) || Closed(rest, localId) by {
        ClosedFromTheFront(replies, localId);
      }
      if Writes(m, localId) {
        var more := got + m.payload;
        assert got + Said(replies, localId) == more + Said(rest, localId);
        if |more| < VERDICT_BYTES {
          VerdictIsWhatTheBoxSaid(rest, localId, more);
        }
      } else if !Closes(m, localId) {
        assert got + Said(replies, localId) == got + Said(rest, localId);
        VerdictIsWhatTheBoxSaid(rest, localId, got);
      }
    }
  }

  lemma ClosedFromTheFront(replies: seq<Message>, localId: u32)
    requires replies != []
    ensures Closed(replies, localId) <==> Closes(replies[0], localId) || Closed(replies[1..], localId)
  {
    if Closed(replies[1..], localId) {
      var i :| 0 <= i < |replies[1..]| && Closes(replies[1..][i], localId);
      assert Closes(replies[i + 1], localId);
    }
    if Closed(replies, localId) && !Closes(replies[0], localId) {
      var i :| 0 <= i < |replies| && Closes(replies[i], localId);
      assert Closes(replies[1..][i - 1], localId);
    }
  }

  // ---------- the box's side ----------

  function FramesJoined(frames: seq<seq<byte>>): seq<byte> {
    if frames == [] then [] else frames[0] + FramesJoined(frames[1..])
  }

  /** The file a sync service stores: the DATA payloads up to DONE, read from the stream's bytes. */
  function StoredFile(bytes: seq<byte>): Option<seq<byte>>
    decreases |bytes|
  {
    if |bytes| < 8 then None
    else
      var length := FromLe32(bytes[4..8]);
      if bytes[..4] == DONE then Some([])
      else if bytes[..4] != DATA || length > |bytes| - 8 then None
      else match StoredFile(bytes[8 + length..])
        case None => None
        case Some(rest) => Some(bytes[8..8 + length] + rest)
  }

  lemma FrameIsRead(chunk: seq<byte>, rest: seq<byte>)
    requires |chunk| <= MAX_PAYLOAD
    ensures StoredFile(DataFrame(chunk) + rest)
         == match StoredFile(rest) case None => None case Some(file) => Some(chunk + file)
  {
    hide Le32, FromLe32;
    var bytes := DataFrame(chunk) + rest;
    WordRoundTrip(|chunk|);
    assert bytes[4..8] == Le32(|chunk|) && bytes[..4] == DATA;
    assert bytes[8..8 + |chunk|] == chunk && bytes[8 + |chunk|..] == rest;
    assert DATA[0] != DONE[0] || DATA[1] != DONE[1];
  }

  lemma {:induction false} FramesAreRead(chunks: seq<seq<byte>>)
    requires Chunks(chunks)
    ensures StoredFile(FramesJoined(DataFrames(chunks) + [DoneFrame()])) == Some(Joined(chunks))
    decreases |chunks|
  {
    hide DataFrame, DoneFrame;
    var frames := DataFrames(chunks) + [DoneFrame()];
    if chunks == [] {
      assert frames == [DoneFrame()] && frames[1..] == [];
      DoneIsRead();
    } else {
      FramesAreRead(chunks[1..]);
      assert frames[0] == DataFrame(chunks[0]) && frames[1..] == DataFrames(chunks[1..]) + [DoneFrame()];
      FrameIsRead(chunks[0], FramesJoined(frames[1..]));
    }
  }

  lemma DoneIsRead()
    ensures StoredFile(DoneFrame() + []) == Some([])
  {
  }

  /** However an upload was cut on its way, the frames written for it make the box store exactly
      its bytes: two complete uploads of the same bytes are the same frames. */
  lemma UploadIsStored(data: seq<Piece>)
    ensures var chunks := Chunked(Upload(data));
            && Chunks(chunks)
            && StoredFile(FramesJoined(DataFrames(chunks) + [DoneFrame()])) == Some(Upload(data))
  {
    hide Upload;
    ChunksAreTheUpload(Upload(data));
    FramesAreRead(Chunked(Upload(data)));
  }

  lemma NoChunks()
    ensures Chunked([]) == [] && Chunks([]) && DataFrames([]) == []
  {
  }

  lemma SomeChunks(bytes: seq<byte>)
    requires bytes != []
    ensures |Chunked(bytes)| > 0
  {
  }

  lemma NoUpload(data: seq<Piece>)
    ensures data[..0] == [] && Upload([]) == []
  {
  }

  lemma FrameIs(chunk: seq<byte>)
    requires |chunk| <= SYNC_CHUNK
    ensures DataFrame(chunk) == DATA + Le32(|chunk|) + chunk
  {
  }
}
