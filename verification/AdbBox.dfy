/** The box's side of a push: the file it stores and where, and which of its messages count. */
module AdbBox {
  import opened Bytes
  import opened Words
  import opened AdbMessage
  import opened AdbPush

  /** « SEND », « DATA », « DONE » and « OKAY » in ASCII. */
  lemma IdsAreAscii()
    ensures SEND == [83, 69, 78, 68] && DATA == [68, 65, 84, 65] && DONE == [68, 79, 78, 69] && OKAY == [79, 75, 65, 89]
  {
  }

  /** The little-endian length after an id. */
  function Length(bytes: seq<byte>): (n: nat)
    requires |bytes| >= 8
  {
    var b0: int, b1: int, b2: int, b3: int := bytes[4], bytes[5], bytes[6], bytes[7];
    b0 + 256 * (b1 + 256 * (b2 + 256 * b3))
  }

  /** A sync service reading a stream: SEND and where the file goes, a DATA for each part of it, and DONE
      with no date. */
  function Parts(bytes: seq<byte>): Option<seq<byte>>
    decreases |bytes|
  {
    if |bytes| < 8 then None
    else
      var id, length := bytes[..4], Length(bytes);
      if id == [68, 79, 78, 69] then (if |bytes| == 8 && length == 0 then Some([]) else None)
      else if id != [68, 65, 84, 65] || length > |bytes| - 8 || length > 65_536 then None
      else match Parts(bytes[8 + length..])
        case None => None
        case Some(rest) => Some(bytes[8..8 + length] + rest)
  }

  function Stored(bytes: seq<byte>): Option<(seq<byte>, seq<byte>)> {
    if |bytes| < 8 || bytes[..4] != [83, 69, 78, 68] then None
    else
      var length := Length(bytes);
      if length > |bytes| - 8 then None
      else match Parts(bytes[8 + length..])
        case None => None
        case Some(file) => Some((bytes[8..8 + length], file))
  }

  /** An id, a length and its bytes, then the rest. */
  lemma Headed(id: seq<byte>, body: seq<byte>, rest: seq<byte>)
    requires |id| == 4 && |body| <= MAX_PAYLOAD
    ensures var bytes := id + Le32(|body|) + body + rest;
            && |bytes| == 8 + |body| + |rest| && bytes[..4] == id
            && Length(bytes) == |body|
            && bytes[8..8 + |body|] == body && bytes[8 + |body|..] == rest
  {
    var bytes := id + Le32(|body|) + body + rest;
    WordRoundTrip(|body|);
    assert bytes[4] == Le32(|body|)[0] && bytes[5] == Le32(|body|)[1];
    assert bytes[6] == Le32(|body|)[2] && bytes[7] == Le32(|body|)[3];
  }

  lemma PartIsRead(chunk: seq<byte>, rest: seq<byte>)
    requires |chunk| <= SYNC_CHUNK
    ensures Parts(DataFrame(chunk) + rest)
         == match Parts(rest) case None => None case Some(file) => Some(chunk + file)
  {
    hide Le32;
    Headed(DATA, chunk, rest);
    IdsAreAscii();
    assert DATA[1] != DONE[1];
  }

  lemma DoneIsTheEnd()
    ensures Parts(DoneFrame() + []) == Some([])
  {
    hide Le32;
    var none: seq<byte> := [];
    Headed(DONE, none, none);
    assert DoneFrame() + none == DONE + Le32(|none|) + none + none;
  }

  lemma {:induction false} PartsAreRead(chunks: seq<seq<byte>>)
    requires Chunks(chunks)
    ensures Parts(FramesJoined(DataFrames(chunks) + [DoneFrame()])) == Some(Joined(chunks))
    decreases |chunks|
  {
    hide DataFrame, DoneFrame, Parts;
    var frames := DataFrames(chunks) + [DoneFrame()];
    if chunks == [] {
      assert frames == [DoneFrame()] && frames[1..] == [];
      DoneIsTheEnd();
    } else {
      PartsAreRead(chunks[1..]);
      assert frames[0] == DataFrame(chunks[0]) && frames[1..] == DataFrames(chunks[1..]) + [DoneFrame()];
      PartIsRead(chunks[0], FramesJoined(frames[1..]));
    }
  }

  /** The frames of a push that succeeded make the box store exactly the upload, exactly where it was
      to go, however the upload was cut on its way. */
  lemma PushIsStored(target: seq<byte>, data: seq<Piece>)
    requires |target| + 8 <= MAX_PAYLOAD
    ensures Chunks(Chunked(Upload(data)))
    ensures Stored(FramesJoined([SendFrame(target)] + DataFrames(Chunked(Upload(data))) + [DoneFrame()]))
         == Some((target, Upload(data)))
  {
    hide Upload, Chunked, DataFrames, Le32, Parts, FramesJoined, DoneFrame;
    var chunks := Chunked(Upload(data));
    ChunksAreTheUpload(Upload(data));
    PartsAreRead(chunks);
    var rest := DataFrames(chunks) + [DoneFrame()];
    assert [SendFrame(target)] + DataFrames(chunks) + [DoneFrame()] == [SendFrame(target)] + rest;
    FirstFrame(SendFrame(target), rest);
    Headed(SEND, target, FramesJoined(rest));
  }

  lemma FirstFrame(frame: seq<byte>, rest: seq<seq<byte>>)
    ensures FramesJoined([frame] + rest) == frame + FramesJoined(rest)
  {
    assert ([frame] + rest)[1..] == rest;
  }

  // ---------- which messages count ----------

  /** The messages addressed to one stream. */
  function Own(replies: seq<Message>, localId: u32): seq<Message> {
    if replies == [] then []
    else (if replies[0].arg1 == localId then [replies[0]] else []) + Own(replies[1..], localId)
  }

  /** « WRTE » and « CLSE » in ASCII as they go over the wire, for this stream. */
  lemma WritesAndCloses(m: Message, localId: u32)
    ensures Writes(m, localId) <==> Le32(m.command) == [87, 82, 84, 69] && m.arg1 == localId
    ensures Closes(m, localId) <==> Le32(m.command) == [67, 76, 83, 69] && m.arg1 == localId
  {
    WordRoundTrip(m.command);
  }

  /** What another stream's messages say, or close, changes no verdict: the push is judged by its own
      stream's messages alone. */
  lemma {:induction false} OtherStreamsDoNotCount(replies: seq<Message>, localId: u32, got: seq<byte>)
    ensures Verdict(replies, localId, got) == Verdict(Own(replies, localId), localId, got)
    decreases |replies|
  {
    hide Writes, Closes;
    if replies != [] {
      var m, rest := replies[0], replies[1..];
      SpeaksForItsStream(m, localId);
      OtherStreamsDoNotCount(rest, localId, got);
      if m.arg1 == localId {
        assert Own(replies, localId)[0] == m && Own(replies, localId)[1..] == Own(rest, localId);
        OtherStreamsDoNotCount(rest, localId, got + m.payload);
      } else {
        assert Own(replies, localId) == Own(rest, localId);
      }
    }
  }

  lemma SpeaksForItsStream(m: Message, localId: u32)
    ensures Writes(m, localId) || Closes(m, localId) ==> m.arg1 == localId
  {
  }

  /** The box takes the file: all it wrote to the stream before closing it starts with « OKAY », and
      that is eight bytes or more, or the stream was closed. The verdict gathered tells. */
  lemma TakenIff(replies: seq<Message>, localId: u32)
    ensures var verdict, said := Verdict(replies, localId, []), Said(replies, localId);
            && (SaidOkay(replies, localId)
                <==> |said| >= 4 && said[..4] == [79, 75, 65, 89] && (|said| >= 8 || Closed(replies, localId)))
            && (SaidOkay(replies, localId)
                <==> verdict.Some? && |verdict.value| >= 4 && verdict.value[..4] == [79, 75, 65, 89])
  {
    hide Verdict, Said, Closed;
    VerdictIsWhatTheBoxSaid(replies, localId, []);
    assert [] + Said(replies, localId) == Said(replies, localId);
    var verdict := Verdict(replies, localId, []);
    if verdict.Some? {
      StartsOkay(verdict.value);
    }
    StartsOkay(Said(replies, localId));
  }

  lemma StartsOkay(bytes: seq<byte>)
    ensures OKAY <= bytes <==> |bytes| >= 4 && bytes[..4] == [79, 75, 65, 89]
  {
  }
}
