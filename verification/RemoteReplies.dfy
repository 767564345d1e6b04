/** What the television hears in each answer, read with the reader's own eyes, and byte by byte. */
module RemoteReplies {
  import opened Bytes
  import opened Protobuf
  import opened RemoteAnswers

  /** PING | KEY | POWER | VOLUME | APP_LINK, as a number. */
  const FEATURES: u64 := 611

  const MAISON: seq<byte> := [109, 97, 105, 115, 111, 110]
  const UPLG: seq<byte> := [117, 112, 108, 103]
  const ONE: seq<byte> := [49]
  const VERSION: seq<byte> := [49, 46, 48, 46, 48]

  /** The six fields that describe the device, text as ASCII. */
  const DEVICE_FIELDS: seq<(u32, Field)> := [
    (1, BytesField(MAISON)), (2, BytesField(UPLG)), (3, VarintField(1)),
    (4, BytesField(ONE)), (5, BytesField(MAISON)), (6, BytesField(VERSION))]

  lemma TextIsAscii()
    ensures Ascii("maison") == MAISON && Ascii("uplg") == UPLG && Ascii("1") == ONE && Ascii("1.0.0") == VERSION
  {
  }

  lemma ReadAsSent(item: Item)
    requires Fits(item)
    ensures Fields(EncodeItem(item), 0) == [AsField(item)]
  {
    hide Fields, EncodeItem, EncodeItems, Fits, AsField;
    OneItem(item);
    MessageRoundTrip([item]);
    RemoteAnswers.OneField(item);
  }

  /** The television's remote_configure, whatever it holds, is answered by one message: a single
      field 1, made of the features and a field 2 that describes the device. */
  lemma ConfigureIsAnswered(value: Field) returns (payload: seq<byte>, body: seq<byte>, device: seq<byte>)
    ensures AnswerTo(1, value).Some? && ReadFrame(AnswerTo(1, value).value) == Message(payload, [])
    ensures Fields(payload, 0) == [(1, BytesField(body))]
    ensures Fields(body, 0) == [(1, VarintField(FEATURES)), (2, BytesField(device))]
    ensures Fields(device, 0) == DEVICE_FIELDS
  {
    payload := EncodeItem(Configuration());
    body := EncodeItems([IntItem(1, ACTIVE_FEATURES), NestedItem(2, Device())]);
    device := EncodeItems(Device());
    AnswerIsOneFrame(1, value);
    DeviceIsRead();
    BodyIsRead();
    ConfigurationFits();
    ReadAsSent(Configuration());
  }

  lemma DeviceIsRead()
    ensures Fields(EncodeItems(Device()), 0) == DEVICE_FIELDS
  {
    hide Fields, EncodeItems, Ascii;
    TextIsAscii();
    var device := Device();
    MessageRoundTrip(device);
    FieldByField(device);
    assert AsField(device[0]) == (1, BytesField(MAISON)) && AsField(device[1]) == (2, BytesField(UPLG));
    assert AsField(device[2]) == (3, VarintField(1)) && AsField(device[3]) == (4, BytesField(ONE));
    assert AsField(device[4]) == (5, BytesField(MAISON)) && AsField(device[5]) == (6, BytesField(VERSION));
  }

  lemma {:induction false} FieldByField(items: seq<Item>)
    requires forall i :: 0 <= i < |items| ==> Fits(items[i])
    ensures |AsFields(items)| == |items|
    ensures forall i :: 0 <= i < |items| ==> AsFields(items)[i] == AsField(items[i])
  {
    hide Fits, AsField;
    if items != [] {
      FieldByField(items[1..]);
    }
  }

  lemma DeviceIsShort()
    ensures |EncodeItems(Device())| <= 180
  {
    hide EncodeItems;
    FlatLength(Device());
  }

  lemma BodyIsRead()
    ensures Fields(EncodeItems([IntItem(1, ACTIVE_FEATURES), NestedItem(2, Device())]), 0)
         == [(1, VarintField(FEATURES)), (2, BytesField(EncodeItems(Device())))]
  {
    hide Fields, EncodeItems;
    DeviceIsShort();
    var items := [IntItem(1, ACTIVE_FEATURES), NestedItem(2, Device())];
    MessageRoundTrip(items);
    FieldByField(items);
    assert AsField(items[0]) == (1, VarintField(FEATURES));
    assert AsField(items[1]) == (2, BytesField(EncodeItems(Device())));
  }

  lemma ConfigurationFits()
    ensures Fits(Configuration())
  {
    hide EncodeItem, EncodeItems;
    DeviceIsShort();
    var first, second := IntItem(1, ACTIVE_FEATURES), NestedItem(2, Device());
    ItemLength(first);
    ItemLength(second);
    OneItem(first);
    OneMoreItem([first], second);
    assert [first] + [second] == [first, second];
  }

  /** An answer is one frame the reader takes whole. */
  lemma AnswerIsOneFrame(field: u32, value: Field)
    requires Reply(field, value).Some?
    ensures AnswerTo(field, value).Some?
         && ReadFrame(AnswerTo(field, value).value) == Message(EncodeItem(Reply(field, value).value), [])
  {
    hide EncodeItem, Fields, ReadFrame, LastValue, Frame;
    var payload := EncodeItem(Reply(field, value).value);
    ReplyIsShort(field, value);
    FrameRoundTripIff(payload, [], MAX_MESSAGE_BYTES);
    assert Frame(payload) + [] == Frame(payload);
  }

  /** The television's remote_set_active is answered by a single field 2 that holds the features. */
  lemma SetActiveIsAnswered(value: Field) returns (payload: seq<byte>, body: seq<byte>)
    ensures AnswerTo(2, value).Some? && ReadFrame(AnswerTo(2, value).value) == Message(payload, [])
    ensures Fields(payload, 0) == [(2, BytesField(body))]
    ensures Fields(body, 0) == [(1, VarintField(FEATURES))]
  {
    payload, body := EncodeItem(SetActive()), EncodeItem(IntItem(1, ACTIVE_FEATURES));
    AnswerIsOneFrame(2, value);
    IntItemIsSmall(ACTIVE_FEATURES);
    OneItem(IntItem(1, ACTIVE_FEATURES));
    hide Fields, EncodeItem, EncodeItems;
    ReadAsSent(IntItem(1, ACTIVE_FEATURES));
    ReadAsSent(SetActive());
  }

  /** A ping that can be read is answered by a single field 9; everything else goes unanswered. */
  lemma OthersAreAnswered(field: u32, value: Field)
    requires field != 1 && field != 2
    ensures AnswerTo(field, value).Some? <==> field == 8 && value.BytesField?
    ensures field == 8 && value.BytesField? ==>
      AnswerTo(field, value) == Some(Frame(EncodeItem(Pong(LastValue(Fields(value.bytes, 0), 0)))))
  {
    hide EncodeItem, Fields, LastValue, Frame;
  }

  // ---------- whose answer a frame is ----------

  /** The number of the one field a frame's message holds. */
  function OwnNumber(frame: seq<byte>): Option<u32> {
    match ReadFrame(frame)
    case Message(payload, _) =>
      var fields := Fields(payload, 0);
      if |fields| == 1 then Some(fields[0].0) else None
    case _ => None
  }

  /** An answer's own field tells what it answers: 1 for 1, 2 for 2, and 9 for 8. */
  lemma AnswersAreNumbered(field: u32, value: Field)
    requires AnswerTo(field, value).Some?
    ensures (field == 1 || field == 2 || field == 8)
         && OwnNumber(AnswerTo(field, value).value) == Some(if field == 8 then 9 else field)
  {
    hide Fields, ReadFrame, EncodeItem, LastValue, Reply;
    OnlyTheseAreAnswered(field, value);
    if field == 1 {
      var payload, body, device := ConfigureIsAnswered(value);
    } else if field == 2 {
      var payload, body := SetActiveIsAnswered(value);
    } else {
      PongIsNumbered(value);
    }
  }

  lemma OnlyTheseAreAnswered(field: u32, value: Field)
    requires AnswerTo(field, value).Some?
    ensures field == 1 || field == 2 || (field == 8 && value.BytesField?)
  {
    hide EncodeItem, Fields, LastValue, Frame;
  }

  lemma PongIsNumbered(value: Field)
    requires value.BytesField?
    ensures AnswerTo(8, value).Some? && OwnNumber(AnswerTo(8, value).value) == Some(9)
  {
    hide Fields, ReadFrame, EncodeItem, LastValue, Frame;
    AnswerIsOneFrame(8, value);
    PongIsRead(LastValue(Fields(value.bytes, 0), 0));
  }

  // ---------- byte by byte ----------

  /** The answer to remote_set_active, as it goes out: six bytes, 611 in two of them. */
  lemma SetActiveBytes(value: Field)
    ensures AnswerTo(2, value) == Some([5, 18, 3, 8, 227, 4])
  {
    assert EncodeVarint(611) == [227, 4] by { assert EncodeVarint(4) == [4]; }
    assert EncodeItem(IntItem(1, 611)) == [8, 227, 4];
    OneItem(IntItem(1, 611));
    hide EncodeItems;
    var payload: seq<byte> := [18, 3, 8, 227, 4];
    assert EncodeItem(SetActive()) == [18, 3] + [8, 227, 4] == payload;
    assert EncodeVarint(5) == [5];
    assert Frame(payload) == [5] + payload;
    assert [5] + payload == [5, 18, 3, 8, 227, 4];
  }
}
