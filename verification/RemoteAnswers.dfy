/** What the television's remote service is told: one answer per field that asks for one, and
    the framed messages it asks in. */
module RemoteAnswers {
  import opened Bytes
  import opened Protobuf

  /** PING | KEY | POWER | VOLUME | APP_LINK. */
  const ACTIVE_FEATURES: u64 := 1 + 2 + 32 + 64 + 512

  /** Plain text as the bytes of a string field. */
  function Ascii(text: string): (bytes: seq<byte>)
    requires forall i :: 0 <= i < |text| ==> text[i] < 128 as char
  {
    seq(|text|, i requires 0 <= i < |text| => text[i] as int)
  }

  function Device(): (items: seq<Item>) {
    [BytesItem(1, Ascii("maison")), BytesItem(2, Ascii("uplg")), IntItem(3, 1),
     BytesItem(4, Ascii("1")), BytesItem(5, Ascii("maison")), BytesItem(6, Ascii("1.0.0"))]
  }

  function Configuration(): Item {
    NestedItem(1, [IntItem(1, ACTIVE_FEATURES), NestedItem(2, Device())])
  }

  function SetActive(): Item {
    NestedItem(2, [IntItem(1, ACTIVE_FEATURES)])
  }

  function Pong(value: u64): Item {
    NestedItem(9, [IntItem(1, value)])
  }

  /** The last integer of field 1, or what there was before. */
  function LastValue(fields: seq<(u32, Field)>, value: u64): u64 {
    if fields == [] then value
    else LastValue(fields[1..], if fields[0].0 == 1 && fields[0].1.VarintField? then fields[0].1.value else value)
  }

  /** The message that answers a field, if one does. */
  function Reply(field: u32, value: Field): Option<Item> {
    if field == 1 then Some(Configuration())
    else if field == 2 then Some(SetActive())
    else if field == 8 && value.BytesField? then Some(Pong(LastValue(Fields(value.bytes, 0), 0)))
    else None
  }

  function AnswerTo(field: u32, value: Field): Option<seq<byte>> {
    match Reply(field, value)
    case None => None
    case Some(item) => Some(Frame(EncodeItem(item)))
  }

  // ---------- the writer and the readers ----------

  /** One item more at the end of a message being built. */
  lemma Built(items: seq<Item>, k: nat)
    requires k < |items|
    ensures EncodeItems(items[..k]) + EncodeItem(items[k]) == EncodeItems(items[..k + 1])
  {
    assert items[..k + 1] == items[..k] + [items[k]];
    OneMoreItem(items[..k], items[k]);
  }

  method BuildDevice() returns (info: ProtoBuf)
    ensures fresh(info) && info.bytes == EncodeItems(Device()) && |info.bytes| <= 200
  {
    hide EncodeItem, EncodeItems;
    info := new ProtoBuf();
    ghost var device := Device();
    assert info.bytes == EncodeItems(device[..0]) by { assert device[..0] == []; NoItems(); }
    info.PutBytes(1, Ascii("maison"));
    Built(device, 0);
    info.PutBytes(2, Ascii("uplg"));
    Built(device, 1);
    info.PutInt(3, 1);
    Built(device, 2);
    info.PutBytes(4, Ascii("1"));
    Built(device, 3);
    info.PutBytes(5, Ascii("maison"));
    Built(device, 4);
    info.PutBytes(6, Ascii("1.0.0"));
    Built(device, 5);
    assert device[..6] == device;
  }

  lemma NoItems()
    ensures EncodeItems([]) == []
  {
  }

  lemma OneItem(item: Item)
    ensures EncodeItems([item]) == EncodeItem(item)
  {
    hide EncodeItem;
    assert [item][1..] == [];
  }

  /** One message holding one field, as most answers are. */
  method BuildNested(field: u32, value: u64) returns (m: ProtoBuf)
    ensures fresh(m) && m.bytes == EncodeItem(NestedItem(field, [IntItem(1, value)])) && |m.bytes| <= 40
  {
    hide EncodeItem;
    var nested := new ProtoBuf();
    nested.PutInt(1, value);
    OneItem(IntItem(1, value));
    m := new ProtoBuf();
    m.PutMessage(field, nested, [IntItem(1, value)]);
  }

  method BuildConfiguration() returns (m: ProtoBuf)
    ensures fresh(m) && m.bytes == EncodeItem(Configuration()) && |m.bytes| <= 260
  {
    hide EncodeItem;
    var configuration := new ProtoBuf();
    configuration.PutInt(1, ACTIVE_FEATURES);
    OneItem(IntItem(1, ACTIVE_FEATURES));
    var info := BuildDevice();
    configuration.PutMessage(2, info, Device());
    OneMoreItem([IntItem(1, ACTIVE_FEATURES)], NestedItem(2, Device()));
    ghost var items := [IntItem(1, ACTIVE_FEATURES), NestedItem(2, Device())];
    assert items == [IntItem(1, ACTIVE_FEATURES)] + [NestedItem(2, Device())];
    m := new ProtoBuf();
    m.PutMessage(1, configuration, items);
  }

  /** The value a ping carries: a loop over its fields that keeps the last. */
  method ReadPing(body: seq<byte>) returns (value: u64)
    ensures value == LastValue(Fields(body, 0), 0)
  {
    hide NextField;
    value := 0;
    var inner := new ProtoReader(body);
    while true
      invariant fresh(inner) && inner.bytes == body
      invariant LastValue(Fields(body, inner.pos), value) == LastValue(Fields(body, 0), 0)
      decreases |body| - inner.pos
    {
      ghost var before := inner.pos;
      var field := inner.GetField();
      if field == None {
        return;
      }
      FieldsFrom(body, before);
      if field.value.0 == 1 && field.value.1.VarintField? {
        value := field.value.1.value;
      }
    }
  }

  /** The fields from a position: the one there, and those after it. */
  lemma FieldsFrom(bytes: seq<byte>, pos: nat)
    ensures match NextField(bytes, pos)
            case NoField => Fields(bytes, pos) == []
            case OneField(field, value, next) =>
              (&& pos < next && pos < |bytes|
               && Fields(bytes, pos) == [(field, value)] + Fields(bytes, next)
               && Fields(bytes, pos)[1..] == Fields(bytes, next))
  {
  }

  /** Builds the answer to a field: the frame of the reply, or nothing. */
  method Answer(field: u32, value: Field) returns (answer: Option<seq<byte>>)
    ensures answer == AnswerTo(field, value)
  {
    hide EncodeItem, Fields;
    var m;
    if field == 1 {
      m := BuildConfiguration();
    } else if field == 2 {
      m := BuildNested(2, ACTIVE_FEATURES);
    } else if field == 8 && value.BytesField? {
      var ping := ReadPing(value.bytes);
      m := BuildNested(9, ping);
    } else {
      return None;
    }
    var frame := m.Framed();
    answer := Some(frame);
  }

  /** The bytes of a connection, read in order. */
  class Stream {
    const bytes: seq<byte>
    var pos: nat

    constructor (bytes: seq<byte>)
      ensures this.bytes == bytes && pos == 0
    {
      this.bytes := bytes;
      pos := 0;
    }

    /** One length-delimited message: the length a byte at a time, then the payload.
        `Waiting` is a stream that ended first. */
    method ReadFramed() returns (r: FrameRead)
      requires pos <= |bytes|
      modifies this
      ensures r == ReadFrame(bytes[old(pos)..])
      ensures pos <= |bytes| && (r.Message? ==> r.rest == bytes[pos..])
    {
      hide Push, Placed;
      var decoder := new Varint();
      var length: Option<u64> := None;
      while length == None
        invariant old(pos) <= pos <= |bytes| && fresh(decoder) && (length == None ==> decoder.Valid())
        invariant ReadVarint(bytes[old(pos)..], 0, 0)
               == match length
                  case None => ReadVarint(bytes[pos..], decoder.value, decoder.shift)
                  case Some(n) => Value(n, bytes[pos..])
        decreases |bytes| - pos + if length == None then 1 else 0
      {
        if pos == |bytes| {
          return Waiting;
        }
        var b := bytes[pos];
        assert bytes[pos..][1..] == bytes[pos + 1..];
        pos := pos + 1;
        var pushed := decoder.PushByte(b);
        match pushed {
          case Overflow => return Malformed;
          case Complete(v) => length := Some(v);
          case More =>
        }
      }
      if length.value > MAX_MESSAGE_BYTES {
        return Oversized;
      }
      if |bytes| - pos < length.value {
        return Waiting;
      }
      var payload := bytes[pos..][..length.value];
      assert bytes[pos..][length.value..] == bytes[pos + length.value..];
      pos := pos + length.value;
      r := Message(payload, bytes[pos..]);
    }
  }

  // ---------- what the answers say ----------

  /** An integer of field 1. */
  predicate IsValue(item: Item) { item.IntItem? && item.field == 1 }

  /** A ping is answered by a pong that carries its last value, whatever the fields around it; the
      television reads exactly that one field. */
  lemma PongCarriesThePing(before: seq<Item>, value: u64, after: seq<Item>)
    requires forall i :: 0 <= i < |before| ==> Fits(before[i])
    requires forall i :: 0 <= i < |after| ==> Fits(after[i]) && !IsValue(after[i])
    ensures var ping := EncodeItems(before + [IntItem(1, value)] + after);
            && Reply(8, BytesField(ping)) == Some(Pong(value))
            && Fields(EncodeItem(Pong(value)), 0) == [(9, BytesField(EncodeItem(IntItem(1, value))))]
            && Fields(EncodeItem(IntItem(1, value)), 0) == [(1, VarintField(value))]
  {
    hide *;
    PingIsHeard(before, value, after);
    PongIsRead(value);
  }

  lemma PingIsHeard(before: seq<Item>, value: u64, after: seq<Item>)
    requires forall i :: 0 <= i < |before| ==> Fits(before[i])
    requires forall i :: 0 <= i < |after| ==> Fits(after[i]) && !IsValue(after[i])
    ensures Reply(8, BytesField(EncodeItems(before + [IntItem(1, value)] + after))) == Some(Pong(value))
  {
    hide Fields, EncodeItems, EncodeItem, AsFields, LastValue;
    MessageRoundTrip(before + [IntItem(1, value)] + after);
    LastOfFieldOne(before, value, after, 0);
  }

  lemma PongIsRead(value: u64)
    ensures Fields(EncodeItem(Pong(value)), 0) == [(9, BytesField(EncodeItem(IntItem(1, value))))]
    ensures Fields(EncodeItem(IntItem(1, value)), 0) == [(1, VarintField(value))]
  {
    hide Fields, EncodeItem, EncodeItems;
    var inner := IntItem(1, value);
    IntItemIsSmall(value);
    OneItem(inner);
    MessageRoundTrip([inner]);
    OneItem(Pong(value));
    MessageRoundTrip([Pong(value)]);
    OneField(inner);
    OneField(Pong(value));
  }

  lemma OneField(item: Item)
    requires Fits(item)
    ensures AsFields([item]) == [AsField(item)]
  {
    hide Fits, AsField;
    assert [item][1..] == [];
  }

  lemma IntItemIsSmall(value: u64)
    ensures |EncodeItem(IntItem(1, value))| <= 20
  {
    VarintIsShort(8);
    VarintIsShort(value);
  }

  lemma {:induction false} LastOfFieldOne(before: seq<Item>, value: u64, after: seq<Item>, start: u64)
    requires forall i :: 0 <= i < |before| ==> Fits(before[i])
    requires forall i :: 0 <= i < |after| ==> Fits(after[i]) && !IsValue(after[i])
    ensures LastValue(AsFields(before + [IntItem(1, value)] + after), start) == value
    decreases |before| + |after|
  {
    var items := before + [IntItem(1, value)] + after;
    if before != [] {
      assert items[1..] == before[1..] + [IntItem(1, value)] + after;
      var first := AsField(before[0]);
      LastOfFieldOne(before[1..], value, after, if first.0 == 1 && first.1.VarintField? then first.1.value else start);
    } else {
      assert items[1..] == after;
      NoFieldOne(after, value);
    }
  }

  lemma {:induction false} NoFieldOne(items: seq<Item>, value: u64)
    requires forall i :: 0 <= i < |items| ==> Fits(items[i]) && !IsValue(items[i])
    ensures LastValue(AsFields(items), value) == value
  {
    if items != [] {
      NoFieldOne(items[1..], value);
    }
  }

  // ---------- how long they are ----------

  lemma ItemLength(item: Item)
    requires item.NestedItem? ==> |EncodeItems(item.items)| < TWO_64
    requires item.BytesItem? ==> |item.bytes| < TWO_64
    ensures |EncodeItem(item)| <= 20 + match item
                                        case IntItem(_, _) => 0
                                        case BytesItem(_, bytes) => |bytes|
                                        case NestedItem(_, items) => |EncodeItems(items)|
  {
    hide EncodeVarint, EncodeItems;
    match item
    case IntItem(field, value) => VarintIsShort(field * 8); VarintIsShort(value);
    case BytesItem(field, bytes) => VarintIsShort(field * 8 + 2); VarintIsShort(|bytes|);
    case NestedItem(field, items) => VarintIsShort(field * 8 + 2); VarintIsShort(|EncodeItems(items)|);
  }

  /** Short strings and integers make a short message. */
  lemma {:induction false} FlatLength(items: seq<Item>)
    requires forall i :: 0 <= i < |items| ==> items[i].IntItem? || (items[i].BytesItem? && |items[i].bytes| <= 10)
    ensures |EncodeItems(items)| <= 30 * |items|
  {
    hide EncodeItem;
    if items != [] {
      ItemLength(items[0]);
      FlatLength(items[1..]);
    }
  }

  /** Every answer is a few hundred bytes at most. */
  lemma ReplyIsShort(field: u32, value: Field)
    ensures Reply(field, value).Some? ==> |EncodeItem(Reply(field, value).value)| <= 300
  {
    hide EncodeItem, EncodeItems, Fields, LastValue;
    var reply := Reply(field, value);
    if field == 1 {
      FlatLength(Device());
      var first, second := IntItem(1, ACTIVE_FEATURES), NestedItem(2, Device());
      ItemLength(first);
      ItemLength(second);
      OneItem(first);
      OneMoreItem([first], second);
      assert [first] + [second] == [first, second];
      ItemLength(Configuration());
    } else if reply.Some? {
      FlatLength(reply.value.items);
      ItemLength(reply.value);
    }
  }
}
