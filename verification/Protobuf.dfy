/** The hand-written protobuf: varints of at most 64 bits, tagged fields, a writer and a reader
    that skips what it does not know, and length-prefixed frames. */
module Protobuf {
  import opened Arithmetic
  import opened Bytes

  const TWO_64 := 0x1_0000_0000_0000_0000
  const MAX_MESSAGE_BYTES := 64 * 1024

  // ---------- varints ----------

  function EncodeVarint(value: nat): (bytes: seq<byte>)
    ensures bytes != []
  {
    if value / 128 == 0 then [value] else [value % 128 + 128] + EncodeVarint(value / 128)
  }

  /** Seven bits a byte, the low ones first. */
  function VarintValue(bytes: seq<byte>): nat {
    if bytes == [] then 0 else bytes[0] % 128 + 128 * VarintValue(bytes[1..])
  }

  /** A byte string that is one varint: every byte but the last says that more follow. */
  predicate Terminated(bytes: seq<byte>) {
    bytes != [] && bytes[|bytes| - 1] < 128 && forall i :: 0 <= i < |bytes| - 1 ==> bytes[i] >= 128
  }

  datatype Pushed = More | Complete(value: u64) | Overflow

  /** Bits moved up by `shift`. */
  function Placed(bits: nat, shift: nat): nat { bits * Pow2(shift) }

  /** One byte into a decoder, which overflows past the 64th bit. */
  function Push(value: nat, shift: nat, b: byte): Pushed {
    var bits := b % 128;
    if shift > 63 || (shift == 63 && bits > 1) then Overflow
    else if b < 128 then var v := value + Placed(bits, shift); if v < TWO_64 then Complete(v) else Overflow
    else More
  }

  /** A varint from the front of the bytes, some of it read already. */
  datatype VarintRead = Value(value: u64, rest: seq<byte>) | Unfinished | TooBig

  function ReadVarint(bytes: seq<byte>, value: nat, shift: nat): VarintRead {
    if bytes == [] then Unfinished
    else match Push(value, shift, bytes[0])
      case Overflow => TooBig
      case Complete(v) => Value(v, bytes[1..])
      case More => ReadVarint(bytes[1..], value + Placed(bytes[0] % 128, shift), shift + 7)
  }

  /** A varint decoder: 64 bits at most, refused rather than wrapped. */
  class Varint {
    var value: nat
    var shift: nat

    /** What was read so far fits below the bit to come, in 64 bits. */
    predicate Valid()
      reads this
    {
      shift % 7 == 0 && shift <= 70 && value < Pow2(shift) && value < TWO_64
    }

    constructor ()
      ensures Valid() && value == 0 && shift == 0
    {
      value, shift := 0, 0;
    }

    /** The bits of a byte land above those read already, so or-ing them in is adding them. */
    method PushByte(b: byte) returns (r: Pushed)
      requires Valid()
      modifies this
      ensures r == Push(old(value), old(shift), b)
      ensures r == More ==> Valid() && value == old(value) + Placed(b % 128, old(shift)) && shift == old(shift) + 7
    {
      hide Pow2, Placed;
      var bits := b % 128;
      if shift > 63 || (shift == 63 && bits > 1) {
        return Overflow;
      }
      BitsFit(value, shift, bits);
      value := value + Placed(bits, shift);
      if b < 128 {
        return Complete(value);
      }
      shift := shift + 7;
      r := More;
    }
  }

  lemma {:induction false} Pow2Adds(a: nat, b: nat)
    ensures Pow2(a + b) == Pow2(a) * Pow2(b)
  {
    if a > 0 {
      Pow2Adds(a - 1, b);
      assert Pow2(a - 1 + b) * 2 == 2 * Pow2(a - 1) * Pow2(b);
    }
  }

  lemma Pow2Of64()
    ensures Pow2(63) == TWO_64 / 2 && Pow2(56) * 128 == TWO_64 / 2 && Pow2(7) == 128
  {
    assert Pow2(7) == 128;
    assert Pow2(14) == 128 * 128 by { Pow2Adds(7, 7); }
    assert Pow2(28) == 128 * 128 * 128 * 128 by { Pow2Adds(14, 14); }
    assert Pow2(56) == 0x100_0000_0000_0000 by { Pow2Adds(28, 28); }
    Pow2Adds(56, 7);
  }

  lemma {:induction false} Pow2Grows(a: nat, b: nat)
    requires a <= b
    ensures Pow2(a) <= Pow2(b)
  {
    if a < b {
      Pow2Grows(a, b - 1);
    }
  }

  /** Seven more bits, or the 64th, stay within 64 bits. */
  lemma BitsFit(value: nat, shift: nat, bits: nat)
    requires shift % 7 == 0 && shift <= 63 && value < Pow2(shift) && bits < 128 && (shift == 63 ==> bits <= 1)
    ensures value + Placed(bits, shift) < TWO_64
    ensures value + Placed(bits, shift) < Pow2(shift + 7)
  {
    hide Pow2;
    Pow2Of64();
    Pow2Adds(shift, 7);
    var p := Pow2(shift);
    if shift < 63 {
      Pow2Grows(shift, 56);
      MulMonotone(bits, 127, p);
    } else {
      MulMonotone(bits, 1, p);
    }
  }

  lemma MulMonotone(a: nat, b: nat, p: nat)
    requires a <= b
    ensures a * p <= b * p
  {
    assert (b - a) * p >= 0;
  }

  lemma PlacedSplits(low: nat, high: nat, shift: nat)
    ensures Placed(low + 128 * high, shift) == Placed(low, shift) + Placed(high, shift + 7)
  {
    Pow2Adds(shift, 7);
    assert Pow2(7) == 128;
    var p := Pow2(shift);
    assert high * (p * 128) == 128 * high * p;
  }

  /** A terminated byte string, read on from `value` and 7 `k` bits, is accepted exactly when no
      more than ten bytes and 64 bits are used in all. */
  lemma {:induction false} ReadOnIff(bytes: seq<byte>, rest: seq<byte>, value: nat, k: nat)
    requires Terminated(bytes) && value < Pow2(7 * k) && value < TWO_64
    ensures var total := value + Placed(VarintValue(bytes), 7 * k);
            ReadVarint(bytes + rest, value, 7 * k)
            == if k + |bytes| <= 10 && total < TWO_64 then Value(total, rest) else TooBig
    decreases |bytes|
  {
    hide Pow2, Placed, Push;
    var shift, bits, tail := 7 * k, bytes[0] % 128, bytes[1..];
    assert (bytes + rest)[1..] == tail + rest && (bytes + rest)[0] == bytes[0];
    PlacedSplits(bits, VarintValue(tail), shift);
    PushCases(value, k, bytes[0]);
    if |bytes| == 1 {
      NothingPlaced(shift + 7);
    } else if Push(value, shift, bytes[0]) == More {
      assert Terminated(tail);
      ReadOnIff(tail, rest, value + Placed(bits, shift), k + 1);
    }
  }

  /** What one byte does after `k` others. */
  lemma PushCases(value: nat, k: nat, b: byte)
    requires value < Pow2(7 * k) && value < TWO_64
    ensures var total := value + Placed(b % 128, 7 * k);
            if k > 9 then Push(value, 7 * k, b) == Overflow
            else if k == 9 && b % 128 > 1 then Push(value, 7 * k, b) == Overflow && total >= TWO_64
            else (&& total < TWO_64 && total < Pow2(7 * (k + 1))
                  && Push(value, 7 * k, b) == if b < 128 then Complete(total) else More)
  {
    hide Pow2, Placed;
    if k == 9 && b % 128 > 1 {
      TwoAtTheTop(b % 128);
    } else if k <= 9 {
      BitsFit(value, 7 * k, b % 128);
    }
  }

  lemma NothingPlaced(shift: nat)
    ensures VarintValue([]) == 0 && Placed(0, shift) == 0
  {
  }

  lemma TwoAtTheTop(bits: nat)
    requires bits > 1
    ensures Placed(bits, 63) >= TWO_64
  {
    Pow2Of64();
    hide Pow2;
    MulMonotone(2, bits, Pow2(63));
  }

  /** A varint is accepted exactly when it is at most ten bytes long and its value fits 64 bits;
      what follows it is left alone. */
  lemma VarintAcceptedIff(bytes: seq<byte>, rest: seq<byte>)
    requires Terminated(bytes)
    ensures ReadVarint(bytes + rest, 0, 0)
         == if |bytes| <= 10 && VarintValue(bytes) < TWO_64 then Value(VarintValue(bytes), rest) else TooBig
  {
    ReadOnIff(bytes, rest, 0, 0);
  }

  /** The length matters too: a zero padded to eleven bytes fits 64 bits and is refused. */
  lemma PaddedZeroIsRefused()
    ensures var bytes: seq<byte> := [128, 128, 128, 128, 128, 128, 128, 128, 128, 128, 0];
            VarintValue(bytes) == 0 && ReadVarint(bytes, 0, 0) == TooBig
  {
    hide VarintValue, ReadVarint;
    var bytes: seq<byte> := [128, 128, 128, 128, 128, 128, 128, 128, 128, 128, 0];
    PaddingIsWorthless(bytes);
    VarintAcceptedIff(bytes, []);
    assert bytes + [] == bytes;
  }

  lemma {:induction false} PaddingIsWorthless(bytes: seq<byte>)
    requires forall i :: 0 <= i < |bytes| ==> bytes[i] % 128 == 0
    ensures VarintValue(bytes) == 0
  {
    if bytes != [] {
      PaddingIsWorthless(bytes[1..]);
    }
  }

  lemma {:induction false} EncodedVarint(value: nat)
    ensures Terminated(EncodeVarint(value)) && VarintValue(EncodeVarint(value)) == value
  {
    if value / 128 != 0 {
      EncodedVarint(value / 128);
      assert EncodeVarint(value)[1..] == EncodeVarint(value / 128);
    }
  }

  lemma {:induction false} EncodedLength(value: nat, k: nat)
    requires value < Pow2(7 * k) && k > 0
    ensures |EncodeVarint(value)| <= k
    decreases k
  {
    if value / 128 != 0 {
      Pow2Adds(7 * (k - 1), 7);
      assert Pow2(7) == 128;
      hide Pow2;
      var p := Pow2(7 * (k - 1));
      assert value < p * 128;
      assert value / 128 < p;
      if k == 1 {
        OneIsPow2OfZero();
      } else {
        EncodedLength(value / 128, k - 1);
      }
    }
  }

  lemma OneIsPow2OfZero()
    ensures Pow2(0) == 1
  {
  }

  /** Every 64-bit value written is read back, whatever follows. */
  lemma VarintRoundTrip(value: u64, rest: seq<byte>)
    ensures ReadVarint(EncodeVarint(value) + rest, 0, 0) == Value(value, rest)
  {
    EncodedVarint(value);
    VarintIsShort(value);
    VarintAcceptedIff(EncodeVarint(value), rest);
  }

  // ---------- fields ----------

  /** A field to write: a 64-bit integer, bytes, or a nested message. */
  datatype Item =
    | IntItem(field: u32, value: u64) | BytesItem(field: u32, bytes: seq<byte>)
    | NestedItem(field: u32, items: seq<Item>)

  function Tag(field: u32, wireType: nat): (bytes: seq<byte>) {
    EncodeVarint(field * 8 + wireType)
  }

  function EncodeItem(item: Item): (bytes: seq<byte>) {
    match item
    case IntItem(field, value) => Tag(field, 0) + EncodeVarint(value)
    case BytesItem(field, bytes) => Tag(field, 2) + EncodeVarint(|bytes|) + bytes
    case NestedItem(field, items) => var bytes := EncodeItems(items); Tag(field, 2) + EncodeVarint(|bytes|) + bytes
  }

  function EncodeItems(items: seq<Item>): (bytes: seq<byte>) {
    if items == [] then [] else EncodeItem(items[0]) + EncodeItems(items[1..])
  }

  datatype Field = VarintField(value: u64) | BytesField(bytes: seq<byte>) | Skipped

  datatype FieldRead = NoField | OneField(field: u32, value: Field, pos: nat)

  /** The field at `pos`, and where the next one starts. */
  function NextField(bytes: seq<byte>, pos: nat): (r: FieldRead)
    ensures r.OneField? ==> pos < |bytes| && pos < r.pos
  {
    if pos >= |bytes| then NoField
    else
      match ReadVarint(bytes[pos..], 0, 0)
      case Unfinished => NoField
      case TooBig => NoField
      case Value(key, rest) =>
        var start := |bytes| - |rest|;
        ReadAdvances(bytes[pos..], 0, 0);
        if key / 8 >= 0x1_0000_0000 then NoField
        else if key % 8 == 0 then
          match ReadVarint(rest, 0, 0)
          case Value(value, after) => ReadAdvances(rest, 0, 0); OneField(key / 8, VarintField(value), |bytes| - |after|)
          case _ => NoField
        else if key % 8 == 2 then
          match ReadVarint(rest, 0, 0)
          case Value(length, after) =>
            ReadAdvances(rest, 0, 0);
            if length > |after| then NoField
            else OneField(key / 8, BytesField(after[..length]), |bytes| - |after| + length)
          case _ => NoField
        else if key % 8 == 1 then OneField(key / 8, Skipped, start + 8)
        else if key % 8 == 5 then OneField(key / 8, Skipped, start + 4)
        else NoField
  }

  /** Reading takes at least a byte and leaves a suffix. */
  lemma {:induction false} ReadAdvances(bytes: seq<byte>, value: nat, shift: nat)
    ensures var r := ReadVarint(bytes, value, shift);
            r.Value? ==> |r.rest| < |bytes| && r.rest == bytes[|bytes| - |r.rest|..]
    decreases |bytes|
  {
    if bytes != [] && Push(value, shift, bytes[0]) == More {
      ReadAdvances(bytes[1..], value + Placed(bytes[0] % 128, shift), shift + 7);
    }
  }

  /** Every field of a message, until the end or the first one that cannot be read. */
  function Fields(bytes: seq<byte>, pos: nat): seq<(u32, Field)>
    decreases |bytes| - pos
  {
    match NextField(bytes, pos)
    case NoField => []
    case OneField(field, value, next) => [(field, value)] + Fields(bytes, next)
  }

  /** A message grows at its end. */
  lemma {:induction false} OneMoreItem(items: seq<Item>, item: Item)
    ensures EncodeItems(items + [item]) == EncodeItems(items) + EncodeItem(item)
  {
    hide EncodeItem;
    if items != [] {
      OneMoreItem(items[1..], item);
      assert (items + [item])[1..] == items[1..] + [item];
    }
  }

  /** A 64-bit varint is at most ten bytes. */
  lemma VarintIsShort(value: u64)
    ensures |EncodeVarint(value)| <= 10
  {
    Pow2Of64();
    Pow2Adds(63, 7);
    assert Pow2(7) == 128;
    hide Pow2;
    EncodedLength(value, 10);
  }

  // ---------- reading what was written ----------

  /** An item as the reader sees it: a nested message is its bytes. */
  function AsField(item: Item): (u32, Field)
    requires Fits(item)
  {
    match item
    case IntItem(field, value) => (field, VarintField(value))
    case BytesItem(field, bytes) => (field, BytesField(bytes))
    case NestedItem(field, items) => (field, BytesField(EncodeItems(items)))
  }

  /** A length the writer can state in 64 bits, as every length in memory is. */
  predicate Fits(item: Item) {
    match item
    case IntItem(_, _) => true
    case BytesItem(_, bytes) => |bytes| < TWO_64
    case NestedItem(_, items) => |EncodeItems(items)| < TWO_64
  }

  function AsFields(items: seq<Item>): (fields: seq<(u32, Field)>)
    requires forall i :: 0 <= i < |items| ==> Fits(items[i])
  {
    if items == [] then [] else [AsField(items[0])] + AsFields(items[1..])
  }

  /** A tag is read back, and leaves what follows. */
  lemma TagIsRead(field: u32, wireType: nat, rest: seq<byte>)
    requires wireType < 8
    ensures var r := ReadVarint(Tag(field, wireType) + rest, 0, 0);
            r.Value? && r.rest == rest && r.value / 8 == field && r.value % 8 == wireType
  {
    VarintRoundTrip(field * 8 + wireType, rest);
  }

  lemma BytesFieldIsRead(prefix: seq<byte>, field: u32, payload: seq<byte>, rest: seq<byte>)
    requires |payload| < TWO_64
    ensures var item := Tag(field, 2) + EncodeVarint(|payload|) + payload;
            NextField(prefix + item + rest, |prefix|) == OneField(field, BytesField(payload), |prefix| + |item|)
  {
    var length := EncodeVarint(|payload|);
    var item := Tag(field, 2) + length + payload;
    var bytes := prefix + item + rest;
    assert bytes[|prefix|..] == Tag(field, 2) + (length + (payload + rest));
    hide EncodeVarint, ReadVarint, Tag;
    TagIsRead(field, 2, length + (payload + rest));
    VarintRoundTrip(|payload|, payload + rest);
    assert (payload + rest)[..|payload|] == payload;
  }

  lemma IntFieldIsRead(prefix: seq<byte>, field: u32, value: u64, rest: seq<byte>)
    ensures var item := Tag(field, 0) + EncodeVarint(value);
            NextField(prefix + item + rest, |prefix|) == OneField(field, VarintField(value), |prefix| + |item|)
  {
    var item := Tag(field, 0) + EncodeVarint(value);
    var bytes := prefix + item + rest;
    assert bytes[|prefix|..] == Tag(field, 0) + (EncodeVarint(value) + rest);
    hide EncodeVarint, ReadVarint, Tag;
    TagIsRead(field, 0, EncodeVarint(value) + rest);
    VarintRoundTrip(value, rest);
  }

  /** Fields of eight and four bytes are passed over, and a wire type the reader does not know ends
      the message. */
  lemma OtherFieldsAreSkipped(prefix: seq<byte>, field: u32, wireType: nat, rest: seq<byte>)
    requires wireType < 8 && wireType != 0 && wireType != 2
    ensures var next := |prefix| + |Tag(field, wireType)|;
            NextField(prefix + Tag(field, wireType) + rest, |prefix|)
            == if wireType == 1 then OneField(field, Skipped, next + 8)
               else if wireType == 5 then OneField(field, Skipped, next + 4) else NoField
  {
    var bytes := prefix + Tag(field, wireType) + rest;
    assert bytes[|prefix|..] == Tag(field, wireType) + rest;
    TagIsThere(field, wireType);
    hide EncodeVarint, ReadVarint, Tag;
    TagIsRead(field, wireType, rest);
  }

  lemma TagIsThere(field: u32, wireType: nat)
    ensures |Tag(field, wireType)| > 0
  {
  }

  lemma {:induction false} ItemsAreRead(prefix: seq<byte>, items: seq<Item>)
    requires forall i :: 0 <= i < |items| ==> Fits(items[i])
    ensures Fields(prefix + EncodeItems(items), |prefix|) == AsFields(items)
    decreases |items|
  {
    if items == [] {
      assert prefix + EncodeItems(items) == prefix;
    } else {
      var item, rest := EncodeItem(items[0]), EncodeItems(items[1..]);
      assert prefix + EncodeItems(items) == prefix + item + rest;
      match items[0] {
        case IntItem(field, value) => IntFieldIsRead(prefix, field, value, rest);
        case BytesItem(field, bytes) => BytesFieldIsRead(prefix, field, bytes, rest);
        case NestedItem(field, nested) => BytesFieldIsRead(prefix, field, EncodeItems(nested), rest);
      }
      hide NextField;
      ItemsAreRead(prefix + item, items[1..]);
    }
  }

  /** The reader yields exactly the fields written, in order. */
  lemma MessageRoundTrip(items: seq<Item>)
    requires forall i :: 0 <= i < |items| ==> Fits(items[i])
    ensures Fields(EncodeItems(items), 0) == AsFields(items)
  {
    ItemsAreRead([], items);
    assert [] + EncodeItems(items) == EncodeItems(items);
  }

  // ---------- frames ----------

  function Frame(payload: seq<byte>): (bytes: seq<byte>) {
    EncodeVarint(|payload|) + payload
  }

  datatype FrameRead = Message(payload: seq<byte>, rest: seq<byte>) | Waiting | Malformed | Oversized

  /** One length-prefixed message, of a limited length, from the front of a stream. */
  function ReadFrameWithin(stream: seq<byte>, limit: nat): FrameRead {
    match ReadVarint(stream, 0, 0)
    case Unfinished => Waiting
    case TooBig => Malformed
    case Value(length, rest) =>
      if length > limit then Oversized
      else if |rest| < length then Waiting
      else Message(rest[..length], rest[length..])
  }

  /** A message as the session reads it: 64 KiB at most. */
  function ReadFrame(stream: seq<byte>): FrameRead {
    ReadFrameWithin(stream, MAX_MESSAGE_BYTES)
  }

  lemma {:induction false} MoreBytesKeepTheVarint(stream: seq<byte>, more: seq<byte>, value: nat, shift: nat)
    ensures match ReadVarint(stream, value, shift)
            case Unfinished => true
            case TooBig => ReadVarint(stream + more, value, shift) == TooBig
            case Value(v, rest) => ReadVarint(stream + more, value, shift) == Value(v, rest + more)
    decreases |stream|
  {
    hide Push, Placed;
    if stream != [] {
      assert (stream + more)[1..] == stream[1..] + more;
      if Push(value, shift, stream[0]) == More {
        MoreBytesKeepTheVarint(stream[1..], more, value + Placed(stream[0] % 128, shift), shift + 7);
      }
    }
  }

  /** A frame is read the same however much of the stream has arrived behind it. */
  lemma MoreBytesKeepTheFrame(stream: seq<byte>, more: seq<byte>, limit: nat)
    ensures match ReadFrameWithin(stream, limit)
            case Waiting => true
            case Message(p, rest) => ReadFrameWithin(stream + more, limit) == Message(p, rest + more)
            case bad => ReadFrameWithin(stream + more, limit) == bad
  {
    hide ReadVarint;
    MoreBytesKeepTheVarint(stream, more, 0, 0);
    match ReadVarint(stream, 0, 0)
    case Unfinished =>
    case TooBig =>
    case Value(length, rest) =>
      if length <= |rest| {
        assert (rest + more)[..length] == rest[..length];
        assert (rest + more)[length..] == rest[length..] + more;
      }
  }

  /** A frame sent is received exactly when it is within the limit; for the session's, 64 KiB. */
  lemma FrameRoundTripIff(payload: seq<byte>, rest: seq<byte>, limit: nat)
    requires |payload| < TWO_64
    ensures ReadFrameWithin(Frame(payload) + rest, limit)
         == if |payload| <= limit then Message(payload, rest) else Oversized
    ensures ReadFrame(Frame(payload) + rest)
         == if |payload| <= 65_536 then Message(payload, rest) else Oversized
  {
    VarintRoundTrip(|payload|, payload + rest);
    assert Frame(payload) + rest == EncodeVarint(|payload|) + (payload + rest);
    assert (payload + rest)[..|payload|] == payload && (payload + rest)[|payload|..] == rest;
  }

  // ---------- the writer and the reader ----------

  class ProtoBuf {
    var bytes: seq<byte>

    constructor ()
      ensures bytes == []
    {
      bytes := [];
    }

    method PutVarint(value: u64)
      modifies this
      ensures bytes == old(bytes) + EncodeVarint(value)
    {
      var left: nat := value;
      while true
        invariant bytes + EncodeVarint(left) == old(bytes) + EncodeVarint(value)
        decreases left
      {
        var low := left % 128;
        ghost var before := left;
        left := left / 128;
        if left == 0 {
          bytes := bytes + [low];
          return;
        }
        assert EncodeVarint(before) == [low + 128] + EncodeVarint(left);
        bytes := bytes + [low + 128];
      }
    }

    method PutTag(field: u32, wireType: nat)
      requires wireType < 8
      modifies this
      ensures bytes == old(bytes) + Tag(field, wireType)
    {
      PutVarint(field * 8 + wireType);
    }

    method PutInt(field: u32, value: u64)
      modifies this
      ensures bytes == old(bytes) + EncodeItem(IntItem(field, value))
      ensures |bytes| <= |old(bytes)| + 20
    {
      VarintIsShort(field * 8);
      VarintIsShort(value);
      PutTag(field, 0);
      PutVarint(value);
    }

    method PutBytes(field: u32, value: seq<byte>)
      requires |value| < TWO_64
      modifies this
      ensures bytes == old(bytes) + EncodeItem(BytesItem(field, value))
      ensures |bytes| <= |old(bytes)| + 20 + |value|
    {
      VarintIsShort(field * 8 + 2);
      VarintIsShort(|value|);
      PutTag(field, 2);
      PutVarint(|value|);
      bytes := bytes + value;
    }

    method PutMessage(field: u32, nested: ProtoBuf, ghost items: seq<Item>)
      requires nested != this && nested.bytes == EncodeItems(items) && |nested.bytes| < TWO_64
      modifies this
      ensures bytes == old(bytes) + EncodeItem(NestedItem(field, items))
      ensures |bytes| <= |old(bytes)| + 20 + |nested.bytes|
    {
      PutBytes(field, nested.bytes);
    }

    method Framed() returns (frame: seq<byte>)
      requires |bytes| < TWO_64
      ensures frame == Frame(bytes)
    {
      var out := new ProtoBuf();
      out.PutVarint(|bytes|);
      frame := out.bytes + bytes;
    }
  }

  class ProtoReader {
    const bytes: seq<byte>
    var pos: nat

    constructor (bytes: seq<byte>)
      ensures this.bytes == bytes && pos == 0
    {
      this.bytes := bytes;
      pos := 0;
    }

    /** A varint at the position, byte by byte through the decoder. */
    method GetVarint() returns (r: VarintRead)
      requires pos <= |bytes|
      modifies this
      ensures r == ReadVarint(bytes[old(pos)..], 0, 0)
      ensures pos <= |bytes| && (r.Value? ==> pos == |bytes| - |r.rest|)
    {
      var decoder := new Varint();
      while pos < |bytes|
        invariant old(pos) <= pos <= |bytes| && decoder.Valid() && fresh(decoder)
        invariant ReadVarint(bytes[pos..], decoder.value, decoder.shift) == ReadVarint(bytes[old(pos)..], 0, 0)
        decreases |bytes| - pos
      {
        hide Push, Placed, Pow2;
        var b := bytes[pos];
        assert bytes[pos..][1..] == bytes[pos + 1..];
        pos := pos + 1;
        var pushed := decoder.PushByte(b);
        match pushed {
          case Overflow => return TooBig;
          case Complete(v) => return Value(v, bytes[pos..]);
          case More =>
        }
      }
      r := Unfinished;
    }

    /** The next field; `None` at the end and on anything that cannot be read. */
    method GetField() returns (r: Option<(u32, Field)>)
      modifies this
      ensures match NextField(bytes, old(pos))
              case NoField => r == None
              case OneField(field, value, next) => r == Some((field, value)) && pos == next
    {
      hide ReadVarint, Push, Placed;
      if pos >= |bytes| {
        return None;
      }
      var key := GetVarint();
      if !key.Value? {
        return None;
      }
      ReadAdvances(bytes[old(pos)..], 0, 0);
      assert key.rest == bytes[pos..];
      var field := key.value / 8;
      if field >= 0x1_0000_0000 {
        return None;
      }
      var wireType := key.value % 8;
      if wireType == 0 {
        var value := GetVarint();
        if !value.Value? {
          return None;
        }
        return Some((field, VarintField(value.value)));
      } else if wireType == 2 {
        var start := pos;
        var length := GetVarint();
        if !length.Value? {
          return None;
        }
        ReadAdvances(bytes[start..], 0, 0);
        assert length.rest == bytes[pos..];
        if length.value > |bytes| - pos {
          return None;
        }
        var slice := bytes[pos..][..length.value];
        pos := pos + length.value;
        return Some((field, BytesField(slice)));
      } else if wireType == 1 {
        pos := pos + 8;
        return Some((field, Skipped));
      } else if wireType == 5 {
        pos := pos + 4;
        return Some((field, Skipped));
      }
      r := None;
    }
  }
}
