/** The switch-history blob (SwitchHistoryList): a count byte followed by that
    many 8-byte items, each a 32-bit timestamp, the switch command, the switch
    state and a 16-bit source, all little-endian. Bytes past the last item are
    ignored. */
module SwitchHistory {
  import opened Bytes
  import opened Wrappers
  import opened Errors
  import Conversion
  import DataStepper

  datatype Item = Item(timestamp: u32, switchCommand: u8, switchState: u8, source: u16)

  /** The field layout of one item, stated with the conversion helpers. */
  function DecodeItem(s: seq<u8>): (item: Item)
    requires |s| >= 8
    ensures Conversion.Uint32ToBytes(item.timestamp) == s[..4]
    ensures item.switchCommand == s[4] && item.switchState == s[5]
    ensures Conversion.Uint16ToBytes(item.source) == s[6..8]
  {
    Conversion.BytesRoundTrip(s);
    Item(Conversion.BytesToUint32(s), s[4], s[5], Conversion.BytesToUint16(s[6..]))
  }

  /** The inverse of DecodeItem. */
  function EncodeItem(item: Item): (r: seq<u8>)
    ensures |r| == 8 && DecodeItem(r) == item
  {
    var ts := Conversion.Uint32ToBytes(item.timestamp);
    var src := Conversion.Uint16ToBytes(item.source);
    var r := ts + [item.switchCommand, item.switchState] + src;
    assert r[..4] == ts && r[6..] == src && r[6..8] == src;
    r
  }

  /** One pass of the loop body: four stepper reads. */
  function ReadItem(rest: seq<u8>): (r: Result<(Item, seq<u8>), BluenetError>)
    ensures r.Ok? <==> 8 <= |rest|
    ensures r.Ok? ==> r.value.0 == DecodeItem(rest) && r.value.1 == rest[8..]
    ensures r.Err? ==> r.error == NotEnoughData
  {
    var (timestamp, afterTimestamp) :- DataStepper.GetUInt32(rest);
    var (switchCommand, afterCommand) :- DataStepper.GetUInt8(afterTimestamp);
    var (switchState, afterState) :- DataStepper.GetUInt8(afterCommand);
    var (source, afterSource) :- DataStepper.GetUInt16(afterState);
    assert afterState[..2] == rest[6..8];
    Conversion.Uint32IsLittleEndian(rest);
    Ok((Item(timestamp, switchCommand, switchState, source), afterSource))
  }

  /** count passes of the loop; the first short item throws. */
  function ReadItems(rest: seq<u8>, count: nat): (r: Result<seq<Item>, BluenetError>)
    ensures r.Ok? <==> 8 * count <= |rest|
    ensures r.Ok? ==> |r.value| == count
    ensures r.Ok? ==> forall i :: 0 <= i < count ==> r.value[i] == DecodeItem(rest[8 * i..])
    ensures r.Err? ==> r.error == NotEnoughData
    decreases count
  {
    if count == 0 then Ok([])
    else
      var (item, tail) :- ReadItem(rest);
      var more :- ReadItems(tail, count - 1);
      forall i | 1 <= i < count
        ensures tail[8 * (i - 1)..] == rest[8 * i..]
      {
        SuffixOfSuffix(rest, 8, 8 * (i - 1));
      }
      Ok([item] + more)
  }

  /** init(dataBlob) as written: an empty blob throws on the count read, and a
      count of 0 traps on the range 0...-1. */
  function InitAsWritten(blob: seq<u8>): (r: Outcome<Result<seq<Item>, BluenetError>>)
    ensures r.Trapped? <==> |blob| > 0 && blob[0] == 0
    ensures |blob| == 0 ==> r == Done(Err(NotEnoughData))
    ensures |blob| > 0 && blob[0] > 0 ==> r == Done(ReadItems(blob[1..], blob[0]))
  {
    if |blob| == 0 then Done(Err(NotEnoughData))
    else if blob[0] == 0 then Trapped
    else Done(ReadItems(blob[1..], blob[0]))
  }

  /** init(dataBlob) with an empty history read as an empty list. */
  function Init(blob: seq<u8>): (r: Result<seq<Item>, BluenetError>)
    ensures r.Ok? <==> |blob| > 0 && 8 * blob[0] <= |blob| - 1
    ensures r.Ok? ==> |r.value| == blob[0]
    ensures r.Ok? ==> forall i :: 0 <= i < |r.value| ==> r.value[i] == DecodeItem(blob[1 + 8 * i..])
    ensures InitAsWritten(blob).Done? ==> InitAsWritten(blob) == Done(r)
  {
    if |blob| == 0 then Err(NotEnoughData)
    else ReadItems(blob[1..], blob[0])
  }

  /** An empty history, as a Crownstone sends it, traps the as-written
      parser and parses to no items with the corrected one. */
  lemma EmptyHistoryTraps()
    ensures InitAsWritten([0]) == Trapped
    ensures Init([0]) == Ok([])
  {
  }

  function EncodeItems(items: seq<Item>): (r: seq<u8>)
    ensures |r| == 8 * |items|
  {
    if |items| == 0 then [] else EncodeItem(items[0]) + EncodeItems(items[1..])
  }

  /** The blob a Crownstone would send for these items. */
  function Encode(items: seq<Item>): (r: seq<u8>)
    requires |items| < 0x100
    ensures |r| == 1 + 8 * |items| && r[0] == |items|
  {
    [|items| as u8] + EncodeItems(items)
  }

  lemma {:induction false} ReadEncodedItems(items: seq<Item>)
    ensures ReadItems(EncodeItems(items), |items|) == Ok(items)
  {
    if |items| > 0 {
      var s := EncodeItems(items);
      assert s[..8] == EncodeItem(items[0]) && s[8..] == EncodeItems(items[1..]);
      assert DecodeItem(s) == DecodeItem(s[..8]);
      ReadEncodedItems(items[1..]);
      assert [items[0]] + items[1..] == items;
    }
  }

  /** Parsing the encoding of a history gives back its items. */
  lemma {:induction false} RoundTrip(items: seq<Item>)
    requires |items| < 0x100
    ensures Init(Encode(items)) == Ok(items)
  {
    ReadEncodedItems(items);
    assert Encode(items)[1..] == EncodeItems(items);
  }
}
