/** A forward-only little-endian byte reader over the bytes not yet consumed.
    The library's DataStepper class is not part of this model; this module
    gives its reads the meaning their call sites rely on: each read takes the
    next bytes, least significant first, and throws when too few remain. */
module DataStepper {
  import opened Bytes
  import opened Wrappers
  import opened Errors

  /** Reads the next n bytes as one little-endian value. */
  function Read(rest: seq<u8>, n: nat): (r: Result<(nat, seq<u8>), BluenetError>)
    ensures r.Ok? <==> n <= |rest|
    ensures r.Ok? ==> r.value.0 == LittleEndian(rest[..n]) && r.value.1 == rest[n..]
    ensures r.Ok? ==> r.value.0 < Pow2(8 * n)
    ensures r.Err? ==> r.error == NotEnoughData
  {
    if n <= |rest| then
      LittleEndianBound(rest[..n]);
      Ok((LittleEndian(rest[..n]), rest[n..]))
    else
      Err(NotEnoughData)
  }

  function GetUInt8(rest: seq<u8>): (r: Result<(u8, seq<u8>), BluenetError>)
    ensures r.Ok? <==> 1 <= |rest|
    ensures r.Ok? ==> r.value.0 == rest[0] && r.value.1 == rest[1..]
  {
    var (v, tail) :- Read(rest, 1);
    assert rest[..1][1..] == [];
    Ok((v, tail))
  }

  function GetUInt16(rest: seq<u8>): (r: Result<(u16, seq<u8>), BluenetError>)
    ensures r.Ok? <==> 2 <= |rest|
    ensures r.Ok? ==> r.value.0 == LittleEndian(rest[..2]) && r.value.1 == rest[2..]
  {
    var (v, tail) :- Read(rest, 2);
    Pow2Half();
    Ok((v, tail))
  }

  function GetUInt32(rest: seq<u8>): (r: Result<(u32, seq<u8>), BluenetError>)
    ensures r.Ok? <==> 4 <= |rest|
    ensures r.Ok? ==> r.value.0 == LittleEndian(rest[..4]) && r.value.1 == rest[4..]
  {
    var (v, tail) :- Read(rest, 4);
    Pow2Word();
    Ok((v, tail))
  }

  function GetUInt64(rest: seq<u8>): (r: Result<(u64, seq<u8>), BluenetError>)
    ensures r.Ok? <==> 8 <= |rest|
    ensures r.Ok? ==> r.value.0 == LittleEndian(rest[..8]) && r.value.1 == rest[8..]
  {
    var (v, tail) :- Read(rest, 8);
    Pow2Long();
    Ok((v, tail))
  }
}
