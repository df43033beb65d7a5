/** SetupHandler (the older BluenetLibIOS/ revision): the setup sequence that
    writes a fresh Crownstone's identity and keys, each write checked by
    reading it back.

    BLE traffic is represented by its outcome: a function from each step (or
    each write-and-verify attempt) to what the link reported. The random
    numbers the sequence draws are parameters within the ranges the source
    draws them from. The packet classes (WriteConfigPacket, ReadConfigPacket,
    ControlPacket, FactoryResetPacket) and the NSUUID format check are not
    part of this model. */
module SetupHandler {
  import opened Bytes
  import opened Wrappers
  import opened Errors
  import opened Gatt
  import Conversion

  datatype SetupConfig =
    | CrownstoneIdentifier
    | AdminEncryptionKey
    | MemberEncryptionKey
    | GuestEncryptionKey
    | MeshAccessAddress
    | IbeaconUuid
    | IbeaconMajor
    | IbeaconMinor

  /** _writeConfigPacket writes to the setup config-control characteristic;
      _verifyResult reads the setup config-read characteristic. */
  const ConfigWriteEndpoint := Endpoint(SetupService, SetupConfigControl)
  const ConfigReadEndpoint := Endpoint(SetupService, SetupConfigRead)

  /** _verifyResult: the read-back packet matches the packet written when the
      lengths agree and every byte after the 4-byte header agrees. */
  method VerifyResult(data: seq<u8>, target: seq<u8>) returns (matches: bool)
    ensures matches <==> |data| == |target| && forall i :: 4 <= i < |data| ==> data[i] == target[i]
  {
    matches := |data| == |target|;
    var prefixLength := 4;
    if matches && |data| > prefixLength {
      var i := prefixLength;
      while i < |data|
        invariant prefixLength <= i <= |data|
        invariant |data| == |target|
        invariant matches ==> forall j :: prefixLength <= j < i ==> data[j] == target[j]
        invariant !matches ==> exists j :: prefixLength <= j < i && data[j] != target[j]
      {
        if data[i] != target[i] {
          matches := false;
        }
        i := i + 1;
      }
    }
  }

  /** What one write-and-verify attempt reported. */
  datatype Attempt = AttemptFailed(error: BluenetError) | Mismatch | Match

  /** The last attempt _writeAndVerify makes when started at `iteration`:
      it retries while its counter is at most 1. */
  function LastAttempt(iteration: nat): nat {
    if iteration > 1 then iteration else 2
  }

  predicate AllMismatch(attempt: nat -> Attempt, from: nat, to: nat) {
    forall j :: from <= j < to ==> attempt(j) == Mismatch
  }

  /** _writeAndVerify: an attempt whose write or read fails rejects with that
      error; a match resolves; a mismatch retries, up to three attempts in all
      from the default start of 0, after which it rejects with
      CannotWriteAndVerify. */
  function WriteAndVerify(attempt: nat -> Attempt, iteration: nat): (r: Result<(), BluenetError>)
    ensures r.Ok? <==>
              exists k :: iteration <= k <= LastAttempt(iteration) && attempt(k) == Match
                          && AllMismatch(attempt, iteration, k)
    ensures AllMismatch(attempt, iteration, LastAttempt(iteration) + 1) ==> r == Err(CannotWriteAndVerify)
    ensures forall k :: (iteration <= k <= LastAttempt(iteration) && attempt(k).AttemptFailed?
                         && AllMismatch(attempt, iteration, k)) ==> r == Err(attempt(k).error)
    decreases 2 - iteration
  {
    match attempt(iteration)
    case AttemptFailed(e) => Err(e)
    case Match => Ok(())
    case Mismatch =>
      if iteration > 1 then Err(CannotWriteAndVerify)
      else
        var r := WriteAndVerify(attempt, iteration + 1);
        assert forall k :: iteration + 1 <= k ==>
                 (AllMismatch(attempt, iteration, k) <==> AllMismatch(attempt, iteration + 1, k));
        r
  }

  /** Three attempts are made from the default start, never a fourth. */
  lemma AtMostThreeAttempts(attempt: nat -> Attempt, other: nat -> Attempt)
    requires forall k :: k < 3 ==> attempt(k) == other(k)
    ensures WriteAndVerify(attempt, 0) == WriteAndVerify(other, 0)
  {
    assert LastAttempt(0) == 2;
    if attempt(0) == Mismatch {
      if attempt(1) == Mismatch {
        assert WriteAndVerify(attempt, 2) == WriteAndVerify(other, 2);
      }
    }
  }

  /** For bytes of 16 and up the formatter needs no padding, so the
      as-written and the zero-padded hex agree. */
  lemma WideByteHex(b: u8)
    requires b >= 16
    ensures Conversion.Uint8ToHexStringAsWritten(b) == Conversion.Uint8ToHexString(b)
  {
  }

  /** The range arc4random_uniform(120) + 100 draws each of the four random
      bytes from. */
  predicate RandomByteRange(randomBytes: seq<u8>) {
    && |randomBytes| == 4
    && 100 <= randomBytes[0] < 220 && 100 <= randomBytes[1] < 220
    && 100 <= randomBytes[2] < 220 && 100 <= randomBytes[3] < 220
  }

  /** The random text of setup: the four random bytes through the as-written
      formatter, which for these bytes is their plain hex text. */
  function RandomString(randomBytes: seq<u8>): (s: string)
    requires RandomByteRange(randomBytes)
    ensures s == Conversion.Uint8ArrayToHexString(randomBytes)
  {
    var b := randomBytes;
    WideByteHex(b[0]);
    WideByteHex(b[1]);
    WideByteHex(b[2]);
    WideByteHex(b[3]);
    assert b[1..][1..][1..][1..] == [];
    Conversion.Uint8ToHexStringAsWritten(b[0]) + Conversion.Uint8ToHexStringAsWritten(b[1])
      + Conversion.Uint8ToHexStringAsWritten(b[2]) + Conversion.Uint8ToHexStringAsWritten(b[3])
  }

  const KeySuffix := "90ABCDEF"
  const UuidSuffix := "-4af0-4af0-a2e4-31e32f729a8a"

  datatype ConfigWrite = ConfigWrite(config: SetupConfig, payload: seq<u8>)

  /** The text of the three keys: the random text and a fixed suffix. */
  function KeyText(randomBytes: seq<u8>): (s: string)
    requires RandomByteRange(randomBytes)
    ensures |s| == 16
  {
    RandomString(randomBytes) + KeySuffix
  }

  /** The key text is sixteen characters that each fit in a byte, so turning
      it into bytes never traps: eight hex digits then the suffix's codes. */
  lemma KeyBytes(randomBytes: seq<u8>)
    requires RandomByteRange(randomBytes)
    ensures var r := Conversion.StringToUint8Array(KeyText(randomBytes));
            && r.Done? && |r.value| == 16
            && (forall i :: 0 <= i < 8 ==> Conversion.IsHexChar(r.value[i] as char))
            && r.value[8..] == [0x39, 0x30, 0x41, 0x42, 0x43, 0x44, 0x45, 0x46]
  {
    var key := KeyText(randomBytes);
    var hex := RandomString(randomBytes);
    assert key[..8] == hex;
    forall i | 0 <= i < 16
      ensures key[i] as int < 0x100
    {
      if i < 8 {
        assert Conversion.IsHexChar(hex[i]);
      } else {
        assert key[i] == KeySuffix[i - 8];
      }
    }
  }

  /** The mesh access address: the random text parsed back as hex, which
      gives the random bytes themselves. */
  function MeshAccessAddressBytes(randomBytes: seq<u8>): (r: seq<u8>)
    requires RandomByteRange(randomBytes)
    ensures r == randomBytes
  {
    Conversion.HexRoundTrip(randomBytes);
    Conversion.HexStringToUint8Array(RandomString(randomBytes)).value
  }

  /** Where the fixed tail has its dashes; every other character is a digit. */
  lemma SuffixShape()
    ensures |UuidSuffix| == 28
    ensures forall j :: 0 <= j < 28 ==>
      if j == 0 || j == 5 || j == 10 || j == 15 then UuidSuffix[j] == '-' else Conversion.IsHexChar(UuidSuffix[j])
  {
  }

  /** The random text followed by the fixed tail is UUID text. */
  lemma UuidTextIsUuid(randomBytes: seq<u8>)
    requires RandomByteRange(randomBytes)
    ensures Conversion.IsUuidString(RandomString(randomBytes) + UuidSuffix)
  {
    var hex := RandomString(randomBytes);
    var t := hex + UuidSuffix;
    SuffixShape();
    forall i | 0 <= i < 36
      ensures if i == 8 || i == 13 || i == 18 || i == 23 then t[i] == '-' else Conversion.IsHexChar(t[i])
    {
      if i < 8 {
        assert t[i] == hex[i];
      } else {
        assert t[i] == UuidSuffix[i - 8];
      }
    }
  }

  /** The UUID bytes begin with the random bytes: the text begins with their hex. */
  lemma UuidBytesStart(randomBytes: seq<u8>)
    requires RandomByteRange(randomBytes)
    ensures var t := RandomString(randomBytes) + UuidSuffix;
            Conversion.IsUuidString(t) && Conversion.IbeaconUuidStringToUint8Array(t)[..4] == randomBytes
  {
    var hex := RandomString(randomBytes);
    var t := hex + UuidSuffix;
    UuidTextIsUuid(randomBytes);
    var bytes := Conversion.IbeaconUuidStringToUint8Array(t);
    Conversion.HexRoundTrip(randomBytes);
    var d := Conversion.UuidDigits(t);
    forall k | 0 <= k < 4
      ensures bytes[k] == randomBytes[k]
    {
      assert d[2 * k] == hex[2 * k] && d[2 * k + 1] == hex[2 * k + 1];
    }
  }

  /** The iBeacon UUID: the random text followed by a fixed UUID tail, which
      always parses, to sixteen bytes whose first four are the random bytes. */
  function IbeaconUuidBytes(randomBytes: seq<u8>): (r: seq<u8>)
    requires RandomByteRange(randomBytes)
    ensures |r| == 16 && r[..4] == randomBytes
  {
    UuidBytesStart(randomBytes);
    Conversion.IbeaconUuidStringToUint8Array(RandomString(randomBytes) + UuidSuffix)
  }

  /** The configurations setup writes, in the order it writes them. */
  const SetupOrder := [CrownstoneIdentifier, AdminEncryptionKey, MemberEncryptionKey, GuestEncryptionKey,
                       MeshAccessAddress, IbeaconUuid, IbeaconMajor, IbeaconMinor]

  /** What setup derives from its random draws: the identifier bytes, the key
      bytes (or the trap converting the key text), the mesh access address,
      and the iBeacon UUID bytes. */
  datatype Material = Material(id: seq<u8>, key: Outcome<seq<u8>>, meshAccessAddress: seq<u8>,
                               uuid: seq<u8>)

  /** The identifier is random16 as two bytes; the mesh access address is the
      random text parsed back, which is the random bytes themselves. */
  function DrawMaterial(random16: nat, randomBytes: seq<u8>): (m: Material)
    requires random16 < 50000 && RandomByteRange(randomBytes)
    ensures |m.id| == 2 && Conversion.BytesToUint16(m.id) == random16
    ensures m.meshAccessAddress == randomBytes
    ensures |m.uuid| == 16 && m.uuid[..4] == randomBytes
  {
    Material(Conversion.Uint16ToBytes(random16), Conversion.StringToUint8Array(KeyText(randomBytes)),
             MeshAccessAddressBytes(randomBytes), IbeaconUuidBytes(randomBytes))
  }

  /** The eight configuration writes of setup, in order: the identifier, major
      and minor all carry the identifier bytes; the three keys carry the same
      key bytes. A trap converting the key ends setup. */
  function SetupWrites(m: Material): (r: Outcome<seq<ConfigWrite>>)
    ensures r.Trapped? <==> m.key.Trapped?
    ensures r.Done? ==> |r.value| == 8 && forall i :: 0 <= i < 8 ==> r.value[i].config == SetupOrder[i]
    ensures r.Done? ==>
              && r.value[0].payload == m.id && r.value[6].payload == m.id && r.value[7].payload == m.id
              && r.value[1].payload == m.key.value && r.value[2].payload == m.key.value
              && r.value[3].payload == m.key.value
              && r.value[4].payload == m.meshAccessAddress && r.value[5].payload == m.uuid
  {
    match m.key
    case Trapped => Trapped
    case Done(key) =>
      Done([ConfigWrite(CrownstoneIdentifier, m.id),
            ConfigWrite(AdminEncryptionKey, key),
            ConfigWrite(MemberEncryptionKey, key),
            ConfigWrite(GuestEncryptionKey, key),
            ConfigWrite(MeshAccessAddress, m.meshAccessAddress),
            ConfigWrite(IbeaconUuid, m.uuid),
            ConfigWrite(IbeaconMajor, m.id),
            ConfigWrite(IbeaconMinor, m.id)])
  }

  datatype SetupStep = AwaitReady | Connect | Write(write: ConfigWrite) | Disconnect

  /** Runs the steps in order and stops at the first that fails. */
  function RunSteps(steps: seq<SetupStep>, outcome: SetupStep -> Result<(), BluenetError>): (r: Result<(), BluenetError>)
    ensures r.Ok? <==> forall i :: 0 <= i < |steps| ==> outcome(steps[i]).Ok?
    ensures r.Err? ==> exists i :: 0 <= i < |steps| && outcome(steps[i]) == r
                                   && forall j :: 0 <= j < i ==> outcome(steps[j]).Ok?
  {
    if |steps| == 0 then Ok(())
    else
      match outcome(steps[0])
      case Err(e) => Err(e)
      case Ok(_) =>
        var r := RunSteps(steps[1..], outcome);
        assert forall i :: 1 <= i < |steps| ==> steps[1..][i - 1] == steps[i];
        r
  }

  /** Wait until the stack is ready, connect, write and verify each
      configuration, disconnect. */
  function SetupSteps(writes: seq<ConfigWrite>): (r: seq<SetupStep>)
    ensures |r| == |writes| + 3
    ensures r[0] == AwaitReady && r[1] == Connect && r[|r| - 1] == Disconnect
    ensures forall i :: 0 <= i < |writes| ==> r[i + 2] == Write(writes[i])
  {
    if |writes| == 0 then [AwaitReady, Connect, Disconnect]
    else
      var r := SetupSteps(writes[..|writes| - 1]);
      r[..|r| - 1] + [Write(writes[|writes| - 1]), Disconnect]
  }

  /** setup(uuid): the eight writes as steps between connecting and
      disconnecting. */
  function Setup(random16: nat, randomBytes: seq<u8>,
                 outcome: SetupStep -> Result<(), BluenetError>): (r: Outcome<Result<(), BluenetError>>)
    requires random16 < 50000 && RandomByteRange(randomBytes)
    ensures r.Trapped? <==> SetupWrites(DrawMaterial(random16, randomBytes)).Trapped?
    ensures r.Done? ==>
              var steps := SetupSteps(SetupWrites(DrawMaterial(random16, randomBytes)).value);
              && |steps| == 11
              && (r.value.Ok? <==> forall i :: 0 <= i < 11 ==> outcome(steps[i]).Ok?)
  {
    match SetupWrites(DrawMaterial(random16, randomBytes))
    case Trapped => Trapped
    case Done(writes) => Done(RunSteps(SetupSteps(writes), outcome))
  }

  /** The key text is always ASCII, so its conversion cannot trap and setup
      always runs its steps. */
  lemma SetupNeverTraps(random16: nat, randomBytes: seq<u8>, outcome: SetupStep -> Result<(), BluenetError>)
    requires random16 < 50000 && RandomByteRange(randomBytes)
    ensures Setup(random16, randomBytes, outcome).Done?
  {
    KeyBytes(randomBytes);
  }

  /** A setup that succeeds was ready, connected and disconnected. */
  lemma SetupSucceededConnected(random16: nat, randomBytes: seq<u8>,
                                outcome: SetupStep -> Result<(), BluenetError>)
    requires random16 < 50000 && RandomByteRange(randomBytes)
    requires var r := Setup(random16, randomBytes, outcome); r.Done? && r.value.Ok?
    ensures outcome(AwaitReady).Ok? && outcome(Connect).Ok? && outcome(Disconnect).Ok?
  {
    var steps := SetupSteps(SetupWrites(DrawMaterial(random16, randomBytes)).value);
    assert outcome(steps[0]).Ok? && outcome(steps[1]).Ok? && outcome(steps[10]).Ok?;
  }

  /** getMACAddress: the MAC characteristic's bytes, reversed, as
      colon-separated hex; an empty read traps like the conversion helper. */
  function GetMacAddress(read: Result<seq<u8>, BluenetError>): (r: Outcome<Result<string, BluenetError>>)
    ensures read.Err? ==> r == Done(Err(read.error))
    ensures read.Ok? ==> (r.Trapped? <==> |read.value| == 0)
    ensures r.Done? && read.Ok? ==>
              var data := read.value;
              && r.value.Ok? && |r.value.value| == 3 * |data| - 1
              && (forall k :: 0 <= k < |data| ==>
                    && r.value.value[3 * k] == Conversion.PaddedHighDigit(data[|data| - 1 - k])
                    && r.value.value[3 * k + 1] == Conversion.HexDigit(data[|data| - 1 - k] % 16))
              && (forall k :: 0 <= k < |data| - 1 ==> r.value.value[3 * k + 2] == ':')
  {
    match read
    case Err(e) => Done(Err(e))
    case Ok(data) =>
      match Conversion.Uint8ArrayToMacAddress(data)
      case Trapped => Trapped
      case Done(s) => Done(Ok(s))
  }

  /** finalizeSetup and factoryReset write to the setup control characteristic. */
  const SetupControlEndpoint := Endpoint(SetupService, Control)
}
