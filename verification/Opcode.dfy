/** The opcode byte: opcode in the high five bits, key id in the low three. */
module OpCodes {
  import opened Common

  type KeyId = k: int | 0 <= k < 8

  datatype OpCode =
    | SoftResetV1
    | ControlV1
    | AckV1
    | DataV1
    | HardResetClientV2
    | HardResetServerV2
    | DataV2
    | HardResetClientV3
    | ControlWkcV1
  {
    predicate IsData() { DataV1? || DataV2? }

    predicate IsControl() { !IsData() }

    function Code(): byte {
      match this
      case SoftResetV1 => 3
      case ControlV1 => 4
      case AckV1 => 5
      case DataV1 => 6
      case HardResetClientV2 => 7
      case HardResetServerV2 => 8
      case DataV2 => 9
      case HardResetClientV3 => 10
      case ControlWkcV1 => 11
    }

    function ToByte(keyId: KeyId): byte {
      Code() * 8 + keyId
    }
  }

  function OpCodeFromByte(b: byte): Result<OpCode, ProtocolError> {
    match b / 8
    case 3 => Ok(SoftResetV1)
    case 4 => Ok(ControlV1)
    case 5 => Ok(AckV1)
    case 6 => Ok(DataV1)
    case 7 => Ok(HardResetClientV2)
    case 8 => Ok(HardResetServerV2)
    case 9 => Ok(DataV2)
    case 10 => Ok(HardResetClientV3)
    case 11 => Ok(ControlWkcV1)
    case _ => Err(UnknownOpcode(b / 8))
  }

  function KeyIdFromByte(b: byte): KeyId {
    b % 8
  }

  function NextKeyId(k: KeyId): KeyId {
    (k + 1) % 8
  }

  /** The opcode bytes of the OpenVPN protocol; all other bytes are rejected. */
  lemma OpCodeTable(k: KeyId, b: byte)
    ensures SoftResetV1.ToByte(k) == 24 + k && ControlV1.ToByte(k) == 32 + k && AckV1.ToByte(k) == 40 + k
    ensures DataV1.ToByte(k) == 48 + k && DataV2.ToByte(k) == 72 + k && ControlWkcV1.ToByte(k) == 88 + k
    ensures HardResetClientV2.ToByte(k) == 56 + k && HardResetServerV2.ToByte(k) == 64 + k
    ensures HardResetClientV3.ToByte(k) == 80 + k
    ensures OpCodeFromByte(b).Err? <==> b < 24 || b >= 96
  {
  }

  /** A byte decodes to an opcode and key id exactly when it is the byte they encode to. */
  lemma OpCodeByteIff(b: byte, op: OpCode, k: KeyId)
    ensures OpCodeFromByte(b) == Ok(op) && KeyIdFromByte(b) == k <==> b == op.ToByte(k)
  {
  }
}
