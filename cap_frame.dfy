/**
 * Protocol A of the capacitive sensor (CapSensor.py): the fixed 26-byte
 * command and response frames, their 16-bit additive checksum, the
 * per-opcode result handlers and the little-endian slot parameters.
 *
 * Everything here is a value-level description; the buffers that the
 * driver updates in place are in module CapDriver.
 */
module CapFrame {
  import opened Bytes

  const FRAME_SIZE := 26
  /** The checksum covers bytes [0, 24). */
  const CHECKED_SIZE := 24
  const COMMAND_CAPACITY := 16
  const RESPONSE_CAPACITY := 14

  const COMMAND_PREFIX := 0xAA55
  const RESPONSE_PREFIX := 0x55AA
  const COMMAND_SID := 0x00
  const RESPONSE_SID := 0x01
  const COMMAND_DID := 0x00
  const RESPONSE_DID := 0x00

  const CMD_FINGER_DETECT := 0x21
  const CMD_GET_IMAGE := 0x20
  const CMD_GENERATE := 0x60
  const CMD_MERGE := 0x61
  const CMD_STORE_CHAR := 0x40
  const CMD_GET_EMPTY_ID := 0x45
  const CMD_SEARCH := 0x63
  const CMD_UP_IMAGE_CODE := 0x22
  const CMD_DEL_CHAR := 0x44
  const CMD_GET_ENROLL_COUNT := 0x48
  const CMD_GET_ENROLLED_ID_LIST := 0x49

  const ERR_SUCCESS := 0x00
  const ERR_FAIL := 0x01
  const ERR_FP_NOT_DETECTED := 0x28
  const ERR_INVALID_PARAM := 0x22
  const ERR_TMPL_EMPTY := 0x12

  /** Byte 4 of a reply equal to this marks "no device answered". */
  const NO_DEVICE := 0xff

  /** The slot range the driver searches and allocates in. */
  const SLOT_FIRST := 1
  const SLOT_LAST := 3000

  /** The fields of the persistent command packet `self.CMD`. */
  datatype Command = Command(prefix: int, sid: int, did: int, opcode: int, length: int, data: seq<int>)

  predicate WellFormedCommand(c: Command)
  {
    && 0 <= c.prefix < 65536
    && IsByte(c.sid) && IsByte(c.did) && IsByte(c.opcode)
    && 0 <= c.length <= COMMAND_CAPACITY
    && |c.data| == COMMAND_CAPACITY
  }

  function Header(c: Command): seq<int>
  {
    [Lo(c.prefix), Hi(c.prefix), c.sid, c.did, c.opcode, 0, Lo(c.length), Hi(c.length)]
  }

  /**
   * The 26 bytes that Tx_cmd leaves in the buffer whose previous contents
   * were `prev`: the header, the first `length` payload bytes, the
   * previous bytes up to 24 (no zero padding), then the 16-bit sum.
   */
  function Encode(prev: seq<int>, c: Command): seq<int>
    requires |prev| == FRAME_SIZE && 0 <= c.length <= COMMAND_CAPACITY && |c.data| == COMMAND_CAPACITY
  {
    var body := Header(c) + c.data[..c.length] + prev[8 + c.length .. CHECKED_SIZE];
    body + [Lo(Sum(body)), Hi(Sum(body))]
  }

  /** The transmitted checksum equals the 16-bit sum of the first 24 bytes. */
  predicate ChecksumOk(f: seq<int>)
    requires |f| == FRAME_SIZE
  {
    Sum(f[..CHECKED_SIZE]) % 65536 == LE16(f[24], f[25])
  }

  lemma LoHiMod(s: int)
    ensures LE16(Lo(s), Hi(s)) == s % 65536
  {
    var q := s / 65536;
    var r := s % 65536;
    assert s == q * 65536 + r;
    assert r / 256 < 256;
    assert s / 256 == q * 256 + r / 256;
    assert Hi(s) == r / 256;
    assert Lo(s) == r % 256;
  }

  /** Tx_cmd's layout: header fields, payload prefix, stale tail, checksum. */
  lemma EncodeLayout(prev: seq<int>, c: Command)
    requires |prev| == FRAME_SIZE && 0 <= c.length <= COMMAND_CAPACITY && |c.data| == COMMAND_CAPACITY
    ensures var f := Encode(prev, c);
      && |f| == FRAME_SIZE
      && f[0] == Lo(c.prefix) && f[1] == Hi(c.prefix)
      && f[2] == c.sid && f[3] == c.did && f[4] == c.opcode && f[5] == 0
      && f[6] == Lo(c.length) && f[7] == Hi(c.length)
      && f[8 .. 8 + c.length] == c.data[..c.length]
      && f[8 + c.length .. CHECKED_SIZE] == prev[8 + c.length .. CHECKED_SIZE]
      && ChecksumOk(f)
  {
    var body := Header(c) + c.data[..c.length] + prev[8 + c.length .. CHECKED_SIZE];
    var f := Encode(prev, c);
    assert f[..CHECKED_SIZE] == body;
    LoHiMod(Sum(body));
  }

  /** The fields `Rx_CMD_Process` assigns from a 26-byte reply. */
  datatype Response = Response(
    prefix: int, sid: int, did: int, opcode: int, length: int, ret: int,
    data: seq<int>, checksum: int)

  function Decode(f: seq<int>): (r: Response)
    requires |f| == FRAME_SIZE
    ensures |r.data| == RESPONSE_CAPACITY
  {
    Response(
      LE16(f[0], f[1]), f[2], f[3], LE16(f[4], f[5]), LE16(f[6], f[7]), LE16(f[8], f[9]),
      f[10..CHECKED_SIZE], LE16(f[24], f[25]))
  }

  /**
   * Round trip: decoding an encoded command reads back its prefix,
   * addresses, opcode and length, and the decoded checksum is the
   * receiver's own 16-bit sum.
   */
  lemma DecodeEncoded(prev: seq<int>, c: Command)
    requires |prev| == FRAME_SIZE && WellFormedCommand(c)
    ensures var f := Encode(prev, c); var r := Decode(f);
      && r.prefix == c.prefix && r.sid == c.sid && r.did == c.did
      && r.opcode == c.opcode && r.length == c.length
      && r.checksum == Sum(f[..CHECKED_SIZE]) % 65536
  {
    EncodeLayout(prev, c);
    SplitJoin16(c.prefix);
    SplitJoin16(c.length);
  }

  /** RpsFingerDetect: `not DATA[0]` when RET is 0, otherwise 2 (both modes). */
  function RpsFingerDetect(r: Response, back: bool): int
    requires |r.data| == RESPONSE_CAPACITY
  {
    if r.ret == 0 then (if r.data[0] == 0 then 1 else 0) else 2
  }

  /** The opcodes whose handler returns the result code RET. */
  predicate ReturnsResultCode(opcode: int)
  {
    opcode in {CMD_GET_IMAGE, CMD_GENERATE, CMD_MERGE, CMD_STORE_CHAR, CMD_GET_EMPTY_ID,
               CMD_SEARCH, CMD_DEL_CHAR, CMD_GET_ENROLL_COUNT, CMD_GET_ENROLLED_ID_LIST}
  }

  /** Rx_Data_Process: dispatch on the reply's opcode; unknown opcodes give 1. */
  function Dispatch(r: Response, back: bool): int
    requires |r.data| == RESPONSE_CAPACITY
  {
    if r.opcode == CMD_FINGER_DETECT then RpsFingerDetect(r, back)
    else if ReturnsResultCode(r.opcode) then r.ret
    else 1
  }

  /** A reply Rx_cmd hands to the dispatcher: a device answered and the sum matches. */
  predicate Accepted(f: seq<int>)
    requires |f| == FRAME_SIZE
  {
    f[4] != NO_DEVICE && ChecksumOk(f)
  }

  /** What Rx_cmd returns for one 26-byte reply. */
  function RxResult(f: seq<int>, back: bool): int
    requires |f| == FRAME_SIZE
  {
    if f[4] == NO_DEVICE then 1
    else if Sum(f[..CHECKED_SIZE]) % 65536 == Decode(f).checksum then Dispatch(Decode(f), back)
    else 1
  }

  /** Rx_cmd's three exits: no device, bad checksum, or the handler's value. */
  lemma RxResultCases(f: seq<int>, back: bool)
    requires |f| == FRAME_SIZE
    ensures !Accepted(f) ==> RxResult(f, back) == 1
    ensures Accepted(f) ==> RxResult(f, back) == Dispatch(Decode(f), back)
    ensures Accepted(f) && ReturnsResultCode(Decode(f).opcode) ==> RxResult(f, back) == LE16(f[8], f[9])
    ensures Accepted(f) && Decode(f).opcode == CMD_FINGER_DETECT ==>
      RxResult(f, back) == (if LE16(f[8], f[9]) == 0 then (if f[10] == 0 then 1 else 0) else 2)
  {
  }

  lemma {:induction false} SumUpdate(s: seq<int>, i: int, v: int)
    requires 0 <= i < |s|
    ensures Sum(s[i := v]) == Sum(s) + v - s[i]
    decreases |s|
  {
    var t := s[i := v];
    if i < |s| - 1 {
      assert t[..|t| - 1] == s[..|s| - 1][i := v];
      SumUpdate(s[..|s| - 1], i, v);
    } else {
      assert t[..|t| - 1] == s[..|s| - 1];
    }
  }

  /**
   * Any single-byte corruption of a frame whose checksum held is caught:
   * the corrupted frame is never accepted and Rx_cmd returns 1.
   */
  lemma SingleByteCorruptionRejected(f: seq<int>, i: int, b: int, back: bool)
    requires |f| == FRAME_SIZE && IsBytes(f) && ChecksumOk(f)
    requires 0 <= i < FRAME_SIZE && IsByte(b) && b != f[i]
    ensures !Accepted(f[i := b])
    ensures RxResult(f[i := b], back) == 1
  {
    var g := f[i := b];
    if i < CHECKED_SIZE {
      assert g[..CHECKED_SIZE] == f[..CHECKED_SIZE][i := b];
      SumUpdate(f[..CHECKED_SIZE], i, b);
      assert IsBytes(f[..CHECKED_SIZE]);
      SumOfBytes(f[..CHECKED_SIZE]);
      assert IsBytes(g[..CHECKED_SIZE]);
      SumOfBytes(g[..CHECKED_SIZE]);
      assert g[24] == f[24] && g[25] == f[25];
    } else {
      assert g[..CHECKED_SIZE] == f[..CHECKED_SIZE];
    }
  }

  /** The bytes 01 00 B8 0B sent with GET_EMPTY_ID and GET_ENROLL_COUNT. */
  const SLOT_RANGE_PAYLOAD: seq<int> := [0x01, 0x00, 0xB8, 0x0B]

  /** A slot range [first, last] as two little-endian 16-bit fields. */
  function RangePayload(first: int, last: int): (p: seq<int>)
    requires 0 <= first < 65536 && 0 <= last < 65536
    ensures |p| == 4 && IsBytes(p)
    ensures LE16(p[0], p[1]) == first && LE16(p[2], p[3]) == last
  {
    [Lo(first), Hi(first), Lo(last), Hi(last)]
  }

  lemma SlotRangePayloadIsFullRange()
    ensures SLOT_RANGE_PAYLOAD == RangePayload(SLOT_FIRST, SLOT_LAST)
  {
    assert Lo(SLOT_LAST) == 0xB8;
    assert Hi(SLOT_LAST) == 0x0B;
    assert Lo(SLOT_FIRST) == 0x01 && Hi(SLOT_FIRST) == 0x00;
  }

  /** search_finger packs the range as `start * 0x10000 + end` ... */
  function PackRange(first: int, last: int): int { first * 0x10000 + last }

  /** ... and splits it with `(data & 0xffff0000) >> 16` and `data & 0xffff`. */
  function RangeFirst(d: int): int { (d / 0x10000) % 0x10000 }
  function RangeLast(d: int): int { d % 0x10000 }

  lemma PackRangeRoundTrip(first: int, last: int)
    requires 0 <= first < 65536 && 0 <= last < 65536
    ensures RangeFirst(PackRange(first, last)) == first
    ensures RangeLast(PackRange(first, last)) == last
  {
    var d := PackRange(first, last);
    assert d / 0x10000 == first;
  }

  /** The six SEARCH parameter bytes: two zero bytes, then the range. */
  function SearchPayload(first: int, last: int): (p: seq<int>)
    requires 0 <= first < 65536 && 0 <= last < 65536
    ensures |p| == 6 && IsBytes(p) && p[0] == 0 && p[1] == 0
    ensures LE16(p[2], p[3]) == first && LE16(p[4], p[5]) == last
  {
    [0x00, 0x00] + RangePayload(first, last)
  }

  /** delete_finger deletes one slot: start and end are both the slot. */
  function DeletePayload(slot: int): (p: seq<int>)
    requires 0 <= slot < 65536
    ensures |p| == 4 && IsBytes(p)
    ensures LE16(p[0], p[1]) == slot && LE16(p[2], p[3]) == slot
  {
    RangePayload(slot, slot)
  }

  /** CmdStoreChar's parameters as the source writes them: `k` unmasked in byte 0. */
  function StorePayloadAsWritten(k: int, n: int): seq<int>
  {
    [k, 0x00, n, 0x00]
  }

  /** The intended CmdStoreChar parameters: `k` as a little-endian 16-bit slot. */
  function StorePayload(k: int, n: int): (p: seq<int>)
    requires 0 <= k < 65536 && IsByte(n)
    ensures |p| == 4 && IsBytes(p) && LE16(p[0], p[1]) == k && p[2] == n && p[3] == 0
  {
    [Lo(k), Hi(k), n, 0x00]
  }

  /** Below slot 256 the two encodings of CmdStoreChar's parameters agree. */
  lemma StorePayloadBelow256(k: int, n: int)
    requires 0 <= k < 256 && IsByte(n)
    ensures StorePayloadAsWritten(k, n) == StorePayload(k, n)
  {
  }

  /**
   * As written, any slot from 256 on puts a value above 255 into frame
   * byte 8, which the serial write rejects; slot 300 is an example.
   */
  lemma StoreAsWrittenBreaksFromSlot256(prev: seq<int>, k: int, rest: seq<int>)
    requires |prev| == FRAME_SIZE && 256 <= k < 65536 && |rest| == 12
    ensures var c := Command(COMMAND_PREFIX, COMMAND_SID, COMMAND_DID, CMD_STORE_CHAR, 4,
                             StorePayloadAsWritten(k, 0) + rest);
      !IsBytes(Encode(prev, c))
  {
    var c := Command(COMMAND_PREFIX, COMMAND_SID, COMMAND_DID, CMD_STORE_CHAR, 4,
                     StorePayloadAsWritten(k, 0) + rest);
    EncodeLayout(prev, c);
    assert Encode(prev, c)[8] == k;
  }

  /** With the intended parameters every slot below 65536 gives a writable frame. */
  lemma StoreFrameIsBytes(prev: seq<int>, k: int, rest: seq<int>)
    requires |prev| == FRAME_SIZE && IsBytes(prev) && 0 <= k < 65536 && |rest| == 12 && IsBytes(rest)
    ensures var c := Command(COMMAND_PREFIX, COMMAND_SID, COMMAND_DID, CMD_STORE_CHAR, 4,
                             StorePayload(k, 0) + rest);
      IsBytes(Encode(prev, c)) && LE16(Encode(prev, c)[8], Encode(prev, c)[9]) == k
  {
    var c := Command(COMMAND_PREFIX, COMMAND_SID, COMMAND_DID, CMD_STORE_CHAR, 4,
                     StorePayload(k, 0) + rest);
    EncodeLayout(prev, c);
    var f := Encode(prev, c);
    forall i | 0 <= i < FRAME_SIZE ensures IsByte(f[i]) {
      if 8 <= i < 12 {
        assert f[i] == f[8..12][i - 8];
      } else if 12 <= i < 24 {
        assert f[i] == f[12..24][i - 12];
      }
    }
  }
}
