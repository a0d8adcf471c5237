/**
 * The optical sensor's raw serial protocol (OptSensor.py): the two
 * fixed command packets, the 12-byte acknowledgement, and the
 * reassembly of an uploaded image from variable-length data packets.
 *
 * The line is scripted: `script` lists what successive `ser.read(n)`
 * calls deliver.  A call with n > 0 takes the next chunk, cut to n
 * bytes (a shorter chunk is a read that timed out part way); a call
 * with n <= 0 returns nothing and takes nothing; on an exhausted script
 * every read times out with no bytes.
 */
module OptLink {
  import opened Bytes

  /** GenImg: capture a fingerprint image into the sensor. */
  const CMD_GENIMG: seq<int> := [0xEF, 0x01, 0xFF, 0xFF, 0xFF, 0xFF, 0x01, 0x00, 0x03, 0x01, 0x00, 0x05]
  /** UpImage: upload the captured image to the host. */
  const CMD_UPIMAGE: seq<int> := [0xEF, 0x01, 0xFF, 0xFF, 0xFF, 0xFF, 0x01, 0x00, 0x03, 0x0A, 0x00, 0x0E]

  const ACK_SIZE := 12
  const HEADER_SIZE := 9
  const CHECKSUM_SIZE := 2
  /** 256 x 288 pixels at two pixels per byte. */
  const TOTAL_BYTES := 36864
  /** Packet identifier of the last data packet. */
  const END_PACKET := 0x08

  /**
   * A command packet: start code EF 01, address FF FF FF FF, packet
   * identifier 01, a big-endian length counting the instruction and the
   * two checksum bytes, the instruction, and a big-endian checksum equal
   * to the sum of the identifier, length and instruction bytes.
   */
  predicate CommandPacket(c: seq<int>)
  {
    && |c| == 12
    && c[0] == 0xEF && c[1] == 0x01
    && c[2] == 0xFF && c[3] == 0xFF && c[4] == 0xFF && c[5] == 0xFF
    && c[6] == 0x01
    && BE16(c[7], c[8]) == 3
    && BE16(c[10], c[11]) == Sum(c[6..10])
  }

  /** The checksum of a command packet written out as the sum of its four summed bytes. */
  lemma PacketFromBytes(c: seq<int>)
    requires |c| == 12
    requires c[0] == 0xEF && c[1] == 0x01
    requires c[2] == 0xFF && c[3] == 0xFF && c[4] == 0xFF && c[5] == 0xFF
    requires c[6] == 0x01 && BE16(c[7], c[8]) == 3
    requires BE16(c[10], c[11]) == c[6] + c[7] + c[8] + c[9]
    ensures CommandPacket(c)
  {
    var s := c[6..10];
    assert Sum(s[..1]) == s[0] by { assert s[..1][..0] == []; }
    assert Sum(s[..2]) == s[0] + s[1] by { assert s[..2][..1] == s[..1]; }
    assert Sum(s[..3]) == s[0] + s[1] + s[2] by { assert s[..3][..2] == s[..2]; }
    assert s[..4] == s && s[..4][..3] == s[..3];
  }

  lemma CommandConstants()
    ensures CommandPacket(CMD_GENIMG) && CMD_GENIMG[9] == 0x01
    ensures CommandPacket(CMD_UPIMAGE) && CMD_UPIMAGE[9] == 0x0A
    ensures BE16(CMD_GENIMG[10], CMD_GENIMG[11]) == 0x05
    ensures BE16(CMD_UPIMAGE[10], CMD_UPIMAGE[11]) == 0x0E
  {
    PacketFromBytes(CMD_GENIMG);
    PacketFromBytes(CMD_UPIMAGE);
  }

  /** `s[:n]` for n >= 0. */
  function Take(s: seq<int>, n: int): (r: seq<int>)
    requires 0 <= n
    ensures |r| <= n && r <= s
    ensures |s| >= n ==> |r| == n
  {
    if |s| <= n then s else s[..n]
  }

  /** `ser.read(n)`: the bytes delivered and the script left over. */
  function ReadN(script: seq<seq<int>>, n: int): (r: (seq<int>, seq<seq<int>>))
    ensures |r.0| <= (if n < 0 then 0 else n)
    ensures script != [] && n > 0 ==> r.0 <= script[0] && r.1 == script[1..]
    ensures script == [] || n <= 0 ==> r.0 == [] && r.1 == script
  {
    if n <= 0 || script == [] then ([], script) else (Take(script[0], n), script[1..])
  }

  /** How `if not response or response[9] != 0x00` reads an acknowledgement. */
  datatype Ack = NoAck | ShortAck | AckCode(code: int)

  function AckOf(response: seq<int>): (a: Ack)
    ensures a == NoAck <==> response == []
    ensures a == ShortAck <==> 0 < |response| < 10
    ensures a.AckCode? ==> a.code == response[9]
  {
    if response == [] then NoAck
    else if |response| < 10 then ShortAck
    else AckCode(response[9])
  }

  /** The payload length a packet header announces: `unpack(">H", header[7:9]) - 2`. */
  function PayloadLength(header: seq<int>): int
    requires |header| == HEADER_SIZE
  {
    BE16(header[7], header[8]) - CHECKSUM_SIZE
  }

  /** The outcome of the reassembly loop: the image bytes and the script left, or a line gone silent. */
  datatype Assembly = Assembled(data: seq<int>, rest: seq<seq<int>>) | Silent

  /**
   * The loop of read_image_data from accumulated bytes `acc`: read a
   * header, its payload and its checksum; drop the packet when the
   * header or the payload is short; append the payload otherwise, and
   * stop after a packet of type 0x08 or once the count reaches
   * TOTAL_BYTES (tested at the top of the loop).  Silent stands for the
   * source spinning forever on a line that delivers nothing.
   */
  function Reassemble(script: seq<seq<int>>, acc: seq<int>): Assembly
    decreases |script|
  {
    if |acc| >= TOTAL_BYTES then Assembled(acc, script)
    else if script == [] then Silent
    else
      var (header, rest1) := ReadN(script, HEADER_SIZE);
      if |header| != HEADER_SIZE then Reassemble(rest1, acc)
      else
        var n := PayloadLength(header);
        var (data, rest2) := ReadN(rest1, n);
        var (_, rest3) := ReadN(rest2, CHECKSUM_SIZE);
        if |data| != n then Reassemble(rest3, acc)
        else if header[6] == END_PACKET then Assembled(acc + data, rest3)
        else Reassemble(rest3, acc + data)
  }

  /** What read_image_data returns. */
  datatype Download = Refused | ShortAckError | Downloaded(image: seq<int>) | Stalled

  /**
   * read_image_data after CMD_UPIMAGE was written: `script` starts with
   * the 12-byte acknowledgement.  The script left over is returned too.
   */
  function ReadImage(script: seq<seq<int>>): (Download, seq<seq<int>>)
  {
    var (response, rest) := ReadN(script, ACK_SIZE);
    match AckOf(response)
    case NoAck => (Refused, rest)
    case ShortAck => (ShortAckError, rest)
    case AckCode(c) =>
      if c != 0 then (Refused, rest)
      else match Reassemble(rest, [])
        case Silent => (Stalled, [])
        case Assembled(d, rest') => (Downloaded(d), rest')
  }

  /** Reassembly only ever appends: what was accumulated is a prefix of the result. */
  lemma {:induction false} ReassembleExtends(script: seq<seq<int>>, acc: seq<int>)
    requires Reassemble(script, acc).Assembled?
    ensures acc <= Reassemble(script, acc).data
    decreases |script|
  {
    if |acc| >= TOTAL_BYTES || script == [] {
    } else {
      var (header, rest1) := ReadN(script, HEADER_SIZE);
      if |header| != HEADER_SIZE {
        ReassembleExtends(rest1, acc);
      } else {
        var n := PayloadLength(header);
        var (data, rest2) := ReadN(rest1, n);
        var (_, rest3) := ReadN(rest2, CHECKSUM_SIZE);
        if |data| != n {
          ReassembleExtends(rest3, acc);
        } else if header[6] != END_PACKET {
          ReassembleExtends(rest3, acc + data);
        }
      }
    }
  }

  /**
   * A short header or a short payload leaves the accumulator as it was:
   * the loop goes on with the same bytes from the script after it.
   */
  lemma SkippedPacket(script: seq<seq<int>>, acc: seq<int>)
    requires |acc| < TOTAL_BYTES && script != []
    ensures var header := Take(script[0], HEADER_SIZE);
      |header| != HEADER_SIZE ==> Reassemble(script, acc) == Reassemble(script[1..], acc)
    ensures var header := Take(script[0], HEADER_SIZE);
      |header| == HEADER_SIZE && 0 < PayloadLength(header) && |script| >= 3 && |Take(script[1], PayloadLength(header))| < PayloadLength(header) ==>
        Reassemble(script, acc) == Reassemble(script[3..], acc)
  {
  }

  /** A complete packet of another type appends exactly its payload and the loop continues. */
  lemma AcceptedPacket(header: seq<int>, data: seq<int>, cks: seq<int>, rest: seq<seq<int>>, acc: seq<int>)
    requires |acc| < TOTAL_BYTES && |header| == HEADER_SIZE && |data| == PayloadLength(header) > 0
    requires header[6] != END_PACKET
    ensures Reassemble([header, data, cks] + rest, acc) == Reassemble(rest, acc + data)
  {
    var script := [header, data, cks] + rest;
    assert script[1..] == [data, cks] + rest;
    assert script[1..][1..] == [cks] + rest;
    assert script[1..][1..][1..] == rest;
    assert Take(data, |data|) == data;
    assert Take(header, HEADER_SIZE) == header;
  }

  /**
   * An end packet stops the loop at once, however few bytes have
   * arrived: its payload is appended and the rest of the script is left
   * unread.
   */
  lemma EndPacketStopsEarly(header: seq<int>, data: seq<int>, cks: seq<int>, rest: seq<seq<int>>, acc: seq<int>)
    requires |acc| < TOTAL_BYTES && |header| == HEADER_SIZE && |data| == PayloadLength(header) > 0
    requires header[6] == END_PACKET
    ensures Reassemble([header, data, cks] + rest, acc) == Assembled(acc + data, rest)
  {
    var script := [header, data, cks] + rest;
    assert script[1..] == [data, cks] + rest;
    assert script[1..][1..] == [cks] + rest;
    assert script[1..][1..][1..] == rest;
    assert Take(data, |data|) == data;
    assert Take(header, HEADER_SIZE) == header;
  }

  /**
   * A packet of another type that brings the count to TOTAL_BYTES ends
   * the loop too, at the test on top of the next pass, with the rest of
   * the script unread.
   */
  lemma FullImageStops(header: seq<int>, data: seq<int>, cks: seq<int>, rest: seq<seq<int>>, acc: seq<int>)
    requires |acc| < TOTAL_BYTES && |header| == HEADER_SIZE && |data| == PayloadLength(header) > 0
    requires header[6] != END_PACKET && |acc + data| >= TOTAL_BYTES
    ensures Reassemble([header, data, cks] + rest, acc) == Assembled(acc + data, rest)
  {
    AcceptedPacket(header, data, cks, rest, acc);
  }

  /**
   * The count is tested only at the top of the loop, so the last packet
   * can carry the image past TOTAL_BYTES: one byte short, a two-byte
   * payload ends with one byte too many.
   */
  lemma Overshoot(acc: seq<int>, rest: seq<seq<int>>)
    requires |acc| == TOTAL_BYTES - 1
    ensures var header := [0xEF, 0x01, 0xFF, 0xFF, 0xFF, 0xFF, 0x02, 0x00, 0x04];
      && Reassemble([header, [7, 9], [0, 0]] + rest, acc) == Assembled(acc + [7, 9], rest)
      && |acc + [7, 9]| == TOTAL_BYTES + 1
  {
    var header := [0xEF, 0x01, 0xFF, 0xFF, 0xFF, 0xFF, 0x02, 0x00, 0x04];
    assert PayloadLength(header) == 2;
    FullImageStops(header, [7, 9], [0, 0], rest, acc);
  }

  /** read_image_data yields an image (or waits) only after a full acknowledgement with code 0. */
  lemma DownloadNeedsAck(script: seq<seq<int>>)
    ensures var (d, _) := ReadImage(script);
      var response := ReadN(script, ACK_SIZE).0;
      && (d.Downloaded? || d.Stalled? <==> |response| >= 10 && response[9] == 0)
      && (d == ShortAckError <==> 0 < |response| < 10)
  {
  }
}
