/**
 * The capacitive sensor driver (class CapSensor in CapSensor.py): the
 * persistent 26-byte command and reply buffers, the packet records
 * `self.CMD` and `self.RPS`, the command builders and the enrolment,
 * search and delete workflows.
 *
 * The serial line is scripted (see module CapLink): `inbox` holds the
 * replies the device will send and `uploads` the raw bytes each image
 * upload delivers.  Where the source would wait forever for a byte that
 * never comes, an operation ends with `Blocked` (or None for a single
 * exchange).  The SQLite table is the value `table`; an insert can be
 * made to fail with the `dbFault` parameter.
 */
module CapDriver {
  import opened Wrappers
  import opened Bytes
  import opened CapFrame
  import opened CapLink
  import CapImage
  import Store
  import opened CapFlow

  /** `self.cmd` as the constructor sets it. */
  const INITIAL_CMD: seq<int> := [0x55, 0xAA, 0x00, 0x00, 0x01, 0x00, 0x00, 0x00, 0x00, 0x00, 0x00, 0x00, 0x00,
                                  0x00, 0x00, 0x00, 0x00, 0x00, 0x00, 0x00, 0x00, 0x00, 0x00, 0x00, 0x00, 0x01]

  /** A frame a capture attempt may send; GENERATE always into `buffer`. */
  predicate SampleFrame(f: seq<int>, buffer: int)
  {
    && |f| == FRAME_SIZE
    && (f[4] == CMD_FINGER_DETECT || f[4] == CMD_GET_IMAGE || f[4] == CMD_UP_IMAGE_CODE
        || (f[4] == CMD_GENERATE && f[8] == buffer && f[9] == 0))
  }

  /** `s` starts with `s0`, element by element. */
  ghost predicate Grows(s0: seq<seq<int>>, s: seq<seq<int>>)
  {
    |s0| <= |s| && forall j | 0 <= j < |s0| :: s[j] == s0[j]
  }

  /** A FINGER_DETECT poll frame. */
  predicate PollFrame(f: seq<int>)
  {
    |f| == FRAME_SIZE && f[4] == CMD_FINGER_DETECT
  }

  /** A frame of an image upload: polls, GET_IMAGE, UP_IMAGE_CODE. */
  predicate UploadFrame(f: seq<int>)
  {
    |f| == FRAME_SIZE && (f[4] == CMD_FINGER_DETECT || f[4] == CMD_GET_IMAGE || f[4] == CMD_UP_IMAGE_CODE)
  }

  ghost predicate PollRun(s0: seq<seq<int>>, s: seq<seq<int>>)
  {
    Grows(s0, s) && forall j | |s0| <= j < |s| :: PollFrame(s[j])
  }

  ghost predicate UploadRun(s0: seq<seq<int>>, s: seq<seq<int>>)
  {
    Grows(s0, s) && forall j | |s0| <= j < |s| :: UploadFrame(s[j])
  }

  ghost predicate SampleRun(s0: seq<seq<int>>, s: seq<seq<int>>, buffer: int)
  {
    Grows(s0, s) && forall j | |s0| <= j < |s| :: SampleFrame(s[j], buffer)
  }

  /** A frame of any capture attempt, whatever its buffer. */
  predicate CaptureFrame(f: seq<int>)
  {
    && |f| == FRAME_SIZE
    && (f[4] == CMD_FINGER_DETECT || f[4] == CMD_GET_IMAGE || f[4] == CMD_UP_IMAGE_CODE || f[4] == CMD_GENERATE)
  }

  ghost predicate CaptureRun(s0: seq<seq<int>>, s: seq<seq<int>>)
  {
    Grows(s0, s) && forall j | |s0| <= j < |s| :: CaptureFrame(s[j])
  }

  /** Equal from index k on means equal from k + n on. */
  lemma SameSuffix(a: seq<int>, b: seq<int>, k: int, n: int)
    requires 0 <= k && 0 <= n && k + n <= |a| == |b| && a[k..] == b[k..]
    ensures a[k + n..] == b[k + n..]
  {
    assert forall i | k + n <= i < |a| :: a[i] == a[k..][i - k] && b[i] == b[k..][i - k];
  }

  /** The checked part of a frame is its header, its payload and what the buffer held after them. */
  lemma FrameBody(f: seq<int>, h: seq<int>, d: seq<int>, prev: seq<int>)
    requires |f| == |prev| == FRAME_SIZE && |h| == 8 && |d| <= COMMAND_CAPACITY
    requires f[..8] == h && f[8 .. 8 + |d|] == d && f[8 + |d| ..] == prev[8 + |d| ..]
    ensures f[..CHECKED_SIZE] == h + d + prev[8 + |d| .. CHECKED_SIZE]
  {
    var r := h + d + prev[8 + |d| .. CHECKED_SIZE];
    assert forall i | 0 <= i < 8 :: f[i] == f[..8][i];
    assert forall i | 8 <= i < 8 + |d| :: f[i] == f[8 .. 8 + |d|][i - 8];
    assert forall i | 8 + |d| <= i < CHECKED_SIZE :: f[i] == f[8 + |d| ..][i - 8 - |d|] == prev[i];
    assert forall i | 0 <= i < CHECKED_SIZE :: f[..CHECKED_SIZE][i] == r[i];
  }

  lemma CaptureChain(s0: seq<seq<int>>, s1: seq<seq<int>>, s2: seq<seq<int>>, buffer: int)
    requires CaptureRun(s0, s1) && SampleRun(s1, s2, buffer)
    ensures CaptureRun(s0, s2)
  {
    assert forall j | |s0| <= j < |s1| :: s2[j] == s1[j];
  }

  lemma GrowsChain(s0: seq<seq<int>>, s1: seq<seq<int>>, s2: seq<seq<int>>)
    requires Grows(s0, s1) && Grows(s1, s2)
    ensures Grows(s0, s2)
  {
  }

  lemma PollChain(s0: seq<seq<int>>, s1: seq<seq<int>>, s2: seq<seq<int>>)
    requires PollRun(s0, s1) && PollRun(s1, s2)
    ensures PollRun(s0, s2)
  {
    assert forall j | |s0| <= j < |s1| :: s2[j] == s1[j];
  }

  lemma UploadChain(s0: seq<seq<int>>, s1: seq<seq<int>>, s2: seq<seq<int>>)
    requires UploadRun(s0, s1) && UploadRun(s1, s2)
    ensures UploadRun(s0, s2)
  {
    assert forall j | |s0| <= j < |s1| :: s2[j] == s1[j];
  }

  lemma SampleChain(s0: seq<seq<int>>, s1: seq<seq<int>>, s2: seq<seq<int>>, buffer: int)
    requires SampleRun(s0, s1, buffer) && SampleRun(s1, s2, buffer)
    ensures SampleRun(s0, s2, buffer)
  {
    assert forall j | |s0| <= j < |s1| :: s2[j] == s1[j];
  }

  lemma PollIsUpload(s0: seq<seq<int>>, s: seq<seq<int>>)
    requires PollRun(s0, s)
    ensures UploadRun(s0, s)
  {
  }

  lemma UploadIsSample(s0: seq<seq<int>>, s: seq<seq<int>>, buffer: int)
    requires UploadRun(s0, s)
    ensures SampleRun(s0, s, buffer)
  {
  }

  /** The one frame CmdGenerate sends belongs to a capture attempt into `buffer`. */
  lemma GenerateIsSample(s0: seq<seq<int>>, s: seq<seq<int>>, c: Command, buffer: int)
    requires Grows(s0, s) && |s| == |s0| + 1 && |s[|s0|]| == FRAME_SIZE && s[|s0|][4] == CMD_GENERATE
    requires c.length == 2 && |c.data| == COMMAND_CAPACITY && c.data[0] == buffer && c.data[1] == 0
    requires s[|s0|][8 .. 8 + c.length] == c.data[..c.length]
    ensures SampleRun(s0, s, buffer)
  {
    assert s[|s0|][8] == s[|s0|][8 .. 10][0];
    assert s[|s0|][9] == s[|s0|][8 .. 10][1];
  }

  /** Every frame sent since `s0` is whole, and each STORE_CHAR among them carries `payload`. */
  ghost predicate StoresRun(s0: seq<seq<int>>, s: seq<seq<int>>, payload: seq<int>)
  {
    Grows(s0, s) && forall j | |s0| <= j < |s| :: |s[j]| == FRAME_SIZE && (s[j][4] == CMD_STORE_CHAR ==> s[j][8..12] == payload)
  }

  /** No frame sent since `s0` is a DEL_CHAR. */
  ghost predicate NoDeleteRun(s0: seq<seq<int>>, s: seq<seq<int>>)
  {
    Grows(s0, s) && forall j | |s0| <= j < |s| :: |s[j]| == FRAME_SIZE && s[j][4] != CMD_DEL_CHAR
  }

  /** One frame that neither stores nor deletes, then a run: the run's properties reach back over it. */
  lemma OtherFrameFirst(s0: seq<seq<int>>, s1: seq<seq<int>>, s: seq<seq<int>>, payload: seq<int>)
    requires Grows(s0, s1) && |s1| == |s0| + 1 && |s1[|s0|]| == FRAME_SIZE
    requires s1[|s0|][4] != CMD_STORE_CHAR && s1[|s0|][4] != CMD_DEL_CHAR
    requires StoresRun(s1, s, payload)
    ensures StoresRun(s0, s, payload) && s[|s0|] == s1[|s0|]
    ensures NoDeleteRun(s1, s) ==> NoDeleteRun(s0, s)
  {
  }

  /** Capture frames, then a run: the run's properties reach back over the captures. */
  lemma CaptureFirst(s0: seq<seq<int>>, s1: seq<seq<int>>, s: seq<seq<int>>, payload: seq<int>)
    requires CaptureRun(s0, s1) && StoresRun(s1, s, payload)
    ensures StoresRun(s0, s, payload)
    ensures NoDeleteRun(s1, s) ==> NoDeleteRun(s0, s)
  {
    assert forall j | |s0| <= j < |s1| :: s[j] == s1[j];
  }

  /** One STORE_CHAR frame carrying `payload`, then DEL_CHAR frames only. */
  lemma StoreFirst(s0: seq<seq<int>>, s1: seq<seq<int>>, s: seq<seq<int>>, payload: seq<int>)
    requires Grows(s0, s1) && |s1| == |s0| + 1 && |s1[|s0|]| == FRAME_SIZE
    requires s1[|s0|][4] == CMD_STORE_CHAR && s1[|s0|][8..12] == payload
    requires Grows(s1, s) && forall j | |s1| <= j < |s| :: |s[j]| == FRAME_SIZE && s[j][4] == CMD_DEL_CHAR
    ensures StoresRun(s0, s, payload) && s[|s0|] == s1[|s0|]
    ensures s == s1 ==> NoDeleteRun(s0, s)
  {
  }

  /** From index `start` on, `s` holds exactly one whole frame per opcode of `ops`, in order. */
  ghost predicate OpsFrom(s: seq<seq<int>>, start: int, ops: seq<int>)
  {
    0 <= start && |s| == start + |ops| && forall j | start <= j < |s| :: |s[j]| == FRAME_SIZE && s[j][4] == ops[j - start]
  }

  /** Capture frames from index `from` up to `mark`, then exactly the frames `ops` names. */
  ghost predicate CapturesThen(s: seq<seq<int>>, from: int, mark: int, ops: seq<int>)
  {
    0 <= from <= mark && OpsFrom(s, mark, ops) && forall j | from <= j < mark :: CaptureFrame(s[j])
  }

  /** One frame with opcode `op` is the run `[op]`. */
  lemma OneOp(s0: seq<seq<int>>, s: seq<seq<int>>, op: int)
    requires Grows(s0, s) && |s| == |s0| + 1 && |s[|s0|]| == FRAME_SIZE && s[|s0|][4] == op
    ensures OpsFrom(s, |s0|, [op])
  {
  }

  /** Two runs of frames, one after the other, are the run of both. */
  lemma OpsChain(s1: seq<seq<int>>, s: seq<seq<int>>, start: int, a: seq<int>, b: seq<int>)
    requires OpsFrom(s1, start, a) && Grows(s1, s) && OpsFrom(s, |s1|, b)
    ensures OpsFrom(s, start, a + b)
  {
    forall j | start <= j < |s|
      ensures |s[j]| == FRAME_SIZE && s[j][4] == (a + b)[j - start]
    {
      if j < |s1| {
        assert s[j] == s1[j];
      }
    }
  }

  /** Capture frames, then a run: the captures end where the run starts. */
  lemma CapturesFirst(s1: seq<seq<int>>, s2: seq<seq<int>>, s: seq<seq<int>>, ops: seq<int>)
    requires CaptureRun(s1, s2) && Grows(s2, s) && OpsFrom(s, |s2|, ops)
    ensures CapturesThen(s, |s1|, |s2|, ops)
  {
    assert forall j | |s1| <= j < |s2| :: s[j] == s2[j];
  }

  /** A SEARCH frame over slots `first` to `last`. */
  predicate SearchFrame(f: seq<int>, first: int, last: int)
  {
    && |f| == FRAME_SIZE && f[4] == CMD_SEARCH && f[8] == 0 && f[9] == 0
    && LE16(f[10], f[11]) == first && LE16(f[12], f[13]) == last
  }

  /** The command `CmdDelChar(k, ...)` would have sent: delete slot k only, as delete_finger does. */
  function DelCharCommand(c: Command, k: int): Command
    requires 0 <= k < 65536 && |c.data| == COMMAND_CAPACITY
  {
    c.(opcode := CMD_DEL_CHAR, length := 4, data := DeletePayload(k) + c.data[4..])
  }

  /** One exchange on the port answers as Ask says on the line the port holds. */
  lemma ExchangeAsks(p: Port, c: Command, back: bool, l: Line)
    requires PortOk(p) && Sendable(c) && LineOk(l) && l.replies == p.inbox && l.RPS == p.RPS
    ensures var (q, r) := Exchange(p, c, back); Ask(l, back) == (r, l.(replies := q.inbox, RPS := q.RPS))
  {
  }

  class CapSensor {
    const cmd: array<int>
    const rps: array<int>
    var CMD: Command
    var RPS: Response
    var inbox: seq<seq<int>>
    var uploads: seq<seq<int>>
    var sent: seq<seq<int>>
    var table: Store.Table
    var lastMatchPosition: Option<int>
    var images: seq<array2<int>>

    ghost predicate Valid()
      reads this, cmd, rps
    {
      && cmd.Length == FRAME_SIZE && rps.Length == FRAME_SIZE && cmd != rps
      && CMD.prefix == COMMAND_PREFIX && CMD.sid == COMMAND_SID && CMD.did == COMMAND_DID
      && WellFormedCommand(CMD) && IsBytes(CMD.data)
      && |RPS.data| == RESPONSE_CAPACITY && IsBytes(RPS.data)
      && AllFrames(inbox)
      && (forall j | 0 <= j < |uploads| :: IsBytes(uploads[j]) && |uploads[j]| % CapImage.UPLOAD_SIZE == 0)
      && (forall j | 0 <= j < |sent| :: |sent[j]| == FRAME_SIZE)
      && Store.Valid(table)
      && (forall j | 0 <= j < |table.rows| :: 0 <= table.rows[j].slot < 65536)
    }

    /** The state of the line and of both buffers. */
    function Snapshot(): Port
      reads this, cmd, rps
    {
      Port(cmd[..], rps[..], RPS, inbox, sent)
    }

    /** What the workflows of module CapFlow see: the replies, `self.RPS`, the uploads and the images saved. */
    function Here(): Line
      reads this
    {
      Line(inbox, RPS, uploads, |images|)
    }

    twostate predicate Untouched()
      reads this
    {
      uploads == old(uploads) && table == old(table) && lastMatchPosition == old(lastMatchPosition) && images == old(images)
    }

    /** Everything sent before is still there, in place. */
    ghost predicate Extends(s0: seq<seq<int>>)
      reads this
    {
      Grows(s0, sent)
    }

    /** Exactly one frame was sent, carrying `self.CMD`'s opcode and payload. */
    ghost predicate SentOne(s0: seq<seq<int>>)
      reads this
    {
      && Extends(s0) && |sent| == |s0| + 1 && |sent[|s0|]| == FRAME_SIZE
      && 0 <= CMD.length <= COMMAND_CAPACITY && |CMD.data| == COMMAND_CAPACITY
      && sent[|s0|][4] == CMD.opcode && sent[|s0|][8 .. 8 + CMD.length] == CMD.data[..CMD.length]
    }

    /** No answer exactly when nothing was waiting; an answer consumes at least one reply. */
    ghost predicate Progress(inbox0: seq<seq<int>>, r: Option<int>)
      reads this
    {
      (r.None? <==> inbox0 == []) && (r.None? ==> inbox == []) && (r.Some? ==> |inbox| < |inbox0|)
    }

    /** The last frame sent is UP_IMAGE_CODE for buffer 0. */
    ghost predicate UploadedLast()
      reads this
    {
      |sent| > 0 && |sent[|sent| - 1]| == FRAME_SIZE && sent[|sent| - 1][4] == CMD_UP_IMAGE_CODE && sent[|sent| - 1][8] == 0
    }

    /** Every STORE_CHAR frame sent since `s0` carries `payload`. */
    ghost predicate StoresSince(s0: seq<seq<int>>, payload: seq<int>)
      reads this
    {
      StoresRun(s0, sent, payload)
    }

    /** No DEL_CHAR frame was sent since `s0`. */
    ghost predicate NoDeleteSince(s0: seq<seq<int>>)
      reads this
    {
      NoDeleteRun(s0, sent)
    }

    /** The last frame sent is a DEL_CHAR naming slot `k` as start and end. */
    ghost predicate DeletedLast(k: int)
      reads this
    {
      && |sent| > 0 && |sent[|sent| - 1]| == FRAME_SIZE && sent[|sent| - 1][4] == CMD_DEL_CHAR
      && LE16(sent[|sent| - 1][8], sent[|sent| - 1][9]) == k && LE16(sent[|sent| - 1][10], sent[|sent| - 1][11]) == k
    }

    /** The last frame sent is a SEARCH over slots `first` to `last`. */
    ghost predicate SearchedLast(first: int, last: int)
      reads this
    {
      |sent| > 0 && SearchFrame(sent[|sent| - 1], first, last)
    }

    /** Some frame sent since `s0` has opcode `op`. */
    ghost predicate SentOp(s0: seq<seq<int>>, op: int)
      reads this
    {
      exists j | |s0| <= j < |sent| :: |sent[j]| == FRAME_SIZE && sent[j][4] == op
    }

    /** The frames sent since `s0` are exactly one per opcode of `ops`, in order. */
    ghost predicate OpsSince(s0: seq<seq<int>>, ops: seq<int>)
      reads this
    {
      Grows(s0, sent) && OpsFrom(sent, |s0|, ops)
    }

    /** Every frame sent since `s0` is a FINGER_DETECT poll. */
    ghost predicate PolledSince(s0: seq<seq<int>>)
      reads this
    {
      PollRun(s0, sent)
    }

    /** Every frame sent since `s0` belongs to an image upload. */
    ghost predicate UploadSince(s0: seq<seq<int>>)
      reads this
    {
      UploadRun(s0, sent)
    }

    /** Every frame sent since `s0` belongs to capture attempts into `buffer`. */
    ghost predicate SampledSince(s0: seq<seq<int>>, buffer: int)
      reads this
    {
      SampleRun(s0, sent, buffer)
    }

    constructor (replies: seq<seq<int>>, images0: seq<seq<int>>, t: Store.Table)
      requires AllFrames(replies) && Store.Valid(t)
      requires forall j | 0 <= j < |images0| :: IsBytes(images0[j]) && |images0[j]| % CapImage.UPLOAD_SIZE == 0
      requires forall j | 0 <= j < |t.rows| :: 0 <= t.rows[j].slot < 65536
      ensures Valid() && fresh(cmd) && fresh(rps)
      ensures cmd[..] == INITIAL_CMD && rps[..] == seq(FRAME_SIZE, _ => 0)
      ensures CMD == Command(COMMAND_PREFIX, COMMAND_SID, COMMAND_DID, 0, 0, seq(COMMAND_CAPACITY, _ => 0))
      ensures inbox == replies && uploads == images0 && sent == [] && table == t
      ensures lastMatchPosition == None && images == []
    {
      cmd := new int[FRAME_SIZE](i requires 0 <= i < FRAME_SIZE => INITIAL_CMD[i]);
      rps := new int[FRAME_SIZE](_ => 0);
      CMD := Command(COMMAND_PREFIX, COMMAND_SID, COMMAND_DID, 0, 0, seq(COMMAND_CAPACITY, _ => 0));
      RPS := Response(0, 0, 0, 0, 0, 0, seq(RESPONSE_CAPACITY, _ => 0), 0);
      inbox := replies;
      uploads := images0;
      sent := [];
      table := t;
      lastMatchPosition := None;
      images := [];
    }

    /** Tx_cmd: encode `self.CMD` into `self.cmd` and write it. */
    method TxCmd()
      requires Valid()
      modifies this, cmd
      ensures Valid() && Untouched()
      ensures Snapshot() == Transmit(old(Snapshot()), CMD)
      ensures CMD == old(CMD) && SentOne(old(sent))
    {
      ghost var prev := cmd[..];
      EncodeCommand();
      ghost var f := cmd[..];
      assert f[..8] == Header(CMD) && f[8 .. 8 + CMD.length] == CMD.data[..CMD.length] by {
        var body := Header(CMD) + CMD.data[..CMD.length] + prev[8 + CMD.length .. CHECKED_SIZE];
        assert f[..8] == body[..8] && f[8 .. 8 + CMD.length] == body[8 .. 8 + CMD.length];
      }
      sent := sent + [cmd[..]];
    }

    /** The body of Tx_cmd up to the write: header, payload and checksum over the previous buffer. */
    method EncodeCommand()
      requires cmd.Length == FRAME_SIZE && Sendable(CMD)
      modifies cmd
      ensures cmd[..] == Encode(old(cmd[..]), CMD)
    {
      ghost var prev := cmd[..];
      WriteHeader();
      ghost var mid := cmd[..];
      CopyPayload();
      SameSuffix(mid, prev, 8, CMD.length);
      ghost var body := Header(CMD) + CMD.data[..CMD.length] + prev[8 + CMD.length .. CHECKED_SIZE];
      FrameBody(cmd[..], Header(CMD), CMD.data[..CMD.length], prev);
      var cks := SumChecked();
      cmd[24] := Lo(cks);
      cmd[25] := Hi(cks);
      assert cmd[..] == body + [Lo(cks), Hi(cks)];
    }

    /** Bytes 0-7 of Tx_cmd: PREFIX little-endian, SID, DID, CMD, 0, LEN little-endian. */
    method WriteHeader()
      requires cmd.Length == FRAME_SIZE
      modifies cmd
      ensures cmd[..8] == Header(CMD) && cmd[8..] == old(cmd[8..])
    {
      cmd[0] := Lo(CMD.prefix);
      cmd[1] := Hi(CMD.prefix);
      cmd[2] := CMD.sid;
      cmd[3] := CMD.did;
      cmd[4] := CMD.opcode;
      cmd[5] := 0x00;
      cmd[6] := Lo(CMD.length);
      cmd[7] := Hi(CMD.length);
    }

    /** The `for i in range(self.CMD.LEN)` copy of DATA; later bytes keep their old values. */
    method CopyPayload()
      requires cmd.Length == FRAME_SIZE && Sendable(CMD)
      modifies cmd
      ensures cmd[..8] == old(cmd[..8])
      ensures cmd[8 .. 8 + CMD.length] == CMD.data[..CMD.length]
      ensures cmd[8 + CMD.length ..] == old(cmd[8 + CMD.length ..])
    {
      var i := 0;
      while i < CMD.length
        invariant 0 <= i <= CMD.length
        invariant cmd[..8] == old(cmd[..8])
        invariant cmd[8 .. 8 + i] == CMD.data[..i]
        invariant cmd[8 + i ..] == old(cmd[8 + i ..])
      {
        cmd[8 + i] := CMD.data[i];
        i := i + 1;
      }
    }

    /** The `for i in range(24)` sum of Tx_cmd. */
    method SumChecked() returns (cks: int)
      requires cmd.Length == FRAME_SIZE
      ensures cks == Sum(cmd[..CHECKED_SIZE])
    {
      cks := 0;
      var i := 0;
      while i < CHECKED_SIZE
        invariant 0 <= i <= CHECKED_SIZE && cks == Sum(cmd[..i])
      {
        assert cmd[..i + 1][..i] == cmd[..i];
        cks := cks + cmd[i];
        i := i + 1;
      }
    }

    /** Rx_CMD_Process: decode `self.rps` into `self.RPS`. */
    method RxCmdProcess()
      requires rps.Length == FRAME_SIZE
      modifies this
      ensures RPS == Decode(rps[..])
      ensures CMD == old(CMD) && inbox == old(inbox) && sent == old(sent) && Untouched()
    {
      var data: seq<int> := [];
      var i := 0;
      while i < RESPONSE_CAPACITY
        invariant 0 <= i <= RESPONSE_CAPACITY && data == rps[10 .. 10 + i]
      {
        data := data + [rps[10 + i]];
        i := i + 1;
      }
      RPS := Response(rps[0] + rps[1] * 0x100, rps[2], rps[3], rps[4] + rps[5] * 0x100,
                      rps[6] + rps[7] * 0x100, rps[8] + rps[9] * 0x100, data, rps[24] + rps[25] * 0x100);
    }

    /** Rx_cmd(back): read replies while they wait, as module CapLink describes. */
    method RxCmd(back: bool) returns (r: Option<int>)
      requires Valid()
      modifies this, rps
      ensures Valid() && Untouched()
      ensures (Snapshot(), r) == Receive(old(Snapshot()), back)
      ensures CMD == old(CMD) && sent == old(sent) && Progress(old(inbox), r)
    {
      ReceiveConsumes(Snapshot(), back);
      if inbox == [] {
        return None;
      }
      ghost var run := RxLoop(inbox, 0, RPS, back);
      var cks := 0;
      while true
        invariant Valid() && Untouched() && CMD == old(CMD) && sent == old(sent)
        invariant inbox != [] && 0 <= cks < 65536
        invariant RxLoop(inbox, cks, RPS, back) == run
        decreases |inbox|
      {
        var stop, value;
        stop, value, cks := RxFrame(cks, back);
        if stop {
          return Some(value);
        }
      }
    }

    /**
     * One pass of Rx_cmd's inner loop: read a reply, stop on the
     * no-device marker, otherwise decode it, add it to the running sum
     * and stop when the sums agree or nothing more is waiting.
     */
    method RxFrame(cks: int, back: bool) returns (stop: bool, value: int, cks': int)
      requires Valid() && inbox != [] && 0 <= cks < 65536
      modifies this, rps
      ensures Valid() && Untouched() && CMD == old(CMD) && sent == old(sent)
      ensures stop ==> RxPass(old(inbox), cks, old(RPS), back) == Stop(RxRun(value, inbox, rps[..], RPS))
      ensures !stop ==> RxPass(old(inbox), cks, old(RPS), back) == Continue(cks', RPS) && inbox == old(inbox)[1..]
    {
      ghost var frame := inbox[0];
      DecodedBytes(frame);
      ReadFrame();
      if rps[4] == NO_DEVICE {
        return true, 1, cks;
      }
      cks' := Absorb(cks);
      if cks' == RPS.checksum {
        return true, Dispatch(RPS, back), cks';
      }
      if inbox == [] {
        return true, 1, cks';
      }
      stop, value := false, 0;
    }

    /** Rx_CMD_Process on the frame just read, then its bytes added to the running sum. */
    method Absorb(cks: int) returns (cks': int)
      requires Valid()
      requires IsFrame(rps[..])
      modifies this
      ensures Valid() && Untouched() && CMD == old(CMD) && sent == old(sent) && inbox == old(inbox)
      ensures RPS == Decode(rps[..]) && cks' == (cks + Sum(rps[..CHECKED_SIZE])) % 65536
    {
      DecodedBytes(rps[..]);
      RxCmdProcess();
      cks' := AddChecksum(cks);
    }

    /** The `for i in range(26)` copy of one waiting reply into `self.rps`. */
    method ReadFrame()
      requires Valid() && inbox != []
      modifies this, rps
      ensures Valid() && Untouched() && CMD == old(CMD) && sent == old(sent) && RPS == old(RPS)
      ensures rps[..] == old(inbox)[0] && inbox == old(inbox)[1..]
    {
      var frame := inbox[0];
      var i := 0;
      while i < FRAME_SIZE
        modifies rps
        invariant 0 <= i <= FRAME_SIZE && rps[..i] == frame[..i]
      {
        rps[i] := frame[i];
        i := i + 1;
      }
      assert rps[..] == frame;
      inbox := inbox[1..];
    }

    /** The `for i in range(24)` loop: `CKS = (CKS + self.rps[i]) & 0xffff`. */
    method AddChecksum(c0: int) returns (cks: int)
      requires rps.Length == FRAME_SIZE
      ensures cks == (c0 + Sum(rps[..CHECKED_SIZE])) % 65536
    {
      cks := c0 % 65536;
      var i := 0;
      while i < CHECKED_SIZE
        invariant 0 <= i <= CHECKED_SIZE && cks == (c0 + Sum(rps[..i])) % 65536
      {
        ModStep(c0 + Sum(rps[..i]), rps[i]);
        assert rps[..i + 1][..i] == rps[..i];
        cks := (cks + rps[i]) % 65536;
        i := i + 1;
      }
    }

    // ------------------------------------------------------------ builders

    /** CmdFingerDetect: 0 when a finger is on the sensor, 1 when not, 2 on a failed instruction. */
    method CmdFingerDetect(back: bool) returns (r: Option<int>)
      requires Valid()
      modifies this, cmd, rps
      ensures Valid() && Untouched()
      ensures CMD == old(CMD).(opcode := CMD_FINGER_DETECT, length := 0)
      ensures (Snapshot(), r) == Exchange(old(Snapshot()), CMD, back)
      ensures SentOne(old(sent)) && Progress(old(inbox), r)
    {
      CMD := CMD.(opcode := CMD_FINGER_DETECT, length := 0);
      TxCmd();
      r := RxCmd(back);
    }

    method CmdGetImage(back: bool) returns (r: Option<int>)
      requires Valid()
      modifies this, cmd, rps
      ensures Valid() && Untouched()
      ensures CMD == old(CMD).(opcode := CMD_GET_IMAGE, length := 0)
      ensures (Snapshot(), r) == Exchange(old(Snapshot()), CMD, back)
      ensures SentOne(old(sent)) && Progress(old(inbox), r)
    {
      CMD := CMD.(opcode := CMD_GET_IMAGE, length := 0);
      TxCmd();
      r := RxCmd(back);
    }

    /** CmdGenerate: extract features of the captured image into buffer `k`. */
    method CmdGenerate(k: int, back: bool) returns (r: Option<int>)
      requires Valid() && IsByte(k)
      modifies this, cmd, rps
      ensures Valid() && Untouched()
      ensures CMD == old(CMD).(opcode := CMD_GENERATE, length := 2, data := old(CMD).data[0 := k][1 := 0])
      ensures (Snapshot(), r) == Exchange(old(Snapshot()), CMD, back)
      ensures SentOne(old(sent)) && Progress(old(inbox), r)
    {
      CMD := CMD.(opcode := CMD_GENERATE, length := 2, data := CMD.data[0 := k][1 := 0]);
      TxCmd();
      r := RxCmd(back);
    }

    /** CmdMerge: merge buffers `k` .. into a template; `n` is the number of samples. */
    method CmdMerge(k: int, n: int, back: bool) returns (r: Option<int>)
      requires Valid() && IsByte(k) && IsByte(n)
      modifies this, cmd, rps
      ensures Valid() && Untouched()
      ensures CMD == old(CMD).(opcode := CMD_MERGE, length := 3, data := old(CMD).data[0 := k][1 := 0][2 := n])
      ensures (Snapshot(), r) == Exchange(old(Snapshot()), CMD, back)
      ensures SentOne(old(sent)) && Progress(old(inbox), r)
    {
      CMD := CMD.(opcode := CMD_MERGE, length := 3, data := CMD.data[0 := k][1 := 0][2 := n]);
      TxCmd();
      r := RxCmd(back);
    }

    /**
     * CmdStoreChar: store the merged template in slot `k`.  The slot is
     * sent as a 16-bit little-endian value (see StorePayload).
     */
    method CmdStoreChar(k: int, n: int, back: bool) returns (r: Option<int>)
      requires Valid() && 0 <= k < 65536 && IsByte(n)
      modifies this, cmd, rps
      ensures Valid() && Untouched()
      ensures CMD == old(CMD).(opcode := CMD_STORE_CHAR, length := 4, data := StorePayload(k, n) + old(CMD).data[4..])
      ensures (Snapshot(), r) == Exchange(old(Snapshot()), CMD, back)
      ensures SentOne(old(sent)) && Progress(old(inbox), r)
    {
      CMD := CMD.(opcode := CMD_STORE_CHAR, length := 4, data := StorePayload(k, n) + CMD.data[4..]);
      TxCmd();
      r := RxCmd(back);
    }

    /**
     * The DEL_CHAR frame delete_finger builds inline: delete slot `k`
     * only (start and end both `k`).  The class has no CmdDelChar.
     */
    method SendDelChar(k: int, back: bool) returns (r: Option<int>)
      requires Valid() && 0 <= k < 65536
      modifies this, cmd, rps
      ensures Valid() && Untouched()
      ensures CMD == DelCharCommand(old(CMD), k)
      ensures (Snapshot(), r) == Exchange(old(Snapshot()), CMD, back)
      ensures SentOne(old(sent)) && Progress(old(inbox), r)
    {
      CMD := DelCharCommand(CMD, k);
      TxCmd();
      r := RxCmd(back);
    }

    /** The SEARCH command of run_search: slots `first` to `last`, buffer 0. */
    method CmdSearch(first: int, last: int, back: bool) returns (r: Option<int>)
      requires Valid() && 0 <= first < 65536 && 0 <= last < 65536
      modifies this, cmd, rps
      ensures Valid() && Untouched()
      ensures CMD == old(CMD).(opcode := CMD_SEARCH, length := 6, data := SearchPayload(first, last) + old(CMD).data[6..])
      ensures (Snapshot(), r) == Exchange(old(Snapshot()), CMD, back)
      ensures SentOne(old(sent)) && Progress(old(inbox), r)
    {
      CMD := CMD.(opcode := CMD_SEARCH, length := 6, data := SearchPayload(first, last) + CMD.data[6..]);
      TxCmd();
      r := RxCmd(back);
    }

    /** GetEnrolledIdList: note that the reply is read with the opposite `back` flag. */
    method GetEnrolledIdList(back: bool) returns (r: Option<int>)
      requires Valid()
      modifies this, cmd, rps
      ensures Valid() && Untouched()
      ensures CMD == old(CMD).(opcode := CMD_GET_ENROLLED_ID_LIST, length := 0)
      ensures (Snapshot(), r) == Exchange(old(Snapshot()), CMD, !back)
      ensures SentOne(old(sent)) && Progress(old(inbox), r)
    {
      CMD := CMD.(opcode := CMD_GET_ENROLLED_ID_LIST, length := 0);
      TxCmd();
      r := RxCmd(!back);
    }

    /** GetUserCount: count the templates in slots 1..3000. */
    method GetUserCount(back: bool) returns (r: Option<int>)
      requires Valid()
      modifies this, cmd, rps
      ensures Valid() && Untouched()
      ensures CMD == old(CMD).(opcode := CMD_GET_ENROLL_COUNT, length := 4,
                               data := SLOT_RANGE_PAYLOAD + old(CMD).data[4..])
      ensures (Snapshot(), r) == Exchange(old(Snapshot()), CMD, !back)
      ensures SentOne(old(sent)) && Progress(old(inbox), r)
    {
      CMD := CMD.(opcode := CMD_GET_ENROLL_COUNT, length := 4, data := SLOT_RANGE_PAYLOAD + CMD.data[4..]);
      TxCmd();
      r := RxCmd(!back);
    }

    // ----------------------------------------------------------- polling

    /** One `CmdFingerDetect(back)` as a poll: a FINGER_DETECT frame, and the answer the line gives. */
    method DetectFinger(back: bool) returns (r: Option<int>)
      requires Valid()
      modifies this, cmd, rps
      ensures Valid() && Untouched()
      ensures CMD == old(CMD).(opcode := CMD_FINGER_DETECT, length := 0)
      ensures PollRun(old(sent), sent) && |sent| == |old(sent)| + 1
      ensures (r, Here()) == Ask(old(Here()), back)
    {
      ghost var p, l := Snapshot(), Here();
      r := CmdFingerDetect(back);
      ExchangeAsks(p, CMD, back, l);
    }

    /** `CmdGetImage(back)` inside a capture: a GET_IMAGE frame, and the answer the line gives. */
    method GrabImage(back: bool) returns (r: Option<int>)
      requires Valid()
      modifies this, cmd, rps
      ensures Valid() && Untouched()
      ensures UploadRun(old(sent), sent) && |sent| == |old(sent)| + 1 && sent[|old(sent)|][4] == CMD_GET_IMAGE
      ensures (r, Here()) == Ask(old(Here()), back)
    {
      ghost var p, l := Snapshot(), Here();
      r := CmdGetImage(back);
      ExchangeAsks(p, CMD, back, l);
    }

    /** `while not self.CmdFingerDetect(back)`: poll until the answer is truthy (no finger, or an error). */
    method AwaitLift(back: bool) returns (r: Option<int>)
      requires Valid()
      modifies this, cmd, rps
      ensures Valid() && Untouched()
      ensures CMD == old(CMD).(opcode := CMD_FINGER_DETECT, length := 0)
      ensures PolledSince(old(sent)) && |sent| > |old(sent)|
      ensures (r, Here()) == Lift(old(Here()), back)
    {
      ghost var l0 := Here();
      r := DetectFinger(back);
      while r == Some(0)
        invariant Valid() && Untouched()
        invariant CMD == old(CMD).(opcode := CMD_FINGER_DETECT, length := 0)
        invariant PolledSince(old(sent)) && |sent| > |old(sent)|
        invariant r == Some(0) ==> Lift(Here(), back) == Lift(l0, back)
        invariant r != Some(0) ==> (r, Here()) == Lift(l0, back)
        decreases |inbox| + (if r == Some(0) then 1 else 0)
      {
        r := DetectFinger(back);
      }
    }

    /** `while self.CmdFingerDetect(back)`: poll until the answer is falsy (a finger is on the sensor). */
    method AwaitPress(back: bool) returns (r: Option<int>)
      requires Valid()
      modifies this, cmd, rps
      ensures Valid() && Untouched()
      ensures CMD == old(CMD).(opcode := CMD_FINGER_DETECT, length := 0)
      ensures PolledSince(old(sent)) && |sent| > |old(sent)|
      ensures (r, Here()) == Press(old(Here()), back)
    {
      ghost var l0 := Here();
      r := DetectFinger(back);
      while r.Some? && r != Some(0)
        invariant Valid() && Untouched()
        invariant CMD == old(CMD).(opcode := CMD_FINGER_DETECT, length := 0)
        invariant PolledSince(old(sent)) && |sent| > |old(sent)|
        invariant r.Some? && r != Some(0) ==> Press(Here(), back) == Press(l0, back)
        invariant !(r.Some? && r != Some(0)) ==> (r, Here()) == Press(l0, back)
        decreases |inbox| + (if r.Some? && r != Some(0) then 1 else 0)
      {
        r := DetectFinger(back);
      }
    }

    /**
     * The opening shared by CmdUpImageCode and the capture loops: one
     * FINGER_DETECT, wait for the finger to be lifted and pressed again,
     * then FINGER_DETECT once more; its answer is returned.
     */
    method Engage(back: bool) returns (d: Option<int>)
      requires Valid()
      modifies this, cmd, rps
      ensures Valid() && Untouched()
      ensures CMD == old(CMD).(opcode := CMD_FINGER_DETECT, length := 0)
      ensures PolledSince(old(sent)) && |sent| > |old(sent)|
      ensures (d, Here()) == Engaged(old(Here()), back)
    {
      ghost var s0 := sent;
      d := DetectFinger(back);
      assert PollRun(s0, sent);
      if d.None? {
        return;
      }
      ghost var s1 := sent;
      var w := AwaitLift(back);
      PollChain(s0, s1, sent);
      if w.None? {
        return None;
      }
      ghost var s2 := sent;
      w := AwaitPress(back);
      PollChain(s0, s2, sent);
      if w.None? {
        return None;
      }
      ghost var s3 := sent;
      d := DetectFinger(back);
      assert PollRun(s3, sent);
      PollChain(s0, s3, sent);
    }

    /** UP_IMAGE_CODE itself: send the command and collect the raw bytes that follow (no reply frame is read). */
    method SendUpImage() returns (rx: seq<int>)
      requires Valid()
      modifies this, cmd
      ensures Valid() && table == old(table) && lastMatchPosition == old(lastMatchPosition) && images == old(images)
      ensures inbox == old(inbox) && |sent| == |old(sent)| + 1 && Extends(old(sent))
      ensures sent[|old(sent)|][4] == CMD_UP_IMAGE_CODE && sent[|old(sent)|][8] == 0
      ensures UploadRun(old(sent), sent)
      ensures (rx, Here()) == Pull(old(Here()))
    {
      CMD := CMD.(opcode := CMD_UP_IMAGE_CODE, length := 1, data := CMD.data[0 := 0]);
      TxCmd();
      rx := [];
      if uploads != [] {
        rx := uploads[0];
        uploads := uploads[1..];
      }
    }

    /**
     * CmdUpImageCode: wait for the finger to be lifted and pressed again,
     * detect it, capture, then upload the image.  Done(None) when the
     * finger is not detected or the capture fails.
     */
    method CmdUpImageCode(back: bool) returns (o: Outcome<Option<seq<int>>>)
      requires Valid()
      modifies this, cmd, rps
      ensures Valid() && table == old(table) && lastMatchPosition == old(lastMatchPosition) && images == old(images)
      ensures UploadSince(old(sent)) && |sent| > |old(sent)|
      ensures (o, Here()) == UpImage(old(Here()), back)
      ensures o.Done? && o.value.Some? ==> UploadedLast()
    {
      ghost var s0, l0 := sent, Here();
      var d := Engage(back);
      ghost var l1 := Here();
      assert (d, l1) == Engaged(l0, back);
      PollIsUpload(s0, sent);
      if d.None? {
        return Blocked;
      }
      if d != Some(0) {
        return Done(None);
      }
      ghost var s1 := sent;
      o := CaptureAndUpload(back);
      assert (o, Here()) == Grab(l1, back);
      UploadChain(s0, s1, sent);
    }

    /** GET_IMAGE and, when it answers 0, UP_IMAGE_CODE. */
    method CaptureAndUpload(back: bool) returns (o: Outcome<Option<seq<int>>>)
      requires Valid()
      modifies this, cmd, rps
      ensures Valid() && table == old(table) && lastMatchPosition == old(lastMatchPosition) && images == old(images)
      ensures UploadSince(old(sent)) && |sent| > |old(sent)| && sent[|old(sent)|][4] == CMD_GET_IMAGE
      ensures (o, Here()) == Grab(old(Here()), back)
      ensures o.Done? && o.value.Some? ==> UploadedLast()
      ensures !(o.Done? && o.value.Some?) ==> |sent| == |old(sent)| + 1
    {
      ghost var s0, l0 := sent, Here();
      var g := GrabImage(back);
      ghost var l1 := Here();
      assert (g, l1) == Ask(l0, back);
      if g.None? {
        return Blocked;
      }
      if g != Some(0) {
        return Done(None);
      }
      ghost var s1 := sent;
      var rx := SendUpImage();
      assert (rx, Here()) == Pull(l1);
      UploadChain(s0, s1, sent);
      return Done(Some(rx));
    }

    /**
     * save_fingerprint_image: Data_Txt, read_data_txt and data_to_image
     * in turn; the raster is kept in `images` (files are not modelled).
     */
    method SaveFingerprintImage(data: seq<int>)
      requires Valid() && IsBytes(data) && |data| >= CapImage.RAW_EXTENT
      modifies this
      ensures Valid() && CMD == old(CMD) && RPS == old(RPS) && inbox == old(inbox) && sent == old(sent)
      ensures uploads == old(uploads) && table == old(table) && lastMatchPosition == old(lastMatchPosition)
      ensures |images| == |old(images)| + 1 && images[..|old(images)|] == old(images)
      ensures var img := images[|images| - 1];
        && fresh(img) && img.Length0 == CapImage.WIDTH && img.Length1 == CapImage.HEIGHT
        && forall x, y | 0 <= x < CapImage.WIDTH && 0 <= y < CapImage.HEIGHT ::
             img[x, y] == CapImage.Pixel(CapImage.DataTxtValues(data), CapImage.WIDTH, x, y)
    {
      var lines := CapImage.DataTxt(data);
      var pixels := CapImage.ReadDataTxt(lines.value);
      var img := CapImage.DataToImage(pixels, CapImage.WIDTH, CapImage.HEIGHT);
      images := images + [img];
    }

    // ----------------------------------------------------------- capture

    /**
     * One pass of the body of the `for i in range(3)` capture loop:
     * detect, wait for lift and press, detect, GET_IMAGE, GENERATE into
     * `buffer`; after a successful GENERATE upload the image, save it
     * when any bytes arrived, and report that the loop should break.
     */
    method CaptureAttempt(buffer: int) returns (o: Outcome<Attempt>)
      requires Valid() && 0 <= buffer < 3
      modifies this, cmd, rps
      ensures Valid() && table == old(table) && lastMatchPosition == old(lastMatchPosition)
      ensures SampledSince(old(sent), buffer)
      ensures (o, Here()) == Try(old(Here()))
      ensures o.Done? && o.value.Sampled? ==> SentOp(old(sent), CMD_GENERATE)
    {
      ghost var s0, l0 := sent, Here();
      var d := Engage(true);
      ghost var l1 := Here();
      assert (d, l1) == Engaged(l0, true);
      PollIsUpload(s0, sent);
      UploadIsSample(s0, sent, buffer);
      if d.None? {
        return Blocked;
      }
      if d == Some(0) {
        ghost var s1 := sent;
        var g := GrabImage(true);
        ghost var l2 := Here();
        assert (g, l2) == Ask(l1, true);
        UploadIsSample(s1, sent, buffer);
        SampleChain(s0, s1, sent, buffer);
        if g.None? {
          return Blocked;
        }
        if g == Some(0) {
          ghost var s2 := sent;
          o := Generate(buffer);
          assert (o, Here()) == Generated(l2);
          assert |s0| <= |s2| && |sent[|s2|]| == FRAME_SIZE && sent[|s2|][4] == CMD_GENERATE;
          return;
        }
      }
      return Done(NoSample);
    }

    /** The GENERATE step of a capture attempt and, when it answers 0, the upload and save. */
    method Generate(buffer: int) returns (o: Outcome<Attempt>)
      requires Valid() && 0 <= buffer < 3
      modifies this, cmd, rps
      ensures Valid() && table == old(table) && lastMatchPosition == old(lastMatchPosition)
      ensures SampledSince(old(sent), buffer) && |sent| > |old(sent)| && sent[|old(sent)|][4] == CMD_GENERATE
      ensures (o, Here()) == Generated(old(Here()))
    {
      ghost var s0 := sent;
      ghost var p, l := Snapshot(), Here();
      var gen := CmdGenerate(buffer, true);
      ExchangeAsks(p, CMD, true, l);
      ghost var l1 := Here();
      assert (gen, l1) == Ask(l, true);
      GenerateIsSample(s0, sent, CMD, buffer);
      if gen.None? {
        return Blocked;
      }
      if gen != Some(0) {
        return Done(NoSample);
      }
      ghost var s1 := sent;
      o := UploadAndSave(buffer);
      assert (o, Here()) == UploadSaved(l1);
      SampleChain(s0, s1, sent, buffer);
      assert sent[|s0|] == s1[|s0|];
    }

    /** After a successful GENERATE: upload the image and save it exactly when any bytes arrived. */
    method UploadAndSave(buffer: int) returns (o: Outcome<Attempt>)
      requires Valid() && 0 <= buffer < 3
      modifies this, cmd, rps
      ensures Valid() && table == old(table) && lastMatchPosition == old(lastMatchPosition)
      ensures SampledSince(old(sent), buffer)
      ensures (o, Here()) == UploadSaved(old(Here()))
    {
      ghost var s1, l0 := sent, Here();
      var up := CmdUpImageCode(true);
      ghost var l1 := Here();
      assert (up, l1) == UpImage(l0, true);
      UploadIsSample(s1, sent, buffer);
      if up.Blocked? {
        return Blocked;
      }
      var saved := false;
      if up.value.Some? && up.value.value != [] {
        CapImage.WholeUploads(|up.value.value|);
        SaveFingerprintImage(up.value.value);
        saved := true;
      }
      return Done(Sampled(saved));
    }

    /**
     * The `for i in range(3)` capture loop with generate buffer `buffer`:
     * attempts until one takes a sample (`break`), at most three.  The
     * reported `last` is the loop variable afterwards, so a sample taken
     * on the third attempt also reports 2.
     */
    method CaptureSample(buffer: int) returns (o: Outcome<Capture>)
      requires Valid() && 0 <= buffer < 3
      modifies this, cmd, rps
      ensures Valid() && table == old(table) && lastMatchPosition == old(lastMatchPosition)
      ensures SampledSince(old(sent), buffer)
      ensures (o, Here()) == Sample(old(Here()), 0)
      ensures o.Done? && (o.value.last < 2 || o.value.saved) ==> SentOp(old(sent), CMD_GENERATE)
    {
      var i := 0;
      ghost var s0, l0 := sent, Here();
      assert SampleRun(s0, sent, buffer);
      while true
        invariant 0 <= i <= 2
        invariant Valid() && table == old(table) && lastMatchPosition == old(lastMatchPosition)
        invariant SampledSince(s0, buffer)
        invariant Sample(Here(), i) == Sample(l0, 0)
        decreases 2 - i
      {
        ghost var s1 := sent;
        var a := CaptureAttempt(buffer);
        SampleChain(s0, s1, sent, buffer);
        if a.Blocked? {
          return Blocked;
        }
        if a.value.Sampled? {
          assert SentOp(s1, CMD_GENERATE);
          ghost var j :| |s1| <= j < |sent| && |sent[j]| == FRAME_SIZE && sent[j][4] == CMD_GENERATE;
          assert |s0| <= j;
          return Done(Capture(i, a.value.saved));
        }
        if i == 2 {
          return Done(Capture(2, false));
        }
        i := i + 1;
      }
    }

    /**
     * The three capture loops of enroll_finger, into buffers 0, 1 and 2;
     * the result is the loop variable of the third.
     */
    method CaptureAll() returns (o: Outcome<int>)
      requires Valid()
      modifies this, cmd, rps
      ensures Valid() && table == old(table) && lastMatchPosition == old(lastMatchPosition)
      ensures CaptureRun(old(sent), sent)
      ensures (o, Here()) == Captures(old(Here()), 0, 2)
    {
      ghost var s1, l0 := sent, Here();
      var a, last := 0, 2;
      while a < 3
        invariant 0 <= a <= 3 && 0 <= last <= 2
        invariant Valid() && table == old(table) && lastMatchPosition == old(lastMatchPosition)
        invariant CaptureRun(s1, sent)
        invariant Captures(Here(), a, last) == Captures(l0, 0, 2)
      {
        ghost var s2 := sent;
        var c := CaptureSample(a);
        CaptureChain(s1, s2, sent, a);
        if c.Blocked? {
          return Blocked;
        }
        last := c.value.last;
        a := a + 1;
      }
      o := Done(last);
    }

    // ------------------------------------------------------------ enrolment

    /** GET_EMPTY_ID over the whole slot range; the slot is read from RPS whatever the result code. */
    method GetEmptyId() returns (r: Option<int>, k: int)
      requires Valid()
      modifies this, cmd, rps
      ensures Valid() && Untouched()
      ensures SentOne(old(sent)) && sent[|old(sent)|][4] == CMD_GET_EMPTY_ID
      ensures sent[|old(sent)|][8..12] == SLOT_RANGE_PAYLOAD
      ensures (r, Here()) == Ask(old(Here()), true)
      ensures k == LE16(RPS.data[0], RPS.data[1]) == EmptySlot(old(Here()))
    {
      ghost var l := Here();
      CMD := CMD.(opcode := CMD_GET_EMPTY_ID, length := 4, data := SLOT_RANGE_PAYLOAD + CMD.data[4..]);
      ghost var p := Snapshot();
      TxCmd();
      r := RxCmd(true);
      ExchangeAsks(p, CMD, true, l);
      k := RPS.data[0] + RPS.data[1] * 0x100;
    }

    /** `CmdMerge(0, 3, 1)`: merge the three sampled buffers into one template. */
    method MergeSamples() returns (m: Option<int>)
      requires Valid()
      modifies this, cmd, rps
      ensures Valid() && Untouched()
      ensures Extends(old(sent)) && |sent| == |old(sent)| + 1 && |sent[|old(sent)|]| == FRAME_SIZE
      ensures sent[|old(sent)|][4] == CMD_MERGE && sent[|old(sent)|][8..11] == [0, 0, 3]
      ensures (m, Here()) == Ask(old(Here()), true)
    {
      var s0 := sent;
      ghost var p, l := Snapshot(), Here();
      m := CmdMerge(0, 3, true);
      ExchangeAsks(p, CMD, true, l);
      assert sent[|s0|][8..11] == CMD.data[..3];
    }

    /**
     * `CmdStoreChar(k, 0, 1)`: the STORE_CHAR frame for slot k, and the
     * answer the line gives.  Below slot 256 the frame is the one the
     * source writes (StorePayloadBelow256).
     */
    method StoreTemplate(k: int) returns (r: Option<int>)
      requires Valid() && 0 <= k < 65536
      modifies this, cmd, rps
      ensures Valid() && Untouched()
      ensures Extends(old(sent)) && |sent| == |old(sent)| + 1 && |sent[|old(sent)|]| == FRAME_SIZE
      ensures sent[|old(sent)|][4] == CMD_STORE_CHAR && sent[|old(sent)|][8..12] == StorePayload(k, 0)
      ensures (r, Here()) == Ask(old(Here()), true)
    {
      var s0 := sent;
      ghost var p, l := Snapshot(), Here();
      r := CmdStoreChar(k, 0, true);
      ExchangeAsks(p, CMD, true, l);
      assert sent[|s0|][8..12] == StorePayload(k, 0);
    }

    /** SendDelChar(k, back) as a step: the DEL_CHAR frame for slot k alone, and the answer the line gives. */
    method DeleteSlot(k: int, back: bool) returns (r: Option<int>)
      requires Valid() && 0 <= k < 65536
      modifies this, cmd, rps
      ensures Valid() && Untouched()
      ensures Extends(old(sent)) && |sent| == |old(sent)| + 1 && |sent[|old(sent)|]| == FRAME_SIZE
      ensures sent[|old(sent)|][4] == CMD_DEL_CHAR && sent[|old(sent)|][8..12] == DeletePayload(k)
      ensures DeletedLast(k)
      ensures (r, Here()) == Ask(old(Here()), back)
    {
      var s0 := sent;
      ghost var p, l := Snapshot(), Here();
      r := SendDelChar(k, back);
      ExchangeAsks(p, CMD, back, l);
      ghost var f := sent[|s0|];
      assert f[8..12] == DeletePayload(k);
      assert f[8] == f[8..12][0] && f[9] == f[8..12][1] && f[10] == f[8..12][2] && f[11] == f[8..12][3];
    }

    /** `CmdSearch(first, last, 0)`: the SEARCH frame over first..last, and the answer the line gives. */
    method SearchSlots(first: int, last: int) returns (r: Option<int>)
      requires Valid() && 0 <= first < 65536 && 0 <= last < 65536
      modifies this, cmd, rps
      ensures Valid() && Untouched()
      ensures Extends(old(sent)) && |sent| == |old(sent)| + 1 && |sent[|old(sent)|]| == FRAME_SIZE
      ensures sent[|old(sent)|][4] == CMD_SEARCH && sent[|old(sent)|][8..14] == SearchPayload(first, last)
      ensures SearchedLast(first, last)
      ensures (r, Here()) == Ask(old(Here()), false)
    {
      var s0 := sent;
      ghost var p, l := Snapshot(), Here();
      r := CmdSearch(first, last, false);
      ExchangeAsks(p, CMD, false, l);
      ghost var f := sent[|s0|];
      assert f[8..14] == SearchPayload(first, last);
      assert f[8] == f[8..14][0] && f[9] == f[8..14][1] && f[10] == f[8..14][2];
      assert f[11] == f[8..14][3] && f[12] == f[8..14][4] && f[13] == f[8..14][5];
    }

    /**
     * The tail of enroll_finger: MERGE buffers 0..3, STORE_CHAR into slot
     * k, insert the row, and the database-error handler (as written or as
     * intended, by `v`).
     */
    method MergeAndStore(name: string, k: int, dbFault: bool, v: Variant) returns (o: Outcome<int>)
      requires Valid() && 0 <= k < 65536
      modifies this, cmd, rps
      ensures Valid() && lastMatchPosition == old(lastMatchPosition) && images == old(images)
      ensures (o, Here(), table) == MergeStore(old(Here()), old(table), name, k, dbFault, v)
      ensures |sent| > |old(sent)| && sent[|old(sent)|][4] == CMD_MERGE && sent[|old(sent)|][8..11] == [0, 0, 3]
      ensures StoresSince(old(sent), StorePayload(k, 0))
      ensures v.AsWritten? ==> NoDeleteSince(old(sent))
      ensures o == Raised(DbError) ==> DeletedLast(k)
      ensures o == Raised(AttributeError) ==> v.AsWritten? && SentOp(old(sent), CMD_STORE_CHAR) && NoDeleteSince(old(sent))
      ensures OpsSince(old(sent), MergeStoreOps(old(Here()), old(table), name, k, dbFault, v))
    {
      ghost var s0, l0 := sent, Here();
      var m := MergeSamples();
      ghost var s1, l1 := sent, Here();
      assert (m, l1) == Ask(l0, true);
      OneOp(s0, s1, CMD_MERGE);
      if m.None? {
        o := Blocked;
      } else if m != Some(0) {
        o := Done(1);
      } else {
        o := StoreAndInsert(name, k, dbFault, v);
        assert (o, Here(), table) == StoreInsert(l1, old(table), name, k, dbFault, v);
        OpsChain(s1, sent, |s0|, [CMD_MERGE], StoreInsertOps(l1, old(table), name, k, dbFault, v));
      }
      OtherFrameFirst(s0, s1, sent, StorePayload(k, 0));
    }

    /**
     * STORE_CHAR into slot k and, when it answers 0, the insert.  As
     * written, a slot from 256 on is not a byte: the serial write raises
     * ValueError and no frame goes out.
     */
    method StoreAndInsert(name: string, k: int, dbFault: bool, v: Variant) returns (o: Outcome<int>)
      requires Valid() && 0 <= k < 65536
      modifies this, cmd, rps
      ensures Valid() && lastMatchPosition == old(lastMatchPosition) && images == old(images)
      ensures (o, Here(), table) == StoreInsert(old(Here()), old(table), name, k, dbFault, v)
      ensures o == Raised(ValueError) <==> v.AsWritten? && k >= 256
      ensures o == Raised(ValueError) ==> sent == old(sent)
      ensures o != Raised(ValueError) ==> |sent| > |old(sent)| && sent[|old(sent)|][4] == CMD_STORE_CHAR
      ensures StoresSince(old(sent), StorePayload(k, 0))
      ensures v.AsWritten? ==> NoDeleteSince(old(sent))
      ensures o == Raised(DbError) ==> DeletedLast(k)
      ensures o == Raised(AttributeError) ==> v.AsWritten? && SentOp(old(sent), CMD_STORE_CHAR) && NoDeleteSince(old(sent))
      ensures OpsSince(old(sent), StoreInsertOps(old(Here()), old(table), name, k, dbFault, v))
    {
      if v.AsWritten? && k >= 256 {
        return Raised(ValueError);
      }
      o := StoreThenInsert(name, k, dbFault, v);
    }

    /** The STORE_CHAR exchange for slot k and, when it answers 0, the insert. */
    method StoreThenInsert(name: string, k: int, dbFault: bool, v: Variant) returns (o: Outcome<int>)
      requires Valid() && 0 <= k < 65536
      modifies this, cmd, rps
      ensures Valid() && lastMatchPosition == old(lastMatchPosition) && images == old(images)
      ensures (o, Here(), table) == Stored(old(Here()), old(table), name, k, dbFault, v)
      ensures |sent| > |old(sent)| && sent[|old(sent)|][4] == CMD_STORE_CHAR
      ensures StoresSince(old(sent), StorePayload(k, 0))
      ensures v.AsWritten? ==> NoDeleteSince(old(sent))
      ensures o == Raised(DbError) ==> DeletedLast(k)
      ensures o == Raised(AttributeError) ==> v.AsWritten? && SentOp(old(sent), CMD_STORE_CHAR) && NoDeleteSince(old(sent))
      ensures OpsSince(old(sent), StoredOps(old(Here()), old(table), name, k, dbFault, v))
    {
      ghost var s0, l0 := sent, Here();
      var st := StoreTemplate(k);
      ghost var s1, l1 := sent, Here();
      assert (st, l1) == Ask(l0, true);
      OneOp(s0, s1, CMD_STORE_CHAR);
      if st.None? {
        o := Blocked;
      } else if st != Some(0) {
        o := Done(1);
      } else {
        o := InsertOrUndo(name, k, dbFault, v);
        assert (o, Here(), table) == InsertUndo(l1, old(table), name, k, dbFault, v);
        OpsChain(s1, sent, |s0|, [CMD_STORE_CHAR], InsertUndoOps(old(table), name, k, dbFault, v));
      }
      StoreFirst(s0, s1, sent, StorePayload(k, 0));
    }

    /**
     * The `try: INSERT ... except sqlite3.Error` block.  As written the
     * handler raises AttributeError and sends nothing, so the template
     * stays stored; as intended it sends one DEL_CHAR for slot k and
     * re-raises the database error.
     */
    method InsertOrUndo(name: string, k: int, dbFault: bool, v: Variant) returns (o: Outcome<int>)
      requires Valid() && 0 <= k < 65536
      modifies this, cmd, rps
      ensures Valid() && lastMatchPosition == old(lastMatchPosition) && images == old(images) && uploads == old(uploads)
      ensures (o, Here(), table) == InsertUndo(old(Here()), old(table), name, k, dbFault, v)
      ensures Extends(old(sent)) && |sent| <= |old(sent)| + 1
      ensures forall j | |old(sent)| <= j < |sent| :: |sent[j]| == FRAME_SIZE && sent[j][4] == CMD_DEL_CHAR
      ensures v.AsWritten? || Store.Insert(old(table), name, k, dbFault).Some? ==> sent == old(sent)
      ensures o == Raised(DbError) ==> DeletedLast(k)
      ensures OpsSince(old(sent), InsertUndoOps(old(table), name, k, dbFault, v))
    {
      var t := Store.Insert(table, name, k, dbFault);
      if t.Some? {
        Store.InsertThenLookup(table, name, k, k);
        table := t.value;
        return Done(0);
      }
      if v.AsWritten? {
        return Raised(AttributeError);
      }
      ghost var s0, l0 := sent, Here();
      var d := DeleteSlot(k, false);
      assert (d, Here()) == Ask(l0, false);
      OneOp(s0, sent, CMD_DEL_CHAR);
      if d.None? {
        return Blocked;
      }
      return Raised(DbError);
    }

    // ----------------------------------------------------------- workflows

    /**
     * enroll_finger: reserve an empty slot, take three samples into
     * buffers 0, 1 and 2, then merge and store.  Only the capture loop of
     * the LAST sample decides failure (`if i == 2` follows all three),
     * and it also reports failure when that sample succeeded on its
     * third attempt.  `v` selects the code as written or as intended.
     */
    method EnrollFinger(name: string, dbFault: bool, v: Variant) returns (o: Outcome<int>, ghost slot: int, ghost mark: int)
      requires Valid()
      modifies this, cmd, rps
      ensures Valid() && lastMatchPosition == old(lastMatchPosition)
      ensures (o, Here(), table) == Enrol(old(Here()), old(table), name, dbFault, v)
      ensures slot == EmptySlot(old(Here()))
      ensures |sent| > |old(sent)| && sent[|old(sent)|][4] == CMD_GET_EMPTY_ID
      ensures sent[|old(sent)|][8..12] == SLOT_RANGE_PAYLOAD
      ensures StoresSince(old(sent), StorePayload(slot, 0))
      ensures v.AsWritten? ==> NoDeleteSince(old(sent))
      ensures o == Raised(DbError) ==> DeletedLast(slot)
      ensures o == Raised(AttributeError) ==> v.AsWritten? && SentOp(old(sent), CMD_STORE_CHAR) && NoDeleteSince(old(sent))
      ensures Extends(old(sent)) && CapturesThen(sent, |old(sent)| + 1, mark, EnrolTail(old(Here()), old(table), name, dbFault, v))
      ensures Ask(old(Here()), true).0.None? ==> |sent| == |old(sent)| + 1
    {
      ghost var s0, l0 := sent, Here();
      var r, k := GetEmptyId();
      slot := k;
      ghost var s1, l1 := sent, Here();
      assert (r, l1) == Ask(l0, true);
      if r.None? {
        o, mark := Blocked, |s1|;
        assert OpsFrom(sent, |s1|, []);
      } else {
        o, mark := CaptureThenStore(name, k, dbFault, v);
        assert (o, Here(), table) == CaptureMerge(l1, old(table), name, k, dbFault, v);
        assert EnrolTail(l0, old(table), name, dbFault, v) == CaptureMergeOps(l1, old(table), name, k, dbFault, v);
      }
      OtherFrameFirst(s0, s1, sent, StorePayload(k, 0));
    }

    /**
     * enroll_finger from the capture loops on: capture three samples,
     * then MERGE and STORE_CHAR into slot k; `mark` is where the capture
     * frames end.
     */
    method CaptureThenStore(name: string, k: int, dbFault: bool, v: Variant) returns (o: Outcome<int>, ghost mark: int)
      requires Valid() && 0 <= k < 65536
      modifies this, cmd, rps
      ensures Valid() && lastMatchPosition == old(lastMatchPosition)
      ensures (o, Here(), table) == CaptureMerge(old(Here()), old(table), name, k, dbFault, v)
      ensures StoresSince(old(sent), StorePayload(k, 0))
      ensures v.AsWritten? ==> NoDeleteSince(old(sent))
      ensures o == Raised(DbError) ==> DeletedLast(k)
      ensures o == Raised(AttributeError) ==> v.AsWritten? && SentOp(old(sent), CMD_STORE_CHAR) && NoDeleteSince(old(sent))
      ensures Extends(old(sent)) && CapturesThen(sent, |old(sent)|, mark, CaptureMergeOps(old(Here()), old(table), name, k, dbFault, v))
    {
      ghost var s0, l0 := sent, Here();
      var c := CaptureAll();
      ghost var s1, l1 := sent, Here();
      mark := |s1|;
      assert (c, l1) == Captures(l0, 0, 2);
      if c.Blocked? || c.value == 2 {
        o := if c.Blocked? then Blocked else Done(1);
        CapturesFirst(s0, s1, sent, []);
      } else {
        o := MergeAndStore(name, k, dbFault, v);
        assert (o, Here(), table) == MergeStore(l1, old(table), name, k, dbFault, v);
        CapturesFirst(s0, s1, sent, MergeStoreOps(l1, old(table), name, k, dbFault, v));
      }
      CaptureFirst(s0, s1, sent, StorePayload(k, 0));
    }

    /**
     * run_search: capture one sample into buffer 0, SEARCH the whole slot
     * range, and look the matched slot up in the table.  `notify` says
     * whether a search_complete_callback was given: the report then names
     * `image_path`, which is unbound when no image was saved, so the
     * NameError the surrounding handler catches is the outcome.
     */
    method SearchFinger(notify: bool) returns (o: Outcome<SearchReport>, ghost mark: int)
      requires Valid()
      modifies this, cmd, rps
      ensures Valid() && table == old(table)
      ensures (o, Here(), lastMatchPosition) == Search(old(Here()), old(table), notify, old(lastMatchPosition))
      ensures Extends(old(sent))
      ensures o == Done(CaptureFailed) ==> CaptureRun(old(sent), sent)
      ensures o.Raised? || (o.Done? && o.value.Report?) ==> |sent| > |old(sent)| && SearchedLast(SLOT_FIRST, SLOT_LAST)
      ensures CapturesThen(sent, |old(sent)|, mark, SearchTail(old(Here())))
      ensures SearchTail(old(Here())) != [] ==> SearchedLast(SLOT_FIRST, SLOT_LAST)
    {
      var k, n := SearchBounds();
      ghost var s0, l0 := sent, Here();
      var c := CaptureSample(0);
      ghost var s1, l1 := sent, Here();
      mark := |s1|;
      assert (c, l1) == Sample(l0, 0);
      assert SearchTail(l0) == if c.Blocked? || c.value.last == 2 then [] else [CMD_SEARCH];
      CaptureChain(s0, s0, s1, 0);
      if c.Blocked? {
        CapturesFirst(s0, s1, sent, []);
        return Blocked, mark;
      }
      if c.value.last == 2 {
        CapturesFirst(s0, s1, sent, []);
        return Done(CaptureFailed), mark;
      }
      o := SearchAndReport(k, n, c.value.saved, notify);
      assert (o, Here(), lastMatchPosition) == Searched(l1, old(table), c.value.saved, notify, old(lastMatchPosition));
      GrowsChain(s0, s1, sent);
      CapturesFirst(s0, s1, sent, [CMD_SEARCH]);
    }

    /** The hard-coded range of run_search, packed into one integer and split again. */
    static method SearchBounds() returns (k: int, n: int)
      ensures k == SLOT_FIRST && n == SLOT_LAST
    {
      var data := PackRange(SLOT_FIRST, SLOT_LAST);
      k := RangeFirst(data);
      n := RangeLast(data);
      PackRangeRoundTrip(SLOT_FIRST, SLOT_LAST);
    }

    /** The part of run_search after a sample was taken: SEARCH, look the name up, report. */
    method SearchAndReport(first: int, last: int, saved: bool, notify: bool) returns (o: Outcome<SearchReport>)
      requires Valid() && 0 <= first < 65536 && 0 <= last < 65536
      modifies this, cmd, rps
      ensures Valid() && table == old(table)
      ensures (o, Here(), lastMatchPosition) == Searched(old(Here()), old(table), saved, notify, old(lastMatchPosition))
      ensures Extends(old(sent)) && |sent| == |old(sent)| + 1
      ensures SearchedLast(first, last) && OpsSince(old(sent), [CMD_SEARCH])
    {
      ghost var s0 := sent;
      var res, matched, name := SearchRange(first, last);
      OneOp(s0, sent, CMD_SEARCH);
      if res.None? {
        o := Blocked;
      } else if notify && !saved {
        o := Raised(NameError);
      } else {
        o := Done(Report(matched, name));
      }
    }

    /** SEARCH over slots first..last and, on success, record the position and look its name up. */
    method SearchRange(first: int, last: int) returns (reply: Option<int>, matched: bool, name: Option<string>)
      requires Valid() && 0 <= first < 65536 && 0 <= last < 65536
      modifies this, cmd, rps
      ensures Valid() && table == old(table) && images == old(images) && uploads == old(uploads)
      ensures Extends(old(sent)) && |sent| == |old(sent)| + 1 && SearchedLast(first, last)
      ensures (reply, Here()) == Ask(old(Here()), false)
      ensures matched <==> reply == Some(0)
      ensures matched ==> lastMatchPosition == Some(LE16(RPS.data[0], RPS.data[1]))
      ensures !matched ==> lastMatchPosition == old(lastMatchPosition)
      ensures name == (if matched then Store.NameAt(table.rows, lastMatchPosition.value) else None)
    {
      ghost var l0 := Here();
      reply := SearchSlots(first, last);
      ghost var l1 := Here();
      assert (reply, l1) == Ask(l0, false);
      matched := false;
      name := None;
      if reply == Some(0) {
        var position := RPS.data[0] + RPS.data[1] * 0x0100;
        assert position == LE16(RPS.data[0], RPS.data[1]);
        RecordMatch(position);
        assert Here() == l1 && SearchedLast(first, last);
        matched := true;
        name := Store.NameAt(table.rows, position);
      }
    }

    /** `self.last_match_position = position`. */
    method RecordMatch(position: int)
      requires Valid()
      modifies this
      ensures Valid() && lastMatchPosition == Some(position) && Here() == old(Here())
      ensures CMD == old(CMD) && RPS == old(RPS)
      ensures inbox == old(inbox) && sent == old(sent) && uploads == old(uploads) && table == old(table) && images == old(images)
    {
      lastMatchPosition := Some(position);
    }

    /**
     * delete_finger: look the row up by id; when it exists, DEL_CHAR its
     * slot on the device and delete the row only if the device answers 0.
     */
    method DeleteFinger(id: int) returns (o: Outcome<bool>)
      requires Valid()
      modifies this, cmd, rps
      ensures Valid() && lastMatchPosition == old(lastMatchPosition) && images == old(images)
      ensures (o, Here(), table) == Delete(old(Here()), old(table), id)
      ensures Store.RowById(old(table).rows, id).None? ==> sent == old(sent)
      ensures Store.RowById(old(table).rows, id).Some? ==>
        && |sent| == |old(sent)| + 1 && Extends(old(sent)) && sent[|old(sent)|][4] == CMD_DEL_CHAR
        && LE16(sent[|old(sent)|][8], sent[|old(sent)|][9]) == Store.RowById(old(table).rows, id).value.slot
        && LE16(sent[|old(sent)|][10], sent[|old(sent)|][11]) == Store.RowById(old(table).rows, id).value.slot
    {
      Store.RowByIdFound(table.rows, id);
      var row := Store.RowById(table.rows, id);
      if row.None? {
        return Done(false);
      }
      var slot := row.value.slot;
      var r := DeleteSlot(slot, true);
      if r.None? {
        return Blocked;
      }
      if r != Some(0) {
        return Done(false);
      }
      Store.DeleteRemovesOnlyThatRow(table, id);
      table := Store.DeleteById(table, id);
      return Done(true);
    }
  }
}
