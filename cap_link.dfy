/**
 * The serial exchange of protocol A as values: the bytes the driver has
 * sent, the replies still waiting on the line, and what one `Tx_cmd` or
 * one `Rx_cmd` call does to them (CapSensor.py:165-198).
 *
 * The line is a script: `inbox` holds the 26-byte replies in the order
 * the device will send them.  `Rx_cmd` first spins until a byte is
 * waiting; with nothing scripted it would spin forever, which the model
 * reports as "no answer" (None).
 */
module CapLink {
  import opened Wrappers
  import opened Bytes
  import opened CapFrame

  predicate IsFrame(f: seq<int>)
  {
    |f| == FRAME_SIZE && IsBytes(f)
  }

  predicate AllFrames(fs: seq<seq<int>>)
  {
    forall i | 0 <= i < |fs| :: IsFrame(fs[i])
  }

  /** What one Rx_cmd call ends with: its value, the unread replies, the last raw frame and `self.RPS`. */
  datatype RxRun = RxRun(value: int, rest: seq<seq<int>>, raw: seq<int>, decoded: Response)

  /** What one pass of the inner loop decides: the call ends with a run, or the loop goes on with a new sum and `self.RPS`. */
  datatype Pass = Stop(run: RxRun) | Continue(sum: int, decoded: Response)

  /**
   * One pass of the inner `while inWaiting() > 0` loop of Rx_cmd: read a
   * frame; stop with 1 on the no-device marker; decode it and add its
   * bytes to the running sum CKS (which is not reset between frames);
   * stop with the handler's value when CKS matches, with 1 when nothing
   * more waits, and go on otherwise.
   */
  function RxPass(frames: seq<seq<int>>, cks: int, last: Response, back: bool): (p: Pass)
    requires frames != [] && AllFrames(frames) && |last.data| == RESPONSE_CAPACITY && IsBytes(last.data)
    ensures p.Stop? ==> p.run.rest == frames[1..] && p.run.raw == frames[0]
    ensures p.Stop? && frames[0][4] == NO_DEVICE ==> p.run == RxRun(1, frames[1..], frames[0], last)
    ensures p.Stop? && frames[0][4] != NO_DEVICE ==> p.run.decoded == Decode(frames[0])
    ensures p.Continue? <==>
      && frames[0][4] != NO_DEVICE && |frames| > 1
      && (cks + Sum(frames[0][..CHECKED_SIZE])) % 65536 != Decode(frames[0]).checksum
    ensures p.Continue? ==>
      && p.sum == (cks + Sum(frames[0][..CHECKED_SIZE])) % 65536 && p.decoded == Decode(frames[0])
      && 0 <= p.sum < 65536 && IsBytes(p.decoded.data)
  {
    var f := frames[0];
    DecodedBytes(f);
    if f[4] == NO_DEVICE then Stop(RxRun(1, frames[1..], f, last))
    else
      var c := (cks + Sum(f[..CHECKED_SIZE])) % 65536;
      if c == Decode(f).checksum then Stop(RxRun(Dispatch(Decode(f), back), frames[1..], f, Decode(f)))
      else if |frames| == 1 then Stop(RxRun(1, [], f, Decode(f)))
      else Continue(c, Decode(f))
  }

  /** The inner loop of Rx_cmd: passes until one stops. */
  function RxLoop(frames: seq<seq<int>>, cks: int, last: Response, back: bool): (run: RxRun)
    requires frames != [] && AllFrames(frames) && |last.data| == RESPONSE_CAPACITY && IsBytes(last.data)
    ensures IsFrame(run.raw) && |run.decoded.data| == RESPONSE_CAPACITY && IsBytes(run.decoded.data)
    ensures AllFrames(run.rest)
    ensures |run.rest| < |frames| && run.rest == frames[|frames| - |run.rest|..]
    ensures run.raw == frames[|frames| - |run.rest| - 1]
    decreases |frames|
  {
    DecodedBytes(frames[0]);
    match RxPass(frames, cks, last, back)
    case Stop(run) => run
    case Continue(c, d) =>
      var run := RxLoop(frames[1..], c, d, back);
      TailOfTail(frames, |run.rest|);
      run
  }

  lemma DecodedBytes(f: seq<int>)
    requires IsFrame(f)
    ensures IsBytes(Decode(f).data)
  {
    assert forall i | 0 <= i < RESPONSE_CAPACITY :: Decode(f).data[i] == f[10 + i];
  }

  lemma TailOfTail(frames: seq<seq<int>>, n: int)
    requires 0 <= n < |frames| - 1
    ensures frames[1..][|frames| - 1 - n..] == frames[|frames| - n..]
    ensures frames[1..][|frames| - 1 - n - 1] == frames[|frames| - n - 1]
  {
  }

  /** The driver's view of the line: both buffers, `self.RPS`, the waiting replies and what was written. */
  datatype Port = Port(cmd: seq<int>, rps: seq<int>, RPS: Response, inbox: seq<seq<int>>, sent: seq<seq<int>>)

  predicate PortOk(p: Port)
  {
    && |p.cmd| == FRAME_SIZE && |p.rps| == FRAME_SIZE
    && |p.RPS.data| == RESPONSE_CAPACITY && IsBytes(p.RPS.data)
    && AllFrames(p.inbox)
  }

  predicate Sendable(c: Command)
  {
    0 <= c.length <= COMMAND_CAPACITY && |c.data| == COMMAND_CAPACITY
  }

  /** Tx_cmd: encode `self.CMD` over the previous buffer and write the whole buffer. */
  function Transmit(p: Port, c: Command): Port
    requires PortOk(p) && Sendable(c)
  {
    var f := Encode(p.cmd, c);
    p.(cmd := f, sent := p.sent + [f])
  }

  /** Rx_cmd: None when no reply ever arrives, otherwise the call's value. */
  function Receive(p: Port, back: bool): (Port, Option<int>)
    requires PortOk(p)
  {
    if p.inbox == [] then (p, None)
    else
      var run := RxLoop(p.inbox, 0, p.RPS, back);
      (p.(inbox := run.rest, rps := run.raw, RPS := run.decoded), Some(run.value))
  }

  /** One builder call: set up `self.CMD`, Tx_cmd, then Rx_cmd. */
  function Exchange(p: Port, c: Command, back: bool): (Port, Option<int>)
    requires PortOk(p) && Sendable(c)
  {
    Receive(Transmit(p, c), back)
  }

  /**
   * Transmit appends exactly the frame left in the buffer; that frame
   * carries the command's opcode, length and payload prefix and a
   * checksum the receiver accepts.  Nothing else on the port changes.
   */
  lemma TransmitAppendsFrame(p: Port, c: Command)
    requires PortOk(p) && Sendable(c)
    ensures var q := Transmit(p, c);
      && PortOk(q)
      && q.sent == p.sent + [q.cmd]
      && q.cmd[4] == c.opcode && LE16(q.cmd[6], q.cmd[7]) == c.length % 65536
      && q.cmd[8 .. 8 + c.length] == c.data[..c.length]
      && ChecksumOk(q.cmd)
      && q.inbox == p.inbox && q.RPS == p.RPS && q.rps == p.rps
  {
    EncodeLayout(p.cmd, c);
    LoHiMod(c.length);
  }

  /**
   * Rx_cmd gives no answer exactly when nothing is waiting; otherwise it
   * consumes at least one reply, in order, and leaves the rest.
   */
  lemma ReceiveConsumes(p: Port, back: bool)
    requires PortOk(p)
    ensures var (q, r) := Receive(p, back);
      && PortOk(q)
      && (r.None? <==> p.inbox == [])
      && (r.None? ==> q == p)
      && (r.Some? ==> |q.inbox| < |p.inbox| && q.inbox == p.inbox[|p.inbox| - |q.inbox|..])
      && q.cmd == p.cmd && q.sent == p.sent
  {
  }

  lemma ModStep(a: int, x: int)
    ensures (a % 65536 + x) % 65536 == (a + x) % 65536
  {
    var q := a / 65536;
    assert a == q * 65536 + a % 65536;
    assert a + x == (a % 65536 + x) + q * 65536;
  }

  lemma {:induction false} SumBound(s: seq<int>)
    requires IsBytes(s)
    ensures 0 <= Sum(s) <= 255 * |s|
  {
    SumOfBytes(s);
  }

  /**
   * A lone reply, or a first reply that is a no-device marker or passes
   * its checksum, gives exactly RxResult: the value of the one-frame
   * description of Rx_cmd; such a reply is the only one consumed.
   */
  lemma ReceiveFirstReplyDecides(p: Port, back: bool)
    requires PortOk(p) && p.inbox != []
    requires |p.inbox| == 1 || p.inbox[0][4] == NO_DEVICE || Accepted(p.inbox[0])
    ensures var (q, r) := Receive(p, back);
      && r == Some(RxResult(p.inbox[0], back))
      && q.inbox == p.inbox[1..]
      && q.rps == p.inbox[0]
      && (p.inbox[0][4] != NO_DEVICE ==> q.RPS == Decode(p.inbox[0]))
      && (p.inbox[0][4] == NO_DEVICE ==> q.RPS == p.RPS)
  {
    var f := p.inbox[0];
    assert (0 + Sum(f[..CHECKED_SIZE])) % 65536 == Sum(f[..CHECKED_SIZE]) % 65536;
  }

  /**
   * The running sum is not reset between frames: after a reply whose
   * checksum fails (and whose sum is not a multiple of 65536), a correct
   * retransmission waiting behind it is rejected as well.
   */
  lemma StaleSumRejectsRetry(p: Port, back: bool)
    requires PortOk(p) && |p.inbox| == 2
    requires p.inbox[0][4] != NO_DEVICE && !ChecksumOk(p.inbox[0])
    requires Sum(p.inbox[0][..CHECKED_SIZE]) % 65536 != 0
    requires Accepted(p.inbox[1])
    ensures Receive(p, back).1 == Some(1)
    ensures Receive(p, back).0.inbox == []
  {
    var f1 := p.inbox[0];
    var c1 := (0 + Sum(f1[..CHECKED_SIZE])) % 65536;
    assert c1 != Decode(f1).checksum;
    assert RxPass(p.inbox, 0, p.RPS, back) == Continue(c1, Decode(f1));
    assert p.inbox[1..] == [p.inbox[1]];
    DecodedBytes(f1);
    RetryRejected(p.inbox[1], c1, Decode(f1), back);
  }

  /** A single correct reply is rejected when the running sum it is added to is not 0 modulo 65536. */
  lemma RetryRejected(f: seq<int>, c: int, last: Response, back: bool)
    requires IsFrame(f) && Accepted(f) && 0 < c < 65536
    requires |last.data| == RESPONSE_CAPACITY && IsBytes(last.data)
    ensures RxLoop([f], c, last, back) == RxRun(1, [], f, Decode(f))
  {
    var s := Sum(f[..CHECKED_SIZE]);
    assert IsBytes(f[..CHECKED_SIZE]);
    SumBound(f[..CHECKED_SIZE]);
    assert Decode(f).checksum == s;
    assert (c + s) % 65536 != s;
    assert RxPass([f], c, last, back) == Stop(RxRun(1, [], f, Decode(f)));
  }
}
