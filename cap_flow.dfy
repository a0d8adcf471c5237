/**
 * The capacitive workflows of CapSensor.py as functions of what the line
 * delivers.  A `Line` is everything the workflows read from outside the
 * class and leave behind: the replies still waiting, `self.RPS`, the raw
 * image uploads still waiting and how many images have been saved.  Each
 * workflow method of CapDriver.CapSensor is proved equal to the function
 * here that bears its name's role, and the lemmas below state what the
 * workflows promise in terms of the device's answers.
 *
 * `Variant` selects the enrolment as written (CapSensor.py:234-326) or
 * with its two defects corrected (the slot is sent as 16 bits and a
 * failed insert deletes the stored template); see README, Findings.
 */
module CapFlow {
  import opened Wrappers
  import opened Bytes
  import opened CapFrame
  import opened CapLink
  import CapImage
  import Store

  /** The exceptions that leave the workflows. */
  datatype Fault = DbError | AttributeError | NameError | ValueError

  /** How a workflow ends: with a value, with an exception, or waiting forever on the line. */
  datatype Outcome<T> = Done(value: T) | Raised(fault: Fault) | Blocked

  /** One pass of the capture loop: no sample, or a sample taken (and whether an image was saved). */
  datatype Attempt = NoSample | Sampled(saved: bool)

  /** After the `for i in range(3)` capture loop: the loop variable `i` and whether an image was saved. */
  datatype Capture = Capture(last: int, saved: bool)

  datatype SearchReport = CaptureFailed | Report(matched: bool, name: Option<string>)

  /** The enrolment as the source is written, or with its two defects corrected. */
  datatype Variant = AsWritten | Intended

  datatype Line = Line(replies: seq<seq<int>>, RPS: Response, uploads: seq<seq<int>>, saved: nat)

  predicate LineOk(l: Line)
  {
    && AllFrames(l.replies)
    && |l.RPS.data| == RESPONSE_CAPACITY && IsBytes(l.RPS.data)
    && forall j | 0 <= j < |l.uploads| :: IsBytes(l.uploads[j]) && |l.uploads[j]| % CapImage.UPLOAD_SIZE == 0
  }

  // ------------------------------------------------------------ one exchange

  /**
   * The reply side of one exchange (Rx_cmd): no answer when nothing is
   * waiting; otherwise the call's value, with the replies it read taken
   * off the front of the line and `self.RPS` as the call leaves it.
   */
  function Ask(l: Line, back: bool): (res: (Option<int>, Line))
    requires LineOk(l)
    ensures LineOk(res.1) && res.1.uploads == l.uploads && res.1.saved == l.saved
    ensures res.0.None? <==> l.replies == []
    ensures res.0.None? ==> res.1 == l
    ensures res.0.Some? ==>
      |res.1.replies| < |l.replies| && res.1.replies == l.replies[|l.replies| - |res.1.replies|..]
  {
    if l.replies == [] then (None, l)
    else
      var run := RxLoop(l.replies, 0, l.RPS, back);
      (Some(run.value), l.(replies := run.rest, RPS := run.decoded))
  }

  // ---------------------------------------------------------------- polling

  /** `while not self.CmdFingerDetect(back)`: poll until the answer is not 0 (no finger, or an error). */
  function Lift(l: Line, back: bool): (res: (Option<int>, Line))
    requires LineOk(l)
    ensures LineOk(res.1) && res.1.uploads == l.uploads && res.1.saved == l.saved
    ensures res.0 != Some(0)
    ensures res.0.None? ==> res.1.replies == []
    ensures |res.1.replies| <= |l.replies|
    decreases |l.replies|
  {
    var (r, l1) := Ask(l, back);
    if r == Some(0) then Lift(l1, back) else (r, l1)
  }

  /** `while self.CmdFingerDetect(back)`: poll until the answer is 0 (a finger is on the sensor). */
  function Press(l: Line, back: bool): (res: (Option<int>, Line))
    requires LineOk(l)
    ensures LineOk(res.1) && res.1.uploads == l.uploads && res.1.saved == l.saved
    ensures res.0 == None || res.0 == Some(0)
    ensures res.0.None? ==> res.1.replies == []
    ensures |res.1.replies| <= |l.replies|
    decreases |l.replies|
  {
    var (r, l1) := Ask(l, back);
    if r.Some? && r != Some(0) then Press(l1, back) else (r, l1)
  }

  /**
   * The opening of every capture: one FINGER_DETECT (its answer is only
   * logged), wait for the finger to be lifted and pressed again, then
   * FINGER_DETECT once more, whose answer is the result.
   */
  function Engaged(l: Line, back: bool): (res: (Option<int>, Line))
    requires LineOk(l)
    ensures LineOk(res.1) && res.1.uploads == l.uploads && res.1.saved == l.saved
    ensures res.0.None? ==> res.1.replies == []
    ensures |res.1.replies| <= |l.replies|
  {
    var (d, l1) := Ask(l, back);
    if d.None? then (None, l1)
    else
      var (w, l2) := Lift(l1, back);
      if w.None? then (None, l2)
      else
        var (p, l3) := Press(l2, back);
        if p.None? then (None, l3)
        else Ask(l3, back)
  }

  // ---------------------------------------------------------------- capture

  /** The raw bytes UP_IMAGE_CODE collects: the next upload, or nothing when none is waiting. */
  function Pull(l: Line): (res: (seq<int>, Line))
    requires LineOk(l)
    ensures LineOk(res.1) && res.1.replies == l.replies && res.1.RPS == l.RPS && res.1.saved == l.saved
    ensures IsBytes(res.0) && |res.0| % CapImage.UPLOAD_SIZE == 0
    ensures res.0 != [] ==> l.uploads != [] && res.0 == l.uploads[0] && res.1.uploads == l.uploads[1..]
  {
    if l.uploads == [] then ([], l) else (l.uploads[0], l.(uploads := l.uploads[1..]))
  }

  /** GET_IMAGE and, when it answers 0, UP_IMAGE_CODE. */
  function Grab(l: Line, back: bool): (res: (Outcome<Option<seq<int>>>, Line))
    requires LineOk(l)
    ensures LineOk(res.1) && res.1.saved == l.saved && !res.0.Raised?
    ensures res.0.Done? && res.0.value.Some? ==>
      IsBytes(res.0.value.value) && |res.0.value.value| % CapImage.UPLOAD_SIZE == 0
    ensures res.0.Blocked? ==> res.1.replies == []
    ensures |res.1.replies| <= |l.replies|
  {
    var (g, l1) := Ask(l, back);
    if g.None? then (Blocked, l1)
    else if g != Some(0) then (Done(None), l1)
    else
      var (rx, l2) := Pull(l1);
      (Done(Some(rx)), l2)
  }

  /** CmdUpImageCode: the opening, then GET_IMAGE and the upload when the finger is detected. */
  function UpImage(l: Line, back: bool): (res: (Outcome<Option<seq<int>>>, Line))
    requires LineOk(l)
    ensures LineOk(res.1) && res.1.saved == l.saved && !res.0.Raised?
    ensures res.0.Done? && res.0.value.Some? ==>
      IsBytes(res.0.value.value) && |res.0.value.value| % CapImage.UPLOAD_SIZE == 0
    ensures res.0.Blocked? ==> res.1.replies == []
    ensures |res.1.replies| <= |l.replies|
  {
    var (d, l1) := Engaged(l, back);
    if d.None? then (Blocked, l1)
    else if d != Some(0) then (Done(None), l1)
    else Grab(l1, back)
  }

  /** After a successful GENERATE: CmdUpImageCode, and one more saved image when any bytes arrived. */
  function UploadSaved(l: Line): (res: (Outcome<Attempt>, Line))
    requires LineOk(l)
    ensures LineOk(res.1) && !res.0.Raised? && (res.0.Done? ==> res.0.value.Sampled?)
    ensures res.0.Blocked? ==> res.1.replies == []
    ensures res.1.saved == l.saved + (if res.0.Done? && res.0.value.saved then 1 else 0)
    ensures |res.1.replies| <= |l.replies|
  {
    var (u, l1) := UpImage(l, true);
    if u.Blocked? then (Blocked, l1)
    else
      var keep := u.value.Some? && u.value.value != [];
      (Done(Sampled(keep)), if keep then l1.(saved := l1.saved + 1) else l1)
  }

  /** GENERATE and, when it answers 0, the upload. */
  function Generated(l: Line): (res: (Outcome<Attempt>, Line))
    requires LineOk(l)
    ensures LineOk(res.1) && !res.0.Raised?
    ensures res.0.Blocked? ==> res.1.replies == []
    ensures res.1.saved == l.saved + (if res.0.Done? && res.0.value.Sampled? && res.0.value.saved then 1 else 0)
    ensures |res.1.replies| <= |l.replies|
  {
    var (gen, l1) := Ask(l, true);
    if gen.None? then (Blocked, l1)
    else if gen != Some(0) then (Done(NoSample), l1)
    else UploadSaved(l1)
  }

  /** One pass of the body of the capture loop: the opening, GET_IMAGE, GENERATE and the upload. */
  function Try(l: Line): (res: (Outcome<Attempt>, Line))
    requires LineOk(l)
    ensures LineOk(res.1) && !res.0.Raised?
    ensures res.0.Blocked? ==> res.1.replies == []
    ensures res.1.saved == l.saved + (if res.0.Done? && res.0.value.Sampled? && res.0.value.saved then 1 else 0)
    ensures |res.1.replies| <= |l.replies|
  {
    var (d, l1) := Engaged(l, true);
    if d.None? then (Blocked, l1)
    else if d != Some(0) then (Done(NoSample), l1)
    else
      var (g, l2) := Ask(l1, true);
      if g.None? then (Blocked, l2)
      else if g != Some(0) then (Done(NoSample), l2)
      else Generated(l2)
  }

  /**
   * The `for i in range(3)` capture loop from pass `i` on: it breaks on
   * the first pass that takes a sample; `last` is the loop variable
   * afterwards, 2 when no pass took one.
   */
  function Sample(l: Line, i: int): (res: (Outcome<Capture>, Line))
    requires LineOk(l) && 0 <= i <= 2
    ensures LineOk(res.1) && !res.0.Raised?
    ensures res.0.Blocked? ==> res.1.replies == []
    ensures res.0.Done? ==> i <= res.0.value.last <= 2
    ensures res.1.saved == l.saved + (if res.0.Done? && res.0.value.saved then 1 else 0)
    ensures |res.1.replies| <= |l.replies|
    decreases 2 - i
  {
    var (a, l1) := Try(l);
    if a.Blocked? then (Blocked, l1)
    else if a.value.Sampled? then (Done(Capture(i, a.value.saved)), l1)
    else if i == 2 then (Done(Capture(2, false)), l1)
    else Sample(l1, i + 1)
  }

  /** The capture loops of enroll_finger from buffer `a` on; `last` is the loop variable of the latest. */
  function Captures(l: Line, a: int, last: int): (res: (Outcome<int>, Line))
    requires LineOk(l) && 0 <= a <= 3 && 0 <= last <= 2
    ensures LineOk(res.1) && !res.0.Raised?
    ensures res.0.Blocked? ==> res.1.replies == []
    ensures res.0.Done? ==> 0 <= res.0.value <= 2
    ensures l.saved <= res.1.saved && |res.1.replies| <= |l.replies|
    decreases 3 - a
  {
    if a == 3 then (Done(last), l)
    else
      var (c, l1) := Sample(l, 0);
      if c.Blocked? then (Blocked, l1) else Captures(l1, a + 1, c.value.last)
  }

  // -------------------------------------------------------------- enrolment

  /** The slot GET_EMPTY_ID leaves in `self.RPS`: `k = RPS.DATA[0] + RPS.DATA[1] * 0x0100`. */
  function EmptySlot(l: Line): (k: int)
    requires LineOk(l)
    ensures 0 <= k < 65536
  {
    var l1 := Ask(l, true).1;
    LE16(l1.RPS.data[0], l1.RPS.data[1])
  }

  /**
   * The `try: INSERT ... except sqlite3.Error` block.  As written the
   * handler calls a CmdDelChar the class does not have, so AttributeError
   * leaves it before anything is sent; as intended it sends DEL_CHAR for
   * slot `k` and re-raises the database error.
   */
  function InsertUndo(l: Line, t: Store.Table, name: string, k: int, dbFault: bool, v: Variant)
    : (res: (Outcome<int>, Line, Store.Table))
    requires LineOk(l)
    ensures LineOk(res.1) && res.1.uploads == l.uploads && res.1.saved == l.saved
    ensures res.0.Blocked? ==> res.1.replies == []
    ensures res.0 != Raised(ValueError)
  {
    match Store.Insert(t, name, k, dbFault)
    case Some(t1) => (Done(0), l, t1)
    case None =>
      if v.AsWritten? then (Raised(AttributeError), l, t)
      else
        var (d, l1) := Ask(l, false);
        (if d.None? then Blocked else Raised(DbError), l1, t)
  }

  /**
   * `CmdStoreChar(k, 0, 1)` and, when it answers 0, the insert.  As
   * written, a slot from 256 on puts a value that is not a byte into the
   * frame and the serial write refuses it with ValueError.
   */
  function StoreInsert(l: Line, t: Store.Table, name: string, k: int, dbFault: bool, v: Variant)
    : (res: (Outcome<int>, Line, Store.Table))
    requires LineOk(l)
    ensures LineOk(res.1) && res.1.uploads == l.uploads && res.1.saved == l.saved
    ensures res.0.Blocked? ==> res.1.replies == []
  {
    if v.AsWritten? && k >= 256 then (Raised(ValueError), l, t)
    else Stored(l, t, name, k, dbFault, v)
  }

  /** The STORE_CHAR exchange itself and, when it answers 0, the insert. */
  function Stored(l: Line, t: Store.Table, name: string, k: int, dbFault: bool, v: Variant)
    : (res: (Outcome<int>, Line, Store.Table))
    requires LineOk(l)
    ensures LineOk(res.1) && res.1.uploads == l.uploads && res.1.saved == l.saved
    ensures res.0.Blocked? ==> res.1.replies == []
    ensures res.0 != Raised(ValueError)
  {
    var (s, l1) := Ask(l, true);
    if s.None? then (Blocked, l1, t)
    else if s != Some(0) then (Done(1), l1, t)
    else InsertUndo(l1, t, name, k, dbFault, v)
  }

  /** `CmdMerge(0, 3, 1)` and, when it answers 0, the store. */
  function MergeStore(l: Line, t: Store.Table, name: string, k: int, dbFault: bool, v: Variant)
    : (res: (Outcome<int>, Line, Store.Table))
    requires LineOk(l)
    ensures LineOk(res.1) && res.1.uploads == l.uploads && res.1.saved == l.saved
    ensures res.0.Blocked? ==> res.1.replies == []
  {
    var (m, l1) := Ask(l, true);
    if m.None? then (Blocked, l1, t)
    else if m != Some(0) then (Done(1), l1, t)
    else StoreInsert(l1, t, name, k, dbFault, v)
  }

  /**
   * enroll_finger: GET_EMPTY_ID, the three capture loops, then merge and
   * store unless the last loop ended with `i == 2`.
   */
  function Enrol(l: Line, t: Store.Table, name: string, dbFault: bool, v: Variant)
    : (res: (Outcome<int>, Line, Store.Table))
    requires LineOk(l)
    ensures LineOk(res.1) && (res.0.Blocked? ==> res.1.replies == [])
  {
    var (r, l1) := Ask(l, true);
    if r.None? then (Blocked, l1, t)
    else CaptureMerge(l1, t, name, EmptySlot(l), dbFault, v)
  }

  /**
   * enroll_finger once GET_EMPTY_ID has answered: the three capture
   * loops, and MERGE and STORE_CHAR into slot k unless the last loop
   * failed (1).
   */
  function CaptureMerge(l: Line, t: Store.Table, name: string, k: int, dbFault: bool, v: Variant)
    : (res: (Outcome<int>, Line, Store.Table))
    requires LineOk(l)
    ensures LineOk(res.1) && (res.0.Blocked? ==> res.1.replies == [])
  {
    var (c, l1) := Captures(l, 0, 2);
    if c.Blocked? then (Blocked, l1, t)
    else if c.value == 2 then (Done(1), l1, t)
    else MergeStore(l1, t, name, k, dbFault, v)
  }

  // ----------------------------------------------------------------- search

  /**
   * The part of run_search after the capture: SEARCH (read with back 0);
   * on 0 record the slot `self.RPS` names and look its name up.  With a
   * report callback and no saved image, the callback's `image_path` is
   * unbound and NameError ends the run.  The third component is
   * `self.last_match_position` afterwards.
   */
  function Searched(l: Line, t: Store.Table, saved: bool, notify: bool, pos0: Option<int>)
    : (res: (Outcome<SearchReport>, Line, Option<int>))
    requires LineOk(l)
    ensures LineOk(res.1) && res.1.uploads == l.uploads && res.1.saved == l.saved
    ensures res.0.Blocked? <==> l.replies == []
  {
    var (r, l1) := Ask(l, false);
    if r.None? then (Blocked, l1, pos0)
    else
      var matched := r == Some(0);
      var pos := if matched then Some(LE16(l1.RPS.data[0], l1.RPS.data[1])) else pos0;
      if notify && !saved then (Raised(NameError), l1, pos)
      else (Done(Report(matched, if matched then Store.NameAt(t.rows, pos.value) else None)), l1, pos)
  }

  /** run_search: one capture loop into buffer 0, then the search unless it ended with `i == 2`. */
  function Search(l: Line, t: Store.Table, notify: bool, pos0: Option<int>)
    : (res: (Outcome<SearchReport>, Line, Option<int>))
    requires LineOk(l)
    ensures LineOk(res.1) && (res.0.Blocked? ==> res.1.replies == [])
  {
    var (c, l1) := Sample(l, 0);
    if c.Blocked? then (Blocked, l1, pos0)
    else if c.value.last == 2 then (Done(CaptureFailed), l1, pos0)
    else Searched(l1, t, c.value.saved, notify, pos0)
  }

  // ----------------------------------------------------------------- delete

  /** delete_finger: look the row up by id; DEL_CHAR its slot and delete the row when the device answers 0. */
  function Delete(l: Line, t: Store.Table, id: int): (res: (Outcome<bool>, Line, Store.Table))
    requires LineOk(l)
    ensures LineOk(res.1) && res.1.uploads == l.uploads && res.1.saved == l.saved
    ensures res.0.Blocked? ==> res.1.replies == []
  {
    match Store.RowById(t.rows, id)
    case None => (Done(false), l, t)
    case Some(_) =>
      var (r, l1) := Ask(l, true);
      if r.None? then (Blocked, l1, t)
      else if r == Some(0) then (Done(true), l1, Store.DeleteById(t, id))
      else (Done(false), l1, t)
  }

  // ------------------------------------------------------------ frames sent

  /*
   * The opcodes of the frames the workflows send after their capture
   * loops, in order.  The capture loops themselves send only
   * FINGER_DETECT, GET_IMAGE, GENERATE and UP_IMAGE_CODE frames.
   */

  /** The handler sends DEL_CHAR only as intended, and only when the insert failed. */
  function InsertUndoOps(t: Store.Table, name: string, k: int, dbFault: bool, v: Variant): seq<int>
  {
    if Store.Insert(t, name, k, dbFault).Some? || v.AsWritten? then [] else [CMD_DEL_CHAR]
  }

  /** STORE_CHAR, then the handler's frames when it answered 0. */
  function StoredOps(l: Line, t: Store.Table, name: string, k: int, dbFault: bool, v: Variant): seq<int>
    requires LineOk(l)
  {
    var (s, _) := Ask(l, true);
    [CMD_STORE_CHAR] + (if s == Some(0) then InsertUndoOps(t, name, k, dbFault, v) else [])
  }

  /** Nothing when the as-written slot is not a byte; otherwise the store's frames. */
  function StoreInsertOps(l: Line, t: Store.Table, name: string, k: int, dbFault: bool, v: Variant): seq<int>
    requires LineOk(l)
  {
    if v.AsWritten? && k >= 256 then [] else StoredOps(l, t, name, k, dbFault, v)
  }

  /** MERGE, then the store's frames when it answered 0. */
  function MergeStoreOps(l: Line, t: Store.Table, name: string, k: int, dbFault: bool, v: Variant): seq<int>
    requires LineOk(l)
  {
    var (m, l1) := Ask(l, true);
    [CMD_MERGE] + (if m == Some(0) then StoreInsertOps(l1, t, name, k, dbFault, v) else [])
  }

  /** What enroll_finger sends after its capture loops. */
  function EnrolTail(l: Line, t: Store.Table, name: string, dbFault: bool, v: Variant): seq<int>
    requires LineOk(l)
  {
    var (r, l1) := Ask(l, true);
    if r.None? then [] else CaptureMergeOps(l1, t, name, EmptySlot(l), dbFault, v)
  }

  /** What CaptureMerge sends after the capture loops: MERGE and what follows, unless the capture failed. */
  function CaptureMergeOps(l: Line, t: Store.Table, name: string, k: int, dbFault: bool, v: Variant): seq<int>
    requires LineOk(l)
  {
    var (c, l1) := Captures(l, 0, 2);
    if c.Blocked? || c.value == 2 then [] else MergeStoreOps(l1, t, name, k, dbFault, v)
  }

  /** What run_search sends after its capture loop: one SEARCH, unless the capture failed. */
  function SearchTail(l: Line): seq<int>
    requires LineOk(l)
  {
    var (c, _) := Sample(l, 0);
    if c.Blocked? || c.value.last == 2 then [] else [CMD_SEARCH]
  }

  // ------------------------------------------------------------- properties

  /** The opening answers with the final FINGER_DETECT: it is the reply the line gives after lift and press. */
  lemma EngagedAnswersLastDetect(l: Line, back: bool)
    requires LineOk(l)
    ensures var (d, l1) := Ask(l, back);
            var (w, l2) := Lift(l1, back);
            var (p, l3) := Press(l2, back);
            d.Some? && w.Some? && p.Some? ==> Engaged(l, back) == Ask(l3, back)
    ensures Engaged(l, back).0.Some? ==> Ask(l, back).0.Some? && Lift(Ask(l, back).1, back).0.Some?
  {
  }

  /** A pass takes a sample exactly when the last FINGER_DETECT, GET_IMAGE and GENERATE each answer 0 and the upload does not block. */
  lemma SampledIffThreeZeros(l: Line)
    requires LineOk(l)
    ensures var (d, l1) := Engaged(l, true);
            var (g, l2) := Ask(l1, true);
            var (gen, l3) := Ask(l2, true);
            (Try(l).0.Done? && Try(l).0.value.Sampled?) <==>
              d == Some(0) && g == Some(0) && gen == Some(0) && !UpImage(l3, true).0.Blocked?
  {
  }

  /** An image is saved exactly when the upload after GENERATE brought some bytes. */
  lemma SavedIffBytes(l: Line)
    requires LineOk(l)
    ensures UploadSaved(l).0 == Done(Sampled(true)) <==>
      UpImage(l, true).0.Done? && UpImage(l, true).0.value.Some? && UpImage(l, true).0.value.value != []
  {
  }

  /** What the earlier capture loops ended with does not matter: only the latest loop decides. */
  lemma OnlyLastLoopDecides(l: Line, a: int, x: int, y: int)
    requires LineOk(l) && 0 <= a < 3 && 0 <= x <= 2 && 0 <= y <= 2
    ensures Captures(l, a, x) == Captures(l, a, y)
  {
  }

  /** The third capture loop's `i` is what enroll_finger tests. */
  lemma ThirdLoopDecides(l: Line, x: int)
    requires LineOk(l) && 0 <= x <= 2
    ensures var (c, l1) := Sample(l, 0);
            Captures(l, 2, x) == if c.Blocked? then (Blocked, l1) else (Done(c.value.last), l1)
  {
  }

  /** enroll_finger reports failure when the third capture loop ends with i == 2, and the table is left alone. */
  lemma EnrolFailsOnLastLoop(l: Line, t: Store.Table, name: string, dbFault: bool, v: Variant)
    requires LineOk(l)
    ensures var (r, l1) := Ask(l, true);
            var (c, l2) := Captures(l1, 0, 2);
            r.Some? && c == Done(2) ==> Enrol(l, t, name, dbFault, v) == (Done(1), l2, t)
  {
  }

  /** A MERGE that does not answer 0 stores nothing: the table is unchanged and no insert happens. */
  lemma MergeFailureStoresNothing(l: Line, t: Store.Table, name: string, k: int, dbFault: bool, v: Variant)
    requires LineOk(l) && Ask(l, true).0 != Some(0)
    ensures var res := MergeStore(l, t, name, k, dbFault, v);
            res.2 == t && (res.0 == Blocked || res.0 == Done(1)) && res.1 == Ask(l, true).1
    ensures MergeStoreOps(l, t, name, k, dbFault, v) == [CMD_MERGE]
  {
  }

  /**
   * The table changes only on success, and then by inserting the row for
   * the slot GET_EMPTY_ID named.
   */
  lemma EnrolChangesTableOnlyOnSuccess(l: Line, t: Store.Table, name: string, dbFault: bool, v: Variant)
    requires LineOk(l)
    ensures var res := Enrol(l, t, name, dbFault, v);
            (res.0 == Done(0) ==> Store.Insert(t, name, EmptySlot(l), dbFault) == Some(res.2)) &&
            (res.0 != Done(0) ==> res.2 == t)
  {
    var (r, l1) := Ask(l, true);
    if r.Some? {
      var (c, l2) := Captures(l1, 0, 2);
      if c.Done? && c.value != 2 {
        MergeStoreInserts(l2, t, name, EmptySlot(l), dbFault, v);
      }
    }
  }

  /**
   * The tail of enroll_finger succeeds exactly when MERGE and STORE_CHAR
   * both answer 0 (and, as written, the slot is below 256) and the insert
   * succeeds; only then does the table change, by that insert.
   */
  lemma MergeStoreInserts(l: Line, t: Store.Table, name: string, k: int, dbFault: bool, v: Variant)
    requires LineOk(l)
    ensures var (m, l1) := Ask(l, true);
            var (st, _) := Ask(l1, true);
            var res := MergeStore(l, t, name, k, dbFault, v);
            && (res.0 == Done(0) <==>
                  m == Some(0) && !(v.AsWritten? && k >= 256) && st == Some(0) && Store.Insert(t, name, k, dbFault).Some?)
            && (res.0 == Done(0) ==> Store.Insert(t, name, k, dbFault) == Some(res.2))
            && (res.0 != Done(0) ==> res.2 == t)
  {
    var (m, l1) := Ask(l, true);
    if m == Some(0) && !(v.AsWritten? && k >= 256) {
      var (st, l2) := Ask(l1, true);
      assert StoreInsert(l1, t, name, k, dbFault, v) == Stored(l1, t, name, k, dbFault, v);
      if st == Some(0) {
        assert Stored(l1, t, name, k, dbFault, v) == InsertUndo(l2, t, name, k, dbFault, v);
      }
    }
  }

  /**
   * As written, an insert failure raises AttributeError with nothing
   * exchanged (the template stays stored); as intended, one DEL_CHAR
   * exchange follows and the database error propagates.  Both leave the
   * table alone.
   */
  lemma InsertFailureBothWays(l: Line, t: Store.Table, name: string, k: int, dbFault: bool)
    requires LineOk(l) && Store.Insert(t, name, k, dbFault).None?
    ensures InsertUndo(l, t, name, k, dbFault, AsWritten) == (Raised(AttributeError), l, t)
    ensures var (d, l1) := Ask(l, false);
            InsertUndo(l, t, name, k, dbFault, Intended) == (if d.None? then Blocked else Raised(DbError), l1, t)
    ensures InsertUndoOps(t, name, k, dbFault, AsWritten) == []
    ensures InsertUndoOps(t, name, k, dbFault, Intended) == [CMD_DEL_CHAR]
  {
  }

  /**
   * As written, a slot from 256 on raises ValueError before STORE_CHAR
   * goes out; below 256 both variants send the same exchange.
   */
  lemma WideSlotRaisesValueError(l: Line, t: Store.Table, name: string, k: int, dbFault: bool)
    requires LineOk(l)
    ensures k >= 256 ==> StoreInsert(l, t, name, k, dbFault, AsWritten) == (Raised(ValueError), l, t)
    ensures k < 256 ==> StoreInsert(l, t, name, k, dbFault, AsWritten) == Stored(l, t, name, k, dbFault, AsWritten)
    ensures StoreInsert(l, t, name, k, dbFault, Intended) == Stored(l, t, name, k, dbFault, Intended)
    ensures StoreInsert(l, t, name, k, dbFault, Intended).0 != Raised(ValueError)
  {
  }

  /**
   * A SEARCH that answers 0 records the slot `self.RPS` names and
   * reports the name stored for it, which is the name of the row holding
   * that slot when there is one.
   */
  lemma SearchReportsSlot(l: Line, t: Store.Table, saved: bool, notify: bool, pos0: Option<int>)
    requires LineOk(l) && Ask(l, false).0 == Some(0) && !(notify && !saved)
    ensures var l1 := Ask(l, false).1;
            var slot := LE16(l1.RPS.data[0], l1.RPS.data[1]);
            var res := Searched(l, t, saved, notify, pos0);
            && res.2 == Some(slot)
            && res.0 == Done(Report(true, Store.NameAt(t.rows, slot)))
            && ((exists i | 0 <= i < |t.rows| :: t.rows[i].slot == slot) <==> res.0.value.name.Some?)
  {
    var l1 := Ask(l, false).1;
    Store.NameAtFound(t.rows, LE16(l1.RPS.data[0], l1.RPS.data[1]));
  }

  /** A SEARCH that does not answer 0 reports no match and keeps the last recorded position. */
  lemma SearchMissKeepsPosition(l: Line, t: Store.Table, saved: bool, notify: bool, pos0: Option<int>)
    requires LineOk(l) && Ask(l, false).0.Some? && Ask(l, false).0 != Some(0)
    ensures var res := Searched(l, t, saved, notify, pos0);
            res.2 == pos0 && (res.0.Done? ==> res.0.value == Report(false, None))
  {
  }

  /** The row goes exactly when it exists and DEL_CHAR answers 0; otherwise the table is unchanged. */
  lemma DeleteOnlyOnSuccess(l: Line, t: Store.Table, id: int)
    requires LineOk(l)
    ensures var res := Delete(l, t, id);
            (res.0 == Done(true) <==> Store.RowById(t.rows, id).Some? && Ask(l, true).0 == Some(0)) &&
            res.2 == (if res.0 == Done(true) then Store.DeleteById(t, id) else t)
    ensures Store.RowById(t.rows, id).None? ==> Delete(l, t, id) == (Done(false), l, t)
  {
  }

  /**
   * The frames of the store: STORE_CHAR first; DEL_CHAR exactly as
   * intended, after STORE_CHAR answered 0 and the insert failed; a
   * successful store sends STORE_CHAR and nothing else.
   */
  lemma StoredFrames(l: Line, t: Store.Table, name: string, k: int, dbFault: bool, v: Variant)
    requires LineOk(l)
    ensures var (st, l1) := Ask(l, true);
            var ops := StoredOps(l, t, name, k, dbFault, v);
            && 1 <= |ops| <= 2 && ops[0] == CMD_STORE_CHAR && CMD_MERGE !in ops && CMD_STORE_CHAR !in ops[1..]
            && (CMD_DEL_CHAR in ops <==> v.Intended? && st == Some(0) && Store.Insert(t, name, k, dbFault).None?)
            && (Stored(l, t, name, k, dbFault, v).0 == Done(0) ==> ops == [CMD_STORE_CHAR])
  {
    var (st, l1) := Ask(l, true);
    var ops := StoredOps(l, t, name, k, dbFault, v);
    var undo := InsertUndoOps(t, name, k, dbFault, v);
    if st == Some(0) {
      assert ops == [CMD_STORE_CHAR] + undo;
      assert Stored(l, t, name, k, dbFault, v) == InsertUndo(l1, t, name, k, dbFault, v);
      if undo == [] {
        assert ops == [CMD_STORE_CHAR];
      } else {
        assert ops == [CMD_STORE_CHAR, CMD_DEL_CHAR];
      }
    } else {
      assert ops == [CMD_STORE_CHAR];
    }
  }

  /**
   * The frames of store-and-insert: nothing when the slot cannot be sent
   * (as written, k >= 256), otherwise those of StoredFrames.
   */
  lemma StoreInsertFrames(l: Line, t: Store.Table, name: string, k: int, dbFault: bool, v: Variant)
    requires LineOk(l)
    ensures var (st, _) := Ask(l, true);
            var ops := StoreInsertOps(l, t, name, k, dbFault, v);
            && |ops| <= 2 && CMD_MERGE !in ops
            && (CMD_STORE_CHAR in ops <==> !(v.AsWritten? && k >= 256))
            && (CMD_DEL_CHAR in ops <==> v.Intended? && st == Some(0) && Store.Insert(t, name, k, dbFault).None?)
            && (StoreInsert(l, t, name, k, dbFault, v).0 == Done(0) ==> ops == [CMD_STORE_CHAR])
  {
    if v.AsWritten? && k >= 256 {
      assert StoreInsertOps(l, t, name, k, dbFault, v) == [];
    } else {
      StoredFrames(l, t, name, k, dbFault, v);
      assert StoreInsertOps(l, t, name, k, dbFault, v) == StoredOps(l, t, name, k, dbFault, v);
      assert StoreInsert(l, t, name, k, dbFault, v) == Stored(l, t, name, k, dbFault, v);
    }
  }

  /**
   * The frames after the captures: MERGE first; STORE_CHAR exactly when
   * MERGE answered 0 and the slot can be sent; DEL_CHAR exactly as
   * intended, after STORE_CHAR answered 0 and the insert failed.  A
   * successful tail is MERGE and STORE_CHAR and nothing else.
   */
  lemma MergeStoreFrames(l: Line, t: Store.Table, name: string, k: int, dbFault: bool, v: Variant)
    requires LineOk(l)
    ensures var (m, l1) := Ask(l, true);
            var (st, _) := Ask(l1, true);
            var ops := MergeStoreOps(l, t, name, k, dbFault, v);
            && 1 <= |ops| <= 3 && ops[0] == CMD_MERGE
            && (CMD_STORE_CHAR in ops <==> m == Some(0) && !(v.AsWritten? && k >= 256))
            && (CMD_DEL_CHAR in ops <==>
                  v.Intended? && m == Some(0) && st == Some(0) && Store.Insert(t, name, k, dbFault).None?)
            && (MergeStore(l, t, name, k, dbFault, v).0 == Done(0) ==> ops == [CMD_MERGE, CMD_STORE_CHAR])
  {
    var (m, l1) := Ask(l, true);
    var ops := MergeStoreOps(l, t, name, k, dbFault, v);
    if m == Some(0) {
      StoreInsertFrames(l1, t, name, k, dbFault, v);
      var tail := StoreInsertOps(l1, t, name, k, dbFault, v);
      assert ops == [CMD_MERGE] + tail;
      assert MergeStore(l, t, name, k, dbFault, v) == StoreInsert(l1, t, name, k, dbFault, v);
      assert forall x :: x in ops <==> x == CMD_MERGE || x in tail;
    } else {
      assert ops == [CMD_MERGE];
    }
  }

  /**
   * enroll_finger sends nothing after its captures exactly when
   * GET_EMPTY_ID or the captures block or the third loop ends with
   * i == 2; on success it sends MERGE and STORE_CHAR only, and as
   * written it never sends DEL_CHAR.
   */
  lemma EnrolTailFrames(l: Line, t: Store.Table, name: string, dbFault: bool, v: Variant)
    requires LineOk(l)
    ensures var (r, l1) := Ask(l, true);
            var (c, _) := Captures(l1, 0, 2);
            var ops := EnrolTail(l, t, name, dbFault, v);
            && (ops == [] <==> r.None? || c.Blocked? || c == Done(2))
            && (Enrol(l, t, name, dbFault, v).0 == Done(0) ==> ops == [CMD_MERGE, CMD_STORE_CHAR])
            && (v.AsWritten? ==> CMD_DEL_CHAR !in ops)
  {
    var (r, l1) := Ask(l, true);
    if r.Some? {
      var (c, l2) := Captures(l1, 0, 2);
      if c.Done? && c.value != 2 {
        MergeStoreFrames(l2, t, name, EmptySlot(l), dbFault, v);
      }
    }
  }

  /** run_search sends its one SEARCH exactly when the capture neither blocked nor failed. */
  lemma SearchTailFrames(l: Line, t: Store.Table, notify: bool, pos0: Option<int>)
    requires LineOk(l)
    ensures var res := Search(l, t, notify, pos0);
            && (SearchTail(l) == [CMD_SEARCH] <==> !Sample(l, 0).0.Blocked? && res.0 != Done(CaptureFailed))
            && (SearchTail(l) == [] || SearchTail(l) == [CMD_SEARCH])
            && (res.0.Raised? || (res.0.Done? && res.0.value.Report?) ==> SearchTail(l) == [CMD_SEARCH])
  {
  }
}
