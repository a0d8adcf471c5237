/**
 * The optical sensor driver (class FingerprintSensor in OptSensor.py):
 * raw GenImg/UpImage exchanges on the serial line, the BMP save, and the
 * enrolment, search and delete workflows built on the pyfingerprint
 * library.
 *
 * The library is an oracle: the calls made are recorded in `calls`, and
 * the values it answers with (the comparison score, the stored and the
 * searched position, the readImage polls, the delete result) are
 * parameters of the workflow.  Written commands go to `written`, saved
 * BMP files to `files`.
 */
module OptDriver {
  import opened Wrappers
  import opened Bytes
  import opened OptLink
  import OptBmp
  import Store

  const CHAR_BUFFER_1 := 0x01
  const CHAR_BUFFER_2 := 0x02

  /** The exceptions that leave the workflows. */
  datatype Fault = Mismatch | DbError | IndexError | CaptureError

  /** How a workflow ends; Hung where the source spins forever on a silent line. */
  datatype Outcome<T> = Done(value: T) | Raised(fault: Fault) | Hung | TimedOut

  /** A call into the fingerprint library. */
  datatype LibCall =
    | ReadImage
    | ConvertImage(buffer: int)
    | CompareCharacteristics
    | CreateTemplate
    | StoreTemplate
    | SearchTemplate
    | DeleteTemplate(position: int)

  datatype SearchReport = Report(matched: bool, name: Option<string>)

  /**
   * capture_and_download on the scripted line: the outcome, the script
   * left over, and the image saved (if any).  Every failure (a missing,
   * short or refusing GenImg acknowledgement, a failed or empty
   * download, a BMP that cannot be packed) is caught and reported as
   * False.
   */
  function CaptureSpec(script: seq<seq<int>>): (Outcome<bool>, seq<seq<int>>, Option<seq<int>>)
  {
    var (response, rest) := ReadN(script, ACK_SIZE);
    if AckOf(response) != AckCode(0) then (Done(false), rest, None)
    else
      var (d, rest') := OptLink.ReadImage(rest);
      if d.Stalled? then (Hung, rest', None)
      else if !d.Downloaded? || d.image == [] || OptBmp.BmpFile(d.image).None? then (Done(false), rest', None)
      else (Done(true), rest', Some(d.image))
  }

  /**
   * capture_and_download succeeds exactly when both acknowledgements
   * carry code 0, the reassembled image is not empty and its BMP can be
   * packed; the saved image is then the reassembled one.
   */
  lemma CaptureSucceeds(script: seq<seq<int>>)
    ensures var (o, _, saved) := CaptureSpec(script);
      var (r1, rest1) := ReadN(script, ACK_SIZE);
      var (d, _) := OptLink.ReadImage(rest1);
      && (o == Done(true) <==> saved.Some?)
      && (o == Done(true) <==>
            && |r1| >= 10 && r1[9] == 0
            && d.Downloaded? && d.image != [] && OptBmp.BmpFile(d.image).Some?)
      && (saved.Some? ==> saved.value == d.image)
      && (o == Hung ==> d == Stalled)
  {
  }

  /** The BMP file capture_and_download writes: one exactly when it succeeds. */
  function CaptureFiles(script: seq<seq<int>>): (fs: seq<seq<int>>)
    ensures |fs| <= 1 && (|fs| == 1 <==> CaptureSpec(script).0 == Done(true))
  {
    var saved := CaptureSpec(script).2;
    if saved.Some? then [OptBmp.BmpFile(saved.value).value] else []
  }

  /** One pass of a `while not ..._scan_complete` loop of enroll_finger. */
  datatype ScanStep = Saved(image: seq<int>) | Retry | ScanFault(fault: Fault) | ScanHung

  /**
   * GenImg; on acknowledgement code 0 read the image and save it; a
   * missing or refusing acknowledgement, an empty download or a failed
   * save asks for another pass; a short acknowledgement raises.
   */
  function ScanSpec(script: seq<seq<int>>): (ScanStep, seq<seq<int>>)
  {
    var (response, rest) := ReadN(script, ACK_SIZE);
    match AckOf(response)
    case NoAck => (Retry, rest)
    case ShortAck => (ScanFault(IndexError), rest)
    case AckCode(c) =>
      if c != 0 then (Retry, rest)
      else
        var (d, rest') := OptLink.ReadImage(rest);
        match d
        case Stalled => (ScanHung, rest')
        case ShortAckError => (ScanFault(IndexError), rest')
        case Refused => (Retry, rest')
        case Downloaded(image) =>
          if image == [] || OptBmp.BmpFile(image).None? then (Retry, rest')
          else (Saved(image), rest')
  }

  /** A pass ends a scan loop with an image exactly when capture_and_download would succeed on the same line. */
  lemma ScanAgreesWithCapture(script: seq<seq<int>>)
    ensures ScanSpec(script).0.Saved? <==> CaptureSpec(script).0 == Done(true)
    ensures ScanSpec(script).0.Saved? ==> Some(ScanSpec(script).0.image) == CaptureSpec(script).2
    ensures ScanSpec(script).1 == CaptureSpec(script).1
  {
  }

  /** A pass on a non-silent line always consumes script, so the scan loop makes progress. */
  lemma ScanConsumes(script: seq<seq<int>>)
    requires script != []
    ensures |ScanSpec(script).1| < |script|
  {
    var (response, rest) := ReadN(script, ACK_SIZE);
    if AckOf(response) == AckCode(0) {
      ReadImageShrinks(rest);
    }
  }

  /**
   * A `while not ..._scan_complete` loop: pass after pass until one saves
   * an image, raises, or the line goes silent (Hung, where the source
   * spins forever).
   */
  function ScanLoop(script: seq<seq<int>>): (res: (Outcome<seq<int>>, seq<seq<int>>))
    ensures res.0.Done? ==> res.0.value != [] && OptBmp.BmpFile(res.0.value).Some?
    ensures res.0.Raised? ==> res.0.fault == IndexError
    ensures !res.0.TimedOut? && (res.0.Hung? ==> res.1 == [])
    ensures |res.1| <= |script|
    decreases |script|
  {
    if script == [] then (Hung, script)
    else
      ScanConsumes(script);
      var (step, rest) := ScanSpec(script);
      match step
      case Saved(image) => (Done(image), rest)
      case ScanFault(f) => (Raised(f), rest)
      case ScanHung => (Hung, rest)
      case Retry => ScanLoop(rest)
  }

  /** The commands one scan pass writes: GenImg, then UpImage when GenImg is acknowledged with code 0. */
  function ScanWrites(script: seq<seq<int>>): seq<seq<int>>
  {
    var (response, _) := ReadN(script, ACK_SIZE);
    [CMD_GENIMG] + (if AckOf(response) == AckCode(0) then [CMD_UPIMAGE] else [])
  }

  /** The commands a scan loop writes, pass after pass. */
  function ScanLoopWrites(script: seq<seq<int>>): (ws: seq<seq<int>>)
    decreases |script|
  {
    if script == [] then []
    else
      ScanConsumes(script);
      var (step, rest) := ScanSpec(script);
      ScanWrites(script) + (if step.Retry? then ScanLoopWrites(rest) else [])
  }

  /** A scan loop on a line that is not silent starts with GenImg and writes only GenImg and UpImage. */
  lemma {:induction false} ScanLoopWritesShape(script: seq<seq<int>>)
    ensures var ws := ScanLoopWrites(script);
      && (forall w | w in ws :: w == CMD_GENIMG || w == CMD_UPIMAGE)
      && (script != [] ==> ws != [] && ws[0] == CMD_GENIMG)
    decreases |script|
  {
    if script != [] {
      ScanConsumes(script);
      var (step, rest) := ScanSpec(script);
      if step.Retry? {
        ScanLoopWritesShape(rest);
      }
    }
  }

  /** A first pass that saves an image ends the loop with it; a first pass that asks again hands the loop on. */
  lemma ScanLoopFirstPass(script: seq<seq<int>>)
    requires script != []
    ensures ScanSpec(script).0.Saved? ==> ScanLoop(script) == (Done(ScanSpec(script).0.image), ScanSpec(script).1)
    ensures ScanSpec(script).0.Retry? ==> ScanLoop(script) == ScanLoop(ScanSpec(script).1)
  {
  }

  /** Steps 1 and 2 of enroll_finger: two scan loops, the second on the line the first leaves. */
  function BothScans(script: seq<seq<int>>): (res: (Outcome<()>, seq<seq<int>>))
    ensures !res.0.TimedOut? && (res.0.Raised? ==> res.0.fault == IndexError)
    ensures res.0.Done? <==> ScanLoop(script).0.Done? && ScanLoop(ScanLoop(script).1).0.Done?
  {
    var (a, r1) := ScanLoop(script);
    if !a.Done? then (if a.Hung? then Hung else Raised(a.fault), r1)
    else
      var (b, r2) := ScanLoop(r1);
      if !b.Done? then (if b.Hung? then Hung else Raised(b.fault), r2)
      else (Done(()), r2)
  }

  /** The library calls of steps 1 and 2: convertImage after each scan loop that saved an image. */
  function ScanCalls(script: seq<seq<int>>): (cs: seq<LibCall>)
    ensures BothScans(script).0.Done? <==> cs == [ConvertImage(CHAR_BUFFER_1), ConvertImage(CHAR_BUFFER_2)]
  {
    var (a, r1) := ScanLoop(script);
    if !a.Done? then []
    else if !ScanLoop(r1).0.Done? then [ConvertImage(CHAR_BUFFER_1)]
    else [ConvertImage(CHAR_BUFFER_1), ConvertImage(CHAR_BUFFER_2)]
  }

  /** The BMP files of steps 1 and 2: one per scan loop that saved an image, each converted once. */
  function ScanFiles(script: seq<seq<int>>): (fs: seq<seq<int>>)
    ensures |fs| == |ScanCalls(script)| <= 2
    ensures BothScans(script).0.Done? <==> |fs| == 2
  {
    var (a, r1) := ScanLoop(script);
    if !a.Done? then []
    else
      var (b, _) := ScanLoop(r1);
      [OptBmp.BmpFile(a.value).value] + (if b.Done? then [OptBmp.BmpFile(b.value).value] else [])
  }

  /** The commands steps 1 and 2 write: the first scan loop's, then the second's when the first saved an image. */
  function BothScansWrites(script: seq<seq<int>>): seq<seq<int>>
  {
    var (a, r1) := ScanLoop(script);
    ScanLoopWrites(script) + (if a.Done? then ScanLoopWrites(r1) else [])
  }

  /**
   * Steps 1 and 2 write only GenImg and UpImage, GenImg first; when both
   * scans save an image, the second loop's GenImg follows the first
   * loop's last UpImage.
   */
  lemma BothScansWritesShape(script: seq<seq<int>>)
    ensures var ws := BothScansWrites(script);
      && (forall w | w in ws :: w == CMD_GENIMG || w == CMD_UPIMAGE)
      && (script != [] ==> ws != [] && ws[0] == CMD_GENIMG)
      && (BothScans(script).0.Done? ==>
            var n := |ScanLoopWrites(script)|;
            0 < n < |ws| && ws[n - 1] == CMD_UPIMAGE && ws[n] == CMD_GENIMG)
  {
    var (a, r1) := ScanLoop(script);
    ScanLoopWritesShape(script);
    ScanLoopWritesShape(r1);
    if a.Done? {
      SavingLoopEndsWithUpImage(script);
      var ws := BothScansWrites(script);
      assert forall w | w in ws :: w in ScanLoopWrites(script) || w in ScanLoopWrites(r1);
    }
  }

  /** A scan loop that saves an image ends with the UpImage of the saving pass. */
  lemma {:induction false} SavingLoopEndsWithUpImage(script: seq<seq<int>>)
    requires ScanLoop(script).0.Done?
    ensures var ws := ScanLoopWrites(script); ws != [] && ws[|ws| - 1] == CMD_UPIMAGE
    decreases |script|
  {
    ScanConsumes(script);
    var (step, rest) := ScanSpec(script);
    if step.Retry? {
      SavingLoopEndsWithUpImage(rest);
    }
  }

  /**
   * The readImage calls of `while not readImage()`: one per poll, up to
   * and including the first that sees a finger.
   */
  function PollCalls(polls: seq<bool>): (cs: seq<LibCall>)
    ensures |cs| <= |polls|
  {
    if polls == [] then []
    else if polls[0] then [ReadImage]
    else [ReadImage] + PollCalls(polls[1..])
  }

  /**
   * The polling makes nothing but readImage calls and stops at the first
   * poll that sees a finger, after one readImage per poll before it; with
   * no such poll every poll is made.
   */
  lemma {:induction false} PollCallsStop(polls: seq<bool>)
    ensures var cs := PollCalls(polls);
      && (forall c | c in cs :: c == ReadImage)
      && ((exists j | 0 <= j < |polls| :: polls[j]) ==> 0 < |cs| && polls[|cs| - 1] && forall j | 0 <= j < |cs| - 1 :: !polls[j])
      && ((forall j | 0 <= j < |polls| :: !polls[j]) ==> |cs| == |polls|)
  {
    if polls != [] && !polls[0] {
      var rest := polls[1..];
      PollCallsStop(rest);
      assert forall j | 0 <= j < |rest| :: rest[j] == polls[j + 1];
      if exists j | 0 <= j < |polls| :: polls[j] {
        var j :| 0 <= j < |polls| && polls[j];
        assert rest[j - 1];
      }
    }
  }

  /** The polls from `i` on: one readImage, then the rest only when poll `i` saw nothing. */
  lemma PollCallsFrom(polls: seq<bool>, i: int)
    requires 0 <= i <= |polls|
    ensures i == |polls| ==> PollCalls(polls[i..]) == []
    ensures i < |polls| ==> PollCalls(polls[i..]) == [ReadImage] + (if polls[i] then [] else PollCalls(polls[i + 1..]))
  {
    if i < |polls| {
      assert polls[i..][1..] == polls[i + 1..];
    }
  }

  /**
   * The library calls of enroll_finger: those of the scans; then, when
   * both saved an image, compareCharacteristics, and createTemplate and
   * storeTemplate unless the score is 0.
   */
  function EnrolCalls(script: seq<seq<int>>, score: int): seq<LibCall>
  {
    if !BothScans(script).0.Done? then ScanCalls(script)
    else
      var compared := [ConvertImage(CHAR_BUFFER_1), ConvertImage(CHAR_BUFFER_2), CompareCharacteristics];
      if score == 0 then compared else compared + [CreateTemplate, StoreTemplate]
  }

  /**
   * A zero score stops enroll_finger right after the comparison; a
   * template is created and stored only after both scans and a non-zero
   * score, and nothing is ever deleted.
   */
  lemma EnrolCallsOrder(script: seq<seq<int>>, score: int)
    ensures var cs := EnrolCalls(script, score);
      && (CreateTemplate in cs || StoreTemplate in cs <==> BothScans(script).0.Done? && score != 0)
      && (CreateTemplate in cs || StoreTemplate in cs ==>
            cs == [ConvertImage(CHAR_BUFFER_1), ConvertImage(CHAR_BUFFER_2), CompareCharacteristics, CreateTemplate, StoreTemplate])
      && (BothScans(script).0.Done? && score == 0 <==> |cs| == 3)
      && (forall c | c in cs :: !c.DeleteTemplate?)
  {
    var cs := EnrolCalls(script, score);
    if !BothScans(script).0.Done? {
      assert cs == [] || cs == [ConvertImage(CHAR_BUFFER_1)];
    }
  }

  lemma AppendAssoc<T>(a: seq<T>, b: seq<T>, c: seq<T>)
    ensures (a + b) + c == a + (b + c)
  {
  }

  lemma ReadImageShrinks(script: seq<seq<int>>)
    ensures |OptLink.ReadImage(script).1| <= |script|
  {
    var (response, rest) := ReadN(script, ACK_SIZE);
    if AckOf(response) == AckCode(0) && Reassemble(rest, []).Assembled? {
      ReassembleShrinks(rest, []);
    }
  }

  lemma {:induction false} ReassembleShrinks(script: seq<seq<int>>, acc: seq<int>)
    requires Reassemble(script, acc).Assembled?
    ensures |Reassemble(script, acc).rest| <= |script|
    decreases |script|
  {
    if |acc| >= TOTAL_BYTES || script == [] {
    } else {
      var (header, rest1) := ReadN(script, HEADER_SIZE);
      if |header| != HEADER_SIZE {
        ReassembleShrinks(rest1, acc);
      } else {
        var n := PayloadLength(header);
        var (data, rest2) := ReadN(rest1, n);
        var (_, rest3) := ReadN(rest2, CHECKSUM_SIZE);
        if |data| != n {
          ReassembleShrinks(rest3, acc);
        } else if header[6] != END_PACKET {
          ReassembleShrinks(rest3, acc + data);
        }
      }
    }
  }

  class OptSensor {
    /** What successive `ser.read` calls will deliver. */
    var script: seq<seq<int>>
    /** Commands written to the line. */
    var written: seq<seq<int>>
    /** BMP files written. */
    var files: seq<seq<int>>
    /** Calls made into the fingerprint library. */
    var calls: seq<LibCall>
    var table: Store.Table
    var lastMatchPosition: Option<int>

    ghost predicate Valid()
      reads this
    {
      Store.Valid(table)
    }

    /** The constructor drops and re-creates the table, so it starts empty. */
    constructor (lines: seq<seq<int>>)
      ensures Valid()
      ensures script == lines && written == [] && files == [] && calls == []
      ensures table == Store.Empty && lastMatchPosition == None
    {
      script := lines;
      written := [];
      files := [];
      calls := [];
      table := Store.Empty;
      lastMatchPosition := None;
    }

    /** `ser.read(n)`. */
    method Read(n: int) returns (chunk: seq<int>)
      modifies this
      ensures (chunk, script) == ReadN(old(script), n)
      ensures written == old(written) && files == old(files) && calls == old(calls)
      ensures table == old(table) && lastMatchPosition == old(lastMatchPosition)
    {
      if n <= 0 || script == [] {
        chunk := [];
      } else {
        chunk := Take(script[0], n);
        script := script[1..];
      }
    }

    /** send_command: write the packet and read a 12-byte acknowledgement (empty when none came). */
    method SendCommand(c: seq<int>) returns (response: seq<int>)
      modifies this
      ensures written == old(written) + [c]
      ensures (response, script) == ReadN(old(script), ACK_SIZE)
      ensures files == old(files) && calls == old(calls)
      ensures table == old(table) && lastMatchPosition == old(lastMatchPosition)
    {
      written := written + [c];
      response := Read(ACK_SIZE);
    }

    /**
     * read_image_data: request the upload, then collect data packets
     * into `image` while counting the bytes in `received`.
     */
    method ReadImageData() returns (d: Download)
      modifies this
      ensures (d, script) == OptLink.ReadImage(old(script))
      ensures written == old(written) + [CMD_UPIMAGE]
      ensures files == old(files) && calls == old(calls)
      ensures table == old(table) && lastMatchPosition == old(lastMatchPosition)
    {
      var response := SendCommand(CMD_UPIMAGE);
      var ack := AckOf(response);
      if ack == NoAck || (ack.AckCode? && ack.code != 0) {
        return Refused;
      }
      if ack == ShortAck {
        return ShortAckError;
      }
      ghost var start := script;
      var image: seq<int> := [];
      var received := 0;
      while received < TOTAL_BYTES
        invariant received == |image|
        invariant Reassemble(script, image) == Reassemble(start, [])
        invariant written == old(written) + [CMD_UPIMAGE]
        invariant files == old(files) && calls == old(calls)
        invariant table == old(table) && lastMatchPosition == old(lastMatchPosition)
        decreases |script|
      {
        if script == [] {
          // Every read now times out empty; the source loops here forever.
          return Stalled;
        }
        ghost var before := script;
        var header := Read(HEADER_SIZE);
        if |header| != HEADER_SIZE {
          continue;
        }
        var length := BE16(header[7], header[8]) - CHECKSUM_SIZE;
        var data := Read(length);
        var _ := Read(CHECKSUM_SIZE);
        if |data| != length {
          continue;
        }
        image := image + data;
        received := received + |data|;
        if header[6] == END_PACKET {
          assert Reassemble(before, image[..|image| - |data|]) == Assembled(image, script);
          return Downloaded(image);
        }
      }
      return Downloaded(image);
    }

    /** save_bmp: widen the pixels and write the file; False when the sizes cannot be packed. */
    method SaveBmp(image: seq<int>) returns (ok: bool)
      modifies this
      ensures ok <==> OptBmp.BmpFile(image).Some?
      ensures files == old(files) + (if ok then [OptBmp.BmpFile(image).value] else [])
      ensures script == old(script) && written == old(written) && calls == old(calls)
      ensures table == old(table) && lastMatchPosition == old(lastMatchPosition)
    {
      var decoded := OptBmp.ExpandNibbles(image);
      var fileSize := OptBmp.PIXEL_OFFSET + |decoded|;
      if fileSize >= 0x1_0000_0000 {
        return false;
      }
      var bmpHeader := OptBmp.FileHeader(fileSize);
      var dibHeader := OptBmp.DibHeader(|decoded|);
      files := files + [bmpHeader + dibHeader + OptBmp.Palette() + decoded];
      return true;
    }

    /** capture_and_download. */
    method CaptureAndDownload() returns (o: Outcome<bool>, ghost saved: Option<seq<int>>)
      modifies this
      ensures (o, script, saved) == CaptureSpec(old(script))
      ensures files == old(files) + (if saved.Some? then [OptBmp.BmpFile(saved.value).value] else [])
      ensures written == old(written) + ScanWrites(old(script))
      ensures calls == old(calls) && table == old(table) && lastMatchPosition == old(lastMatchPosition)
    {
      var response := SendCommand(CMD_GENIMG);
      if AckOf(response) != AckCode(0) {
        return Done(false), None;
      }
      var d := ReadImageData();
      if d.Stalled? {
        return Hung, None;
      }
      if !d.Downloaded? || d.image == [] {
        return Done(false), None;
      }
      var ok := SaveBmp(d.image);
      if !ok {
        return Done(false), None;
      }
      return Done(true), Some(d.image);
    }

    /** One pass of a scan loop of enroll_finger. */
    method Scan() returns (step: ScanStep)
      modifies this
      ensures (step, script) == ScanSpec(old(script))
      ensures written == old(written) + ScanWrites(old(script))
      ensures files == old(files) + (if step.Saved? then [OptBmp.BmpFile(step.image).value] else [])
      ensures calls == old(calls) && table == old(table) && lastMatchPosition == old(lastMatchPosition)
    {
      var response := SendCommand(CMD_GENIMG);
      var ack := AckOf(response);
      if ack == ShortAck {
        return ScanFault(IndexError);
      }
      if ack != AckCode(0) {
        return Retry;
      }
      var d := ReadImageData();
      match d {
        case Stalled => return ScanHung;
        case ShortAckError => return ScanFault(IndexError);
        case Refused => return Retry;
        case Downloaded(image) =>
          if image == [] {
            return Retry;
          }
          var ok := SaveBmp(image);
          if !ok {
            return Retry;
          }
          return Saved(image);
      }
    }

    /** `while not ..._scan_complete`: pass after pass until an image is saved. */
    method ScanUntilSaved() returns (o: Outcome<seq<int>>)
      modifies this
      ensures (o, script) == ScanLoop(old(script))
      ensures written == old(written) + ScanLoopWrites(old(script))
      ensures o.Done? ==> files == old(files) + [OptBmp.BmpFile(o.value).value]
      ensures !o.Done? ==> files == old(files)
      ensures calls == old(calls) && table == old(table) && lastMatchPosition == old(lastMatchPosition)
    {
      while true
        invariant ScanLoop(script) == ScanLoop(old(script))
        invariant written + ScanLoopWrites(script) == old(written) + ScanLoopWrites(old(script))
        invariant files == old(files)
        invariant calls == old(calls) && table == old(table) && lastMatchPosition == old(lastMatchPosition)
        decreases |script|
      {
        if script == [] {
          // Every GenImg goes unanswered; the source retries forever.
          return Hung;
        }
        ScanConsumes(script);
        ghost var w0, s0 := written, script;
        var step := Scan();
        match step {
          case Saved(image) => return Done(image);
          case ScanFault(f) => return Raised(f);
          case ScanHung => return Hung;
          case Retry =>
            assert ScanLoopWrites(s0) == ScanWrites(s0) + ScanLoopWrites(script);
            AppendAssoc(w0, ScanWrites(s0), ScanLoopWrites(script));
        }
      }
    }

    /**
     * enroll_finger: two saved scans, each converted into its character
     * buffer; a zero comparison score raises before any template is
     * created or stored; otherwise the template is created, stored, and
     * its position inserted.  A database error re-raises with the
     * template left on the sensor.
     */
    method EnrollFinger(name: string, score: int, position: int, dbFault: bool) returns (o: Outcome<()>)
      requires Valid()
      modifies this
      ensures Valid() && lastMatchPosition == old(lastMatchPosition)
      ensures script == BothScans(old(script)).1
      ensures calls == old(calls) + EnrolCalls(old(script), score)
      ensures files == old(files) + ScanFiles(old(script))
      ensures written == old(written) + BothScansWrites(old(script))
      ensures !BothScans(old(script)).0.Done? ==> o == BothScans(old(script)).0
      ensures BothScans(old(script)).0.Done? ==>
        |files| == |old(files)| + 2 &&
        o == if score == 0 then Raised(Mismatch)
             else if Store.Insert(old(table), name, position, dbFault).None? then Raised(DbError)
             else Done(())
      ensures o.Done? ==> Some(table) == Store.Insert(old(table), name, position, dbFault)
      ensures o.Done? ==> Store.NameAt(table.rows, position) == Some(name)
      ensures !o.Done? ==> table == old(table)
    {
      var scans := CaptureBothScans();
      if !scans.Done? {
        return scans;
      }
      calls := calls + [CompareCharacteristics];
      if score == 0 {
        return Raised(Mismatch);
      }
      calls := calls + [CreateTemplate, StoreTemplate];
      var t := Store.Insert(table, name, position, dbFault);
      if t.None? {
        return Raised(DbError);
      }
      Store.InsertThenLookup(table, name, position, position);
      table := t.value;
      return Done(());
    }

    /**
     * Steps 1 and 2 of enroll_finger: scan until an image is saved, convert
     * it into character buffer 1, then the same for buffer 2.
     */
    method CaptureBothScans() returns (o: Outcome<()>)
      modifies this
      ensures (o, script) == BothScans(old(script))
      ensures calls == old(calls) + ScanCalls(old(script))
      ensures files == old(files) + ScanFiles(old(script))
      ensures written == old(written) + BothScansWrites(old(script))
      ensures o.Done? ==> |files| == |old(files)| + 2
      ensures table == old(table) && lastMatchPosition == old(lastMatchPosition)
    {
      ghost var s0, w0 := script, written;
      var first := ScanUntilSaved();
      ghost var r1, w1 := script, written;
      assert (first, r1) == ScanLoop(s0) && w1 == w0 + ScanLoopWrites(s0);
      if !first.Done? {
        return if first.Hung? then Hung else Raised(first.fault);
      }
      calls := calls + [ConvertImage(CHAR_BUFFER_1)];
      var second := ScanUntilSaved();
      assert written == w1 + ScanLoopWrites(r1);
      AppendAssoc(w0, ScanLoopWrites(s0), ScanLoopWrites(r1));
      if !second.Done? {
        return if second.Hung? then Hung else Raised(second.fault);
      }
      calls := calls + [ConvertImage(CHAR_BUFFER_2)];
      return Done(());
    }

    /** `while not readImage()`: poll until a finger is seen; False when the polls run out (the timeout). */
    method PollForFinger(polls: seq<bool>) returns (found: bool)
      modifies this
      ensures found <==> exists j | 0 <= j < |polls| :: polls[j]
      ensures calls == old(calls) + PollCalls(polls)
      ensures script == old(script) && written == old(written) && files == old(files)
      ensures table == old(table) && lastMatchPosition == old(lastMatchPosition)
    {
      var i := 0;
      while i < |polls| && !polls[i]
        invariant 0 <= i <= |polls|
        invariant forall j | 0 <= j < i :: !polls[j]
        invariant calls + PollCalls(polls[i..]) == old(calls) + PollCalls(polls)
        invariant script == old(script) && written == old(written) && files == old(files)
        invariant table == old(table) && lastMatchPosition == old(lastMatchPosition)
      {
        PollCallsFrom(polls, i);
        calls := calls + [ReadImage];
        i := i + 1;
      }
      PollCallsFrom(polls, i);
      if i == |polls| {
        return false;
      }
      assert polls[i];
      calls := calls + [ReadImage];
      return true;
    }

    /**
     * run_search: poll readImage until a finger is seen (TimedOut when
     * the polls run out), capture and download the image, convert it,
     * search, and look the name up only on a match.  A failed capture
     * raises, which the surrounding handler catches.
     */
    method SearchFinger(polls: seq<bool>, position: int) returns (o: Outcome<SearchReport>)
      requires Valid()
      modifies this
      ensures Valid() && table == old(table) && old(calls) <= calls
      ensures o == TimedOut <==> forall j | 0 <= j < |polls| :: !polls[j]
      ensures o == TimedOut ==> script == old(script)
      ensures o != TimedOut ==> script == CaptureSpec(old(script)).1
      ensures o != TimedOut ==> (o.Done? <==> CaptureSpec(old(script)).0 == Done(true))
      ensures o != TimedOut ==> (o.Hung? <==> CaptureSpec(old(script)).0 == Hung)
      ensures o.Done? <==> SearchTemplate in calls[|old(calls)|..]
      ensures o.Done? ==> lastMatchPosition == Some(position)
      ensures !o.Done? ==> lastMatchPosition == old(lastMatchPosition)
      ensures o.Done? ==> (o.value.matched <==> position >= 0)
      ensures o.Done? ==> o.value.name == (if position >= 0 then Store.NameAt(table.rows, position) else None)
      ensures o.Raised? ==> o.fault == CaptureError
      ensures o.Done? ==> |files| == |old(files)| + 1
      ensures calls == old(calls) + PollCalls(polls) + (if o.Done? then [ConvertImage(CHAR_BUFFER_1), SearchTemplate] else [])
      ensures files == old(files) + (if o == TimedOut then [] else CaptureFiles(old(script)))
      ensures written == old(written) + (if o == TimedOut then [] else ScanWrites(old(script)))
    {
      var found := PollForFinger(polls);
      PollCallsStop(polls);
      if !found {
        return TimedOut;
      }
      ghost var polled := calls;
      assert SearchTemplate !in calls[|old(calls)|..];
      var captured, saved := CaptureAndDownload();
      if captured.Hung? {
        return Hung;
      }
      if captured != Done(true) {
        return Raised(CaptureError);
      }
      calls := calls + [ConvertImage(CHAR_BUFFER_1), SearchTemplate];
      assert calls[|old(calls)|..] == polled[|old(calls)|..] + [ConvertImage(CHAR_BUFFER_1), SearchTemplate];
      lastMatchPosition := Some(position);
      var isMatch := position >= 0;
      var matchedName: Option<string> := None;
      if isMatch {
        matchedName := Store.NameAt(table.rows, position);
      }
      return Done(Report(isMatch, matchedName));
    }

    /** delete_finger: find the row by id, delete its template, and drop the row only when the library reports success. */
    method DeleteFinger(id: int, deleted: bool) returns (ok: bool)
      requires Valid()
      modifies this
      ensures Valid() && lastMatchPosition == old(lastMatchPosition)
      ensures script == old(script) && written == old(written) && files == old(files)
      ensures Store.RowById(old(table).rows, id).None? ==> !ok && calls == old(calls)
      ensures Store.RowById(old(table).rows, id).Some? ==>
        calls == old(calls) + [DeleteTemplate(Store.RowById(old(table).rows, id).value.slot)]
      ensures ok <==> Store.HasId(old(table), id) && deleted
      ensures ok ==> table == Store.DeleteById(old(table), id) && !Store.HasId(table, id)
      ensures !ok ==> table == old(table)
    {
      Store.RowByIdFound(table.rows, id);
      var row := Store.RowById(table.rows, id);
      if row.None? {
        return false;
      }
      calls := calls + [DeleteTemplate(row.value.slot)];
      if !deleted {
        return false;
      }
      Store.DeleteRemovesOnlyThatRow(table, id);
      table := Store.DeleteById(table, id);
      return true;
    }
  }
}
