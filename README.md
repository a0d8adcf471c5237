# Fingerprint sensor drivers — a Dafny model

This project models the protocol and capture-workflow layer of a
fingerprint system that drives two serial sensors.

- **The capacitive sensor** (`CapSensor.py`, class `CapSensor`) speaks protocol A.
  - Commands and replies are fixed 26-byte frames with a 16-bit additive checksum.
  - The driver keeps two persistent buffers, `self.cmd` and `self.rps`, and two packet records, `self.CMD` and `self.RPS`.
  - One builder method exists per opcode.
  - Raw image uploads are turned into a 242 x 266 raster through a hex text file.
  - The enrolment, search and delete workflows run over an SQLite table.
- **The optical sensor** (`OptSensor.py`, class `FingerprintSensor`) speaks protocol B.
  - Two fixed 12-byte command packets exist: GenImg and UpImage.
  - Each command is answered by a 12-byte acknowledgement.
  - An image upload is reassembled from variable-length data packets.
  - The image is saved as an 8-bit grayscale BMP.
  - Enrolment, search and delete are built on the pyfingerprint library.

Modules, in dependency order:

| module | file | what it holds |
|---|---|---|
| `Wrappers` | wrappers.dfy | `Option` |
| `Bytes` | bytes.dfy | bytes, additive sums, 16/32-bit packing in both byte orders |
| `CapFrame` | cap_frame.dfy | the 26-byte frame as values: encoding, decoding, checksum, dispatch, slot parameters |
| `CapLink` | cap_link.dfy | one `Tx_cmd` / `Rx_cmd` exchange on a scripted line, as values |
| `CapImage` | cap_image.dfy | `Data_Txt`, `read_data_txt`, `data_to_image` |
| `CapIdList` | cap_idlist.dfy | the enrolled-id bitmap decode |
| `Store` | store.dfy | the `fingerprints` table both drivers use |
| `CapDriver` | cap_driver.dfy | class `CapSensor`: the buffers, the builders, the workflows |
| `OptLink` | opt_link.dfy | the command packets, acknowledgements and packet reassembly |
| `OptBmp` | opt_bmp.dfy | the nibble expansion and the BMP file layout |
| `OptDriver` | opt_driver.dfy | class `OptSensor`: the serial exchanges, the BMP save and the workflows |

## How the model is built

**The imperative parts keep their form.**
- `CapDriver.CapSensor` holds `cmd` and `rps` as 26-element arrays and `CMD` and `RPS` as record-valued fields.
  - Each method is proved against a function of module `CapLink`.
  - Example: `(Snapshot(), r) == Exchange(old(Snapshot()), CMD, back)`.
- The loops of `Tx_cmd`, `Rx_cmd`, `Data_Txt`, `read_data_txt`, `data_to_image`, the bitmap decode, `read_image_data` and `save_bmp` are `while` loops with invariants.
  - Each is tied to a specification function.

**The serial line is a script.**
- Capacitive sensor:
  - `inbox` lists the 26-byte replies in the order the device sends them. All of them count as already waiting on the line (see `CapLink.RxPass` under "Left out").
  - `uploads` lists the raw bytes each UP_IMAGE_CODE upload delivers.
  - `sent` records every frame written.
- Optical sensor:
  - `script` lists what successive `ser.read(n)` calls deliver.
  - A call with `n > 0` takes the next chunk, cut to `n` bytes. A shorter chunk is a read that timed out part way.
  - A call with `n <= 0` returns nothing and takes nothing.
  - `written` records the packets written.

**Blocking.** Where the source would wait forever for a byte that never comes, the workflow ends with `Blocked` (capacitive) or `Hung` (optical), and the script is then empty. This covers:
- the busy-wait in `Rx_cmd`;
- a `while` that polls a silent sensor;
- a reassembly loop on a silent line.

**Database and library.**
- The SQLite table is the value `Store.Table`.
- An insert fails on a taken slot (the UNIQUE constraint) or on an outside fault, passed in as `dbFault`.
- pyfingerprint is an oracle:
  - `OptSensor.calls` records the calls made;
  - its answers are parameters of the workflows: the comparison score, the stored position, the search position, the readImage polls and the delete result.

**Exceptions** that leave a workflow are `Raised(fault)`.
- In the capacitive search, `NameError` stands for the unbound `image_path` (or `spoof_status`) used when a report callback was given (`notify`) but no image was saved. The surrounding handler of `run_search` catches it.
- In the optical search, `CaptureError` stands for the "Failed to capture" exception.

**Where the code and the system's own description disagree, the model follows the code** (the two defects of the capacitive enrolment are modelled both ways, see the last item):
- `Tx_cmd` does not zero-pad the payload. Bytes `8+LEN .. 23` keep the previous command's contents.
- `Rx_cmd` does not read exactly one frame per call.
  - It reads frames while bytes are waiting, with a running sum `CKS` that is never reset between frames.
  - A corrupt frame therefore also spoils a correct retransmission behind it (`CapLink.StaleSumRejectsRetry`).
- `CmdUpImageCode` reads no reply frame for UP_IMAGE_CODE. It reads raw upload bytes.
- The capacitive enrolment's capture failure test is `if i == 2` after all three samples.
  - It reads only the last sample's loop variable.
  - A last sample that succeeds on its third attempt is still reported as failure (`Done(1)`).
- The optical enrolment has no compensating delete. When the insert fails, the template stays on the sensor and the database error is re-raised.
- The capacitive enrolment has two defects (see "## Findings"). Its workflows take a `Variant` parameter, so that each path can be followed as written or as intended.
  - `AsWritten` follows the code. A slot from 256 on raises ValueError before STORE_CHAR is sent. A failed insert raises AttributeError from the handler's call to an undefined method: no DEL_CHAR is sent and the template stays stored.
  - `Intended` sends the slot as two bytes and, on a failed insert, sends DEL_CHAR for the slot and then re-raises the database error.
  - `CmdStoreChar` always builds the intended parameters. Below slot 256 they are the bytes the code writes (`CapFrame.StorePayloadBelow256`).

## Model

| member | source | states |
|---|---|---|
| Bytes.SumAppend | CapSensor.py:177-178 | the running sum of a concatenation is the sum of the parts |
| Bytes.U32RoundTrip | OptSensor.py:184 | unpacking `pack('<I', v)` gives back v for every 32-bit v |
| Bytes.I32RoundTrip | OptSensor.py:185 | unpacking `pack('<i', v)` gives back v for every signed 32-bit v |
| CapFrame.EncodeLayout | CapSensor.py:165-180 | the frame carries PREFIX little-endian in bytes 0-1, SID/DID/CMD in 2/3/4, 0 in 5, LEN little-endian in 6-7 and DATA[0..LEN) in 8.., keeps the previous bytes 8+LEN..23 (no zero padding), and its checksum field equals the 16-bit sum of bytes 0..23 |
| CapFrame.DecodeEncoded | CapSensor.py:200-209 | decoding an encoded command reads back PREFIX, SID, DID, CMD and LEN unchanged, and its CKS equals the receiver's own 16-bit sum |
| CapFrame.RxResultCases | CapSensor.py:183-232 | Rx_cmd gives 1 on the 0xff marker or a checksum mismatch, otherwise the handler's value: RET for the result-code opcodes, `not DATA[0]` or 2 for FINGER_DETECT |
| CapFrame.SingleByteCorruptionRejected | CapSensor.py:194-198 | changing any one byte of a frame whose checksum held makes Rx_cmd reject it and return 1 |
| CapFrame.RangePayload | CapSensor.py:242-245 | the four range bytes read back as `first` and `last` little-endian |
| CapFrame.SlotRangePayloadIsFullRange | CapSensor.py:242-245 | the bytes 01 00 B8 0B are the range 1..3000 |
| CapFrame.PackRangeRoundTrip | CapSensor.py:347-351 | packing a 16-bit range as `start * 0x10000 + end` and splitting it gives back start and end |
| CapFrame.SearchPayload | CapSensor.py:415-420 | SEARCH sends two zero bytes, then start and end little-endian |
| CapFrame.DeletePayload | CapSensor.py:502-505 | DEL_CHAR names the slot as both start and end |
| CapFrame.StorePayload | CapSensor.py:800-808 | the intended STORE_CHAR parameters carry the slot as a 16-bit little-endian value, then n and 0 |
| CapFrame.StoreAsWrittenBreaksFromSlot256 | CapSensor.py:800-808 | as written, every slot from 256 on puts a non-byte into frame byte 8 |
| CapFrame.StoreFrameIsBytes | CapSensor.py:800-808 | with the intended parameters every slot below 65536 gives a frame of bytes whose bytes 8-9 read back as the slot |
| CapFrame.StorePayloadBelow256 | CapSensor.py:800-808 | below slot 256 the parameters as written and as intended are the same four bytes |
| CapLink.RxLoop | CapSensor.py:186-198 | one Rx_cmd call consumes a non-empty prefix of the waiting replies, in order, and leaves the last one read in `self.rps` |
| CapLink.RxPass | CapSensor.py:187-197 | one pass stops with 1 on the 0xff marker and keeps `self.RPS`; otherwise it decodes the frame and stops with the handler's value when the running sum matches, stops with 1 when no reply is left, and only then goes on, with the new sum and the decoded frame |
| CapLink.TransmitAppendsFrame | CapSensor.py:165-181 | Tx_cmd writes exactly the buffer it encoded, which carries the opcode, length and payload and an accepted checksum, and changes nothing else |
| CapLink.ReceiveConsumes | CapSensor.py:183-198 | Rx_cmd has no answer exactly when nothing is waiting; otherwise it consumes at least one reply and keeps the rest in order |
| CapLink.ReceiveFirstReplyDecides | CapSensor.py:183-198 | a lone reply, or a first reply that is the 0xff marker or passes its checksum, gives exactly the one-frame result and is the only reply consumed |
| CapLink.StaleSumRejectsRetry | CapSensor.py:185-198 | because CKS is not reset, a correct reply waiting behind a corrupt one is rejected too and Rx_cmd returns 1 |
| CapImage.HexRoundTrip | CapSensor.py:576 | `"%x" % v` is a non-empty run of hex digits whose value is v |
| CapImage.ScanTokens | CapSensor.py:593-600 | re-scanning "0x%x," tokens with `0x[0-9a-fA-F]+` gives back exactly the written values |
| CapImage.RowRoundTrip | CapSensor.py:593-600 | one written row, with or without its newline, reads back as its values |
| CapImage.DataTxtLayout | CapSensor.py:570-587 | Data_Txt writes 64364 values, the n-th being the raw byte at the fixed-stride index RawIndex(n), and every index lies below 66208, inside one 66218-byte upload |
| CapImage.DataTxt | CapSensor.py:570-591 | the text has one line per row plus the tail line and scans back to exactly DataTxtValues; an upload shorter than 66208 bytes is the IndexError case |
| CapImage.WriteBlocks | CapSensor.py:572-579 | the 129 blocks of 8 rows give 1032 lines that scan back as BlockValues, skipping 14 bytes after each block |
| CapImage.WriteRows | CapSensor.py:573-584 | `count` rows of 62 tokens scan back as the next `count * 62` raw bytes |
| CapImage.WriteRow | CapSensor.py:575-577 | one row of tokens is the tokens of the next `count` raw bytes |
| CapImage.ReadDataTxt | CapSensor.py:593-600 | read_data_txt returns every hex token of every line, in order |
| CapImage.DataToImage | CapSensor.py:602-612 | pixel (x, y) is the value at `y * width + x`, or 0 past the end of the data |
| CapImage.RasterLayout | CapSensor.py:602-612 | with the 64364 values, value n lands at (n mod 242, n div 242) and the last 8 of the 242 x 266 pixels are 0 |
| CapImage.WholeUploads | CapSensor.py:825-833 | an upload of one or more whole 66218-byte blocks covers every index Data_Txt reads |
| CapIdList.EnrolledBelowSpec | CapSensor.py:745-755 | the decoded list is strictly ascending and holds exactly the marked ids up to 3000 |
| CapIdList.DecodeEnrolledIds | CapSensor.py:739-755 | a packet shorter than 10 bytes gives no list; otherwise the list is ascending and holds exactly the ids whose bit is set in the data after the header and that are at most 3000 |
| Store.Insert | CapSensor.py:298-303 | the insert fails exactly on an outside fault or a slot already in the table |
| Store.InsertThenLookup | OptSensor.py:316-320 | after an insert the table stays valid, the new slot names the new finger and every other slot answers as before |
| Store.NameAtFound | CapSensor.py:431-436 | a name is found for a slot exactly when some row holds it, and the name is that row's |
| Store.RowByIdFound | CapSensor.py:480-490 | a row is found for an id exactly when some row has that id, and it is that row |
| Store.DeleteRemovesOnlyThatRow | CapSensor.py:508-510 | deleting by id removes exactly that row, keeps the table valid and leaves every other row |
| CapFlow.Ask | CapSensor.py:183-198 | one exchange on the line: no answer exactly when no reply waits, otherwise a suffix of the replies is left, and nothing else of the line changes |
| CapFlow.Lift | CapSensor.py:259-260 | `while not CmdFingerDetect(back)` ends on an answer other than 0, or with the line silent |
| CapFlow.Press | CapSensor.py:263-264 | `while CmdFingerDetect(back)` ends on the answer 0, or with the line silent |
| CapFlow.Pull | CapSensor.py:825-833 | the upload bytes are the next waiting upload, whole blocks of bytes, or nothing when none waits |
| CapFlow.Sample | CapSensor.py:255-276 | the capture loop from pass i reports a loop variable between i and 2, saves at most one image, and blocks only on a silent line |
| CapFlow.Captures | CapSensor.py:251-276 | the three capture loops report a loop variable between 0 and 2 and never raise |
| CapFlow.EmptySlot | CapSensor.py:240-248 | the slot read back from `self.RPS` after GET_EMPTY_ID is a 16-bit value |
| CapFlow.Stored | CapSensor.py:295-317 | after STORE_CHAR the outcome is never ValueError, and it blocks only on a silent line |
| CapFlow.Searched | CapSensor.py:408-451 | the part of the search after the capture blocks exactly when no reply waits |
| CapFlow.EngagedAnswersLastDetect | CapSensor.py:256-265 | the opening answers with the FINGER_DETECT that follows the lift and press loops |
| CapFlow.SampledIffThreeZeros | CapSensor.py:256-276 | a pass takes a sample exactly when the last FINGER_DETECT, GET_IMAGE and GENERATE each answer 0 and the upload does not block |
| CapFlow.SavedIffBytes | CapSensor.py:269-276 | an image is saved exactly when the upload after GENERATE brought some bytes |
| CapFlow.OnlyLastLoopDecides | CapSensor.py:251-278 | what earlier capture loops ended with does not change the outcome of enroll_finger's loops |
| CapFlow.ThirdLoopDecides | CapSensor.py:251-278 | the loop variable tested by `if i == 2` is the third capture loop's |
| CapFlow.EnrolFailsOnLastLoop | CapSensor.py:278-281 | when the third capture loop ends with i = 2, enroll_finger returns 1 and leaves the table |
| CapFlow.MergeFailureStoresNothing | CapSensor.py:290-321 | a MERGE that does not answer 0 returns 1 (or blocks) with the table unchanged and nothing more exchanged; the MERGE is the only frame sent |
| CapFlow.MergeStoreInserts | CapSensor.py:290-321 | the tail succeeds exactly when MERGE and STORE_CHAR answer 0, the slot fits (as written) and the insert succeeds; only then does the table change, by that insert |
| CapFlow.EnrolChangesTableOnlyOnSuccess | CapSensor.py:234-321 | enroll_finger changes the table only on success, by inserting the row for the slot GET_EMPTY_ID named |
| CapFlow.InsertFailureBothWays | CapSensor.py:298-313 | on an insert failure, as written AttributeError with nothing exchanged; as intended one DEL_CHAR exchange, then the database error; the table is left either way; the undo frames are none as written and one DEL_CHAR as intended |
| CapFlow.WideSlotRaisesValueError | CapSensor.py:800-808 | as written, a slot from 256 on raises ValueError before STORE_CHAR goes out; below 256, and always as intended, the STORE_CHAR exchange happens |
| CapFlow.SearchReportsSlot | CapSensor.py:413-440 | a SEARCH answering 0 records the slot in `self.RPS` and reports the name stored for it, which exists exactly when a row holds that slot |
| CapFlow.SearchMissKeepsPosition | CapSensor.py:413-440 | a SEARCH not answering 0 reports no match and keeps the last recorded position |
| CapFlow.DeleteOnlyOnSuccess | CapSensor.py:475-524 | the row is deleted exactly when it exists and DEL_CHAR answers 0; an unknown id exchanges nothing |
| CapFlow.StoredFrames | CapSensor.py:295-317 | STORE_CHAR first and only once, never MERGE; then DEL_CHAR exactly when intended, STORE_CHAR answered 0 and the insert failed; a success sends STORE_CHAR only |
| CapFlow.StoreInsertFrames | CapSensor.py:295-317 | STORE_CHAR is sent exactly unless the slot is too wide as written; DEL_CHAR exactly as in CapFlow.StoredFrames; a success sends STORE_CHAR only |
| CapFlow.MergeStoreFrames | CapSensor.py:290-321 | MERGE first; STORE_CHAR exactly when MERGE answered 0 and the slot can be sent; DEL_CHAR exactly as intended after STORE_CHAR answered 0 and the insert failed; a success sends MERGE and STORE_CHAR and nothing else |
| CapFlow.EnrolTailFrames | CapSensor.py:234-321 | nothing follows the captures exactly when GET_EMPTY_ID or the captures block or the third loop ends with i = 2; a success sends MERGE and STORE_CHAR only; as written no DEL_CHAR is ever sent |
| CapFlow.SearchTailFrames | CapSensor.py:360-421 | one SEARCH follows the captures exactly when the capture neither blocked nor failed, and nothing else ever does; a report or a raise always comes after it |
| CapDriver.ExchangeAsks | CapSensor.py:165-198 | one exchange on the driver's state answers as CapFlow.Ask does on the line it holds |
| CapDriver.CapSensor.constructor | CapSensor.py:87-101 | `self.cmd` starts as the fixed 26-byte template and `self.rps` as zeros; the command header fields are set |
| CapDriver.CapSensor.TxCmd | CapSensor.py:165-181 | Tx_cmd is Transmit on the state: the buffer becomes the encoding over its old contents and is written |
| CapDriver.CapSensor.EncodeCommand | CapSensor.py:166-180 | the buffer becomes exactly the encoding of `self.CMD` over its previous contents |
| CapDriver.CapSensor.WriteHeader | CapSensor.py:166-174 | bytes 0-7 become the header and the rest is kept |
| CapDriver.CapSensor.CopyPayload | CapSensor.py:175-176 | bytes 8..8+LEN become DATA[0..LEN) and every other byte is kept |
| CapDriver.CapSensor.SumChecked | CapSensor.py:177-178 | the loop computes the sum of bytes 0..23 |
| CapDriver.CapSensor.RxCmd | CapSensor.py:183-198 | Rx_cmd is Receive on the state: replies consumed, `self.rps` and `self.RPS` updated, value returned |
| CapDriver.CapSensor.RxFrame | CapSensor.py:187-197 | one pass of the inner loop on the state consumes one reply and is exactly RxPass: it ends the call with RxPass's run, or goes on with its sum and decoded `self.RPS` |
| CapDriver.CapSensor.ReadFrame | CapSensor.py:188-189 | the next waiting reply is copied into `self.rps` and consumed |
| CapDriver.CapSensor.AddChecksum | CapSensor.py:194-195 | the 16-bit running sum grows by the sum of bytes 0..23 |
| CapDriver.CapSensor.Absorb | CapSensor.py:191-195 | `self.RPS` becomes the decoding of the frame just read and the running sum grows by the sum of its bytes 0..23 |
| CapDriver.CapSensor.RxCmdProcess | CapSensor.py:200-209 | `self.RPS` becomes the decoding of `self.rps` |
| CapDriver.CapSensor.CmdFingerDetect | CapSensor.py:771-775 | sets opcode FINGER_DETECT, length 0, and performs one exchange |
| CapDriver.CapSensor.CmdGetImage | CapSensor.py:777-781 | sets opcode GET_IMAGE, length 0, and performs one exchange |
| CapDriver.CapSensor.CmdGenerate | CapSensor.py:783-789 | sets opcode GENERATE, length 2, DATA[0..2) = k, 0, and performs one exchange |
| CapDriver.CapSensor.CmdMerge | CapSensor.py:791-798 | sets opcode MERGE, length 3, DATA[0..3) = k, 0, n, and performs one exchange |
| CapDriver.CapSensor.CmdStoreChar | CapSensor.py:800-808 | sets opcode STORE_CHAR, length 4, the intended slot parameters, and performs one exchange |
| CapDriver.CapSensor.SendDelChar | CapSensor.py:499-508 | sets opcode DEL_CHAR, length 4, start and end = k, and performs one exchange |
| CapDriver.CapSensor.CmdSearch | CapSensor.py:413-422 | sets opcode SEARCH, length 6, the search range, and performs one exchange with back = 0 |
| CapDriver.CapSensor.GetEnrolledIdList | CapSensor.py:836-840 | sets opcode GET_ENROLLED_ID_LIST, length 0, and reads the reply with the opposite `back` flag |
| CapDriver.CapSensor.GetUserCount | CapSensor.py:842-850 | sets opcode GET_ENROLL_COUNT with the range 1..3000 and reads the reply with the opposite `back` flag |
| CapDriver.CapSensor.DetectFinger | CapSensor.py:256-264 | one FINGER_DETECT frame is sent, and the answer and the line left are exactly CapFlow.Ask's |
| CapDriver.CapSensor.GrabImage | CapSensor.py:266 | one GET_IMAGE frame is sent, and the answer and the line left are exactly CapFlow.Ask's |
| CapDriver.CapSensor.MergeSamples | CapSensor.py:290 | one MERGE frame with DATA[0..3) = 0, 0, 3 is sent, and the answer and the line left are exactly CapFlow.Ask's |
| CapDriver.CapSensor.StoreTemplate | CapSensor.py:295 | one STORE_CHAR frame with the parameters for slot k and n = 0 is sent, and the answer and the line left are exactly CapFlow.Ask's |
| CapDriver.CapSensor.DeleteSlot | CapSensor.py:502-508 | one DEL_CHAR frame naming slot k as start and end is sent, and the answer and the line left are exactly CapFlow.Ask's |
| CapDriver.CapSensor.SearchSlots | CapSensor.py:413-422 | one SEARCH frame over first..last is sent, and the answer and the line left are exactly CapFlow.Ask's with back = 0 |
| CapDriver.CapSensor.AwaitLift | CapSensor.py:259-260 | polls only with FINGER_DETECT, and the answer and the line left are exactly CapFlow.Lift's |
| CapDriver.CapSensor.AwaitPress | CapSensor.py:263-264 | polls only with FINGER_DETECT, and the answer and the line left are exactly CapFlow.Press's |
| CapDriver.CapSensor.Engage | CapSensor.py:256-265 | only FINGER_DETECT frames, at least one; the answer and the line left are exactly CapFlow.Engaged's |
| CapDriver.CapSensor.SendUpImage | CapSensor.py:825-833 | sends UP_IMAGE_CODE with DATA[0] = 0, reads no reply, and takes exactly the upload CapFlow.Pull gives |
| CapDriver.CapSensor.CmdUpImageCode | CapSensor.py:810-834 | only capture frames are sent; the outcome and the line left are exactly CapFlow.UpImage's, and a returned upload follows an UP_IMAGE_CODE frame |
| CapDriver.CapSensor.CaptureAndUpload | CapSensor.py:821-834 | GET_IMAGE first; the outcome and the line left are exactly CapFlow.Grab's; without an upload only the GET_IMAGE frame is sent |
| CapDriver.CapSensor.SaveFingerprintImage | CapSensor.py:543-568 | appends one fresh 242 x 266 raster whose pixels are Data_Txt's values laid out row-major |
| CapDriver.CapSensor.CaptureAttempt | CapSensor.py:256-276 | one pass sends only capture frames with GENERATE into buffer a; the outcome, the line left and the images saved are exactly CapFlow.Try's |
| CapDriver.CapSensor.Generate | CapSensor.py:267-276 | GENERATE into the buffer comes first; the outcome, the line left and the images saved are exactly CapFlow.Generated's |
| CapDriver.CapSensor.UploadAndSave | CapSensor.py:269-276 | the outcome, the line left and the images saved are exactly CapFlow.UploadSaved's |
| CapDriver.CapSensor.CaptureSample | CapSensor.py:255-276 | up to three passes; the reported `i`, the line left and the images saved are exactly CapFlow.Sample's from pass 0 |
| CapDriver.CapSensor.CaptureAll | CapSensor.py:251-276 | the three capture loops send only capture frames; the reported `i` and the line left are exactly CapFlow.Captures's |
| CapDriver.CapSensor.GetEmptyId | CapSensor.py:240-248 | sends GET_EMPTY_ID with 01 00 B8 0B; the answer and the line left are CapFlow.Ask's and k is CapFlow.EmptySlot of the line |
| CapDriver.CapSensor.MergeAndStore | CapSensor.py:290-321 | MERGE 0, 3 first; the outcome, the line left and the table are exactly CapFlow.MergeStore's; the frames sent are exactly CapFlow.MergeStoreOps's, one per opcode and in order, so nothing follows a MERGE that does not answer 0; every STORE_CHAR carries slot k; as written no DEL_CHAR is sent, and an AttributeError leaves a STORE_CHAR sent |
| CapDriver.CapSensor.StoreAndInsert | CapSensor.py:295-317 | the outcome, the line left and the table are exactly CapFlow.StoreInsert's; ValueError exactly as written with k >= 256, and then nothing is sent; the frames sent are exactly CapFlow.StoreInsertOps's |
| CapDriver.CapSensor.StoreThenInsert | CapSensor.py:295-317 | STORE_CHAR first; the outcome, the line left and the table are exactly CapFlow.Stored's; the frames sent are exactly CapFlow.StoredOps's: STORE_CHAR, then DEL_CHAR only as intended after STORE_CHAR answered 0 and the insert failed; every STORE_CHAR carries slot k |
| CapDriver.CapSensor.InsertOrUndo | CapSensor.py:298-313 | the outcome, the line left and the table are exactly CapFlow.InsertUndo's; the frames sent are exactly CapFlow.InsertUndoOps's: none as written or after a successful insert, one DEL_CHAR otherwise; a database error follows a DEL_CHAR of slot k |
| CapDriver.CapSensor.EnrollFinger | CapSensor.py:234-326 | GET_EMPTY_ID with 01 00 B8 0B first, then capture frames up to `mark`, then exactly the frames CapFlow.EnrolTail names, and only GET_EMPTY_ID when it goes unanswered; the outcome, the line left and the table are exactly CapFlow.Enrol's; every STORE_CHAR carries the slot GET_EMPTY_ID named; as written no DEL_CHAR is sent and an AttributeError leaves the template stored |
| CapDriver.CapSensor.CaptureThenStore | CapSensor.py:251-321 | capture frames up to `mark`, then exactly CapFlow.CaptureMergeOps's frames; the outcome, the line left and the table are exactly CapFlow.CaptureMerge's; every STORE_CHAR carries slot k; as written no DEL_CHAR is sent |
| CapDriver.CapSensor.SearchFinger | CapSensor.py:328-456 | the outcome, the line left and the recorded position are exactly CapFlow.Search's; a failed capture sends only capture frames; the frames are capture frames up to `mark`, then exactly CapFlow.SearchTail's; a report or NameError follows a SEARCH over 1..3000 |
| CapDriver.CapSensor.SearchBounds | CapSensor.py:347-351 | the packed range splits back to 1 and 3000 |
| CapDriver.CapSensor.SearchAndReport | CapSensor.py:408-451 | exactly one frame, a SEARCH over the range; the outcome, the line left and the recorded position are exactly CapFlow.Searched's |
| CapDriver.CapSensor.SearchRange | CapSensor.py:413-440 | one SEARCH frame; the answer is CapFlow.Ask's; on 0 the position is RPS.DATA[0..2) and the name is the table's name for that slot; otherwise nothing is recorded |
| CapDriver.CapSensor.DeleteFinger | CapSensor.py:475-524 | the outcome, the line left and the table are exactly CapFlow.Delete's; an unknown id sends nothing; otherwise one DEL_CHAR naming the row's slot |
| OptLink.CommandConstants | OptSensor.py:23-24 | both constants are well-formed 12-byte command packets whose checksums 0x0005 and 0x000E are the sums of bytes 6..9 |
| OptLink.AckOf | OptSensor.py:137-138 | an empty response is no acknowledgement, one shorter than 10 bytes is short, otherwise its code is byte 9 |
| OptLink.ReassembleExtends | OptSensor.py:145-159 | the loop only ever appends to the image |
| OptLink.SkippedPacket | OptSensor.py:146-155 | a short header or a short payload leaves the image as it was |
| OptLink.AcceptedPacket | OptSensor.py:147-158 | a complete packet of another type appends exactly its payload |
| OptLink.EndPacketStopsEarly | OptSensor.py:145-162 | for every complete end packet, however few bytes arrived, the loop appends its payload and stops with the rest of the script unread |
| OptLink.FullImageStops | OptSensor.py:145-158 | a packet of another type that brings the count to 36864 ends the loop with the rest of the script unread |
| OptLink.Overshoot | OptSensor.py:145-158 | the count is tested only at the loop head, so the image can exceed 36864 bytes |
| OptLink.DownloadNeedsAck | OptSensor.py:136-139 | an image is read only after an acknowledgement with code 0; a short acknowledgement raises IndexError |
| OptBmp.NibblesSpec | OptSensor.py:177-180 | the decoded image is twice as long, and byte i gives pixels `b & 0xF0` then `(b & 0x0F) << 4` |
| OptBmp.NibblesAreBytes | OptSensor.py:177-180 | every decoded pixel is a byte with its low four bits clear |
| OptBmp.ExpandNibbles | OptSensor.py:175-180 | the loop builds exactly the decoded image |
| OptBmp.FileHeaderFields | OptSensor.py:182-184 | the file header starts with "BM" and reads back the file size and the pixel offset 1078 |
| OptBmp.DibHeaderFields | OptSensor.py:185-188 | the DIB header reads back size 40, width 256, height -288, 1 plane, 8 bpp, the image size and 256 colours |
| OptBmp.PaletteEntries | OptSensor.py:190 | palette entry i is (i, i, i, 0) |
| OptBmp.BmpLayout | OptSensor.py:182-193 | the file is 1078 + 2n bytes, its size field is its length, its fields read back as above, the palette follows the headers and the pixels start at offset 1078 |
| OptDriver.CaptureSucceeds | OptSensor.py:201-226 | capture_and_download succeeds exactly when both acknowledgements carry code 0, the image is non-empty and its BMP can be packed, and the saved image is the reassembled one |
| OptDriver.ScanAgreesWithCapture | OptSensor.py:243-266 | one scan pass ends with a saved image exactly when capture_and_download would succeed on the same line |
| OptDriver.ScanConsumes | OptSensor.py:243-266 | a scan pass on a line that is not silent always consumes input |
| OptDriver.ScanLoop | OptSensor.py:243-266 | a scan loop ends with a non-empty image whose BMP can be packed, with IndexError, or hung on a silent line with nothing left |
| OptDriver.ScanLoopFirstPass | OptSensor.py:243-266 | a first pass that saves ends the loop with its image; a pass that asks again hands the loop on to the rest of the line |
| OptDriver.ScanLoopWritesShape | OptSensor.py:243-266 | a scan loop on a line that is not silent writes GenImg first, and only GenImg and UpImage |
| OptDriver.SavingLoopEndsWithUpImage | OptSensor.py:243-266 | a scan loop that saves an image ends with the UpImage of the saving pass |
| OptDriver.BothScansWritesShape | OptSensor.py:239-302 | steps 1 and 2 write only GenImg and UpImage, GenImg first; when both scans save, the second loop's GenImg follows the first loop's final UpImage |
| OptDriver.BothScans | OptSensor.py:239-299 | steps 1 and 2 succeed exactly when both scan loops save an image, the second on the line the first leaves |
| OptDriver.ScanCalls | OptSensor.py:268-302 | convertImage into buffers 1 and 2 are both called exactly when both scans succeed |
| OptDriver.CaptureFiles | OptSensor.py:201-226 | capture_and_download writes one BMP exactly when it succeeds, and none otherwise |
| OptDriver.ScanFiles | OptSensor.py:243-302 | one BMP per scan loop that saved an image, as many as the convertImage calls; two exactly when both scans succeed |
| OptDriver.PollCalls | OptSensor.py:405-410 | at most one readImage call per poll |
| OptDriver.PollCallsStop | OptSensor.py:405-410 | the polling makes only readImage calls and stops right after the first poll that sees a finger, one call per earlier poll; every poll is made when none does |
| OptDriver.EnrolCallsOrder | OptSensor.py:268-314 | createTemplate and storeTemplate are called exactly after both scans and a non-zero score, in that order; a zero score stops after the comparison; nothing is deleted |
| OptDriver.OptSensor.constructor | OptSensor.py:37-42 | the table starts empty (it is dropped and re-created) and no match is recorded |
| OptDriver.OptSensor.Read | OptSensor.py:124 | `ser.read(n)` takes the next chunk cut to n bytes, or nothing |
| OptDriver.OptSensor.SendCommand | OptSensor.py:121-128 | writes the packet and reads a 12-byte acknowledgement |
| OptDriver.OptSensor.ReadImageData | OptSensor.py:131-169 | read_image_data writes UpImage and returns exactly ReadImage of the line, keeping `bytes_received == len(image_data)` |
| OptDriver.OptSensor.SaveBmp | OptSensor.py:171-199 | succeeds exactly when the BMP can be packed, and then writes exactly BmpFile(image) |
| OptDriver.OptSensor.CaptureAndDownload | OptSensor.py:201-226 | the outcome, the line left over and the saved file are exactly CaptureSpec's; the commands written are exactly ScanWrites: GenImg, then UpImage exactly when GenImg is acknowledged with code 0 |
| OptDriver.OptSensor.Scan | OptSensor.py:244-266 | one pass of a scan loop is exactly ScanSpec; it writes GenImg, then UpImage exactly when GenImg is acknowledged with code 0 (ScanWrites); a file is written only for a saved image |
| OptDriver.OptSensor.ScanUntilSaved | OptSensor.py:243-266 | the outcome and the line left are exactly OptDriver.ScanLoop's; the commands written across all passes are exactly ScanLoopWrites; one file is written for a saved image |
| OptDriver.OptSensor.CaptureBothScans | OptSensor.py:239-302 | the outcome and the line left are exactly OptDriver.BothScans's, the calls are exactly ScanCalls and the files written exactly ScanFiles, one BMP per scan loop that saved an image; both are written when both scans succeed; the commands written are exactly BothScansWrites, the first scan loop's and then, after a saved image, the second's |
| OptDriver.OptSensor.EnrollFinger | OptSensor.py:228-333 | the line left is BothScans's; if a scan loop fails that is the outcome; otherwise a zero score raises Mismatch, a failed insert DbError, else success with storeTemplate's position naming the finger; the calls are exactly EnrolCalls, the files written exactly ScanFiles, the commands written exactly BothScansWrites (nothing after the scans), and the table changes only on success |
| OptDriver.OptSensor.PollForFinger | OptSensor.py:405-410 | readImage is polled until it reports a finger, which happens exactly when some poll is true; the calls made are exactly PollCalls(polls) |
| OptDriver.OptSensor.SearchFinger | OptSensor.py:386-456 | a timeout exactly when no poll sees a finger, with the line untouched; otherwise the line left is CaptureSpec's, the search runs exactly when the capture succeeds and hangs exactly when it hangs; is_match exactly when the position is at least 0; a name only on a match; the calls are exactly PollCalls(polls), then convertImage into buffer 1 and searchTemplate only on a successful capture; the files written are exactly CaptureFiles and the commands written exactly ScanWrites (one GenImg, then UpImage on acknowledgement 0) unless the polls time out, when nothing is written |
| OptDriver.OptSensor.DeleteFinger | OptSensor.py:335-371 | an unknown id returns False with no library call; otherwise deleteTemplate names the row's slot and the row is removed exactly when the library reports success |

## Left out

- Serial I/O is not modelled as I/O. `ser.write`, `ser.read`, `inWaiting`, sleeps, port reopening and the reconnect handlers are replaced by the scripted line described above.
- Wall-clock time is left out: timestamps, elapsed-time reports, and the 10-second readImage timeout. The timeout is modelled as running out of scripted polls.
- `CapDriver.CapSensor.CmdUpImageCode`: the upload is taken from the script as a whole. The byte-by-byte read of 66218-byte blocks and the timing that decides how many blocks arrive are not modelled; uploads are assumed to be whole multiples of 66218 bytes.
- The raw id-list read in `RpsGetEnrolledIdList` is left out. The packet is an input of `CapIdList.DecodeEnrolledIds`, and the handler's logging is not modelled.
- `list_enrolled_fingers`, the table DDL and the database connection handling are left out. The table is a value; only the statements the workflows issue are modelled.
- The spoof detectors and model loading (torch, torchvision, PIL) are left out. They are floating-point neural network inference.
- PIL `Image.save` and all file writes are left out. The raster (capacitive) and the file bytes (optical) are kept, but not file names or directories.
- Threads, UI callbacks and log and print strings are left out.
  - The one callback with control effect is modelled: whether a search report is due (`notify` in `CapDriver.CapSensor.SearchFinger`).
  - The optical timeout path calls `update_ui_callback` without checking it for None. That failure is not modelled.
- The pyfingerprint library is an oracle. Its own exceptions are not modelled.
  - `OptDriver.OptSensor.DeleteFinger` takes the delete result as a boolean. The `except` that turns a library exception into False is therefore not modelled.
- `CapImage.DataTxt`: the source raises IndexError on an upload shorter than 66208 bytes. The model returns None instead, and `save_fingerprint_image` is only called with a full upload.
- `CapDriver.CapSensor.SaveFingerprintImage` requires a full upload. In the source a short upload raises IndexError inside the workflow; that path is not modelled.
- `CapLink.RxPass`: every scripted reply counts as already waiting. After a reply that fails its checksum, the source reads a further reply in the same `Rx_cmd` call only if its bytes have already arrived (`inWaiting() > 0`, CapSensor.py:186-198). Otherwise the call returns 1 and the next reply is left for the next command. The model goes on to the next scripted reply whenever there is one (so do `CapLink.RxLoop` and `CapLink.Receive`). It therefore matches the source only when the corrupt reply is the last one scripted or the next reply was already on the line.
- `CapDriver.CapSensor.CmdStoreChar` builds the intended parameters, DATA[0..2) = k little-endian. The parameters as written are `CapFrame.StorePayloadAsWritten`. They differ only from slot 256 on, where the code's own serial write raises ValueError; that failure is modelled one level up, in `StoreAndInsert`.
- `CapDriver.CapSensor.StoreTemplate` inherits the same limit. It sends the intended frame and is called only when the slot is below 256 or the variant is `Intended`.
- `CapDriver.CapSensor.StoreAndInsert`: on ValueError the source has already set `self.CMD` and encoded the frame into `self.cmd`, with byte 8 equal to k >= 256, when `ser.write` fails. The model raises before either is touched, and its contract does not state what they then hold. In the source that byte stays. Every later command without data (FINGER_DETECT and GET_IMAGE, CapSensor.py:771-781) writes the same buffer and raises ValueError too. This goes on until a command with data (GET_EMPTY_ID, GENERATE, SEARCH, DEL_CHAR) overwrites byte 8. The model's sensor goes on exchanging frames normally after the ValueError.
- main_window.py (the Qt interface) and main.py (its entry point) are not part of this model.

## Findings

| source | as written | input that shows it | evidently intended | confidence | as-written member | corrected member |
|---|---|---|---|---|---|---|
| CapSensor.py:312 | the database-error handler calls `self.CmdDelChar(k, 0, 0)`, which the class does not define, so an AttributeError replaces the database error and the stored template stays on the device | any enrolment whose insert fails, for example one whose slot k is already in the table | send DEL_CHAR for slot k (start = end = k, as delete_finger does), then re-raise the database error | not executed | CapFlow.InsertFailureBothWays | CapDriver.CapSensor.InsertOrUndo |
| CapSensor.py:803-804 | CmdStoreChar writes the 16-bit slot k unmasked into DATA[0] and 0 into DATA[1] | k = 300, a slot GET_EMPTY_ID can return; frame byte 8 becomes 300, which the serial write rejects | DATA[0..2) = k little-endian, as every other slot parameter is written | not executed | CapFlow.WideSlotRaisesValueError | CapFrame.StoreFrameIsBytes |
