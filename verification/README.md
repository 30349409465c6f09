# Head-unit kernel modules: a verified model

This project models the parts of the Android/Qualcomm head-unit kernel modules that
carry algorithmic state, and proves what they guarantee over every input and every run.
`dafny verify dfyconfig.toml` checks all of it.

| file | models |
|---|---|
| `FirmwareBurner.dfy` | the GT910 flashless firmware burner: chunked I2C transfers, nested retries, banked SRAM, read-back check |
| `PointQueue.dfy`, `PressOrder.dfy`, `FingerTracker.dfy` | the GT801 finger tracker over an in-place array queue |
| `SlotWalk.dfy` | the GT911 slot report, a bit set that grows while it is walked |
| `Decimal.dfy`, `KeyValue.dfy`, `FileServer.dfy` | the configuration key/value store: parsing, printing, reloading with callbacks |
| `FtUpgrade.dfy`, `FtPower.dfy` | the FT5x06 firmware upgrade, and its suspend/resume with regulator rollback |
| `LogFifo.dfy`, `MsgRing.dfy` | the evicting log FIFO and the message ring, under every interleaving |
| `Fastboot.dfy` | the fastboot suspend thread and the callbacks around it |
| `RegisterField.dfy` | bit fields of 32-bit registers |
| `Bits.dfy`, `Overwrite.dfy` | machine words bit by bit; overwriting part of a memory |

## How it is modelled

Bytes and words are bounded integers, so truncation and wrap-around are written out
(`% 256`, `% 0x10000`, `Low(a, 32)`). State that the drivers change in place is a class
whose methods are proved against functions or invariants; the whole-run theorems are
lemmas over all sequences of steps of those functions. What the drivers cannot control
is a parameter: the outcome of the k-th bus transfer is `script(k)` for an arbitrary
function `script`, regulator faults, poll results and device bytes are arbitrary
arguments, and concurrent threads are arbitrary interleavings of atomic steps.

A failed I2C write may have delivered any prefix of its payload. An acknowledged write
may even have been stored as other bytes (`Garbled`): burn mode reads everything back,
so its theorem needs no assumption about that, while ESD recovery, which skips the
check, needs one (`Faithful`).

## What the proofs say about the code

- The burner drops the result of the bank select for the ss51 sections. Success means
  burnt if every select of the last attempt took effect; on a faithful bus it means burnt
  exactly when each bank passed over held its half already; `StaleBank` constructs a run that
  reports success over a bank 0 that was never written. A fifth attempt that succeeds is
  reported as failure (`FifthAttempt`).
- `set_up_point` tests the wrong variable and would write in front of the array for a
  finger that is not queued; the queue invariant shows that this cannot happen.
- An int saved to the configuration file survives a reload exactly when it is not
  negative (`simple_strtoul` reads a minus sign as 0). Otherwise a reload restores all
  that was saved and calls exactly the handlers of what had changed (`ReloadRestores`).
- The six tail bytes of an FT5x06 image go to 0x6ffa and overwrite the code of a longer
  image; the code arrives intact exactly when the overlapped bytes agree, and
  `ClobberedUpgrade` gives files for which they do not and the upgrade succeeds. Without
  `force` the version test never lets an upgrade start, because the file has no minor version.
- A failed regulator rollback unbalances the main supply by one, for good unless a
  failure in the other direction happens to undo it; nothing else does.
- The message ring prints every message whole and in order exactly as long as no more
  than 50 writes are started ahead of the prints; one more, and `Torn` prints a mixture.
- Nothing orders the counting of a quick resume in the fastboot thread with the reset in
  `fastboot_resume`. A reset between the store and the quick resume leaves one uncounted,
  so that the limit is exceeded by one, never by more; a reset between the load and the
  store is lost, and the count stands too high (`LostReset`). A suspend can be forced on the strength of polls that all came
  before the last device resume (`StaleForce`).
- The GT911 walk reports the longest strictly ascending run of ids below five, reading
  on into the byte behind the last record.
- In the register functions a field width of 0 means all 32 bits.

## Model

| member | source | states |
|---|---|---|
| `FirmwareBurner.Driver.FwDownloadProc` | drivers/touchscreen/gt910fm_update.c:948-1057 | for any pattern of broken, garbled and retried transfers: success is reported exactly when one of the first four attempts goes through, and then the image checksum is zero; every bank is what the three parts, in the banks really selected, left over the chip the attempt found, which decides whether the image is burnt; with no select lost it is; on a faithful bus it is if and only if each bank passed over held its half already (or the halves are the same); ESD recovery needs faithful writes |
| `FirmwareBurner.BurntExactly` | drivers/touchscreen/gt910fm_update.c:756-946 | wherever the three parts went and whatever the chip held: the image is burnt if and only if the parts in those banks over that chip make it up |
| `FirmwareBurner.CompletesFaithfully` | drivers/touchscreen/gt910fm_update.c:882-946 | what that means for the banks a faithful bus can produce: each bank passed over held its half already, or the halves are the same |
| `FirmwareBurner.Driver.OneTry` | drivers/touchscreen/gt910fm_update.c:1003-1023 | one attempt: on success every bank is what the three parts, in the banks really selected, left in it; the banks are 0, 1 and 2 exactly when no select was lost |
| `FirmwareBurner.StaleBank` | drivers/touchscreen/gt910fm_update.c:909-926 | a run in which exactly the first bank select is lost ends in success with bank 0 untouched and the image not burnt |
| `FirmwareBurner.FifthAttempt` | drivers/touchscreen/gt910fm_update.c:1003-1029 | a run whose first four attempts are dead and whose fifth burns the image is reported as failure |
| `FirmwareBurner.Driver.DownloadFwSs51` | drivers/touchscreen/gt910fm_update.c:882-946 | on success each half of the code is in the bank that was really selected, no other bank changed, and those banks are 0 and 1 exactly when no select was lost; on a faithful bus the second half went to bank 1 or over the first |
| `FirmwareBurner.Driver.BurnHalf` | drivers/touchscreen/gt910fm_update.c:896-938 | one half goes to the bank the register holds, whatever became of the select; on a faithful bus that is the requested bank or the previous one |
| `FirmwareBurner.Driver.DownloadFwDsp` | drivers/touchscreen/gt910fm_update.c:756-812 | on success the DSP code fills the start of the bank really selected, whose rest and all other banks are as before; on a faithful bus that is bank 2 |
| `FirmwareBurner.Driver.Program` | drivers/touchscreen/gt910fm_update.c:769-810 | burn, and in burn mode check: success means the window shows the payload, and only cells of the window in the selected bank changed |
| `FirmwareBurner.Driver.CheckFwProc` | drivers/touchscreen/gt910fm_update.c:829-880 | success implies that the chip shows exactly the section of the image; on a clean bus, if and only if |
| `FirmwareBurner.Driver.CheckPiece` | drivers/touchscreen/gt910fm_update.c:848-867 | one piece compares equal only if the chip shows it |
| `FirmwareBurner.Driver.Compare` | drivers/touchscreen/gt910fm_update.c:854-863 | the loop decides equality of the two stretches |
| `FirmwareBurner.CheckUpdateFile` | drivers/touchscreen/gt910fm_update.c:737-752 | accepts exactly the images whose 16-bit words sum to 0 modulo 65536, an image of zeros among them; the 32-bit sum never overflows |
| `FirmwareBurner.WordSumSnoc` | drivers/touchscreen/gt910fm_update.c:739-742 | the running sum is the sum of the words read so far |
| `FirmwareBurner.WordSumConcat` | drivers/touchscreen/gt910fm_update.c:738-742 | a word counts 256 times its first byte plus its second, and stretches of words add up |
| `FirmwareBurner.WordChanged` | drivers/touchscreen/gt910fm_update.c:738-749 | another word in the place of one moves the sum by exactly their difference |
| `FirmwareBurner.ZerosPass` | drivers/touchscreen/gt910fm_update.c:738-749 | zeros sum to zero |
| `FirmwareBurner.Driver.WriteBytes` | drivers/touchscreen/gt910fm_update.c:216-254 | over faithful transfers a reported success is the store of the buffer piece by piece, each piece under the bank in force when it starts; unless the range contains the bank register that is one flat store, and even a failed transfer changes nothing outside the range; at most 25 transfers for each started 1024 bytes, and failure only after 25 failed ones in a row |
| `FirmwareBurner.ChunkedFlat` | drivers/touchscreen/gt910fm_update.c:221-251 | the pieces are one flat store unless the bank register lies in the range |
| `FirmwareBurner.Driver.WriteChunk` | drivers/touchscreen/gt910fm_update.c:222-248 | five rounds of five attempts are one run of at most 25 attempts at the addressed chunk |
| `FirmwareBurner.Driver.GupWrite` | drivers/touchscreen/gt910fm_update.c:191-214 | up to five attempts at the message in the buffer, addressed by its two header bytes |
| `FirmwareBurner.TriesSplit` | drivers/touchscreen/gt910fm_update.c:206-239 | nested retry loops equal one longer retry loop |
| `FirmwareBurner.TriesStore` | drivers/touchscreen/gt910fm_update.c:191-254 | any number of partial attempts stays inside the range, and an acknowledged faithful one leaves exactly the payload |
| `FirmwareBurner.TriesBelow` | drivers/touchscreen/gt910fm_update.c:319-343 | retried register writes touch no other register and no SRAM; an acknowledged faithful one stores its bytes, and on a faithful bus each byte is new or as before |
| `FirmwareBurner.TriesDead` | drivers/touchscreen/gt910fm_update.c:191-214 | transfers that break off before their first payload byte leave the chip as it was and use up every attempt |
| `FirmwareBurner.TriesEnd` | drivers/touchscreen/gt910fm_update.c:191-254 | retried transfers go through exactly if one of the window does, end with the first that does, and use the whole window otherwise |
| `FirmwareBurner.StoreChunks` | drivers/touchscreen/gt910fm_update.c:221-251 | consecutive chunks compose to one store of their concatenation |
| `FirmwareBurner.StoreOver` | drivers/touchscreen/gt910fm_update.c:233-240 | rewriting a range erases what broken attempts left in it |
| `FirmwareBurner.Driver.ReadBytes` | drivers/touchscreen/gt910fm_update.c:256-293 | success means that the buffer is exactly the visible range, with the same bound on transfers; failure only after 25 failed ones in a row |
| `FirmwareBurner.Driver.ReadChunk` | drivers/touchscreen/gt910fm_update.c:273-280 | fails exactly if all of its 25 attempts do; on success the shared buffer holds the visible bytes |
| `FirmwareBurner.Driver.GupRead` | drivers/touchscreen/gt910fm_update.c:150-177 | fails exactly if all of its five attempts do; a result of 2 means the payload is what the chip shows, and the address bytes survive |
| `FirmwareBurner.Driver.SetIcMsg` | drivers/touchscreen/gt910fm_update.c:319-343 | one register write tried at most 25 times |
| `FirmwareBurner.Driver.SelectBank` | drivers/touchscreen/gt910fm_update.c:908-909 | a reported success over faithful transfers selects the bank, and a failure there leaves the old one or the new one; SRAM is never touched |
| `PointQueue.Queue.DelPoint` | drivers/touchscreen/goodix_queue1.h:41-55 | in place, the live entries become exactly those still down, in their order |
| `PointQueue.Queue.RemoveAt` | drivers/touchscreen/goodix_queue1.h:50-53 | the shift removes one live entry and keeps the others in order |
| `PointQueue.Queue.AddPoint` | drivers/touchscreen/goodix_queue1.h:66-74 | appends a pressed entry, refuses exactly when full or negative |
| `PointQueue.Queue.SearchPoint` | drivers/touchscreen/goodix_queue1.h:85-95 | the first live entry with the number, or that there is none |
| `PointQueue.Queue.SetUpPoint` | drivers/touchscreen/goodix_queue1.h:106-118 | marks exactly one live entry of that finger released |
| `PointQueue.DelStep` | drivers/touchscreen/goodix_queue1.h:45-54 | one step of the backward walk extends the filtered part |
| `PressOrder.OrderIsHeld` | drivers/touchscreen/gt801.c:505-528 | after any history of masks the queue holds exactly the fingers of the last mask |
| `PressOrder.OrderIsChronological` | drivers/touchscreen/gt801.c:505-528 | after any history the queue is sorted by the frame in which each finger was pressed, then by number |
| `PressOrder.KeepChronological` | drivers/touchscreen/goodix_queue1.h:41-55 | the surviving fingers keep press order |
| `PressOrder.NewsChronological` | drivers/touchscreen/gt801.c:512-528 | new fingers are appended in ascending order |
| `FingerTracker.Run` | drivers/touchscreen/gt801.c:403-714 | any run of accepted and rejected frames: the slots are exactly the fingers of the last accepted frame, each with its own record of that frame; finger_bit and the queue are those of the accepted masks, and the queue is in press order |
| `FingerTracker.Tracker.WorkFunc` | drivers/touchscreen/gt801.c:473-703 | one interrupt keeps the invariant (all entries down, distinct, exactly the bits of finger_bit, slots equal the mask); an accepted frame gives every pressed slot the coordinates of its own record, a rejected one changes nothing |
| `FingerTracker.Tracker.Track` | drivers/touchscreen/gt801.c:549-703 | decode, report and delete turn the marked queue into the queue of the new mask |
| `FingerTracker.Tracker.Diff` | drivers/touchscreen/gt801.c:506-528 | the shift loop marks exactly the released fingers and appends exactly the new ones |
| `FingerTracker.Tracker.Press` | drivers/touchscreen/gt801.c:521-525 | add_point never refuses |
| `FingerTracker.Tracker.Release` | drivers/touchscreen/gt801.c:516-520 | set_up_point always finds its entry |
| `FingerTracker.Tracker.Decode` | drivers/touchscreen/gt801.c:549-585 | every pressed entry takes its own record, numbers and states stay |
| `FingerTracker.DecodeOne` | drivers/touchscreen/gt801.c:552-584 | the finger's own record, pressure included, swapped, and mirrored at the resolution of lines 27-28 in 32-bit arithmetic; a released entry is zeroed |
| `FingerTracker.RawRecord` | drivers/touchscreen/gt801.c:559-575 | reads the two coordinates and the pressure of the finger's own record, inside the 35 bytes |
| `FingerTracker.Tracker.ReportSlots` | drivers/touchscreen/gt801.c:598-611 | the slot events in queue order |
| `FingerTracker.Reported` | drivers/touchscreen/gt801.c:598-611 | after the reports a slot is active exactly when its finger is in the mask |
| `FingerTracker.DiffedNext` | drivers/touchscreen/gt801.c:512-528 | what del_point leaves is survivors followed by new fingers |
| `FingerTracker.DiffedDistinct` | drivers/touchscreen/gt801.c:512-528 | throughout the loop the queue holds distinct fingers below five |
| `FingerTracker.Retracked` | drivers/touchscreen/gt801.c:702-703 | after del_point the queue tracks the new mask |
| `FingerTracker.Room` | drivers/touchscreen/goodix_queue1.h:68-69 | a queue of distinct fingers without this one is not full |
| `FingerTracker.NoMore` | drivers/touchscreen/gt801.c:512 | stopping when the remaining difference is zero misses nothing |
| `FingerTracker.Checksum` | drivers/touchscreen/gt801.c:473-503 | the gate accepts exactly the frames whose mask-dependent stretch sums to the check byte |
| `FingerTracker.AcceptedExactly` | drivers/touchscreen/gt801.c:473-503 | for fingers 0, and for 1, and for more: bytes 1 to 7, 12 or 33 must sum to byte 8, 13 or 34 modulo 256 |
| `FingerTracker.Sealed` | drivers/touchscreen/gt801.c:473-503 | a frame that carries its sum is accepted |
| `FingerTracker.Corrupted` | drivers/touchscreen/gt801.c:473-503 | an accepted frame is rejected once any one summed byte is changed, if its mask asks for the same stretch |
| `FingerTracker.MaskBits` | drivers/touchscreen/gt801.c:505 | the fingers of a frame are the low five bits of byte 1 |
| `FingerTracker.RecordsApart` | drivers/touchscreen/gt801.c:559-584 | coordinates put into a finger's own bytes are what is reported of it, swapped and mirrored at 1024 by 600 in 32-bit arithmetic, and of no other finger |
| `SlotWalk.AllReported` | drivers/touchscreen/gt911_25q.c:399-436 | for every frame and every n: the walk consumes exactly the first n records if and only if their ids ascend below five and the next id does not continue the ascent below five |
| `SlotWalk.WalkFaithful` | drivers/touchscreen/gt911_25q.c:399-436 | for every frame: the touched slots are exactly the ids of the frame if and only if orderly records come first and the others repeat their ids; for distinct ids, if and only if the whole frame is orderly |
| `SlotWalk.Tracker.Walk` | drivers/touchscreen/gt911_25q.c:394-436 | for arbitrary bytes: active slots, pre_touch and the longest ascending run of ids agree, each such slot has its own record, and no read leaves the 44-byte buffer |
| `SlotWalk.StandingDown` | drivers/touchscreen/gt911_25q.c:409-420 | an id met in the growing set is always the pending one |
| `SlotWalk.AscentIs` | drivers/touchscreen/gt911_25q.c:407-436 | the run is ascending, below five and cannot be extended |
| `SlotWalk.RecordsApart` | drivers/touchscreen/gt911_25q.c:258-271 | what is put into a record, low bytes first, is what is reported, swapped and then mirrored at 1024 by 600; the other records are untouched |
| `SlotWalk.AcceptedExactly` | drivers/touchscreen/gt911_25q.c:355-372 | the gates in the bits of the status byte: bit 7 set, at most five in the low four bits |
| `SlotWalk.Tracker.WorkFunc` | drivers/touchscreen/gt911_25q.c:346-436 | one interrupt, with its gates: an accepted frame leaves exactly the slots the walk reports, swapped and mirrored as set when each is reported, a rejected one changes nothing; pre_touch stays equal to the active slots |
| `SlotWalk.Run` | drivers/touchscreen/gt911_25q.c:320-436 | after any run, with swap and mirror set anew at every report, the active slots are those the walk reports for the last accepted frame, each with the record of its id |
| `Decimal.DecRoundTrip` | core/lidbg_fs_keyvalue.c:245-328 | a printed int reads back as itself if it is not negative, and as 0 otherwise |
| `Decimal.ParseDigits` | core/lidbg_fs_keyvalue.c:327 | the digit loop inverts decimal printing |
| `Decimal.NoLeadingZero` | core/lidbg_fs_keyvalue.c:327 | printed positive ints are never taken for octal or hexadecimal |
| `Decimal.Bases` | core/lidbg_fs_keyvalue.c:327 | hexadecimal behind 0x and a digit, octal behind another leading zero, else decimal |
| `Decimal.ParseNext` | core/lidbg_fs_keyvalue.c:327 | one more digit multiplies by the base and adds its value, in any base |
| `Decimal.ParseStops` | core/lidbg_fs_keyvalue.c:327 | what follows the digits does not count |
| `Decimal.ToIntExactly` | core/lidbg_fs_keyvalue.c:327 | an unsigned long stored in an int is kept modulo 2^32 |
| `KeyValue.ReloadSilent` | core/lidbg_fs_keyvalue.c:228-354 | for distinct, well-formed keys: reloading the file just saved changes no variable and fires no callback if and only if no registered int outside comment lines is negative |
| `KeyValue.ReloadRestores` | core/lidbg_fs_keyvalue.c:228-354 | reloading a file saved at another time, for distinct well-formed keys: every int whose line counts takes the value saved, 0 for a negative one, and all others keep theirs; if no two entries share an int, the handlers called are, in list order, those of the ints and texts that differed, each with the text of its line |
| `KeyValue.IntRestored` | core/lidbg_fs_keyvalue.c:228-354 | a registered int that was not negative is back after the reload, whatever it was set to meanwhile |
| `KeyValue.LinesRestore` | core/lidbg_fs_keyvalue.c:308-343 | the same from any line on, for any state met there |
| `KeyValue.LineRestores` | core/lidbg_fs_keyvalue.c:321-343 | one saved line sets its int to the value saved and calls its handler exactly if that is a change |
| `KeyValue.LineBack` | core/lidbg_fs_keyvalue.c:308-343 | a saved line reaches the entry it was printed from and no other |
| `KeyValue.QuietLines` | core/lidbg_fs_keyvalue.c:308-343 | every saved line of a list without negative ints is silent |
| `KeyValue.LinesLift` | core/lidbg_fs_keyvalue.c:325-335 | a negative int is replaced by the reload and never comes back |
| `KeyValue.FillOfSave` | core/lidbg_fs_keyvalue.c:155-257 | filling an empty list from the saved text gives, reversed, exactly the saved entries whose line is not dropped, with their values as text |
| `KeyValue.FillTwice` | core/lidbg_fs_keyvalue.c:155-257 | a second save and fill restores the order |
| `KeyValue.SaveTokens` | core/lidbg_fs_keyvalue.c:209-249 | the lines of the saved text are the printed entries and one empty token |
| `KeyValue.CutAt` | core/lidbg_fs_keyvalue.c:57-67 | splitting at the first '=' inverts printing |
| `KeyValue.LinesCons` | core/lidbg_fs_keyvalue.c:209 | strsep cuts off exactly the first line |
| `KeyValue.LineTaken` | core/lidbg_fs_keyvalue.c:209-224 | an empty line and one that begins with #, carriage return or DC2 leave no entry; every other line leaves one, in front |
| `FileServer.StrSep` | core/lidbg_fs_keyvalue.c:209 | the token and the rest are the tokens of the text |
| `FileServer.Store.SplitKv` | core/lidbg_fs_keyvalue.c:57-67 | every entry of the list is split in place |
| `FileServer.Store.FillList` | core/lidbg_fs_keyvalue.c:155-226 | kept lines are put in front, then the whole list is split; an empty file changes nothing |
| `FileServer.Store.SaveListToFile` | core/lidbg_fs_keyvalue.c:228-257 | the text is the printed entries in list order, each line inside its 100-byte buffer |
| `FileServer.Store.UpdateKey` | core/lidbg_fs_keyvalue.c:321-343 | every entry with the key sees the value, in order |
| `FileServer.Store.UpdateList` | core/lidbg_fs_keyvalue.c:259-354 | the text is applied line by line |
| `FileServer.Store.SaveAndReload` | core/lidbg_fs_keyvalue.c:228-354 | saving and reloading leaves variables and callbacks alone exactly when no registered int is negative |
| `FileServer.Store.GetIntValue` | core/lidbg_fs_keyvalue.c:9-41 | the first entry with the key gets the int, in place of its text, and the callback, or passes on the int it has; the return codes |
| `FileServer.RegisterKeepsLine` | core/lidbg_fs_keyvalue.c:27-32 | registering an int over a plain decimal text leaves the saved line as it was |
| `FtUpgrade.Programmed` | drivers/touchscreen/ft5406_ts.c:707-762 | replaying the packets puts the tail at 0x6ffa and reproduces the code if and only if the tail does not clobber it, in particular whenever size - 8 <= 0x6ffa |
| `FtUpgrade.ClobberedUpgrade` | drivers/touchscreen/ft5406_ts.c:707-762 | for every code longer than 0x6ffa bytes there is a well-formed file whose upgrade succeeds and leaves another code in the flash |
| `FtUpgrade.LongImagePasses` | drivers/touchscreen/ft5406_ts.c:119-122 | such a file passes the format check, and its tail is harmless exactly when the code ends at 0x6ffa or before |
| `FtUpgrade.ExactlyOnce` | drivers/touchscreen/ft5406_ts.c:715-748 | every byte travels in exactly one packet, under its own address, and no packet covers another address |
| `FtUpgrade.Program` | drivers/touchscreen/ft5406_ts.c:707-762 | for every size from 8 to 32768 the packets carry exactly the code from 0, in as few packets of 128 bytes as possible, and the tail from 0x6ffa in six, and the checksum is the XOR of all bytes sent |
| `FtUpgrade.Send` | drivers/touchscreen/ft5406_ts.c:716-728 | the six header bytes, with address and length high byte first; header and payload agree, neither field is truncated |
| `FtUpgrade.CopyPayload` | drivers/touchscreen/ft5406_ts.c:722-725 | the payload is copied inside the buffer and folded into the checksum |
| `FtUpgrade.SetHeader` | drivers/touchscreen/ft5406_ts.c:716-720 | address and length decode to what was put in |
| `FtUpgrade.ReplayCarries` | drivers/touchscreen/ft5406_ts.c:715-762 | a gapless packet stream is one flat write |
| `FtUpgrade.EccOfChecked` | drivers/touchscreen/ft5406_ts.c:119-122 | for a file that passes the format check the checksum of all bytes sent is the complement of the checksum of the code |
| `FtUpgrade.PairsCancel` | drivers/touchscreen/ft5406_ts.c:119-122 | the three complement pairs cover exactly the six tail bytes |
| `FtUpgrade.FormatInNumbers` | drivers/touchscreen/ft5406_ts.c:119-122 | of the last eight bytes, numbers 0 and 2, 1 and 3, 4 and 5 add up to 255, and that is all the check asks |
| `FtUpgrade.Complement` | drivers/touchscreen/ft5406_ts.c:119-122 | two bytes have all bits different exactly when they add up to 255 |
| `FtUpgrade.XorConcat` | drivers/touchscreen/ft5406_ts.c:722-759 | the checksum of a concatenation is the XOR of the checksums |
| `FtUpgrade.FwUpgrade` | drivers/touchscreen/ft5406_ts.c:783-853 | success exactly for a forced upgrade of a well-formed file of legal size whose reported checksum is the complement of the code's; without force never; nothing is sent for a refused file |
| `FtPower.Conserved` | drivers/touchscreen/ft5406_ts.c:351-557 | every run: vcc_i2c and the interrupt depth match the suspended flag, and vdd is off by exactly the failed rollbacks |
| `FtPower.Balanced` | drivers/touchscreen/ft5406_ts.c:351-557 | a run is in balance after every call (both supplies on and the interrupt enabled exactly while awake) if and only if no call that gets as far as the regulators fails to roll back |
| `FtPower.OneCall` | drivers/touchscreen/ft5406_ts.c:351-557 | from balance, a call leaves balance exactly when its rollback fails |
| `FtPower.LeakAndRegain` | drivers/touchscreen/ft5406_ts.c:365-387 | a run in which one failed rollback unbalances the supply and a second restores it |
| `FtPower.Screen.PowerOn` | drivers/touchscreen/ft5406_ts.c:351-390 | result and counts for every combination of faults |
| `FtPower.Screen.TsSuspend` | drivers/touchscreen/ft5406_ts.c:460-518 | the change of all counts and flags, and success exactly when loading or suspended afterwards |
| `FtPower.Screen.TsResume` | drivers/touchscreen/ft5406_ts.c:520-557 | the change of all counts and flags, and success exactly when awake afterwards |
| `FtPower.Screen.RunAll` | drivers/touchscreen/ft5406_ts.c:460-557 | any sequence of calls is the run the lemmas speak of |
| `LogFifo.AlwaysInv` | core/lidbg_mem_log.c:63-142 | every interleaving of puts and a drainer that may give up between its critical sections, chunks no longer than the capacity: the FIFO is a suffix of what was put since the last drain measured, a drain delivers exactly the length measured, deliveries are disjoint and in order, every byte is delivered, present or evicted, and after an eviction less than a longest chunk is free |
| `LogFifo.PutKeeps` | core/lidbg_mem_log.c:81-98 | a put keeps that invariant |
| `LogFifo.DrainKeeps` | core/lidbg_mem_log.c:131-133 | a drain keeps it, although it measured in an earlier critical section |
| `LogFifo.PutFacts` | core/lidbg_mem_log.c:63-71 | a put drops only the oldest bytes, keeps the occupancy when it has to drop and can, and leaves less than a chunk free when it dropped |
| `LogFifo.EvictExactly` | core/lidbg_mem_log.c:63-71 | making room drops nothing if the chunk fits, and as many bytes as it is long, or all, if not |
| `LogFifo.TimeThenText` | core/lidbg_mem_log.c:81-98 | behind a message the FIFO ends with its time and then its text, whole if there was room, the oldest bytes gone if not |
| `LogFifo.StreamIsSaid` | core/lidbg_mem_log.c:73-105 | the stream of which the deliveries are pieces is, for every run, the times and texts of the writers in the order of their critical sections |
| `LogFifo.Truncates` | core/lidbg_mem_log.c:63-105 | a chunk is stored whole if and only if it is not longer than the FIFO |
| `LogFifo.Device.Put` | core/lidbg_mem_log.c:81-98 | time, then text, each after making room |
| `LogFifo.Device.FifoIsEnough` | core/lidbg_mem_log.c:63-71 | drops as many bytes as the chunk is long when it does not fit |
| `LogFifo.Device.Drain` | core/lidbg_mem_log.c:131-133 | removes and returns the oldest bytes |
| `LogFifo.Device.RunAll` | core/lidbg_mem_log.c:73-142 | the device run through any interleaving holds the bytes, and hands out the deliveries, of the run the lemmas speak of |
| `MsgRing.AlwaysInv` | core/lidbg_msg.c:30-86 | every interleaving, byte by byte, of one writer at a time and the reader: positions are the counts modulo 50, reads <= completions <= writes, a recent message stays in its slot until the write that replaces it begins, and a slot lacks its final NUL only while 256 bytes are copied into it |
| `MsgRing.KthPrint` | core/lidbg_msg.c:47-50 | the k-th print shows, whole, the latest message that landed in its slot, provided that no write to that slot began meanwhile; it shows the k-th message whenever at most k + 50 writes have started |
| `MsgRing.PrintsInOrder` | core/lidbg_msg.c:30-86 | if the started writes never get more than 50 ahead of the finished prints, what is printed is a prefix of what was written |
| `MsgRing.WrittenFromBuffers` | core/lidbg_msg.c:66-81 | every run: the k-th write leaves the C string of the first min(size, 256) - 1 bytes of the k-th buffer that found the semaphore free; one of size 0 repeats what its slot got a ring earlier |
| `MsgRing.BuffersInOrder` | core/lidbg_msg.c:30-86 | if the writers stay within a ring, the prints are the texts of those buffers, in order |
| `MsgRing.CatchUp` | core/lidbg_msg.c:41-86 | from every state the threads can go on, without a new write, until all is printed |
| `MsgRing.LagBound` | core/lidbg_msg.c:30-86 | a bound on the lead in every state bounds it at every print |
| `MsgRing.RingExact` | core/lidbg_msg.c:30-86 | a lead of n writes keeps every print of every run whole and in order if and only if n <= 50 |
| `MsgRing.Torn` | core/lidbg_msg.c:47-81 | a run with 51 started writes whose first print mixes the bytes of two messages |
| `MsgRing.WhatIsWritten` | core/lidbg_msg.c:70-81 | a finished write leaves the text of its buffer, cut at 255 bytes and at the first NUL; a write of size 0 leaves the text its slot holds |
| `MsgRing.EmptyWrite` | core/lidbg_msg.c:77 | the NUL that a write of size 0 stores in front of its slot changes nothing |
| `MsgRing.ReadIntact` | core/lidbg_msg.c:49 | an undisturbed reader meets the next byte of the message, or its NUL |
| `MsgRing.StepKeeps` | core/lidbg_msg.c:30-86 | every step of every thread keeps the invariant |
| `MsgRing.CopyKeeps` | core/lidbg_msg.c:71 | a byte copied into the slot disturbs no recent message |
| `MsgRing.FinishKeeps` | core/lidbg_msg.c:77-79 | the NUL and the advance make the new message a recent one |
| `MsgRing.ReadKeeps` | core/lidbg_msg.c:49-50 | a byte read, or the end of a print, keeps the invariant |
| `MsgRing.Ring.FinishWrite` | core/lidbg_msg.c:77-79 | the ring follows the end of a write for every size, 0 included |
| `MsgRing.Ring.ReadByte` | core/lidbg_msg.c:49-50 | the ring follows the reader, which advances at the NUL and reads on past a missing one |
| `MsgRing.Ring.RunAll` | core/lidbg_msg.c:30-86 | the threads with their local variables, run through any interleaving, leave the ring of the run the lemmas speak of and print its texts |
| `Fastboot.AlwaysInv` | drivers/fastboot/lidbg_fastboot.c:647-772 | every interleaving, with the other threads free between any two loads and stores of the status, the count and ignore_wakelock: the count is the number of quick resumes since its last reset, corrected by what went wrong with that reset, plus an increment stored and not yet concluded; no episode takes more than max(1, max_wait_unlock_time) polls; wake locks are ignored if and only if a suspend was forced since the last device resume; the clock never blocks a suspend |
| `Fastboot.QuickResumesBounded` | drivers/fastboot/lidbg_fastboot.c:670-725 | a stretch of any run without a reset has no more quick resumes than the count can reach (max(5, haslock_resume_times) where the board looks for locks, max(0, haslock_resume_times) elsewhere), or one more if a reset fell between a store and its quick resume; none at all without lock search and with a negative haslock_resume_times |
| `Fastboot.QuickLimitExact` | drivers/fastboot/lidbg_fastboot.c:670-725 | the least bound on the quick resumes between two resets that all runs respect: max(5, haslock_resume_times) + 1 with lock search; without it haslock_resume_times + 1, and 0 if that parameter is negative |
| `Fastboot.CountIsQuicks` | drivers/fastboot/lidbg_fastboot.c:671-740 | outside an increment the count equals the quick resumes since the reset if and only if that reset did not fall between the load of a value other than 0 and its quick resume; it is at most one short, at most limit - 1 too high, and within the limit |
| `Fastboot.ExcessExact` | drivers/fastboot/lidbg_fastboot.c:688-715 | limit - 1 is the least bound on how far the count exceeds the quick resumes |
| `Fastboot.LostReset` | drivers/fastboot/lidbg_fastboot.c:688-715 | a run in which fastboot_resume falls between load and store of an increment: the count stands at its limit after a single quick resume |
| `Fastboot.Slip` | drivers/fastboot/lidbg_fastboot.c:688-722 | a run in which fastboot_resume falls between the store and the quick resume, which goes uncounted |
| `Fastboot.ForcedAfterResume` | drivers/fastboot/lidbg_fastboot.c:738-745 | at every forced suspend of every run all polls of a full episode and the second look saw the suspend pending, and as many polls lie after the last device resume if and only if none fell inside the episode |
| `Fastboot.StaleForce` | drivers/fastboot/lidbg_fastboot.c:738-745 | whatever the parameters, a run forces a suspend although all its polls came before the last device resume, which ran to its end |
| `Fastboot.Climb` | drivers/fastboot/lidbg_fastboot.c:664-725 | from rest, any number of undisturbed quick resumes up to the limit, by locks and by timeouts |
| `Fastboot.HowEpisodesEnd` | drivers/fastboot/lidbg_fastboot.c:658-763 | every run: each episode that has ended did exactly one of completing late_suspend_start, a quick resume and a forced suspend; late_suspend_start is completed exactly once for every poll or second look that saw another status |
| `Fastboot.ResetsAddUp` | drivers/fastboot/lidbg_fastboot.c:709-760 | every run: the count is reset exactly once for each poll that saw another status, each timeout after ten quiet minutes, each timeout too many and each device resume |
| `Fastboot.RareTimeouts` | drivers/fastboot/lidbg_fastboot.c:709-751 | if timeouts are more than ten minutes apart and haslock_resume_times is at least 1, no suspend is ever forced |
| `Fastboot.ToldFromSteps` | drivers/fastboot/lidbg_fastboot.c:948-1181 | status, episodes begun and owed, and device resumes follow from the steps of the callbacks alone |
| `Fastboot.FlagsInLog` | drivers/fastboot/lidbg_fastboot.c:671-722 | the lock counts as held, and a quick resume as due, exactly since they were seen and until a late resume clears the flags |
| `Fastboot.LateResumeClears` | drivers/fastboot/lidbg_fastboot.c:995-1010 | a late resume uses up the quick resume and then forgets the lock, and otherwise leaves both alone |
| `Fastboot.QuicksBound` | drivers/fastboot/lidbg_fastboot.c:670-725 | the quick resumes of a stretch without a reset are at most those the log reading counts |
| `Fastboot.PollStep` | drivers/fastboot/lidbg_fastboot.c:661-664 | a poll, of whatever status, keeps the invariant |
| `Fastboot.WakeStep` | drivers/fastboot/lidbg_fastboot.c:658-659 | the start of an episode keeps it |
| `Fastboot.LeaveStep` | drivers/fastboot/lidbg_fastboot.c:754-760 | the exit when another status was seen keeps it |
| `Fastboot.LookStep` | drivers/fastboot/lidbg_fastboot.c:670-681 | the tests of clock and wake lock keep it |
| `Fastboot.TimeStep` | drivers/fastboot/lidbg_fastboot.c:699-714 | the time limit and the reset after ten minutes keep it |
| `Fastboot.LoadStep` | drivers/fastboot/lidbg_fastboot.c:688-715 | the load half of an increment keeps it |
| `Fastboot.StoreStep` | drivers/fastboot/lidbg_fastboot.c:688-715 | the store half keeps it, even if it overwrites a reset |
| `Fastboot.JudgeStep` | drivers/fastboot/lidbg_fastboot.c:720-725 | the judgement and the quick resume keep it |
| `Fastboot.DropStep` | drivers/fastboot/lidbg_fastboot.c:737 | the reset after an overrun keeps it |
| `Fastboot.ForceStep` | drivers/fastboot/lidbg_fastboot.c:738-751 | the second look keeps it |
| `Fastboot.CommitStep` | drivers/fastboot/lidbg_fastboot.c:741 | the forced suspend keeps it |
| `Fastboot.ForgetStep` | drivers/fastboot/lidbg_fastboot.c:1178 | the reset in fastboot_resume keeps it, wherever the suspend thread stands |
| `Fastboot.StepKeeps` | drivers/fastboot/lidbg_fastboot.c:647-772 | every step of every thread keeps the invariant |
| `Fastboot.Driver.RunAll` | drivers/fastboot/lidbg_fastboot.c:647-772 | the driver run through any interleaving is in the state the lemmas speak of, and in the invariant |
| `Fastboot.Driver.ThreadStep` | drivers/fastboot/lidbg_fastboot.c:647-772 | the suspend thread takes the next of its steps, in every state |
| `Fastboot.Driver.PollStatus` | drivers/fastboot/lidbg_fastboot.c:658-763 | an episode starts only on a completion; a poll that sees another status ends it, completes late_suspend_start and resets the count |
| `Fastboot.Driver.CheckBlocked` | drivers/fastboot/lidbg_fastboot.c:670-696 | blocked clock, then unignorable lock, each below five; the increment in two halves |
| `Fastboot.Driver.CheckTime` | drivers/fastboot/lidbg_fastboot.c:699-715 | the time limit, the reset after ten minutes, the increment in two halves |
| `Fastboot.Driver.Judge` | drivers/fastboot/lidbg_fastboot.c:720-737 | quick resume or reset, by the count at the time of the comparison |
| `Fastboot.Driver.Force` | drivers/fastboot/lidbg_fastboot.c:738-751 | wake locks are ignored only if the second look still sees the suspend pending; otherwise late_suspend_start is completed |
| `Fastboot.Driver.OnEarlySuspend` | drivers/fastboot/lidbg_fastboot.c:948-993 | clears the clock block and starts an episode |
| `Fastboot.Driver.OnLateResume` | drivers/fastboot/lidbg_fastboot.c:995-1017 | after a quick resume the blocking flags are cleared, then, as a step of its own, the status is set |
| `Fastboot.Driver.OnResume` | drivers/fastboot/lidbg_fastboot.c:1168-1181 | status, ignore_wakelock and count, store by store in this order |
| `RegisterField.ReadAfterWrite` | core/lidbg_mem.c:106-190 | for every offset below 32 and every width: reading back returns the value modulo the part of the field inside the word |
| `RegisterField.DisjointUntouched` | core/lidbg_mem.c:106-190 | a field that shares no bit reads as before |
| `RegisterField.WriteBack` | core/lidbg_mem.c:106-190 | writing back what was read is the identity |
| `RegisterField.ReadIsSlice` | core/lidbg_mem.c:164-176 | a read is the quotient by 2^offset modulo 2^width |
| `RegisterField.FieldInNumbers` | core/lidbg_mem.c:106-190 | in plain arithmetic: the field has num bits, or reaches to the top of the word if num is 0 or too large; reading is quotient and remainder, writing puts the value modulo 2^width there and leaves the rest of the word |
| `RegisterField.WriteBitAt` | core/lidbg_mem.c:115-117 | every bit of the word after a write |
| `RegisterField.BuildMark` | core/lidbg_mem.c:109-113 | the loop builds 2^width - 1, with all 32 bits for a width of 0 or above 32 |
| `RegisterField.Memory.WriteBits` | core/lidbg_mem.c:106-138 | changes one word, by one field write |
| `RegisterField.Memory.ReadBits` | core/lidbg_mem.c:164-190 | returns the field |
| `RegisterField.Memory.WriteThenRead` | core/lidbg_mem.c:106-190 | the round trip through memory, other words untouched |
| `Bits.ZipBit` | core/lidbg_mem.c:115-117 | the bitwise operators act bit by bit in a word |
| `Bits.Extensional` | core/lidbg_mem.c:115-117 | words with equal bits are equal |
| `Overwrite.Consecutive` | drivers/touchscreen/ft5406_ts.c:715-762 | consecutive writes are one write |

## Left out

- FirmwareBurner.Driver.FwDownloadProc: the upgrade-mode handshake (gt910fm_update.c:345-485) is the parameter `entered`; loading the image from a file, the interrupt switch and the restart of the chip are not modelled.
- FirmwareBurner.Driver.GupRead: a read is taken to deliver what the chip holds; corruption on the way back is not modelled.
- FirmwareBurner.Driver.WriteBytes: a range that runs past 0xffff, where the 16-bit address wraps; the driver never writes one.
- FingerTracker.Tracker.WorkFunc: the BOARD_V2 and single-touch builds, BTN_TOUCH, key gestures, recovery mode and the 15-second counter.
- SlotWalk.Tracker.WorkFunc: the build without slot reports, touch keys (compiled out) and recovery mode.
- FileServer.Store.FillList: list mode, and the cases that cannot open or allocate; `fs_find_string`, value lookup and replacement, which only add easy members.
- KeyValue.ReloadSilent: keys with '=' or a newline and repeated keys, for which the file format has no inverse.
- FtUpgrade.FwUpgrade: the reset and identification loop is the parameter `entered`, the device checksum the parameter `devEcc`; the driver ignores the results of the packet writes.
- FtPower.Screen.TsSuspend: boards with their own power_on hook, touch release, reset line and delays.
- LogFifo.Device.Put: the chunks are the strings found in the message buffer; formatting, the length limit of that buffer and the file append are not modelled.
- MsgRing.Ring.CopyByte: the buffer is what copy_from_user stores, in ascending order; a failed copy stores other bytes than the caller's.
- MsgRing.Ring.ReadByte: kernel log formatting; the string is read in one pass up to its NUL, and memory behind the ring reads as NUL.
- Fastboot.Driver.ThreadStep: killing tasks, wake lock objects, power keys; the late-suspend, power-off and resume threads appear as arbitrary changes of the status word.
- Fastboot.AlwaysInv: haslock_resume_times and max_wait_unlock_time stay fixed during a run.
- RegisterField.Memory.WriteBits: offsets of 32 and more, for which the shift is undefined in C; I/O mapping.
- Probe and remove paths, device tree, sysfs, character devices and module loading.
- gt811.c, the ESD watchdog of gt910.c, ft5336_ts.c (a near copy of ft5406_ts.c), soft UART, GPS, LED, thermal, password entry and command dispatch.
