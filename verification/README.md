# HMI2 node protocol engine, modelled in Dafny

HMI2 is a library that connects a microcontroller (Arduino C++, MicroPython)
or a PC (CPython) to the HMI2 control-panel app, over a serial line or TCP.
The node holds four data files. The panel pulls from them and pushes to them:

- B: sixty 16-bit words of booleans;
- N: fifty 16-bit words;
- D: fifty 32-bit words;
- F: fifty floats.

This project models the protocol engine of that node. It follows the three
implementations, which share one design:

- `src/hmi2.py`;
- `src/hmi2forpc.py`, the same code over LAN only, with debug prints;
- `origLib/hmi2/src/hmi2.cpp` and `hmi2.h`, the Arduino original.

The model is made of these modules:

- `Codec` (`codec.dfy`): the 6-bit fragmentation of 8-, 16- and 32-bit values and of float bit patterns. It keeps every payload byte below 64, so no payload byte can look like '@' or 'b'.
- `BitWord` (`bitword.dfy`): the bit masks `setBitToInt` and `clearBitToInt` and the bit accessors.
- `DataStore` (`store.dfy`): the data files with their sticky update flags and one-shot override flags; the local writes, the pulled writes and the override broadcast.
- `Frames` (`frames.dfy`): the byte layout of every frame the node sends, together with the panel's reading of it.
- `Capture` (`capture.dfy`): how one response lands in the 128-byte response buffer. The Python copy loop and the Arduino `readBytesUntil` are both modelled.
- `Dispatch` (`dispatch.dfy`): what one pulled response does, as the dispatch on the first buffer byte.
- `Resync` (`resync.dfy`): the list of pushes the node re-sends after response code 103.
- `Display` (`display.dfy`): the two-line display buffer and its change detection.
- `Link` (`link.dfy`): the LAN reconnect backoff and the timeout streak that drops the connection.
- `Engine` (`engine.dfy`): the node itself, built from all of the above. It covers the `update` state machine, the exchanges it makes, the typed getters and setters, `print`, `init`, and the auto-update throttle.

The panel and the clock are inputs. Each exchange consumes one `Tick` of a
script. A `Tick` holds:

- the clock reading at the start;
- whether a LAN connect attempt would be accepted;
- the reply bytes;
- whether the reply came in the same poll that saw the 900 ms deadline;
- the clock reading when the wait ends.

Every byte string the node writes is appended to a log, `Io.sent`, so
properties about the wire are properties of that log.

There are two dialects:

- `Python` copies a response up to and including the first 'b'. It counts any non-empty response as a success, and it runs the auto-update throttle from its getters, setters and `print`.
- `Arduino` stores a response up to but not including the first 'b'. A response that starts with 'b' is a failure for it, and it never updates on its own.

The C++ declares its response buffer as `char bufferSerial[128]`, and its
word-index guard compares that `char` with the file size. The model follows
the Python reading of those bytes, which is unsigned. The signed reading is
recorded under Findings.

## Model

| member | source | states |
|---|---|---|
| Codec.Byte6MasksPartition | origLib/hmi2/src/hmi2.h:23-28 | the six 32-bit field masks are pairwise disjoint, cover all 32 bits, and sit at shifts 0, 6, …, 30, the top one two bits wide |
| Codec.Masks16Partition | origLib/hmi2/src/hmi2.h:36-38 | the three 16-bit field masks are disjoint and cover all 16 bits; the top digit is four bits wide |
| Codec.ByteOf | origLib/hmi2/src/hmi2.cpp:598-599 | an index below 256 written as one frame byte keeps its value |
| Codec.Fragment8 | src/hmi2.py:916-921 | a display character splits into a 2-bit and a 6-bit digit that `joinInt8` joins back to the same character |
| Codec.Fragment8OfJoin8 | src/hmi2.py:931-937 | joining canonical digits and splitting again returns the same digits |
| Codec.Fragment16 | src/hmi2.py:906-914 | a 16-bit value splits into a 4-bit and two 6-bit digits, and `joinInt16` gives back the value |
| Codec.Fragment16OfJoin16 | src/hmi2.py:939-946 | `joinInt16` of canonical digits is split back into the same digits |
| Codec.Join16Positional | src/hmi2.py:939-946 | on canonical digits the or-of-shifts join equals the base-64 positional sum |
| Codec.Join8Positional | src/hmi2.py:931-937 | the same for the 8-bit join |
| Codec.PyJoin32 | src/hmi2.py:948-951 | Python's unmasked join fits in 32 bits exactly when the first digit is below 4, and then it equals the C++ `uint32_t` join |
| Codec.Fragment32 | origLib/hmi2/src/hmi2.cpp:850-868 | a 32-bit value splits into a 2-bit and five 6-bit digits, and `joinInt32` gives back the value |
| Codec.Fragment32OfJoin32 | origLib/hmi2/src/hmi2.cpp:914-929 | the 32-bit join of canonical digits splits back into the same digits |
| Codec.Join32Positional | origLib/hmi2/src/hmi2.cpp:914-929 | on canonical digits the 32-bit join equals the positional sum |
| Codec.FloatBits | origLib/hmi2/src/hmi2.cpp:888-898 | the assembled 32-bit pattern holds the four union bytes, lowest byte lowest |
| Codec.BitsFloat | origLib/hmi2/src/hmi2.cpp:931-944 | splitting a pattern into the union bytes and assembling again gives the pattern back |
| Codec.BitsFloatOfFloatBits | origLib/hmi2/src/hmi2.cpp:888-944 | a float sent with `fragmentDataFloat` and rebuilt with `joinFloat` is the same float, bit for bit |
| BitWord.ClearMaskComplement | src/hmi2.py:870-884 | the shift-and-add-one loop of `clearBitToInt` builds, in its low 16 bits, the complement of `setBitToInt`'s mask, for every bit position |
| BitWord.ClearMaskValue | src/hmi2.py:877-884 | below bit 16 the clear mask is 0xFFFF with exactly that bit cleared; from bit 16 up it is all ones |
| BitWord.OrMaskAt | src/hmi2.py:797-807 | or-ing in the set mask raises the chosen bit and leaves every other bit |
| BitWord.AndNotMaskAt | src/hmi2.py:797-807 | and-ing in the clear mask lowers the chosen bit and leaves every other bit |
| BitWord.MasksHigh | src/hmi2.py:870-884 | for a bit position past 15 both masks leave a word unchanged |
| BitWord.SetBit | src/hmi2.py:797-807 | `setBitWord` makes the chosen bit read back as the value, leaves the other fifteen bits, and changes nothing for a bit past 15 |
| BitWord.MarkBit | src/hmi2.py:816-821 | `setBitWordUpdate` raises the update bit and keeps every bit already raised |
| BitWord.ResetBit | src/hmi2.py:830-835 | `resetBitWordOver` lowers exactly the chosen override bit |
| BitWord.ZeroWordHasNoBits | src/hmi2.py:605-611 | a word is zero exactly when none of its 16 bits is set, so the push-on-103 may skip a zero update word |
| BitWord.AllBitsSet | src/hmi2.py:597-598 | the -1 that the broadcast writes into an override word raises all 16 bits |
| DataStore.EmptyStore | src/hmi2.py:59-82 | the power-on store has every value zero and every update and override flag clear |
| DataStore.ReadB | src/hmi2.py:266-270 | `readBFile` returns true only for a word and bit in range |
| DataStore.ReadN | src/hmi2.py:301-305 | `readNFile` returns non-zero only for a word in range |
| DataStore.ReadD | src/hmi2.py:336-340 | `readDFile` returns non-zero only for a word in range |
| DataStore.ReadF | src/hmi2.py:371-375 | `readFFile` returns a non-zero float only for a word in range |
| DataStore.TakeBitOverride | src/hmi2.py:837-847 | `getBitWordOver` reports the override bit and afterwards it is clear; no other bit of any layer changes |
| DataStore.TakeOverride | src/hmi2.py:849-868 | `getNWordOver` (and D, F) reports the flag and clears it; values and update flags are untouched |
| DataStore.OverrideOneShot | src/hmi2.py:849-854 | consulting a word override twice in a row: the second answer is false and changes nothing |
| DataStore.BitOverrideOneShot | src/hmi2.py:837-847 | the same one-shot behaviour for a boolean override bit |
| DataStore.CommitBit | src/hmi2.py:275-277 | the write stores the bit and raises its update bit; no other bit or word and no override changes |
| DataStore.WriteB | src/hmi2.py:272-278 | out of range nothing happens; in range a push is due exactly when the bit differs or its override was set; the override is consulted and cleared only when the bit already equals the value; a write that goes ahead reads back and raises the update bit |
| DataStore.WriteWord | src/hmi2.py:307-313 | the shared word-write rule: in range the write goes ahead exactly when the value differs or the override was set, stores the value and raises the update flag; otherwise nothing changes |
| DataStore.WriteN | src/hmi2.py:307-313 | `writeNFile`: the rule of `WriteWord` for the N file, emitting a `PushInt` of exactly that word and value |
| DataStore.WriteD | src/hmi2.py:342-348 | `writeDFile`: the same rule for the D file, emitting a `PushDInt` |
| DataStore.WriteF | src/hmi2.py:377-383 | `writeFFile`: the same rule for the F file, with floats compared by bit pattern, emitting a `PushFloat` |
| DataStore.PullBit | src/hmi2.py:555-560 | a pulled boolean sets only that bit of that word and touches no flag; a bit index past 15 changes nothing |
| DataStore.PullBitHigh | src/hmi2.py:555-560 | a pulled boolean with a bit index of 16 or more leaves the store exactly as it was |
| DataStore.PullWord | src/hmi2.py:561-575 | a pulled N, D or F value replaces only that word; flags are untouched |
| DataStore.OverrideAll | src/hmi2.py:593-603 | the broadcast raises every override bit and flag and changes no value and no update flag |
| DataStore.WriteBKeepsFlags | src/hmi2.py:272-278 | no boolean write clears an update flag |
| DataStore.WriteNKeepsFlags | src/hmi2.py:307-313 | no N write clears an update flag |
| DataStore.WriteDKeepsFlags | src/hmi2.py:342-348 | no D write clears an update flag |
| DataStore.WriteFKeepsFlags | src/hmi2.py:377-383 | no F write clears an update flag |
| DataStore.ReadAfterWriteB | src/hmi2.py:266-278 | after an in-range `writeBFile` the bit reads back as written and every other location reads as before |
| DataStore.ReadAfterWriteN | src/hmi2.py:301-313 | the same for `writeNFile` and `readNFile` |
| DataStore.ReadAfterWriteD | src/hmi2.py:336-348 | the same for `writeDFile` and `readDFile` |
| DataStore.ReadAfterWriteF | src/hmi2.py:371-383 | the same for `writeFFile` and `readFFile` |
| DataStore.BroadcastForcesOnePush | src/hmi2.py:593-603 | after the broadcast, writing the value already stored pushes once, and writing it again does not |
| Frames.OnWire | src/hmi2.py:623-635 | over serial the frame is written as is; over LAN it is preceded by exactly one slot byte |
| Frames.BasicFrame | src/hmi2.py:623-635 | `sendBasicCommand` writes '@', the letter, 'b': a delimited three-byte frame |
| Frames.PushPayload | src/hmi2.py:637-703 | a push payload starts with the word index, has 3, 4 or 7 bytes for a boolean, an N or a D/F value, and never holds the terminator |
| Frames.PushFrame | src/hmi2.py:637-703 | the frame of `writeBFile2`, `writeNFile2`, `writeDFile2` or `writeFFile2` is delimited, with the word index as its third byte |
| Frames.DecodePushFrame | src/hmi2.py:637-703 | every push frame reads back as exactly the push that produced it: location, kind and value |
| Frames.Pairs | src/hmi2.py:463-469 | each display character is sent as two bytes |
| Frames.PairsAreDigits | src/hmi2.py:463-469 | every byte of the character pairs is below 64, so no character can pose as '@' or 'b' |
| Frames.UnpairsPairs | src/hmi2.py:463-469 | the panel's joining of the pairs gives back the display line |
| Frames.DisplayFrame | src/hmi2.py:462-476 | the display frame is 37 bytes: 'k', sixteen pairs, the display id, then '1' for row 0 and '0' otherwise; with an id other than 'b' it is delimited |
| Frames.DecodeDisplayFrame | src/hmi2.py:462-476 | every display frame reads back as its line, display id and top-row flag |
| Capture.Stored | src/hmi2.py:705-730 | what a response leaves in the buffer. Python: at most 128 bytes, a prefix of the reply, stopping after the first 'b'. Arduino: a prefix up to but excluding the first 'b', at most 128 bytes |
| Capture.Overlay | src/hmi2.py:713-721 | the stored bytes overwrite the front of the buffer and the stale tail is kept |
| Capture.Receive | origLib/hmi2/src/hmi2.cpp:1115-1136 | a response succeeds in Python exactly when it is non-empty, and in Arduino exactly when it is non-empty and does not start with 'b'; the buffer becomes the overlay of the stored bytes |
| Capture.CopyChunk | src/hmi2.py:713-721 | the Python copy loop as written stores exactly the bytes `Stored` names and reports their count |
| Capture.CopyResult | src/hmi2.py:713-721 | the copy loop's two ways of ending (chunk exhausted, or 'b' stored) both give the `Stored` overlay |
| Capture.TerminatedReply | origLib/hmi2/src/hmi2.cpp:1115-1136 | for a body, 'b' and trailing bytes, Python keeps the body and the 'b', Arduino the body alone, and trailing bytes are not stored |
| Capture.BareTerminator | origLib/hmi2/src/hmi2.cpp:1115-1136 | a lone 'b' is a success in Python but a failure in Arduino, and it leaves the Arduino buffer untouched |
| Capture.UnterminatedReply | src/hmi2.py:705-730 | a short Python reply without 'b' is stored whole and succeeds |
| Dispatch.SignedGuardAdmitsNegative | origLib/hmi2/src/hmi2.cpp:269-287 | with a signed `char` buffer, every byte from 128 up passes both word-index guards as a negative index |
| Dispatch.GuardInRange | src/hmi2.py:556-571 | the unsigned guard admits exactly the indices inside the file, and it agrees with the C++ guard below 128 |
| Dispatch.Apply | src/hmi2.py:553-586 | codes 65/75/77/79 store a value only when the word index is in range, and touch no flag; the loop stops exactly on 100 or 103; push-on-103 exactly on 103; broadcast requested exactly on 102; other codes change nothing |
| Dispatch.PullReply | src/hmi2.py:553-575 | a pull reply is the pull code, the push payload and 'b', and it fits the buffer |
| Dispatch.ReplyInBuffer | src/hmi2.py:713-721 | in either dialect a pull reply counts as a response and leaves the code at position 0 and the payload from position 1; Arduino's `readBytesUntil` (hmi2.cpp:1121-1123) drops the 'b', which the dispatch never reads |
| Dispatch.LandsBit | src/hmi2.py:555-560 | in either dialect, a boolean pull reply read through `Receive` counts and makes the bit read back as sent |
| Dispatch.LandsInt | src/hmi2.py:561-564 | in either dialect, an N pull reply read through `Receive` counts and makes the word read back as sent |
| Dispatch.LandsDInt | src/hmi2.py:565-569 | in either dialect, a D pull reply read through `Receive` counts and makes the word read back as sent |
| Dispatch.LandsFloat | src/hmi2.py:570-575 | in either dialect, an F pull reply read through `Receive` counts and makes the float read back as sent, bit for bit |
| Dispatch.PullReplyLands | src/hmi2.py:553-575 | in either dialect, any pull reply in the push layout read through `Receive` counts and lands exactly, whatever stale bytes the buffer held; it neither stops the loop nor requests a broadcast, and keeps every update flag |
| Resync.InBitPushesFrom | src/hmi2.py:608-611 | the pushes of one boolean word are exactly its raised update bits from the start bit on, each with the bit's current value |
| Resync.BitPushesFromSorted | src/hmi2.py:608-611 | those pushes come in bit order |
| Resync.ZeroWordNoPending | src/hmi2.py:607 | a zero update word has no raised update bit, so skipping it loses no push |
| Resync.InBitPushes | src/hmi2.py:606-611 | the boolean part of the push-on-103 is exactly the pending booleans from the start word on |
| Resync.WordBitsSorted | src/hmi2.py:607-611 | one word's boolean pushes lie in that word's key range, in order |
| Resync.BitPushesSorted | src/hmi2.py:606-611 | the boolean part is in (word, bit) order |
| Resync.InWordPushes | src/hmi2.py:612-621 | the word part is exactly the pending N, D and F locations from the start index on |
| Resync.WordChunkSorted | src/hmi2.py:612-621 | for one index the N, D and F pushes come in that order |
| Resync.InWordChunk | src/hmi2.py:612-621 | one index's pushes are exactly its pending N, D and F locations |
| Resync.WordPushesSorted | src/hmi2.py:612-621 | the word part is in index order, N before D before F |
| Resync.PushListExact | src/hmi2.py:605-621 | the push-on-103 sends a push exactly for each location whose update flag is raised, carrying the stored value, in location order |
| Resync.IncreasingDistinct | src/hmi2.py:605-621 | a list in strictly increasing location order never sends a push twice |
| Display.Fresh | src/hmi2.py:106-119 | the constructor's display has blank rows and blank post rows, the cursor at the origin and display 1 |
| Display.Zeroed | origLib/hmi2/src/hmi2.h:246-257 | the C++ display before `init`, with no constructor to set it: zero bytes in both rows and both post rows, cursor at the origin, display 0 |
| Display.InitLcd | src/hmi2.py:421-427 | `initLCD` blanks both rows, homes the cursor and selects display 1, and keeps what was last sent |
| Display.SetCursor | src/hmi2.py:386-389 | the cursor is stored unchecked and nothing else changes |
| Display.SetDisplayId | src/hmi2.py:391-398 | the display id is clamped into 1..10 and nothing else changes |
| Display.ClearLine0 | src/hmi2.py:400-403 | row 0 becomes blank, nothing else changes |
| Display.ClearLine1 | src/hmi2.py:405-408 | row 1 becomes blank, nothing else changes |
| Display.ResetPostLines | src/hmi2.py:410-414 | both post rows become blank and nothing else changes |
| Display.Written | src/hmi2.py:436-447 | the cursor row with the text written from the cursor and cut at column 16; every other column unchanged |
| Display.WriteText | src/hmi2.py:429-460 | off-screen or empty text changes nothing. Otherwise the row gets the text, the post row equals the row, and the cursor advances by what fit. A frame is due exactly when the row differs from what was last sent or a full refresh is pending. The other row is untouched |
| Display.PutChars | src/hmi2.py:436-447 | the character loop as written produces `Written` and the advanced cursor |
| Display.SyncPost | src/hmi2.py:449-458 | the comparison loop copies the row into the post row and reports a change exactly when they differed |
| Display.WriteTextSteps | src/hmi2.py:429-458 | the whole loop-by-loop `writeText2Line` computes what `WriteText` states |
| Display.RepeatIsSilent | src/hmi2.py:449-460 | printing the same text at the same place again sends nothing unless a refresh is pending |
| Display.PrintSyncsPost | src/hmi2.py:449-458 | after a print the post row matches the row it tracks |
| Display.ChangeIsSent | src/hmi2.py:449-460 | a print that changes the row always sends a frame |
| Link.Connect | src/hmi2.py:213-244 | `connect2Server` succeeds exactly when already connected, or when an attempt is allowed (first try, or more than 3000 ms since the last failure) and the server accepts; a failure restarts the backoff at the clock read after the attempt gave up |
| Link.Settle | src/hmi2.py:752-775 | a counted response ends a timeout streak; a timeout starts one if none runs; a streak older than 3000 ms drops the connection |
| Link.BackoffSpacing | src/hmi2.py:213-232 | after an attempt that gave up at t, no attempt is made until the clock is more than 3000 ms past t, however long the attempt took |
| Link.StreakDrops | origLib/hmi2/src/hmi2.cpp:1153-1171 | a timeout streak started at t0 drops the link at the first timeout more than 3000 ms later, and not before |
| Link.SuccessResetsStreak | src/hmi2.py:752-762 | a success in the middle of a streak ends it, so the next timeout starts a new streak at its own time |
| Link.OnlyConnectConnects | src/hmi2.py:732-777 | handling a response never turns a disconnected link into a connected one |
| Engine.Fresh | src/hmi2.py:57-147 | before `init`: empty store, no transport, no broadcast or refresh pending. Python: first sync due, blank display, a connect attempt allowed, auto-update on at 50 ms. Arduino (no constructor, hmi2.h:226-280): every flag clear, the `Zeroed` display, no auto-update |
| Engine.Exchange | src/hmi2.py:623-635 | one frame out and one response in. With no transport or no tick nothing happens. Over serial the frame is logged and the response read as `Receive` says. Over LAN the frame goes out exactly when `connect2Server` succeeds. A success logs one frame |
| Engine.ExchangeLogs | src/hmi2.py:623-635 | an exchange never removes a logged frame |
| Engine.Pull | src/hmi2.py:549-586 | the pull loop keeps every update flag and every override flag, and uses at most the ticks it is given |
| Engine.PullFlags | src/hmi2.py:549-586 | only the last pulled code can stop the loop. `syncro` falls exactly when 100 or 103 came; `overrideSend` rises exactly when 102 came; the push-on-103 is due exactly when 103 came |
| Engine.PullLogs | src/hmi2.py:549-586 | the pull loop only appends to the log |
| Engine.SendAllSerial | src/hmi2.py:605-621 | over serial with enough ticks the frames go out exactly and in order, one tick each |
| Engine.SendAllLogs | src/hmi2.py:605-621 | sending a list of frames only appends to the log |
| Engine.Broadcast | src/hmi2.py:590-603 | a pending full refresh is dropped. A requested broadcast is cleared, raises every override flag and asks for a full refresh; no value or update flag changes |
| Engine.Poll | src/hmi2.py:541-588 | pulled codes exist only after an opening 'c', and only the last one stops. `syncro` stays up exactly when it was up and neither a 'd' opening nor a 100 or 103 came. A broadcast is requested exactly when one was pending or 102 came; the push-on-103 is due exactly when 103 came. All update flags are kept |
| Engine.PushOn103 | src/hmi2.py:605-621 | the push-on-103 changes only the transport state |
| Engine.Update | origLib/hmi2/src/hmi2.cpp:248-341 | `update` keeps every update flag and leaves no broadcast pending. `syncro` falls exactly on an opening 'd' or a pulled 100 or 103. A full display refresh is pending exactly when a broadcast was pending or 102 came, and then every override flag is raised. The display and the auto-update settings are untouched |
| Engine.PollLogs | src/hmi2.py:541-586 | the poll keeps the opening frame in the log |
| Engine.FinishLogs | src/hmi2.py:590-621 | the broadcast and the push-on-103 only append to the log |
| Engine.UpdateOpens | src/hmi2.py:541-544 | over serial the first frame `update` writes is 'a' while the first sync is due, and 'e' after |
| Engine.PullSeesDone | src/hmi2.py:576-578 | a pull answered by 100 sends one 'c', stores nothing, clears `syncro` and asks for no push-on-103 |
| Engine.PullLands | src/hmi2.py:549-586 | a pull in which the panel hands over a value and then says 100 stores exactly that value in either dialect, sends two 'c', moves no flag and ends the first sync |
| Engine.PullSees103 | src/hmi2.py:581-584 | a pull answered by 103 sends one 'c', stores nothing, clears `syncro` and asks for the push-on-103 |
| Engine.Poll103 | src/hmi2.py:541-586 | an opening answered 'c' followed by 103 logs the opening and one 'c', and stores nothing |
| Engine.PushAfter103 | src/hmi2.py:536-621 | over serial, when the panel answers 'c' then 103, the first sync is over; given a tick for each push, `update` writes the opening command, one 'c', and then exactly the push frames of every pending location, in order |
| Engine.Throttle | src/hmi2.py:509-520 | when no update is due nothing changes; when one is due the interval restarts at the current time and the update runs |
| Engine.ThrottleSpacing | src/hmi2.py:509-520 | after an auto-update at `now` none is due again before `now + interval`, and the update lost no update flag |
| Engine.ArduinoNeverThrottles | origLib/hmi2/src/hmi2.cpp:91-153 | the Arduino getters and setters never run `update` on their own |
| Engine.EnableAutoUpdate | src/hmi2.py:522-534 | when enabled, an update is due at time u exactly when the node is Python and at least `interval` ms have passed since now; when disabled, never |
| Engine.Commit | src/hmi2.py:272-278 | a write that goes ahead sends exactly its push frame over serial; over LAN it is sent exactly when `connect2Server` succeeds; a write that does not go ahead sends nothing |
| Engine.SetBool | src/hmi2.py:256-259 | with no update due, the store is the local write's, and over serial a frame goes out exactly when the location is in range and the bit differs or its override was set |
| Engine.SetBoolReads | src/hmi2.py:256-270 | after `setBoolean` with no update due, the written bit reads back as written and every other location as before |
| Engine.SetInt | src/hmi2.py:291-294 | the same for `setInt` |
| Engine.SetIntReads | src/hmi2.py:291-305 | the read-back of `setInt` |
| Engine.SetDInt | src/hmi2.py:331-334 | the same for `setDInt` |
| Engine.SetDIntReads | src/hmi2.py:331-340 | the read-back of `setDInt` |
| Engine.SetFloat | src/hmi2.py:361-364 | the same for `setFloat` |
| Engine.SetFloatReads | src/hmi2.py:361-375 | the read-back of `setFloat` |
| Engine.GetBool | src/hmi2.py:246-249 | the value returned is what the store holds after the throttled update; with none due, the plain read and no change |
| Engine.GetInt | src/hmi2.py:281-284 | the same for `getInt` |
| Engine.GetDInt | src/hmi2.py:321-324 | the same for `getDInt` |
| Engine.GetFloat | src/hmi2.py:351-354 | the same for `getFloat` |
| Engine.Show | src/hmi2.py:429-497 | the display changes as `WriteText` says. Over serial a frame goes out exactly when a full refresh is pending or the row changed, and that frame is the display frame of the row just written |
| Engine.Print | src/hmi2.py:416-419 | `print` writes and sends as `Show`, then runs the throttled update |
| Engine.BroadcastRefreshesDisplay | src/hmi2.py:590-597 | after an update that answered 102, the next print over serial sends its row even if nothing on it changed |
| Engine.Slot | src/hmi2.py:185-193 | the memory bank is clamped into 1..6, and is 1 when none is given |
| Engine.FirstPrintAfterInit | origLib/hmi2/src/hmi2.cpp:425-460 | after a serial `init`, a space printed at the origin sends the blank row on the C++ node, whose post rows are still zero, and sends nothing on the Python node |
| Engine.Init | src/hmi2.py:148-211 | `init` restarts the sync state and blanks the display rows. Over LAN the link is reset and one connect attempt is made, which succeeds exactly when the server accepts. The Python node sets auto-update and, when on, restarts the interval; the Arduino node keeps its auto-update fields |

## Left out

- The serial and socket I/O themselves (`write`, `send`, `recv`, `any`, `available`, the 0.1 s socket poll): every exchange is one scripted `Tick`.
- The 900 ms response wait: it becomes the tick's `late` flag and the clock reading at its end.
- `cleanHardSerial` and `cleanLan`: they drain the input after each response. A `Tick` carries only the bytes of one response, so nothing is left over to drain.
- Float arithmetic: a float is the four bytes of the C++ `floatValue` union, and equality is bit-pattern equality. Python's `struct` packs big-endian, while the Arduino union is little-endian in memory. Both give the same 32-bit value to `fragmentData32`, which is what the model keeps. NaN and ±0 comparisons are not modelled.
- Python values that do not fit their width (for example `setInt(w, 70000)` or a negative value): the model's setters take 16-bit, 32-bit and float values. Python would raise `struct.error`, or send and store unmasked values.
- `Codec.PyJoin32`: Python's unmasked `joinInt32` with a first digit of 4 or more gives a value above 32 bits. The rest of the model uses the 32-bit join, as the C++ does.
- `ticks_diff` and `millis()` wrap-around: clocks are unbounded integers.
- Exceptions: the try/except around `update` in `_autoUpdate` and the socket exceptions. A failed connect is the tick's `accepts = false`.
- `str(value)` and the Arduino `print` overloads that turn numbers into text: `Print` takes the text's bytes.
- Characters outside Latin-1, which `ord` would turn into values above 255.
- The signed `char` of the Arduino display rows.
- The Arduino `uint8_t` parameters of `setCursor` and `setDisplayID`: the model takes integers, as Python does.
- IP address parsing and port 1030.
- The PC variant's `connect_timeout`.
- Debug prints of `hmi2forpc.py`.
- The Arduino `init(IPAddress, int)` takes an `int` bank and has no "none": `Slot` covers it through `Some`.
- Board-dependent sizes: the ATmega328P build has 20-word files. The model uses the 60/50 sizes of the Mega, Due and ESP builds, which are also Python's.
- Software serial (`checkSoftResponse`, `cleanSoftSerial`): it behaves as hardware serial and is modelled by the same `Serial` transport.
- `getBFileBit`, `setBFileBit`, `getNFile`, `setNFile`, `getDouble`, `setDouble`, `getFFile`, `setFFile`: aliases with the same bodies as the modelled accessors.
- The S file (`sFile`): it is declared but never used.
- The example sketches.
- `Engine.Exchange`: when the tick script runs out, no further exchange is made. A real node would keep polling.
- An Arduino node used before `init`: its zero `connectionType` is `HARD_SERIAL` with a null port pointer. The model treats it as no transport.
- `Link.Settle`: the streak start and the drop check read the clock once, at the end of the wait. The source reads it twice in quick succession.
- `Engine.Update`: its contract does not itself list the frames sent. The frames are stated by `Engine.UpdateOpens` for the opening and by `Engine.PushAfter103` for a whole 'c', 103 exchange. Other reply sequences are covered by the flag and log lemmas only.
- `Engine.SetBool`, `Engine.SetInt`, `Engine.SetDInt`, `Engine.SetFloat`: the exact store and frame are stated only when no auto-update is due. When one is due, the contract keeps only the node's well-formedness and the display.
- `Engine.Print`: the frame sent is stated only when no auto-update is due.

## Findings

| source | as written | input that shows it | evidently intended | confidence | as-written member | corrected member |
|---|---|---|---|---|---|---|
| origLib/hmi2/src/hmi2.cpp:269-287 | the buffer is `char bufferSerial[128]` (hmi2.h:243), and the word-index guard `bufferSerial[1] < bSize` (or `< ndfSize`) compares a possibly signed `char` | a pull reply whose second byte is 200: with a signed `char` that is -56, which passes `< 60`, and the write goes to `bFile[-56]` | accept only indices 0 ≤ i < size, as the Python port does with its unsigned `bytearray` | not executed; medium (`char` is signed on AVR, unsigned on some ARM targets) | Dispatch.SignedGuardAdmitsNegative | Dispatch.GuardInRange, Dispatch.Apply |
