# Verification of the IPC cloud services

A Dafny model of the parts of the servers and of the client SDK that carry real protocols and algorithms, with
proofs of what they promise. `dafny verify dfyconfig.toml` checks all of it, with Dafny 4.11 and no further options.

What the source does step by step on objects, arrays and buffers is imperative here too: classes with `modifies`
clauses, loops with invariants, each method proved against a specification function. What several threads do
together is a state machine whose steps are the source's atomic sections, and the properties hold after every
possible sequence of steps. Histories (who wrote a Redis field, which request a reply answers) are fields marked as
history: steps write them, nothing reads them to decide.

| files | what they model |
|---|---|
| `relay*.dfy`, `thread_safe_map.dfy`, `decimal.dfy` | imDevServer: relaying to a device over a socket number that may have been reused |
| `correlation*.dfy`, `net_inter_layer.dfy` | client SDK: matching responses to blocked requests by a wrapping message id |
| `handoff.dfy` | client SDK: the request list and the one-byte pipe in front of the event thread |
| `wire.dfy`, `reassembly*.dfy` | escaping, CRLF framing, and the receive buffer that cuts a byte stream back into frames |
| `work_queue.dfy` | the bounded circular queue between the receive thread and the consumers |
| `md5*.dfy`, `octets.dfy` | the MD5 class against RFC 1321 |
| `base64*.dfy` | the base64 codec against section 4 of RFC 4648 |
| `cloudsee.dfy` | the binary status request and response of the CloudSEE protocol |
| `device_cache.dfy`, `phone_owner.dfy` | the device-to-users cache, and which user a phone id belongs to |
| `sql_pool.dfy`, `humiture.dfy` | the racy size check of the connection pool, and the comfort score |

## Where the code is exact, and where it is not

Each item is a proved equivalence, or a pair of a theorem and a run outside its condition.

- **Relay check.** In every run, the check passes exactly when the table entry under the fd that was read belongs to
  a connection congruent modulo 65537 to the one whose id was read (`CheckIsModular`). If fewer than 65537
  connections were accepted from the one to the other, as between any two of the last 65537 (`RecentAreNear`), they
  are the same one (`CheckIsExact`), it is on the fd and it issued DEVICE_ONLINE for the guid; and unless the entry
  is a refused connection's, it is on the fd only then (`VerifySafe`). One connection more and a stranger can pass
  (`StrangerPasses`). A missing Redis field counts as success and reads as id 0, so a half-written record passes for
  every 65537th connection (`StrangerPasses`), though never before the counter first wraps (`VerifySafeBeforeWrap`).
  Only a passing check leads to a send, and only to one (`SendWasChecked`). The send reaches the verified connection
  exactly if its fd is not closed first (`SendReaches`). When `conn_new` fails the fd is closed but the entry stays,
  and `insert` does not overwrite: the connections refused one after the other on an fd, and the one accepted there
  next, all meet the entry of the first of them (`EntryOwner`). A registered device that is still connected is found
  exactly if it is not closing and the connection whose entry it meets is congruent to it modulo 65537
  (`RegisteredDeviceFound`). Itself it meets exactly if the connection accepted there just before was not refused;
  otherwise it may never be found (`StaleEntryHides`), or be found by the entry of one 65537 accepts earlier
  (`OldEntryPasses`).
- **Request correlation.** In every run, however ids collide, a semaphore is posted at most once, SUCCESS follows
  exactly one post, a response that is returned carries the request's id and arrived while it was pending, and the
  map is empty when nobody waits (`EveryRun`). SUCCESS brings a response exactly if no other request erased the
  entry under this id between the post and the read without a later response there (`ResponseUnlessOvertaken`);
  `OvertakenReadsNothing` is a run in which one did, and with fewer than 65535 ids per request lifetime none does
  (`SuccessIsOwn`). The response answers the request that returns it exactly if that one message was not 65535 ids
  late (`SuccessAnswersTheRequest`); `LateReplyIsTaken` is a run in which it was. A pending request has an entry
  exactly if no other request erased it without one inserting there again (`PendingHasEntry`), so without collisions
  the map holds exactly the pending ids (`DomainIsPending`). No reply comes too early: a semaphore keeps its post
  until the request waits for it (`WakesIfPosted`), so a reply under the id of a request that has not given up can
  be returned with SUCCESS (`ReplyCanBeReturned`).
- **Framing.** A message survives escaping exactly if it does not contain the four characters `\r\n` themselves.
  `find_last_of(CRLF)` finds a lone CR or LF as well as a CRLF, so a read loses data exactly if it delivers a frame
  and leaves a CR or LF behind the last one (`Conservation`); for frames without single CRs and LFs that is a read
  that delivers and ends between a CR and its LF (`SafeCuttings`, `DanglingCrLoses`). A read that ends there without
  delivering anything is harmless. If each frame and its delimiter fit, the buffer always has room (`NeverFull`); a
  frame that does not fit fills it, and then no read takes or delivers anything again (`Wedged`).
- **MD5.** The digests of the empty text and of "abc" are those of appendix A.5 of RFC 1321 (`EmptyDigest`,
  `AbcDigest`). Words and bytes are bit vectors of 32 and 8 bits; lengths and the two counter words are integers
  with explicit wrap-around, and the counter is a field of two of them. `i + blocksize <= length` is computed in 32
  bits. It keeps the block loop inside the input exactly for lengths below 2^32 - 64 + (64 - index) % 64
  (`BlockLoopStaysInside`).
- **Base64.** Decoding undoes encoding for all byte strings; encoding undoes decoding exactly for the strings that
  section 4 of RFC 4648 produces.
- **CloudSEE guids.** A guid survives the packet exactly if it is one character other than NUL followed by the
  canonical decimal text of an int.
- **Caches.** `StepKeepsCoherent` and `StepKeepsInv` of the phone owners say for every single step whether it keeps
  the invariant, failed commands and stale reads included: binding goes on to the cache after a failed SQL
  statement, a failed lookup caches an empty set, an alarm-on request stores a phone id without asking whose it is,
  and a report that read an earlier owner takes that user's present id away (`StaleGetErases`).
- **Handoff.** A failed `write` to the pipe leaves its request queued, so every later byte takes an older request:
  what is left over in the end are the last requests pushed, one for each failed write (`LeftOver`).
- **Pool.** The unlocked check lets k releasing threads exceed 64 by exactly k (`NeverBeyond`, `BoundIsReached`).
  `GetConnection` hands out the connection it has just terminated when that one was found invalid.

## Model

| member | source | states |
|---|---|---|
| Relay.StepKeepsInv | Server/src/imDevServer/net_core.cc:102-132 | accepting, serving, refusing, closing, registering and relaying keep the id counter, the fd table, the registrations and the values in flight consistent, one step at a time |
| Relay.RunKeepsInv | Server/src/imDevServer/net_core.cc:102-132 | and so does every interleaving |
| RelaySafety.CheckIsModular | Server/src/imDevServer/relay_message_opt.cc:72-100 | in every run, exactly which table entries let the check pass, a missing id included |
| RelaySafety.CheckIsExact | Server/src/imDevServer/relay_message_opt.cc:72-100 | with fewer than 65537 accepts between the two, the check passes if and only if the entry belongs to the connection whose id was read |
| RelaySafety.VerifySafe | Server/src/imDevServer/relay_message_opt.cc:92-97 | what a passing check means in any run: the connection whose id was read issued DEVICE_ONLINE for the guid, and, unless the entry is a refused connection's, it is the one on the fd if and only if it is near the entry's |
| RelaySafety.VerifySafeBeforeWrap | Server/src/imDevServer/net_core.cc:197-209 | before the counter wraps this needs no condition, not even a whole record |
| RelaySafety.RegisteredDeviceFound | Server/src/imDevServer/relay_message_opt.cc:72-100 | in every run, a connected device with a whole record is found if and only if it is not closing and the connection whose entry it meets is congruent to it modulo 65537; that one is itself if and only if the connection accepted on its fd just before was not refused |
| RelaySafety.EntryMet | Server/src/imDevServer/threadSafe_map.h:17-21 | whose entry that is: none while closing, otherwise its own, or that of the first of the connections refused directly before it on its fd |
| RelaySafety.NearEntriesDecide | Server/src/imDevServer/relay_message_opt.cc:92-99 | while that entry is fewer than 65537 accepts old, the device is found if and only if it is not closing and the connection just before was not refused |
| RelaySafety.RegisteredDeviceVerifies | Server/src/imDevServer/relay_message_opt.cc:92-99 | without refusals it is found if and only if it is not closing |
| RelaySafety.SendReaches | Server/src/imDevServer/relay_message_opt.cc:92-119 | from a passing check of a relay to its send, whatever happens in between, it holds the fd it read and reaches the connection whose id it read if and only if that has not closed its fd |
| RelayTrace.SendWasChecked | Server/src/imDevServer/relay_message_opt.cc:92-138 | in every run, a send is the fourth step in a row of a relay that read the fd and then the id of the guid and found the table to hold this fd with this id; one passing check allows one send |
| RelayTrace.VerifiedWasChecked | Server/src/imDevServer/relay_message_opt.cc:72-100 | a relay that can send has just taken these three steps, with the values of the record at the times of the two reads and of the table at the time of the check |
| RelayTrace.CheckDecides | Server/src/imDevServer/relay_message_opt.cc:92-99 | a check that finds the pair lets its relay send, one that does not find it ends the relay, and nothing else changes |
| RelayTrace.UndisturbedRelay | Server/src/imDevServer/relay_message_opt.cc:72-100 | a relay can always go through; undisturbed it sends if and only if the table holds the fd of the record with its id, and leaves everything as it was |
| RelayTrace.RecordIsLastWritten | Server/src/imDevServer/message_opt.cc:174-178 | in every run, each field of a record is what the last handler wrote there, fd before id, and reads as the fd or id of its connection; a field nobody wrote is missing |
| RelayLimits.StrangerPasses | Server/src/imDevServer/net_core.cc:197-209 | runs in which the check passes for a stranger: a record one connection too old, or one without an id |
| RelayLimits.StaleEntryHides | Server/src/imDevServer/work_thread.cc:139-150 | a run in which the entry of the refused connection before it hides a registered, connected device |
| RelayLimits.OldEntryPasses | Server/src/imDevServer/threadSafe_map.h:17-21 | for every guid, a run in which the connection just before was refused and the device is found all the same, by an entry two connections and 65537 accepts back |
| RelayCode.NetCore.GetClientfdMapId | Server/src/imDevServer/net_core.cc:197-209 | the counter steps through 0..65536 and starts again at 0 |
| RelayCode.NetCore.DoAccept | Server/src/imDevServer/net_core.cc:119-131 | a non-blocking socket gets the next id, the table keeps an entry that is already there, and the pair dispatched is the pair recorded |
| RelayCode.NetCore.VerifyDeviceSfd | Server/src/imDevServer/relay_message_opt.cc:72-100 | two replies and one table lookup decide as the step Check of the state machine does; a failed command ends it |
| RelayCode.RedisOpt.DeviceOnline | Server/src/imDevServer/message_opt.cc:165-188 | what the record holds after each of the five commands fails, and success only if none does |
| RelayCode.Hget | Server/src/imDevServer/redis_opt.cc:568-595 | a missing value succeeds and reads as 0 |
| ThreadSafeMap.CThreadSafeMap.Insert | Server/src/imDevServer/threadSafe_map.h:17-21 | an existing key keeps its value |
| ThreadSafeMap.CThreadSafeMap.FindValueByKey | Server/src/imDevServer/threadSafe_map.h:41-59 | true exactly for the value stored under the key |
| ThreadSafeMap.CThreadSafeMap.FindAndSet | Server/src/imDevServer/threadSafe_map.h:61-79 | replaces and returns an existing entry, and touches nothing otherwise |
| Decimal.IntTextAtoi | Server/src/public/utils.h:142-147 | writing what atoi read gives the text back if and only if it is canonical |
| Decimal.AtoiIntText | Server/src/imDevServer/redis_opt.cc:518-541 | atoi reads what %d wrote |
| Decimal.NatTextDigit | Server/src/public/utils.h:142-147 | each character written is 48 plus a decimal digit of the number, without leading zeros |
| Decimal.AtoiReads | Server/src/imDevServer/relay_message_opt.cc:93-94 | white space, a sign and leading zeros are read over, and what follows the digits is ignored |
| Decimal.AtoiOfNoNumber | Server/src/imDevServer/relay_message_opt.cc:93-94 | a text without a number reads as 0 |
| Correlation.StepKeepsInv | ClientChannelInterface/SdkSrc/net_inter_layer.cc:177-244 | every step of a requester, of a timeout and of the receiver keeps posts at most one, entries under live ids, and responses under their own id |
| CorrelationSafety.ArrivalsEnabled | ClientChannelInterface/SdkSrc/net_inter_layer.cc:119-132 | the receiver can always process a message |
| CorrelationSafety.EveryRun | ClientChannelInterface/SdkSrc/net_inter_layer.cc:177-244 | with no condition on ids: at most one post and exactly one before SUCCESS, a returned response with the own id that arrived at a step at which the request was pending, and an empty map when nobody is between insert and erase |
| CorrelationSafety.StrayResponseIgnored | ClientChannelInterface/SdkSrc/net_inter_layer.cc:132-137 | in every run, a response whose id nobody waits for changes nothing |
| CorrelationSafety.ResponseUnlessOvertaken | ClientChannelInterface/SdkSrc/net_inter_layer.cc:218-243 | in every run, SUCCESS brings a response if and only if, between the post and the read, no other request erased the entry under the same id for good |
| CorrelationSafety.SuccessIsOwn | ClientChannelInterface/SdkSrc/net_inter_layer.cc:66-75 | with fewer than 65535 ids per request lifetime, SUCCESS always brings a non-empty one |
| CorrelationSafety.PendingHasEntry | ClientChannelInterface/SdkSrc/net_inter_layer.cc:161-164 | in every run, a request between insert and erase has an entry under its id if and only if, since its insert, no other request with that id erased the entry without one inserting there again |
| CorrelationSafety.DomainIsPending | ClientChannelInterface/SdkSrc/net_inter_layer.cc:161-164 | with fewer than 65535 ids per request lifetime, the pending map holds exactly the ids of requests between insert and erase |
| CorrelationSafety.SuccessAnswersTheRequest | ClientChannelInterface/SdkSrc/net_inter_layer.cc:119-151 | in every run, a response sent under the id of the request it answers is returned by that request if and only if it was not 65535 ids late |
| CorrelationSafety.TimelyRunsAnswer | ClientChannelInterface/SdkSrc/net_inter_layer.cc:119-151 | so in a run without late requests and replies every SUCCESS answers its request |
| CorrelationProgress.WakesIfPosted | ClientChannelInterface/SdkSrc/net_inter_layer.cc:124-130 | in every run, a waiting request can take its semaphore if and only if some arrival has posted it, at whatever phase that found it |
| CorrelationProgress.ReplyCanBeReturned | ClientChannelInterface/SdkSrc/net_inter_layer.cc:218-243 | with fewer than 65535 ids per request lifetime, a reply under the id of a request that still sends, waits or has just woken can be returned by it, by its own steps alone, with SUCCESS |
| CorrelationProgress.CanReturn | ClientChannelInterface/SdkSrc/net_inter_layer.cc:177-244 | a request can return at any time by its own steps alone |
| CorrelationProgress.ReturnsItsReason | ClientChannelInterface/SdkSrc/net_inter_layer.cc:177-244 | in every run, a request returns a code if and only if the step for it occurred, and a response only with SUCCESS |
| CorrelationLimits.LateReplyIsTaken | ClientChannelInterface/SdkSrc/net_inter_layer.cc:66-75 | a late reply is returned with SUCCESS by another request, although only one request is live at a time |
| CorrelationLimits.OvertakenReadsNothing | ClientChannelInterface/SdkSrc/net_inter_layer.cc:223-243 | a request overtaken by 65535 ids returns SUCCESS with an empty response |
| NetInterLayer.CNetInterLayer.GetMessageId | ClientChannelInterface/SdkSrc/net_inter_layer.cc:66-75 | ids run from 1 to 65535 and start again at 1, by the literal bounds |
| NetInterLayer.CNetInterLayer.FindEventByMessageIdAndSetResponse | ClientChannelInterface/SdkSrc/net_inter_layer.cc:141-151 | returns the semaphore only the first time, and stores the response only under a pending id |
| NetInterLayer.CNetInterLayer.FindResponseByMessageId | ClientChannelInterface/SdkSrc/net_inter_layer.cc:153-158 | the stored response, or the empty one |
| NetInterLayer.CNetInterLayer.ReciveData | ClientChannelInterface/SdkSrc/net_inter_layer.cc:101-139 | unescapes, then pushes, drops or correlates, by id and kind of connection |
| Handoff.StepKeepsInv | ClientChannelInterface/SdkSrc/net_core_layer.cc:228-236 | queued requests are bytes in the pipe, plus one the reader holds, plus unannounced pushes, plus failed writes |
| Handoff.PopFindsARequest | ClientChannelInterface/SdkSrc/net_core_layer.cc:81-98 | a byte read is a request found, in the order of the pushes, in every interleaving |
| Handoff.LeftOver | ClientChannelInterface/SdkSrc/net_core_layer.cc:294-301 | in the end exactly the last requests are left over, one for each failed write |
| Handoff.AlwaysSettles | ClientChannelInterface/SdkSrc/net_core_layer.cc:81-98 | from every state the bytes, reads and writes can be worked off, so that only requests whose writes failed are left |
| Handoff.CThreadSafeList.PopFront | ClientChannelInterface/SdkSrc/threadSafe_list.h:29-40 | takes the oldest element, or reports that there is none |
| Wire.EscapedHasNoCrlf | ClientChannelInterface/SdkSrc/net_core_layer.cc:311-312 | escaped text never contains the delimiter |
| Wire.UnescapeEscape | ClientChannelInterface/SdkSrc/net_inter_layer.cc:105 | unescaping undoes escaping if and only if the message is free of the token, and shortens it otherwise |
| Wire.EscapeLineBreak | ClientChannelInterface/SdkSrc/net_core_layer.cc:311 | the first CR LF of a message goes out as backslash, r, backslash, n, given by their codes, and what precedes it unchanged |
| Wire.UnescapeToken | ClientChannelInterface/SdkSrc/net_inter_layer.cc:105 | and the first of these four characters come back as CR LF |
| Wire.SentEnds | ClientChannelInterface/SdkSrc/net_core_layer.cc:311-312 | each message on the wire is its escaped text, 13 and 10 |
| Wire.SplitJoined | ClientChannelInterface/SdkSrc/utils.h:54-65 | frames, delimiters and rest are the text; none of them contains the delimiter |
| Wire.SplitOfJoined | ClientChannelInterface/SdkSrc/utils.h:54-65 | splitting undoes joining for all frames without the delimiter |
| Wire.SplitData | ClientChannelInterface/SdkSrc/utils.h:54-65 | the erasing loop terminates and computes the split |
| Wire.ListRoundTrip | ClientChannelInterface/SdkSrc/net_core_layer.cc:154-155 | a list of messages comes out of escaping, framing, splitting and unescaping as it went in, if and only if none contains the token |
| Wire.FindIsFirst | ClientChannelInterface/SdkSrc/utils.h:74-80 | find returns the leftmost occurrence |
| Reassembly.Receiver.ReadCb | Server/src/accountLogic/local_transport.cc:300-328 | one callback on the fixed buffer is one step of the specification: what is taken, delivered and kept |
| Reassembly.Receiver.Drop | Server/src/accountLogic/local_transport.cc:324-326 | the memmove keeps exactly what follows the first n bytes |
| Reassembly.Conservation | Server/src/accountLogic/local_transport.cc:300-328 | delivered frames with their delimiters and the buffer are the bytes read, if and only if no read was lossy |
| Reassembly.SplitResumes | ClientChannelInterface/SdkSrc/utils.h:54-65 | splitting can stop at any byte and resume from the rest |
| Reassembly.CuttingDoesNotMatter | Server/src/accountLogic/local_transport.cc:300-328 | without lossy reads the frames are the split of the whole stream, however it was cut |
| ReassemblyFrames.SafeCuttings | ClientChannelInterface/SdkSrc/net_core_layer.cc:374-404 | for frames without single CRs and LFs, clean if and only if no delivering read ends between a CR and its LF |
| ReassemblyFrames.JoinedIsFramed | ClientChannelInterface/SdkSrc/net_core_layer.cc:374-404 | every joined list of such frames is a stream of the kind SafeCuttings speaks about |
| ReassemblyFrames.AllDelivered | Server/src/accountLogic/local_transport.cc:310-323 | from sender to receiver: the messages arrive as sent, if and only if none contains the token |
| ReassemblyFrames.NeverFull | Server/src/accountLogic/local_transport.cc:304-308 | if frames fit, the next read always has room |
| ReassemblyFrames.Wedged | Server/src/accountLogic/local_transport.cc:304-328 | after any frames, one that does not fit is never delivered: every further read leaves what was delivered before it, and at most a full buffer of it |
| ReassemblyFrames.WedgedFromTheStart | Server/src/accountLogic/local_transport.cc:304-328 | as the first frame of a stream this holds for every cutting and every content |
| ReassemblyFrames.DanglingCrLoses | Server/src/accountLogic/local_transport.cc:324-326 | for all frames, what one unsafe cut loses and spoils |
| WorkQueue.Consumers.PutData | Server/src/accountLogic/consumers.cc:71-87 | appends to the contents unless the queue is full, with 32-bit index arithmetic |
| WorkQueue.Consumers.GetData | Server/src/accountLogic/consumers.cc:41-70 | takes the first of the contents unless the queue is empty |
| WorkQueue.IndexIsSlot | Server/src/accountLogic/consumers.cc:82 | the uint32_t index does not wrap for any capacity that is an int |
| WorkQueue.Fifo | Server/src/accountLogic/consumers.cc:41-87 | in every interleaving, puts are gets followed by the contents, within the capacity |
| WorkQueue.NoLostWakeup | Server/src/accountLogic/consumers.cc:45-55 | a sleeping producer means full, a sleeping consumer means empty, and they never sleep together |
| WorkQueue.NeverStuck | Server/src/accountLogic/consumers.cc:64-67 | whatever sleeps, one call of the other kind succeeds and wakes it to a queue it can use |
| WorkQueue.EachCallOnce | Server/src/accountLogic/consumers.cc:41-87 | in every interleaving, each call takes effect once, however often it is woken |
| WorkQueue.TurnDecides | Server/src/accountLogic/consumers.cc:71-87 | a turn takes effect, ends the call and wakes all others, or puts its thread to sleep and changes nothing else |
| WorkQueue.SpuriousIsHarmless | Server/src/accountLogic/consumers.cc:45-55 | a wakeup without a broadcast leads back to the same state |
| Md5Rounds.FourSteps | Server/src/accountLogic/md5.cc:167-237 | four lines with rotated arguments are four indexed steps of section 3.4 of RFC 1321 |
| Md5Rounds.Round1 | Server/src/accountLogic/md5.cc:167-183 | the first 16 unrolled lines compute steps 0 to 15 |
| Md5Rounds.Round2 | Server/src/accountLogic/md5.cc:185-201 | the next 16 lines compute steps 16 to 31 |
| Md5Rounds.Round3 | Server/src/accountLogic/md5.cc:203-219 | the next 16 lines compute steps 32 to 47 |
| Md5Rounds.Round4 | Server/src/accountLogic/md5.cc:221-237 | the last 16 lines compute steps 48 to 63 |
| Md5.MD5.Transform | Server/src/accountLogic/md5.cc:162-246 | the unrolled compression is the table-driven one, for every block and state |
| Md5.Decode | Server/src/accountLogic/md5.cc:138-143 | bytes to words, low-order byte first |
| Md5.Encode | Server/src/accountLogic/md5.cc:149-157 | words to bytes, low-order byte first |
| Md5.EncodeCount | Server/src/accountLogic/md5.cc:149-157 | and the counter words to bytes, in the same order |
| Md5Spec.WordsOfBytes | Server/src/accountLogic/md5.cc:138-157 | decode after encode is the identity on words |
| Md5Spec.BytesOfWords | Server/src/accountLogic/md5.cc:138-157 | encode after decode is the identity on bytes |
| Md5.CounterAdds | Server/src/accountLogic/md5.cc:257-260 | the carry test makes the two words one counter of bits modulo 2^64 |
| Md5.BlockLoopStaysInside | Server/src/accountLogic/md5.cc:275 | the 32-bit loop guard stays inside the input for exactly these lengths |
| Md5.MD5.Update | Server/src/accountLogic/md5.cc:252-285 | one call appends to the abstract stream: registers over complete blocks, the remainder in the buffer, the bit count |
| Md5.MD5.Finalize | Server/src/accountLogic/md5.cc:299-331 | writes the digest of the stream once, then zeroizes; a second call changes nothing |
| Md5.MD5.FromText | Server/src/accountLogic/md5.cc:112-117 | the shortcut constructor holds the RFC 1321 digest of its text |
| Md5Vectors.EmptyDigest | Server/src/accountLogic/md5.cc:112-117 | the digest of the empty text is the one of appendix A.5 of RFC 1321, built up step by step |
| Md5Vectors.AbcDigest | Server/src/accountLogic/md5.cc:112-117 | and so is that of "abc" |
| Md5Bits.RotateLeftIs | Server/src/accountLogic/md5.cc:79-81 | the rotation of every step as a product and a quotient of powers of two, modulo 2^32 |
| Md5Bits.FBits | Server/src/accountLogic/md5.cc:62-64 | each bit of F is that of y where x has a 1, and that of z elsewhere |
| Md5Bits.GBits | Server/src/accountLogic/md5.cc:66-68 | each bit of G is that of x where z has a 1, and that of y elsewhere |
| Md5Bits.HBits | Server/src/accountLogic/md5.cc:70-72 | each bit of H is the parity of the three |
| Md5Bits.IBits | Server/src/accountLogic/md5.cc:74-76 | each bit of I is that of y, inverted where x has a 1 or z a 0 |
| Md5Bits.WordOfIs | Server/src/accountLogic/md5.cc:138-143 | a word is the sum of its bytes with the low-order byte first |
| Md5Bits.LengthBytesAre | Server/src/accountLogic/md5.cc:308-310 | the closing length is the bit count in eight bytes, the low-order one first |
| Md5Stream.AbsorbConcat | Server/src/accountLogic/md5.cc:252-285 | two updates are one update on the concatenation |
| Md5Stream.FinishIsDigest | Server/src/accountLogic/md5.cc:299-331 | padding by buffered bytes and a 64-bit length is the padding of sections 3.1 and 3.2 of RFC 1321 |
| Md5Stream.StreamingDigest | Server/src/accountLogic/md5.cc:252-331 | for every message and every way of cutting it into updates, finalize yields its RFC 1321 digest |
| Base64Codec.Base64Encode | Server/src/deviceInfo/base64.cc:43-85 | the loop over groups of three computes the encoding of section 4 of RFC 4648 |
| Base64Codec.Base64Decode | Server/src/deviceInfo/base64.cc:87-128 | the loop over groups of four computes the bytes of the longest prefix of letters |
| Base64Codec.LanesDecideBytes | Server/src/deviceInfo/base64.cc:111-125 | the 255 of a failed find never reaches a byte that is kept |
| Base64.DecodeEncode | Server/src/deviceInfo/base64.cc:43-128 | decoding undoes encoding for every byte string |
| Base64.EncodeDecode | Server/src/deviceInfo/base64.cc:43-128 | encoding undoes decoding if and only if the text is canonical |
| Base64.EncodedLength | Server/src/deviceInfo/base64.cc:43-85 | the length is four characters for every three bytes begun, so only nothing encodes to nothing |
| Base64.EncodedCharacters | Server/src/deviceInfo/base64.cc:32-85 | every character of an encoding by its ASCII code, from six bits of the input bytes taken by arithmetic, and where the equals signs are |
| Base64.DecodedBytes | Server/src/deviceInfo/base64.cc:87-128 | every byte of a decoding, from the positions of the two letters that hold its bits |
| Base64.DecodedLength | Server/src/deviceInfo/base64.cc:87-128 | three bytes for four letters, and what whole bytes the last ones hold |
| Base64.AlphabetPositions | Server/src/deviceInfo/base64.cc:32-41 | every letter has one position, and is_base64 accepts nothing else |
| Base64.EncoderBits | Server/src/deviceInfo/base64.cc:54-57 | the shifts and masks cut 24 bits into four sextets |
| Base64.DecoderBits | Server/src/deviceInfo/base64.cc:101-103 | the shifts and masks join four sextets into 24 bits |
| CloudSee.CreateRequestDeviceInfo | Server/src/deviceInfo/cloudsee_data_opt.cc:134-198 | the buffer holds the packet of the guids and a zero behind it, or an empty guid has thrown |
| CloudSee.RequestFields | Server/src/deviceInfo/cloudsee_data_opt.cc:134-188 | the head of every packet byte by byte, most significant byte first: its length, 10 and 4, the message id modulo 65536, the number of guids |
| CloudSee.RequestEntry | Server/src/deviceInfo/cloudsee_data_opt.cc:158-169 | every entry byte by byte: the first character, three zeros, the number behind it modulo 2^32 |
| CloudSee.ParseResponseDeviceInfo | Server/src/deviceInfo/cloudsee_data_opt.cc:200-279 | accepts by length, service and message type, and reads every entry |
| CloudSee.ResponseEntry | Server/src/deviceInfo/cloudsee_data_opt.cc:230-275 | every parsed entry byte by byte: name up to a zero and signed number, flag, channels, streams, net, type |
| CloudSee.GuidRoundTrip | Server/src/deviceInfo/cloudsee_data_opt.cc:236-250 | group and number rebuild the guid if and only if it is a character and a canonical int |
| CloudSee.RepliesParse | Server/src/deviceInfo/cloudsee_data_opt.cc:230-275 | an answer that repeats the entries parses to the same guids with their statuses |
| CloudSee.GetDeviceOnlineStatusCloudSee | Server/src/deviceInfo/logic_operate.cc:1311-1324 | the loop finds the last entry of the guid, or leaves the flag |
| CloudSee.LookupFinds | Server/src/deviceInfo/logic_operate.cc:1311-1324 | looking up any requested guid in the parsed answer finds the status given for it |
| DeviceCache.StepKeepsCoherent | Server/src/deviceInfo_HomeCloud/logic_operate.cc:338-359 | from a coherent cache, a step ends in one if and only if its SQL statement took effect or did not matter |
| DeviceCache.LookupTellsTheBound | Server/src/deviceInfo_HomeCloud/logic_operate.cc:338-362 | after any run of harmless steps, a lookup answers with exactly the bound users |
| DeviceCache.EmptiedSetStays | Server/src/deviceInfo_HomeCloud/logic_operate.cc:348-351 | the sentinel keeps the key of a device that has lost its last user |
| DeviceCache.BoundByTheLast | Server/src/deviceInfo_HomeCloud/logic_operate.cc:1050-1061 | in every run, a user is bound to a device if and only if the last statement about it that took effect bound it; a reset that holds a user ends the bindings of all others |
| DeviceCache.KeyByTheLast | Server/src/deviceInfo_HomeCloud/logic_operate.cc:338-359 | a device has a cache key if and only if it was looked up and not reset since |
| DeviceCache.RedisSets | Server/src/deviceInfo_HomeCloud/logic_operate.cc:348-356 | what SADD and SREM do to the members of every key, and that a key without members does not exist |
| DeviceCache.LogicOperate.UserBindDevice | Server/src/deviceInfo_HomeCloud/logic_operate.cc:508-515 | database, then an existing key only |
| DeviceCache.LogicOperate.UserRemoveBindDevice | Server/src/deviceInfo_HomeCloud/logic_operate.cc:538-545 | database, then an existing key only |
| DeviceCache.LogicOperate.GetDeviceUsers | Server/src/deviceInfo_HomeCloud/logic_operate.cc:338-362 | reads an existing key, fills a missing one with sentinel and users, and answers without the sentinel |
| DeviceCache.LogicOperate.RemoveBindByDevice | Server/src/deviceInfo_HomeCloud/logic_operate.cc:1037-1048 | clears the bindings and the key |
| DeviceCache.LogicOperate.RemoveBindByDeviceHoldUser | Server/src/deviceInfo_HomeCloud/logic_operate.cc:1050-1061 | clears all bindings but one user's, and the key |
| PhoneOwner.StepKeepsInv | Server/src/accountLogic/logic_operate.cc:584-611 | a step keeps every stored phone id with its owner if and only if it is safe, by guard and by failing command |
| PhoneOwner.OneHolder | Server/src/accountLogic/logic_operate.cc:584-700 | after any run of safe steps, no two users hold the same phone id |
| PhoneOwner.ReportsAreSafe | Server/src/accountLogic/logic_operate.cc:589-608 | with the present owner read and all commands succeeding, a report leaves exactly the reporting user with the id |
| PhoneOwner.StaleGetErases | Server/src/accountLogic/logic_operate.cc:589-597 | a GET that names an earlier owner makes the report take whatever id that user rightly holds now |
| PhoneOwner.AlarmOnSteals | Server/src/accountLogic/logic_operate.cc:658-677 | turning the alarm on with another user's phone id gives it two holders |
| PhoneOwner.HoldsTheLastStored | Server/src/accountLogic/logic_operate.cc:642-704 | in every run, a login hash holds a phone id if and only if a step stored it there and no later one replaced it or took it away, as turning the alarm off does |
| PhoneOwner.OwnedByTheLastReport | Server/src/accountLogic/logic_operate.cc:599-608 | in every run, the owner of a phone id is the user of the last report that succeeded throughout with it |
| PhoneOwner.Cache.ReportClientInfoToCache | Server/src/accountLogic/logic_operate.cc:584-611 | what hash and owner hold after each command that fails |
| PhoneOwner.Cache.SetCurrentAlarmFlag | Server/src/accountLogic/logic_operate.cc:642-704 | the two orders of writes for on and off, and no change for any other flag |
| SqlPool.NeverBeyond | Server/src/accountLogic/sql_conn_pool.cc:155-180 | k releasing threads never push the queue beyond 64 + k, and never a duplicate into it |
| SqlPool.BoundIsReached | Server/src/accountLogic/sql_conn_pool.cc:157-161 | for every k there is an interleaving that fills it to 64 + k |
| SqlPool.CheckTurnsAway | Server/src/accountLogic/sql_conn_pool.cc:157-161 | the check turns a connection away if and only if more than 64 are idle |
| SqlPool.InOrderOfRelease | Server/src/accountLogic/sql_conn_pool.cc:122-180 | in every interleaving, connections are handed out in the order of their release |
| SqlPool.CSqlConnPool.Push | Server/src/accountLogic/sql_conn_pool.cc:163-179 | the search loop appends a connection that is not queued yet |
| SqlPool.CSqlConnPool.GetConnection | Server/src/accountLogic/sql_conn_pool.cc:122-153 | the oldest idle connection even if it was just terminated, a new one only if none was idle |
| Humiture.InsideScores | Server/src/deviceInfo_HomeCloud/logic_operate.cc:850-858 | every reading in the region scores 89 to 100 |
| Humiture.OutsideScores | Server/src/deviceInfo_HomeCloud/logic_operate.cc:859-892 | every reading outside scores at most 89 |
| Humiture.InsideRanksFirst | Server/src/deviceInfo_HomeCloud/logic_operate.cc:850-892 | no reading outside outranks one inside |
| Humiture.TieIsPossible | Server/src/deviceInfo_HomeCloud/logic_operate.cc:850-892 | the bound 89 is reached from both sides |
| Humiture.TemperatureContinuous | Server/src/deviceInfo_HomeCloud/logic_operate.cc:864-873 | the temperature pieces meet, with a bound on the slope |
| Humiture.HumidityContinuous | Server/src/deviceInfo_HomeCloud/logic_operate.cc:875-886 | the humidity pieces meet, with a bound on the slope |
| Humiture.PeakIsComfortable | Server/src/deviceInfo_HomeCloud/logic_operate.cc:864-888 | each outside piece is at most 45, both reach 45 only at 24 degrees and 55 percent, and that reading lies inside the region |
| Humiture.TemperaturePieces | Server/src/deviceInfo_HomeCloud/logic_operate.cc:864-873 | the temperature scores as straight lines between their values at 13, 15, 18, 24, 27 and 35 degrees |
| Humiture.HumidityPieces | Server/src/deviceInfo_HomeCloud/logic_operate.cc:875-886 | the humidity scores as straight lines between their values at 0, 40, 45, 55, 65, 70 and 100 percent |
| Humiture.ScoreIs | Server/src/deviceInfo_HomeCloud/logic_operate.cc:846-892 | the region by its four lines, and the score as a whole number, cut off towards zero |

## Left out

- Md5.MD5.Update: not modelled for lengths beyond the bound of BlockLoopStaysInside, where the code reads past its input.
- Md5.MD5.FromText: the same bound, for an empty buffer.
- Wire.SplitData: an empty delimiter, on which the loop of the source does not end; every caller passes CRLF.
- CloudSee.CreateRequestDeviceInfo: at most 3838 guids. The next entry is written past the 30720 bytes before the size test behind it can return, so that branch has no defined result.
- CloudSee.ParseResponseDeviceInfo: entries beyond the buffer, because the code does not check the count it receives.
- CloudSee.RepliesParse: four group bytes that are all not zero, which leave the group name of the parser without a terminator; the model reads exactly four characters. A request never sends such a group.
- CloudSee.GuidRoundTrip: numbers outside the range of int, for which atoi is undefined.
- WorkQueue.Consumers.PutData: one turn under the mutex; waiting on the condition variable is the step Turn of the state machine. The flag `closed`, which nothing sets, is not modelled.
- Humiture.InsideScores: over the reals, without rounding; the square root is a parameter tied to its square. Sorting, ranking text and the assessment bits are left out.
- DeviceCache.StepKeepsCoherent: handlers and Redis commands are atomic and Redis commands succeed; a lookup query that another handler overtakes is covered by what the query returned.
- PhoneOwner.StepKeepsInv: handlers are atomic, except that a GET may have named any user; phone ids are assumed not to collide with other Redis keys.
- Relay: one server process. The Redis record also names the server, and a record written by another server is not modelled; a failed HSET is taken not to have been applied; commands of one handler interleave with all other steps, but each is atomic.
- Correlation: JSON parsing is a parameter, and a posted semaphore that was already destroyed is taken to be harmless. GetResponseByRequest as a whole is a sequence of steps, not one method, since other threads act between any two of them.
- Handoff: the capacity of the pipe, and what the event thread does with a request.
- Reassembly: the reader of short connections, which delivers only the first frame and closes.
- The hexadecimal text of a digest, and the map and list operations that nothing modelled here uses.
- The push-message thread, connecting, timers, configuration, logging and everything that only moves data between JSON, SQL and Redis.
- The deviceInfo variant of request correlation keys on ids chosen by the caller, one of them constant, so nothing can be matched by it.
- The alarm-list cap compares with a reply type instead of a length, and version comparison in autoUpdate is not an ordering; neither has a property to prove.
- Copies of the same file in sibling services.
