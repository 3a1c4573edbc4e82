# Verified model of librsswitch and its network and web programs

librsswitch switches 433 MHz radio sockets.  A tap in the web app becomes a change of the
household document and a text line to a daemon; the daemon parses the line and calls the
library; the library turns an address into a tri-state codeword and the codeword into
pulses on a GPIO line; and an answer travels all the way back.  This project models each
link of that chain in Dafny and proves what the links promise, one by one and together.

| file | what it models |
|---|---|
| `Text.dfy` | numbers as decimal text, as the programs print and read them |
| `Codewords.dfy` | the code tables of the two supported devices |
| `Grammar.dfy`, `LineStream.dfy` | what the line protocol means: which line is which command, and what a byte stream is |
| `Protocol.dfy` | the parser of the daemon, against that meaning |
| `Pulses.dfy`, `PulseDecoder.dfy` | transmissions as pulse trains, and the decoder of the test suite |
| `Line.dfy` | what an observer of the GPIO line sees, and the waveforms of the symbols |
| `Boards.dfy` | the GPIO line driver for both libgpiod versions, and the recording board of the host build |
| `Sending.dfy`, `SendLock.dfy` | the library calls on one board, and any number of threads calling them |
| `Daemon.dfy`, `Client.dfy` | the serving loop, the client of the web app, and one command between them |
| `Household.dfy`, `Changes.dfy`, `Effects.dfy`, `Recording.dfy` | the household document, every change of it, what each change does place by place, and the record of a confirmed command |
| `Store.dfy` | the locked read-modify-write of the data file, and the room and socket routes |
| `Switching.dfy`, `Interleaving.dfy` | switching one socket and all of them off, and any number of requests at once |
| `LoginLimiter.dfy` | the bounded table of failed logins |

The main results:

- **One command, end to end** (`Client.Exchange`, `Client.ExchangeIsSettled`): when the
  web client learns success, the whole transmission of exactly that address is on the air
  and nothing else; when it learns a range error nothing was sent; neither a broken reply
  nor a write that gave up part-way is ever taken for an answer.  A command in range whose
  reply is heard is a success when no fault strikes.
- **The parser** (`Grammar.SwitchBijection`, `Grammar.RawBijection`, `Protocol.ParseLine`,
  `Protocol.ReceiveAll`, `LineStream.StreamMeaning`): commands and accepted lines are in
  bijection, and the results of a stream do not depend on how it is cut into reads.
- **The air** (`SendLock.Serialised`, `SendLock.LineIsKnown`, `SendLock.SessionsAreOwn`,
  `SendLock.ReceiverHearsLockOrder`, `PulseDecoder.RoundTrip`): threads stop and start
  between any two writes of a pulse, and any write may fail.  Still sessions never overlap,
  the log is what each of them sent, in lock order, each is that of the call that took the
  lock for it, the driver knows the level of the line, and the line is low when the lock is
  given back unless `board_exit` failed and said so.  Decoding inverts encoding.
- **The line** (`Sending.Library.SocketSend`, `Line.SymbolWaves`): the trace of writes and
  waits on the GPIO line is exactly the waveform of the codeword; a call returns 0 exactly
  when its request and config are acceptable and no call into the system fails.
- **The record** (`Interleaving.LastSentIsTrue`): however switches, batches, edits, moves
  and deletes interleave, a `last_sent` shows a command for that socket and for the address
  it has now, which the daemon confirmed at that time in an exchange that put the whole
  transmission on the air.  It need not be the latest one: `Recording.LatestIff` says
  exactly which orders of recording end with the latest, `Interleaving.LatestIsShown` says
  it of a socket in a run, and `Interleaving.LastAnswerIsShown` of the last answer when the
  clock does not go back.
- **The household** (`Effects`, `Store.EditIsAsAsked`, the verdicts in `Store`): when a
  route is done, the change that was asked for has happened, in its place and nowhere else;
  and each failure is returned exactly for its cause.
- **The batch** (`Switching.AllOff` and the lemmas about its specification;
  `Switching.BatchStaysInRoom`, `Switching.TraceSwitchesOff`; `Interleaving.BatchIsARun` in
  the midst of other requests).
- **The limiter** (`LoginLimiter.AddressesAreIndependent`, `LoginLimiter.LocksIff`,
  `LoginLimiter.LockLasts`, `LoginLimiter.RateIsBounded`): a shared, lazily cleared, evicting table answers like
  independent counters as long as it evicts nothing; when exactly it locks, for the calls
  that the login hook makes and with every eviction, and for how long; how much gets through
  when it does not.

Faults, reads, writes, clocks and stop requests are inputs: the model quantifies over
them.  Which calls into the system work, and what each reading of the clock gives, are
functions of their number; a `bool := *` in a method body is a signal, which may come at
any time.

Where the code and its own words differ, the code is modelled:

- `auth.py` says that `max_failures` failures within `window` seconds lock an address
  (lines 59-60).  For an address that is not locked already that fails in two ways.  The
  window is that of the first failure that counts, so failures that straddle its end may
  start no lock; and a table that is full forgets the count of an address when another one
  fails.  `LoginLimiter.WindowDoesNotSlide` and `LoginLimiter.EvictionForgets` are runs of
  the login hook on an empty table, and `LoginLimiter.LocksIff` says exactly when a lock
  starts, whoever else calls, fails or is evicted, and however often anyone asks.
- `switching.py` says that `recorded` is false when the command was not recorded (lines
  80-83), and `Switching.NotedIsStored` proves that.  The converse fails: `recorded` may be
  false although the command is in the data file.  When the directory of the file cannot be
  synced, the new file is already in place and the record is reported as failed all the
  same (`store.py`, lines 192-220); and when nothing was written, the socket may have held
  the same state and time before.  `Switching.RecordedUnsynced` is a case of the first, and
  `Switching.StoredButNotNoted` says for every turn exactly when either happens.

## Model

| member | source | states |
|---|---|---|
| Text.DecimalIsCanonical | examples/network/rsswitchd_proto.c:76-92 | a printed number is digits without a leading zero, and reading it gives the number back |
| Text.CanonicalIsDecimal | examples/network/rsswitchd_proto.c:76-119 | the other direction: a canonical field is the print of its own value |
| Text.TenDigits | examples/network/rsswitchd_proto.c:94-119 | every 32-bit number has at most ten digits, so refusing longer fields refuses nothing that fits |
| Text.DecimalInjective | examples/web/rsswitch_web/daemon.py:165 | two numbers that print alike are equal |
| Codewords.CodewordIsSendable | librsswitch.c:326-343 | the codeword of every valid address has 12 symbols, so the buffer check never fires |
| Codewords.LimitsAre | librsswitch.c:69-98 | the valid addresses are groups 0-3 and sockets 0-2 of device 0, and 0-31 and 0-31 of device 1, with data 0-1 |
| Codewords.RevSymbols | librsswitch.c:75-78 | a REV codeword symbol by symbol: the one 1 of each part stands at its index, and on is 0010 |
| Codewords.PollinSymbols | librsswitch.c:80-98 | a Pollin codeword symbol by symbol: a 0 for each bit of group and socket that is set, and on is 0F |
| Codewords.OnlyRevHasOne | librsswitch.c:75-98 | only REV codewords hold a 1, and each of them does |
| Codewords.CodewordInjective | librsswitch.c:75-98 | no two valid addresses and states, over both devices, share a codeword |
| Grammar.CheckRange | examples/network/rsswitchd_proto.c:129-168 | the switch command results exactly inside the limits of the device, otherwise a range error |
| Grammar.Verdict | examples/network/rsswitchd_proto.c:282-302 | four well-formed numbers give the switch command exactly when all are in range, and never a syntax error |
| Grammar.RawVerdict | examples/network/rsswitchd_proto.c:214-242 | a tri-state word and a number give the raw command exactly for 1-12 symbols and 50-2000 microseconds |
| Grammar.FieldsOfJoin | examples/network/rsswitchd_proto.c:49-68 | splitting what was joined with single spaces gives the fields back |
| Grammar.JoinOfFields | examples/network/rsswitchd_proto.c:49-68 | joining the fields of any line gives the line back, empty fields included |
| Grammar.SwitchLineByFields | examples/network/rsswitchd_proto.c:257-302 | a line is the print of four numbers exactly when its fields are four canonical numbers |
| Grammar.RawLineByFields | examples/network/rsswitchd_proto.c:184-243 | a line is the print of a raw command exactly when its fields are raw, a tri-state word and a canonical number |
| Grammar.SwitchLineVerdict | examples/network/rsswitchd_proto.c:282-302 | the answer to a printed switch line depends on its four numbers only |
| Grammar.RawLineVerdict | examples/network/rsswitchd_proto.c:184-243 | the answer to a printed raw line depends on its word and number only |
| Grammar.SwitchBijection | examples/network/rsswitchd_proto.c:257-303 | a line yields a switch command exactly when it is the one print of that command and the address is in range |
| Grammar.RawBijection | examples/network/rsswitchd_proto.c:184-243 | the same for raw commands |
| Grammar.SyntaxErrorIff | examples/network/rsswitchd_proto.c:245-303 | a syntax error is the answer exactly to lines that print no command at all |
| Grammar.ConversionBeforeRange | examples/network/rsswitchd_proto.c:292-302 | a field that does not fit 32 bits wins over any field outside its limits, and the first such field is named |
| Grammar.RangeErrorNames | examples/network/rsswitchd_proto.c:129-168 | of fields that convert the first one out of range is named, with its value and its own limit |
| Grammar.RawErrorNames | examples/network/rsswitchd_proto.c:214-242 | of a raw command the length of the word is complained about first, then the conversion of the number, then its limits |
| LineStream.RunSplit | examples/network/rsswitchd_proto.c:311-363 | reading a stream in two parts gives the state and the results of reading it at once |
| LineStream.RunPartial | examples/network/rsswitchd_proto.c:345-359 | a line gives nothing up to byte 128, one complaint at byte 129 and nothing after it |
| LineStream.RunLine | examples/network/rsswitchd_proto.c:317-343 | a line with its newline gives exactly one result and leaves a fresh state |
| LineStream.LineLimit | examples/network/rsswitchd_proto.c:345-357 | a line of 128 bytes is read, a longer one gives the complaint about its length |
| LineStream.CrDoesNotCount | examples/network/rsswitchd_proto.c:325-342 | one carriage return before the newline changes nothing, and nothing else is dropped |
| LineStream.SplitLines | examples/network/rsswitchd_proto.c:311-363 | every stream is some whole lines and a rest without a newline |
| LineStream.SplitIsUnique | examples/network/rsswitchd_proto.c:311-363 | and it is that in one way only |
| LineStream.StreamMeaning | examples/network/rsswitchd_proto.c:305-363 | the whole stream means one result per line in order, plus the complaint about an unfinished line that is already too long |
| LineStream.StateBounded | examples/network/rsswitchd_proto.c:345-357 | the collected part never exceeds 128 bytes and holds no newline |
| Protocol.SplitFields | examples/network/rsswitchd_proto.c:49-68 | the loop counts every field and keeps the first of them |
| Protocol.SplitIsFields | examples/network/rsswitchd_proto.c:49-68 | splitting byte by byte gives the fields between the spaces |
| Protocol.FieldOk | examples/network/rsswitchd_proto.c:76-92 | accepts exactly the canonical numbers |
| Protocol.FieldToU32 | examples/network/rsswitchd_proto.c:100-119 | converts exactly the values up to 2^32 - 1 |
| Protocol.ParseRaw | examples/network/rsswitchd_proto.c:184-243 | syntax of both fields first, then the verdict on word and number |
| Protocol.ParseSwitch | examples/network/rsswitchd_proto.c:282-302 | syntax of all four fields first, then the verdict on the numbers |
| Protocol.ParseLine | examples/network/rsswitchd_proto.c:257-303 | gives every line the answer that the grammar owes to it |
| Protocol.FinishLine | examples/network/rsswitchd_proto.c:325-342 | one carriage return before the newline is dropped, an empty line is its own result |
| Protocol.ProtoConn.constructor | examples/network/rsswitchd_proto.c:305-309 | a new connection is in the fresh state |
| Protocol.ProtoConn.Init | examples/network/rsswitchd_proto.c:305-309 | a connection in use is reset to the fresh state |
| Protocol.ProtoConn.Take | examples/network/rsswitchd_proto.c:317-359 | one byte moves the state and completes a result as the stream semantics say |
| Protocol.ProtoConn.Next | examples/network/rsswitchd_proto.c:311-363 | stops right behind the byte that completes a result, and otherwise takes all input into its state, as the stream semantics say |
| Protocol.ProtoConn.Drain | examples/network/rsswitchd.c:628-638 | calling it until nothing is left gives all results of one read |
| Protocol.ReceiveAll | examples/network/rsswitchd_proto.c:305-363 | any cutting of a stream into reads gives the results and the state of the whole stream |
| Pulses.TransmissionLength | librsswitch.c:193-227 | a transmission of n symbols is 10 * (2n + 1) pulses |
| Pulses.FrameUnique | tests/pulse_decode.h:56-107 | a pulse train starts with at most one frame: codewords with their sync form a prefix code |
| Pulses.TransmissionUnique | tests/pulse_decode.h:116-137 | a pulse train starts with at most one transmission |
| Pulses.TrainInjective | librsswitch.c:193-273 | different lists of messages never give the same pulse train |
| Pulses.TransmissionDuration | librsswitch.c:193-273 | the delays of a transmission add up to 10 * (8n + 32) pulse lengths, whatever the symbols |
| Pulses.RepeatedSafe | librsswitch.c:234-273 | with a legal pulse length no pulse asks for a line that is high for more than 6 ms, and the products of length and counts are below 2^32 |
| Line.SymbolWaves | librsswitch.c:229-273 | a 0 is two short pulses on the line, a 1 two long ones, an F a short and a long one, and the sync pulse is high for one pulse length and low for 31 |
| Line.WavesTake | librsswitch.c:193-273 | the waveform of pulses takes the time that they ask for |
| Line.KeyedHigh | librsswitch.c:193-273 | however far a transmission gets, it keeps the line high without a break for at most three pulse lengths |
| PulseDecoder.DecodeFrame | tests/pulse_decode.h:56-107 | a decoded frame is the encoding of what was decoded; a refusal means that no frame that fits stands there |
| PulseDecoder.MoreFrames | tests/pulse_decode.h:116-137 | the loop over the other frames: success means that all of them equal the first, failure that no transmission that fits stands there |
| PulseDecoder.NextTransmission | tests/pulse_decode.h:116-137 | the same for ten equal frames |
| PulseDecoder.DecodeLog | tests/pulse_decode.h:116-137 | a log is decoded exactly when it is the pulse train of some messages, which are then the result |
| PulseDecoder.RoundTrip | tests/pulse_decode.h:116-137 | for any messages of 1-12 symbols, encoding and then decoding gives the same words and pulse lengths and uses up the whole log |
| Boards.NoWrap | boards/gpiod/gpiod_board.c:333-349 | the 32-bit product of a legal pulse length and a pulse count is the true product |
| Boards.Board.constructor | boards/gpiod/gpiod_board.c:83-88 | no session is open at the start |
| Boards.Board.Init | boards/gpiod/gpiod_board.c:90-264 | success, exactly when the config is acceptable and no call fails, leaves an open session on the chip of that config with a line that was just driven low; failure leaves no handle open and the line untouched |
| Boards.Board.InitV1 | boards/gpiod/gpiod_board.c:90-127 | the same for the first libgpiod API |
| Boards.Board.InitV2 | boards/gpiod/gpiod_board.c:181-264 | the same for the second one, where settings and configs are freed exactly once on every path |
| Boards.Board.InitHost | boards/x86_64/x86_64.c:32-41 | counts the session, and counts an overlap when another one is open |
| Boards.Board.OpenChip | boards/gpiod/gpiod_board.c:98-103 | the chip is opened by the config that was given |
| Boards.Board.Transmit | boards/gpiod/gpiod_board.c:333-371 | success, exactly when no call fails, leaves the line high for pulse_len * nhigh and then low for pulse_len * nlow; a second write that fails leaves it high, and the driver knows it |
| Boards.Board.TransmitHost | boards/x86_64/x86_64.c:68-88 | records each pulse unless the log is full, and fails exactly when the fault that was set is due |
| Boards.Board.Delay | boards/gpiod/gpiod_board.c:314-329 | asks for a wait of all of the microseconds |
| Boards.SplitDelay | boards/gpiod/gpiod_board.c:314-329 | seconds and nanoseconds are normalised and add up to the wait |
| Boards.Board.Exit | boards/gpiod/gpiod_board.c:129-297 | everything that a session holds is released once; a line that is high is driven low, unless that very write fails, and then it returns -1 |
| Sending.TristateCheck | librsswitch.c:165-183 | accepts exactly non-empty words of 0, 1 and F |
| Sending.AddressCheck | librsswitch.c:132-157 | accepts exactly the addresses inside the tables |
| Sending.AcceptedIsSendable | librsswitch.c:372-463 | what either call accepts is a word of 1-12 symbols with a legal pulse length |
| Sending.SendSymbol | librsswitch.c:234-263 | the two pulses of the symbol exactly when no fault strikes, otherwise none or the first, and on the line their waveform |
| Sending.SendFrame | librsswitch.c:204-224 | the codeword and its sync pulse exactly when no fault strikes, otherwise a proper part |
| Sending.SendFrames | librsswitch.c:201-225 | so for any number of repetitions |
| Sending.SendTris | librsswitch.c:193-227 | returns 0 exactly for a tri-state word that no fault strikes, and then has sent the whole transmission; otherwise a proper prefix of it, and of another word nothing; the line shows just that |
| Sending.SocketCtrl | librsswitch.c:326-355 | a word that fits is sent like that; one that does not fit, or is no tri-state word, gives -1 and leaves the line alone |
| Sending.DeviceSend | librsswitch.c:286-315 | sends the codeword of the address at 350 microseconds, exactly when no fault strikes |
| Sending.Library.SocketGpioConfig | librsswitch.c:357-365 | stores the config exactly when the lock could be taken, and gives the lock back |
| Sending.Library.SocketSend | librsswitch.c:372-419 | returns 0 exactly when the address is valid, the config acceptable and no call fails; a rejected address opens no session; an opened one uses the stored config, sends all exactly when 0 is returned and a proper prefix otherwise; the line shows the waveform of just that, and is low at the release unless board_exit failed; the lock is given back |
| Sending.Library.DeviceSession | librsswitch.c:389-417 | the same for the part under the lock |
| Sending.Library.SocketSendCodeword | librsswitch.c:438-488 | the same for a raw word |
| Sending.ShapeOfSession | librsswitch.c:385-417 | a session leaves the line with the low output that was requested, the waveform of what was sent and perhaps a pulse that was cut off, and high for at most three pulse lengths |
| Sending.TimeOfSession | librsswitch.c:193-273 | a whole session takes 10 * (8n + 32) pulse lengths |
| SendLock.PcAdvances | librsswitch.c:193-263 | each pulse of the loops of send_tris brings what was sent one pulse further along the transmission |
| SendLock.PcUnfinished | librsswitch.c:193-227 | what was sent is a proper prefix of the transmission until the last repetition is over, and then all of it |
| SendLock.StepInvariant | librsswitch.c:357-488 | every step of every thread, and every write of a board that works or fails, keeps the invariant of lock, sessions, log and line |
| SendLock.RunInvariant | librsswitch.c:357-488 | so does every interleaving of any number of threads |
| SendLock.Serialised | librsswitch.c:61-67 | sessions never overlap; the log is what they sent in lock order; each sent a prefix of the transmission of an accepted request with the config stored last before it took the lock; one that has returned sent all of it exactly when it returned 0, and left the line low unless its board_exit failed |
| SendLock.SessionsAreOwn | librsswitch.c:357-488 | each session is that of the very call that took the lock for it, by its thread, and uses the config of the last socket_gpio_config that took the lock before it |
| SendLock.LineIsKnown | boards/gpiod/gpiod_board.c:333-371 | in every state of every run the driver knows the level of the line while a session is open; after board_exit the line is low unless that call failed; and between sessions it stays as the last one left it |
| SendLock.LibrarySerialised | librsswitch.c:372-488 | under any interleaving a session that has returned relates to its request as one library call alone does: whole exactly for 0, a proper prefix otherwise, and low unless board_exit failed |
| SendLock.ReceiverHearsLockOrder | librsswitch.c:193-273 | when all calls returned 0, the decoded log is the list of requests in lock order |
| SendLock.NeverStuck | librsswitch.c:357-488 | while some thread is inside a call some thread can make a step that is neither a new call nor a failing lock |
| Daemon.ParsedIsAccepted | examples/network/rsswitchd_proto.c:121-168 | a command that the parser lets through is one that the library accepts |
| Daemon.StreamIsAccepted | examples/network/rsswitchd_proto.c:311-363 | the same for every result of any stream |
| Daemon.TimeLeft | examples/network/rsswitchd.c:526-539 | the time left until a deadline, normalised, and zero once it has passed |
| Daemon.DeadlineTotal | examples/network/rsswitchd.c:595-596 | a deadline lies the idle timeout after the reading that armed it |
| Daemon.RepliesSay | examples/network/rsswitchd.c:648-683 | the replies word for word: nothing, ERR with the name of the class and the text, OK, or ERR send transmission failed |
| Daemon.Connection.WaitReadable | examples/network/rsswitchd.c:518-557 | each call of pselect, also after a signal, reads the clock and may block for just the time that is left then |
| Daemon.Connection.NextWait | examples/network/rsswitchd.c:608-609 | one more wait, with the deadline that is armed |
| Daemon.Connection.SendReply | examples/network/rsswitchd.c:703-722 | 0 exactly when the whole reply was written, however short the writes; otherwise a proper part of it was |
| Daemon.Connection.Perform | examples/network/rsswitchd.c:651-683 | a command causes its own transmission, whole exactly when the call returned 0, which it does exactly when no fault strikes; anything else causes none |
| Daemon.Connection.HandleCommand | examples/network/rsswitchd.c:648-686 | each result gets its reply, and OK only for a send that returned 0 |
| Daemon.Connection.HandleResult | examples/network/rsswitchd.c:629-638 | a result reads the clock and arms the deadline with that, is handled, and ends the connection when its reply is lost |
| Daemon.Connection.HandleRead | examples/network/rsswitchd.c:628-639 | the results that one read completes are handled at once and in order, and the deadline is armed anew exactly when there are any |
| Daemon.Connection.TakeBytes | examples/network/rsswitchd.c:625-639 | a read that brought bytes leads to the next wait or to the end |
| Daemon.Connection.TakeInput | examples/network/rsswitchd.c:608-639 | one wait and one read lead from one state between reads to the next, or to the end of the connection |
| Daemon.Connection.ServeConnection | examples/network/rsswitchd.c:587-640 | for any reads, faults, writes and stop: the results handled are a prefix of the meaning of the stream, all of it when the input simply ended; air and replies are exactly theirs, in order, and all sends work when no fault strikes; each wait may block until the idle timeout after its arming, which results make anew and nothing else |
| Client.ReadLine | examples/web/rsswitch_web/daemon.py:106-132 | the outcome is a function of the bytes alone: the line up to a newline at index at most 256, otherwise an error; never more than 512 bytes are held |
| Client.ReplyLimit | examples/web/rsswitch_web/daemon.py:106-132 | a reply line of 256 bytes is read, a longer one refused; without a newline the end of the stream decides |
| Client.ClassifyIff | examples/web/rsswitch_web/daemon.py:185-190 | OK and nothing else is a success; ERR, a class of lower-case letters and nothing or a blank and a message is an error of the daemon; anything else is none |
| Client.SanitizeIs | examples/web/rsswitch_web/daemon.py:100-103 | what is shown of a message is printable, at most 128 characters, and a short printable message as it is |
| Client.SendCommand | examples/web/rsswitch_web/daemon.py:151-190 | refuses bad arguments before connecting; refused is unreachable, too slow a connection or write a timeout, a broken one a protocol error; writes the canonical line or the part of it that went out, and sorts the reply |
| Client.LinePlain | examples/network/rsswitchd_proto.c:129-303 | every error text of the parser is printable and fits its buffer of 64 bytes |
| Client.ErrorReadBack | examples/network/rsswitchd.c:654-661 | an error reply fits its buffer of 96 bytes and is read back with exactly its class and text |
| Client.OkReadBack | examples/web/rsswitch_web/daemon.py:185-186 | OK is read back as success, whatever follows |
| Client.PrintedLineResult | examples/web/rsswitch_web/daemon.py:165 | the line printed for any numbers gives one result: the switch command when in range, otherwise range or too long, never syntax or empty |
| Client.ShortWhenInLimits | examples/web/rsswitch_web/daemon.py:165 | the line of a valid address fits the line limit |
| Client.ReplyReadBack | examples/web/rsswitch_web/daemon.py:185-190 | the client learns exactly what the daemon wrote |
| Client.BrokenReplyTeachesNothing | examples/web/rsswitch_web/daemon.py:118-127 | a reply that broke off is a timeout or a protocol error, never an answer |
| Client.HeardIsSettled | examples/web/rsswitch_web/daemon.py:151-190 | what the client concludes from any front of the replies agrees with what is on the air |
| Client.ExchangeIsSettled | examples/web/rsswitch_web/daemon.py:151-190 | so does what it concludes when the connection or the write fails |
| Client.ExchangeSucceeds | examples/web/rsswitch_web/daemon.py:151-190 | a command in range that the daemon handled without a fault, and whose reply is heard, is a success |
| Client.Exchange | examples/web/rsswitch_web/daemon.py:151-190 | one command through client, parser, library and board: success means that exactly this transmission is on the air, a range or too-long error that nothing is; and in range and without faults a reply that is heard is a success |
| Household.LimitsAgree | examples/web/rsswitch_web/model.py:33-36 | the limits of the document are exactly those of the library |
| Household.IdsAreSafe | examples/web/rsswitch_web/model.py:44-65 | ids that the server makes are ids, and an id is 1-64 letters, digits, underscores and dashes |
| Household.OnePlace | examples/web/rsswitch_web/store.py:223-232 | in a valid document an id stands at one place at most |
| Household.FindSocket | examples/web/rsswitch_web/store.py:223-232 | finds a place with the id, and none only when there is none |
| Household.FindRoom | examples/web/rsswitch_web/store.py:235-240 | the same for rooms |
| Changes.ReplacedIsUpdate | examples/web/rsswitch_web/api/sockets.py:167-170 | because ids are unique, changing a socket by id is changing one place |
| Changes.WithoutIsGap | examples/web/rsswitch_web/api/sockets.py:185 | removing a socket by id closes one gap and moves nothing else |
| Changes.ApplyValid | examples/web/rsswitch_web/model.py:161-192 | every allowed change maps a valid document to a valid one |
| Changes.OnlySubjectChanges | examples/web/rsswitch_web/api/sockets.py:97-188 | apart from the socket that it is about, a change leaves every socket and every order as it was |
| Changes.OnlyThatRoomChanges | examples/web/rsswitch_web/api/rooms.py:89-134 | the same for rooms |
| Changes.ReorderIsPermutation | examples/web/rsswitch_web/api/rooms.py:137-150 | a reorder is a permutation that realises exactly the ids that were asked for |
| Changes.NamesKept | examples/web/rsswitch_web/api/sockets.py:53-60 | names that are unique by key stay unique under every change |
| Effects.RoomIsAdded | examples/web/rsswitch_web/api/rooms.py:89-102 | the new room is the last one, and empty |
| Effects.RoomIsRenamed | examples/web/rsswitch_web/api/rooms.py:105-119 | the room has the new name |
| Effects.RoomIsDropped | examples/web/rsswitch_web/api/rooms.py:122-134 | the room is gone, and the others keep their order |
| Effects.RoomsAreOrdered | examples/web/rsswitch_web/api/rooms.py:137-150 | each room stands where its id was put |
| Effects.SocketIsAdded | examples/web/rsswitch_web/api/sockets.py:97-118 | the new socket is the last one of its room, as it was asked for, and nothing has been sent to it |
| Effects.SocketIsEdited | examples/web/rsswitch_web/api/sockets.py:155-175 | an edit in the own room changes the socket in its place, and keeps last_sent exactly when the address is the same |
| Effects.SocketIsMoved | examples/web/rsswitch_web/api/sockets.py:155-175 | an edit that names another room moves the socket to the end of that room |
| Effects.SocketIsDropped | examples/web/rsswitch_web/api/sockets.py:180-188 | the socket is found no more, and the others keep their order |
| Effects.SocketsAreOrdered | examples/web/rsswitch_web/api/sockets.py:191-205 | each socket stands where its id was put |
| Recording.RecordedValid | examples/web/rsswitch_web/store.py:143-162 | a record keeps a valid document valid |
| Recording.RecordedNames | examples/web/rsswitch_web/store.py:143-162 | and keeps names unique |
| Recording.WrittenAreTaken | examples/web/rsswitch_web/store.py:143-162 | an id is reported exactly when it was asked for, its socket exists with that address and no newer record stands in the way |
| Recording.WrittenHolds | examples/web/rsswitch_web/store.py:143-162 | every id that is reported holds exactly the new state and time |
| Recording.UnwrittenUnchanged | examples/web/rsswitch_web/store.py:143-162 | every other socket is as it was |
| Recording.LatestStays | examples/web/rsswitch_web/store.py:34-39 | in whatever order commands are recorded the one with the greatest time stays, as long as none is recorded more than the race window late |
| Recording.LatestIff | examples/web/rsswitch_web/store.py:34-54 | in the end the record is the latest command exactly when no older one was recorded after it by more than the race window |
| Recording.LatestAlwaysIff | examples/web/rsswitch_web/store.py:34-54 | at every moment the record is the latest command so far exactly when none is recorded more than the race window late |
| Recording.NotedIsReplayed | examples/web/rsswitch_web/store.py:143-162 | in the document a socket goes through the commands for its address one by one |
| Recording.LatestStaysInDocument | examples/web/rsswitch_web/store.py:34-39 | so it is with the last_sent of each socket in the document and the commands recorded for it |
| Recording.OrderDoesNotMatter | examples/web/rsswitch_web/store.py:34-39 | with different times every order of recording ends in the same record |
| Recording.OvertakenIff | examples/web/rsswitch_web/store.py:44-54 | a late record of an older command is held back exactly up to the race window |
| Store.CheckDocument | examples/web/rsswitch_web/model.py:161-192 | accepts exactly the documents whose ids are well-formed and unique over rooms and sockets together and whose addresses are in range |
| Store.RemoveFirstAt | examples/web/rsswitch_web/api/rooms.py:131 | removal by equality removes the intended element when no equal one stands before it |
| Store.CheckIsReorder | examples/web/rsswitch_web/api/rooms.py:68-73 | the test by the sizes and members of sets accepts exactly the permutations |
| Store.NewId | examples/web/rsswitch_web/model.py:49-65 | an id that is returned is in use nowhere in the document |
| Store.CheckSocketFields | examples/web/rsswitch_web/validation.py:81-104 | passes exactly usable fields that form an address in range |
| Store.CheckRoomName | examples/web/rsswitch_web/api/rooms.py:48-55 | free exactly when no other room has the key of the name |
| Store.CheckSocketName | examples/web/rsswitch_web/api/sockets.py:53-60 | free exactly when no other socket of the room has the key of the name |
| Store.CreateRoomVerdict | examples/web/rsswitch_web/api/rooms.py:89-102 | exactly when a new room is accepted, and which failure has which cause |
| Store.EditRoomVerdict | examples/web/rsswitch_web/api/rooms.py:105-119 | the same for renaming |
| Store.DeleteRoomVerdict | examples/web/rsswitch_web/api/rooms.py:122-134 | the same for deleting, which an occupied room refuses |
| Store.FieldsVerdict | examples/web/rsswitch_web/validation.py:81-104 | the first of type, group and number that is missing or out of range is named, if any is |
| Store.CreateSocketVerdict | examples/web/rsswitch_web/api/sockets.py:97-118 | exactly when a new socket is accepted, and which failure has which cause |
| Store.EditSocketVerdict | examples/web/rsswitch_web/api/sockets.py:143-177 | the same for an edit of a socket that is there |
| Store.NoSocketVerdict | examples/web/rsswitch_web/api/sockets.py:143-188 | an edit and a deletion do not find a socket exactly when it is nowhere |
| Store.EditIsAsAsked | examples/web/rsswitch_web/api/sockets.py:155-175 | an accepted edit leaves the socket with the fields that were given and its old ones otherwise, in the room that was named |
| Store.TargetRoom | examples/web/rsswitch_web/api/sockets.py:121-140 | the room after an edit: its own, the named one, or an error |
| Store.PickSockets | examples/web/rsswitch_web/api/sockets.py:200-202 | the dictionary by id gives the sockets in the order of the ids |
| Store.PickRooms | examples/web/rsswitch_web/api/rooms.py:145-147 | the same for rooms |
| Store.Store.Commit | examples/web/rsswitch_web/store.py:99-123 | an unchanged document is not written; a change is in the file as a whole or not at all |
| Store.Store.CreateRoom | examples/web/rsswitch_web/api/rooms.py:89-102 | lock, then checks, then the change, then the disk: the outcome, the error and the new document; when it is done the new room stands last |
| Store.Store.EditRoom | examples/web/rsswitch_web/api/rooms.py:105-119 | the same for renaming: when it is done the room has the name that was given, and without a name nothing changes |
| Store.Store.DeleteRoom | examples/web/rsswitch_web/api/rooms.py:122-134 | the same for deleting, which an occupied room refuses: when it is done the room is gone |
| Store.Store.OrderRooms | examples/web/rsswitch_web/api/rooms.py:137-150 | the same for the order of the rooms, whose body is checked before the store is asked |
| Store.Store.CreateSocket | examples/web/rsswitch_web/api/sockets.py:97-118 | the same for a new socket: when it is done it stands at the end of its room as it was asked for |
| Store.CheckEdit | examples/web/rsswitch_web/api/sockets.py:155-165 | the checks of an edit in their order: id, name, address, room, conflict |
| Store.EditIn | examples/web/rsswitch_web/api/sockets.py:155-173 | what passes the checks becomes the edit that was asked for, with last_sent forgotten exactly when the address changes |
| Store.PutEdited | examples/web/rsswitch_web/api/sockets.py:167-173 | updating in place, removing by equality and appending is the move of that one socket |
| Store.Store.EditSocket | examples/web/rsswitch_web/api/sockets.py:143-177 | the same for an edit or a move: when it is done the socket has the fields and the room that were given |
| Store.Store.DeleteSocket | examples/web/rsswitch_web/api/sockets.py:180-188 | the same for deleting: when it is done the socket is found no more, and nothing else has changed |
| Store.Store.OrderSockets | examples/web/rsswitch_web/api/sockets.py:191-205 | the same for the order of the sockets of a room |
| Store.RecordEach | examples/web/rsswitch_web/store.py:143-162 | the loop over the ids writes and reports what recording them all at once means |
| Store.Store.RecordLastSent | examples/web/rsswitch_web/store.py:125-164 | new document and report of a record, including a lock, a disk or a sync that fails |
| Switching.Record | examples/web/rsswitch_web/switching.py:46-58 | a store that fails does not fail the command, and reports nothing as recorded |
| Switching.NotedIsStored | examples/web/rsswitch_web/switching.py:46-58 | an id that is reported as recorded is in the document with that address, state and time |
| Switching.StoredButNotNoted | examples/web/rsswitch_web/store.py:192-220 | for a socket that still has the address, exactly when it holds the state and time although nothing is reported: the sync failed, or the lock or the disk stopped the record and the socket held the same before |
| Switching.RecordHappens | examples/web/rsswitch_web/store.py:125-164 | a confirmed command is in the file as soon as lock and disk allow it, for each socket of its own that still has the address and shows no command up to two seconds later; no other socket changes |
| Switching.RecordedUnsynced | examples/web/rsswitch_web/store.py:192-220 | a household in which a confirmed command is in the file although nothing is reported as recorded |
| Switching.LineAsks | examples/web/rsswitch_web/switching.py:89-92 | the line for an address means to the daemon exactly the switch command with that device, group, number and state, and a part of it nothing else |
| Switching.SocketNowShows | examples/web/rsswitch_web/switching.py:61-69 | the answer shows the socket with the id, and the room it is in |
| Switching.SwitchSocket | examples/web/rsswitch_web/switching.py:72-101 | the line asks the daemon to switch the address of the snapshot to that state, nothing is recorded without OK, and the answer is read from the document at the end |
| Switching.SwitchRecordedIff | examples/web/rsswitch_web/switching.py:80-84 | recorded is true exactly when the store worked and the socket still had the address and no newer record |
| Switching.CollectSockets | examples/web/rsswitch_web/switching.py:140-141 | the loop lists every socket in display order |
| Switching.ListingIsOk | examples/web/rsswitch_web/switching.py:140-141 | in a valid document no socket is listed twice |
| Switching.ListedAt | examples/web/rsswitch_web/switching.py:140-141 | every socket is listed once, with its room, in display order |
| Switching.ListedFrom | examples/web/rsswitch_web/switching.py:140-141 | and nothing else is |
| Switching.AllAreListed | examples/web/rsswitch_web/switching.py:131-141 | a batch of all rooms lists every socket of the household |
| Switching.RoomIsListed | examples/web/rsswitch_web/switching.py:133-141 | a batch of one room lists the sockets of that room, in their order, and no other |
| Switching.NoSuchRoom | examples/web/rsswitch_web/switching.py:133-138 | a room is not found exactly when there is none with the id |
| Switching.AddressesAreFirstSeen | examples/web/rsswitch_web/switching.py:142-145 | the batch has each address of its sockets once and no other |
| Switching.FirstSeenOrder | examples/web/rsswitch_web/switching.py:142-145 | and in the order in which they are first seen |
| Switching.MemberIff | examples/web/rsswitch_web/switching.py:142-145 | a socket is served by the command for its own address and by no other |
| Switching.Group | examples/web/rsswitch_web/switching.py:142-145 | the ordered dictionary has these addresses and their sockets |
| Switching.SendOne | examples/web/rsswitch_web/switching.py:156-176 | effects, outcomes and document of one command of the batch |
| Switching.SendAll | examples/web/rsswitch_web/switching.py:147-176 | the loop gives each address its outcome, and stops sending after the first fatal error |
| Switching.MakeReport | examples/web/rsswitch_web/switching.py:178-186 | one entry per socket in display order, and the counts |
| Switching.AllOff | examples/web/rsswitch_web/switching.py:104-186 | report, sequence of effects and final document for any daemon outcomes and any edits in between; of one room, commands go to its sockets alone and entries are of that room alone |
| Switching.BatchStaysInRoom | examples/web/rsswitch_web/switching.py:131-186 | a batch of one room sends to addresses of its sockets alone and reports that room alone |
| Switching.BatchCommands | examples/web/rsswitch_web/switching.py:150-168 | the commands go to a prefix of the addresses, each once, cut short only after a daemon that is unreachable or times out; sleeps are one fewer than commands |
| Switching.TraceOrder | examples/web/rsswitch_web/switching.py:156-170 | a sleep comes right before a command, and a record right after its own confirmed command |
| Switching.TraceSwitchesOff | examples/web/rsswitch_web/switching.py:156-170 | each command of a batch asks the daemon to switch its address off, and each record is for all sockets with that address |
| Switching.EqualAddressesShare | examples/web/rsswitch_web/switching.py:108-110 | sockets with one address share one outcome |
| Switching.OutcomeIsOwn | examples/web/rsswitch_web/switching.py:156-176 | the outcome of a socket is that of the command for its own address |
| Switching.SkippedIff | examples/web/rsswitch_web/switching.py:151-155 | skipped are exactly the sockets whose address got no command, and they carry the error that ended the batch |
| Switching.ReportedIsStored | examples/web/rsswitch_web/switching.py:169-176 | an entry with a last_sent is in the document as it stood right after the command |
| Switching.CountsAddUp | examples/web/rsswitch_web/switching.py:179-186 | every socket is counted once, and ok means that every entry is ok |
| Switching.CountsAreSizes | examples/web/rsswitch_web/switching.py:178-186 | the counts of a report are the numbers of its entries of each kind |
| Switching.BatchOkIff | examples/web/rsswitch_web/switching.py:129-130 | the batch is ok exactly when every address was confirmed |
| Switching.SkippedIsNoSuffix | examples/web/rsswitch_web/switching.py:150-155 | a household in which a socket after a skipped one is not skipped |
| Interleaving.ClientRulesHold | examples/web/rsswitch_web/daemon.py:151-190 | for exchanges over the line that was written, a command that the client takes as done is on the air as a whole |
| Interleaving.WholeIs | librsswitch.c:286-315 | the whole of a command is the transmission of the codeword of its address, at 350 microseconds, on for on |
| Interleaving.ChangeInventsNothing | examples/web/rsswitch_web/api/sockets.py:155-175 | no change of the document makes a last_sent up or gives one to another address |
| Interleaving.RecordInventsNothing | examples/web/rsswitch_web/store.py:125-164 | a record writes what was confirmed, for sockets of its own with the address that was sent to |
| Interleaving.StepInvariant | examples/web/rsswitch_web/switching.py:18-22 | every step of every request keeps the document valid and every last_sent accounted for |
| Interleaving.RunInvariant | examples/web/rsswitch_web/switching.py:18-22 | so does every interleaving of any number of requests |
| Interleaving.LastSentIsTrue | examples/web/rsswitch_web/switching.py:86-101 | every last_sent of every reachable document was there at the start, for this socket and address, or belongs to a command that was sent and confirmed, for this socket, to exactly its present address, with this state and time, and the exchange that confirmed it put its whole transmission on the air, at its own place in the log |
| Interleaving.AiringInLog | librsswitch.c:193-227 | what an exchange put on the air stands in the log right behind what those before it did |
| Interleaving.SocketFollowsRecords | examples/web/rsswitch_web/store.py:143-162 | while a socket keeps its address, its last_sent at the end is that of the start after the records that reached it, in their order |
| Interleaving.LatestIsShown | examples/web/rsswitch_web/store.py:34-54 | a socket that kept its address, for which all confirmed commands were recorded and the start of the file gave way, shows the one with the greatest time exactly when no older one was recorded after it by more than the race window |
| Interleaving.ClockOrders | examples/web/rsswitch_web/switching.py:93-95 | when the clock does not go back, commands are confirmed in the order of their times |
| Interleaving.RecordsAreConfirmed | examples/web/rsswitch_web/switching.py:86-101 | every record that reaches a socket is that of a command confirmed for it |
| Interleaving.LastAnswerIsShown | examples/web/rsswitch_web/switching.py:93-95 | then the socket shows the command for it that was confirmed last of all, or one confirmed for it at the same time |
| Interleaving.SentIsInLimits | examples/web/rsswitch_web/model.py:31-36 | every address that is ever sent is one that the library takes |
| Interleaving.RunKeepsNames | examples/web/rsswitch_web/api/rooms.py:18-25 | unique names stay unique in every run |
| Interleaving.PlanIsFollowed | examples/web/rsswitch_web/switching.py:147-176 | in any run a worker does the commands of its plan in order, up to a fatal answer, and its last record leaves the document that Switching says of those turns |
| Interleaving.SwitchIsARun | examples/web/rsswitch_web/switching.py:72-101 | in any run, with any steps of others at any time, a switch that is over has sent its one command, and its record left the document that switch_socket leaves |
| Interleaving.BatchIsARun | examples/web/rsswitch_web/switching.py:147-176 | in any run from the start of a batch, with any steps of others at any time, a batch that is over has sent exactly the commands that Switching.AllOff sends for the same answers, and its last record left the same document |
| Interleaving.DoneIsOk | examples/web/rsswitch_web/daemon.py:151-190 | the turns of a run are turns that Switching allows |
| LoginLimiter.FindSoonest | examples/web/rsswitch_web/auth.py:132-138 | the loop finds the minimum of the pairs of time and address |
| LoginLimiter.VictimIsUnique | examples/web/rsswitch_web/auth.py:129-138 | which entry is evicted does not depend on the order of the table |
| LoginLimiter.LoginLimiter.RetryAfter | examples/web/rsswitch_web/auth.py:77-87 | answer and table of the call; a lock that is over is dropped |
| LoginLimiter.LoginLimiter.Failed | examples/web/rsswitch_web/auth.py:89-108 | answer and table: expiry, then room for a new address, then the count or the lock |
| LoginLimiter.LoginLimiter.Count | examples/web/rsswitch_web/auth.py:103-108 | counts one failure: the answer, and the count or the lock |
| LoginLimiter.LoginLimiter.Succeeded | examples/web/rsswitch_web/auth.py:110-113 | forgets the address and nothing else |
| LoginLimiter.LoginLimiter.Expire | examples/web/rsswitch_web/auth.py:119-127 | drops exactly the entries whose window or lock is over |
| LoginLimiter.LoginLimiter.Evict | examples/web/rsswitch_web/auth.py:129-138 | drops exactly the victim |
| LoginLimiter.CallKeepsTable | examples/web/rsswitch_web/auth.py:49-51 | every call keeps the table within its bound, unlocked counters between 1 and the limit, locked ones at 0 |
| LoginLimiter.RunKeepsTable | examples/web/rsswitch_web/auth.py:49-51 | so does every run |
| LoginLimiter.OthersAreInvisible | examples/web/rsswitch_web/auth.py:89-127 | a call of another address that does not push this one out, and what it expires or evicts, cannot be seen |
| LoginLimiter.AnsweredAsAlone | examples/web/rsswitch_web/auth.py:77-138 | an address that is never evicted gets the answers of a limiter of its own |
| LoginLimiter.FewAddressesSpareAll | examples/web/rsswitch_web/auth.py:95-97 | with no more addresses than the table has room for nothing is ever evicted |
| LoginLimiter.AddressesAreIndependent | examples/web/rsswitch_web/auth.py:77-138 | then each address gets the answers that the same limiter gives to its calls alone |
| LoginLimiter.WaitIsLeast | examples/web/rsswitch_web/auth.py:77-87 | a number of whole seconds outlasts the lock exactly when it is at least the answer |
| LoginLimiter.WaitZeroIff | examples/web/rsswitch_web/auth.py:77-87 | zero is answered exactly to who may try, and to everyone who has waited as told |
| LoginLimiter.LockedVictim | examples/web/rsswitch_web/auth.py:129-138 | a lock is evicted only when all entries are locked, and then it is the one that ends first |
| LoginLimiter.OldestIsEvicted | examples/web/rsswitch_web/auth.py:129-138 | the unlocked entry with the oldest first failure is evicted, among locks alone the one that ends first, of equal times the first address |
| LoginLimiter.BeforeIff | examples/web/rsswitch_web/auth.py:132-138 | addresses are compared by the first character that differs, or by their length |
| LoginLimiter.LockSurvives | examples/web/rsswitch_web/auth.py:89-108 | until it ends, a lock is neither lifted nor extended while an unlocked entry is there at each eviction and its own address does not succeed |
| LoginLimiter.LockLasts | examples/web/rsswitch_web/auth.py:77-108 | a failure that is told that it starts a lock locks the address for lockout seconds: until then failures start no other and who asks is told the least number of whole seconds that are left, from then on zero |
| LoginLimiter.NobodyWaitsUnlocked | examples/web/rsswitch_web/auth.py:77-87 | only a lock makes anyone wait |
| LoginLimiter.SuccessForgets | examples/web/rsswitch_web/auth.py:110-113 | after a success an address may try at once, and failures fewer than the limit start no lock |
| LoginLimiter.AsksDoNotCount | examples/web/rsswitch_web/auth.py:77-87 | failures are answered as if nobody had asked in between |
| LoginLimiter.ToldIsAnswered | examples/web/rsswitch_web/auth.py:77-108 | the answers to the failures of an address are among those it gets, and only they start locks |
| LoginLimiter.ToldAsAlone | examples/web/rsswitch_web/auth.py:77-138 | an address that nobody clears or evicts is told the same about its failures as a limiter that sees nothing else |
| LoginLimiter.TooFewFailures | examples/web/rsswitch_web/auth.py:103-108 | failures too few for the limit start no lock, whatever expires, is evicted or cleared between them |
| LoginLimiter.SparedIsKept | examples/web/rsswitch_web/auth.py:95-97 | an address that no call pushes out is kept for any number of failures |
| LoginLimiter.FailuresLock | examples/web/rsswitch_web/auth.py:103-108 | in any run of the table an address with a count is told of a lock at no failure but the one that fills the count, and there exactly when that is within the window of the first and nobody pushed the address out before |
| LoginLimiter.LocksIff | examples/web/rsswitch_web/auth.py:59-60 | in any run of the table, with any calls of others, as many failures as the limit within one window start a lock exactly when, at the first of them, no entry is alive or one without a lock whose count is filled within its own window, and nobody pushes the address out before that |
| LoginLimiter.RateIsBounded | examples/web/rsswitch_web/auth.py:42-43 | in a span of one window an address that is not locked, evicted or cleared has at most 2 * (max_failures - 1) failures |
| LoginLimiter.LoginsFail | examples/web/rsswitch_web/auth.py:194-244 | requests with a wrong password, each of which asks twice and then reports, report one failure each |
| LoginLimiter.WindowDoesNotSlide | examples/web/rsswitch_web/auth.py:59-60 | four such requests on an empty table start no lock, although the last three lie within three seconds and three in a minute is the limit |
| LoginLimiter.EvictionForgets | examples/web/rsswitch_web/auth.py:59-60 | two wrong passwords within two seconds start no lock although two in a minute is the limit, because another address pushes the first out of a table for one |

## Left out

- Sockets, `pselect`, signals, option parsing, syslog and process start-up of the programs; reads, writes, waits and stop requests are inputs.
- Daemon.Connection.ServeConnection: that a wait ran into its deadline is one of its inputs, so what is proved is how long a wait may block, not that the input comes or fails to come in that time.  A script of writes that has run out counts as a broken connection.
- Boards.Board.Delay: does not model the busy wait below 100 microseconds and what `nanosleep` really does; it is the delay that was asked for, not the time that passed.
- Boards.Board.Transmit: the trace holds the times asked for; when the second write fails the line stays high until `board_exit`, and how long that takes is not modelled.
- Daemon.Connection.WaitReadable: which of 1, 0 and -1 it returns is one of the inputs of the serving loop.
- libgpiod: every call may fail, and a failed call leaves the level and the handles as they are.  `gpiod_config_parse` is an arbitrary predicate on the config string.
- Names: trimming, NFC and case folding (`clean_name`, `name_key`) are an arbitrary function from a name to its key.
- Python types: unknown keys, booleans and floats in the data file and in request bodies; a field is absent, unusable or a value.
- JSON, HTTP status codes, response bodies and the warnings about duplicate addresses.
- Random ids: `new_id` draws from a list of candidates, and a new id is any well-formed one that is not in use.
- Reading the data file: an unreadable one is one of the ways in which `mutate` fails before it changes anything; a missing one is an empty document.
- The password check, the cache of accepted headers and the `Authorization` header around the login limiter.  Its clock is real-valued and does not go back; its lock is not modelled, since every method runs under it.
- Times in the document are microseconds or some other text; the text form of a time is not modelled.
- SendLock.Serialised: the calls inside `board_init` and `board_exit` are single steps of a thread that work or fail as a whole, and a session that could not be opened is none; the handles and the delays are in `Boards.Board`.  The two writes of a pulse are steps of their own also for the host board, which has one; that is a run in which no step comes between them.
- Interleaving.SwitchIsARun: speaks of the document at the record of the command; the socket that the answer shows is read from the document at some later moment, as in `Switching.SwitchSocket`.
