# A verified model of BonDriver_LinuxMirakc

The driver receives a transport stream over HTTP and hands it to a host
application. This project models its data path from the first byte of a response to
the host's `GetTsStream`, the control logic that opens, retunes and closes it, the
index of tuning spaces, and the configuration file loader.

| file | subject |
|---|---|
| `Bytes.dfy`, `Memory.dfy`, `Options.dfy` | octets, DWORD arithmetic, memcpy and memmove, optional values |
| `RingState.dfy` | the shared fields of `GrabTsData`, the cyclic geometry, the byte queue a ring stands for |
| `RingSystem.dfy`, `RingRuns.dfy` | every interleaving of put, get, purge, wait and shutdown; theorems on whole runs |
| `GrabTsData.dfy` | the `GrabTsData` object with its arrays |
| `HttpHeader.dfy`, `HttpChunking.dfy`, `HttpStatus.dfy` | the header scanner as a function of the recv pieces, a reference reading of the stream, when the two agree, and what they make of a response given by its text |
| `Connection.dfy`, `MirakcConnect.dfy` | a connection on values; the connection object with its receive buffer |
| `TunerSystem.dfy`, `TunerRuns.dfy`, `TunerCalls.dfy` | control thread, receive thread and host threads together; end-to-end and shutdown theorems; what whole calls come to |
| `ChannelSpaces.dfy`, `CBonTuner.dfy` | tuning spaces and their lookup; the tuner object |
| `IniSyntax.dfy`, `IniRoundTrip.dfy`, `ConfigLoader.dfy` | a line parser and loader on values, printing and loading back, and `Config::Load` on its line buffer |
| `IniLines.dfy`, `IniFiles.dfy` | what lines and files mean by the characters and lines they are made of, without the parser |

## How the parts fit

A ring buffer step is one stretch of code between two points where another thread
can intervene. The producer holds the mutex while its memcpy runs, a get copies
without the mutex, and both move single bytes in any order. `RingSystem` proves that
every such step is a step of a FIFO queue; `RingRuns` lifts that to whole runs with
ledgers of the bytes put, got, dropped and sampled. The methods of the `GrabTsData`
class state the effect of each stretch on the fields with the same functions that the
steps use, and compute it with the source's 32-bit unsigned formulas.

The socket is the sequence of bytes the server sends before the connection ends,
and whether it ends in order or with an error; recv delivers any nonempty piece of
at most the requested size. `Receive` is recvHeader on a given list of pieces.
`Judge` reads the stream as a whole and is ambiguous exactly where the pieces matter.
The methods that receive name the pieces, or the answer they come to, as a ghost
result, so their contracts hold for every stream; where `Judge` is definite there is
only one answer (`SettledAnswer`, `HeardIsReference`).

`TunerSystem` joins the ring to the connection. Its invariant places every byte of
the current response body: already put before the last purge, put since, in the
receive thread's hand, in `buf`, or still to come. The `CBonTuner` methods state the
fields they leave with the functions of `TunerCalls`, which proves that the control
thread's steps lead to the same fields from every state at rest (`RestsBetweenCalls`); `recvBody` states what it takes with the
functions that the receive thread's step uses.

## Findings

- A get that starts between a purge and the end of a get the purge caught in
  mid-copy clears `m_bPurge` before it reaches the `m_bReading` test, so the older get
  returns TRUE with purged bytes. The comment at src/GrabTsData.hpp:128-133 says
  concurrent gets are safely refused; the code refuses them only while no purge is
  pending. One consumer thread never does this. `RunBalances` needs only that no
  get starts at such a moment while the older one copies at least one byte, and
  `RudeGetIsHarmfulExactly` shows that this guard cannot be loosened: such a call can
  unbalance the books if and only if the older get copies something.
- The response code is read with atoi from the first blank of the accumulator on.
  If nothing but white space follows that blank in the header block, atoi goes on
  into the bytes after the header, and the code depends on how many of them have
  arrived. `StatusReadsPastBlock` shows that this is the only such case. Whether the
  answer depends on it is decided by one test of the stream, which `Judge` makes and
  `BlankStatusDependsOnChunking` states: the bytes that the last recv can bring with
  the end of the block, at most 48127, read as 0 or not.
- A header block of up to 65537 bytes is always taken and one of more than 113664
  bytes never. Between the two it depends on the pieces, except where the answer is
  -1 anyway; `ChunkingIndependence` is an equivalence for every stream.
- An inline comment is looked for from the second character of a value on. In a line
  such as `KEY= ; text` the mark is the first, so the value is `; text`
  (`MarkIsValue`). The bracket that ends a section name is looked for from the name's
  second character on, so `[]` opens a section named `]`.
- The branch for too much data behind a header, the clamp of `nAvail` and the second
  test for an empty section name are never taken.

## Model

| member | source | states |
|---|---|---|
| RingState.CodeFormulas | src/GrabTsData.cpp:34-43 | with both indices inside the ring no 32-bit subtraction wraps, the stored and free sizes are the cyclic distances, and the defensive clamp changes nothing |
| RingState.Append | src/GrabTsData.cpp:54-65 | publishing written bytes appends exactly them to the queue, which holds at most RING_BUF_SIZE - 1 |
| RingState.Drop | src/GrabTsData.cpp:105-141 | moving the pull index by n removes exactly the n oldest bytes |
| RingState.PutEffectAppends | src/GrabTsData.cpp:53-65 | the whole effect of an accepted put on the fields and the array is to append its bytes |
| RingState.ReadyCountIsDrainCount | src/GrabTsData.cpp:210-225 | a ready count of n, at most 512, is the number of undisturbed gets that return data: full blocks, then the rest, remain counts n-1 down to 0, then nothing |
| RingSystem.StepRefinesFifo | src/GrabTsData.cpp:21-182 | every step of every thread keeps the invariant and is one step of an atomic FIFO queue with the same result, never longer than RING_BUF_SIZE - 1 |
| RingSystem.WritesMissSnapshot | src/GrabTsData.cpp:54-65 | while an unpurged get copies, no byte that put writes lies in the get's snapshot interval |
| RingRuns.RunBalances | src/GrabTsData.cpp:21-182 | along every polite run, bytes got plus bytes queued are the bytes put since the last purge, in order; both byte ledgers balance; a purge costs at most two FALSE gets |
| RingRuns.GetsArePrefixOfPuts | src/GrabTsData.cpp:21-182 | from construction on, gets since the last purge are a prefix of the puts since it, the ring holds the rest, and accepted bytes are accounted for as delivered, queued, in flight or dropped, and as sampled, forgotten or accumulated |
| RingRuns.NoLostWakeup | src/GrabTsData.cpp:33-66 | in every reachable state a sleeping producer has too little room and no shutdown request, and a sleeping host an empty ring |
| RingRuns.PassDecides | src/GrabTsData.cpp:33-52 | a pass of put starts to copy exactly if the bytes fit into RING_BUF_SIZE - 1; otherwise it returns FALSE with a shutdown request and sleeps without |
| RingRuns.GetDecides | src/GrabTsData.cpp:79-102 | a get reports a pending purge once, refuses a second reader, and otherwise starts to copy the front of the queue |
| RingRuns.HostDecides | src/GrabTsData.cpp:295-315 | a host sleeps exactly if the ring is empty |
| RingRuns.GetIsExact | src/GrabTsData.cpp:75-160 | a get returns FALSE exactly if a purge fell between its snapshot and its commit, and otherwise the first min(stored, DATA_BUF_SIZE) bytes queued at the snapshot; for an empty snapshot under the stricter guard that no get starts between such a purge and the commit |
| RingRuns.OneGetUnblocks | src/GrabTsData.cpp:33-52 | for a sleeping put of at most DATA_BUF_SIZE bytes, any get that starts later and returns TRUE leaves enough room and wakes it |
| RingRuns.OversizedPutWaitsForever | src/GrabTsData.cpp:33-52 | a put of RING_BUF_SIZE bytes or more never leaves its wait loop without a shutdown request |
| RingRuns.PutStepsMakePutEffect | src/GrabTsData.cpp:53-65 | the steps of an accepted put add up to the effect that the put method's contract states |
| RingRuns.RudeGetDeliversPurgedBytes | src/GrabTsData.cpp:83-144 | from every state with a get in the middle of copying at least one byte, a purge and a second get call lead to a run that delivers bytes although none were put since the purge |
| RingRuns.RudeGetIsHarmfulExactly | src/GrabTsData.cpp:83-144 | a purge and a second get call around a copying get can unbalance the books if and only if that get copies at least one byte, which is exactly what the guard of the run theorems forbids |
| GrabTsDataClass.GrabTsData.PutPass | src/GrabTsData.cpp:30-67 | one pass accepts exactly if the bytes fit, refuses exactly if they do not and shutdown is requested, and on acceptance appends them |
| GrabTsDataClass.GrabTsData.put_TsStream | src/GrabTsData.cpp:21-71 | the wait loop ends at the first pass with room or a shutdown request, whatever other threads did in between; room counts first |
| GrabTsDataClass.GrabTsData.GetBegin | src/GrabTsData.cpp:79-102 | the first locked stretch: a pending purge is reported once, a second reader refused, otherwise the indices are read and reading is marked |
| GrabTsDataClass.GrabTsData.GetEnd | src/GrabTsData.cpp:124-146 | the last locked stretch commits the pull index, or after a purge leaves it untouched |
| GrabTsDataClass.GrabTsData.get_TsStream | src/GrabTsData.cpp:75-160 | an uninterrupted get takes the front of the queue, with the block count that remains |
| GrabTsDataClass.GrabTsData.purge_TsStream | src/GrabTsData.cpp:164-182 | the queue is emptied at once and the purge flag raised |
| GrabTsDataClass.GrabTsData.get_ReadyCount | src/GrabTsData.cpp:210-225 | the count is the queue length in blocks, rounded up, at most 512, and 0 exactly for an empty ring |
| GrabTsDataClass.GrabTsData.get_Bitrate | src/GrabTsData.cpp:246-264 | a window of at least 1000 ms takes the whole accumulator and restarts the clock, a shorter one changes nothing |
| HttpChunking.DefiniteForEveryChunking | src/http_proc.hpp:298-363 | wherever the reference reading is definite, recvHeader gives its code, header, return value and remaining bytes for every way of cutting the stream |
| HttpChunking.AmbiguousBothWays | src/http_proc.hpp:309-361 | wherever the reference reading is ambiguous, two chunkings give different answers |
| HttpChunking.ChunkingIndependence | src/http_proc.hpp:304-362 | for every stream, the answer is the same for all chunkings exactly when the reference reading is definite |
| HttpChunking.StatusReadsPastBlock | src/http_proc.hpp:309-314 | reading a block is independent of what follows it exactly when its status is not blank |
| HttpChunking.BlankStatusDependsOnChunking | src/http_proc.hpp:309-348 | for a stream that begins with a blank status, the chunkings disagree exactly if the block has 65538 to 113664 bytes, or is shorter and the bytes that one recv can bring with its end read as a code other than 0 |
| HttpStatus.ResponseReads | src/http_proc.hpp:304-342 | after "HTTP/", a version, a blank and a decimal number n, for every chunking: a header block of up to 65537 bytes is the answer n with that header and everything behind it as body, or is skipped exactly for n from 100 to 199; one of more than 113664 bytes gives -1 |
| HttpStatus.SizeBand | src/http_proc.hpp:345-361 | for such a block with a final code the pieces matter exactly if it has 65538 to 113664 bytes |
| HttpStatus.AtoiOfDecimal | src/http_proc.hpp:314 | white space, an optional sign and a decimal number read as that number, whatever but a digit follows |
| HttpStatus.UnnumberedBlock | src/http_proc.hpp:314 | a status that is no number is the final code 0 |
| HttpStatus.MalformedRefused | src/http_proc.hpp:309-313 | a block that does not begin with "HTTP/" or has no blank gives -1 for every chunking and size |
| HttpStatus.NoBlockRefused | src/http_proc.hpp:345-359 | a stream without CR LF CR LF gives -1 if it has more than 65536 bytes or breaks off, and -3 if it is closed |
| MirakcConnectClass.RestComesFromLastRecv | src/http_proc.hpp:333-341 | whatever follows the final header came with the last recv and is shorter than it, also after 1xx blocks were erased |
| MirakcConnectClass.MirakcConnect.recvHeader | src/http_proc.hpp:298-363 | for every stream, recvHeader's loops give the reply of Receive on the pieces recv delivered, hence the reference answer wherever there is one, and bufsize is at most sizeof(buf) - 2 |
| MirakcConnectClass.MirakcConnect.sendGetRequest_WaitHeader | src/http_proc.hpp:421-444 | connect and send errors give their codes; otherwise code, header and pending body are Receive's on the pieces delivered, for every stream |
| MirakcConnectClass.MirakcConnect.CollectBody | src/http_proc.hpp:389-407 | the body is all pending bytes; -4 exactly if they exceed the limit, otherwise -5 exactly if the connection broke |
| MirakcConnectClass.MirakcConnect.sendGetRequest_WaitBody | src/http_proc.hpp:365-418 | connect and send errors give their codes; for an accepted header the result is every byte after the final header if within bodymax, -4 if not, -5 if the connection broke, -6 if malloc fails, however the body is cut; the socket is closed in all cases |
| MirakcConnectClass.MirakcConnect.recvBody | src/http_proc.hpp:446-468 | hands out the pending bytes in order, buffered ones first, as the receive thread's step does; 0 only at the end, errors below -10000 |
| TunerSystem.StepKeeps | src/BonDriver_LinuxMirakc.cpp:536-585 | every step of control, receive and host threads keeps the data-path invariant |
| TunerRuns.Lifecycle | src/BonDriver_LinuxMirakc.cpp:779-800 | between operations a receive thread is held exactly when a channel is current, then with a connection and no standing shutdown request; a thread's socket is open; the request is withdrawn only without a thread |
| TunerRuns.DeliveredIsStretchOfBody | src/BonDriver_LinuxMirakc.cpp:742-777 | in every reachable state the bytes delivered since the last purge are a gap-free stretch of one response body |
| TunerRuns.RetuneDeliversNewBody | src/BonDriver_LinuxMirakc.cpp:536-586 | after SetChannel's purge, until the next response or host purge, everything delivered is a prefix of the new response's body, under every interleaving and chunking |
| TunerRuns.WholeBodyArrives | src/BonDriver_LinuxMirakc.cpp:742-777 | nothing is missing either: between operations, bytes put, in hand, buffered and still to come make up the whole body, and a receive thread that ended by itself has put all of it |
| TunerRuns.BodyIsReference | src/BonDriver_LinuxMirakc.cpp:546 | where the reference reading is definite, an answer is accepted exactly if it is a 200 of a server that was reached, and its body is the reference's |
| TunerRuns.JoinDescends | src/BonDriver_LinuxMirakc.cpp:755-777 | during the join each step of the receive thread lowers a measure that no other thread raises |
| TunerRuns.JoinCompletes | src/BonDriver_LinuxMirakc.cpp:755-800 | from every reachable state of a join, a run of the receive thread's own steps, no longer than the measure, ends with the join possible; the host need not get anything |
| TunerRuns.JoinReturns | src/BonDriver_LinuxMirakc.cpp:779-800 | from every reachable state the join is over after at most that many steps of the receive thread |
| TunerCalls.CloseSteps | src/BonDriver_LinuxMirakc.cpp:240-267 | the steps of CloseTuner lead from any state at rest to the fields that the method states |
| TunerCalls.OpenSteps | src/BonDriver_LinuxMirakc.cpp:188-238 | the same for OpenTuner |
| TunerCalls.TuneSteps | src/BonDriver_LinuxMirakc.cpp:536-586 | the same for SetChannel past its checks, from joining the old thread to starting the new one |
| ChannelSpaces.LookupIsBijection | src/BonDriver_LinuxMirakc.cpp:488-508 | accepted pairs and channel indices correspond one to one |
| ChannelSpaces.RunHasOneType | src/BonDriver_LinuxMirakc.cpp:635-651 | every grouped channel has the type of the run it lies in |
| ChannelSpaces.NeighboursDiffer | src/BonDriver_LinuxMirakc.cpp:635-650 | adjacent spaces have different types |
| ChannelSpaces.ExpandsExactly | src/BonDriver_LinuxMirakc.cpp:618-656 | expanding the spaces gives back the list of types exactly when nothing was cut off; past the cut all channels belong to the last space |
| ChannelSpaces.GroupingIsUnique | src/BonDriver_LinuxMirakc.cpp:618-656 | a channel list has at most one grouping |
| ChannelSpaces.GroupableExactly | src/BonDriver_LinuxMirakc.cpp:612-672 | a list can be grouped exactly if it is not empty, a space can be made, and each channel that cannot be read lies behind the first run too many |
| CBonTunerClass.CBonTuner.waitForRecvThreadFinish | src/BonDriver_LinuxMirakc.cpp:779-800 | the thread is joined only with the socket shut down and the shutdown request standing, which pthread_join requires; afterwards there is no receive thread and no request |
| CBonTunerClass.CBonTuner.GroupChannels | src/BonDriver_LinuxMirakc.cpp:616-672 | succeeds exactly if a grouping within the limit exists and then stores it, with exactly the used type strings allocated |
| CBonTunerClass.CBonTuner.InitChannel | src/BonDriver_LinuxMirakc.cpp:603-739 | succeeds exactly if the server is reached and answers 200 with at most 32 MiB that parse to a list that can be grouped, and no connection or malloc fails; nothing is allocated on failure |
| CBonTunerClass.CBonTuner.CloseTuner | src/BonDriver_LinuxMirakc.cpp:240-267 | afterwards there is no thread, channel, connection or allocated type, and the fields are those that TunerCalls.CloseSteps reaches |
| CBonTunerClass.CBonTuner.OpenTuner | src/BonDriver_LinuxMirakc.cpp:188-238 | succeeds exactly if the server type is known, the trial connection works, and the listing server answers 200 with at most 32 MiB that parse to a list that can be grouped; the answer is the reference's wherever that is definite; the fields are those that TunerCalls.OpenSteps reaches |
| CBonTunerClass.CBonTuner.EnumChannelName | src/BonDriver_LinuxMirakc.cpp:405-444 | names the channel that Lookup finds, as SetChannel does, and nothing where the name cannot be read |
| CBonTunerClass.CBonTuner.StartReceiving | src/BonDriver_LinuxMirakc.cpp:558-586 | the ring is purged before the thread starts; if it does not start, no channel is current and the socket is closed |
| CBonTunerClass.CBonTuner.SetChannel | src/BonDriver_LinuxMirakc.cpp:474-586 | a refused request changes nothing; past the checks it succeeds exactly if the server is reached, the answer, which is the reference's wherever that is definite, has code 200, and the thread starts; then channel and thread are set, the ring is purged and the connection holds the answer's body; otherwise no channel is current; the fields are those that TunerCalls.TuneSteps reaches |
| IniSyntax.LoadIgnoresCrlf | src/config.cpp:80-90 | turning every LF into CRLF never changes what is loaded |
| IniRoundTrip.HeaderRoundTrip | src/config.cpp:104-139 | a printed section name is read back exactly if it is nonempty, without outer blanks, NUL, or a later closing bracket |
| IniRoundTrip.PairRoundTrip | src/config.cpp:141-189 | a printed pair is read back exactly if its key and value are good |
| IniLines.PlainRoundTrip | src/config.cpp:141-189 | an unquoted pair is read back exactly if its key is good and its value has no NUL, outer blank, final CR, comment mark behind a blank, or leading quote that occurs again |
| IniLines.SingleQuotedRoundTrip | src/config.cpp:164-169 | a single-quoted pair is read back exactly if its key is good and its value has neither NUL nor a single quote |
| IniLines.CommentIgnored | src/config.cpp:174-183 | blanks, a comment mark and any text behind a nonempty plain value change nothing |
| IniLines.TextBehindQuoteIgnored | src/config.cpp:164-169 | text behind the closing quote, of either kind, changes nothing |
| IniLines.MarkIsValue | src/config.cpp:174-183 | a comment mark right behind '=' and blanks begins the value |
| IniLines.PairLine | src/config.cpp:141-189 | blanks in front of a line, around its key and in front of its value do not count |
| IniLines.KeyLine | src/config.cpp:148-156 | a line without '=' is a key with an empty value |
| IniLines.CommentLine | src/config.cpp:92-102 | a line of blanks means nothing, and a mark behind blanks makes a comment |
| IniLines.SectionLine | src/config.cpp:104-139 | blanks around a section's name and all text behind the bracket are ignored |
| IniLines.OpenSectionLine | src/config.cpp:118-120 | without a bracket the name is the rest of the line |
| IniFiles.LinesRead | src/config.cpp:80 | a file is read as its terminated lines and a last one that may lack its line end |
| IniFiles.FinalNewline | src/config.cpp:80 | a line end at the end of the file, or its lack, changes nothing |
| IniFiles.LoadMeans | src/config.cpp:135-187 | a section is there exactly if a header names it, a key exactly if a pair for it stands in the lines of the first header of that name, and of several such pairs the first counts |
| IniRoundTrip.RoundTrip | src/config.cpp:67-195 | loading a printed configuration gives back its section map, with either line end |
| IniRoundTrip.EveryGoodMapPrints | src/config.cpp:67-195 | every section map with good names, keys and values has a printed form that loads to it |
| ConfigLoader.Trim | src/util.cpp:13-31 | the text starts behind its leading blanks, inside the buffer |
| ConfigLoader.RTrim | src/util.cpp:33-52 | the text ends before its trailing blanks, and the only byte written is the terminator there |
| ConfigLoader.ReadHeader | src/config.cpp:104-139 | the in-place section branch computes the pure parser's result |
| ConfigLoader.ReadPair | src/config.cpp:141-189 | the in-place key-value branch computes the pure parser's key and value |
| ConfigLoader.ReadLine | src/config.cpp:80-192 | all buffer accesses for a line stay inside its buffer and compute the pure line parser |
| ConfigLoader.Config.Enter | src/config.cpp:135-187 | the first of equal names or keys stays, and a repeated or bad section name switches the current section off |
| ConfigLoader.Config.Load | src/config.cpp:67-195 | loading a file is the pure loader on its content |

## Left out

- Real sockets: address lookup, poll, timeouts, EINTR retries and the text of the request; recv is a nonempty piece, the end of the stream, or an error there.
- pthread calls: the mutex is a guard on steps, the condition variables are wakes with spurious ones allowed, and fair scheduling is what turns the step bound of `JoinReturns` into termination.
- The deadline and the return value of `Wait_TsStream`: a host may leave its wait at any time.
- One thread at a time in `Wait_TsStream`: with two waiting hosts one put signals only one of them.
- One control thread: concurrent calls of OpenTuner, CloseTuner and SetChannel are not modelled.
- GetTsStream's test of `m_dwCurChannel`: in `TunerSystem` a get may happen at any time, which allows every real run.
- Bytes got between SetChannel's purge and its return count as delivered by the new session, since the receive thread already runs then.
- The bitrate value and its floating-point arithmetic, and a wrap of the 64-bit accumulator.
- The host's use of the returned buffer pointer: a result is the content of `m_pDst` when the get returns.
- GrabTsDataClass.GrabTsData.PutPass: the signal to a waiting host is a step of `RingSystem`, not of the object.
- GrabTsDataClass.GrabTsData.GetEnd: the signal to a waiting put is a step of `RingSystem`, not of the object.
- GrabTsDataClass.GrabTsData.purge_TsStream: the signal to a waiting put is a step of `RingSystem`, not of the object.
- GrabTsDataClass.GrabTsData.get_Bitrate: the bitrate itself, a floating-point value, is left out.
- The constructor's bad_alloc when malloc returns NULL.
- GrabTsDataClass.GrabTsData.put_TsStream: the waits are resolved by a list of field values that other threads leave; the threads themselves are in `RingSystem`.
- Response codes are unbounded integers; atoi on digits beyond the range of int is undefined in C.
- CBonTunerClass.CBonTuner.waitForRecvThreadFinish: what the receive thread puts before it exits is modelled in `TunerSystem`, not in the object; the lemmas of `TunerCalls` start from a thread that has left its loop, which `JoinCompletes` shows it does.
- JSON parsing: a parameter that yields the types in order, with an unreadable element for an access that throws; type strings are taken as C strings, and a JSON array has no more elements than its text has bytes.
- `Init`, string copies into globals, character conversion, logging, reference counting in CreateBonDriver and Release, `util::Separate`, and the lookups of `Section::Get`.
- Memory exhaustion other than for type strings and the body copy.
