# Verified models of miau

miau is an IRC bouncer written in C: one process keeps a connection to an IRC
server and lets clients come and go. This project models the parts of miau
whose correctness does not show in any one function, and proves what they keep
over whole runs. Each file is one module:

| file | models |
|---|---|
| `FloodControl.dfy`, `TokenRates.dfy` | the token bucket in front of the server connection, its queue, its refill; what the clock gives, exactly |
| `Failover.dfy`, `ServerEvents.dfy` | the server list, the search for the next working server, and every event that leads to it; what each event does to the list |
| `Channels.dfy`, `ChannelRuns.dfy`, `Sessions.dfy` | the channel registry as values: the operations, what every run of them keeps, retries, the way back after a lost connection |
| `Rosters.dfy`, `Records.dfy`, `Retries.dfy` | where each record is after each operation and in what order, what becomes of each of its fields, and how often exactly it is asked for |
| `Registry.dfy` | the same registry in place: records shared by reference, walked and moved between lists |
| `Quicklog.dfy` | the replay log, its flush and the inbox |
| `Automode.dfy` | the queues of automatic modes and their batches |
| `Modes.dfy` | the interpreter of channel MODE lines |
| `LineReader.dfy` | the resumable line reader |
| `Messages.dfy` | lines as they are cut to the buffer, and as a server takes them apart |
| `Lists.dfy`, `LinkedQueue.dfy` | the two doubly linked lists, node by node |
| `Masks.dfy` | the wildcard matcher and the permission lists |
| `ConfigLine.dfy` | trimming and splitting of configuration list lines |
| `Commands.dfy` | the command hash table |
| `Ascii.dfy`, `Sequences.dfy`, `Wrappers.dfy` | case folding of the C locale; sequences without repeats, or with one element taken out; an optional value |

What the code does step by step is a class whose methods change fields, or a
method with a loop over an array or over heap nodes; `Now()` is the value of
such an object. Each method is proved equal to a function on values (`Step`,
`Joined`, `Receive`, ...), and the properties of runs are lemmas about those
functions. Input, the clock and the answers of the network are parameters; what
goes out is the emitted sequence. Integers are mathematical.

## What the code does where its documents say otherwise

- `src/test_match.c` (lines 42-43) expects `*oba*` and `*ba*` to match
  `foobar`. The matcher accepts the second and rejects the first, as the comment
  on `match` says of `*ob*`: `Masks.NonGreedyMiss`. Which patterns are
  decided correctly for every text is `Masks.DecidesGlobIffSettled`.
- The manual calls `burstsize` the number of messages that can be sent at once.
  An idle period allows two bursts in the same second, because the time of the
  last refill does not advance while the bucket is full:
  `FloodControl.RateBound` has the exact bound, `FloodControl.RateBoundIsSharp`
  attains it for every length of time.
- With `burstsize` 1, which the configuration accepts, a full bucket is never
  refilled and queued lines stay for ever: `FloodControl.BurstOfOneStarves`. A
  waiting queue can be served if and only if the bucket is below `burstsize`:
  `FloodControl.ServedIffBelowBurst`.
- A comment in `server_drop` says that the short name of a channel need not be
  reset. It need not; but a JOIN under a new id can be taken for another safe
  channel, since shortening a name twice shortens it further:
  `Sessions.RecreatedIdCanClash`. When exactly the right record comes back is
  `Sessions.JoinBringsBackIff`, and when all records do in every order
  `Sessions.SessionIsRestoredIff`.
- The mode cursor skips the sign after a sign. It reads a mode string as
  RFC 2812 does if and only if no sign follows a sign:
  `Modes.CursorReadsLettersIff`; `+-o` makes us operator instead of taking it
  away: `Modes.DoubledSignMisreads`.
- A comment in `channel_join_list` says that a channel is removed after an
  unsuccessful attempt to join it. A channel that was joined is removed too,
  when it is left with the last client and its tries are used up, which those of
  a safe channel are at once: `Sessions.DetachedSafeChannelIsLost`. When exactly
  a channel comes back is `Sessions.DetachedComesBackIff`.
- The names and the keys of a JOIN line are strung together with commas, with a
  blank between the two lists, whatever they hold. A MODE line can set a key with
  a comma, and an off-line JOIN can give one with a blank, and then the keys
  shift: `Sessions.BlankInKeyShifts`. When exactly each key reaches its channel is
  `Sessions.KeysBelongIff`.
- A line that does not fit the buffer of the reader is cut in two, and one that
  holds a zero byte ends there: `LineReader.FramingRoundTripIff`.

## Model

| member | source | states |
|---|---|---|
| FloodControl.Sender.WriteSmart | src/irc.c:552-581 | the text is cut to the buffer; the line is sent at once when the bucket holds more than one token, else it joins the named end of the queue; state and wire are those of the step |
| FloodControl.Sender.ProcessQueue | src/irc.c:606-635 | the loop sends from the head while tokens last, a MODE line for two, and leaves the rest of the queue |
| FloodControl.Sender.ClearQueue | src/irc.c:645-652 | the queue is emptied and nothing is sent |
| FloodControl.Sender.CheckTimers | src/miau.c:1136-1161 | at most once a second the bucket is refilled by the time elapsed, capped at burstsize, and the queue is drained |
| FloodControl.StepKeepsInv | src/irc.c:562-580 | no event makes the bucket owe more than one token or lets a line wait while a direct send is possible |
| FloodControl.RunKeepsInv | src/miau.c:1136-1161 | the same after every run of events with any limits |
| FloodControl.NoOvertaking | src/irc.c:552-581 | since the last clear, tail lines sent followed by tail lines waiting are the tail submissions in order, whatever is put at the head and however the limits change |
| FloodControl.HeadLineIsNext | src/irc.c:562-578 | a head line is on the wire at once or first in the queue, and the others keep their order |
| FloodControl.TailLineIsLast | src/irc.c:562-578 | a tail line is on the wire at once or last in the queue |
| FloodControl.TimerStaysInRange | src/miau.c:1146-1160 | with fixed limits the bucket always holds from -1 to burstsize tokens |
| FloodControl.SpendSinceRefill | src/miau.c:1146-1160 | from a state on, spending up to a time is at most the tokens held, one of debt and the refills since the last one |
| FloodControl.RateBound | src/irc.c:621-634 | in every window of every run, lines sent through the bucket plus queued MODE lines sent are at most two bursts plus one line per floodtimer |
| FloodControl.RateBoundIsSharp | src/miau.c:1146-1159 | for all limits and every length of time, a run spends exactly the bound in a window of that length |
| FloodControl.ServedAfter | src/irc.c:621-634 | the first n queued lines are the first n sent, after a number of refills that depends on the tokens held |
| FloodControl.NoStarvation | src/miau.c:1146-1160 | with burstsize above the bucket and no head lines, n queued lines are sent within 2n refills even if all are MODE lines |
| FloodControl.StuckForever | src/miau.c:1146 | a full bucket of at most one token is never refilled and nothing is ever sent |
| FloodControl.ServedIffBelowBurst | src/miau.c:1146-1160 | a waiting queue can be served if and only if the bucket is below burstsize, which with burstsize 2 or more always holds |
| FloodControl.BurstOfOneStarves | src/miau.c:1146 | with burstsize 1, one idle refill and one line are enough to stop sending for ever |
| TokenRates.CostOfLine | src/irc.c:621-634 | a line costs one token, and one more if it comes out of the queue and begins with MODE |
| TokenRates.StepSpends | src/irc.c:562-580 | no event but a refill makes or loses a token: what is sent is what the bucket falls by |
| TokenRates.RefillGives | src/miau.c:1146-1160 | from one refill to the next, tokens spent and held are those held before and one for each whole floodtimer since the last refill, up to a bucketful beside what was spent in between; with floodtimer 0 a whole bucket beside that |
| TokenRates.ClockIsLatest | src/miau.c:1136-1139 | however the clock jumps, the time remembered is the latest ever seen |
| TokenRates.ServiceRate | src/miau.c:1136-1161 | while a line waits, burstsize is 2 or more and the clock ticks every second, the server is sent one token's worth per floodtimer, no less and no more |
| TokenRates.TokensForTime | src/miau.c:1146-1160 | however unevenly the clock ticks, a busy queue is given a token for every floodtimer between its first and last refill, but for less than one floodtimer at each refill |
| Ascii.CaseIsBlind | src/common.c:109-119 | two names are the same if and only if they differ at most in the case of the 26 letters |
| Ascii.UpcaseIsBlind | src/tools.c:35-41 | upper case is blind to the same |
| Messages.ReadBackIff | src/irc.c:552-560 | a server reads the words of a line as they were written if and only if each can stand anywhere in a message (section 2.3.1 of RFC 2812), none holds a line end, and the line is no longer than a message of section 2.3 |
| LineReader.Connection.Read | src/irc.c:728-755 | one call, byte by byte into the buffer: the line as a C string, or nothing yet, or the end, with the bytes kept and the input left |
| LineReader.LineLength | src/irc.c:740-741 | the end of the first line: at LF or at 1020 bytes, with no complete line before it |
| LineReader.LineLengthUnique | src/irc.c:740-741 | a byte string has one such place at most |
| LineReader.ReceiveSplits | src/irc.c:728-755 | one call takes exactly the first line of what was pending and what arrives, or keeps all of it |
| LineReader.ReadAllIsSplit | src/irc.c:728-755 | repeated calls return the one-shot split of the bytes, whatever was pending |
| LineReader.ChunkingIndependence | src/irc.c:733-741 | two arrivals of the same bytes, blocking at different places, give the same lines |
| LineReader.FramingRoundTripIff | src/irc.c:740-745 | messages, each followed by CR LF, are read back exactly if and only if none holds LF or a zero byte and each fits the buffer |
| LineReader.RoundTripIff | src/irc.c:740-745 | the same for one message |
| Lists.AddHead | src/list.c:43-61 | for every well-formed heap in which only the first node's last link is right, the new node comes first |
| Lists.AddTail | src/list.c:72-92 | the new node comes last and the first node's last link is moved to it |
| Lists.InsertAt | src/list.c:106-126 | the new node comes before the given place, or at the end for none |
| Lists.InsertBetween | src/list.c:117-125 | the links around an inner place are rewired to take in the new node |
| Lists.Delete | src/list.c:237-279 | the other nodes remain in order and the last link is handed on when the first or the last node goes |
| Lists.Find | src/list.c:290-302 | the first node with the data, or none when no node has it |
| Lists.MoveFirstTo | src/list.c:306-340 | the first node moves before the given place, or to the end, by rewiring in place; no data changes |
| LinkedQueue.List.Add | src/llist.c:52-66 | the node comes first; head, tail and links stay right |
| LinkedQueue.List.AddTail | src/llist.c:73-86 | the node comes last; head, tail and links stay right |
| LinkedQueue.List.Delete | src/llist.c:96-118 | the node goes, the rest stays in order, and its own next link is still that of before |
| LinkedQueue.List.Find | src/llist.c:127-139 | the first node with the data, or none |
| LinkedQueue.List.WalkTurn | src/llist.h:75-85 | a turn may delete the node it stands on and still goes on to the next initial node |
| LinkedQueue.List.WalkDeleting | src/llist.h:75-85 | a walk that deletes nodes visits every initial node once, in order, and leaves exactly those not deleted |
| LinkedQueue.KeptExactly | src/llist.h:75-85 | a node is left if and only if the walk did not ask to delete it |
| Masks.Match | src/match.c:38-91 | the loop over two indices ends and gives the answer of the case-blind decision |
| Masks.AcceptsIsSound | src/match.c:56-90 | whatever is accepted is described by the pattern in the usual sense of wildcards |
| Masks.AcceptsIsCommitted | src/match.c:73-84 | for text without an asterisk, acceptance is exactly commitment of every asterisk to the first occurrence of the character after it |
| Masks.AcceptsIffGlob | src/match.c:56-90 | for a text that holds the character after each asterisk at most once, acceptance is membership in the wildcard language |
| Masks.AcceptsIsStopped | src/match.c:38-91 | for every text: each asterisk goes to the first place of the character after it, or to the first asterisk of the text if that comes before, which it takes as its own; a last one takes all up to an asterisk, which must be the end |
| Masks.DecidesGlobIffSettled | src/match.c:38-91 | a pattern is decided correctly on every text without an asterisk if and only if each of its asterisks is last, or followed by one plain character and then question marks up to the next asterisk |
| Masks.MissedIsMissed | src/match.c:76-84 | for every other pattern, a text that it describes and the matcher rejects |
| Masks.NonGreedyMiss | src/match.c:33-34 | foobar is described by `*ob*`, `*oba*` and `*ba*`, and the matcher misses the first two |
| Masks.LastIndex | src/match.c:126-130 | the last place at which a string occurs, or none |
| Masks.MatchReplace | src/match.c:105-149 | matching against the pattern with its last marker replaced, when a replacement is known and the marker occurs |
| Masks.RuleTakesHost | src/perm.c:77-99 | a rule whose last `@@` stands between two parts accepts as the mask with the host there when that is known, else as it is |
| Masks.RuleWithoutMarker | src/match.c:126-135 | a rule without `@@` accepts as it is |
| Masks.LastFlagDecides | src/perm.c:91-98 | the flag is that of the last rule that accepts, and 0 when none does |
| Masks.PermList.Add | src/perm.c:37-52 | a named rule goes last; one without a name is skipped |
| Masks.PermList.IsPerm | src/perm.c:77-99 | overwriting the answer at every rule that accepts gives the flag of the last one |
| Commands.HashRespectsFold | src/commands.c:77-87 | names that differ only in case fall into one chain |
| Commands.LookupIsFirst | src/commands.c:94-109 | the answer is the value at the first place with that name, in any case |
| Commands.ChainAnswersAsList | src/commands.c:94-146 | the chain of a name answers as the association list of all additions, first addition wins |
| Commands.ChainIsDuplicateFree | src/commands.c:126-144 | no chain holds a name twice, in any case |
| Commands.Table.ComputeHash | src/commands.c:77-87 | the accumulating loop computes the hash |
| Commands.Table.Add | src/commands.c:117-146 | an addition keeps every bucket equal to the chain of the additions so far |
| Commands.Table.Find | src/commands.c:94-109 | after any additions, the value of the first one under that name in any case, else 0 |
| Failover.ServerPool.ServerReset | src/server.c:227-236 | every listed server is marked working and the fallback entry is untouched |
| Failover.ServerPool.ServerCheckList | src/server.c:709-740 | the last listed server with the current name and port becomes current; without listed servers reconnecting is disabled |
| Failover.ServerPool.SeekNext | src/server.c:285-293 | the cyclic search ends, although it never returns to the fallback entry, at the first working server after the old place |
| Failover.ServerPool.ServerChange | src/server.c:248-319 | the whole change: keep a good server once, disable the old one if asked, seek, reset or exit |
| Failover.ServerPool.TryConnect | src/miau.c:2261-2348 | each outcome of a connection attempt leads to the change that the main loop makes of it |
| Failover.ServerPool.JumpTo | src/miau.c:2121-2157 | JUMP with and without a number, the number clamped to the list |
| Failover.ServerPool.ReadConfig | src/miau.c:341-356 | the list is cut to the fallback entry and refilled with the named entries, all working, with their defaults |
| Failover.ServerPool.Reload | src/miau.c:862-954 | rehash: read, check, forget which server we are on, and change server when the bind address changed |
| Failover.StepKeepsInv | src/server.c:248-319 | no event breaks: on the fallback entry, or not knowing where, every listed server works |
| Failover.FallbackMeansAllWork | src/miau.c:2566-2570 | the same after every run from the initial state |
| Failover.ChangePicksFirstWorking | src/server.c:270-304 | in every reachable state the server picked is the working one first in cyclic order, the old one last; the list is reset or miau exits if and only if none works |
| Failover.FailAdvances | src/miau.c:2302-2333 | a failed connection or a failed lookup takes the server tried off the order of those to come and moves to the next |
| Failover.FailuresTryEachOnce | src/miau.c:2261-2334 | consecutive failures, of either kind in any mixture, try every working server once in cyclic order, and the last is exactly where miau starts over or exits |
| Failover.NoEarlyReset | src/server.c:295-304 | before that nothing is reset and the untried servers are still to come |
| Failover.OrderIsRotation | src/server.c:286-292 | with all servers working the order holds each listed place once |
| Failover.Fairness | src/server.c:249-304 | with all n listed servers working, n failures try each exactly once, the k-th the one k places on, and the n-th ends the round |
| ServerEvents.GoodServerIsTriedAgain | src/server.c:253-256 | when the connection to a good server is lost, or it sends an error, list and place stay as they are, and the next attempts face that server first and then every other working one |
| ServerEvents.GoodServerFailsOver | src/server.c:248-304 | from the loss of a good server on, as many failures as there are working servers try each of them once, the good one first, and the last ends the round |
| ServerEvents.GoodIsEarned | src/miau.c:1234-1243 | a server is good once it welcomed us and the timer went off, not before, and a new connection has to earn it again |
| ServerEvents.OnlyTheBlamedIsMarked | src/server.c:281-304 | a lost connection or a failed write marks no server, a refused connection, a name not found or an error marks the server in use and no other; then the next working one in cyclic order is taken, or all work again, or miau exits |
| ServerEvents.FallbackIsLastTried | src/server.c:185-219 | in every run the fallback entry is the server last tried |
| ServerEvents.EntriesAreListed | src/miau.c:341-356 | named entries are listed in order, with their defaults, behind what is there |
| ServerEvents.NamelessIsSkipped | src/miau.c:341-356 | an entry without a name is as if it was not there |
| ServerEvents.CheckFindsServer | src/server.c:709-740 | the check goes to the last listed server with name and port of the current one, else stays; it opens reconnecting, and closes it when no server is listed |
| ServerEvents.RehashListsEntries | src/miau.c:862-954 | after a rehash the entries are listed behind the server we are on, and the place is that of the last one with its name and port, or the fallback entry, and not trusted |
| ServerEvents.RebindGoesToFirst | src/miau.c:940-954 | when the bind address changed too, miau goes to the first entry, unless the server was good |
| ServerEvents.JumpGoesThere | src/miau.c:2127-2146 | JUMP with a number goes to that server, or to the first or last when it is out of range, marks it as working and changes no other |
| ServerEvents.JumpGoesOn | src/miau.c:2147-2151 | JUMP without a number leaves even a good server for the next working one and marks none |
| ServerEvents.ResetMarksAll | src/server.c:227-236 | RESET marks every listed server as working and changes nothing else |
| ServerEvents.NoServerNoAttempt | src/server.c:260-264 | without a listed server no attempt is made, and the end of a connection closes reconnecting |
| ConfigLine.FindComment | src/parser.c:157-166 | the loop stops at the first number sign outside quotes |
| ConfigLine.Trim | src/parser.c:145-177 | blanks go at both ends and, for a line, the comment |
| ConfigLine.PaddingIsTrimmed | src/parser.c:145-177 | spaces and tabs around a text are trimmed away, and nothing else |
| ConfigLine.CommentIs | src/parser.c:157-166 | the comment begins at the first number sign with an even number of quotes before it |
| ConfigLine.ParseListLine | src/parser.c:505-582 | the quote-counting loop: a new list, the end of a list, the parameters, or the error |
| ConfigLine.ScanReadsBack | src/parser.c:537-572 | the splitter reads back up to four printed fields, quoted or left out |
| ConfigLine.ParsesIffPrinted | src/parser.c:505-582 | a line is split into parameters if and only if it prints one to four of them, quoted or left out, and is not the start of a list |
| ConfigLine.ListLinesIff | src/parser.c:505-536 | a line begins a list if and only if it holds both an equals sign and a brace, and ends one if and only if it begins with a closing brace and does not |
| ConfigLine.TrimLine | src/parser.c:145-177 | of a printed line with a comment, the trimmer takes the comment and the outermost blanks and no more |
| ConfigLine.ConfigRoundTrip | src/parser.c:813-818 | printing one to four optional values that can stand on a line, with any blanks and a comment, then trimming and splitting, gives the values, if and only if the line does not hold both an equals sign and a brace |
| Automode.Dropped | src/automode.c:195-207 | what is left is exactly what does not concern the nick and the mode |
| Automode.GreetedKeepsNoRepeats | src/automode.c:145-161 | queueing never puts a nick, in any case, twice for one mode |
| Automode.DroppedKeepsNoRepeats | src/automode.c:195-207 | nor does dropping |
| Automode.GreetedMeans | src/automode.c:145-161 | after a greeting a mode waits for a nick if it did, or if it is operator status or voice and was permitted; what waited stays in front |
| Automode.DroppedMeans | src/automode.c:195-207 | after a nick is dropped no mode waits for it, in any case, and the others wait as before |
| Automode.DroppedAppend | src/automode.c:195-207 | dropping goes through the queue from front to back and keeps its order |
| Automode.BatchesAreTheQueue | src/automode.c:82-116 | the batches in order are the queue; each has one to three modes, all but the last three |
| Automode.CommitQueue | src/automode.c:73-116 | the loop with its buffers emits the MODE lines of the batches in order |
| Modes.EffectsMean | src/server.c:1435-1478 | the last change of our own operator status and the last key set win; an automatic mode stays queued unless somebody got it |
| Modes.EffectsShrinkQueue | src/server.c:1454-1456 | mode changes only take entries off a queue and keep it free of repeats |
| Modes.CursorReadsLettersIff | src/server.c:1413-1419 | the cursor pairs signs and letters as the RFC does if and only if no sign follows a sign |
| Modes.DoubledSignMisreads | src/server.c:1415-1419 | on `+-o` with our nick the cursor sets the operator flag and the RFC clears it |
| Modes.LetterHasLastSign | src/server.c:1413-1419 | a letter has the sign given last before it, however far back, which determines the reference reading |
| Modes.SignedIsRead | src/server.c:1413-1419 | changes written letter by letter with their signs are read as they are, by the RFC and by the cursor |
| Modes.ChangesReadBack | src/server.c:1421-1507 | for every letter: changes of which exactly those of operator, voice, key, ban, exception and invitation, and the setting of a limit, have an argument are read back from letters and arguments |
| Modes.LineReadsBack | src/server.c:1393-1513 | so they are from a whole line |
| Modes.OperAfterOthers | src/server.c:1421-1469 | whatever changes and arguments come before, a change of our own operator status gets our nick and decides |
| Modes.MaskBeforeOper | src/server.c:1477-1486 | in `+bo` with a mask and our nick the mask is the ban's, and we are operator |
| Modes.ApplyLetter | src/server.c:1421-1507 | one turn of the switch: its effect, and whether it uses up an argument |
| Modes.ParseModes | src/server.c:1411-1510 | the cursor loop computes the effects of the letters paired with their arguments |
| Modes.ParseModeLine | src/server.c:1393-1513 | the same for a whole line, against the reference reading, when no sign is doubled |
| Modes.WordsReadBackIff | src/server.c:1409-1412 | words with blanks between them are found again if and only if none is empty or holds a blank |
| Modes.ModeLineIsReadIff | src/automode.c:95-116 | a server reads the line of a batch as it is meant if and only if channel and nicks can stand anywhere in a message, and the line is one line and fits |
| Modes.BatchReadsBack | src/automode.c:95-116 | the words of that line, read as those of a MODE line are, give each nick its own mode and nothing else |
| Quicklog.Log.Drop | src/qlog.c:352-409 | old lines leave from the front up to the first that is not old; private ones that can be told go to an open inbox when asked |
| Quicklog.Log.Append | src/qlog.c:416-439 | a flush that moves, then the new line last |
| Quicklog.Log.Reopen | src/miau.c:956-970 | a rehash opens or closes the inbox as configured |
| Quicklog.FlushedConserves | src/qlog.c:352-409 | a flush moves the old lines from the front of the log to the past, and tells the inbox of exactly those if it moves and the inbox is open |
| Quicklog.HistoryIsConserved | src/qlog.c:352-439 | in every run, lines written are lines removed followed by the log |
| Quicklog.InboxTellsOfMoved | src/qlog.c:369-399 | in every run, moving or not, opening or closing the inbox, it gets a note for each private line that can be told, once, in order, of those removed by writes and moving flushes while it is open, and of no other |
| Quicklog.OpenAsConfigured | src/miau.c:956-970 | in every run the inbox is open or closed as the last rehash said |
| Quicklog.NoteIs | src/qlog.c:369-399 | the note of a line says when it came in, its first word without the first character, and what follows the first space and colon |
| Quicklog.OnlyPrivateAreTold | src/qlog.c:369 | of lines that are not private nothing is told |
| Quicklog.NoPayloadNoNote | src/qlog.c:372-381 | a line without a space and a colon gives no note |
| Quicklog.TargetIs | src/qlog.c:442-466 | the channel a line is about stands between its second and its third space |
| Quicklog.TargetIff | src/qlog.c:442-466 | a line is about a channel if and only if it has three spaces |
| Quicklog.FlushIsFilter | src/qlog.c:359-366 | on a sorted log the prefix flush keeps exactly the lines that are newer |
| Quicklog.WriteKeepsWindow | src/qlog.c:416-439 | on a sorted log a write leaves the lines newer than its window, and its own last |
| Quicklog.FlushIsFilterIff | src/qlog.c:359-366 | the prefix flush drops exactly what is too old if and only if no line too old stands behind one that is not |
| Quicklog.SortedIffFlushesFilter | src/qlog.c:359-366 | it does so for every age if and only if the log is sorted |
| Quicklog.UnsortedFlushDiffers | src/qlog.c:363-366 | two lines out of order for which it does not |
| Quicklog.LogStaysSorted | src/qlog.c:416-439 | under a clock that does not go back the log is sorted in every run |
| Channels.FoundIsBest | src/channels.c:313-355 | a channel is found if and only if the name is a channel's and one matches; the first exact match wins, else the last of the short forms |
| Channels.FoundAtOrBefore | src/channels.c:439-499 | the name of the channel a retry stands on never finds a later one, so the walk keeps its next node |
| Channels.EveryKindIsFound | src/channels.c:584-606 | a channel of each of the six kinds is found under its name, and under a name of no kind nothing is found |
| Channels.ShortFormIs | src/channels.c:547-572 | the short form of a safe name drops the five characters after the mark; other and too short names are their own |
| ChannelRuns.SumsAfterStep | src/channels.c:83-304 | but by the record it creates, no operation raises how often a channel is listed; none but a welcome and a retry how often it may be asked for; none but a greeting how many modes wait |
| ChannelRuns.StepKeepsPartition | src/channels.c:83-304 | after every operation each record is on one list, once, and no later identity is on any |
| ChannelRuns.JoinKeepsUnique | src/channels.c:132-224 | our own JOIN, from whichever list, keeps ordinary names unique in any case among active and passive channels |
| ChannelRuns.EnqueueKeepsUnique | src/client.c:199-221 | so does queueing a channel off-line |
| ChannelRuns.StemStep | src/server.c:98-166 | every other operation leaves channels that stem one by one from those before |
| ChannelRuns.StepKeepsPending | src/automode.c:131-175 | after every operation the counter is no less than the automatic modes waiting on all channels |
| ChannelRuns.StepKeepsInv | src/channels.c:83-355 | every operation keeps partition, unique names, consistent short names, queues free of repeats, tries that are unset or a number, and the counter |
| ChannelRuns.RunKeepsInv | src/channels.c:83-355 | so does every run |
| ChannelRuns.FreedStaysFreed | src/channels.c:295-303 | a record that is on no list is on none ever after |
| ChannelRuns.GateStaysOpen | src/miau.c:1394-1398 | while an active channel has modes waiting, the counter that opens the timer is positive |
| ChannelRuns.SumsAfterJoinFrom | src/channels.c:439-499 | asking for a channel uses up one of its tries |
| ChannelRuns.AskedWithinTries | src/channels.c:439-499 | between two welcomes, whatever else happens, a channel is asked for no more often than it has tries |
| ChannelRuns.BoundedRejoin | src/channels.c:449-463 | a channel that starts unset is in at most max(1, jointries) JOIN lines, a safe one in at most one |
| Rosters.RostersAfterStep | src/channels.c:83-304 | in every reachable state, every operation but the retry leaves the lists as a table of identities has it: those that stay in their order, then those that come, in the order of where they come from, then a new one |
| Rosters.PlaceAfterStep | src/channels.c:83-304 | so each record is on the list the table says, or on none: none is lost, kept or moved otherwise |
| Rosters.NoLoss | src/channels.c:83-304 | a listed record stays listed, once, unless the table frees it: off-line PART and JOIN 0, leaving without a log, a drop or a leaving detach without rejoin, a new client for an old channel without a log |
| Rosters.DetachWithoutLeave | src/miau.c:1049-1074 | when the last client goes and channels are not left, every channel is on its list and found as before |
| Rosters.RetryKeeps | src/channels.c:439-499 | a retry frees no channel while none of its name has used up its tries, and touches no other list |
| Rosters.RetryFreesIff | src/channels.c:491-499 | a channel with a name of its own is freed by a retry exactly when its tries are used up |
| Records.FieldsAfterStep | src/channels.c:83-304 | in every reachable state, each field of each record that stays listed is what three tables say, by field: which operations on which channels set names, key, operator status, tries, log flag and queue, and that nothing else does |
| Records.ModeLineMeans | src/server.c:1393-1513 | after a MODE line the channel named has the operator status of the last change of ours and the key set last, and only modes given by somebody left its queue |
| Records.NewRecordIs | src/channels.c:165-190 | a channel made by our JOIN or off-line has the key given or `-`, unset tries, unknown operator status, no queue, no log, and the right names |
| Records.JoinedIsFound | src/channels.c:83-232 | after our JOIN an ordinary name finds an active channel: the one it found before, else the passive, the old or a new one |
| Records.FormerIsLogged | src/qlog.c:58-101 | an old channel has a log if and only if a line in the window is about it and finds no active one |
| Records.CounterAfterStep | src/automode.c:151-181 | the counter rises by what a greeting queues, falls by what is sent, and changes by nothing else |
| Records.CounterIsExact | src/automode.c:131-207 | in every run it is what waits and what left the queues unsent |
| Retries.TriesAreSpentOnAsking | src/channels.c:439-499 | for a channel its name alone finds, a retry spends exactly one try for each time it asks |
| Retries.AskedOnce | src/channels.c:460-490 | a retry asks once for an ordinary channel that has tries, or unset ones that it sets, and leaves one less |
| Retries.UnsetWaits | src/channels.c:441-459 | a retry that does not set unset tries asks for no such channel and leaves it as it is |
| Retries.AskedExactly | src/channels.c:439-499 | with n tries, an ordinary channel is asked for by each of the next n retries and by no later one |
| Retries.UnsetIsAskedExactly | src/channels.c:441-463 | one that starts unset is asked for by exactly the first max(1, jointries) retries |
| Retries.AskedAsTriesFall | src/channels.c:439-499 | between two welcomes, whatever else happens, an ordinary channel still listed was asked for exactly as often as its tries fell |
| Sessions.FateInWalk | src/channels.c:439-499 | in a retry, a channel its name alone finds is asked for and loses a try, or is removed, or is left alone, as its tries say |
| Sessions.RetryDecides | src/channels.c:460-499 | in every reachable state this holds of each ordinary passive channel; the retry after its tries reached 0 removes it |
| Sessions.ItemsReadBackIff | src/channels.c:487-490 | items strung together with commas, the first comma skipped, are taken apart again if and only if none holds a comma |
| Sessions.KeysBelongIff | src/channels.c:487-538 | a server reads names and keys of a JOIN line as they are, and so the i-th key as that of the i-th channel, if and only if none is empty or holds a comma, a blank or a line end, neither list begins with a colon, and the line fits a message |
| Sessions.BlankInKeyShifts | src/client.c:199-221 | an off-line JOIN of two channels with a key that holds a blank, after which the second channel is asked for without its key |
| Sessions.JoinBringsBack | src/channels.c:132-224 | a JOIN moves the right passive record to the active list and gives it the server's name |
| Sessions.JoinBringsBackIff | src/channels.c:334-354 | for a short name nobody shares, the record comes back if and only if no other wanted channel has exactly the server's name |
| Sessions.ClashTakesOther | src/channels.c:339-342 | otherwise the other record is taken and this one is not active |
| Sessions.RecreatedIdCanClash | src/channels.c:547-572 | two safe channels with different short names for which that happens |
| Sessions.AllRejoin | src/channels.c:132-224 | JOINs in any order move the dropped channels back as they come, each under its new name, and leave the older ones |
| Sessions.AllAsked | src/channels.c:441-490 | a walk on which every channel has tries asks for all in order, takes one try from each and removes none |
| Sessions.WelcomedAreAsked | src/server.c:831-836 | so the first retry after a welcome asks for every passive channel |
| Sessions.SessionIsRestored | src/server.c:138-163 | after a lost connection, a welcome, a retry that asks for every channel passive or dropped and loses none, and JOINs in any order under recognisable names, the same records are active with their keys, queues and short names, and what was passive is passive |
| Sessions.SessionIsRestoredIff | src/channels.c:334-354 | for channels whose short names nobody shares, every order of JOINs restores all records if and only if nobody else is called by the new name of a safe channel |
| Sessions.DetachedComesBackIff | src/miau.c:1039-1074 | when the last client goes and channels are left to be rejoined, a channel with a name of its own is asked for by the next retry, and still listed after it, if and only if its tries are not used up |
| Sessions.DetachedSafeChannelIsLost | src/channels.c:449-499 | whatever is configured, a safe channel queued, joined at its first request, and left with the last client is forgotten |
| Sessions.OrdinaryIsRecognisable | src/channels.c:334-354 | without safe channels, names that differ at most in case are recognisable |
| Sessions.CheckedIffNamed | src/qlog.c:58-101 | an active channel has a log if and only if a non-private line in the window names it |
| Sessions.PartedIsKeptIffNamed | src/channels.c:248-298 | a channel we leave goes to the old list if and only if such a line names it |
| Registry.Channel.QueueMode | src/automode.c:151-160 | one mode is queued for a nick unless it waits already, and the number added is reported |
| Registry.Channel.DropActions | src/automode.c:195-207 | the walk deletes in place exactly the entries concerned |
| Registry.Channel.TakeTry | src/channels.c:441-463 | an unset counter is set as configured, then counted down |
| Registry.Channel.Activate | src/channels.c:210-224 | the record takes the server's name once and its short form once |
| Registry.Registry.Find | src/channels.c:313-355 | the loop returns the first exact match, else the last match of short forms |
| Registry.Registry.Join | src/channels.c:83-232 | our JOIN: the same record moves from the passive or old list, or a new one is made; no record is ever on two lists |
| Registry.Registry.Enqueue | src/client.c:199-221 | a channel is queued off-line unless it is found active or passive |
| Registry.Registry.PartPassive | src/client.c:155-177 | off-line PART of one name frees the record found |
| Registry.Registry.PartAll | src/client.c:190-197 | JOIN 0 off-line frees every passive record |
| Registry.Registry.ServerDrop | src/server.c:98-166 | the loop moves every active record, renamed to its short form, to the end of the passive list, or frees it |
| Registry.Registry.ClientsLeft | src/miau.c:1039-1074 | when the last client goes, channels are kept, moved or freed as configured |
| Registry.Registry.Welcome | src/server.c:831-836 | every passive record may be tried afresh |
| Registry.Registry.RetryTurn | src/channels.c:439-499 | one turn of the walk: what it asks for, what it removes, where it goes on |
| Registry.Registry.Retry | src/channels.c:396-543 | the walk over the passive list gives the list of the value model and the two strings of its JOIN line |
| Registry.Registry.CheckLog | src/qlog.c:58-101 | every flag is cleared, then set by each line in the window for the channel it resolves to |
| Registry.Registry.Remove | src/channels.c:242-304 | the record leaves the active list without its queue and is kept as old if it has a log, else freed |
| Registry.Registry.Leave | src/server.c:1097-1220 | KICK or PART of ourselves |
| Registry.Registry.Prune | src/channels.c:412-428 | for a new client the walk frees old records without a log and keeps the rest in order |
| Registry.Registry.ChangeModes | src/server.c:1393-1513 | a MODE line changes operator flag, key and queue of the channel found and nothing else |
| Registry.Registry.Greet | src/automode.c:131-164 | somebody's JOIN queues what the permission list grants, and the counter grows by what was added |
| Registry.RuleForOne | src/automode.c:145-152 | a rule without wildcards gives its mode exactly to the mode, nick, host and channel it spells out, in any case |
| Registry.Registry.Parted | src/server.c:1189-1203 | somebody's PART takes their modes off that channel's queue |
| Registry.Registry.Quitted | src/automode.c:185-191 | somebody's QUIT takes their modes off every queue |
| Registry.Registry.CountNames | src/server.c:976-1023 | an unknown operator status is settled by whether we are alone |
| Registry.Registry.SendQueue | src/automode.c:73-120 | an operator channel's queue becomes its MODE lines and is emptied, the counter falling by its length |
| Registry.SentOrKept | src/automode.c:73-120 | where we are operator all that waits is sent, in order and in lines of at most three, and nothing waits any more; elsewhere nothing is sent and all waits |
| Registry.Registry.PerformModes | src/automode.c:59-124 | the walk over the active list sends the lines of all operator channels in order |

## Left out

- Sockets, name lookup, `select`, DCC, file logging, message texts, forking and signals; memory allocation never fails, freeing a record is leaving every list, and integers do not overflow.
- FloodControl.Sender.WriteSmart: does not model writes to clients, which bypass the bucket; the CR LF is not part of the text.
- FloodControl.RateBound: does not count the QUIT line of `server_drop`, which goes to the server past the bucket.
- LineReader.Connection.Read: does not model the idle timer of the connection, nor errors of `recv` other than would-block; for a line that is a bare LF the byte before the buffer is the timer the loop has just cleared, so it is not a CR.
- Failover.ServerPool.ServerChange: does not model the timer that delays the next attempt (`timers.connect`); an attempt may happen in any state the list allows, which only adds runs.
- Failover.ServerPool.TryConnect: does not model that timer, nor the choice of a nick.
- Failover.ServerPool.JumpTo: does not model that timer.
- Failover.ServerPool.ReadConfig: models the server list and the two settings that the search reads.
- Failover.ServerPool.Reload: does not model the other settings, nor the branch for a changed real name or user name, which subtracts from a list pointer.
- ConfigLine.ParseListLine: a line with more than four parameters is reported as an overrun, where the code writes past its array; text after a closing brace is not reported, and what each list does with its parameters is modelled for servers only (`Failover.ServerPool.ReadConfig`).
- Masks.MatchReplace: excludes, when there is a replacement, patterns shorter than the marker by two or more, before whose start the code would read; null strings are not modelled.
- Masks.PermList.IsPerm: excludes, while the host is known, rules with an empty name, for the same reason; so does `Registry.Registry.Greet`.
- Masks.DecidesGlobIffSettled: text that itself contains an asterisk is not compared with the meaning of the pattern but for soundness (`Masks.AcceptsIsSound`); what is decided on it is `Masks.AcceptsIsStopped`.
- Modes.ParseModes: excludes a mode string that ends in a sign, past whose end the code would read; so does `Registry.Registry.ChangeModes`.
- Modes.ParseModeLine: excludes that and a line without words, whose first word the code would read.
- Quicklog.Log.Drop: excludes a private line that is empty, past whose end the code would read; time stamps in the inbox are numbers, and emptying the inbox by command is not modelled.
- Quicklog.Log.Append: excludes the same.
- Registry.Registry.Enqueue: models one name; taking the lists of JOIN apart at commas is not modelled. Names that are no channel's are never found, so they can be queued twice, as in the code.
- Registry.Registry.PartPassive: models one name of the list of PART.
- Rosters.RostersAfterStep: leaves out the retry, which removes by name; what it keeps and frees is `Rosters.RetryKeeps` and `Rosters.RetryFreesIff`, its order `Sessions.AllAsked`.
- Registry.Registry.Retry: does not model the branch that tells a client of its active channels.
- Registry.Registry.Leave: the comparison of the nick with ours is left to the caller.
- Registry.Registry.CountNames: the number of nicks in the reply is a parameter.
- The queues and channel lists of the flood control, the quicklog and the registry are sequences of lines or of references to records; how such a list is linked is proved once, in `Lists` and `LinkedQueue`. The server list is a sequence of records in which a place stands for a node pointer.
- `Channels.Chan.id` stands for the address of a record. Topics and log files of channels are not part of it. The old-list argument of `channel_add`, which nothing passes, is not modelled.
- Automatic modes are put at the head of the flood queue, so the batches may reach the server in the reverse order; the batching is stated on emission.
- Away handling, nick generation, ignore lists, private logs, remote commands, the client login and the status dump would only add easy members.
