# Methabot: a Dafny model of its cores

Methabot is a web crawler written in C. This project models the parts of it whose
correctness no finite set of examples can settle, and proves what they are for:

- **The URL cache** (`mtrie.c`): a path-compressed trie over folded characters that one call
  both searches and extends. `TrieTree.dfy` holds the set it denotes, `TrieHeap.dfy` the
  blocks of memory, `MTrie.dfy` the code that rewrites them in place.
- **The crawl frontier and the handoff between workers** (`urlengine.c`, `utable.c`,
  `worker.c`): `Frontier.dfy` is one worker's stack of URL lists, `Handoff.dfy` the protocol
  of all workers as a state machine whose steps are the lock-protected regions,
  `Worker.dfy` the statements that take those steps, `Conserve.dfy` the conservation of
  URLs and who gets which, `WorkerSort.dfy` the in-place filter that waits for HEAD replies.
- **URL matching expressions and filters** (`umex.c`, `filter.c`): `Glob.dfy` is what a
  pattern means, `Umex.dfy` its compiler and the matcher of the bytecode, `Filter.dfy` the
  rule list.
- **FTP listings** (`ftpparse.c`): `FtpDate.dfy` is the calendar arithmetic, `FtpParse.dfy`
  the parser of listing lines.
- **Incremental and in-place parsing** (`nolp.c`, `entityconv.c`, `conf.c`): `Nolp.dfy`,
  `EntityConv.dfy` and `Conf.dfy`.

`Url.dfy` and `Helpers.dfy` hold what several of these use.

State that the C code updates in place is a class here, or a buffer array, and its methods
are proved against functions; what the code promises is proved about those functions.
Large predicates are often written `forall z :: Unfold(z) ==> ...`, or with a trigger of their
own such as `ShowStep(path, z)`: they stay folded until the proof mentions the trigger.

What the proofs turned up in the code:

- Folding makes `_` and `"` one character in the cache, and `@ [ \ ] ^` the same as
  `` ` { | } ~ `` (`TrieTree.FoldCollisions` says exactly which characters collide).
- UMEX literals survive the bytecode only up to 127 bytes or from 65408 on, because the
  16-bit opcodes overwrite the high length byte and length bytes are read through a signed
  `char` (`Umexes.LengthRoundTrip`). A `HOST` pattern can compare past the end of the host:
  `Umexes.PartMeaning` says when, and `Umexes.HostOverruns` shows one that does.
- The share loop offers x URLs to the x-th waiting worker (`Workers.Portion`), so the first
  one is woken with nothing; `Conserves.ShareDeals` says who gets which.
- `ue_next`'s `ue_set_host` (`src/libmetha/urlengine.c:431`) never runs: the counter it tests has just
  been increased.
- `nolp_recv` searches from a stale position after a payload that spans receives;
  `Nolps.SafeExact` says exactly which receives are unharmed. A payload callback that asks again
  is harmless exactly when it asks for no more bytes than it got, or for one
  (`Nolps.AppendExactly`).
- In `guesstai`, 29 February can come out months ahead (`FtpDates.LeapDayMissed`), and in the
  second, third and fourth century it can come out as that of the year 400
  (`FtpDates.LeapDayAstray`). `FtpDates.LeapDayExactly` says exactly when it comes out right.
- A semicolon in its name makes an MSDOS line a VMS line (`FtpParses.ParseDosLine`), and a VMS
  name that starts with one of `+bcdlps-` is taken for another format (`FtpParses.ParseVmsLine`).
- An unknown entity name loses its semicolon to a NUL (`EntityConvs.KnownExactly`).
- The I/O buffer has no NUL after the text. When a page ends inside an entity name the code
  goes by what an earlier page left there: after `&a`, a `;` makes it write a NUL behind the
  text, and `b;` makes it search from behind the end (`EntityConvs.OpenNameRunsOn`).
  `EntityConvs.EndedExactly` says for which buffers it stays inside.
- In configuration files `class["x"];` constructs an object that is never added
  (`Confs.BareForgotten`), `extend: class["x"];` leaves the next object to be looked up
  instead of made (`Confs.ExtendLeaks`), and after `scope;` the next object's closing brace ends
  the scope and the object is never added (`Confs.ScopeLeaks`). `Confs.MeantExactly` says exactly
  which printed files are spared. A class answers to every prefix of its name, so that one whose
  name starts an earlier one's can not be named (`Confs.OwnName`).

## Model

| member | source | states |
|---|---|---|
| TrieTree.FoldCollisions | src/libmetha/mtrie.h:32-33 | two URL characters share a code exactly when they are one letter in two cases, `_` and `"`, or one of `@[\]^` and the character 32 above |
| TrieTree.BranchCountFits | src/libmetha/mtrie.c:152-166 | a sorted branch has at most 63 children, so its count fits six bits and an insertion never carries into the flags |
| TrieTree.HasUpdate | src/libmetha/mtrie.c:216-389 | a change below one node changes membership of the keys that pass through it and of no other |
| TrieTree.SplitHas | src/libmetha/mtrie.c:262-333 | splitting a leaf or connection, also down to a connection of length 0, stores exactly the same keys |
| TrieTree.AddKidHas | src/libmetha/mtrie.c:152-165 | a new empty child stores nothing |
| TrieTree.AddKidWF | src/libmetha/mtrie.c:152-165 | inserting at the position found keeps the branch strictly sorted |
| TrieTree.NewLeafAdds | src/libmetha/mtrie.c:370-384 | turning an empty node into a leaf adds one key |
| TrieTree.ExpandAdds | src/libmetha/mtrie.c:335-348 | growing a leaf adds one key and keeps the one that ended there |
| TrieTree.MarkAdds | src/libmetha/mtrie.c:349-363 | stealing a character's match bit adds one key, which was not stored |
| MTries.MTrie.Search | src/libmetha/mtrie.c:97-117 | finds the child for a character or the position where it belongs |
| MTries.MTrie.Next | src/libmetha/mtrie.c:91-166 | reaches the child for a character, adding it if needed, without changing the stored set or breaking the structure |
| MTries.MTrie.Insert | src/libmetha/mtrie.c:152-165 | the reallocated branch holds the old children and an empty one in order |
| MTries.MTrie.Split | src/libmetha/mtrie.c:262-333 | after the split the structure is whole, the stored set is the same, and the new child is empty |
| MTries.MTrie.KeyEnds | src/libmetha/mtrie.c:235-240 | answers 1 exactly when the key was missing, and stores it |
| MTries.MTrie.NewLeaf | src/libmetha/mtrie.c:370-384 | stores the key and nothing else |
| MTries.MTrie.ExpandLeaf | src/libmetha/mtrie.c:335-348 | stores the key and nothing else |
| MTries.MTrie.MarkInside | src/libmetha/mtrie.c:349-363 | stores the key and nothing else |
| MTries.MTrie.InText | src/libmetha/mtrie.c:243-369 | a step at a leaf or connection settles the key or consumes at least one character |
| MTries.MTrie.Visit | src/libmetha/mtrie.c:234-387 | a turn of the loop settles the key or consumes at least one character, with the stored set unchanged |
| MTries.MTrie.TryAdd | src/libmetha/mtrie.c:216-389 | over the characters from the host on, returns 1 exactly when the folded key was not stored; afterwards the old keys and this one are stored and nothing else; no block is leaked or shared |
| MTries.KeyTells | src/libmetha/mtrie.c:230-231 | two URLs have one key exactly when they are equally long from the host on and character by character the same up to folding |
| MTries.TryAddAll | src/libmetha/mtrie.c:204-214 | in any sequence of URLs given to a new cache, one is answered 1 exactly when none before it is the same from the host on, up to folding |
| Globs.GreedyFind | src/libmetha/umex.c:188-208 | taking the leftmost occurrence after a star loses no match |
| Globs.GlobSuffix | src/libmetha/umex.c:159-171 | a literal after the last star matches exactly as a suffix |
| Umexes.LengthRoundTrip | src/libmetha/umex.c:143-148 | the length written is the length read exactly for 0..127 and 65408..65535 |
| Umexes.ReadableEncodable | src/libmetha/umex.c:466-519 | a compiled part can be decoded exactly when each of its literal runs has such a length |
| Umexes.Umex.CompileStr | src/libmetha/umex.c:449-546 | one scan emits the bytes of the part's program |
| Umexes.CompileParts | src/libmetha/umex.c:343-379 | several parts compile to the programs of the parts, each after its search byte |
| Umexes.Match | src/libmetha/umex.c:94-224 | running the bytes answers what the program means |
| Umexes.WildSegments | src/libmetha/umex.c:159-208 | the code after a star accepts a window iff the rest of the glob matches it |
| Umexes.PartMeaning | src/libmetha/umex.c:449-546 | the code of a part accepts a stretch of the URL iff the glob matches it, or the pattern is empty, or a literal overruns it |
| Umexes.NoOverrun | src/libmetha/umex.c:112-123 | a stretch up to the end of the URL cannot be overrun |
| Umexes.SinglePart | src/libmetha/umex.c:104-124 | a compiled FULL pattern accepts a URL iff the glob matches all of it, a FILE pattern iff it matches what comes after fileO, a PATH pattern iff it matches what comes after the host |
| Umexes.CompileAndMatch | src/libmetha/umex.c:94-224 | from pattern bytes to the answer: a compiled pattern accepts a URL iff its parts up to the first early answer do, each on the bytes of the URL that its name stands for; one FULL, FILE or PATH part iff the glob matches those bytes |
| Umexes.HostOverruns | src/libmetha/umex.c:107-124 | the HOST pattern `h/*` accepts ftp://h/ by comparing with the path's slash, which the glob does not |
| Umexes.ProgramMeaning | src/libmetha/umex.c:159-224 | with several parts the answer is the conjunction of those up to the first that answers early |
| Umexes.ExplicitStrStart | src/libmetha/umex.c:232-258 | builds the bytes of a path prefix program |
| Umexes.PrefixMeaning | src/libmetha/umex.c:174-185 | such a program accepts exactly the URLs whose path starts with the prefix |
| Filters.Filter.AddRule | src/libmetha/filter.c:61-91 | an ALLOW rule takes the place of the first DENY rule, which moves to the end; any other rule goes to the end |
| Filters.Filter.EvalUrl | src/libmetha/filter.c:34-54 | the first rule that matches decides, ALLOW if none |
| Filters.AddAllKeeps | src/libmetha/filter.c:61-91 | after any additions all ALLOW rules stand before all DENY rules and none is lost or doubled |
| Filters.VerdictMeaning | src/libmetha/filter.c:34-91 | a URL is allowed iff some ALLOW rule hits it or no DENY rule does |
| Filters.OrderIrrelevant | src/libmetha/filter.c:34-91 | the verdict does not depend on the order of additions |
| Filters.RobotsMeaning | src/libmetha/filter.c:34-91 | with prefix rules a URL is allowed iff some Allow prefix starts its path or no Disallow prefix does |
| Filters.Robots | src/libmetha/filter.c:34-91 | from the lines of robots.txt through bytecode, rule list and evaluation loop: allowed iff some Allow prefix starts the path or no Disallow prefix does |
| Filters.PrefixOk | src/libmetha/umex.c:232-258 | prefixes up to 127 bytes are decoded as written |
| Frontiers.UlistPop | src/libmetha/utable.c:142-156 | returns the last entry that is not nullified and drops it and those after it; nothing only if all are nullified |
| Frontiers.PopKeys | src/libmetha/utable.c:142-156 | popping neither loses nor copies a URL |
| Frontiers.UeHandle.UtableDec | src/libmetha/utable.c:73-81 | drops the top list, or fails and changes nothing |
| Frontiers.UeHandle.DropDeep | src/libmetha/urlengine.c:385-390 | drops lists until the counter is below the limit |
| Frontiers.UeHandle.FindUrl | src/libmetha/urlengine.c:392-424 | pops from the top list or goes down, and puts a new list on top |
| Frontiers.UeHandle.Next | src/libmetha/urlengine.c:379-435 | the two loops in order |
| Frontiers.UeHandle.Add | src/libmetha/urlengine.c:170-250 | a URL goes on the top list and into the cache exactly when it was not cached |
| Frontiers.UeHandle.Revert | src/libmetha/urlengine.c:158-165 | a redirect is added one level up |
| Frontiers.DepthLimit | src/libmetha/urlengine.c:379-435 | row r holds URLs depth_counter-(sz-1-r) links away; with limit L no returned URL is more than L-1 links away |
| Frontiers.TrimKeeps | src/libmetha/urlengine.c:385-390 | the lists kept are exactly those whose URLs are less than the limit away from a start |
| Frontiers.NextTakes | src/libmetha/urlengine.c:379-435 | takes the last URL of the highest list within the limit that has one, drops the empty lists above it for one new list, and sets the counter to that list's depth; finds nothing only if no list within the limit has a URL |
| Frontiers.NextKeys | src/libmetha/urlengine.c:379-435 | what ue_next returns leaves the frontier and nothing enters it; without a limit nothing else leaves |
| Frontiers.AddLinksKeys | src/libmetha/urlengine.c:215-245 | links bring exactly the keys that were not cached, each once |
| Frontiers.AddLinksNew | src/libmetha/urlengine.c:215-245 | every link of a page enters the cache, and the list grows by exactly the first links of the keys not cached before, in the page's order |
| Frontiers.AddLinksLevel | src/libmetha/urlengine.c:170-250 | new links go after what the list held, at their depth |
| Handoffs.InvBegin | src/libmetha/worker.c:225-249 | the initial state keeps the invariant |
| Handoffs.InvStep | src/libmetha/worker.c:249-461 | every step of every worker keeps the invariant: the queue is exactly the distinct workers waiting without a message, each with an empty frontier; counters give depths; every key is cached and in one place |
| Handoffs.RunInv | src/libmetha/worker.c:249-461 | the invariant holds in every state of every run |
| Handoffs.ShareKeeps | src/libmetha/worker.c:339-366 | sharing empties the queue, wakes exactly the queued workers, keeps their lists' depth, and touches nobody else |
| Handoffs.GiveLeveled | src/libmetha/worker.c:342-360 | a woken worker's counter is right for the URLs it got |
| Handoffs.IdleIsOver | src/libmetha/worker.c:435-436 | when IDLE is notified every worker sleeps with an empty frontier |
| Handoffs.IdleExactly | src/libmetha/worker.c:435-436 | IDLE is notified exactly when every worker sleeps with an empty frontier |
| Handoffs.NeverTwice | src/libmetha/urlengine.c:379-435 | no folded URL is visited twice, by any worker |
| Handoffs.VisitDepth | src/libmetha/urlengine.c:385-390 | with limit L no worker visits a URL more than L-1 links away, redirects and handoffs included |
| Handoffs.Progress | src/libmetha/worker.c:249-461 | unless IDLE was notified some worker can take a step |
| Handoffs.StepDrops | src/libmetha/worker.c:249-461 | every step lowers a rank built from the keys not cached and the frontiers' sizes |
| Handoffs.RunsEnd | src/libmetha/worker.c:249-461 | no run is longer than its rank, also with depth limit 0 |
| Handoffs.StuckIsIdle | src/libmetha/worker.c:421-461 | a run that cannot go on has notified IDLE and left no URL |
| Handoffs.StepComplete | src/libmetha/worker.c:249-461 | without a limit and with a sort that keeps everything, each cached key stays in one frontier or is visited |
| Handoffs.RunFinds | src/libmetha/worker.c:249-461 | in every run the cache holds the keys of exactly the arguments, links and redirects found so far |
| Handoffs.IdleVisitedAll | src/libmetha/worker.c:249-461 | without a limit and with a sort that keeps everything, when IDLE is notified the run has visited every argument, link and redirect it found, once for each key |
| Conserves.MoveLinks | src/libmetha/worker.c:354-360 | popping from one list onto another keeps the URLs of both together |
| Conserves.HandoffConserves | src/libmetha/worker.c:335-366 | the handoff keeps the multiset of non-empty URLs over all frontiers, for any queue and any nullified entries |
| Conserves.MoveTakes | src/libmetha/worker.c:354-360 | moving takes the given number of URLs, or all there are, off the end of the source and puts them on the target in the order they come off |
| Conserves.LeftIs | src/libmetha/worker.c:339-354 | the first x waiting workers take x(x-1)/2 URLs together, or all |
| Conserves.ShareDeals | src/libmetha/worker.c:335-366 | with n waiting workers and more than n places in the list, the x-th is woken with the giver's depth and one list that holds the next x URLs from the end, or what there is; the giver keeps the rest and the queue is empty; with fewer places only the giver goes on |
| Workers.Portion | src/libmetha/worker.c:354 | the x-th worker is offered x URLs, whatever the computed share |
| Workers.Metha.GiveUrls | src/libmetha/worker.c:344-360 | the inner loop moves the counted URLs, and gives the depth and a message |
| Workers.Metha.HandOff | src/libmetha/worker.c:331-395 | the handoff section takes the protocol's share step, and deals the URLs out as it says |
| Workers.Metha.WaitForUrls | src/libmetha/worker.c:421-441 | the worker ends up asleep in the queue with an empty frontier, the invariant is kept, and IDLE stands notified exactly when every worker sleeps with an empty frontier |
| Workers.Metha.GoOn | src/libmetha/worker.c:444-460 | the woken worker runs with exactly the sorted URLs and is in no queue, no other worker and no queue place changes, and the invariant is kept |
| WorkerSorts.UList.ByUrl | src/libmetha/worker.c:561-598 | the first loop keeps each URL as often as it was listed unless it is discarded by itself, and each index sent with a request names its URL |
| WorkerSorts.UList.ByReply | src/libmetha/worker.c:611-631 | in any order of replies each reply decides the entry its own request was about, also when a URL is listed twice |
| WorkerSorts.UList.DropNull | src/libmetha/worker.c:633-646 | the last loops remove exactly the nullified entries |
| WorkerSorts.UList.Sort | src/libmetha/worker.c:537-649 | if a request went out, the list ends as exactly the multiset of URLs that were bound or whose own request had a positive reply, with no empty entry; when replies depend on the URL only, each URL with a positive verdict stays as often as it was listed and no other does |
| WorkerSorts.VerdictsDecide | src/libmetha/worker.c:537-649 | the replies to a list of requests keep exactly the URLs with a positive verdict when each reply tells of its URL |
| Nolps.SafeScan | src/libmethaconfig/nolp.c:72-165 | a receive after which the stale search position skips no newline of what is left does what a search from the start would, for any handlers |
| Nolps.SafeForAll | src/libmethaconfig/nolp.c:77-123 | when payload callbacks do not ask again this depends only on sizes and bytes |
| Nolps.SafeExact | src/libmethaconfig/nolp.c:77-123 | that condition is exact: it holds iff the receive is right for all handlers |
| Nolps.UnsafeDiffers | src/libmethaconfig/nolp.c:77-123 | an unsafe receive goes wrong for some handler table |
| Nolps.RearmingDepends | src/libmethaconfig/nolp.c:104-118 | from nolp_create on, a server whose payload callback asks for more than it got answers one stream received whole, and moves a negative length when it comes in two pieces |
| Nolps.ParseSettles | src/libmethaconfig/nolp.c:72-165 | a parse leaves no complete line and no complete payload behind |
| Nolps.ParseAppend | src/libmethaconfig/nolp.c:72-165 | parsing two pieces one after the other is parsing them joined, also when payload callbacks ask again for no more than they got |
| Nolps.AppendExactly | src/libmethaconfig/nolp.c:104-118 | for a handler table this holds of all states and pieces exactly when no payload callback asks for more bytes than it got, unless for one |
| Nolps.ChunkingIrrelevant | src/libmethaconfig/nolp.c:72-165 | for any handlers whose payload callbacks ask for no more than they got, or for one byte, and any safe cutting of the stream, the calls, residue and state are those of one pass |
| Nolps.TwoCuts | src/libmethaconfig/nolp.c:72-165 | two safe cuttings of one stream end alike, for the same handlers |
| Nolps.Delivered | src/libmethaconfig/nolp.c:123-159 | every conversation of commands and payloads arrives as it was sent |
| Nolps.DeliveredInPieces | src/libmethaconfig/nolp.c:72-165 | the same in any safe pieces |
| Nolps.DeliveredUpTo | src/libmethaconfig/nolp.c:101-142 | a conversation followed by a line that names no command, or by a command or payload whose callback fails, ends failed with exactly the calls up to there, whatever follows |
| Nolps.BrokenInPieces | src/libmethaconfig/nolp.c:72-165 | the same in any safe pieces |
| Nolps.Nolp.CallHandler | src/libmethaconfig/nolp.c:129-142 | a line is dispatched by its first word to the first table entry of that name |
| Nolps.Nolp.Commands | src/libmethaconfig/nolp.c:123-160 | the loop over lines ends as the specification says, or hands over to a payload |
| Nolps.Nolp.TakePayload | src/libmethaconfig/nolp.c:94-120 | a complete payload is handed over once and the rest moves to the front |
| Nolps.Nolp.Fill | src/libmethaconfig/nolp.c:83-89 | received bytes follow the buffered ones; the buffer has room |
| Nolps.Nolp.Recv | src/libmethaconfig/nolp.c:72-165 | a receive makes the specified calls and leaves the specified residue and state |
| FtpDates.LeapDayEnds | src/libmetha/ftpparse.c:34-39 | 29 February ends a cycle of four March years, and one of 400 if it ends one of 100 |
| FtpDates.TotaiIsDayCount | src/libmetha/ftpparse.c:27-45 | for every valid date from year 1 on, 86400 times the days since 1 January 1970 in the proleptic Gregorian calendar |
| FtpDates.TotaiTomorrow | src/libmetha/ftpparse.c:27-45 | consecutive calendar days differ by 86400 |
| FtpDates.YearOfDate | src/libmetha/ftpparse.c:74-92 | at every second of a date the decoded year is the date's, negative days included |
| FtpDates.GuessSucceeds | src/libmetha/ftpparse.c:101-115 | for every day but 29 February, and a current year at most 98 past the first, the answer is some year's date with now-350d < t <= now+16d |
| FtpDates.TotaiLeapDay | src/libmetha/ftpparse.c:27-45 | in a leap year 29 February is its own; in any other year it is taken for that of a leap year, which one is said by LeapFor |
| FtpDates.LeapDayExactly | src/libmetha/ftpparse.c:101-115 | for 29 February the answer is within the bound exactly when some 29 February is and the loop does not first pass one that totai takes for the year 400 |
| FtpDates.LeapDayAstray | src/libmetha/ftpparse.c:101-115 | in the year 104 it does pass one |
| FtpDates.LeapDayMissed | src/libmetha/ftpparse.c:101-115 | a concrete 29 February that comes out 273 days ahead |
| FtpDates.Clock.InitBase | src/libmetha/ftpparse.c:53-64 | once worked out the base stays; it is minus the calendar seconds from 1 January 1970 to what gmtime calls time zero, so 0 on POSIX systems |
| FtpDates.Clock.InitNow | src/libmetha/ftpparse.c:66-95 | the current year is worked out once and kept |
| FtpDates.Clock.GuessTai | src/libmetha/ftpparse.c:101-115 | the first year whose date is less than 350 days ago |
| FtpParses.GetLongOf | src/libmetha/ftpparse.c:138-144 | reads the digits |
| FtpParses.GetLongOfDecimal | src/libmetha/ftpparse.c:138-144 | reading undoes printing in decimal |
| FtpParses.GetMonthOf | src/libmetha/ftpparse.c:129-136 | the first month whose three letters match |
| FtpParses.GetMonthFinds | src/libmetha/ftpparse.c:117-136 | a month name in any case is found as that month and no earlier one |
| FtpParses.MonthNames | src/libmetha/ftpparse.c:117-136 | the twelve names in small letters, with a capital, or in capitals are read as their months |
| FtpParses.TimeOfDate | src/libmetha/ftpparse.c:284-289 | a date with a year is 86400 times its days since 1 January 1970 plus its time of day, and is exact to the day or to the minute |
| FtpParses.TimeOfDay | src/libmetha/ftpparse.c:272-283 | a date with a time of day is in the year that puts it less than 350 days ago and at most 16 days ahead |
| FtpParses.Columns | src/libmetha/ftpparse.c:240-302 | the column loop computes the columns and the modification time |
| FtpParses.WalkCells | src/libmetha/ftpparse.c:240-302 | on a line of columns the loop steps once for each column, however many spaces follow it |
| FtpParses.LsReadBack | src/libmetha/ftpparse.c:236-330 | a line of ls, with or without a group, NetPresenz and NetWare lines included, is read with its size, date and the start of its name |
| FtpParses.LsRoundTrip | src/libmetha/ftpparse.c:228-330 | whatever Unix returns for such a line has exactly the printed name, size, kind and time |
| FtpParses.LinkName | src/libmetha/ftpparse.c:310-318 | a symbolic link's name ends at the first arrow |
| FtpParses.NetWareName | src/libmetha/ftpparse.c:320-328 | the three extra NetWare spaces go |
| FtpParses.UnixName | src/libmetha/ftpparse.c:310-328 | the name is the range that remains |
| FtpParses.Unix | src/libmetha/ftpparse.c:228-330 | succeeds iff all columns were read; every field follows from them |
| FtpParses.LineWords | src/libmetha/ftpparse.c:240-302 | every line that does not start with a space is made of words and the spaces after them |
| FtpParses.ListingExactly | src/libmetha/ftpparse.c:240-302 | the column loop ends with all it needs exactly when, from the fifth word on, or the fourth after a NetPresenz folder, there is a month, and after the first one a day and a time or year of four characters or more, each with a space after it |
| FtpParses.EplfRoundTrip | src/libmetha/ftpparse.c:177-210 | an EPLF line gives back its facts and its name |
| FtpParses.ParseEplf | src/libmetha/ftpparse.c:177-210 | the loop over facts |
| FtpParses.CutAt | src/libmetha/ftpparse.c:354-376 | a field up to a delimiter and past its repetitions, or failure at the end of the line |
| FtpParses.VmsRoundTrip | src/libmetha/ftpparse.c:354-377 | a VMS line gives back its date and time |
| FtpParses.ParseVms | src/libmetha/ftpparse.c:338-384 | name, directory flag and time of a VMS line |
| FtpParses.DosRoundTrip | src/libmetha/ftpparse.c:390-440 | an MSDOS line gives back its name, date, time, and size or kind |
| FtpParses.AcceptedExactly | src/libmetha/ftpparse.c:338-440 | what follows a semicolon is accepted exactly when the line is a printed VMS line, and a line of the last format exactly when it is a printed MSDOS line; repeated delimiters, empty numbers and a missing M are among these |
| FtpParses.ParseDos | src/libmetha/ftpparse.c:390-440 | every field of an MSDOS line |
| FtpParses.Parse | src/libmetha/ftpparse.c:146-449 | in every format all reads stay in the line, all loops end, and the name is a range of the line |
| FtpParses.ParseLs | src/libmetha/ftpparse.c:146-330 | a line of ls parsed gives the printed name, a link's name up to its first arrow, the size, the kind, and the time of the printed year or the year guessed for a printed time of day |
| FtpParses.ParseUnixLine | src/libmetha/ftpparse.c:146-307 | a line with the sign of a UNIX listing is accepted exactly then |
| FtpParses.ParseEplfLine | src/libmetha/ftpparse.c:177-210 | an EPLF line parsed gives its name, whether some fact says folder or file, and the size, time and identifier of the last fact of each kind |
| FtpParses.ParseVmsLine | src/libmetha/ftpparse.c:334-384 | a VMS line parsed gives the name up to its semicolon, or up to .DIR, which makes it a directory, and the printed date and time, exactly when the name does not start with one of `+bcdlps-` |
| FtpParses.ParseDosLine | src/libmetha/ftpparse.c:339-440 | an MSDOS line parsed gives its name, size or that it is a directory, and the printed date and time, with two-digit years from 1950 to 2049 and twelve-hour times, exactly when the name holds no semicolon |
| EntityConvs.HashTable.Init | src/libmetha/entityconv.c:330-353 | each bucket holds exactly the entities of its hash, in table order |
| EntityConvs.FindFirst | src/libmetha/entityconv.c:429-443 | the search answers the first entity of a name |
| EntityConvs.BucketAgrees | src/libmetha/entityconv.c:428-443 | a bucket knows a name as the whole table does |
| EntityConvs.HashTable.Lookup | src/libmetha/entityconv.c:428-443 | the bucket search answers as a search of the whole table |
| EntityConvs.Utf8Encodes | src/libmetha/entityconv.c:377-394 | the octets are those of section 3 of RFC 3629 and no others are |
| EntityConvs.KnownExactly | src/libmetha/entityconv.c:425-443 | the output is as intended exactly when every reference names an entity |
| EntityConvs.WritesUtf8 | src/libmetha/entityconv.c:377-394 | the bytes written are the UTF-8 form of the character by section 3 of RFC 3629, and no other bytes are |
| EntityConvs.DecodesPieces | src/libmetha/entityconv.c:416-447 | a text of plain stretches, references and stray ampersands becomes the same with each known reference in UTF-8 and each unknown one ending in a mark |
| EntityConvs.AllPieces | src/libmetha/entityconv.c:416-447 | every text is made of such pieces |
| EntityConvs.FindNameEnd | src/libmetha/entityconv.c:423-424 | finds where the name ends, if it ends in the text or the next byte ends it |
| EntityConvs.Emit | src/libmetha/entityconv.c:437-439 | the pending text and the character are written below what is still to be read |
| EntityConvs.Replace | src/libmetha/entityconv.c:425-443 | one reference is replaced, or left with its NUL |
| EntityConvs.Reference | src/libmetha/entityconv.c:416-444 | one ampersand whose name does not run on, of whatever form, keeps written + pending + decoded rest equal to the whole output |
| EntityConvs.Convert | src/libmetha/entityconv.c:400-450 | in place, also in a full buffer, the buffer ends as the pieces of the text with each known reference in UTF-8 and a NUL for the semicolon of each unknown one, and nothing after it changes, unless stale bytes prolong a name the text leaves open |
| EntityConvs.EndedExactly | src/libmetha/entityconv.c:416-427 | that condition is exact: it holds iff no ampersand makes the code read beyond the buffer, write behind the text or search from behind its end |
| EntityConvs.OpenNameRunsOn | src/libmetha/entityconv.c:423-427 | two buffers for which it does |
| Confs.SkipUnit | src/libmethaconfig/conf.c:301-321 | a blank or a comment is skipped as a whole |
| Confs.SkipAt | src/libmethaconfig/conf.c:301-321 | the skipping loops |
| Confs.TokenAdvances | src/libmethaconfig/conf.c:323-780 | every token moves the parser forward, so it ends |
| Confs.ReadsLex | src/libmethaconfig/conf.c:323-775 | a token in the text does what the token means in each state |
| Confs.EndsText | src/libmethaconfig/conf.c:301-789 | a text of tokens is parsed alike whatever blanks and comments stand between them, and whatever follows it |
| Confs.TakesItems | src/libmethaconfig/conf.c:729-775 | an array reaches its callback with all its elements in order |
| Confs.TakesItem | src/libmethaconfig/conf.c:323-780 | an object or a scope, with braces or bare, or a directive makes its calls in order; which ones, and which flags it leaves, depends on the flags left set before it |
| Confs.PrintableDoc | src/libmethaconfig/conf.c:332-334 | printed blocks can be cut into their tokens again |
| Confs.RoundTrip | src/libmethaconfig/conf.c:268-789 | parsing a printed list of objects, scopes, both also bare, and directives, each after a prefix or not, with any blanks and comments, succeeds and makes exactly its calls |
| Confs.NumberOfDecimal | src/libmethaconfig/conf.c:661-693 | a printed number is read back, with leading zeros or without |
| Confs.RunCut | src/libmethaconfig/conf.c:408-575 | on any text a run whose callbacks may fail is the run with willing ones up to and with the first lookup, copy, addition or directive that fails |
| Confs.RoundTripFails | src/libmethaconfig/conf.c:408-575 | parsing a printed list makes its calls up to and with the first of these that fails, and fails, or aborts if it was an addition |
| Confs.TokenDecides | src/libmethaconfig/conf.c:323-780 | where no blank and no comment stands, the parser goes on exactly when what stands there is expected in its state: a registered word, a string, a sign, an option of the object at hand, a value of the option's type; otherwise it fails |
| Confs.StopsAtRefused | src/libmethaconfig/conf.c:323-797 | parsing stops at the first thing that is not expected, or at a text that ends inside an item, and fails with exactly the calls of the tokens before |
| Confs.MeantExactly | src/libmethaconfig/conf.c:339-575 | every object is made, found, zeroed and added as its item says exactly when no new object is bare or read while a scope's flag stands, and no flags of a bare object or a stray prefix stand that would change a later one |
| Confs.ExtendLeaks | src/libmethaconfig/conf.c:339-567 | after `extend: class["x"];` the next new object is looked up and never added, whatever the names |
| Confs.ScopeLeaks | src/libmethaconfig/conf.c:536-575 | after `scope;` a new object is constructed and never added, whatever the names |
| Confs.BareForgotten | src/libmethaconfig/conf.c:536-543 | `class["x"];` makes an object that is never added |
| Confs.OwnName | src/libmethaconfig/conf.c:363-374 | a class answers to its own name exactly when no earlier class's name starts with it |
| Confs.Parse | src/libmethaconfig/conf.c:268-797 | the loop computes what the specification says, and fails when nothing is registered |

## Left out

- MTries.MTrie.TryAdd: URLs are at most 65535 bytes and hold characters 0x21..0x7f, the ones URL encoding leaves; memory is an explicit map of blocks, realloc stays or moves, and allocation failure is not modelled.
- Umexes.SinglePart: the empty pattern and the HOST part are the subject of Umexes.PartMeaning.
- Umexes.Umex.CompileStr: patterns with `[` or a backslash are excluded: character classes and escapes are not modelled.
- Umexes.Match: programs whose literals have lengths the bytecode loses, the temporary NULs written around strstr, and the empty program are not modelled.
- Umexes.CompileParts: the scan for part identifiers and delimiters is not modelled; the parts are given.
- Frontiers.UeHandle.Add: URLs of the host at hand; those of other hosts and the peeking queue are not modelled.
- Handoffs.InvStep: one host and one crawler configuration; no external peeking, spreading, STOP or PAUSE; no spurious wakeups; a visit that a filter, robots.txt or the jail skips is a visit without links.
- Handoffs.IdleVisitedAll: only without a depth limit and when the sort keeps everything, since both discard URLs by design.
- Workers.Metha.HandOff: the branch that spreads workers over hosts is not modelled; workers and lists are values in fields, so aliasing of list entries and list capacities are not captured.
- WorkerSorts.UList.Sort: the file types' verdicts, including synchronous HEAD requests and external peeking, are an oracle: by the URL, and by the index of the request.
- Nolps.ChunkingIrrelevant: for payload callbacks that ask for more than they got see Nolps.AppendExactly and Nolps.RearmingDepends; payload sizes are not negative.
- Nolps.Delivered: payload callbacks do not ask again, since a conversation has no place for what they would get.
- Nolps.Nolp.Recv: the line mode is not modelled, because the size it passes depends on the pieces; callbacks are functions of all calls so far and do not write to the buffer.
- FtpDates.GuessSucceeds: 29 February is the subject of FtpDates.LeapDayExactly. `long` is unbounded.
- FtpParses.ParseLs: lines whose second byte is a space or `[` are the subject of FtpParses.NetWareName.
- EntityConvs.Convert: memcpy is taken to copy overlapping ranges downwards, as they overlap here; characters are unsigned and the C locale is assumed.
- EntityConvs.DecodesPieces: the entity table is a parameter with non-empty names; numeric references are passed through, as the code does.
- Confs.RoundTrip: an object read while a scope's flag stands has no settings, since the code then looks them up in the class as if it were a scope; a prefix is printed once and before an item; numbers do not overflow; callbacks that fail are the subject of Confs.RoundTripFails; NULs written into the buffer do not matter because no character is read twice.
- Confs.Parse: error messages are not modelled, nor what a class read as a scope holds.
- mtrie_cleanup and all other freeing.
- url.c: reference resolution, and the choice of host and path; URLs are byte strings with offsets.
- mime.c, ftindex.c, html.c, builtin.c, the JavaScript bindings, the network code, and the master, slave and client daemons.
