# WinSys: models and proofs of its stateful cores

A Dafny 4.11 model of the parts of WinSys that keep state or parse bytes they do not trust, with proofs of what those
parts promise. `dafny verify dfyconfig.toml` checks the whole project. Each class here has the fields of the C++ class
it models and updates them as it does; each loop is a loop. Every such method is tied by its postconditions to a
function or predicate on values, and the theorems are about those.

- **Registry I/O counting** (`Registry*.dfy`). `RegistryTable` is the table: rows, names, the deferred queue, the index
  of waited objects, the resolver's list, attempts, pending opens. `RegistryModel` says what each call does to a state
  in which the rows are the replay of a log of everything counted. On it: an invariant of every reachable state
  (`RegistryInvariant`), conservation for every measure of events (`RegistryAccounting`), what a row says and which
  events share one (`RegistryRows`), who an event is counted for when kernel addresses are reused
  (`RegistryAttribution`, `RegistryOwnership`), the names there are and every event counted by them, told from the calls
  and the log (`RegistryNames`, `RegistryHistory`, `RegistryTakeBack`), when the queue drains (`RegistryDrain`,
  `RegistryHealth`, `RegistryResolver`), and what a prune forgets (`RegistryPrune`).
- **Memory scans** (`Memory*.dfy`). `Find` and `FindStrings` over contiguous regions, in chunks of 1 MB, are proved
  against specifications that do not mention chunks; `MemoryEvenAddresses` says when the wide strings found are the ones
  at even addresses.
- **Event XML** (`EventXml*.dfy`). The reader's functions, an independent printer of elements and event data, and the
  round trip, of a section in any text (`EventXmlData`) and of whole documents (`EventXmlDocument`).
- **Object name queries** (`NameQueryProtocol.dfy`). A caller and its workers as interleaved atomic steps; over every
  run safety, one answer a call and one query's result an answer; and liveness.
- **Processes** (`ProcessSnapshots.dfy`, `ProcessHistory.dfy`, `ProcessTree.dfy`). One snapshot after another in two
  buffers used in turn, what a whole run of them reports, and the tree.
- **PE images** (`PEChecksum.dfy`, `PEImage.dfy`, `PEExports.dfy`, and `PEExportLayout.dfy` for how exports are laid
  out), **EFI load options** (`LoadOption.dfy`), **.NET diagnostics answers** (`ProcessInfoPayload.dfy`), **ALPC
  matching** (`AlpcModel.dfy`, `AlpcMatching.dfy`, and `AlpcMessages.dfy` for what is counted by the events alone).
  `Units` has the bytes, 16-bit characters and little-endian numbers they share, `Optional` the option type.

What the code does that its comments do not say, each with the exact condition and an input that shows it:

- A new open of an address counts the opens that wait on it but not their tokens, so an operation queued behind such an
  open waits for ever (`StrandingRun`). A call strands operations exactly when `Strands` holds of it beforehand
  (`StrandsExactly`): an open of the address that an older queued open waits on, when something waits or would wait on
  that open's token, or a prune that drops the name of a token still waited on (`PruneStrandingRun`). After any run
  without one, the queue drains (`RunsDrain`).
- A waiting open that a new open of its base's address counts as a closed key's names its own address, even if a later
  open has taken that: the later key's operations are then counted under the earlier one's name (`TakenBack`). All the
  opens counted so still own their addresses exactly when none of them has lost its own to a later open
  (`OwnersExactly`). In a pass no open does this (`PassRenames`).
- A prune takes a row or name stored with a later tick than its own for one idle too long, because the difference is
  unsigned, and `Resolve` reads its tick before it takes the lock. It forgets only what was idle longer than the limits
  exactly when no stored tick is later, by less than what wraps around to within the limit (`PruneForgetsIdleOnly`,
  `EarlyPrune`).
- With a minimum length of 0, `FindStrings` also lists empty strings: exactly when a kind's last character in some
  readable range is not text, or the kind is not asked for (`FindStrings`, `SomeEndsClosed`, `EmptyIsListed`).
- Wide strings are cut at even offsets from the start of the readable range, where the header promises even addresses.
  Whatever the memory holds, these are the same strings exactly when the interval does not start at an odd address with
  readable memory enough for a string (`EvenAddressesExactly`, `OddString`).
- A reference by number is decoded exactly when at most 9 characters stand between & and ;, though XML lets it have any
  number of leading zeros (`ReferenceDecoded`, `LongReference`).
- `BuildProcessTree` lists every process once exactly when no process is as old as the process its non-zero ParentId
  names, and the idle process is not itself a child of another process while younger processes name it
  (`EachListedOnce`): the first kind is lost (`LostProcess`), the second listed twice (`ListedTwice`).
- `GetAbandonedCount` counts the workers left behind, and never goes down. It is the number of workers still blocked, as
  Handles.h has it, exactly when none of those left behind has exited (`CountsBlocked`, `CountsExited`).
- The PE checksum does not depend on the checksum field exactly when the field is at an even offset (`FieldLeftOut`,
  `OddFieldCounts`); `e_lfanew` may make it odd.

## Model

| member | source | states |
|---|---|---|
| RegistryTable.RegistryIoTable.constructor | WinSys/RegistryIo.h:174-186 | a new table is the empty state |
| RegistryTable.RegistryIoTable.OnEvent | WinSys/RegistryIo.cpp:197-246 | an event is ignored, counted, or queued on what it waits for; the rows stay the replay of the log and the index of waited objects stays exact |
| RegistryTable.RegistryIoTable.Retarget | WinSys/RegistryIo.cpp:248-260 | exactly what waits on the object from the stamp on waits on the token instead, in place, and the index follows |
| RegistryTable.RegistryIoTable.NameToken | WinSys/RegistryIo.cpp:262-268 | a token gets its open's name, and the open is pending no more if it was the last of its address |
| RegistryTable.RegistryIoTable.Defer | WinSys/RegistryIo.cpp:284-303 | queued while there is room, the resolver told of the first wait on an address; else counted at once and its token named |
| RegistryTable.RegistryIoTable.Count | WinSys/RegistryIo.cpp:305-348 | one event's contribution to its row, and the name an open gives its key object |
| RegistryTable.RegistryIoTable.FlushWaiting | WinSys/RegistryIo.cpp:350-370 | the whole new state after a new open of an address, the index included |
| RegistryTable.RegistryIoTable.TakeUnnamed | WinSys/RegistryIo.cpp:372-376 | the addresses waited on, handed over once |
| RegistryTable.RegistryIoTable.SetName | WinSys/RegistryIo.cpp:378-380 | the address gets the name, nothing else changes |
| RegistryTable.RegistryIoTable.NameFailed | WinSys/RegistryIo.cpp:382-386 | one failure more for the address |
| RegistryTable.RegistryIoTable.ApplyDeferred | WinSys/RegistryIo.cpp:388-422 | what is ready is counted in queue order, each under what the ones before left; the rest stays, its addresses handed to the resolver again |
| RegistryTable.RegistryIoTable.RemoveProcess | WinSys/RegistryIo.cpp:436-438 | the process's rows go, nothing else |
| RegistryTable.RegistryIoTable.Prune | WinSys/RegistryIo.cpp:440-445 | idle rows, unused names and attempts not waited on go, by unsigned elapsed ticks |
| RegistryTable.RegistryIoTable.Clear | WinSys/RegistryIo.cpp:447-455 | everything but the token counter is forgotten |
| RegistryInvariant.StepKeeps | WinSys/RegistryIo.cpp:197-455 | every call keeps the invariant: waits are on an entry's own address or on a later token of that address's open, tokens have one owner, tokens' names are their opens', no lost wake-up, a bounded queue |
| RegistryInvariant.RunKeeps | WinSys/RegistryIo.cpp:197-455 | so does every run from the empty table |
| RegistryInvariant.TokensAreNew | WinSys/RegistryIo.cpp:224-230 | a call gives out at most one token, for the open it brings, and none that was given out before |
| RegistryAccounting.Conservation | WinSys/RegistryIo.cpp:197-422 | for every measure of events, what is counted and what is queued amount to what was accepted, over any run without Clear |
| RegistryAccounting.RowConservation | WinSys/RegistryIo.cpp:305-348 | for each process and counter, its rows and its queued events hold exactly its accepted events' contributions, over any run that forgets nothing |
| RegistryAccounting.RowsAddUp | WinSys/RegistryIo.cpp:309-343 | the rows of a process sum to what was charged to it |
| RegistryAccounting.RowHoldsItsCharges | WinSys/RegistryIo.cpp:305-348 | each row holds what was charged to it since it was last forgotten |
| RegistryAccounting.FailuresWithinOperations | WinSys/RegistryIo.h:73-86 | failures never exceed operations, in any row of any log |
| RegistryRows.RowTells | WinSys/RegistryIo.cpp:305-343 | there is a row exactly for what was charged to it and not forgotten since; its process, key, address, reason and first time are those of the first of these events with a time, its last operation, status, value, time and tick those of the last |
| RegistryRows.SharedRow | WinSys/RegistryIo.cpp:308-310 | events under names share a row exactly if process and upper-cased name are the same, events without names exactly if process and key object are |
| RegistryRows.CountsOnce | WinSys/RegistryIo.cpp:322-341 | an accepted event is one open, read or write (a new key's create is a write too), and a failure exactly if its status is an error other than a buffer too small |
| RegistryRows.PassOrder | WinSys/RegistryIo.cpp:388-418 | a pass parts the queue into what it counts and what it keeps, each once and in the queue's order |
| RegistryAttribution.ReopenedExactly | WinSys/RegistryIo.cpp:204-213 | an open of an address counts exactly what waited on it from before, as a closed key's and in order, and keeps the rest in order |
| RegistryAttribution.OpenedExactly | WinSys/RegistryIo.cpp:214-234 | by cases what an open does to the queue: nothing if its name or its base's is known or given up on; if operations can wait on it, what waits on its address waits on its token instead, in place; it joins the end of the queue if there is room |
| RegistryAttribution.AllMove | WinSys/RegistryIo.cpp:222-231 | after that nothing waits on the address |
| RegistryAttribution.TokenAttribution | WinSys/RegistryIo.cpp:388-422 | in every run, an operation counted after waiting on a token goes under exactly the name the token's open was counted under before, whatever took the address since |
| RegistryOwnership.RunKeepsOwn | WinSys/RegistryIo.cpp:197-268 | in every reachable state, what waits on a token or was counted after it is an operation of the token's open, and each pending open is the latest of its address |
| RegistryOwnership.OperationsHaveTheirOpens | WinSys/RegistryIo.cpp:197-268 | and that open is the operation's own: the latest accepted open of its address when it arrived or, for an operation that arrived early and was moved, an open whose stamp is not later, with none between them later than it |
| RegistryHistory.RunTold | WinSys/RegistryIo.cpp:188-455 | in every reachable state the names and the resolver's failures are the ones calls and log say: given by the resolver, by a successful open to its key object, if it had to wait only while no later open took the address, and to its token, kept in use by operations, taken by an open that waits, pruned by age; and every event was counted under the name these say at that point: an absolute name, the base's with the relative name below it, the key object's, its token's, or none |
| RegistryHistory.OperationNamed | WinSys/RegistryIo.cpp:232-246 | an operation on an address with a name is counted at once under that name; on one without, at once only if the resolver has given up, and under none |
| RegistryHistory.NameWasGiven | WinSys/RegistryIo.cpp:345-347 | a name was given by some call, the resolver or an open counted under it that succeeded and still owned its address, and kept ever since |
| RegistryHistory.PassRenames | WinSys/RegistryIo.cpp:400-408 | if a pass changes an address's name, an open was pending on it, the latest accepted one of the address, and the name is the one that open was counted under in the pass |
| RegistryHistory.NotTooSoon | WinSys/RegistryIo.cpp:235-273 | an event counted while neither it nor what it waited on has a name: the resolver failed on the address at least three times since it was opened last |
| RegistryTakeBack.OwnersExactly | WinSys/RegistryIo.cpp:350-370 | the opens counted as a closed key's that name their addresses all still own them if and only if none has lost its own to a later open |
| RegistryTakeBack.TakenBack | WinSys/RegistryIo.cpp:358-366 | three opens after which the second key's address has the first key's name |
| RegistryDrain.DeadForever | WinSys/RegistryIo.cpp:350-370 | an operation waiting on a token without a queued open stays queued through every run without Clear |
| RegistryDrain.SomeReady | WinSys/RegistryIo.cpp:388-396 | wait chains end: with the addresses named or given up on and no token orphaned, some queued event is ready |
| RegistryDrain.ApplyProgress | WinSys/RegistryIo.cpp:388-422 | then a pass removes at least one event and keeps these conditions |
| RegistryDrain.DrainsExactly | WinSys/RegistryIo.cpp:388-422 | with the addresses ready, as many passes as queued events empty the queue if and only if no token is orphaned |
| RegistryHealth.StrandsExactly | WinSys/RegistryIo.cpp:350-370 | a call leaves every token waited on with a name or a queued open if and only if it is not one of the stranding calls |
| RegistryHealth.PruneStrands | WinSys/RegistryIo.cpp:440-445 | for a prune: exactly when it drops the name of a token still waited on |
| RegistryPrune.PruneForgetsIdleOnly | WinSys/RegistryIo.cpp:440-445 | a prune forgets only rows and names idle for longer than their limits if and only if no stored tick is later than its own (short of wrapping around to within the limit) |
| RegistryPrune.EarlyPrune | WinSys/RegistryIo.cpp:440-445 | a prune whose tick was read just before an event's forgets the event's row at once |
| RegistryPrune.PruneStrandingRun | WinSys/RegistryIo.cpp:440-445 | four calls after which a prune drops a token's name, and the query that waits on it stays queued in every continuation without Clear |
| RegistryResolver.AnyOrder | WinSys/RegistryIo.cpp:378-386 | the order in which the resolver answers a pass's addresses does not matter |
| RegistryResolver.QuietPassesDrainExactly | WinSys/RegistryIo.cpp:595-661 | whatever the resolver finds, and with the prune that ends each pass, the attempts' limit and one more pass and one per queued event empty the queue if and only if no token is orphaned |
| RegistryResolver.RunsAreHealthy | WinSys/RegistryIo.cpp:197-455 | a run without a stranding call leaves every token waited on with a name or a queued open |
| RegistryResolver.RunsDrain | WinSys/RegistryIo.cpp:595-661 | after any such run, resolver passes empty the queue |
| RegistryResolver.StrandingRun | WinSys/RegistryIo.cpp:362-365 | three events after which a query stays queued in every continuation without Clear |
| MemoryFind.FoldUnits | WinSys/ProcessMemory.cpp:23-28 | comparing units byte by byte, folding only where the high byte is zero, is comparing folded units |
| MemoryFind.FoldedAlike | WinSys/ProcessMemory.cpp:11-13 | units are alike ignoring case exactly if they are the same or the two cases of an ASCII letter |
| MemoryFind.FirstBytesFold | WinSys/ProcessMemory.cpp:50-53 | the first-byte filter loses no folded match, wide or not |
| MemoryFind.MatchesFolded | WinSys/ProcessMemory.cpp:15-31 | decides a folded match exactly, odd wide lengths included |
| MemoryFind.Search | WinSys/ProcessMemory.cpp:33-55 | the first match of the buffer, or none if there is none |
| MemoryFind.FindInRange | WinSys/ProcessMemory.cpp:79-87 | chunks overlapping by the pattern's length less one miss no match and put none before an earlier one |
| MemoryFind.Find | WinSys/ProcessMemory.cpp:62-92 | the least address of a whole match in the range and in readable memory throughout, or nothing if there is no match |
| MemoryStrings.FindRanges | WinSys/ProcessMemory.cpp:131-150 | exactly the maximal readable ranges of the interval, in order |
| MemoryScan.StringRun.Add | WinSys/ProcessMemory.cpp:106-112 | a run's start, true length, and text up to the limit |
| MemoryScan.StringRun.End | WinSys/ProcessMemory.cpp:113-119 | a long enough run is kept while there is room, and the run is empty again |
| MemoryScan.ScanChunk | WinSys/ProcessMemory.cpp:168-183 | the runs open at a chunk's end are exactly those of the range so far, whatever the chunks before |
| MemoryScan.EndRange | WinSys/ProcessMemory.cpp:197-198 | after it all of the range's strings of the kind are there, unless the list is full |
| MemoryFindStrings.SortSorts | WinSys/ProcessMemory.cpp:203-204 | the merge in address order loses and invents nothing |
| MemoryFindStrings.SortIsStable | WinSys/ProcessMemory.cpp:203-204 | and keeps the order of strings at one address |
| MemoryFindStrings.FindStrings | WinSys/ProcessMemory.cpp:123-206 | in address order, each once, exactly the maximal text runs long enough in the maximal readable ranges, unless truncated; and when an empty string is listed |
| MemoryEvenAddresses.EvenAddressesExactly | WinSys/ProcessMemory.h:24 | whatever the memory holds, the wide strings are exactly the long enough runs at even addresses if and only if the interval does not start at an odd address with room for a string |
| MemoryEvenAddresses.OddString | WinSys/ProcessMemory.cpp:157-182 | a page with a wide string found at an odd address |
| MemoryEvenAddresses.EmptyIsListed | WinSys/ProcessMemory.cpp:114-119 | with a minimum length of 0, a byte that is not text gives an empty string |
| EventXmlRoundTrip.WcstoulOf | WinSys/EventLog.cpp:314-317 | any digits of a code point are read as its number: leading zeros, and hexadecimal in either case |
| EventXmlRoundTrip.ReferenceOf | WinSys/EventLog.cpp:303-325 | every predefined entity and every reference by number, in any digits, of at most 9 characters is decoded to its UTF-16 units |
| EventXmlRoundTrip.ReferenceDecoded | WinSys/EventLog.cpp:303-307 | a reference by number is decoded to its code point if and only if at most 9 characters stand between & and ; |
| EventXmlRoundTrip.LongReference | WinSys/EventLog.cpp:303-307 | a reference to A, with leading zeros, that is left as it is |
| EventXml.Surrogates | WinSys/EventLog.cpp:318-324 | a code point above U+FFFF becomes a high and a low surrogate that it is made up of |
| EventXml.NamesAreSpelled | WinSys/EventLog.cpp:309-313 | the entities, sections, elements and the attribute are the ones named in the code |
| EventXmlRoundTrip.DecodePieces | WinSys/EventLog.cpp:287-332 | decoding undoes escaping, whether a character is written as itself, as an entity or in any digits, of at most 9 characters |
| EventXmlRoundTrip.DecodeForest | WinSys/EventLog.cpp:287-297 | of nested elements decoding leaves all the text |
| EventXmlRoundTrip.EscapeMeans | WinSys/EventLog.cpp:286-313 | text with the five predefined entities escaped means itself |
| EventXmlRoundTrip.ReadStartTag | WinSys/EventLog.cpp:365-379 | a start tag's name and extent are read back |
| EventXmlRoundTrip.ReadEmptyTag | WinSys/EventLog.cpp:365-379 | and an empty element's |
| EventXmlRoundTrip.CloseAfterForest | WinSys/EventLog.cpp:382-401 | looking for an end tag passes over any well-formed forest, elements of the same name included |
| EventXmlRoundTrip.CloseOf | WinSys/EventLog.cpp:382-401 | so the matching end tag is found under same-named nesting |
| EventXmlData.ChildrenOf | WinSys/EventLog.cpp:412-432 | the child visitor sees exactly the top-level elements, in order, with their decoded text |
| EventXmlData.NameOf | WinSys/EventLog.cpp:335-356 | a Data element's name is read back from its tag, empty or not, in either quote, and is empty without one |
| EventXmlData.FindsFirst | WinSys/EventLog.cpp:404-410 | an element of the name is the one found if and only if no start tag before it has exactly that name |
| EventXmlData.ParsesEventData | WinSys/EventLog.cpp:435-450 | after any text without a start tag of the name, an EventData section is read from its top-level elements, whatever follows it |
| EventXmlData.MixedDataRoundTrip | WinSys/EventLog.cpp:441-450 | wherever Data elements stand among text, empty elements and elements of other names, with whatever nested in them, exactly those Data elements are read, in order |
| EventXmlData.EventDataRoundTrip | WinSys/EventLog.cpp:435-450 | every list of names and values, printed with the predefined entities escaped, is read back |
| EventXmlData.PrintedDataRoundTrip | WinSys/EventLog.cpp:435-450 | and printed in any other way that is decoded, numeric references and quotes included |
| EventXmlDocument.ParsesUserData | WinSys/EventLog.cpp:451-466 | after any text without a start tag of the name, from a UserData section the children of its first element are taken |
| EventXmlDocument.UserDataRoundTrip | WinSys/EventLog.cpp:451-466 | every list of fields is read back from a UserData section, by name and text, with whatever attributes, markup in the text and text between |
| EventXmlDocument.FindInForest | WinSys/EventLog.cpp:404-410 | in any printed forest the search finds the first element of the name in document order, at any depth, or passes it all over |
| EventXmlDocument.ParsesDocument | WinSys/EventLog.cpp:435-466 | of any well-formed document the data of its first EventData element is read, or without one that of its first UserData element |
| EventXmlDocument.EventRoundTrip | WinSys/EventLog.cpp:435-466 | every list of names and values is read back from a whole event, its system section in front |
| EventXmlDocument.MixedEventRoundTrip | WinSys/EventLog.cpp:435-450 | and so are Data elements among other elements |
| EventXmlDocument.UserEventRoundTrip | WinSys/EventLog.cpp:451-466 | and every list of fields, from a whole event with user data |
| EventXmlReader.DecodeText | WinSys/EventLog.cpp:287-332 | the loop decodes what the decoding function says, and ends |
| EventXmlReader.FindAttribute | WinSys/EventLog.cpp:335-356 | the loop finds the attribute's value |
| EventXmlReader.ReadElementAt | WinSys/EventLog.cpp:365-379 | the element at a position, on any text |
| EventXmlReader.ContentEnd | WinSys/EventLog.cpp:382-401 | the loop with its depth finds the same end tag as the nested definition, on any text, and ends |
| EventXmlReader.FindElementIn | WinSys/EventLog.cpp:404-410 | the first element of the name |
| EventXmlReader.ForEachChild | WinSys/EventLog.cpp:413-432 | the loop visits the same children as the nested definition, on any text, and ends |
| EventXmlReader.ReadData | WinSys/EventLog.cpp:435-466 | the data of the first EventData element, else of the first UserData element, on any text |
| NameQueryProtocol.StepKeeps | WinSys/Handles.cpp:171-255 | every atomic step of the caller or a worker keeps the protocol's invariant |
| NameQueryProtocol.RunKeeps | WinSys/Handles.cpp:171-255 | so it holds in every reachable state |
| NameQueryProtocol.Safe | WinSys/Handles.cpp:238-255 | a name returned is what the query for the handle of that same call gave; the caller and its worker never touch the name or the target at once |
| NameQueryProtocol.AnswersAreResults | WinSys/Handles.cpp:184-204 | each answer has exactly one query's result, its own call's, and its text is what that query gave, empty if it gave no name |
| NameQueryProtocol.AnswersInOrder | WinSys/Handles.cpp:238-255 | every call gets one answer, in order, for its own handle: a name exactly when its worker was done in time |
| NameQueryProtocol.LeftIsNeverStuck | WinSys/Handles.cpp:177-208 | no lost wake-up: an abandoned worker has exited, is in its query, or can move |
| NameQueryProtocol.LeftMovesOn | WinSys/Handles.cpp:231-255 | nobody else touches it, and each step but a repeated query brings it closer to its end |
| NameQueryProtocol.LeftExits | WinSys/Handles.cpp:177-208 | after six such steps an abandoned worker, or a destroyed query's, has exited |
| NameQueryProtocol.CallerIsNeverStuck | WinSys/Handles.cpp:238-255 | the caller can always move |
| NameQueryProtocol.WaitedWorkerIsAlive | WinSys/Handles.cpp:242-245 | no call waits on a worker that has exited or cannot answer |
| NameQueryProtocol.CountsAbandoned | WinSys/Handles.cpp:252-259 | the abandoned count is the number of workers left behind by timeouts |
| NameQueryProtocol.CountsBlocked | WinSys/Handles.h:92-93 | it is never less than the workers still blocked, and is their number if and only if no worker left behind has exited |
| NameQueryProtocol.CountsExited | WinSys/Handles.cpp:249-259 | a run after which the count is 1 and nothing is blocked |
| ProcessSnapshots.ProcessManager.QuerySystemProcesses | WinSys/ProcessManager.h:250-276 | only the current buffer is written, on failure too |
| ProcessSnapshots.ProcessManager.BuildProcessInfo | WinSys/ProcessManager.h:278-313 | a known process keeps its object and gets new pointers, a new one gets its own |
| ProcessSnapshots.ProcessManager.TakeProcess | WinSys/ProcessManager.h:103-125 | its CPU time is measured against its own record in the previous snapshot, which its pointer still reaches |
| ProcessSnapshots.ProcessManager.TakeAll | WinSys/ProcessManager.h:97-136 | the loop over a snapshot: objects, new ones, both maps, and what is left of the known ones |
| ProcessSnapshots.ProcessManager.Update | WinSys/ProcessManager.h:66-163 | after a snapshot: new is current minus previous, terminated is previous minus current, survivors keep their objects, every pointer is at the process's own record in the buffer filled last, and a terminated process's at its own record in the previous one, which is unchanged; the run is longer by these lists; after a failure all of it is as before |
| ProcessSnapshots.NewOnesExactly | WinSys/ProcessManager.h:109-114 | the new processes are exactly those of unknown keys, each once |
| ProcessSnapshots.NewKeys | WinSys/ProcessManager.h:109-114 | so are their keys |
| ProcessHistory.ReportsAlternate | WinSys/ProcessManager.h:138-147 | over any run the lists reported have each key new and terminated in turn, starting with new, and ending with new exactly if it is live |
| ProcessTree.FindChildren | WinSys/ProcessManager.h:233-244 | the rows under a process; it ends because creation times increase along the recursion |
| ProcessTree.BuildProcessTree | WinSys/ProcessManager.h:211-231 | the rows of every root, shown by ID, and with distinct IDs the rows themselves |
| ProcessTree.BelowIsBranch | WinSys/ProcessManager.h:233-244 | under a process: its children at one depth in the snapshot's order, everything deeper under its own parent |
| ProcessTree.RowsInPreorder | WinSys/ProcessManager.h:211-244 | the tree is in depth-first preorder: roots at depth 0, every other row inside its parent's and one deeper, siblings in order |
| ProcessTree.TimesInRows | WinSys/ProcessManager.h:216-229 | a process is listed once for being a root, and once for each row of its parent other than the idle process's |
| ProcessTree.EachListedOnce | WinSys/ProcessManager.h:211-244 | every process is listed exactly once if and only if every process is plain: not as old as its parent, and not under the idle process as well as at the root |
| ProcessTree.LostProcess | WinSys/ProcessManager.h:216-244 | a process as old as its parent is listed nowhere |
| ProcessTree.ListedTwice | WinSys/ProcessManager.h:216-244 | with the idle process under another, a process is listed twice |
| PEChecksum.ComputeChecksum | WinSys/PEFile.cpp:664-679 | the length plus the residue by 65535 of the sum of the words outside the field and an odd last byte, in 32 bits |
| PEChecksum.WordIsLittle | WinSys/PEFile.cpp:671 | a word is its two bytes' little-endian number |
| PEChecksum.FieldLeftOut | WinSys/PEFile.cpp:669-670 | for every image length, the checksum is independent of the field's bytes if and only if the field is at an even offset |
| PEChecksum.Stamped | WinSys/PEFile.h:146-148 | an image into which its checksum is written still has that checksum |
| PEImage.RvaToOffset | WinSys/PEFile.cpp:166-182 | an offset found is inside the buffer |
| PEImage.SectionMapped | WinSys/PEFile.cpp:166-182 | past the headers an RVA only one section holds is that far into its bytes, which start at the last multiple of 512 not past its offset |
| PEImage.OneRvaPerOffset | WinSys/PEFile.cpp:166-182 | with sections disjoint in the file, different RVAs are at different offsets |
| PEImage.StringAtExactly | WinSys/PEFile.cpp:22-32 | a NUL in reach ends the string, the limit cuts it, and the buffer's end before either leaves none |
| PEExports.SlotsExactly | WinSys/PEFile.cpp:293-298 | the slots listed are exactly those in the file, under the cap, that are not gaps, in order |
| PEExports.NamedByTheLast | WinSys/PEFile.cpp:281-292 | a function has the name of the last entry naming it |
| PEExports.Nameless | WinSys/PEFile.cpp:281-292 | without an entry it has none |
| PEExports.ReadNames | WinSys/PEFile.cpp:281-292 | the name loop, which stops at the file's end, fills the names by function index |
| PEExports.ReadFunctions | WinSys/PEFile.cpp:293-307 | the function loop lists the slots' functions, forwarded exactly when the RVA is inside the export directory |
| PEExports.GetExports | WinSys/PEFile.cpp:265-309 | the exports of the image, or none without a readable export directory |
| PEExports.EachSlotOnce | WinSys/PEFile.cpp:293-307 | a slot is exported at its ordinal if and only if it is not a gap, and no ordinal twice |
| PEExports.ForwardedExactly | WinSys/PEFile.cpp:299-305 | a function has its slot's RVA, and a forwarder exactly if that is inside the export directory |
| PEExportLayout.ReadsDirectory | WinSys/PEFile.cpp:270-277 | every export directory is read back from where it is written |
| PEExportLayout.ReadsExports | WinSys/PEFile.cpp:265-309 | from an image with a directory and its three tables laid out, all exports are read: the functions that are not gaps, in order, with ordinal, RVA, the last name naming each, and forwarder |
| LoadOption.ParseLoadOption | WinSys/Firmware.cpp:37-68 | the loops read the attributes, description and file path of any bytes, and end |
| LoadOption.ParsePath | WinSys/Firmware.cpp:52-66 | the node walk reads the texts of the file path nodes up to the first end node or malformed one |
| LoadOption.ParsesOption | WinSys/Firmware.cpp:37-68 | parsing undoes encoding, whatever optional data follows: the texts of the file path nodes are joined, and the other nodes passed over |
| LoadOption.FileTextOf | WinSys/Firmware.cpp:59-64 | a file path node's text ends at its NUL |
| LoadOption.FileTextWhole | WinSys/Firmware.cpp:59-64 | or is all of it |
| ProcessInfoPayload.PayloadReader.Get | WinSys/DotNet.cpp:83-94 | a number's bytes, or a failure that lasts and leaves nothing to read |
| ProcessInfoPayload.PayloadReader.String | WinSys/DotNet.cpp:399-411 | a counted string up to its NUL, or a failure |
| ProcessInfoPayload.ParseProcessInfo | WinSys/DotNet.cpp:396-426 | the fields in order, or nothing if a read failed anywhere |
| ProcessInfoPayload.ParsesWholePayloads | WinSys/DotNet.cpp:396-426 | both versions' payloads are parsed back, and every strict prefix of one is rejected |
| ProcessInfoPayload.TakeInfoMore | WinSys/DotNet.cpp:396-426 | what is parsed does not depend on what follows |
| ProcessInfoPayload.NewAnswerReadAsOld | WinSys/DotNet.cpp:418-423 | a ProcessInfo2 payload read as the older version gives the same fields |
| AlpcMatching.IpcTracker.OnAlpc | WinSys/Ipc.cpp:262-299 | the pending messages, the pruning and the pair counted, in whatever order events come; each pair a sender and a receiver of one unexpired message; and by the events alone, one pair exactly when an event completes a send and a receive of two processes |
| AlpcMessages.ExactStep | WinSys/Ipc.cpp:269-293 | what is pending is exactly what the events say of each message that has not expired; the event that completes a send and a receive not counted before counts one pair, whose client is the receiver exactly if it was the last to wait for a reply |
| AlpcMessages.SameLink | WinSys/Ipc.cpp:286-289 | so a request and its reply count for the same client and server |
| AlpcMatching.IpcTracker.Add | WinSys/Ipc.cpp:180-184 | the counters stay the tally of the pairs, first and last times included |
| AlpcMatching.IpcTracker.RemoveProcess | WinSys/Ipc.cpp:241-244 | exactly the process's pairs are forgotten |
| AlpcMatching.IpcTracker.GetLinks | WinSys/Ipc.cpp:207-221 | every pair counted is a link, once, with its tally; the counts sum to the pairs counted, at most the sends and at most the receives |
| AlpcMatching.Faithful | WinSys/Ipc.cpp:269-293 | an event keeps what is pending and what is counted true of the events seen, message by message; a receiver is taken for the client only if it waited |
| AlpcMatching.BoundedByMessage | WinSys/Ipc.cpp:262-299 | of each message ID, and in all, no more pairs are counted than sends, and than receives |
| AlpcMatching.SumIsAll | WinSys/Ipc.cpp:207-221 | the pairs are shared out among the counters without loss |

## Left out

- RegistryTable.RegistryIoTable.OnEvent: requires that tokens are not used up (2^48 of them) and that event addresses are outside the token range, as RegistryIo.h:145-152 says of kernel addresses.
- RegistryInvariant.RunKeeps: the same two hypotheses, on the run.
- RegistryTable.RegistryIoTable.Retarget: `m_Waiting` is a value map, so the validity of the iterator held while the map grows is not modelled.
- PEImage.OneRvaPerOffset: for images of at most 4 GB, past which the offset no longer fits its 32 bits (files read are at most 1 GB).
- PEChecksum.FieldLeftOut: for a field inside the image, which parsing the headers ensures.
- EventXmlDocument.ParsesUserData: for a UserData section without an EventData element in the text, which would be read instead.
- EventXmlDocument.ParsesDocument: for documents of elements, attributes and character data; comments, CDATA sections and processing instructions are not printed.
- EventXmlDocument.EventRoundTrip: the part in front of the event data has no EventData element of its own, which would be read instead.
- RegistryResolver.RunsDrain: for passes at which no queued event, and no name of a token waited on, is as old as an unused name that is pruned.
- RegistryResolver.QuietPassesDrainExactly: the same hypothesis.
- RegistryPrune.PruneForgetsIdleOnly: for ticks of 64 bits, which is all the code's can be.
- AlpcMessages.ExactStep: for ticks that never go back, as GetTickCount64's do not.
- AlpcMatching.IpcTracker.OnAlpc: what is counted by the events alone is stated for such ticks too; the rest for any.
- RegistryHistory.RunTold: for runs that do not use up the tokens, with event addresses outside the token range.
- EventXmlDocument.UserDataRoundTrip: for a UserData section without an EventData element in the text, which would be read instead.
- PEExportLayout.ReadsExports: for at most 1048576 functions and names, past which the code reads no more.
- MemoryEvenAddresses.EvenAddressesExactly: for regions that end at even addresses, as pages do.
- NameQueryProtocol.CountsBlocked: before the query is destroyed, after which there is no count to ask for.
- ProcessTree.EachListedOnce: for snapshots with distinct process IDs.
- ProcessSnapshots.ProcessManager.Update: for snapshots with distinct keys; CPU time is the difference of the two records, not yet a percentage.
- Registry: GetKeys and GetDeferredCount copy a field. The tracker, its ETW session and the handle lookups appear only as arbitrary calls; the registry name prefixes and upper-casing are uninterpreted functions. 64-bit counters do not wrap.
- Memory: the address space is what VirtualQueryEx describes and reads of readable regions succeed in full, so the branches for partial reads are not modelled, nor is the progress callback. A run's 32-bit length does not wrap, and addresses do not overflow.
- Event XML: `wcstoul` and `iswspace` are those of the C locale with the Unicode spaces; the position arithmetic is on unbounded numbers. Comments, CDATA sections and > inside attribute values are read as the code reads them, but the printer writes none.
- Object name queries: steps are sequentially consistent; the buffer's growth is one repeated query, and thread creation only succeeds or fails.
- Processes: the threads' half of an update, names, image paths, package names, and the buffers' growth. The map whose entries FindChildren erases does not affect its result and is not modelled. IDs are looked up by the first process of an ID, as the map by ID keeps it.
- PE images: parsing the headers, imports, resources, debug and .NET directories. Headers and sections are given as parsed.
- EFI: reading the variables, and GetBootConfiguration, which looks up and sorts what ParseLoadOption gives.
- .NET: the pipe, the rundown events, and QueryCoreProcessInfo's choice of version. A count of 0 characters is read as an empty string but not written by the encoder here.
- ALPC: the RPC half of the tracker, the lock, and the session. Counters do not wrap.
- FileIo, ProcessNetwork, ProcessCreation and ProcessModuleTracker count or difference as the modelled ones do, with less state.
- Gpu, Disk, Network, Battery and processor frequency rates, and the wrappers of Windows interfaces (services, firewall, packages, devices, COM, symbols and others), which hold no algorithm of their own; the name and text tables; the driver.
