# Cashblocks: verified models of the money path

This project models, in Dafny, the parts of the ATM runtime on which money depends, and
proves what they promise. Each module follows one source file or component.

- `CashAllocation`, `Simulator`: the bounded subset-sum allocator with its in-place dynamic
  programme, and the simulator ledger with the dispenser, the acceptor and the cash modules.
- `SessionReplay`, `JournalInspection`, `Recovery` (over `JournalEvents`): the one-pass journal
  replayer with its four maps and its truncating issue budget, and the certification harness
  that reads the same events backwards to choose a recovery action.
- `Json`, `CanonicalJson`, `JournalLines`, `JsonScan`: JSON values and their text (RFC 8259,
  sections 3 to 7), the canonical byte-budgeted printer used as an equality test, journal lines,
  and what a torn JSON line can look like.
- `Iso8583`, `FramedTransport`: the bitmap message codec (ISO 8583:1987, clause 4, in the
  subset the code fixes) and the length-prefixed frame reassembler.
- `FileLock`, `StanAllocator`, `ReversalEvents`, `ReversalStore`, `ReversalOperations`,
  `PendingReversals`, `ReversalProcessor`: the exclusive-create lock file, the trace-number
  allocator, the append-only reversal log with its crash repair, and the batch processor.
- `DeviceGateway`, `Xfs4IotClient.dfy` (module `Xfs4Iot`): the two device command protocols.
- `SessionMeaning`, `JsonText`, `Iso8583Wire`, `ReversalMeaning`, `ReversalReading`,
  `ProcessorSteps`, `Timestamps`, `Xfs4IotOutcomes`: what those modules compute, said again
  without their functions: from the events, the bytes, the calendar, the single step or
  command alone.

Two styles are used throughout. Code that changes things step by step is a class or a method
whose contract ties the new state to a specification function, and the promises are lemmas about
that function. Code that runs concurrently, or may crash between any two of its steps, is a state
machine with one action per callback or disk step; a run is any list of actions, an action that is
not enabled changes nothing, and the theorems quantify over all runs.

## What the proofs turned up

- `classifyRecovery` calls a retry safe after an approved and completed transaction when the
  journal ends with a `flow.failed` that carries a recovery code of its own
  (`Recovery.FlowCodeHidesApproval`). `Recovery.SafeRetryExact` says for every journal when a
  retry is safe; the runtime never writes such a code (packages/flow-sdk/src/index.ts:127-135), and
  `Recovery.SafeRetryDecides` is what is left then.
- It reads approvals only up to the failure it settles on (`Recovery.LateEventsIgnored`). A safe
  retry therefore means that no approval of that transaction is open exactly when none comes
  after the failure (`Recovery.SafeRetryTrusted`), and a strictly valid journal need not be so
  (`Recovery.LateApprovalIgnored`).
- The reconciliation promise of a cash command holds iff the command name the binding maps it to
  is in the indeterminate set; binding `dispense` to another name without listing that name turns
  an unknown outcome into a plain failure (`DeviceGateway.ReconciliationDecides`).
- The XFS4IoT client tests by request id whether a command is still pending when its connection
  comes up. A command that settled while its send was waiting, other than by its own timer or
  signal (a loose command), is sent after all if its id is drawn again meanwhile (`Xfs4Iot.ReusedIdSendsSettled`),
  and drawing no such id is exactly what keeps settled commands unsent (`Xfs4Iot.ReuseDecides`).
  The default ids count up to 2147483647 before they repeat.
- A rejecting acknowledgement that comes before the send reports the request as sent
  (`Xfs4Iot.AcknowledgedBeforeSend`); `Xfs4Iot.CommandsAccounted` says that nothing else does.
- Only names that contain "Withdrawal" have their funds checked by the simulated host, so FastCash
  can overdraw, and nothing else does (`Simulator.OverdraftOnlyFastCash`,
  `Simulator.FastCashOverdraws`).
- An append to the reversal log takes effect as soon as everything but its line feed is on disk
  (`ReversalStore.CrashAtomic`).

## Model

| member | source | states |
|---|---|---|
| `CashAllocation.AllocationExact` | packages/runtime-core/src/index.ts:509-584 | for every amount, list of distinct denominations and stock: an allocation comes back iff the amount is 1 to 100000 and some counts within stock are worth it; what comes back is within stock, has no zero entry and is worth exactly the amount |
| `CashAllocation.LeadingPreferred` | packages/runtime-core/src/index.ts:528-583 | denominations listed first are preferred: what some leading ones can pay is paid exactly as if there were no others |
| `CashAllocation.AllocateCash` | packages/runtime-core/src/index.ts:509-584 | the in-place algorithm with its two arrays meets the same exactness |
| `CashAllocation.SplitStock` | packages/runtime-core/src/index.ts:528-544 | the bundle list the splitting loop builds |
| `CashAllocation.SplitCovers` | packages/runtime-core/src/index.ts:533-543 | bundles of 1, 2, 4, ... notes with a capped last one make every count from 0 up to the stock reachable |
| `CashAllocation.SplitNotes` | packages/runtime-core/src/index.ts:533-543 | splitting one denomination neither loses nor invents a note, and no bundle is empty |
| `CashAllocation.BundleNotes` | packages/runtime-core/src/index.ts:528-544 | all bundles of a denomination together hold exactly the smaller of its stock and what the amount can use |
| `CashAllocation.PayableReachable` | packages/runtime-core/src/index.ts:528-566 | whatever the stock can pay, some distinct bundles pay: the completeness half |
| `CashAllocation.MarkReads` | packages/runtime-core/src/index.ts:546-570 | the -1 sentinel means that no distinct bundles so far sum to the amount |
| `CashAllocation.MarkBundle` | packages/runtime-core/src/index.ts:557-565 | one descending in-place round takes the marks from the first n bundles to the first n + 1 |
| `CashAllocation.FirstBundle` | packages/runtime-core/src/index.ts:557-565 | the bundle recorded for an amount is one that makes it reachable from strictly earlier bundles and that no earlier bundle did |
| `CashAllocation.WalkSound` | packages/runtime-core/src/index.ts:572-583 | along the back-walk the bundle index falls strictly, so each bundle is used at most once and the walk adds exactly the amount |
| `CashAllocation.ReadBack` | packages/runtime-core/src/index.ts:572-583 | the walk over the arrays reads that allocation |
| `Simulator.DefaultProfileValid` | packages/runtime-core/src/index.ts:359-382 | the default profile satisfies every rule of profile validation |
| `Simulator.ProfileMeans` | packages/runtime-core/src/index.ts:384-495 | the rules of a profile denomination by denomination: 1 to 32 of each kind, positive and unrepeated, limits within 1 to 100000, an inventory of exactly the dispensed ones with 0 to 10000 notes each, and with recycling every accepted one dispensed |
| `Simulator.DefaultInventoryWorth` | packages/runtime-core/src/index.ts:372-377 | the default inventory is worth 5000 |
| `Simulator.PlanDispense` | packages/runtime-core/src/index.ts:743-755 | a plan in finite mode never asks for more notes than a unit holds |
| `Simulator.TakeWorth` | packages/runtime-core/src/index.ts:706-711 | taking notes out lowers the inventory by exactly what they are worth |
| `Simulator.PutWorth` | packages/runtime-core/src/index.ts:733-736 | putting notes in raises the inventory by exactly what they are worth |
| `Simulator.RemoveKeeps` | packages/runtime-core/src/index.ts:699-714 | removing planned cash does not throw, lowers terminal cash by the amount and keeps the ledger identity |
| `Simulator.AddKeeps` | packages/runtime-core/src/index.ts:716-741 | adding acceptable cash does not throw, raises terminal cash by the amount and keeps the ledger identity, the amount counting as held outside the units when deposits are not recycled |
| `Simulator.DispenseExact` | packages/runtime-core/src/index.ts:937-972 | the dispenser never reaches its throwing branch; DISPENSED moved exactly the amount, any other code changed nothing |
| `Simulator.DispenseComplete` | packages/runtime-core/src/index.ts:937-972 | in finite mode a dispense succeeds iff device, currency and limit allow it and the stock can pay |
| `Simulator.AcceptExact` | packages/runtime-core/src/index.ts:982-1026 | the acceptor never reaches its throwing branch; ACCEPTED moved exactly the amount, any other code changed nothing |
| `Simulator.AcceptComplete` | packages/runtime-core/src/index.ts:982-1026 | a deposit is accepted iff device, currency, limit and total allow it, its notes exist and, where deposits are recycled, fit their units |
| `Simulator.WithdrawKeeps` | packages/atm-modules/src/index.ts:394-421 | a withdrawal keeps the ledger identity and moves account and cash by the same amount |
| `Simulator.WithdrawDecides` | packages/atm-modules/src/index.ts:335-421 | a withdrawal pays out exactly its amount and takes it off the account iff the host is there, approves and finds the funds it looks for, and device, currency, limit and stock allow it; otherwise the ledger is unchanged |
| `Simulator.WithdrawalCodeSays` | packages/runtime-core/src/index.ts:937-1076 | each result code comes back exactly in its case: no host, declined, no funds, no device, offline, bad amount, currency, limit, cash, notes, dispensed |
| `Simulator.DepositKeeps` | packages/atm-modules/src/index.ts:478-533 | a deposit keeps the ledger identity and moves account and cash by the same amount |
| `Simulator.DepositDecides` | packages/atm-modules/src/index.ts:478-533 | a deposit takes exactly its amount in and puts it on the account iff the acceptor takes it; otherwise the ledger is unchanged |
| `Simulator.DepositCodeSays` | packages/runtime-core/src/index.ts:982-1026 | each result code of the acceptor comes back exactly in its case |
| `Simulator.AdminAddKeeps` | packages/runtime-core/src/index.ts:716-741 | an administrator adding cash changes terminal cash by exactly the amount iff it is acceptable, touches no account and keeps the ledger identity |
| `Simulator.AdminRemoveKeeps` | packages/runtime-core/src/index.ts:699-714 | removing lowers it by exactly the amount iff it can be planned, touches no account and keeps the ledger identity |
| `Simulator.AdminDecides` | packages/atm-modules/src/index.ts:568-578 | an administrator moves exactly the amount named, in or out, iff it fits or is in stock; accounts and everything else stay |
| `Simulator.StepKeeps` | packages/atm-modules/src/index.ts:394-588 | every operation keeps the ledger identity |
| `Simulator.RunBalances` | packages/runtime-core/src/index.ts:602-800 | over every run: terminal cash = sum of denomination * count + deposits not recycled (none when recycling is on), it is never negative, every count stays in 0..10000, and accounts minus cash moves only by the amounts administrators put in or take out |
| `Simulator.MoneyConserved` | packages/atm-modules/src/index.ts:394-533 | withdrawals and deposits in any order, from any ledger with any cash outside its units, leave the sum of accounts minus terminal cash unchanged |
| `Simulator.OverdraftOnlyFastCash` | packages/runtime-core/src/index.ts:1066-1076 | an approved and dispensed withdrawal overdraws the account iff it is FastCash beyond the balance: the host checks funds only for names that contain Withdrawal |
| `Simulator.FastCashOverdraws` | packages/runtime-core/src/index.ts:1066-1076 | the default terminal, an account with 40: FastCash of 100 pays out and leaves -60 |
| `Simulator.RuntimeSimulator.constructor` | packages/runtime-core/src/index.ts:620-656 | a new ledger satisfies the identity and starts from the chosen cash |
| `Simulator.RuntimeSimulator.Create` | packages/runtime-core/src/index.ts:620-656 | construction is refused iff both cash options are given, the profile is invalid, its total unsafe or the scalar cash out of range |
| `Simulator.RuntimeSimulator.InventoryTotal` | packages/runtime-core/src/index.ts:498-507 | the reduction over entries is the worth of the inventory |
| `Simulator.RuntimeSimulator.Plan` | packages/runtime-core/src/index.ts:743-755 | the plan is the exact allocation from the current units |
| `Simulator.RuntimeSimulator.TakeOut` | packages/runtime-core/src/index.ts:706-711 | the loop over entries takes exactly the notes of the plan |
| `Simulator.RuntimeSimulator.PutIn` | packages/runtime-core/src/index.ts:733-736 | the loop over entries adds exactly the notes of the allocation |
| `Simulator.RuntimeSimulator.Remove` | packages/runtime-core/src/index.ts:699-714 | the object after removal is the specified ledger, or unchanged when it throws |
| `Simulator.RuntimeSimulator.CanAdd` | packages/runtime-core/src/index.ts:766-795 | exactly the amounts that fit every unit |
| `Simulator.RuntimeSimulator.Add` | packages/runtime-core/src/index.ts:716-741 | the object after adding is the specified ledger, or unchanged when it throws |
| `Simulator.RuntimeSimulator.Withdrawal` | packages/atm-modules/src/index.ts:335-421 | the module over host, dispenser and ledger performs the specified step, keeps the identity, and returns the code that says what was the case |
| `Simulator.RuntimeSimulator.CashDeposit` | packages/atm-modules/src/index.ts:478-533 | the module over acceptor and ledger performs the specified step, keeps the identity, and returns the code that says what was the case |
| `FramedTransport.ReassemblyExact` | packages/host-iso8583/src/framed-transport.ts:174-223 | for every list of chunks the reader succeeds with p iff p is printable, non-empty and within the limit and some leading chunks join to exactly the big-endian length of p followed by p |
| `FramedTransport.ChunkIndependent` | packages/host-iso8583/src/framed-transport.ts:174-223 | every split of a frame gives its payload, and every list of chunks before the last byte leaves the reader pending |
| `FramedTransport.FeedStep` | packages/host-iso8583/src/framed-transport.ts:174-223 | one chunk: still waiting iff the bytes so far are incomplete, success iff they are exactly one frame |
| `FramedTransport.FrameSucceeds` | packages/host-iso8583/src/framed-transport.ts:207-222 | once leading chunks complete a frame, what follows cannot change the result |
| `FramedTransport.LateNeverSucceeds` | packages/host-iso8583/src/framed-transport.ts:211-214 | a frame completed after the deadline is never a success |
| `FramedTransport.BigEndianRoundTrip` | packages/host-iso8583/src/framed-transport.ts:106-108 | a length written in 2 or 4 big-endian bytes reads back |
| `FramedTransport.BigEndianUnique` | packages/host-iso8583/src/framed-transport.ts:187-192 | header bytes are the big-endian form of the length they read as |
| `FramedTransport.ConfigExact` | packages/host-iso8583/src/framed-transport.ts:69-85 | the limits taken are exactly those whose every length the header can hold |
| `FramedTransport.FrameBytes` | packages/host-iso8583/src/framed-transport.ts:96-109 | the bytes of a frame: two or four bytes of length, highest first, then the payload |
| `FramedTransport.HeaderMeans` | packages/host-iso8583/src/framed-transport.ts:187-192 | the number a header stands for, byte by byte |
| `FramedTransport.BuildFrame` | packages/host-iso8583/src/framed-transport.ts:96-109 | a frame is built iff the message is printable, non-empty and within the limit, and it is header then message |
| `FramedTransport.Reassembler.Join` | packages/host-iso8583/src/framed-transport.ts:188-188 | joining the kept chunks gives the bytes in order |
| `FramedTransport.Reassembler.OnConnect` | packages/host-iso8583/src/framed-transport.ts:153-173 | connecting changes nothing that was read |
| `FramedTransport.Reassembler.ParseLength` | packages/host-iso8583/src/framed-transport.ts:187-199 | reading the length keeps the bytes and flags exactly the lengths outside 1 to the limit |
| `FramedTransport.Reassembler.Complete` | packages/host-iso8583/src/framed-transport.ts:207-222 | a complete frame fails when late or unprintable, otherwise succeeds with its payload |
| `FramedTransport.Reassembler.OnData` | packages/host-iso8583/src/framed-transport.ts:174-223 | the callback on its chunk list is the specified reader; before the connection it does nothing |
| `Iso8583.DecodeAfterEncode` | packages/host-iso8583/src/index.ts:66-114 | decode(encode(m)) = m for every message encode accepts |
| `Iso8583.EncodeAfterDecode` | packages/host-iso8583/src/index.ts:66-114 | encode(decode(p)) = p with the bitmap hex in upper case, for every payload decode accepts |
| `Iso8583.CodecExact` | packages/host-iso8583/src/index.ts:66-114 | a payload decodes to m iff m encodes to it up to bitmap case |
| `Iso8583.BitmapMeans` | packages/host-iso8583/src/index.ts:68-74 | bit 64 - f of the bitmap is set iff field f is present, for all 64 fields |
| `Iso8583.BitsDetermine` | packages/host-iso8583/src/index.ts:388-390 | two 64-bit bitmaps with the same bits are the same number |
| `Iso8583.SetBitBits` | packages/host-iso8583/src/index.ts:72-74 | or-ing a shifted one sets that bit and no other |
| `Iso8583.HexRoundTrip` | packages/host-iso8583/src/index.ts:79-92 | a bitmap printed in 16 hex digits reads back |
| `Iso8583.HexUnique` | packages/host-iso8583/src/index.ts:79-92 | hex text is the upper-case form of the number it reads as |
| `Iso8583.HexCase` | packages/host-iso8583/src/index.ts:88-92 | the case of hex digits does not change the number |
| `Iso8583.FieldRoundTrip` | packages/host-iso8583/src/index.ts:333-370 | a field written in front of anything reads back, and the offset lands right behind it, LLVAR prefix included |
| `Iso8583.FieldUnique` | packages/host-iso8583/src/index.ts:333-370 | a field that reads consumed exactly the bytes encoding its value would write |
| `Iso8583.DecodeFieldsSound` | packages/host-iso8583/src/index.ts:97-109 | the field loop adds exactly the set bits as fields and its bytes are their encoding in order |
| `Iso8583.BuildBitmap` | packages/host-iso8583/src/index.ts:71-74 | the or-loop computes the bitmap whose bits say which fields are present |
| `Iso8583.BuildBody` | packages/host-iso8583/src/index.ts:76-78 | the body is the concatenation of the present fields in order, and fails iff one of them does |
| `Iso8583.EncodeIso8583` | packages/host-iso8583/src/index.ts:66-80 | the encoder accepts exactly the valid messages and its text decodes to the message |
| `Iso8583.DecodeIso8583` | packages/host-iso8583/src/index.ts:82-114 | the decoder loop with its offset is the specified decoder, and its result encodes back |
| `Iso8583Wire.ElementExact` | packages/host-iso8583/src/index.ts:54-63 | what each element admits, element by element, and that it is written as it is, the account number behind two digits of length |
| `Iso8583Wire.MarkedExact` | packages/host-iso8583/src/index.ts:388-390 | element f stands in the bitmap text as bit f from the left, four to a digit |
| `Iso8583Wire.BitmapTextExact` | packages/host-iso8583/src/index.ts:71-79 | the bitmap is sixteen upper-case digits that mark exactly the elements present |
| `Iso8583Wire.EncodeExact` | packages/host-iso8583/src/index.ts:66-80 | a message encodes iff its type is four digits and every element is admitted, and then it is the type, the bitmap text and elements 2, 3, 4, 7, 11, 39, 41, 49 in order |
| `Iso8583Wire.DecodeExact` | packages/host-iso8583/src/index.ts:82-114 | a payload decodes to a message iff its type is four digits, each element is admitted, and the payload is the type, sixteen hex digits of either case that mark exactly the elements present, and these in order |
| `FileLock.StepSafe` | packages/host-iso8583/src/file-lock.ts:11-47 | every step of any call, failure, crash or operator removal keeps: tokens unique, and an owner is the one whose token the lock file holds |
| `FileLock.MutualExclusion` | packages/host-iso8583/src/file-lock.ts:11-47 | at most one call is between create and unlink |
| `FileLock.OwnerUndisturbed` | packages/host-iso8583/src/file-lock.ts:11-47 | no step of anybody else takes the lock from its owner |
| `FileLock.CheckSucceeds` | packages/host-iso8583/src/file-lock.ts:35-44 | the ownership check before release finds the own token |
| `FileLock.StaleRemovalUnsafe` | packages/host-iso8583/src/stan-store.ts:37-39 | removing a lock that merely looks old lets two processes in: why the option is refused |
| `FileLock.StepDecides` | packages/host-iso8583/src/file-lock.ts:12-53 | each step of a call: where it may be taken, where the call then stands, what becomes of the lock file; a step that does not fit changes nothing, and one that does moves its own call alone |
| `FileLock.CallEnters` | packages/host-iso8583/src/file-lock.ts:12-53 | with the lock free a call gets in under its own token, and its release frees the lock |
| `FileLock.LockLeftBehind` | packages/host-iso8583/src/file-lock.ts:16-53 | a call that fails or dies inside leaves the lock behind: no create succeeds until an operator has removed it |
| `StanAllocator.TraceNumbersUnique` | packages/host-iso8583/src/stan-store.ts:42-107 | over every interleaving, failure and crash: one process at most is inside, and two returned values fewer than 999999 commits apart differ |
| `StanAllocator.CommitsCycle` | packages/host-iso8583/src/stan-store.ts:47-52 | committed values run through 1 to 999999 in order; a crash can only skip a value |
| `StanAllocator.OutputDecides` | packages/host-iso8583/src/stan-store.ts:42-55 | a value is handed out exactly when a call unlinks after its check with a committed value, and the state file moves exactly when a prepared state is renamed inside the lock |
| `StanAllocator.KnowledgeDecides` | packages/host-iso8583/src/stan-store.ts:48-50 | what a call has read, prepared and committed after each step; a call that gets the lock starts afresh |
| `StanAllocator.LocksDecide` | packages/host-iso8583/src/stan-store.ts:42-55 | the lock takes its own steps, and a call comes to its check only with a new state in place or a failure |
| `StanAllocator.InsideCommits` | packages/host-iso8583/src/stan-store.ts:47-52 | a call that has the lock commits the successor of the state file |
| `StanAllocator.OutsideReturns` | packages/host-iso8583/src/stan-store.ts:47-52 | then it returns that value and the lock is free |
| `StanAllocator.StepKeeps` | packages/host-iso8583/src/stan-store.ts:42-107 | each step keeps commits in cycle order and every return a distinct commit |
| `StanAllocator.RunKeeps` | packages/host-iso8583/src/stan-store.ts:42-107 | so does every run |
| `StanAllocator.DurableStanAllocator.Acquire` | packages/host-iso8583/src/file-lock.ts:13-31 | a call draws its token and gets in iff there is no lock file, which then holds that token; otherwise it gives up and leaves the file alone |
| `StanAllocator.DurableStanAllocator.ReadAndWrite` | packages/host-iso8583/src/stan-store.ts:48-51 | the state file moves on to the successor iff the new state was renamed into place, and the call has a value iff nothing raised |
| `StanAllocator.DurableStanAllocator.Release` | packages/host-iso8583/src/file-lock.ts:35-47 | the lock file still holds the own token, so it is removed; what was committed becomes what is returned |
| `StanAllocator.DurableStanAllocator.NextTrace` | packages/host-iso8583/src/stan-store.ts:42-55 | one call, which may find the lock taken or raise before or after the rename: value, state file, commits and returns are those of the protocol run, and the lock file is left as it was found |
| `Json.PrintInjective` | packages/certification-harness/src/index.ts:775-864 | different JSON values print differently |
| `Json.PrintUnique` | packages/certification-harness/src/index.ts:775-864 | a printed value followed by a separator determines the value and what follows |
| `Json.PrintThen` | packages/certification-harness/src/index.ts:775-864 | text in front of a continuation is the text and then the continuation |
| `Json.PrintOneLine` | packages/certification-harness/src/index.ts:787-792 | printed text holds no control character, so it is one line |
| `JsonText.PrintMeans` | packages/certification-harness/src/index.ts:775-864 | the text of every value from its parts: the literals, quoted text with each escape, items and members joined by commas in brackets and braces |
| `JsonText.EscapeExact` | packages/certification-harness/src/index.ts:787-792 | each character by itself: quote and backslash behind a backslash, control characters by letter or number |
| `JsonText.Utf8Decodes` | packages/certification-harness/src/index.ts:779-786 | the bytes of a character are of the right kinds and stand for it |
| `JsonText.ByteLengthExact` | packages/certification-harness/src/index.ts:779-786 | the budget counts the UTF-8 bytes of the text |
| `CanonicalJson.StableTextDecides` | packages/certification-harness/src/index.ts:444-457 | two values print alike canonically iff they are equal up to key order at every depth, so a check is true equality |
| `CanonicalJson.CheckDecides` | packages/certification-harness/src/index.ts:444-457 | a certification check passes iff expected and actual are equal up to key order |
| `CanonicalJson.CanonDecides` | packages/certification-harness/src/index.ts:836-855 | sorting keys at every depth identifies exactly the values equal up to key order |
| `JsonText.LessExact` | packages/certification-harness/src/index.ts:866-868 | keys compare by their UTF-16 units, smaller at the first difference or shorter with none |
| `JsonText.CanonMeans` | packages/certification-harness/src/index.ts:836-855 | the canonical fields of an object are those it has, each with its canonical value, keys ascending in that order |
| `JsonText.CanonElsewhere` | packages/certification-harness/src/index.ts:793-835 | anything else is its own canonical form, items each by itself and in order |
| `CanonicalJson.SortedUnique` | packages/certification-harness/src/index.ts:839-839 | key-sorted field lists with the same members are the same list |
| `CanonicalJson.Encoder.Append` | packages/certification-harness/src/index.ts:779-786 | a part is taken iff it fits what is left of the budget |
| `CanonicalJson.Encoder.AppendJsonString` | packages/certification-harness/src/index.ts:787-792 | the early size test on the raw string rejects only what would not fit anyway |
| `CanonicalJson.Encoder.Encode` | packages/certification-harness/src/index.ts:793-861 | encoding appends exactly the canonical text, and stops iff it does not fit |
| `CanonicalJson.Encoder.EncodeItems` | packages/certification-harness/src/index.ts:814-822 | array items with their commas, likewise |
| `CanonicalJson.Encoder.EncodeFields` | packages/certification-harness/src/index.ts:837-856 | sorted object fields with commas and colons, likewise |
| `CanonicalJson.StableStringify` | packages/certification-harness/src/index.ts:775-864 | the budgeted printer gives the full canonical text iff that text fits, and fails otherwise |
| `CanonicalJson.SerializeEvent` | packages/certification-harness/src/index.ts:572-580 | one line under what is left: every line but the first pays for its line feed |
| `CanonicalJson.SerializeNext` | packages/certification-harness/src/index.ts:571-581 | a next line keeps the account of the budget exact, or proves the whole journal too large |
| `CanonicalJson.SerializeJournal` | packages/certification-harness/src/index.ts:565-583 | a journal serialises iff its whole text fits the budget, though the budget is spent line by line |
| `CanonicalJson.JoinLines` | packages/certification-harness/src/index.ts:582-582 | joining the lines is the journal text |
| `CanonicalJson.JournalCost` | packages/certification-harness/src/index.ts:571-580 | what a line costs, and that the cost is part of the whole |
| `JsonText.JournalMeans` | packages/certification-harness/src/index.ts:565-583 | a serialised journal is the canonical texts of its events with a line feed between each two |
| `JournalLines.SplitLines` | packages/journal-replay/src/index.ts:1032-1052 | the line generator yields exactly the lines, carriage returns stripped, a missing final line feed allowed |
| `JournalLines.LinesExact` | packages/journal-replay/src/index.ts:1032-1052 | whatever lines a text is made of, ended by line feeds or with a last one that is not, those are read, each without its final carriage return |
| `JournalLines.JournalReadsBack` | packages/journal-replay/src/index.ts:1032-1052 | splitting a serialised journal gives back each event text, in order |
| `JsonScan.TornObjectUnreadable` | packages/host-iso8583/src/reversal-store.ts:213-222 | no proper non-empty beginning of a printed object has balanced brackets, so no JSON reader accepts it |
| `JsonScan.GarbledObjectUnreadable` | packages/host-iso8583/src/reversal-store.ts:213-222 | nor does such a beginning whose last character was cut in the middle and reads as another one |
| `JsonScan.PrintedBalanced` | packages/host-iso8583/src/reversal-store.ts:168-168 | every printed value is balanced |
| `ReversalEvents.ReplayMeans` | packages/host-iso8583/src/reversal-store.ts:285-311 | in a replayed log an id is present iff it was queued, its attempts are its attempted events and it is done iff it was completed |
| `ReversalMeaning.ReplayDecides` | packages/host-iso8583/src/reversal-store.ts:285-311 | a log replays iff every id is queued once and before anything else, and nothing but a completion follows its completion |
| `ReversalMeaning.RecordMeans` | packages/host-iso8583/src/reversal-store.ts:285-311 | what a record then holds: intent and time of queueing, completion, number of attempts, error of the last failure, time of the last event |
| `ReversalEvents.EventRoundTrip` | packages/host-iso8583/src/reversal-store.ts:313-339 | every event the store writes parses back to itself through the exact-key and validation rules |
| `ReversalMeaning.EventWritten` | packages/host-iso8583/src/reversal-store.ts:167-168 | the text an append writes of each event, member by member |
| `ReversalMeaning.ReadSound` | packages/host-iso8583/src/reversal-store.ts:313-339 | whatever reads as an event is a valid one and carries its time, id and error in the members of those names |
| `ReversalMeaning.KindRead` | packages/host-iso8583/src/reversal-store.ts:313-339 | and its kind in the member type, with no member too many |
| `ReversalMeaning.IntentExact` | packages/host-iso8583/src/reversal-store.ts:353-381 | which intents are taken, member by member and character by character |
| `ReversalMeaning.AcceptsExact` | packages/host-iso8583/src/reversal-store.ts:63-103 | what a call accepts before it takes the lock: an admitted intent, a failure text of 1 to 500 characters, and any transition by id |
| `ReversalReading.FragmentsExact` | packages/host-iso8583/src/reversal-store.ts:148-148 | of any text the lines are read without line end and one carriage return, in order, the empty ones left out; a last line that is not ended counts as it stands |
| `ReversalReading.EventReadExact` | packages/host-iso8583/src/reversal-store.ts:313-339 | an object reads as an event iff it has exactly the members of that event, in any order, and time, intent and error are valid |
| `ReversalReading.IntentReadExact` | packages/host-iso8583/src/reversal-store.ts:353-381 | an object reads as an intent iff it has its eight members and no other, in any order, and each is admitted |
| `ReversalReading.LoadDecides` | packages/host-iso8583/src/reversal-store.ts:134-165 | any file at all loads iff it and its lines are within the limits, every line reads as an event and the events are a lawful log; what it loads is their replay |
| `ReversalReading.RepairExact` | packages/host-iso8583/src/reversal-store.ts:205-227 | repair of any file ends an unfinished line that reads as an event, cuts off any other, and touches nothing else |
| `Timestamps.TimestampExact` | packages/host-iso8583/src/reversal-store.ts:394-398 | a text is accepted as a timestamp iff it is what toISOString prints of some instant of the Gregorian calendar within the range of a Date |
| `ReversalEvents.IntentRoundTrip` | packages/host-iso8583/src/reversal-store.ts:353-381 | every valid intent survives its JSON form |
| `ReversalEvents.DecimalRoundTrip` | packages/host-iso8583/src/reversal-store.ts:367-369 | an amount printed in decimal reads back |
| `ReversalStore.TailStart` | packages/host-iso8583/src/reversal-store.ts:211-212 | the tail starts right after the last line feed |
| `ReversalStore.LogFragments` | packages/host-iso8583/src/reversal-store.ts:148-148 | splitting a log of printed events gives back exactly those lines |
| `ReversalStore.ReaderExists` | packages/host-iso8583/src/reversal-store.ts:158-158 | what is assumed of the JSON reader can be met: it reads back the events the store prints, and reads only text with balanced brackets |
| `ReversalStore.LogReads` | packages/host-iso8583/src/reversal-store.ts:152-163 | reading the lines of a log replays its events |
| `ReversalStore.LogLoads` | packages/host-iso8583/src/reversal-store.ts:134-165 | a log within the limits loads to the replay of its events |
| `ReversalStore.RepairIdempotent` | packages/host-iso8583/src/reversal-store.ts:205-227 | for any file content at all repair ends a line, leaves a settled file alone, and repeating it changes nothing |
| `ReversalStore.CrashAtomic` | packages/host-iso8583/src/reversal-store.ts:185-185 | whatever bytes of an appended line reached the file, even part of a character, repair leaves exactly the file before the append or the file after it; all but the line feed is enough |
| `ReversalStore.TornLine` | packages/host-iso8583/src/reversal-store.ts:205-227 | the same of any line that reads as an event while no proper beginning of it does |
| `ReversalOperations.CallExact` | packages/host-iso8583/src/reversal-store.ts:63-132 | on any recoverable file a call fails iff its argument is refused, memory refuses it or there is no room; a failure changes no record, a success does to the log what it does to records in memory |
| `ReversalMeaning.CallDecides` | packages/host-iso8583/src/reversal-store.ts:63-190 | one call from the events alone: it succeeds iff its argument is accepted and its event is recorded already, or may be recorded and fits; it appends exactly that line in the second case and nothing otherwise |
| `ReversalOperations.TornAppend` | packages/host-iso8583/src/reversal-store.ts:167-190 | a crash after any number of bytes of an append leaves a recoverable file, with the event in effect or not |
| `ReversalMeaning.CrashDecides` | packages/host-iso8583/src/reversal-store.ts:167-190 | a call that dies while writing takes effect iff it had something to write and all but the line feed was written |
| `ReversalOperations.LogAlwaysRecovers` | packages/host-iso8583/src/reversal-store.ts:63-227 | after any run of finished and crashed calls, repair leaves exactly the lines of the events in effect, and load succeeds within every limit and gives exactly the records in memory; attempts count the attempted events in effect |
| `ReversalOperations.CompletedForever` | packages/host-iso8583/src/reversal-store.ts:121-124 | a completed record is never changed again, whatever is run |
| `ReversalOperations.FileOnlyGrows` | packages/host-iso8583/src/reversal-store.ts:167-227 | whatever is run and however it crashes, the repaired file of before is a prefix of the repaired file of after: no event on disk is lost, changed or reordered |
| `ReversalOperations.EnqueueIdempotent` | packages/host-iso8583/src/reversal-store.ts:67-73 | enqueueing a known id writes nothing, and fails iff the data differ |
| `ReversalOperations.JsonlReversalStore.RepairPartialTail` | packages/host-iso8583/src/reversal-store.ts:205-227 | the method on the file is the specified repair |
| `ReversalOperations.JsonlReversalStore.Load` | packages/host-iso8583/src/reversal-store.ts:134-165 | the loop over lines loads the specified records, or fails as specified |
| `ReversalOperations.JsonlReversalStore.Append` | packages/host-iso8583/src/reversal-store.ts:167-190 | a line is added iff line, file and event limits allow, otherwise nothing changes |
| `ReversalOperations.JsonlReversalStore.EnqueueIntent` | packages/host-iso8583/src/reversal-store.ts:63-87 | the file after the call, its failure, and the record it returns |
| `ReversalOperations.JsonlReversalStore.Transition` | packages/host-iso8583/src/reversal-store.ts:113-132 | the file after the call and its failure, for all three transitions |
| `PendingReversals.Pending` | packages/host-iso8583/src/reversal-store.ts:89-96 | the batch is outstanding records without repetition, oldest first, as many as the limit allows, and nobody left out is older |
| `PendingReversals.InsertKeepsAge` | packages/host-iso8583/src/reversal-store.ts:93-93 | sorting by creation time keeps order and members |
| `PendingReversals.CutKeepsOldest` | packages/host-iso8583/src/reversal-store.ts:94-94 | slicing a list by age leaves out only what is no older |
| `ReversalProcessor.ProcessingSafe` | packages/host-iso8583/src/reversal-store.ts:241-282 | over every interleaving of processors, enqueuers, failures and crashes: at most one request in flight; nothing is attempted, sent or completed after its completion; every send has its own attempted event; every batch that returned attempted each record exactly once with attempted = completed + failed |
| `ProcessorSteps.RoundDecides` | packages/host-iso8583/src/reversal-store.ts:257-276 | one whole round over an outstanding record: attempted on record, then sent; completed exactly when the host accepted, otherwise still outstanding with the error; counts, history and record as a whole |
| `ProcessorSteps.BeginDecides` | packages/host-iso8583/src/reversal-store.ts:259-259 | the attempt is on record and seen unless refused; a call that raises ends the batch |
| `ProcessorSteps.ExchangeDecides` | packages/host-iso8583/src/reversal-store.ts:261-262 | the request goes out under its own mark, or cannot be built, and the answer is taken as it comes |
| `ProcessorSteps.AcceptedOutstands` | packages/host-iso8583/src/reversal-store.ts:263-266 | a record the host has accepted is outstanding until its completion |
| `ProcessorSteps.CompleteDecides` | packages/host-iso8583/src/reversal-store.ts:266-271 | an accepted record is completed unless that is refused; a call that raises makes it a failed one, even with the completion on record |
| `ProcessorSteps.FailDecides` | packages/host-iso8583/src/reversal-store.ts:268-276 | a failed record keeps its status and gets the error; the batch goes on unless that call raises or the caller gave up |
| `ProcessorSteps.BatchDecides` | packages/host-iso8583/src/reversal-store.ts:253-278 | a batch of outstanding records begins with its first, ends with its counts, and may be given up between records only |
| `ProcessorSteps.OutsideDecides` | packages/host-iso8583/src/reversal-store.ts:63-86 | from outside only a new intent comes in, while there is room for its record |
| `ProcessorSteps.LockDecides` | packages/host-iso8583/src/reversal-store.ts:248-282 | a call reports exactly when it leaves the lock after a finished batch |
| `ProcessorSteps.OnlyInPlace` | packages/host-iso8583/src/reversal-store.ts:257-276 | a step out of place changes nothing, and one in place leaves lock, reports and every other process alone |
| `ReversalProcessor.StepKeeps` | packages/host-iso8583/src/reversal-store.ts:241-282 | each step keeps those invariants |
| `ReversalProcessor.HistoryAppend` | packages/host-iso8583/src/reversal-store.ts:257-275 | one more mark about an id not yet completed keeps what the history promises |
| `ReversalProcessor.Processor.AttemptAndSend` | packages/host-iso8583/src/reversal-store.ts:259-262 | the attempted event is on record before the request goes out; when the store refuses it nothing is sent or changed |
| `ReversalProcessor.Processor.RecordAnswer` | packages/host-iso8583/src/reversal-store.ts:263-275 | an accepted record is completed, any other keeps its status and gets the error |
| `ReversalProcessor.Processor.ProcessRecord` | packages/host-iso8583/src/reversal-store.ts:257-276 | one record is attempted once, ends done iff the host accepted, and no other record changes; a refused attempt ends the batch with nothing changed |
| `ReversalProcessor.Processor.ProcessBatch` | packages/host-iso8583/src/reversal-store.ts:255-276 | the loop reaches the end iff no attempt is refused; the two counters add up to the batch, completed counting what the host accepted, and records outside the batch are untouched |
| `ReversalProcessor.Processor.Process` | packages/host-iso8583/src/reversal-store.ts:241-282 | one call: the batch is the oldest outstanding records up to the limit; it reports attempted = completed + failed iff it got the lock and no attempt was refused, each record reached is done iff the host accepted it, and the lock file is left as it was found |
| `SessionReplay.StrictDecides` | packages/journal-replay/src/index.ts:458-619 | strict replay of a session raises no error iff its frames fit and it is well formed: flow.loaded at 2 first, ids match, numbers contiguous, no result before its request and all answered, starts never overlap and all end, and the last status is terminal |
| `SessionMeaning.SessionSays` | packages/journal-replay/src/index.ts:458-619 | in either mode a session raises exactly the issues its events deserve, each at its severity: frame limit, anchor, sequence, timestamps, results, overlaps, repeated outcomes, ending, open and unanswered transactions |
| `SessionMeaning.PartialDecides` | packages/journal-replay/src/index.ts:458-619 | the errors left in partial mode: frames, foreign events, gaps, results without request, overlaps |
| `SessionReplay.LoopDecides` | packages/journal-replay/src/index.ts:546-573 | the one-pass loop raises no error iff ids match, numbers are contiguous, results follow requests and starts do not overlap |
| `SessionReplay.EndDecides` | packages/journal-replay/src/index.ts:575-608 | the end checks raise no error iff the session ends terminal, all started transactions ended and all requests were answered |
| `SessionReplay.ActiveIsOpen` | packages/journal-replay/src/index.ts:651-665 | the active map holds exactly the transactions started without an outcome since |
| `SessionReplay.PendingIsDifference` | packages/journal-replay/src/index.ts:629-645 | the pending map holds requests minus results of each transaction |
| `SessionMeaning.WaitingIsExcess` | packages/journal-replay/src/index.ts:629-645 | whatever results came unasked, what a transaction waits for is the largest excess of requests over results since any point |
| `SessionMeaning.WaitingReplayed` | packages/journal-replay/src/index.ts:629-645 | that is what the pending map holds |
| `SessionReplay.OrphanMeans` | packages/journal-replay/src/index.ts:635-640 | an unmatched result is flagged iff it is one too many |
| `SessionReplay.OverlapMeans` | packages/journal-replay/src/index.ts:651-655 | an overlap is flagged iff the transaction is still open |
| `SessionReplay.InForceMeans` | packages/journal-replay/src/index.ts:691-701 | the selected transaction is the last one selected, else the first one named other than identification and status |
| `SessionReplay.ReplayKnows` | packages/journal-replay/src/index.ts:681-732 | previous event, selected transaction and terminal status after any events of the session |
| `SessionMeaning.StatusFollows` | packages/journal-replay/src/index.ts:681-732 | the status is where the last event that moves it leads, or as recorded when there is none |
| `SessionMeaning.RequestsCounted` | packages/journal-replay/src/index.ts:733-733 | the request counter counts the requests |
| `SessionMeaning.ResultsCounted` | packages/journal-replay/src/index.ts:734-734 | the result counter counts the results |
| `SessionMeaning.FlagsFollow` | packages/journal-replay/src/index.ts:681-737 | the sequence number is that of the last event, and reconciliation is flagged iff some event required it |
| `SessionMeaning.TransactionAtMeans` | packages/journal-replay/src/index.ts:648-650 | an event belongs to the transaction it names, else the one in force, else the unknown one |
| `SessionReplay.ValidSessionBalanced` | packages/journal-replay/src/index.ts:733-734 | in every valid session hostRequests = hostResults |
| `SessionReplay.RequestsAccounted` | packages/journal-replay/src/index.ts:629-645 | requests = results + all pending, as long as results follow requests |
| `SessionReplay.OccurrencesIndexed` | packages/journal-replay/src/index.ts:646-729 | after any events whatever each transaction has occurrences 1 to its count, each listed once and in order, and the index maps each to its place; active ones are listed as started |
| `SessionMeaning.CountsAreOccurrences` | packages/journal-replay/src/index.ts:651-672 | the counter counts starts and outcomes without an open start, and an open transaction is at its latest occurrence |
| `SessionMeaning.ListStep` | packages/journal-replay/src/index.ts:706-723 | a start or unmatched outcome is appended as the next occurrence, any other outcome becomes the status of the latest one, nothing else changes the list |
| `SessionReplay.RecordNew` | packages/journal-replay/src/index.ts:713-723 | a new occurrence is appended and indexed at the end |
| `SessionReplay.RecordAgain` | packages/journal-replay/src/index.ts:710-712 | an outcome of a listed occurrence changes its status in place; its index is always in range |
| `SessionReplay.Replayer.ValidateLifecycle` | packages/journal-replay/src/index.ts:621-674 | the method on the four maps gives the specified maps, tracked transaction and issues |
| `SessionReplay.Replayer.ApplyEvent` | packages/journal-replay/src/index.ts:676-759 | the method on the state gives the specified state |
| `SessionReplay.Replayer.RecordTracked` | packages/journal-replay/src/index.ts:706-723 | the transaction list and its index are updated as specified |
| `SessionReplay.Replayer.ReplayEvent` | packages/journal-replay/src/index.ts:553-572 | one event: state, maps and issues in order |
| `SessionReplay.Replayer.ReplayLoop` | packages/journal-replay/src/index.ts:546-573 | the loop is the fold over events, skipping those of other sessions |
| `SessionReplay.Replayer.FinalIssues` | packages/journal-replay/src/index.ts:575-608 | one issue per open transaction and per unanswered one |
| `SessionReplay.Replayer.IssuePerKey` | packages/journal-replay/src/index.ts:589-608 | one issue for every map entry |
| `SessionReplay.Replayer.ReplayRecords` | packages/journal-replay/src/index.ts:458-619 | the whole session raises exactly the specified issues in order |
| `JournalInspection.InspectJournalText` | packages/journal-replay/src/index.ts:166-404 | the issue list never exceeds its limit; when no limit stops parsing it is everything the journal raises, cut at the limit with a last issue that says so; when one does it says so; a report is valid iff no limit stopped parsing, nothing raised is an error and all of it fits |
| `JournalInspection.StrictJournalDecides` | packages/journal-replay/src/index.ts:166-404 | in strict mode nothing raised is an error iff every line is blank or an event, every session is anchored by its own earlier runtime.started and well formed, and frames fit |
| `JournalInspection.PartialJournalDecides` | packages/journal-replay/src/index.ts:166-404 | in partial mode the errors left are bad lines, unscoped events other than runtime.started, inconsistent sessions and too many frames |
| `JournalInspection.JournalSays` | packages/journal-replay/src/index.ts:166-404 | in either mode a journal raises exactly the issues its lines, its structure and its sessions deserve |
| `JournalInspection.EntriesExact` | packages/journal-replay/src/index.ts:213-279 | the accepted events are exactly those of the lines that hold one, each under its line number, in order |
| `JournalInspection.ScopedExact` | packages/journal-replay/src/index.ts:303-311 | a group is exactly the events of its session, each once and in order |
| `JournalInspection.UnscopedExact` | packages/journal-replay/src/index.ts:288-316 | so are the unscoped events, and the anchors among them |
| `JournalInspection.SessionsExact` | packages/journal-replay/src/index.ts:303-311 | the sessions are exactly those that appear, once each, in order of first appearance |
| `JournalInspection.Ledger.AddParsing` | packages/journal-replay/src/index.ts:191-211 | the parsing budget: the list is what was raised until that overflows, and from then on its beginning and the limit issue |
| `JournalInspection.Ledger.AddIssue` | packages/journal-replay/src/index.ts:471-497 | the replay budget with its replace-last rule keeps the same account |
| `JournalInspection.Ledger.AddIssues` | packages/journal-replay/src/index.ts:471-497 | and so for any number of issues |
| `JournalInspection.Ledger.StartReplay` | packages/journal-replay/src/index.ts:374-378 | the replay budget is what parsing left over |
| `JournalInspection.ParseLines` | packages/journal-replay/src/index.ts:213-279 | the loop reads every line and raises exactly their issues iff no limit stops it; stopped, the list holds an error |
| `JournalInspection.StoppedUnfit` | packages/journal-replay/src/index.ts:215-275 | the loop stops early only because a limit was passed |
| `JournalInspection.GroupBySession` | packages/journal-replay/src/index.ts:303-311 | for every session that appears, in order of first appearance, the map holds exactly its records, each once and in order |
| `JournalInspection.CheckUnscoped` | packages/journal-replay/src/index.ts:289-301 | breaking off once the list is full loses nothing |
| `JournalInspection.CheckCounts` | packages/journal-replay/src/index.ts:281-334 | empty journal, unscoped events, missing sessions and mismatched anchors |
| `JournalInspection.CheckStarts` | packages/journal-replay/src/index.ts:335-345 | anchors that are not numbered 1 or not from the runtime |
| `JournalInspection.CheckOrder` | packages/journal-replay/src/index.ts:350-372 | session starts that do not follow their anchor |
| `JournalInspection.SessionFirsts` | packages/journal-replay/src/index.ts:346-349 | the first record of every session |
| `JournalInspection.FirstsAscend` | packages/journal-replay/src/index.ts:346-349 | sessions taken in order of appearance start in line order, so sorting by line moves nothing |
| `JournalInspection.ReplaySessions` | packages/journal-replay/src/index.ts:379-392 | all sessions are replayed under the shared frame and issue budgets |
| `JournalInspection.FramesAddUp` | packages/journal-replay/src/index.ts:507-520 | every session fits the shared frame budget iff their total does |
| `JournalInspection.FramesConserved` | packages/journal-replay/src/index.ts:507-520 | sessions that fit share the frame budget, each fits what those before it left, and one that does not takes nothing |
| `JournalInspection.ReplayClean` | packages/journal-replay/src/index.ts:379-392 | the sessions raise no error iff each is well formed and fits |
| `JournalInspection.StructureClean` | packages/journal-replay/src/index.ts:281-372 | the structure checks raise no error iff there is one good anchor before every session and nothing else unscoped |
| `JournalInspection.HasNoError` | packages/journal-replay/src/index.ts:397-397 | valid means no error in the list |
| `Recovery.SafeRetryExact` | packages/certification-harness/src/index.ts:187-228 | on every journal with named failures a retry is safe iff nothing awaits reconciliation or an answer and: if the last terminal event is a flow failure with a code, that code recovers and no approval is open at a failure it stands for; otherwise the last outcome is a failure with a recovery code and no approval of its transaction since its previous outcome is open at it |
| `Recovery.ActionDecides` | packages/certification-harness/src/index.ts:187-228 | every journal and every action: manual reconciliation iff one is required or a request is unanswered; else nothing iff it ends completed or cancelled or the code in force is a decline; else a reversal iff an approval stands at the failure it settles on; else a safe retry iff that code tells of an offline or unavailable host or device; else a review |
| `Recovery.SafeRetryDecides` | packages/certification-harness/src/index.ts:187-228 | when no flow failure carries a code, as the runtime writes them, only the second case is left |
| `Recovery.CodedDecides` | packages/certification-harness/src/index.ts:603-634 | a code on the last flow failure replaces the code of the outcome, but approvals are still checked when that outcome is a failure |
| `Recovery.SafeRetryTrusted` | packages/certification-harness/src/index.ts:459-535 | when a retry is safe and settles on a failure, its transaction has no approval open anywhere in the journal iff none comes after that failure |
| `Recovery.LateEventsIgnored` | packages/certification-harness/src/index.ts:459-535 | whatever follows the last terminal event leaves the classification alone as long as it leaves alone whether a request is unanswered |
| `Recovery.SafeRetryAllAnswered` | packages/certification-harness/src/index.ts:195-199 | a safe retry in a journal whose results follow requests leaves no request unanswered |
| `Recovery.FlowCodeSkipsApprovals` | packages/certification-harness/src/index.ts:618-620 | a last flow failure with a recovery code that stands for no failed transaction is called safe whatever was approved |
| `Recovery.FlowCodeHidesApproval` | packages/certification-harness/src/index.ts:187-228 | a strictly valid journal of that kind, with an approved and completed transaction |
| `Recovery.LateApprovalIgnored` | packages/certification-harness/src/index.ts:465-472 | a strictly valid, codeless journal called safe although an approval follows the failure it settles on |
| `Recovery.PendingAgrees` | packages/certification-harness/src/index.ts:475-492 | the harness count of unresolved authorizations equals the pending map of the replayer |
| `Recovery.OutcomeAgrees` | packages/certification-harness/src/index.ts:585-601 | when replay ends terminal the backward scan finds that outcome, reconciliation read as failed |
| `Recovery.SettlingSettles` | packages/certification-harness/src/index.ts:504-515 | the scan settles on an outcome iff it is the last one and a flow failure after it has no boundary in between |
| `Recovery.ApprovalsInWindow` | packages/certification-harness/src/index.ts:525-534 | the window from the previous outcome holds an approval iff an approval is still open at the terminal |
| `Recovery.LastTerminal` | packages/certification-harness/src/index.ts:504-514 | the backward scan finds the last terminal event |
| `Recovery.PreviousOutcome` | packages/certification-harness/src/index.ts:636-660 | the scan finds the last outcome with no boundary after it |
| `Recovery.NoPreviousOutcome` | packages/certification-harness/src/index.ts:642-649 | when it finds nothing a boundary follows every outcome |
| `Recovery.LastOutcomeOf` | packages/certification-harness/src/index.ts:525-533 | the scan finds the previous outcome of the same transaction |
| `Recovery.LastOccurrence` | packages/certification-harness/src/index.ts:494-535 | the window lies in the journal and ends at the terminal event |
| `Recovery.JournalOutcome` | packages/certification-harness/src/index.ts:585-601 | the loop reads the outcome off the last terminal event |
| `Recovery.PreviousTransactionTerminal` | packages/certification-harness/src/index.ts:636-660 | the loop is the specified scan |
| `Recovery.TerminalFailureCode` | packages/certification-harness/src/index.ts:603-634 | the loop gives the code of the settling failure, or of the flow failure when it has one |
| `Recovery.LastTerminalOccurrence` | packages/certification-harness/src/index.ts:494-535 | the two loops give the specified window |
| `Recovery.HasApprovedAuthorization` | packages/certification-harness/src/index.ts:459-473 | true iff the window holds an approval of the transaction |
| `Recovery.PendingAuthorizationTransactions` | packages/certification-harness/src/index.ts:475-492 | the loop on its map gives the unresolved transactions |
| `Recovery.ClassifyRecovery` | packages/certification-harness/src/index.ts:187-228 | the method over the scans gives the action that ActionDecides characterises |
| `DeviceGateway.UncertainReconciles` | packages/device-gateway/src/websocket.ts:115-296 | with the bound command in the indeterminate set, every run in which the command was sent and no valid reply came in time ends pending or with reconciliation_required: no completion, plain failure, exception or booking |
| `DeviceGateway.ReconciliationDecides` | packages/device-gateway/src/websocket.ts:361-376 | that promise holds for a binding iff its command is in the set |
| `DeviceGateway.ReboundCommandFails` | packages/device-gateway/src/websocket.ts:361-376 | for every command outside it: the connection closes after the send and the journal says transaction.failed |
| `DeviceGateway.NeverFalseSuccess` | packages/atm-modules/src/index.ts:394-421 | for any command: sent at most once, and without an answer in time no run completes or books money |
| `DeviceGateway.AnswerDecides` | packages/atm-modules/src/index.ts:408-447 | over every run with a valid reply in time: the exchange settles with it after one send, and journal and booking are what ResumeDecides says of it |
| `DeviceGateway.ResumeDecides` | packages/atm-modules/src/index.ts:394-447 | over every run, once the module goes on: reconciliation if the call timer was first, nothing if the exchange rejected or the client threw, otherwise exactly what the reply says |
| `DeviceGateway.UnansweredDecides` | packages/device-gateway/src/websocket.ts:327-376 | over every run that ends without an answer: rejected iff the signal ended it and it may be repeated; otherwise the reply carries exactly one advice, reconciliation iff sent under an indeterminate command, a review iff sent under another and garbled or not idempotent, else a safe retry, with code and flags to match |
| `DeviceGateway.UnsentFailsPlainly` | packages/device-gateway/src/websocket.ts:327-376 | over every run in which nothing was sent: gateway unavailable and safe to retry, and a plain failure or nothing in the journal unless the call timer was first |
| `DeviceGateway.ExchangeKeeps` | packages/device-gateway/src/websocket.ts:115-296 | one callback: which ones send, which ones end the exchange, that it settles once and sends once, and that sent but unanswered is reported as indeterminate |
| `DeviceGateway.StepKeeps` | packages/atm-modules/src/index.ts:617-700 | each event keeps the invariants, and settled results, calls and journals never change |
| `DeviceGateway.RunKeeps` | packages/atm-modules/src/index.ts:617-700 | so does every run |
| `DeviceGateway.WebSocketExchange.Finish` | packages/device-gateway/src/websocket.ts:146-159 | settling twice changes nothing the second time |
| `DeviceGateway.WebSocketExchange.RecoverFrom` | packages/device-gateway/src/websocket.ts:160-171 | settles with the recovery reply of the phase and of whether it was sent |
| `DeviceGateway.WebSocketExchange.AbortSignalled` | packages/device-gateway/src/websocket.ts:172-190 | after a send that is not safe to repeat an abort is a recovery, otherwise a rejection |
| `DeviceGateway.WebSocketExchange.Opened` | packages/device-gateway/src/websocket.ts:191-220 | sends exactly once, and only when neither aborted, late nor on a wrong subprotocol |
| `DeviceGateway.WebSocketExchange.MessageArrived` | packages/device-gateway/src/websocket.ts:221-257 | only a valid reply in time settles as an answer |
| `DeviceGateway.WebSocketExchange.CreateSocket` | packages/device-gateway/src/websocket.ts:104-112 | an aborted creation rejects, a late or failed one settles as not sent |
| `DeviceGateway.WebSocketExchange.Dispatch` | packages/device-gateway/src/websocket.ts:191-273 | every callback is the specified step |
| `Xfs4Iot.CommandsAccounted` | packages/xfs4iot-client/src/client.ts:194-273 | over every order of callbacks that draws no id of a loose command: each command is sent at most once and pending exactly until it settles, limits hold, a failure reports the request as sent iff it was sent or rejected by acknowledgement, and a failed state-changing command is indeterminate iff sent and not so rejected, so nothing sent is called safe to retry |
| `Xfs4Iot.RunStays` | packages/xfs4iot-client/src/client.ts:809-836 | over every such order a settled command keeps its outcome and is never sent afterwards |
| `Xfs4IotOutcomes.StepAfter` | packages/xfs4iot-client/src/client.ts:307-408 | a callback does to each command exactly what its own side says: which callback ends it and with what outcome, and which one sends it |
| `Xfs4IotOutcomes.OutcomeDecides` | packages/xfs4iot-client/src/client.ts:194-408 | over every such run a command has an outcome iff some callback ended it so while it was pending |
| `Xfs4IotOutcomes.CompletionDecides` | packages/xfs4iot-client/src/client.ts:666-688 | a command is completed iff a completion of its own id, name and version arrived on an open connection while it was pending |
| `Xfs4IotOutcomes.FailureDecides` | packages/xfs4iot-client/src/client.ts:734-807 | each failure code goes back to a callback that can cause it: deadline to timer or late send, aborted to signal, connection lost to the socket, and so on |
| `Xfs4IotOutcomes.SendDecides` | packages/xfs4iot-client/src/client.ts:361-408 | a command was sent iff its send went on while it was pending, in time, unsignalled and connected, and the socket took it |
| `Xfs4IotOutcomes.CallExact` | packages/xfs4iot-client/src/client.ts:194-273 | a call is accepted iff the client is open, below its limit, the message small enough and the id free, and what command it starts |
| `Xfs4IotOutcomes.AppendsExact` | packages/xfs4iot-client/src/client.ts:761-807 | no other command comes to be but the cancellation of a sent one that its timer or signal ends, when that is taken |
| `Xfs4IotOutcomes.ConnectionExact` | packages/xfs4iot-client/src/client.ts:307-330 | when the client is connected and when it is closed |
| `Xfs4IotOutcomes.RoutedExact` | packages/xfs4iot-client/src/client.ts:690-720 | events are kept in order, each marked as of a pending command, unsolicited or orphaned |
| `Xfs4Iot.StepStays` | packages/xfs4iot-client/src/client.ts:809-836 | no callback changes an outcome |
| `Xfs4Iot.StepKeeps` | packages/xfs4iot-client/src/client.ts:194-408 | each callback keeps the invariants |
| `Xfs4Iot.SettleKeeps` | packages/xfs4iot-client/src/client.ts:825-836 | removing a command keeps the pending map exact |
| `Xfs4Iot.FailAllKeeps` | packages/xfs4iot-client/src/client.ts:734-759 | a disconnect, protocol error or close settles every pending command honestly |
| `Xfs4Iot.EndKeeps` | packages/xfs4iot-client/src/client.ts:761-807 | timeout and abort, with their best-effort cancellation, keep the invariants |
| `Xfs4Iot.SendKeeps` | packages/xfs4iot-client/src/client.ts:361-407 | the continuation of a send keeps the invariants |
| `Xfs4Iot.IdStandsForOne` | packages/xfs4iot-client/src/client.ts:361-373 | with no id of a loose command drawn, a send that goes on in time and finds its id pending finds its own command |
| `Xfs4Iot.BacklogStep` | packages/xfs4iot-client/src/client.ts:703-712 | shift and push keep the backlog the last events up to its limit |
| `Xfs4Iot.AcknowledgedBeforeSend` | packages/xfs4iot-client/src/client.ts:648-663 | whenever a rejecting acknowledgement reaches a pending command that was not sent, it fails with the request reported as sent |
| `Xfs4Iot.ReuseDecides` | packages/xfs4iot-client/src/client.ts:361-373 | a call is safe for the commands already settled iff it is refused, aborted at once, or its id is that of no loose command: exactly then no way to go on sends one of them |
| `Xfs4Iot.LooseIdSends` | packages/xfs4iot-client/src/client.ts:361-407 | drawing the id of any loose command: once the connection is there the settled command is sent |
| `Xfs4Iot.ReusedIdSendsSettled` | packages/xfs4iot-client/src/client.ts:361-407 | a run that gets there: a dispense waiting for a new connection fails with the old one as safe to retry, its id is drawn again, and it can be sent after all |
| `Xfs4Iot.Xfs4IotClient.RemovePending` | packages/xfs4iot-client/src/client.ts:825-836 | true iff the command was still pending; it is settled and out of the map afterwards |
| `Xfs4Iot.Xfs4IotClient.RejectPending` | packages/xfs4iot-client/src/client.ts:817-823 | settles with the failure of its current send state |
| `Xfs4Iot.Xfs4IotClient.RejectAll` | packages/xfs4iot-client/src/client.ts:744-758 | the loop over the map settles every pending command and empties it |
| `Xfs4Iot.Xfs4IotClient.ExecuteCommand` | packages/xfs4iot-client/src/client.ts:194-273 | accepted iff open, below the limit, small enough and with a free id; then pending, or already aborted |
| `Xfs4Iot.Xfs4IotClient.EndPending` | packages/xfs4iot-client/src/client.ts:761-807 | the command fails, and one already sent is cancelled |
| `Xfs4Iot.Xfs4IotClient.TimerFires` | packages/xfs4iot-client/src/client.ts:256-256 | the timer of a pending command fails it with deadline exceeded |
| `Xfs4Iot.Xfs4IotClient.SignalAborts` | packages/xfs4iot-client/src/client.ts:262-265 | the signal of a pending command fails it as aborted |
| `Xfs4Iot.Xfs4IotClient.HandleAcknowledge` | packages/xfs4iot-client/src/client.ts:629-664 | wrong name fails it, a status rejects it, anything else leaves it pending |
| `Xfs4Iot.Xfs4IotClient.HandleCompletion` | packages/xfs4iot-client/src/client.ts:666-688 | completes it iff name and version match, fails it otherwise |
| `Xfs4Iot.Xfs4IotClient.RouteEvent` | packages/xfs4iot-client/src/client.ts:690-720 | the event is routed and the oldest dropped from a full backlog |
| `Xfs4Iot.Xfs4IotClient.CloseClient` | packages/xfs4iot-client/src/client.ts:307-330 | closing fails everything pending, once |
| `Xfs4Iot.Xfs4IotClient.SendWhenConnected` | packages/xfs4iot-client/src/client.ts:361-407 | at most one hand-over to the socket, only for a pending command |

## Left out

- HTTP servers, user interfaces, campaign manifests, packaging, command lines: input, output and presentation.
- Sockets, TLS, URL and subprotocol validation, real timers, `lstat` and inode checks: actions of the state machines. Exclusive create and rename are assumed atomic, and a send that throws is assumed not to have sent.
- `JSON.parse`: for the reversal log a parameter that reads back the events the store prints and reads only text with balanced brackets; `ReversalStore.ReaderExists` shows such readers exist. A number is the text JavaScript prints for it.
- Lone surrogates and UTF-16 lengths of characters beyond the basic plane: a character is a Unicode scalar value. A character cut in the middle is read as one U+FFFD, as decoders of UTF-8 do.
- JSON text of values that are not plain JSON (circular, undefined, accessors, symbol keys): the printer refuses them before anything modelled here.
- `boundedJsonStringify` of the device gateway: the same budgeted printer as `CanonicalJson.StableStringify` without the key sort.
- `toMinorUnits` and its helpers, and fractional amounts: floating point; amounts here are integers, account balances unbounded.
- Simulator profile ids, currency blanks and prompt queues: one-branch checks. The floating sum in `inventoryTotal` is taken as exact below the safe-integer bound.
- Simulator.RuntimeSimulator.constructor: its `requires` are the rejections of the source's constructor, which `Simulator.RuntimeSimulator.Create` models as error results.
- Lock tokens are unique naturals in place of UUIDs, and a waiting call may retry for ever or give up; fairness, and liveness after an abandoned lock, are not promised by the code either.
- ReversalEvents.EventRoundTrip: the keys of an intent come in one fixed order, where the store writes them in the order its caller gave.
- Redaction of failure texts before `markFailed` stores them: the text arrives already scrubbed to 1 to 500 characters.
- ReversalProcessor.ProcessingSafe: transitions come from processors only, as in the repository; other clients may enqueue. "In flight" means among live processes: a request whose process crashed may still be answered.
- Map iteration order among reversals with equal creation time.
- Replay state that only keeps the last value seen (accounts, amounts, currency, devices), frames themselves, session order in the report, each session's own copy of its issues and its `valid` flag, and the partial unanchored entry point: they add no condition to what is decided here.
- Event payload validation beyond the fields replay and recovery read: a parameter that accepts or rejects a line.
- Recovery.OutcomeAgrees: says nothing when replay does not end terminal, where the two differ by design.
- Certification suites, digests and reports: SHA-256 and formatting.
- XFS4IoT payload tables, diagnostics, listeners and the reconnect schedule: a connection opens, is lost, or a command learns that it could not be had.
- Clocks that step back and timers that fire before their deadline: a command whose own timer has fired finds itself late when its send goes on.
- StanAllocator.DurableStanAllocator.NextTrace: calls of one object run one after another, and a lock that is taken stays taken until the call gives up; what other processes do meanwhile is the subject of the run theorems.
- ReversalProcessor.Processor.Process: likewise, and of the store calls only a refused attempt raises; `ReversalProcessor.ProcessingSafe` has every other ending.
- Receipt printing and status commands of the gateway: one-branch replies.
