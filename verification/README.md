# Verified models of firedancer-rs

Dafny models of four parts of firedancer-rs, with proofs of what each of them promises.

**The transaction builder.** A builder interns account keys, merges their signer and writable flags over many
calls, packs instructions into two buffers, and in `build` sorts the accounts, remaps every index, counts roles
into a three-byte header and serialises everything under a size limit. `Builder` is the state as a value with one
function per call; `History` explains the state after any run of calls from the calls alone; `Ordering`, `Compile`
and `Writer` are the sort, the compiled message and the bounded writes; `TransactionBuilder` and
`UnsignedTransaction` are the classes with their tables and buffers updated in place, proved equal to the
functions. `Wire` is a printer and a reference parser for the wire format, mutually inverse, over the compact-u16
format of `CompactU16`. `EndToEnd` puts these together: whatever calls were made, failed ones included, a built
transaction parses back to exactly what was asked for, and the order of unrelated calls does not matter.

The generated limits (accounts, instructions, MTU, signatures) are a parameter: the theorems hold for all values
with at most 255 accounts, 65535 instructions and bytes, and 127 signatures. The parser that `build` calls last
is a parameter that may accept or reject. The flag byte is a pair of booleans. A panicking `fee_payer` is a
precondition of the method and an outcome of its own, with the state unchanged, in runs. Instruction accounts are
remapped into a sequence that is then written, where the program writes each byte as it remaps it.

**The span tracker.** `Tracker` has every method as one atomic step, `TrackerRuns` proves what holds over all runs
of all threads, and `TrackerAnswers` what the queries answer, from the events alone. `TrackerLocks` takes lock acquisition, the work under each lock and lock release as separate
steps and proves that every interleaving is a serial run of the atomic methods, in an order that respects real
time. There a lock may grant anything that keeps a writer alone, so the result holds for every queueing policy.
`TrackerDeadlock` takes the locks as task-fair, as those of `parking_lot` are: a read can be refused while a writer
waits. It says in which states nobody can go on and which sets of calls can get there. `SpanTracker` is the class.
The calling thread is a parameter.

**JSON trees.** `Json` converts between JSON values and cJSON trees in both directions; `JsonMeaning` says which value
a tree denotes and which fault it is refused for, and `Unicode` which byte strings are well-formed. Hash-map
iteration order is an arbitrary choice in the loop. Strings are bytes, well-formed UTF-8 on the Rust side and NUL-terminated on the C
side. Numbers are the bits of a double. Allocation succeeds.

**Program-derived addresses.** `ProgramAddress` is the bump search and direct creation, `Curve` the curve test.
SHA-256 is a function of the bytes appended; square roots and point conversions are parameters with the contract
of RFC 8032, sections 5.1.2 and 5.1.3. Decompression may accept or refuse encodings that are not canonical.

Where the code differs from what one might expect:

- `build` refuses some transactions whose size is at most the limit, up to two bytes below it, because the check
  before a compact-u16 always asks for three bytes. `BuildIsDecided` gives the exact rule and `RefusedAtLimit` a
  run, with a limit of 1232 bytes among others.
- A failed `add_instruction` keeps the accounts, roles and account bytes it had added, and those bytes can make a
  later call fail (`FailureTrace`, `FailureCanStarve`).
- Closing a span that is not on top of the closing thread's stack leaves wrong depths and parents (`TidyIff`,
  `OwnCloseMisnumbers`); entering an unknown span can leave an empty stack (`EmptyStackIff`).
- The tracker can deadlock: an enter against a close, or an enter, a stats and a call that creates or records a span.
  `WorkloadDeadlockIff` shows that these are the only ways, and `SafeCompletes` that other sets of calls always
  complete.
- The search for an address is documented as always finding one; the code tries 255 down to 1 and can fail. With
  sixteen seeds, creation refuses the seeds plus the bump that the search returned (`FindThenCreate`). Search and
  creation use different curve tests: creation accepts an address that the search skips exactly when it is an
  encoding of a curve point that is not canonical (`TestsDifferIff`), such as that of y = P + 1 (`TestsDiffer`).

`dafny verify dfyconfig.toml` checks the whole project.

## Model

| member | source | states |
|---|---|---|
| CompactU16.EncodeLayout | crates/ballet/txn/fd_txn/src/lib.rs:441-450 | groups of seven bits, low group first, high bit on all bytes but the last, last group not zero |
| CompactU16.DecodeEncode | crates/ballet/txn/fd_txn/src/lib.rs:441-464 | decoding an encoding followed by any bytes returns the value and the exact length |
| CompactU16.DecodeCanonical | crates/ballet/txn/fd_txn_sys/src/lib.rs:52-66 | an accepted prefix is the encoding of the value returned |
| CompactU16.AcceptedIffEncoded | crates/ballet/txn/fd_txn_sys/src/lib.rs:137-151 | input is accepted if and only if it starts with the encoding of some value, so truncated and non-minimal forms are rejected |
| CompactU16.PrefixFree | crates/ballet/txn/fd_txn/src/lib.rs:441-450 | no encoding is a proper prefix of another |
| CompactU16.EncodedSize | crates/ballet/txn/fd_txn_sys/src/lib.rs:113-134 | the one-, two- and three-byte ranges are the lengths of the encodings |
| Wire.TxnRoundTrip | crates/ballet/txn/fd_txn/src/lib.rs:157-171 | parsing a printed transaction followed by anything returns the transaction and exactly what follows |
| Wire.MessageStart | crates/ballet/txn/fd_txn/src/builder.rs:355-367 | a legacy message starts with its three counts, a versioned one with 0x80 and then the counts |
| Wire.TxnInverse | crates/ballet/txn/fd_txn/src/lib.rs:186-218 | every accepted byte string is the print of the transaction returned, so encodings are unique |
| Builder.Find | crates/ballet/txn/fd_txn/src/builder.rs:436-438 | the first index holding the key, or none if it is absent |
| Builder.InternOk | crates/ballet/txn/fd_txn/src/builder.rs:440-452 | interning keeps the state invariant, only grows the table, and returns an index that holds the key |
| Builder.AddMetasOk | crates/ballet/txn/fd_txn/src/builder.rs:252-266 | the account loop keeps the invariant even when it stops early, and on success the pushed bytes name the accounts in order |
| Builder.StoredGrown | crates/ballet/txn/fd_txn/src/builder.rs:245-286 | growing the tables and buffers does not change what a stored entry means |
| Builder.StepInstructionOk | crates/ballet/txn/fd_txn/src/builder.rs:245-286 | an accepted instruction is stored with exactly its program, accounts and data, in fresh ranges, with no narrowing loss; a failed one stores nothing |
| Builder.StepOk | crates/ballet/txn/fd_txn/src/builder.rs:212-286 | every call keeps distinct keys, in-range indices and disjoint ranges, and only grows tables and widens roles; when `fee_payer` panics |
| History.AcceptedIff | crates/ballet/txn/fd_txn/src/builder.rs:245-271 | an instruction is accepted if and only if entries, distinct keys, account bytes and data bytes all fit |
| History.StepDecided | crates/ballet/txn/fd_txn/src/builder.rs:217-286 | which outcome a call has, with its error, from counts of entries, distinct keys and bytes: too many instructions, then too many accounts, then data too large |
| History.ReachedIs | crates/ballet/txn/fd_txn/src/builder.rs:252-266 | how many accounts of a failing instruction have their flags merged, from the same counts; the one that finds the buffer full is among them |
| History.RolesAreRequested | crates/ballet/txn/fd_txn/src/builder.rs:217-266 | after any run the table holds exactly the keys asked for and a flag is set if and only if some request asked for it |
| History.SettingsAreLast | crates/ballet/txn/fd_txn/src/builder.rs:212-237 | version, blockhash and payer are those of the last call that set them |
| History.EntriesMeanAccepted | crates/ballet/txn/fd_txn/src/builder.rs:245-286 | after any run the entries mean exactly the accepted instructions in order |
| History.FailureIsHarmless | crates/ballet/txn/fd_txn/src/builder.rs:245-286 | a failed call leaves accepted instructions and settings as they were; it can only add accounts and account bytes and widen roles |
| History.FailureTrace | crates/ballet/txn/fd_txn/src/builder.rs:245-266 | a failed call leaves the state unchanged if and only if all it asked for was granted already and it had no account byte to push |
| History.FailureCanStarve | crates/ballet/txn/fd_txn/src/builder.rs:261-271 | under all limits with at least two accounts, one instruction and one byte, a failed call after which an instruction that succeeds alone is refused |
| Ordering.SortKey | crates/ballet/txn/fd_txn/src/builder.rs:495-502 | the four classes: signers are the two lower ones, writables the even ones |
| Ordering.OrderIsOrder | crates/ballet/txn/fd_txn/src/builder.rs:299-309 | the order lists every table index once, strictly ascending under the comparator |
| Ordering.OrderUnique | crates/ballet/txn/fd_txn/src/builder.rs:303-309 | the comparator is total: any sorted permutation is the same sequence |
| Ordering.ClassesInOrder | crates/ballet/txn/fd_txn/src/builder.rs:303-309 | the fee payer is first, the role classes follow in order, and inside a class insertion order is kept |
| Ordering.RemapInverts | crates/ballet/txn/fd_txn/src/builder.rs:311-314 | the remap table is the two-sided inverse of the order |
| Ordering.CountIsPosition | crates/ballet/txn/fd_txn/src/builder.rs:316-332 | along the order, the accounts up to a class are exactly the first so many |
| Ordering.SortIndices | crates/ballet/txn/fd_txn/src/builder.rs:299-309 | the in-place sort leaves the index array equal to the order |
| Compile.RemapKeepsKey | crates/ballet/txn/fd_txn/src/builder.rs:311-314 | a remapped index, narrowed to a byte, still denotes the same key |
| Compile.EntryMeaningKept | crates/ballet/txn/fd_txn/src/builder.rs:387-418 | resolving a compiled instruction against the compiled keys gives what the entry stored |
| Compile.HeaderRecoversRoles | crates/ballet/txn/fd_txn/src/builder.rs:316-332 | position and the three header counts recover each account's signer and writable flags; the payer is account 0 |
| Compile.HeaderTallies | crates/ballet/txn/fd_txn/src/builder.rs:316-332 | the header is the number of signers, of read-only signers and of read-only others in the table |
| Compile.KeysPermuted | crates/ballet/txn/fd_txn/src/builder.rs:369-377 | the message lists every table key exactly once |
| Compile.PiecesPrint | crates/ballet/txn/fd_txn/src/builder.rs:342-422 | the writes of `build`, in order, spell the printed transaction |
| Compile.FitsIffSize | crates/ballet/txn/fd_txn/src/builder.rs:342-422 | all bounds checks succeed if and only if the size plus the slack of the last compact-u16 check is within the limit |
| Compile.SizeIsClosedForm | crates/ballet/txn/fd_txn/src/builder.rs:342-424 | the length is the closed-form sum of all fields |
| Compile.BuildIsDecided | crates/ballet/txn/fd_txn/src/builder.rs:288-424 | which error or success `build` gives, as conditions on the table and entries; too large exactly when size plus slack exceeds the limit |
| EndToEnd.RefusedAtLimit | crates/ballet/txn/fd_txn/src/builder.rs:408-425 | a run whose transaction has exactly the size of the limit and is refused as too large |
| Writer.WriteCu16 | crates/ballet/txn/fd_txn/src/builder.rs:504-511 | appends the encoding and stays in bounds, or refuses, and then the transaction as a whole cannot pass its checks |
| Writer.WriteHead | crates/ballet/txn/fd_txn/src/builder.rs:342-369 | signature slots stay zero, then version tag, header and account count; the offsets point at the slots and the message |
| TransactionBuilder.TransactionBuilder.constructor | crates/ballet/txn/fd_txn/src/builder.rs:195-210 | a new builder is the empty state |
| TransactionBuilder.TransactionBuilder.FindAccount | crates/ballet/txn/fd_txn/src/builder.rs:436-438 | the search loop returns the first index of the key |
| TransactionBuilder.TransactionBuilder.FindOrInsert | crates/ballet/txn/fd_txn/src/builder.rs:440-452 | the in-place insert is interning; too many accounts if and only if the key is new and the table full |
| TransactionBuilder.TransactionBuilder.SetFeePayer | crates/ballet/txn/fd_txn/src/builder.rs:217-232 | the in-place call is the step and keeps the invariant; it must not be called on a full table with a new key |
| TransactionBuilder.TransactionBuilder.AddSigner | crates/ballet/txn/fd_txn/src/builder.rs:239-243 | the in-place call is the step, with the outcome that the counts decide |
| TransactionBuilder.TransactionBuilder.AddInstruction | crates/ballet/txn/fd_txn/src/builder.rs:245-286 | the in-place call is the step, on every early exit too, with the outcome that the counts decide |
| TransactionBuilder.TransactionBuilder.InvertOrder | crates/ballet/txn/fd_txn/src/builder.rs:311-314 | the loop fills the inverse of the order |
| TransactionBuilder.TransactionBuilder.CountRoles | crates/ballet/txn/fd_txn/src/builder.rs:316-332 | the three byte counters end at the class counts without overflow |
| TransactionBuilder.TransactionBuilder.Build | crates/ballet/txn/fd_txn/src/builder.rs:288-434 | returns the bytes and offsets of the compiled transaction, or the error the decision rule gives, or a rejection by the validator |
| UnsignedTransaction.UnsignedTransaction.SetSignature | crates/ballet/txn/fd_txn/src/builder.rs:473-480 | replaces that signature of the represented transaction and changes no other byte |
| UnsignedTransaction.UnsignedTransaction.MessageBytes | crates/ballet/txn/fd_txn/src/builder.rs:486-488 | returns exactly the printed message |
| UnsignedTransaction.SigningIsConfined | crates/ballet/txn/fd_txn/src/builder.rs:472-488 | after any sequence of writes the message bytes are unchanged and parsing gives the same message with each slot holding its last signature |
| EndToEnd.RoundTrip | crates/ballet/txn/fd_txn/src/builder.rs:288-434 | for every run of calls, a built transaction is consumed exactly by the parser, is within the limit, has zero signatures and says exactly what was asked: settings, accounts with roles, accepted instructions in order |
| EndToEnd.OrderIndependence | crates/ballet/txn/fd_txn/src/builder.rs:212-309 | runs that asked for the same things give the same error or transactions of equal length with the same header, accounts, roles and instructions |
| EndToEnd.AllDoneIff | crates/ballet/txn/fd_txn/src/builder.rs:212-286 | all calls of a sequence succeed if and only if the totals of instructions, distinct keys, account bytes and data bytes are within the limits |
| EndToEnd.InterleavingsAskTheSame | crates/ballet/txn/fd_txn/src/builder.rs:212-286 | successful calls interleaved differently, with the same instruction order, payer and signer keys and final settings, succeed as well and ask for the same things |
| Tracker.TotalSplit | crates/composites/tracing/src/span.rs:175-184 | the sum over stacks does not depend on the order in which threads are visited |
| TrackerRuns.RunIsolated | crates/composites/tracing/src/span.rs:57-105 | steps of other threads change neither a thread's stack nor whether it has one |
| TrackerRuns.RunWellKeyed | crates/composites/tracing/src/span.rs:52-55 | every span stays stored under its own id |
| TrackerRuns.KnownIff | crates/composites/tracing/src/span.rs:52-112 | after any run a span is known if and only if some event created it and none closed it since |
| TrackerRuns.FieldIsLastWrite | crates/composites/tracing/src/span.rs:52-112 | after any run a field of a known span has a value if and only if the last event that creates the span or records that field wrote it |
| TrackerAnswers.AttributesAreCreated | crates/composites/tracing/src/span.rs:52-112 | after any run every attribute of a known span but its fields is that of its last creation |
| TrackerAnswers.GetSpanAnswers | crates/composites/tracing/src/span.rs:157-159 | nothing for a span not created or closed since, else the attributes of its last creation and the fields written last |
| TrackerAnswers.CurrentStackAnswers | crates/composites/tracing/src/span.rs:135-155 | one context for each of an increasing sequence of the thread's own enters, with name, target, level and fields as the events before that enter made them and the depth and parent of that moment |
| TrackerAnswers.CurrentContextAnswers | crates/composites/tracing/src/span.rs:114-133 | absent if and only if the stack is empty, else the last of the stack; the depth is the height of the stack |
| TrackerAnswers.TotalSpansAnswers | crates/composites/tracing/src/span.rs:175-184 | `total_spans` is the number of ids created and not closed since |
| TrackerRuns.ActiveSpansConserved | crates/composites/tracing/src/span.rs:57-105 | after every run `active_spans` is pushes minus pops minus entries removed by close |
| TrackerRuns.EmptyStackIff | crates/composites/tracing/src/span.rs:57-72 | a step leaves an empty stack if and only if it enters an unknown span on a thread without a stack |
| TrackerRuns.ActiveThreadsExact | crates/composites/tracing/src/span.rs:175-184 | if every enter names a live span, `active_threads` counts exactly the threads with an open entry |
| TrackerRuns.DepthBound | crates/composites/tracing/src/span.rs:62-71 | in every reachable state each depth is at least the index |
| TrackerRuns.CloseTidyIff | crates/composites/tracing/src/span.rs:98-99 | closing keeps depths and parents right if and only if the closed span's entries are all on top |
| TrackerRuns.TidyIff | crates/composites/tracing/src/span.rs:57-105 | all through a run depth is the index and the parent is the entry below if and only if every close finds its span's entries on top of its thread's stack |
| TrackerRuns.OwnCloseMisnumbers | crates/composites/tracing/src/span.rs:91-105 | a run after which depth and parent are wrong |
| TrackerRuns.BalancedRestores | crates/composites/tracing/src/span.rs:57-89 | a thread's well-nested enters and exits restore its stack whatever other threads do |
| TrackerLocks.LocksKept | crates/composites/tracing/src/span.rs:52-184 | each lock records exactly its holders and a writer is alone, at every step |
| TrackerLocks.QuietSteps | crates/composites/tracing/src/span.rs:57-105 | acquiring, releasing and the first half of an enter or close are invisible to others |
| TrackerLocks.CommitIsAtomic | crates/composites/tracing/src/span.rs:52-184 | the completing step does to the abstract state what the atomic method does, with the same answer |
| TrackerLocks.Serializable | crates/composites/tracing/src/span.rs:52-184 | every interleaving has a serial order, consistent with each thread's returns, giving every answer and the quiescent state |
| TrackerLocks.RealTime | crates/composites/tracing/src/span.rs:52-184 | cut a schedule anywhere: every method that had returned stands in the serial order before every method that began at the cut or later |
| TrackerDeadlock.DeadlockIff | crates/composites/tracing/src/span.rs:57-184 | with task-fair locks no method can go on if and only if an enter holds the stacks and waits for a close that holds the spans, or behind a writer of the spans that waits for a stats, and no other reader of the spans is on its way |
| TrackerDeadlock.KnotForever | crates/composites/tracing/src/span.rs:57-184 | once that cycle of waits exists, the enter never takes another step, whatever else is scheduled |
| TrackerDeadlock.PairDeadlocks | crates/composites/tracing/src/span.rs:57-96 | a six-step schedule of an enter and a close that deadlocks |
| TrackerDeadlock.TripleDeadlocks | crates/composites/tracing/src/span.rs:52-184 | a seven-step schedule of a stats, an enter and a creation or recording that deadlocks |
| TrackerDeadlock.WorkloadDeadlockIff | crates/composites/tracing/src/span.rs:52-184 | a set of calls can deadlock if and only if it has an enter and a close on two threads, or an enter, a stats and a creation or recording on three |
| TrackerDeadlock.QueriesNeverWait | crates/composites/tracing/src/span.rs:114-184 | while only queries are in progress every one of them can go on |
| TrackerDeadlock.SafeCompletes | crates/composites/tracing/src/span.rs:52-184 | for any other set of calls, from wherever a schedule has led, all calls in progress can be completed |
| SpanTracker.SpanTracker.OnEnter | crates/composites/tracing/src/span.rs:57-72 | the in-place method is the atomic step |
| SpanTracker.SpanTracker.OnExit | crates/composites/tracing/src/span.rs:74-89 | the in-place method is the atomic step |
| SpanTracker.SpanTracker.OnClose | crates/composites/tracing/src/span.rs:91-105 | the in-place method is the atomic step |
| SpanTracker.SpanTracker.OnRecord | crates/composites/tracing/src/span.rs:107-112 | the in-place method is the atomic step |
| SpanTracker.SpanTracker.CurrentStack | crates/composites/tracing/src/span.rs:135-155 | the loop returns the contexts of the stack in order |
| SpanTracker.SpanTracker.Stats | crates/composites/tracing/src/span.rs:175-184 | the loop, in any thread order, returns the three counts |
| Json.FromCJson | crates/ballet/json/fd_json/src/lib.rs:211-262 | the loops read a tree as the recursive reading does, first error included |
| Unicode.Utf8Iff | crates/ballet/json/fd_json/src/lib.rs:223-233 | a byte string is accepted if and only if it is the encoding of some sequence of Unicode scalar values |
| JsonMeaning.EncodingRead | crates/ballet/json/fd_json/src/lib.rs:223-233 | every encoding without NUL, stored as a C string in front of anything, is read back whole |
| JsonMeaning.ReadDenotes | crates/ballet/json/fd_json/src/lib.rs:211-262 | a tree reads as a value if and only if it denotes it: kinds, numbers, bytes before the first NUL, items in order, the last child under each key |
| JsonMeaning.ReadRejects | crates/ballet/json/fd_json/src/lib.rs:211-262 | a tree is refused with an error if and only if that is its first fault, a key before its value |
| Json.ToCJson | crates/ballet/json/fd_json/src/lib.rs:265-340 | for any member order, conversion succeeds if and only if no string or key holds a NUL, and the tree reads back as the value |
| Json.ReadIsNulFree | crates/ballet/json/fd_json/src/lib.rs:211-262 | a value read from any tree is NUL-free, so it can be converted again |
| Curve.PointIsOnCurve | crates/ballet/ed25519/fd_ed25519_sys/csrc/fd_ed25519_pda.c:3-16 | the test holds if and only if some x satisfies the curve equation with the encoded y |
| Curve.CurveConstants | crates/ballet/ed25519/fd_ed25519_sys/csrc/fd_ed25519_pda.c:9-13 | the prime is 2^255 - 19 and d is -121665/121666 modulo it |
| Curve.BasePoint | crates/ballet/ed25519/fd_ed25519_sys/csrc/fd_ed25519_pda.c:3-16 | the base point of the curve satisfies the equation, has y = 4/5, and its published encoding is canonical |
| Curve.CanonicalIff | crates/ballet/ed25519/fd_ed25519/src/lib.rs:60-74 | an encoding with a point is canonical if and only if y is reduced and it is not the case that y squared is 1 and the sign bit is set |
| Curve.UnreducedPoint | crates/ballet/ed25519/fd_ed25519/src/lib.rs:60-74 | the encoding of y = P + 1 has a point and is not canonical |
| ProgramAddress.CurvePointIff | crates/ballet/ed25519/fd_ed25519/src/lib.rs:60-74 | bytes decompress and compress to themselves if and only if they are the canonical encoding of a point |
| ProgramAddress.AddressLayout | crates/ballet/ed25519/fd_ed25519/src/lib.rs:204-225 | an address is the hash of the seeds one after another, then the program, then the characters of "ProgramDerivedAddress", each at its position |
| ProgramAddress.CandidateLayout | crates/ballet/ed25519/fd_ed25519/src/lib.rs:146-174 | a candidate of the search is the same with the bump as one byte after the seeds |
| ProgramAddress.TryBump | crates/ballet/ed25519/fd_ed25519/src/lib.rs:158-174 | finishing a copied hash state gives what rehashing everything gives |
| ProgramAddress.FindProgramAddress | crates/ballet/ed25519/fd_ed25519/src/lib.rs:132-183 | returns the greatest bump in 1..255 whose address is off the curve, with the hash laid out as above, fails if and only if none is, and refuses more than 16 seeds and seeds over 32 bytes |
| ProgramAddress.CreateProgramAddress | crates/ballet/ed25519/fd_ed25519/src/lib.rs:190-232 | returns the hash laid out as above; succeeds if and only if there are at most 16 seeds of at most 32 bytes and the address is not the canonical encoding of a point |
| ProgramAddress.FindThenCreate | crates/ballet/ed25519/fd_ed25519/src/lib.rs:132-232 | creation on the seeds plus the found bump returns the found address if and only if there were fewer than sixteen seeds |
| ProgramAddress.TestsDifferIff | crates/ballet/ed25519/fd_ed25519/src/lib.rs:60-232 | creation and search disagree about a bump if and only if its address encodes a point and is not canonical, and then creation accepts |
| ProgramAddress.TestsDiffer | crates/ballet/ed25519/fd_ed25519/src/lib.rs:132-232 | with a hash value of y = P + 1 the search skips every bump and creation accepts every bump |
| ProgramAddress.ConversionsExist | crates/ballet/ed25519/fd_ed25519/src/lib.rs:60-74 | the contract of the two conversions can be met |

## Left out

- The foreign transaction parser: `validate` is an arbitrary accept-or-reject parameter, and the reference parser is written from the documented layout.
- The order inside a lock's queue: serial order is proved for every policy, and for deadlock a read counts as refusable while any writer waits.
- Curve.CanonicalIff: assumes that the prime of the field has no square factor; its primality is not proved. Only this lemma and the example with the sign bit set depend on it.
- Json.ToCJson: allocation failures and the nodes leaked by early returns are not modelled; trees are values, without pointer structure.
- ProgramAddress.FindProgramAddress: SHA-256, square roots and point conversion are parameters, not algorithms.
- `create_program_address_unchecked`, `get_span`, `current_depth` and `in_span` as methods: they repeat modelled code and would add only easy members (the two tracker queries are steps of the lock model).
- `AccountMeta` constructors, `OwnedInstruction`, error display and `From` conversions: one-line code.
- The account and instruction iterators of `Transaction`: they forward to the foreign parser.
- Build scripts, FFI wrappers, base64, zstd, base58, hex, hashing, signing, JSON text parsing and printing, tracing layers and formatting: foreign code or easy one-function facts.
