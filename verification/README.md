# Verified model of the cgo-free libvirt binding

The binding calls libvirt through a table of function pointers instead of cgo. The thin wrappers
around that table are simple; the machinery underneath owns C memory, C references, callback
tokens, thread-local errors and the symbol table itself. This project models that machinery in
Dafny and proves what it keeps, over every input and every interleaving.

Check it with `dafny verify dfyconfig.toml`.

| file | models |
|---|---|
| `Bytes.dfy`, `CHeap.dfy` | bytes, little-endian integers, and the C heap: live blocks with their bytes; malloc and calloc fail at will and may reuse addresses; free demands a live block |
| `TypedParams.dfy` | typed parameters, their normalization, the 96-byte C record and its decoding |
| `ParamArrays.dfy`, `CLayout.dfy`, `Marshaller.dfy` | arrays of records and who owns which string; the C layout of a record byte by byte; both encoding strategies and all three release strategies |
| `DomainParams.dfy` | reading arrays back, the domain as libvirt serves it with a log of what it was asked, setters, getters and the round trip |
| `Text.dfy`, `DomainStats.dfy`, `Sorting.dfy`, `StatsDecoder.dfy`, `StatsReading.dfy`, `StatsGetter.dfy` | the statistics decoder: field names as keys, the keyed last-write meaning, the imperative pass that refines it, which parameters make a difference, and the ownership of libvirt's record list |
| `DomainJob.dfy` | job statistics |
| `ObjectLists.dfy`, `HandleSteps.dfy`, `HandleInvariants.dfy`, `Handles.dfy`, `HandleProtocols.dfy` | libvirt's arrays of references; handles with their locks and the reference counts, borrowed handles included, as a step system over goroutines; what every step keeps; the theorems about all runs; what a whole call, a whole Free and a callback's handle do |
| `LockOrder.dfy` | every code path's locks over writer-preferring RWMutexes, why no run deadlocks, and what may run beside what |
| `Callbacks.dfy`, `CallbackProtocols.dfy` | callback tokens, the table of records, deliveries, the free callback and `Close`, as a step system; what each of them does from start to end |
| `NativeCall.dfy` | the lock-thread, reset, call, read-error protocol over migrating goroutines |
| `Loader.dfy`, `AbiTypes.dfy`, `Generator.dfy` | the two-phase symbol loader, the mapping of C types, and the generator whose unique names the loader relies on |

How to read the step systems: a `State`, a `Next` that gives the state after one step or `None`
when the step is not possible, and `Run`, which folds `Next` over a list of steps. A theorem about
`Run(es)` for all `es` is a theorem about every reachable state of every interleaving. What libvirt
may do is part of the steps: it may refuse a registration, deliver at any time before it starts the
free callback, run that callback at most once per accepted registration and also while a delivery
is under way, drop a close callback by itself, and fail any call. That a delivery may overlap the free
callback is an assumption about libvirt, the weaker of the two possible ones.

What libvirt's own functions do (the Add, Clear and Free helpers, a getter filling an array, the
release of a record list) appears as methods whose bodies are one allowed behaviour; their callers
are verified against the contracts only. A failing Add is allowed to have moved the array, which is
more than libvirt promises not to do. That an Add fails only when memory was refused, inside libvirt or
in the allocator, is an assumption about libvirt; "memory was refused" below rests on it.

## Where the code differs from what is written about it

Each of these has a witness and the exact condition under which the statement does hold.

- The comment on `GetStats` (domain_stats.go:107-110) says that fields it does not model are ignored.
  `UnmodelledCreatesCpu` is a list for which that is false; by `UnmodelledIgnoredExact` such a field is ignored
  exactly when it is not the first of the cpu or balloon group, the first available one of the state
  group, or the first of its device.
- It also says that negative values remain unset. `NegativeUnsets` is a list in which one unsets a
  counter that was set; by `UnavailableExact` it leaves the result as it is exactly when the counter was
  unset and its group or device is there, and by `UnavailableStateSkipped` always for a state field.
- `CloseCallback.Close` promises to unregister its callback. `MayRemoveAnother` is a run in which it
  removes the callback registered after it, because libvirt dropped the first one between the
  check and the call. By `RemovesItsOwn` and `CloseSafety` a Close removes its own registration exactly when
  libvirt never dropped that and no other handle removed it; by `NoWrongRemoval` all of them do exactly
  when no Close that succeeded was of a dropped one.
- `Close` takes a handle for active when its token is in the table. `ReusedTokenMisleadsClose` is a run in
  which malloc has reused the token of a released registration; by `CloseOfReleased` closing such a handle
  succeeds at once exactly when no record is under the token. Otherwise its native call can never succeed for
  a domain event, and for a close callback exactly when the connection has a new one, which it removes.
- Every object is to be freed by its owner. The handles that a node-device callback receives own no reference,
  and their Free is the ordinary one: by `CountsExact` libvirt's counts are those of the owning handles
  exactly when no such borrowed handle was freed, and `BorrowedFreeFaults` is a run in which one was.
- A delivery may find another registration's record when malloc reuses its token
  (`DeliveryMayFindAnother`); by `DeliveryFindsItsOwn` it finds its own exactly when the free callback has not
  started or has not yet taken the record out.
- `nativeCall` promises the error of the failed call. `NestedCallLosesError` is a run in which a call made
  from inside it loses that; by `ErrorAttribution` it returns the last record it wrote exactly when no call
  ran inside it after that write, or when neither it nor the last call inside it left one.
  `StaleErrorWithoutReset` is a run that returns a stale record; by `NoStaleErrorExact` no run does exactly
  when the library has virResetLastError or lacks virGetLastError.
- The alias-group comparison of the generator is not an order on every group: `ThreeCycle` is a group of
  domain states, and `GroupOrderExact` says when it is one.

## Model

| member | source | states |
|---|---|---|
| TypedParams.NormalizeExact | typed_params.go:190-266 | normalization succeeds with q iff q is canonical (fixed-width value of its tag's type, NUL-free strings, valid field), keeps the field and any given tag, and equals the given value, so the int32 and uint32 bounds are exact |
| TypedParams.NormalizeIdempotent | typed_params.go:190-266 | the results of normalization are its fixpoints |
| TypedParams.DecodedIsCanonical | typed_params.go:51-78 | a record of known type with a non-empty NUL-terminated field decodes to a fixpoint of normalization |
| TypedParams.EncodesDecodes | typed_params.go:51-78 | any C record that encodes a canonical parameter, whatever its unused union bytes are, decodes to that parameter |
| TypedParams.BuildLayout | typed_params.go:158-185 | the three stores into a zeroed 96-byte record do not disturb each other |
| TypedParams.BuildEncodes | typed_params.go:158-185 | the stored bytes of every one of the seven value types encode the parameter |
| TypedParams.BlankOwnsNothing | typed_params.go:178-181 | a record whose string malloc failed, and a zeroed record, own no string |
| CLayout.LEDigits | typed_params.go:166-183 | byte i of a little-endian number is its digit i to the base 256 |
| CLayout.CellLayout | libvirt_api.gen.go:49-58 | of the 96 bytes of a record the field is read in bytes 0 to 79, the tag in 80 to 83, the value in 88 to 95 |
| CLayout.EncodesExact | typed_params.go:158-185 | a record encodes a parameter iff its bytes are: the field and a NUL, tag 1 to 7 by the value's type, and in bytes 88 to 95 the number, the boolean or the address of the string |
| CLayout.BuildExact | typed_params.go:158-185 | every byte of a record the marshaller built: the field and zeros, the tag and zeros, and a union whose unused bytes are zero and whose boolean is 0 or 1 |
| CLayout.ValidFieldExact | typed_params.go:190-193 | a field is valid iff it is not empty and is what an 80-byte buffer with a NUL reads as |
| CLayout.DecodesExact | typed_params.go:51-78 | which parameter the bytes of a record decode to; decoding fails iff the tag is not 1 to 7 |
| CLayout.ArrayLayout | typed_params.go:158-185 | record i of an array is bytes 96i to 96i + 95 |
| ParamArrays.OneOwned | typed_params.go:285-303 | the ownership equation: an owned string is neither the array, nor another record's string, nor a block of the caller |
| ParamArrays.ReleaseCell | typed_params.go:295-302 | freeing the first record's string leaves exactly the others owned |
| ParamArrays.ExtendBlank | typed_params.go:178-181 | a tail of records that own nothing can be released with the array |
| ParamArrays.DecodeAllMeaning | typed_params.go:35-49 | decoding gives each record's parameter in order, duplicates kept, and fails iff some record has an unknown type |
| ParamArrays.DecodeFrame | typed_params.go:35-49 | decoding reads only the strings the records own |
| ParamArrays.AppendCell | typed_params.go:115-186 | one more encoded record with its string in a fresh block makes exactly one more owned parameter |
| Marshaller.FreeStringsByHand | typed_params.go:293-302 | the manual walk frees each string once and leaves the array owning none |
| Marshaller.FreeTypedParameterStrings | typed_params.go:285-303 | Clear or the manual walk: the strings are gone, the array is left |
| Marshaller.FreeTypedParameters | typed_params.go:272-283 | whichever release helpers exist, the heap around the array is restored, for NULL and for a partly filled array as well |
| Marshaller.NormalizeParameters | typed_params.go:84-95 | normalizes the list in order and stops at the first error |
| Marshaller.NormalizeAllPrefix | typed_params.go:84-95 | the error of a list is that of its first parameter that fails |
| Marshaller.NativeExact | typed_params.go:99-104 | the helper strategy is chosen iff the library has virTypedParamsFree and the Add function of every canonical parameter |
| Marshaller.StoreRecord | typed_params.go:158-185 | one round of the compatible marshaller: one more parameter held, or, when its string's malloc fails, a releasable array |
| Marshaller.NativeAdd | typed_params.go:116-157 | the contract of the Add helpers: one more parameter, or the same ones |
| Marshaller.EncodeNative | typed_params.go:115-157 | the helper strategy: on error the heap is as on entry, on success the array holds the normalized list |
| Marshaller.EncodeCompatible | typed_params.go:108-187 | the calloc strategy: the same, for every calloc or malloc that fails |
| Marshaller.EncodeTypedParameters | typed_params.go:84-188 | for every list, helper set and failure: an error leaves the live heap as on entry, success adds exactly an array and its strings, whose records are, byte by byte, those of the normalized list; which errors are possible when |
| DomainParams.CopyCString | native.go:138-147 | copies up to the NUL and reads no byte past it |
| DomainParams.DecodeTypedParameters | typed_params.go:35-49 | decodes the array inside its allocation; a negative count is an error |
| DomainParams.ArrayDecodes | typed_params.go:84-188 | an array from either strategy decodes to its parameters and can be released |
| DomainParams.RoundTrip | typed_params.go:35-49 | encode, hand over, decode the same array, release: the array in libvirt's log decodes to the normalized list, in order and with duplicates, that is the result, and the heap is unchanged; otherwise the list is invalid or memory was refused |
| DomainParams.FetchedNormalizes | typed_params.go:51-78 | what a getter returned re-encodes to the same list |
| DomainParams.SetDomainTypedParameters | typed_params.go:338-352 | the log gains one call whose array holds, byte by byte, the records of the normalized list: nil iff it was accepted, ErrClosed iff the handle was closed, the native error iff it was refused; or none, and the list is invalid or memory was refused; the heap is restored either way |
| DomainParams.Domain.Hand | typed_params.go:347-350 | the contract of a native setter: it may be given only an array that can be decoded inside its allocation; logged for a closed handle as well, for which libvirt is not asked |
| DomainParams.FillRecords | typed_params.go:319-324 | what libvirt may do to zeroed records: wherever it stops, all of them are releasable |
| DomainParams.Domain.Fetch | typed_params.go:325-328 | the contract of a native getter: whatever it reports and wherever it stops, the allocated records own what they point to; a handle closed meanwhile leaves the array alone |
| DomainParams.FetchTypedParameters | typed_params.go:315-335 | one fetch: the result is the decoding, inside the allocation, of the array libvirt left, or the error its answer calls for |
| DomainParams.PartlyFilled | typed_params.go:323-324 | an array filled in part, with its zeroed tail, is releasable whole |
| DomainParams.GetDomainTypedParameters | typed_params.go:305-336 | for every count and failure, between the two queries too: the calls made are those the code makes; a closed handle gives ErrClosed, a failed query the native error, negative and grown counts an error, and otherwise the result is what libvirt answered, decoded inside the allocation; every record is released once |
| DomainStats.DeviceKeyExact | domain_stats.go:227-235 | a counter of device N is addressed by exactly the fields block.t.suffix and net.t.suffix where t parses to N |
| DomainStats.PrintedDeviceKey | domain_stats.go:227-235 | the names libvirt prints address the index they print |
| DomainStats.GroupKeyExact | domain_stats.go:171-226 | a domain-wide counter is addressed by its whole name only |
| DomainStats.CounterOfExact | domain_stats.go:156-169 | a counter is set to n iff its value is the UInt64, UInt32, Int64 or Int32 equal to n, and is otherwise unset and zero |
| DomainStats.TruncateExact | domain_stats.go:175-187 | a state number is kept below 2^31, and modulo 2^32 always |
| DomainStats.GroupCounterNames | domain_stats.go:182-206 | the names of the state fields, the device name and the cpu and vcpu counters, by group |
| DomainStats.BalloonCounterNames | domain_stats.go:211-226 | the balloon counters by name |
| DomainStats.NetCounterNames | domain_stats.go:276-297 | the network counters by direction and unit |
| DomainStats.BlockCounterNames | domain_stats.go:244-266 | the block counters by direction and unit |
| Text.CutExact | domain_stats.go:171-171 | strings.Cut at the first dot, characterized by its parts |
| Text.AtoiExact | domain_stats.go:232-232 | strconv.Atoi gives n iff the text is digits with at most one sign whose value is n, and n fits 64 bits |
| Text.AtoiOfItoa | domain_stats.go:232-232 | parsing the decimal form of an index gives the index |
| StatsDecoder.LastWriteWins | domain_stats.go:300-302 | the last write of a key decides its flag and value; a negative or non-numeric last write unsets it |
| StatsDecoder.LastAvailableWins | domain_stats.go:175-187 | a state field keeps its last available write |
| StatsDecoder.LastStringWins | domain_stats.go:245-248 | a device name keeps its last string write |
| StatsReading.ResultTellsLast | domain_stats.go:156-303 | in the result the last parameter of a counter sets it to the number it carries, and to unset and zero when it carries none |
| StatsReading.ResultTellsState | domain_stats.go:175-187 | in the result a state field is the last number that was available, modulo 2^32 |
| StatsReading.ResultTellsName | domain_stats.go:245-248 | in the result a device has the last string of its name |
| StatsDecoder.NeverWritten | domain_stats.go:144-303 | what was never written so is unset |
| StatsDecoder.UnsetHoldsZero | domain_stats.go:300-302 | in every result a counter whose flag is unset holds zero |
| StatsDecoder.DescribesUnique | domain_stats.go:304-305 | one result only satisfies the keyed specification, so neither the index maps nor the unstable sort can be seen |
| StatsDecoder.OfKeyDecides | domain_stats.go:148-303 | what a key reads depends only on the parameters of that key, in their order |
| StatsDecoder.OrderIndependent | domain_stats.go:148-305 | permuting parameters of different keys leaves the whole result identical |
| StatsDecoder.EnterDevice | domain_stats.go:236-298 | finding or creating a device keeps index map and slice in bijection, and finds where its counter is |
| StatsDecoder.NumberOf | domain_stats.go:156-169 | the type switch of the loop gives the counter its value carries |
| StatsDecoder.ApplyParameter | domain_stats.go:149-302 | one round of the loop keeps the working result equal to what the parameters so far say |
| StatsDecoder.TableSorted | domain_stats.go:304-305 | the sorted slice is strictly increasing by index, one entry for each index seen and none else |
| StatsDecoder.DecodeDomainStats | domain_stats.go:144-307 | fails exactly on an unknown parameter type; otherwise the result is the one the keyed last-write specification describes |
| StatsReading.ChangesExact | domain_stats.go:148-303 | one more parameter changes the result iff it is the first of its group or device, or tells a modelled field something new |
| StatsReading.UnmodelledIgnoredExact | domain_stats.go:107-110 | a field that is not modelled is ignored iff it is not the first of its group or device |
| StatsReading.UnmodelledCreatesCpu | domain_stats.go:188-191 | a list of one field that is not modelled, and creates the cpu group |
| StatsReading.UnavailableExact | domain_stats.go:300-302 | a negative or non-numeric value unsets its counter, so the result stays iff that was unset and its group or device is there |
| StatsReading.UnavailableStateSkipped | domain_stats.go:175-178 | of a state field such a value is skipped |
| StatsReading.NegativeUnsets | domain_stats.go:300-302 | a list in which a negative value unsets a counter that was set |
| StatsGetter.HeapsGrow | domain_stats.go:124-136 | a record and its parameters stay as they are while further records are added |
| StatsGetter.RecordLayout | libvirt_api.gen.go:11-15 | of the 24 bytes of a record the address of its parameters is in bytes 8 to 15 and their 32-bit count in bytes 16 to 19 |
| StatsGetter.FreeRecordList | domain_stats.go:124-124 | the contract of virDomainStatsRecordListFree: every record, array, string and the list itself is released once |
| StatsGetter.GetStats | domain_stats.go:111-142 | every exit releases the whole list once; which answers are errors; otherwise the first record's parameters are decoded inside their allocation |
| DomainJob.JobInfoFromParameters | domain_job.go:215-333 | fails iff a recognised field carries the wrong type; otherwise each flag holds iff the field occurs, with its last value, and the parameters are kept |
| DomainJob.TellsUnique | domain_job.go:215-223 | one result only satisfies that |
| DomainJob.StepTyped | domain_job.go:225-333 | a parameter is refused iff it is recognised and carries the wrong type |
| DomainJob.StepTells | domain_job.go:225-333 | one more parameter updates its own field only |
| DomainJob.TimeCounters | domain_job.go:229-234 | every time field is a counter |
| DomainJob.DowntimeCounters | domain_job.go:235-240 | so are the downtimes and the setup time |
| DomainJob.DataCounters | domain_job.go:241-246 | so are the data fields |
| DomainJob.MemoryCounters | domain_job.go:247-258 | so are the memory amounts |
| DomainJob.PageCounters | domain_job.go:259-286 | so are the memory rates, pages and requests |
| DomainJob.DiskCounters | domain_job.go:267-290 | so are the disk fields |
| DomainJob.CompressionCounters | domain_job.go:275-284 | so are the compression fields |
| DomainJob.OthersTell | domain_job.go:303-329 | throttle, operation, success and error are those of the fields auto_converge_throttle, operation, success and errmsg |
| DomainParams.Domain.AskJob | domain_job.go:196-199 | the contract of virDomainGetJobStats: the caller owns the array it answers with, and nothing when it fails or the handle is closed |
| DomainJob.GetJobStats | domain_job.go:192-213 | libvirt is asked once: a closed handle gives ErrClosed, a failed call the native error, and otherwise the array it answered with is decoded inside its allocation; it is released once on every exit |
| Sorting.SortFunc | domain_stats.go:304-305 | an unstable sort: some permutation, in order when the comparison orders the elements |
| Sorting.IncreasingUnique | domain_stats.go:304-305 | a strictly increasing list is determined by its elements |
| ObjectLists.NativeObjectList | resource.go:199-216 | reference i is the address in bytes 8i to 8i + 7, and libvirt's array is freed once on every exit, for an empty list too; when the list counts as failed |
| HandleInvariants.StepMoves | resource.go:51-83 | a step moves one goroutine, and changes the pointer of a handle only under its write lock |
| HandleInvariants.ExcludedStays | resource.go:56-71 | a handle's writer excludes every other user of it |
| HandleInvariants.RefsStayOk | stream.go:40-61 | lookup, list, AddReference and Free keep every native count equal to the open handles on the object plus the references in flight |
| HandleInvariants.ArraysStayOk | connect.go:157-192 | every array libvirt made is in one goroutine's hands until it is freed |
| HandleInvariants.DebtStaysOk | resource.go:66-83 | a reference is owed to libvirt exactly when a borrowed handle was freed |
| HandleInvariants.FaultStaysOk | resource.go:51-83 | with nothing owed, a native call on open handles that are not late sees live objects only |
| Handles.HandleSafety | resource.go:51-83 | over every run of any number of goroutines: a native call sees a dead object only if a borrowed handle was freed, or used after its callback; no handle and no array is freed twice; a handle in use cannot be freed |
| Handles.CountsExact | events.go:127-133 | over every run: for every object libvirt's count is the number of open handles that own a reference plus the references in flight, iff no borrowed handle was freed |
| Handles.BorrowedFreeFaults | events.go:127-133 | a run in which freeing a borrowed handle takes an owner's reference, whose next call sees a dead object |
| Handles.NothingLeaks | resource.go:199-216 | with no call under way no array is left, the counts are those of the open handles if no borrowed one was freed, and no reference is left once every owner was freed |
| Handles.SharedReferences | stream.go:40-61 | handles that share a stream own a reference each: freeing one takes one back, closes only that handle, and leaves the other open on a live object |
| Handles.ClosedForever | resource.go:72-74 | after a successful Free every later call and every later Free of the handle ends with ErrClosed |
| Handles.FailedFreeLeavesHandle | resource.go:75-82 | a failed Free, or one whose symbol is missing, leaves the handle usable |
| HandleProtocols.CallOpens | resource.go:56-61 | in every reachable state a call on handles that no one is freeing takes all its read locks; one nil pointer ends it with ErrClosed and no lock |
| HandleProtocols.CallFails | native.go:88-125 | a native call that fails ends with the native error and one whose symbol is missing with SymbolUnavailable; handles, references and arrays stay; it sees a dead object iff a handle it holds is on one |
| HandleProtocols.CallCompletes | resource.go:51-64 | a native call that works ends with no error: every reference it handed out has a new open handle, in order, its array is freed, and nothing else changes |
| HandleProtocols.FreeOfClosed | resource.go:70-74 | Free of a nil pointer is ErrClosed and gives nothing back |
| HandleProtocols.FreeWorks | resource.go:66-83 | Free that libvirt accepts makes the pointer nil and gives back the handle's reference; a borrowed handle leaves a debt; it sees a dead object iff libvirt counted none |
| HandleProtocols.LoanWorks | events.go:127-133 | a callback's handle is a new borrowed one, and the callback's end ends only the loan |
| LockOrder.CodePathsAscend | storage.go:282-288 | every code path takes its locks in strictly increasing rank: callback handle, connection, domain or node device, pool, volume, stream |
| LockOrder.SomeoneCanStep | events.go:234-246 | with writer-preferring locks some goroutine can always step while one is unfinished |
| LockOrder.RunIsShort | stream.go:152-170 | every run is bounded by the work of its goroutines |
| LockOrder.NoDeadlock | events.go:286-299 | goroutines going through any operations stop only when all are finished |
| LockOrder.NestedReadsDeadlock | resource.go:56-57 | the order must be strict: two nested read locks on one handle deadlock with a waiting writer |
| LockOrder.LocksExclude | resource.go:56-71 | over every run, whoever holds a lock for writing is alone with it |
| LockOrder.NoUseDuringFree | resource.go:66-71 | no goroutine is in a native call on an object while another is in the call that ends it |
| LockOrder.OverlapExact | resource.go:51-83 | two operations can be in their native calls at once iff neither ends an object of the other |
| Callbacks.OwnersPass | events.go:144-157 | every step hands each token from one owner to one owner |
| Callbacks.RecordsStillMatch | events.go:48-55 | whoever is to find a record under a token finds its own |
| Callbacks.TokenSafety | events.go:48-157 | over every run: keys of the table are live tokens, a live token outside it is between malloc and Store or between removal and free in exactly one thread, no token is freed twice, mallocs equal frees plus live tokens |
| Callbacks.NothingLeaks | events.go:48-55 | when nothing is under way the live tokens are those of the registrations libvirt holds, and none is left after their release |
| CallbackProtocols.RegistrationWorks | events.go:204-227 | a registration libvirt accepts has a live token and its own record, is open and held, and leaves nothing under way; a close callback becomes its connection's |
| CallbackProtocols.SecondCloseCallbackRefused | events.go:211-222 | while a connection has a close callback, no other is accepted |
| CallbackProtocols.RefusalDiscards | events.go:154-157 | a refused registration loses its record and its token is freed, and it is never accepted |
| CallbackProtocols.FreeCallbackWorks | events.go:48-55 | the free callback takes the record out and frees the token; it comes once, and no delivery begins after it |
| CallbackProtocols.DeliveryWorks | events.go:57-75 | a delivery to a registration that is not released finds its record and changes nothing |
| CallbackProtocols.FailedCloseChangesNothing | events.go:239-250 | a Close whose native call fails leaves everything as it was |
| CallbackProtocols.DropUninstalls | events.go:239-249 | libvirt can drop exactly the installed close callback of a connection |
| CallbackProtocols.DisposeUninstalls | connect.go:62-82 | a connection that is gone has no close callback in any continuation |
| CallbackProtocols.DeregisterWorks | events.go:383-389 | a node-device event is deregistered once, while libvirt has it |
| Callbacks.RecordsStayUnique | events.go:144-157 | no record is under two tokens or of two registrations, and one that was taken out never comes back |
| Callbacks.DeliveryFindsItsOwn | events.go:57-75 | a delivery finds its own record, which no other registration has, iff the free callback has not started or not yet taken it out |
| Callbacks.DeliveryMayFindAnother | events.go:57-68 | otherwise, with a reused address, it may find another's |
| Callbacks.CloseSafety | events.go:230-251 | over every run: each handle removes at most one registration and each registration is removed at most once; a removal is of the handle's own one iff libvirt did not drop that and no other handle removed it before; a closed handle's registration is deregistered, released or dropped |
| Callbacks.NoWrongRemoval | events.go:230-251 | all removals of a run are of the handles' own registrations iff none is by the handle of a dropped one |
| Callbacks.CloseWorks | events.go:320-341 | closing an open domain event handle that libvirt still has removes its registration and closes the handle |
| Callbacks.ReusedTokenMisleadsClose | events.go:329-340 | a run in which malloc reuses the token of a released registration and Close of its handle makes a call that libvirt must refuse |
| Callbacks.CloseOfReleased | events.go:320-341 | closing the handle of a released registration succeeds without a native call iff no record is under its token; otherwise, in every continuation, its native call succeeds iff it is of a close callback and the connection has another, which it removes |
| Callbacks.RemovesItsOwn | events.go:243-249 | a successful native call of Close in any reachable state removes one registration, its own iff that was neither dropped by libvirt nor removed by an earlier Close, and touches no other |
| Callbacks.MayRemoveAnother | events.go:239-249 | a run in which libvirt drops a callback between the check and the call, and Close removes the next one |
| Callbacks.ClosedForever | events.go:320-341 | closed is monotone over every continuation of a run |
| NativeCall.SlotStaysOk | native.go:95-105 | while calls are under way the error slot of their thread is what the innermost one would leave: its own last record, or what the last call inside it left |
| NativeCall.CallBegins | native.go:95-100 | a call can begin when its goroutine is in none or in libvirt; its thread's slot is then empty if the library can clear it |
| NativeCall.CallEnds | native.go:101-125 | a call that succeeds reports nothing, and one that fails exactly one error: the record in its thread's slot, if there is one and the library can be asked for it |
| NativeCall.ReportStays | native.go:101-101 | what libvirt reports in a call is in its thread's slot |
| NativeCall.LockedToThread | native.go:95-96 | a goroutine in a call stays on its thread, and no outside call reports there |
| NativeCall.OneFailureEach | native.go:105-125 | over every run the errors reported are those of the failing calls, one each, in order |
| NativeCall.ErrorAttribution | native.go:87-125 | over every run, with virResetLastError: a failing call never returns a stale record or another goroutine's; it returns the last one it wrote itself, or none if it wrote none, iff no call ran inside it since, or neither left one |
| NativeCall.NoStaleErrorExact | native.go:98-115 | no run returns a stale or foreign record iff the library has virResetLastError or lacks virGetLastError |
| NativeCall.NestedCallLosesError | events.go:127-133 | a native call made from inside another one can lose the outer one's error |
| NativeCall.StaleErrorWithoutReset | native.go:98-100 | without virResetLastError a stale record can be returned |
| Loader.NativeAPI.BindMainLibrary | loader_unix.go:86-91 | the first phase, as a fold over the catalogue |
| Loader.NativeAPI.BindExtensionLibraries | loader_unix.go:99-108 | the second phase, as a fold over the catalogue |
| Loader.LoadedMeans | native.go:74-85 | after both phases a name is missing iff no loaded library of its binding exports it |
| Loader.BoundMeans | native.go:74-85 | and its function is bound iff that library exports it |
| Loader.MissingSince | native.go:67-85 | whatever is exported, a missing symbol has a binding, and the version of its last one |
| Loader.MainStatusStays | loader_unix.go:100-102 | the second phase changes no status of the main library |
| Loader.AgreementExact | native.go:74-85 | missing agrees with the unbound functions for every set of exports iff no name belongs to two libraries |
| Loader.LoadNativeAPIFrom | loader_unix.go:63-125 | when loading succeeds, requireSymbol and hasSymbol let through exactly the names whose function is bound, requireSymbol tells the version of the others, and hasSymbol knows no name outside the catalogue; it fails iff the allocator does not resolve, virInitialize is not exported, or it fails |
| AbiTypes.ParseExact | internal/generator/generator.go:462-475 | a name followed by stars and consts in any grouping is read as that name and the number of stars |
| AbiTypes.MappedExact | internal/generator/generator.go:476-552 | the C types without a Go type are exactly unknown names behind at most one star, and void as an argument |
| AbiTypes.FamiliesExact | internal/generator/generator.go:476-491 | callbacks and handles are known by the ends of their names, and documented callbacks by name |
| AbiTypes.NamesExact | internal/generator/generator.go:499-550 | every other base type is known by its C name alone |
| AbiTypes.StandsForExact | internal/generator/generator.go:476-552 | under ILP32 and LP64 every mapped type stands for its C type: same size, sign and kind for scalars, and for what a typed pointer points to; where long is narrower than a pointer, all do except those that show a long |
| AbiTypes.PointersExact | internal/generator/generator.go:479-511 | which types are untyped pointers: handles, `void *`, and in results strings and deeper pointers |
| Generator.BeforeIsTotal | internal/generator/generator.go:244-244 | Go's byte-wise order of names is total |
| Generator.Register | internal/generator/generator.go:175-188 | the duplicate check accepts exactly distinct names |
| Generator.LoadAPIDocuments | internal/generator/generator.go:149-199 | succeeds iff no document is empty and function and enum names are unique across documents; the result is their concatenation, labelled |
| Generator.CombinedExact | internal/generator/generator.go:175-195 | a function of the combination is one of some document with its own name, version and types, and the library of that document; enums, macros and callbacks are those of all documents |
| Generator.CombinesExact | internal/generator/generator.go:172-188 | documents combine iff none is empty and no function or enum name stands in two places |
| Generator.SelectNativeSymbols | internal/generator/generator.go:236-258 | every function once, in strict name order |
| Generator.MapSignature | internal/generator/generator.go:441-459 | the signature of a function, argument by argument; it fails iff one of its C types has no Go type |
| Generator.RenderCatalogue | internal/generator/generator.go:310-356 | succeeds iff every symbol is a function whose C types have Go types; one entry for each symbol, with its version, library, argument types and result type |
| Generator.CheckEnumValue | internal/generator/generator.go:554-580 | the value check: a decimal number with an optional minus sign, or an upper-case name in VIR_ |
| Generator.CatalogueIsWhole | internal/generator/generator.go:310-356 | the entries are those of all functions, each once, in strict name order |
| Generator.RenderGenerated | internal/generator/generator.go:310-425 | succeeds iff all C types map, macros are consistent, layouts and text render, enum values are valid and no alias group is empty; the catalogue, constants, enums and groups are then in canonical order |
| Generator.Generate | internal/generator/generator.go:115-147 | from documents to generated source: exactly when it succeeds; every function of every document then has one entry with its name, version, library and Go signature, in name order, there is no other, and the loader's table agrees with what it binds |
| Generator.ConstantMacros | internal/generator/generator.go:661-709 | succeeds iff every kept macro is a constant and same-named ones agree; the result is the strictly name-sorted list of them |
| Generator.ListsUnique | internal/generator/generator.go:707-708 | there is one such list |
| Generator.OrderDoesNotMatter | internal/generator/generator.go:661-709 | neither the order nor the repetition of macros changes it |
| Generator.AliasOrderExact | internal/generator/generator.go:395-402 | the alias comparison is a strict total order on distinct names iff no non-numeric value's name lies between two numbers in the wrong order |
| Generator.SelectGroup | internal/generator/generator.go:388-405 | the enums of one type and prefix, some permutation of them; when they have an order, numbers stand by value and the rest by name; an empty group is an error |
| Generator.GroupOrderExact | internal/generator/generator.go:388-402 | the comparison orders an alias group iff no value of it straddles two numbers of it |
| Generator.AliasSortUnique | internal/generator/generator.go:395-402 | then the unstable sort has one result |
| Generator.StraddledHasNoOrder | internal/generator/generator.go:395-402 | otherwise no arrangement is sorted |
| Generator.ThreeCycle | internal/generator/generator.go:388-402 | a group of three valid domain states without an order |

## Left out

- Marshaller.NativeAdd: the Add helpers' capacity argument and their growth policy are libvirt's own; the contract only fixes what the array holds.
- DomainParams.Domain.Fetch: which parameters a getter writes is libvirt's choice.
- StatsGetter.GetStats: the native call itself is its answer (count, list), given as arguments.
- Callbacks.TokenSafety: a registration whose malloc fails ends before it changes anything, and is not a step.
- Callbacks.DeliveryMayFindAnother: what the user callback does, and its panics, are outside the state.
- Handles.HandleSafety: Domain and Connect values copied after use are not modelled, since the repository's own README forbids copying handles after first use; copies of the other wrappers share one handle and are.
- NativeCall.ErrorAttribution: the record's text, domain and level are one code.
- Loader.LoadNativeAPIFrom: dlopen and dlsym are the set of exports they yield; the list of candidate paths is left out.
- Generator.ConstantMacros: whether a macro's text is a constant expression, and its cleaned value, are given.
- Generator.RenderGenerated: whether the struct layouts can be generated and whether the template renders are given; the Go spelling of methods, arguments and aliases is left out.
- Generator.Generate: the same; selection mode "used" is not modelled.
- Generator.RenderCatalogue: the Go spelling of methods and arguments is left out; a C type comes as its words, and `strings.Fields` is not modelled.
- Generator.SelectNativeSymbols: mode "used", which scans Go sources, is not modelled.
- Error texts, `fmt`, UUID buffers and version arithmetic.
- The per-resource wrappers, each one call through the machinery modelled here.
- Field names and counters of the statistics are libvirt's names rather than Go struct fields; a struct's pairs of flag and value are a map from those names.
- XML parsing, Go AST walking, file lookup, hashing and templates.
- Garbage-collector effects (`KeepAlive`).
