# Verified model of the capsule format and the concurrency core

This project models five parts of the repository and proves what they promise.

1. **The Capsule wire format.** `Values` is the format as a function of a capsule value: predicted size, bytes, offset
   table. The size builder, the encoder (child encoders working on ranges of one byte array), the sorted-vector map,
   the decoder, the checksummed frame and CRC32C are imperative, each proved against a function; the round trip, schema
   evolution and error detection are lemmas about those functions. `Hashing` is the compiler's side: which declarations
   it accepts, and the indices of presence bits.
2. **The multi-producer queue**, a step relation over every atomic access of any number of producers and one consumer.
3. **The futex mutex and notification**, step relations over any number of threads, with sleeping threads and owed
   wake-ups as explicit state.
4. **The event loop**: intrusive rings rewired in place, generation-tagged handles over reused slots, and the silo's
   activation state machine driven by an arbitrary environment.
5. **Two string algorithms**: escaping, and durations printed in at most four units.

One module per file; `Basics` holds what several share. The main claims are `RoundTrips.RoundTrip`,
`RoundTrips.Decodes`, `Api.FramedRoundTrip`, `Framings.BurstInvalidates`, `MpscQueue.FirstInFirstOut`,
`Mutexes.MutualExclusion`, `Mutexes.NoLostWakeup`, `Notifications.NoLostWakeup`, `HandleTables.NeverReissued`,
`SiloRuns.SuspendContract`, `SiloRuns.NoCollision`, `SiloRuns.FreedOnce`, `SiloListing.EveryFdListed`,
`SiloCalls.ReportLeadsToCall`, `FrameForms.ValidIsCompleted`,
`Escaping.UnescapeOfEscape` and `HumanReadables.PrintedUnits`.

## Where the code and its promises part

- The format document kept beside the code draws a four-word capsule header; the code (capsule/abi.h:37-40) has two
  words. The model follows the code.
- **Presence bits.** The generator numbers fields over all fields, retired ones included, but sizes `has_` by the
  non-retired ones. `Hashing.PresenceBitsFit` proves that every access is in range if and only if all retired fields
  come last; `Hashing.PresenceBitMissing` is a two-field capsule for which it is not.
- **HandleIdle.** The silo pushes an idler back without looking at its hook. `Silos.Idled` proves that a linked hook is
  pushed if and only if an accepting `HandleIdle` asked for the activation or ejection of its own FD;
  `SiloRuns.CollisionHappens` is a two-pass run in which it happens.
- **Yield.** kYield asks to be called again at once. RunActives tests the hook of the runners list instead of the
  closers list, so an FD that is a runner is put on neither active nor idlers. `SiloRuns.TurnKeepsListed` proves that an
  FD is on no such list after its turn if and only if it is a runner that no request has linked; `SiloRuns.YieldForgotten`
  is a two-pass run that leaves a live FD, still wanting to read, on no list at all. `SiloListing.EveryFdListed` proves
  that runs in which nobody calls Run lose none.
- **Eject.** `ejects_.IsLinked` tests the hook, which is the same one for three lists. `SiloRuns.EjectIsHonoured` proves
  that an ejection request takes effect if and only if the FD is on none of them; for an FD on the idlers or active
  list it is silently dropped.

## Model

| member | source | states |
|---|---|---|
| Crc32c.ComputeCRC32C | core/crc32c.cc:19-65 | The 8/4/2/1-byte path returns the bit-at-a-time CRC32C (polynomial of section 12.1 of RFC 3720) of the whole input, for every length and every extended value |
| Crc32c.WideIsBytewise | core/crc32c.cc:24-42 | A wide little-endian instruction feeds exactly its bytes, in memory order, for operands of any width |
| Crc32c.CrcExtends | core/crc32c.cc:19-21 | Extending is concatenation: crc(b, crc(a)) = crc(a ++ b) for every split, inside an 8-byte block or not |
| Crc32c.FeedInjective | core/crc32c.cc:19-65 | For fixed data the register after it determines the register before it |
| Crc32c.BurstInjective | core/crc32c.cc:19-65 | From one register value, different strings of at most 32 bits leave different register values |
| Crc32c.BurstDetected | core/crc32c.cc:19-65 | Two strings that differ only within four consecutive bytes never leave the same register |
| Crc32c.PolynomialIsCastagnoli | core/crc32c.cc:24-42 | The register's polynomial has exactly the exponents of section 12.1 of RFC 3720 |
| Crc32c.CheckValue | core/crc32c_test.cc:8-10 | The CRC32C of the nine digits is 0xE3069283 |
| Bytes.WordOfLE32 | capsule/abi.h:37-46 | A stored 32-bit word reads back as itself |
| Bytes.Store | capsule/encoder.h:174-177 | Bytes stored at an offset appear there and no other byte of the array changes |
| Values.SerialLength | capsule/size_builder.h:38-43 | The predicted size is the number of bytes of the serialized capsule, at any nesting, and a multiple of 8 |
| Values.PayloadLength | capsule/size_builder.h:104-145 | The same per field: what Add counts is the length of the payload written |
| WireExamples.Words | capsule/encoder.h:145-147 | Words are stored least significant byte first |
| WireExamples.Tags | capsule/encoder.h:97-136 | The tags of booleans, 8-bit and 16-bit scalars in the table entry; everything longer is an offset |
| WireExamples.TextForm | capsule/encoder.h:165-180 | A string's bytes, written out: length, text, 0xda up to a multiple of eight |
| WireExamples.VectorForm | capsule/encoder.h:340-382 | A string vector's bytes, written out: count, padding word, elements in order |
| WireExamples.OneField | capsule/encoder_test.cc:44-54 | A one-field capsule is these sixteen bytes |
| WireExamples.ThreeFields | capsule/encoder.h:97-180 | Three fields: entries in order, payloads in the same order, each where its entry says |
| SizeBuilders.SizeBuilder.Add | capsule/size_builder.h:49-172 | Any field adds one table entry and exactly its payload's bytes |
| SizeBuilders.ComputeStorageSize | capsule/generator.cc:383-394 | The size computed field by field equals the length of the serialized capsule and is a multiple of 8 |
| Encoders.Encoder.constructor | capsule/encoder.cc:5-18 | The header is written, the cursor stands behind the table, cursor and remainder add up to the length |
| Encoders.Encoder.SetIfOk | capsule/encoder.cc:34-42 | An error reaches this encoder and every ancestor that has none yet, and no other field of any encoder changes |
| Encoders.Encoder.AddU32 | capsule/encoder.h:97-107 | One table entry is claimed, or a slot overflow recorded when the table is full |
| Encoders.Encoder.AddLiteral | capsule/encoder.h:58-136 | Tagged scalars live in the table entry and use no payload |
| Encoders.Encoder.AddU64 | capsule/encoder.h:138-150 | Eight payload bytes behind a table entry, or an overflow with every cursor unmoved |
| Encoders.Encoder.AddString | capsule/encoder.h:165-180 | Length, bytes, padding to 8 behind a table entry, or an overflow with every cursor unmoved |
| Encoders.Encoder.AddStringVector | capsule/encoder.h:340-382 | Header and padded strings behind a table entry; the loop writes exactly what was reserved |
| Encoders.Encoder.AddCapsule | capsule/encoder.h:185-207 | The child's range receives exactly the serialized child; table and siblings are untouched; a child that does not fit is refused |
| Encoders.Encoder.EncodeChild | capsule/encoder.h:196-207 | A child encoder over its own range writes the whole serialized capsule there, no byte elsewhere, and neither it nor any ancestor records an error |
| Encoders.Encoder.AddCapsuleVector | capsule/encoder.h:210-249 | Header and serialized elements, back to back, behind one table entry |
| Encoders.Encoder.Encode | capsule/generator.cc:396-410 | An encoder of the predicted size takes every field: no overflow at any depth, full table, cursor at the length, and the bytes are the serialized capsule's |
| Encoders.Encoder.Seal | capsule/encoder.h:33-40 | Seal returns the payload cursor and writes it into the header's length word alone |
| Encoders.Encoder.WholeSerial | capsule/encoder.cc:5-18 | Header, contents and sealed length, each stored over the last, together are the serialized capsule |
| EncoderErrors.SlotOverflow | capsule/encoder_test.cc:32-42 | A full table reports a slot overflow, and a later error does not replace it |
| EncoderErrors.SpaceOverflow | capsule/encoder.h:138-143 | A payload without room reports a space overflow and claims no table entry |
| EncoderErrors.ErrorReachesRoot | capsule/encoder.cc:34-42 | An error of an encoder is reported by its parent and its parent's parent |
| EncoderErrors.TwoFields | capsule/generator.cc:396-410 | An encoder run on two fields leaves exactly their serialized capsule in the buffer |
| FlatMaps.FlatMap.FindLowerBound | core/flat_map.h:151-161 | The position separates the keys below k from the others |
| FlatMaps.FlatMap.Find | core/flat_map.h:298-316 | Found exactly when the abstract map has the key, at its value |
| FlatMaps.FlatMap.Insert | core/flat_map.h:163-183 | The vector stays sorted; a new key is added, an existing one keeps its value |
| FlatMaps.FlatMap.Erase | core/flat_map.h:236-245 | Exactly the key's entry leaves the map; the count says whether there was one |
| FlatMaps.ViewMapper.Insert | capsule/view_mapper.h:25-32 | A repeated hash is refused and changes nothing |
| FlatMaps.ViewMapper.Build | capsule/view_mapper.cc:6-13 | The map is the table as a map, or the first repeated hash's error |
| Decoders.Decoder.Build | capsule/decoder.cc:33-56 | Opens exactly when both length checks pass and the table has no repeated hash; each failure has its own code |
| Decoders.Decoder.FindBoolean | capsule/decoder.h:29-46 | The tag check, the value, and absence |
| Decoders.Decoder.FindString | capsule/decoder.h:211-230 | All four pointer checks in order, then the bytes |
| Decoders.Decoder.FindStringVector | capsule/decoder.h:261-294 | The header's checks, then each element's, over the pointer-advancing loop |
| Decoders.Decoder.FindCapsule | capsule/decoder.h:296-319 | The nested checks, then the nested decode over the nested length |
| Decoders.Decoder.FindCapsuleVector | capsule/decoder.h:321-357 | The same for each element, the first error ending the loop |
| Decoders.Decoder.FindField | capsule/generator.cc:259-282 | Current name first, then each former name only while the field is absent |
| Decoders.Decoder.Decode | capsule/generator.cc:247-289 | Every field is tried and the first error is kept |
| DecoderChecks.BoolAccepted | capsule/decoder.h:29-46 | On any bytes, a boolean is accepted exactly when its word is 0xBBBBBBB0 or 0xBBBBBBB1 |
| DecoderChecks.Int8Accepted | capsule/decoder.h:54-72 | An 8-bit scalar is accepted exactly when its word is the tag plus the value |
| DecoderChecks.Int16Accepted | capsule/decoder.h:86-104 | The same for a 16-bit scalar |
| DecoderChecks.Accepts64 | capsule/decoder.h:173-191 | A 64-bit scalar is accepted exactly when aligned and within the capsule, and is then the word there |
| DecoderChecks.AcceptsText | capsule/decoder.h:211-230 | A string is accepted exactly when it lies within the capsule, and is then the bytes there |
| DecoderChecks.AcceptsTexts | capsule/decoder.h:261-294 | A string vector is accepted exactly when its header is right and its elements lie within the capsule one after another |
| DecoderChecks.NestedStaysInside | capsule/decoder.h:296-319 | An accepted nested capsule is decoded from a view within its parent's |
| DecoderChecks.OpenAccepts | capsule/decoder.cc:33-56 | Build accepts exactly when the lengths nest and the table does not repeat a hash, for tables whose size does not wrap |
| DecoderChecks.TableIsMap | capsule/view_mapper.cc:6-13 | The index maps each entry's hash to its word and nothing else, and exists exactly when no hash repeats |
| RoundTrips.Opens | capsule/decoder.cc:33-56 | Every check of Build passes on an encoded capsule, wherever in memory it lies |
| RoundTrips.FieldSeen | capsule/encoder.h:97-107 | A decoder's table sends each written hash to its tagged literal or to its aligned payload within the capsule |
| RoundTrips.Finds | capsule/decoder.h:29-357 | Looking up a written field of the right type passes every alignment, tag and bounds check and yields its value |
| RoundTrips.FindsNothing | capsule/decoder.h:41-44 | Looking up a hash the writer never used reports absence without an error, for every type |
| RoundTrips.Decodes | capsule/generator.cc:247-289 | Schema evolution, nested to any depth: each reader field gets the value under the first of its hashes the writer used, else its default and no presence; unknown fields are ignored; no error |
| RoundTrips.AbsentTakesDefault | capsule/decoder.h:40-44 | A field the writer never wrote: presence false, the default for scalars and strings, empty vectors, an untouched nested struct |
| RoundTrips.PresentTakesFirst | capsule/generator.cc:276-282 | A field written under one of its names: presence true, the value under the first of them |
| RoundTrips.FirstErrorKept | capsule/generator.cc:247-289 | Decode succeeds exactly when every field does, and otherwise returns the first failing field's code |
| RoundTrips.FirstNameWins | capsule/generator.cc:276-282 | The current name's value is taken even where former names were written too |
| RoundTrips.InstanceReadable | capsule/hashing.cc:98-116 | A value of a type with distinct name hashes is decodable under that type, every field present, and the decoded struct is the value |
| RoundTrips.RoundTrip | capsule/capsule.h:45-79 | Decoding an encoding at any offset of any memory succeeds and returns exactly the value, every field present |
| RoundTrips.InstanceExample | capsule/capsule.h:45-79 | The round trip's hypothesis is met by a type with nested capsules and capsule vectors |
| Framings.Storage.Carve | capsule/storage.cc:25-35 | The carved storage is exactly the bytes between the trims; trimming everything is refused |
| Framings.CrcIsResidue | capsule/framing.cc:122-137 | The stored CRC is right exactly when the register after the whole frame, CRC included, is one constant |
| Framings.BurstInvalidates | capsule/framing.cc:142-154 | Changing any bytes of a valid frame within four consecutive bytes, the CRC itself included, makes Validate fail |
| Framings.ByteInvalidates | capsule/framing.cc:142-154 | So does changing any single byte |
| Framings.SignedValidates | capsule/framing.cc:157-166 | A signed frame validates exactly when its header, inner header and memory length agree |
| Framings.FramedValidates | capsule/framing.cc:42-110 | A completed frame validates exactly when aligned, below 2^29 bytes, and the capsule announces its own length and a table that fits |
| FrameForms.HeaderBytes | capsule/framing.cc:197-203 | A frame's header and footer, byte for byte |
| FrameForms.ValidIsCompleted | capsule/framing.cc:142-154 | The valid byte strings are exactly the completed frames around a capsule that announces its length and a table |
| FrameForms.RefusalMeans | capsule/framing.cc:16-137 | Which code each invalid frame gets: arguments, untrustworthy extent, or bad contents |
| FrameForms.ExampleHeader | capsule/abi.h:20-35 | The smallest frame's first 28 bytes |
| Framings.Sign | capsule/framing.cc:157-166 | The footer repeats the header word and holds the CRC of everything before it; nothing else changes |
| Framings.CompleteFraming | capsule/framing.cc:197-203 | The storage becomes exactly the frame around the capsule bytes it held |
| Framings.AllocFrame | capsule/framing.cc:180-194 | Sizes that no frame can have are refused; the capsule's storage lies inside the frame's |
| Framings.Unframe | capsule/framing.cc:169-177 | Succeeds exactly on valid frames; the carved storage is the capsule between header and footer |
| Api.Serialize | capsule/capsule.h:57-69 | The storage's first bytes become the serialized capsule and nothing else changes; SealSizesDiffer is never reached |
| Api.Deserialize | capsule/capsule.h:47-54 | Argument checks, then Build, then the reader's Decode |
| Api.SerializeAndFrame | capsule/capsule.h:72-79 | For every capsule with at least one field the frame is exactly the framed serialization; the empty capsule is refused |
| Api.FramedRoundTrip | capsule/capsule.cc:52-58 | The frame validates, reports the type hash, carves out exactly the capsule, and deserializes to the value |
| Hashing.Field.ComputeHashes | capsule/hashing.cc:30-50 | The name's hash, then the former names' in order; a field that has hashes is refused unchanged |
| Hashing.HashesAreNames | capsule/hashing.cc:41-48 | A field's hashes are those of its current name, first, and of its former names, and no others |
| Hashing.FormersInOrder | capsule/hashing.cc:44-48 | Former names keep their order |
| Hashing.HashOfDigits | capsule/hashing.cc:41-42 | A hash is the CRC32C of the name's bytes |
| Hashing.GeneratedCount | capsule/generator.cc:155-156 | Every non-retired field is generated, in order; their number is kFieldCount |
| Hashing.ValidateHashes | capsule/hashing.cc:98-116 | One complaint for every repeated hash, naming two fields that have it; none exactly when all are distinct; a field without hashes is an error |
| Hashing.ComputeAndValidateHashes | capsule/hashing.cc:131-134 | Succeeds exactly on fresh declarations whose current and former names all have different hashes |
| Hashing.UniqueByCount | capsule/hashing.cc:101-114 | As many map entries as hashes exactly when no hash repeats |
| Hashing.AcceptedApart | capsule/hashing.cc:99-100 | In an accepted capsule no name or former name of a field has the hash of another field's |
| Hashing.AcceptedRoundTrips | capsule/hashing.cc:98-116 | Every accepted capsule type meets the round trip's hypothesis on hashes, whatever is retired |
| Hashing.PresenceBitsFit | capsule/generator.cc:155-190 | Presence-bit indices lie within kFieldCount if and only if retired fields come after all live ones |
| Hashing.PresenceBitMissing | capsule/generator.cc:155-190 | A retired field before a live one puts the live one's index out of range |
| MpscQueue.Preserved | base/mpsc_queue.h:39-88 | Every atomic step of every thread keeps the ring invariant |
| MpscQueue.FirstInFirstOut | base/mpsc_queue.h:39-88 | On every run head <= tail <= head + Capacity, what was dequeued is a prefix of the items in ticket order, and every published item not yet dequeued is in its cell |
| MpscQueue.CellsAreExclusive | base/mpsc_queue.h:61-85 | No item is constructed over a live one, no two producers have one cell, no cell is read before it is published |
| MpscQueue.FalseMeansFull | base/mpsc_queue.h:43-47 | TryEnqueue gives up only with Capacity tickets outstanding when head was loaded; with an up-to-date tail, exactly then; otherwise it goes on with what it loaded |
| MpscQueue.CasClaims | base/mpsc_queue.h:51-55 | The compare-exchange claims the tail's ticket for its item exactly when the tail is still the one loaded; otherwise, or spuriously, it reloads |
| MpscQueue.EnqueueAlone | base/mpsc_queue.h:39-68 | On a ring with room an undisturbed TryEnqueue ends with its item enqueued, published and ready |
| MpscQueue.EnqueueOnFull | base/mpsc_queue.h:43-47 | On a full ring it gives up and nothing has changed |
| MpscQueue.DequeueAlone | base/mpsc_queue.h:72-88 | With the head ticket published, Dequeue hands out that ticket's item and frees its cell |
| MpscQueue.DequeueNothing | base/mpsc_queue.h:72-79 | With nothing published it changes nothing |
| MpscQueue.OccupancyBounds | base/mpsc_queue.h:51-66 | The occupancy to be reported lies between the true one at the CAS and Capacity |
| MpscQueue.ReportedStays | base/mpsc_queue.h:58-66 | No step of any thread changes it before the producer publishes |
| MpscQueue.FalseMeansNothingReady | base/mpsc_queue.h:72-79 | Dequeue returns false exactly when the queue is empty or the head ticket is not yet published |
| MpscQueue.Drained | base/mpsc_queue.h:72-88 | With all producers done, a false Dequeue means everything enqueued was dequeued, in order |
| Mutexes.Preserved | base/mutex.h:23-54 | Every step of any thread keeps the mutex invariant |
| Mutexes.StepsRefineLock | base/mutex.h:28-46 | Every step acquires a free lock, releases the caller's lock, or leaves the abstract lock alone |
| Mutexes.MutualExclusion | base/mutex.h:23-46 | In every interleaving at most one thread holds the lock, and the word is nonzero exactly when one does |
| Mutexes.NoLostWakeup | base/mutex.cc:31-72 | While a thread sleeps in LockSlow or WaitSlow, the lock is held with the word contended, or an unlocker still owes notify_all |
| Mutexes.UnlockWakesEveryone | base/mutex.h:37-46 | Unlocking a contended word owes a notification, and paying it wakes every sleeper |
| Mutexes.TryLockExactly | base/mutex.h:23-35 | TryLock, and Lock's fast path, acquire the lock exactly when it is free |
| Mutexes.UnlockFrees | base/mutex.h:37-46 | Every unlock frees the lock, and owes a notification exactly when the word was contended |
| Mutexes.SleepExactly | base/mutex.cc:57-59 | A wait sleeps exactly when the word holds the value waited on |
| Mutexes.NotifyMovesSleepers | base/mutex.h:43-45 | A notification moves every sleeper on to try again and nobody else |
| Mutexes.WokenAcquires | base/mutex.cc:35-55 | A woken thread gets a free lock by its own steps, leaving the word contended |
| Mutexes.LockSleeps | base/mutex.cc:31-63 | Lock on a kept lock spins 36 times, marks the word contended and sleeps |
| Mutexes.AwaitComesBack | base/mutex.cc:66-72 | WaitSlow gives up the lock, notifies, and undisturbed comes back holding it |
| Notifications.Preserved | base/notification.cc:54-93 | Every step of any waiter or notifier keeps the invariant |
| Notifications.NotifyTakesEffect | base/notification.cc:54-70 | Notify sets the word; if it said waiting a wake is owed, and paying it leaves nobody asleep |
| Notifications.OnceNotified | base/notification.cc:54-70 | After any run with a Notify in it the word is kNotified, and once no wake is owed nobody is asleep |
| Notifications.NotifiedWaitReturns | base/notification.cc:72-118 | Whoever is awake in a wait on a notified word returns true by its own steps, timed or not |
| Notifications.WakeMovesSleepers | base/notification.cc:63-69 | A wake moves every sleeper back to looking at the word, and nobody else |
| Notifications.WaitSleeps | base/notification.cc:72-93 | An undisturbed wait on an unnotified word marks it waiting and sleeps |
| Notifications.LastLookDecides | base/notification.cc:112-117 | A timed wait reports a notification exactly when its last look finds one |
| Notifications.ReturnsOnlyNotified | base/notification.cc:54-118 | kNotified is never left, and a wait reports success only once notified |
| Notifications.UntimedReturns | base/notification.cc:72-93 | An untimed wait returns only through a notification |
| Notifications.NoLostWakeup | base/notification.cc:54-93 | A sleeper implies the word is kWaiting or exactly one notifier still owes the wake |
| Notifications.NobodySleepsAfterwards | base/notification.cc:54-70 | Once notified with no wake owed, nobody is asleep now or later |
| IntrusiveLists.IntrusiveList.InsertBefore | core/intrusive_list.h:210-219 | The ring stays circular and gains the element at its place |
| IntrusiveLists.IntrusiveList.InsertAfter | core/intrusive_list.h:221-230 | The ring stays circular and gains the element at its place |
| IntrusiveLists.IntrusiveList.PushBack | core/intrusive_list.h:113 | Among any number of lists, this one gains x at the end; all stay rings and no hook is in two |
| IntrusiveLists.IntrusiveList.PushFront | core/intrusive_list.h:116 | The same at the front |
| IntrusiveLists.IntrusiveList.PopBack | core/intrusive_list.h:119-122 | The last element leaves and is unlinked |
| IntrusiveLists.IntrusiveList.PopFront | core/intrusive_list.h:125-128 | The first element leaves and is unlinked |
| IntrusiveLists.IntrusiveList.Clear | core/intrusive_list.h:131-135 | The list is empty and all it held is unlinked; other lists are untouched |
| IntrusiveLists.IntrusiveList.MoveFrom | core/intrusive_list.h:238-250 | The whole chain changes hands and the source is left empty, with every ring well-formed |
| IntrusiveLists.IntrusiveList.MoveAssign | core/intrusive_list.h:95-101 | What the target held is unlinked first; self-assignment changes nothing |
| IntrusiveLists.IntrusiveList.Erase | core/intrusive_list.h:138-142 | Knowing only the element, the list that holds it loses it, and no other list changes |
| IntrusiveLists.IntrusiveList.MembersAreLinked | core/intrusive_list.h:52 | Members of a well-formed list are linked, so IsLinked false means a member of none |
| IntrusiveLists.WithoutAt | core/intrusive_list.h:55-63 | Removing by element and removing by position agree where elements are distinct |
| HandleTables.HandleTable.AllocateHandle | core/handle_table.cc:13-28 | A free index is reused, else the next fresh one; the handle carries a new generation and is positive |
| HandleTables.BitWidth | core/handle_table.cc:9-11 | As many index bits as the largest index needs and no more |
| HandleTables.HandleTable.Allocate | core/handle_table.h:75-88 | Fails exactly when N handles are live; else the handle was never issued and its slot belongs to no live handle |
| HandleTables.HandleTable.Lookup | core/handle_table.h:90-103 | For any slot ever handed out, found exactly when the handle is live |
| HandleTables.HandleTable.Free | core/handle_table.h:105-122 | Succeeds exactly on live handles, and only that handle dies |
| HandleTables.HandleTable.LiveSlots | core/handle_table.h:20-45 | Live handles occupy distinct slots, none of them on the free list |
| HandleTables.ReusesFree | core/handle_table.cc:15-17 | Handing out the last free index keeps slots, free list and live handles consistent |
| HandleTables.Returns | core/handle_table.h:117-119 | So does giving one back |
| HandleTables.DeadForever | core/handle_table.h:90-122 | Over any history, a handle once freed is never live again, whatever happens to its slot |
| HandleTables.NeverReissued | core/handle_table.cc:13-28 | Over any history no handle is issued twice |
| SiloRuns.SuspendContract | io/io_handler.h:18-23 | Over every run: after HandleRead (HandleWrite) returns kSuspend for an FD it is called for that FD again only if RequestRead (RequestWrite) was made after that call began, whatever epoll reports |
| SiloRuns.SuspensionIsKept | io/silo.cc:121-129 | In any history whose calls all went through open gates, a call after a suspension has a request between them |
| SiloCalls.ReportLeadsToCall | io/silo.cc:85-144 | A pass that ends calls the handler of every live, unsquelched direction reported without error, unless the FD closed, was ejected or freed first, or was revived by a request |
| SiloCalls.ReadReportLeadsToCall | io/silo.cc:85-144 | For HandleRead, with no error reported for the FD, without exception |
| SiloCalls.RequestLeadsToCall | io/silo.cc:297-313 | RequestRead and RequestWrite lead to the call before both lists are empty, with the same exceptions |
| SiloCalls.ReadRequestLeadsToCall | io/silo.cc:297-304 | For RequestRead without exception |
| SiloCalls.BusyCalls | io/silo.cc:141-144 | The loop over actives and runners does not end before every waiting FD was called or excused |
| SiloCalls.ReportSetsWants | io/silo.cc:121-134 | A report sets exactly the wants it carries that are not squelched, activates the FD if it wants anything, and touches no other FD |
| SiloCalls.OutcomeMeans | io/silo.cc:366-387 | What each of the four outcomes does to the flags and lists of the FD, and that it does nothing to others |
| SiloCalls.CallClearsWant | io/silo.cc:362-364 | A call clears its own want only |
| SiloCalls.CallTrace | io/silo.cc:362-388 | A call is its start, all its requests in order, and its return |
| SiloCalls.ActivationMeans | io/silo.cc:297-313 | A request touches the flags of its direction only and activates the FD |
| SiloCalls.RunMeans | io/silo.cc:315-323 | Run queues one function and makes the FD a runner unless it is closing |
| SiloCalls.EjectMeans | io/silo.cc:325-333 | A request to eject an unlinked FD clears its wants and puts it on the ejection list; on a linked one it does nothing |
| SiloCalls.AddMeans | io/silo.cc:256-281 | A new FD gets a new handle and clear flags and is idle; a table of 102400 live FDs refuses it |
| SiloCalls.RequestTouchesOne | io/silo.cc:297-333 | No request changes an FD it does not name |
| SiloCalls.EveryFunctionRuns | io/silo.cc:439-443 | Every function queued on a runner is run |
| SiloCalls.DrainTrace | io/silo.cc:439-443 | The functions run in order, each with all its requests |
| SiloCalls.EjectTrace | io/silo.cc:341-347 | HandleEject makes all its requests before the FD is freed |
| SiloCalls.RestTrace | io/silo.cc:148-156 | HandleIdle and admission make all theirs |
| SiloCalls.IdleScanMeans | io/silo.cc:452-468 | The oldest idler goes to the back, or to the closers when HandleIdle refuses |
| SiloRuns.NoCollision | io/silo.cc:101-170 | On every run in which no accepting HandleIdle requests an activation or ejection, no hook is pushed while linked |
| SiloRuns.CollisionHappens | io/silo.cc:448-472 | A run in which HandleIdle requests its own FD and accepts pushes a linked hook |
| SiloRuns.FreedOnce | io/silo.cc:283-295 | Over every run each handle issued is live or was freed, exactly once, and never both |
| SiloRuns.TurnKeepsListed | io/silo.cc:419-429 | After its turn an FD is active, idle, being ejected or closing if and only if it is not an unrequested runner; otherwise it stays active exactly if it still wants something |
| SiloRuns.YieldForgotten | io/io_handler.h:18-23 | A run in which a handler that called Run for its own FD returns kYield and ends up live, wanting, and on no list |
| SiloListing.EveryFdListed | io/silo.cc:69-156 | On every run in which no callback, idle handler or admission calls Run, every live FD is active, idle, being ejected or closing after each pass |
| SiloListing.AskedAllListed | io/silo.cc:297-333 | Requests other than Run never take the last link from an FD |
| SiloRuns.EjectIsHonoured | io/silo.cc:325-333 | A request to eject takes effect exactly when the FD's ActiveIdle hook is unlinked |
| Silos.State.Expunged | io/silo.cc:474-479 | Neither hook is linked afterwards; list discipline and every suspension are kept |
| Silos.State.Doomed | io/silo.cc:381-386 | A closing FD ends on the closers list and on no list of the other hook |
| Silos.State.Freed | io/silo.cc:288-294 | The handle leaves every list and the live set and is recorded as freed once |
| Silos.State.Activated | io/silo.cc:297-313 | A request moves the FD to the active list without double linking and opens its gate |
| Silos.State.AskedAll | io/silo.cc:297-333 | Any sequence of requests keeps the lists disjoint, frees nothing and closes nothing |
| Silos.State.AskedLinks | io/silo.cc:297-333 | Requests link an FD's ActiveIdle hook exactly when one of them activates or ejects it |
| Silos.State.AskedInCall | io/silo.cc:297-313 | During a callback, a want can only have come from a request made since the call began |
| Silos.State.Served | io/silo.cc:362-388 | One callback, whatever it requests and returns, keeps the invariant |
| Silos.State.Settled | io/silo.cc:419-429 | Putting an FD back keeps every hook in at most one list, whatever its callbacks linked; with nothing wanted the active list is unchanged |
| Silos.Actives | io/silo.cc:352-432 | The loop ends with the active list empty, frees nothing, pushes no linked hook |
| Silos.Runners | io/silo.cc:434-446 | The same for the runners and the functions they queue |
| Silos.Busy | io/silo.cc:141-144 | Afterwards both lists are empty |
| Silos.Eject1 | io/silo.cc:341-347 | The oldest FD being ejected is freed, whatever its HandleEject requests |
| Silos.Ejecters | io/silo.cc:339-350 | The list ends empty, with the invariant kept, although HandleEject may eject or revive others |
| Silos.Idled | io/silo.cc:448-472 | A linked hook is pushed if and only if an accepting HandleIdle requested its own FD |
| Silos.Closed | io/silo.cc:481-488 | Every FD on the closers list is freed, in order, once; no other FD changes |
| Silos.Reported | io/silo.cc:95-134 | A report on a live handle closes the FD on error and otherwise leaves it active if it wants anything; it keeps every suspension; a dead handle is refused |
| Silos.Cycle | io/silo.cc:69-156 | A pass keeps the invariant, forgets nothing and leaves no closer behind |
| SiloRuns.Shut | io/silo.cc:376-380 | A gate shut by a suspension stays shut until a request |
| Silos.Silo.Expunge | io/silo.cc:474-479 | In place, exactly what Expunged says |
| Silos.Silo.RequestActivation | io/silo.cc:297-313 | In place, exactly what Activated says |
| Silos.Silo.Run | io/silo.cc:315-323 | The function is queued; the runner is linked unless its hook already is |
| Silos.Silo.Eject | io/silo.cc:325-333 | In place, exactly what the request means |
| Silos.Silo.Add | io/silo.cc:256-281 | A fresh handle, no flags, on the idlers list; refused when the table is full |
| Silos.Silo.Call | io/silo.cc:362-388 | The want is cleared, the handler runs, the outcome is dealt with, as Serve says |
| Silos.Silo.RunActives | io/silo.cc:352-432 | The loop computes Actives |
| Silos.Silo.RunRunners | io/silo.cc:434-446 | The nested loops compute Runners |
| Silos.Silo.RunEjecters | io/silo.cc:339-350 | The loop computes Ejecters |
| Silos.Silo.RunIdlers | io/silo.cc:448-472 | The scan computes Idled |
| Silos.Silo.RunClosers | io/silo.cc:481-488 | The loop computes Closed |
| Silos.Silo.ThreadMain | io/silo.cc:52-169 | The loop, over every sequence of reports, callbacks and admissions, computes the run the whole-run lemmas speak of |
| Escaping.ValidatorIsStandard | core/strings.cc:67-109 | The lead-byte and tail checks accept exactly the characters of section 4 of RFC 3629 |
| Escaping.EscapeString | core/strings.cc:165-220 | The loop computes Escape |
| Escaping.UnescapeString | core/strings.cc:222-283 | The loop computes Unescape, errors included |
| Escaping.UnescapeOfEscape | core/strings.cc:165-283 | Unescaping undoes escaping, for every byte string |
| Escaping.EscapeInjective | core/strings.cc:165-220 | Escaping never maps two strings to one text |
| Escaping.EscapeIsCleanUtf8 | core/strings.cc:165-220 | The escaped text is well-formed UTF-8 with no control byte, whatever the input |
| Escaping.FixedTexts | core/strings.cc:165-220 | Escaping leaves exactly the clean texts alone |
| EscapeLanguage.LettersEscaped | core/strings.cc:183-203 | The seven one-letter escapes, as written and as read |
| EscapeLanguage.SlashUnescaped | core/strings.cc:245-247 | An escaped slash is read as a slash |
| EscapeLanguage.HexDigits | core/strings.cc:111-116 | The digits of both cases and their values |
| EscapeLanguage.NoOtherDigits | core/strings.cc:111-116 | Nothing else is a digit |
| EscapeLanguage.HexUnescaped | core/strings.cc:263-275 | A hexadecimal escape with digits of any case is read as the byte they denote |
| EscapeLanguage.HexEscaped | core/strings.cc:204-210 | Other control bytes and stray high bytes are written as two lower-case digits |
| EscapeLanguage.PlainEscaped | core/strings.cc:211-213 | Any other ASCII byte is written as itself |
| EscapeLanguage.EscapeSplits | core/strings.cc:174-216 | A valid multi-byte character is copied whole; anything else is escaped one byte at a time |
| EscapeLanguage.NothingElseUnescaped | core/strings.cc:232-279 | Every other text after a backslash is refused |
| EscapeLanguage.PlainUnescaped | core/strings.cc:227-230 | Anything but a backslash is read as itself |
| HumanReadables.GetNonZeroUnits | core/strings.cc:35-49 | The loop yields the non-zero units of the mixed-radix decomposition |
| HumanReadables.TotalOfNonZero | core/strings.cc:35-49 | The units sum to the duration |
| HumanReadables.Truncated | core/strings.cc:35-49 | Dropping what lies below the k-th non-zero unit keeps exactly the units up to it |
| HumanReadables.CarryAddsNoUnit | core/strings.cc:138-148 | Rounding up by one of the last unit never makes more units non-zero |
| HumanReadables.PrintedUnits | core/strings.cc:132-160 | At most four units; they sum exactly to the duration rounded half up to its fourth unit; with four or fewer units to the duration itself; the error is at most half a fourth unit |
| HumanReadables.HumanReadable | core/strings.cc:120-163 | The text is the sign and the units of the rounded duration |
| HumanReadables.TextIsExact | core/strings.cc:150-162 | Reading the text back gives exactly the rounded duration |
| HumanReadables.UnitLengths | core/strings.cc:19-28 | The eight units relative to each other, down to one nanosecond, and their suffixes |
| HumanReadables.ExampleRounded | core/strings_test.cc:293-296 | 1h 1m 1s 500ms 600us is rounded to 501 milliseconds |
| HumanReadables.ExampleText | core/strings_test.cc:293-296 | and printed as 1h 1m 1s 501ms |

## Left out

- Encoders.Encoder.AddCapsule: when a nested capsule does not fit, the source records the overflow and goes on encoding into its own header region; the model stops at the recorded error, since `Api.Serialize` shows that a correctly sized encoder never gets there.
- Encoders.Encoder.EncodeChild: ErrorSubcapsuleLies has no counterpart in the contract because it is proved unreachable when the predicted size is right.
- DecoderChecks.AcceptsText: capsules below 2^31 bytes, where the reader's 32-bit sum of pointer and length does not wrap; likewise the other acceptance lemmas.
- DecoderChecks.OpenAccepts: tables of fewer than 2^29 - 1 entries, where the implied length does not wrap.
- RoundTrips.RoundTrip: sizes are below 2^32 (below 2^29 when framed), as the 32-bit cursors need; schemas are finite trees, so a recursive capsule type is unrolled to the depth of the value.
- HandleTables.HandleTable.Free: claimed for handles whose slot was handed out at least once; slots never handed out are uninitialised memory, whose contents the constructor takes as arbitrary.
- HandleTables.HandleTable.Allocate: the generation must still fit an int64_t; after that the shift overflows.
- Mutexes.NoLostWakeup: timed waiters sleep on the value 0 and an uncontended unlock does not notify them, so they are in the mutual-exclusion claim but not in this one.
- HumanReadables.HumanReadable: durations whose negation or rounding overflows int64_t.
- SiloRuns.SuspendContract: runs without load shedding; HandleTable is represented by never repeating handles, which `HandleTables.NeverReissued` justifies.
- Silos.Silo.Run: a queued function is counted, and what it does when it runs is the next entry of the environment's script.
- SiloListing.EveryFdListed: one direction for whole runs, since a run with Run requests may or may not lose an FD; the exact condition is per turn, `SiloRuns.TurnKeepsListed`.
- Weak-memory effects of relaxed atomics; sequential consistency is assumed throughout.
- Primitive vectors: the encoder writes them, but the decoder has no reader for them.
- Signed and floating-point scalars are bit patterns; their arithmetic is not modelled.
- Reads outside memory, which the decoder makes unchecked on hostile input, are the model's own code `Unreadable`.
- Load shedding, affinity, stale entries of `handles_`, clocks, epoll, system calls and the event file descriptor.
- A dead handle named in a request aborts the process; in the model the run ends there. DCHECK failures are not modelled.
- Generated C++ text, ToString, ParseFrom and the capsule text format.
- Timed waits as liveness claims, fairness, and termination of the event loop.
- HTTP, HTML builders, logging, flags, signals, OpenSSL, the stack dumper, small containers, duration arithmetic.
