# Remote attestation: a verified model

The repository attests programs that run on machines it does not trust. A *manager* sends a request with a random
nonce. The *attestator* inside the client decodes the nonce into a window of one of its memory areas and a generator,
walks the window in the order that the generator gives, hashes the bytes with the nonce, and answers. The *verifier*
compares the answer with a hash over data that an *extractor* has prepared from a reference copy of the program.
This project models the four parts and proves what the design rests on.

**The walk.** `NumberTheory` has the general law of the walk `i -> g * i mod m`: it visits m / gcd(g, m) indices, each
gcd(g, m) times. `Nonces` and `NonceInterpretation` have the four diversified decoders, `Memory` the linked list of
blocks that has to behave like one flat byte string, `DataTable` the table of areas, `DataPreparation` the loop.
`Walks` says when prepared data pins down the window. `GoldbachWalks` and `GoldbachPreparation` are the variant that
cuts the window into two primes and walks both parts at once. `PrimeGaps` and `PrimeChain` prove that a 32-bit number
has a prime above its half, so that no window is smaller than half of its area.

**BLAKE2s.** `Rfc7693` transcribes sections 2 and 3 of RFC 7693. `Blake2s` is the repository's streaming code with
its lazy two-block buffer, its counter in two words and its keyed mode, proved to compute that digest for every
message. `MixingInverse` has the inverse of the mixing. `KnownAnswers` ties the transcription to two published digests,
byte for byte: the example of appendix B, and one entry of the repository's own self-test, whose second block is made
of sixteen different words, so that every entry of the message schedule matters. `HalfRounds` shows that a half round
is four separate equations, `Orders` writes the schedule out word by word, and `Traces` has the working vectors.

**The manager.** `Clients`, `GenericLists` and `SchedulerQueues` are the client comparison, the list of served clients
and the queue that stores differences of wake-up times; `Schedules` is the list of absolute times that the queue stands
for. `ManagerRuns` is the event loop as a state machine with its invariant, `Managers` the loop over the real list and
queue, `SleepTimes` the random pause, `Starvation` the proof that no waiting client is passed over for ever while
everybody pauses, and `StarvationBoundary` the exact condition when some clients may not. New entries go in front of
equal due times, except behind a head that is due at the same time: so two clients without a pause can keep a third one
that is due at the same moment waiting, while one alone cannot.

**The exchange.** `Protocol` has the three message formats, `Hashing` the hash input, `Attestators`, `Extractors` and
`Verifiers` the three programs, and `Agreement` the two directions of the whole exchange, for any hash function of
fixed length, with collisions named where they matter instead of assumed away. `Exchanges` runs the four programs one
after the other and reaches the same verdict.

Programs and their specifications share functions. What those functions compute is stated once more without them:
which byte of the area each stored byte is, which area each pair of nonce bytes selects, which slice of a message or
of the hash input is which field, when a visited client is due again, which of the four answers a response gets.

Machine integers are written out: 16-, 32- and 64-bit numbers are subset types, and `Bytes.Wrap` is what an unsigned
register keeps. Memory images are functions from 64-bit addresses to bytes, and each has its own base address.

`dafny verify dfyconfig.toml` verifies everything with Dafny 4.11.

## Where the code does not do what it says

The model follows the code. These differences are stated as lemmas where they have consequences.

- `calculate_index` is documented as a power; it multiplies (`ra_data_preparation.c:35`).
- Versions 1 and 2 document the label at `nonce_size - 4`; all four read two bytes at `nonce_size - 3`.
- Version 1 compares the result of `closest_prime` with -1, which it never returns: below size 2 nothing is reported and
  the window stays undefined (`ra_nonce_interpretation_1.c:74`).
- Version 1 takes the offset modulo the slack, so on sizes that are not prime the last byte is never read.
- Version 2 documents a generator below the size; the code allows it to be the size, and then only byte 0 is read.
- `RA_CLI_compare` narrows a 64-bit difference to `int`: numbers that differ by a multiple of 2^32 are equal to it, and
  the documented sign depends on the low word of their distance (`Clients.CompareOrdersIff` is the exact condition).
- `sq_remove_all_scheduled` removes the first entry only; the invariant of the manager shows that this is all of them.
- `compute_random_sleep` divides by 0 when the variation is a multiple of 2^28 seconds, as 0 is. It can return 0 exactly
  when the wrapped total is not more than what a random number can take off it; without wrap-around that is when the
  variation exceeds the average.
- `ra_mA_get_byte` behind the last byte dereferences a null pointer.
- `ra_do_hash.h` documents the two sizes as part of the hash input; they are not in it.
- The verifier compares as many bytes as it received, not as many as the hash has.

## Model

| member | source | states |
|---|---|---|
| Memory.MemoryArea.InsertBlock | src/client-parametric-files/cond/ra_memory.c:199-252 | block list and 32-bit totals after an insertion: the block is at the end, both totals are the wrapped sums |
| Memory.MemoryArea.GetByte | src/client-parametric-files/cond/ra_memory.c:321-342 | for every index: the byte of the flat buffer if it is below the total size, read at base plus block offset plus what is left of the index in its block, modulo 2^64; the null dereference if not, the empty-area error if there is no block |
| Memory.MemoryArea.FindItem | src/client-parametric-files/cond/ra_memory.c:321-342 | the lookup loop stops at the block that holds the index, with the rest of the index inside that block, or behind the last block |
| Memory.MemoryArea.GetBuffer | src/client-parametric-files/cond/ra_memory.c:279-297 | the buffer receives the blocks one after the other and keeps what lies behind them |
| Blocks.FlattenAt | src/client-parametric-files/cond/ra_memory.c:321-342 | byte i of block k is the flat byte at the sum of the earlier sizes plus i, which is what lower bound and moving index keep in step |
| Blocks.FlatAddress | src/client-parametric-files/cond/ra_memory.c:321-342 | the address of every flat byte, written out |
| Memory.MemoryArea.Dump | src/client-parametric-files/cond/ra_memory.c:372-388 | the dump is the encoded area: label, block count, blocks |
| Memory.ParseArea | src/client-parametric-files/cond/ra_memory.c:427-481 | the parsed area has the announced label and blocks, and the cursor has moved exactly over them |
| AreaFormat.AreaRoundTrip | src/client-parametric-files/cond/ra_memory.c:372-388 | parsing a dumped area of fewer than 2^31 blocks returns its label, count and blocks and stops at the trailing bytes, whatever they are |
| AreaFormat.AreaHeader | src/client-parametric-files/cond/ra_memory.c:427-450 | label and count as little-endian sums of the first six bytes |
| AreaFormat.BlockEntry | src/client-parametric-files/cond/ra_memory.c:123-151 | offset and size of block k as little-endian sums of its twelve bytes |
| DataTable.RaTable.IsLabelDefined | src/client-parametric-files/cond/ra_data_table.c:64-78 | true exactly if the label is among the first `memory_areas_count` areas |
| DataTable.RaTable.InsertMemoryArea | src/client-parametric-files/cond/ra_data_table.c:248-261 | appends, or refuses a missing area or a label among the counted areas; labels stay unique while the 16-bit count is exact |
| DataTable.RaTable.GetMemoryArea | src/client-parametric-files/cond/ra_data_table.c:280-291 | the first area with the label, null if there is none |
| DataTable.RaTable.GetLabelsList | src/client-parametric-files/cond/ra_data_table.c:523-533 | the labels in table order |
| Labels.LookupFindsPosition | src/client-parametric-files/cond/ra_data_table.c:248-291 | with unique labels, looking up the label at a position finds that position |
| NonceInterpretation.FindSelected | src/client-parametric-files/cond/ra_data_table.c:280-291 | the area looked up by the label that the nonce selects is the area at the selected position |
| GenericFunctions.FindClosestPrime | src/ra-additionals/generic_functions.c:8-33 | terminates with the largest prime not above n for n >= 2, with an error and an untouched result below |
| NumberTheory.ClosestPrimeIsUnique | src/ra-additionals/generic_functions.c:8-33 | that prime is unique, so the search has one possible result |
| PrimeChain.ClosestPrimeIsClose | src/ra-additionals/generic_functions.c:19-32 | for every 32-bit n >= 2, the search ends above n / 2 |
| NonceInterpretation.DecodeNonce1 | src/client-parametric-files/cond/ra_nonce_interpretation_1.c:47-86 | the label and the size of the area at (low byte + 256 * high byte) % count; window the closest prime, offset and generator as little-endian sums of bytes 4 to 7 and 0 to 3 modulo slack and window; below size 2, where the error test never fires, the window is what the structure held |
| NonceInterpretation.DecodeNonce2 | src/client-parametric-files/cond/ra_nonce_interpretation_2.c:46-89 | the label and the size of the area at (low byte + 256 * high byte) % count; the whole area as window, its closest prime as generator, or the error below size 2 |
| NonceInterpretation.DecodeNonce3 | src/client-parametric-files/cond/ra_nonce_interpretation_3.c:45-77 | as version 2: label and size of the area at (low byte + 256 * high byte) % count, the whole area, its closest prime, or the error below size 2 |
| NonceInterpretation.DecodeNonce4 | src/client-parametric-files/cond/ra_nonce_interpretation_4.c:45-77 | the label and the size of the area at (low byte + 256 * high byte) % count; the closest prime as window, the next smaller prime as generator, or the error below size 3 |
| Nonces.LastBytesSelect | src/client-parametric-files/cond/ra_nonce_interpretation_4.c:51 | whatever stands in front of the last three bytes, the first two of them choose the area, low byte first |
| Nonces.WindowInsideArea | src/client-parametric-files/cond/ra_nonce_interpretation_1.c:72-83 | for every version, size and nonce, the decoded window is not empty and lies inside the area, and the generator is at least 2 |
| Nonces.Version4Primes | src/client-parametric-files/cond/ra_nonce_interpretation_4.c:65-74 | version 4: an odd prime window and a smaller prime generator |
| Nonces.GeneratorIsCoprime | src/client-parametric-files/cond/ra_nonce_interpretation_3.c:65-73 | generator and window are coprime exactly on the full-walk sizes: at least 3 in version 1, every size in version 4, sizes that their closest prime does not divide in versions 2 and 3 |
| Coverage.FullUnlessPrime | src/client-parametric-files/cond/ra_nonce_interpretation_2.c:74-86 | versions 2 and 3 walk the whole area exactly when its size is not prime, for all 32-bit sizes |
| Coverage.WindowIsMoreThanHalf | src/client-parametric-files/cond/ra_nonce_interpretation_4.c:63-76 | under every nonce of every version the window is more than half of the area |
| Nonces.PrimeSizeReadsOneByte | src/client-parametric-files/cond/ra_nonce_interpretation_2.c:74-86 | versions 2 and 3 on a prime size read byte 0 and no other: the documented generator below the size would not |
| Nonces.Version4Reads | src/client-parametric-files/cond/ra_nonce_interpretation_4.c:63-76 | version 4 reads exactly the bytes below the largest prime, whatever the nonce |
| Nonces.Version1Reads | src/client-parametric-files/cond/ra_nonce_interpretation_1.c:74-84 | version 1 from size 3 on reads exactly the window that its offset selects |
| Nonces.Version1Reaches | src/client-parametric-files/cond/ra_nonce_interpretation_1.c:77-81 | some nonce of version 1 reaches byte k exactly if the size is prime or k is not the last byte |
| NumberTheory.WalkReaches | src/client-parametric-files/cond/ra_data_preparation.c:19-48 | with a coprime generator every index of the window is reached |
| NumberTheory.WalkIsInjective | src/client-parametric-files/cond/ra_data_preparation.c:19-48 | with a coprime generator no two steps give the same index |
| NumberTheory.VisitsPerIndex | src/client-parametric-files/cond/ra_data_preparation.c:100-118 | general walk law: an index is visited gcd(g, m) times if the gcd divides it, and never otherwise |
| NumberTheory.DistinctVisits | src/client-parametric-files/cond/ra_data_preparation.c:100-118 | general walk law: the m steps visit exactly m / gcd(g, m) distinct indices, the multiples of the gcd |
| NumberTheory.CoversWindow | src/client-parametric-files/cond/ra_data_preparation.c:100-118 | all of the window is visited if and only if generator and size are coprime |
| NumberTheory.WalkSteps | src/client-parametric-files/cond/ra_data_preparation.c:100-118 | the walk starts at index 0, and each index is the one before it plus the generator, modulo the size |
| DataPreparation.Walk | src/client-parametric-files/cond/ra_data_preparation.c:97-118 | stored byte i is the flat byte at offset + (generator * i) % size, for every i below the size; every lookup finds a block |
| DataPreparation.PrepareData | src/client-parametric-files/cond/ra_data_preparation.c:50-126 | result code and stored data in all cases: no nonce, failed decode (old data stays), success with stored byte i the byte of the selected area at offset + (generator * i) % window |
| Walks.PreparedInOrder | src/client-parametric-files/cond/ra_data_preparation.c:100-118 | the prepared data lists the bytes in the order of the steps, byte 0 being the one at the offset |
| Walks.WalkIsPermutation | src/client-parametric-files/cond/ra_data_preparation.c:100-118 | the index sequence of a coprime walk is a rearrangement of 0 to m - 1 |
| Walks.PreparedIsPermutation | src/client-parametric-files/cond/ra_data_preparation.c:100-118 | the prepared data is a rearrangement of the window |
| Walks.PreparedAgrees | src/client-parametric-files/cond/ra_data_preparation.c:100-118 | two images prepare alike if and only if they agree on every byte that is read |
| Walks.BindingWhenCoprime | src/client-parametric-files/cond/ra_data_preparation.c:100-118 | equal prepared data means equal windows when generator and size are coprime |
| Walks.BindingIffCoprime | src/client-parametric-files/cond/ra_data_preparation.c:100-118 | prepared data pins down the window if and only if generator and size are coprime |
| Walks.DecodedIsBinding | src/client-parametric-files/cond/ra_nonce_interpretation_4.c:65-74 | for every nonce of every version: prepared data pins down the window exactly on the full-walk sizes |
| GoldbachWalks.ReadsInBounds | src/client-parametric-files/cond/ra_data_preparation_goldbach.c:136-147 | every read of both walks is inside its half, and so inside the area |
| GoldbachWalks.RightHalfOnce | src/client-parametric-files/cond/ra_data_preparation_goldbach.c:117-155 | every byte of the right half is read in exactly one step when its multiplier is not 0 modulo its size |
| GoldbachWalks.LeftHalfCovered | src/client-parametric-files/cond/ra_data_preparation_goldbach.c:117-155 | every byte of the left half is read in some step when its multiplier is not 0 modulo its size |
| GoldbachWalks.CoversBothHalves | src/client-parametric-files/cond/ra_data_preparation_goldbach.c:117-155 | the whole window is read if and only if neither multiplier is 0 modulo the size that it walks |
| GoldbachWalks.DecodedCoverage | src/client-parametric-files/cond/ra_data_preparation_goldbach.c:82-89 | the same in terms of the decoded generator: it is no multiple of the left size, nor is its residue modulo the right size |
| GoldbachWalks.ChangedPositions | src/client-parametric-files/cond/ra_data_preparation_goldbach.c:136-153 | a changed byte changes exactly the output positions whose step reads it |
| GoldbachWalks.SingleChangeShows | src/client-parametric-files/cond/ra_data_preparation_goldbach.c:117-155 | a single changed byte changes the prepared data if and only if it is read |
| GoldbachWalks.NeverBinds | src/client-parametric-files/cond/ra_data_preparation_goldbach.c:136-153 | every image has another one, different in every byte of the window, that prepares alike: the data never pins down the window |
| Coverage.GoldbachCoverage | src/client-parametric-files/cond/ra_data_preparation_goldbach.c:82-89 | versions 2, 3 and 4: the whole window is read if and only if the generator is not the size of the right half |
| GoldbachWalks.RightChangeShowsOnce | src/client-parametric-files/cond/ra_data_preparation_goldbach.c:136-153 | a changed byte of the right half changes exactly one output position |
| GoldbachPreparation.WalkHalves | src/client-parametric-files/cond/ra_data_preparation_goldbach.c:114-155 | the loop fills the buffer with the sums of both walks; every lookup finds a block |
| GoldbachPreparation.PrepareData | src/client-parametric-files/cond/ra_data_preparation_goldbach.c:56-162 | result code and stored data in all cases; on success byte i is the sum modulo 256 of the two bytes at the i-th multiples of either residue of the generator, in the halves that the table gives for the evened window |
| GoldbachWalks.PreparedInOrder | src/client-parametric-files/cond/ra_data_preparation_goldbach.c:117-155 | byte i of the data as a sum of two indexed bytes, modulo 256 |
| GoldbachPreparation.PreparedForInOrder | src/client-parametric-files/cond/ra_data_preparation_goldbach.c:56-162 | the same in terms of nonce bytes, decoded window and partition table |
| Blake2s.Blake2sState.Init | src/ra-additionals/external/blake2s-ref.c:156-175 | -1 outside lengths 1 to 32; otherwise the chaining value of section 2.5 and nothing absorbed |
| Blake2s.Blake2sState.InitKey | src/ra-additionals/external/blake2s-ref.c:177-207 | -1 for bad lengths; otherwise the keyed parameter word, and the zero-padded key absorbed as one block |
| Blake2s.ParamWords | src/ra-additionals/external/blake2s-ref.c:142-175 | the parameter bytes change the first initial word as section 2.5 of RFC 7693 says, and no other |
| Blake2s.Blake2sState.IncrementCounter | src/ra-additionals/external/blake2s-ref.c:70-75 | two 32-bit words with carry count modulo 2^64 |
| Blake2s.Blake2sState.Compress | src/ra-additionals/external/blake2s-ref.c:209-267 | the new chaining value is the compression function of section 3.2 of RFC 7693, whose table and order the two known answers below fix |
| Blake2s.StartInWords | src/ra-additionals/external/blake2s-ref.c:217-227 | two counter words and two flag words xored in make the working vector of the standard |
| Blake2s.MixLane | src/ra-additionals/external/blake2s-ref.c:228-238 | the macro is the mixing function of section 3.1, in place |
| Blake2s.Round | src/ra-additionals/external/blake2s-ref.c:239-249 | four columns, then four diagonals, with the scheduled words |
| MixingInverse.RoundsBackAndForth | src/ra-additionals/external/blake2s-ref.c:228-259 | for every message block and number of rounds, the mixing is a bijection on the sixteen words, with the explicit inverse |
| Blake2s.Blake2sState.Absorb | src/ra-additionals/external/blake2s-ref.c:272-295 | one turn of the loop: which bytes go into the buffer, and when a block is compressed |
| Blake2s.Blake2sState.Update | src/ra-additionals/external/blake2s-ref.c:270-298 | the input is absorbed, and the state again holds all but the last two blocks in the chaining value, with the counter to match |
| Blake2s.LazyKeepsTwoBlocks | src/ra-additionals/external/blake2s-ref.c:270-298 | after n bytes, max(0, ceil(n / 64) - 2) blocks are compressed; the rest fits the buffer |
| Blake2s.Blake2sState.UpdateInPieces | src/ra-additionals/external/blake2s-ref.c:270-298 | any way of cutting the input absorbs the same bytes |
| Blake2s.StateIsDetermined | src/ra-additionals/external/blake2s-ref.c:270-298 | start and absorbed bytes fix chaining value, both counter words, buffered length and buffered bytes |
| Blake2s.Blake2sState.Final | src/ra-additionals/external/blake2s-ref.c:300-322 | the first bytes of the digest of everything absorbed; the counter is its length modulo 2^64 |
| Blake2s.Blake2s | src/ra-additionals/external/blake2s-ref.c:324-347 | the digest of section 3.3 of RFC 7693 for every message, key up to 32 bytes and length 1 to 32; -1 exactly for the other parameters |
| KnownAnswers.AbcDigest | src/ra-additionals/external/blake2s-ref.c:324-347 | the digest of the bytes of "abc" without a key is the one of appendix B of RFC 7693, byte for byte |
| KnownAnswers.KeyedDigest | src/headers/external/blake2-kat.h:1953-1958 | the digest of the bytes 0 to 63 under the key 0 to 31 is entry 64 of the keyed table of the self-test: two blocks, and all sixteen words of the second are different |
| KnownAnswers.WorkingVector | src/ra-additionals/external/blake2s-ref.c:217-227 | all sixteen words before the first round, with the literal initial values |
| KnownAnswers.InitialWords | src/ra-additionals/external/blake2s-ref.c:142-175 | all eight initial words as literals, with key and digest length in the first |
| Traces.Abc9 | src/ra-additionals/external/blake2s-ref.c:239-259 | ten rounds over the block of "abc" end in the literal words, through twenty half rounds that are literals too |
| HalfRounds.HalfRound | src/ra-additionals/external/blake2s-ref.c:239-249 | the four mixings of a half round touch disjoint positions, so that four separate equations fix its result |
| HalfRounds.LanesPartition | src/ra-additionals/external/blake2s-ref.c:239-249 | the columns cover all sixteen positions once, and so do the diagonals |
| Clients.CompareIsZero | src/ra-additionals/ra_client.c:45-60 | comparing equal means equal application and attestator numbers equal modulo 2^32 |
| Clients.CompareIsExact | src/ra-additionals/ra_client.c:45-60 | below 2^32 comparing equal means the same client |
| Clients.CompareMissesUpperHalf | src/ra-additionals/ra_client.c:58 | for every client there is another attestator number that compares equal |
| Clients.CompareOrdersIff | src/ra-additionals/ra_client.c:45-60 | for one application, the documented sign is right if and only if the numbers are equal or their distance modulo 2^32 is not 0 and less than 2^31, or just 2^31 when the first is smaller |
| Clients.CompareMisorders | src/ra-additionals/ra_client.c:58 | at a distance of 2^31 the larger number compares as the smaller one |
| Clients.CompareOrders | src/ra-additionals/ra_client.c:45-60 | for numbers below 2^31 of one application, the result is the difference |
| Clients.CompareByApplication | src/ra-additionals/ra_client.c:45-60 | for different applications the first different byte decides the sign |
| GenericLists.Find | src/ra-additionals/generic_list.c:70-88 | the place of the first item that compares equal, or the length |
| GenericLists.GenericList.IsContaining | src/ra-additionals/generic_list.c:70-78 | true exactly if some item compares equal |
| GenericLists.GenericList.GetReference | src/ra-additionals/generic_list.c:80-88 | the first item that compares equal, or nothing |
| GenericLists.GenericList.Insert | src/ra-additionals/generic_list.c:52-68 | puts the item at the head, or refuses what compares equal to an item; the list never holds two such |
| GenericLists.GenericList.Remove | src/ra-additionals/generic_list.c:115-141 | returns and unlinks the first item that compares equal, and nothing else; needs a list that is not empty |
| SchedulerQueues.SchedulerQueue.Insert | src/ra-additionals/scheduler_queue.c:30-61 | the spliced list of differences is the schedule with one more entry at now + t |
| SchedulerQueues.SchedulerQueue.Scan | src/ra-additionals/scheduler_queue.c:47-54 | the search loop stops at the place of the absolute time, with its running sum |
| Schedules.InsertKeepsOrder | src/ra-additionals/scheduler_queue.c:30-61 | one entry more, due at now + t, no other due time moved, order kept |
| Schedules.InsertedPlace | src/ra-additionals/scheduler_queue.c:41-55 | where the new entry goes: first if it is due before the head, and otherwise behind the head and in front of the first other entry that is due no earlier |
| Schedules.InsertedDeltas | src/ra-additionals/scheduler_queue.c:52-59 | of the stored differences only the two next to the new entry change |
| SchedulerQueues.SchedulerQueue.UpdateTimeUnslept | src/ra-additionals/scheduler_queue.c:63-70 | sets the clock so that the head is due after the given time, or refuses more time than there was and changes nothing |
| Schedules.UnsleptShiftsAll | src/ra-additionals/scheduler_queue.c:63-70 | every client comes nearer by the same time, and the other differences stay; the head may become negative |
| SchedulerQueues.SchedulerQueue.GetTimeToSleep | src/ra-additionals/scheduler_queue.c:72-75 | the time until the head is due, 3600 seconds for an empty queue |
| SchedulerQueues.SchedulerQueue.Remove | src/ra-additionals/scheduler_queue.c:77-86 | pops the head and moves the clock to its due time |
| Schedules.PopTakesMinimum | src/ra-additionals/scheduler_queue.c:77-86 | nobody is due before the popped entry; all other entries stay |
| SchedulerQueues.SchedulerQueue.RemoveAllScheduled | src/ra-additionals/scheduler_queue.c:88-124 | returns and removes the first entry of the client, only that one |
| Schedules.RemoveKeepsOtherTimes | src/ra-additionals/scheduler_queue.c:88-124 | no other due time moves; nothing happens exactly if no entry is of the client |
| Schedules.RemovedDeltas | src/ra-additionals/scheduler_queue.c:99-121 | the entry behind takes over the difference of the one that goes |
| Schedules.DeltasAddUp | src/ra-additionals/scheduler_queue.c:48-50 | the differences up to an entry add up to the time until it is due |
| Schedules.OrderedByDeltas | src/ra-additionals/scheduler_queue.c:41-59 | due times are in order if and only if all differences but the first are not negative |
| SchedulerQueues.SchedulerQueue.Destroy | src/ra-additionals/scheduler_queue.c:126-137 | releases as many items as are counted, each once, which is all of them below 2^32 |
| SleepTimes.CanSleepIff | src/server-components/manager.c:221-229 | the division is defined if and only if the variation is no multiple of 2^28, of which 0 is only the first |
| SleepTimes.PausesIff | src/server-components/manager.c:221-229 | for every client whose division is defined: the sleep is longer than 0, and then at least a millisecond, for every random number, if and only if the total is more than can be taken off it |
| SleepTimes.SleepStaysWithin | src/server-components/manager.c:221-229 | for every client whose division is defined, wrap-around included: the sleep is in (avg - var, avg + var] for every random number, with the exact condition |
| SleepTimes.ModerateBoundary | src/server-components/manager.c:221-229 | without wrap-around, var <= avg is the boundary of both |
| SleepTimes.PatientSleep | src/server-components/manager.c:221-229 | the sleep in closed form when var <= avg and nothing wraps around |
| SleepTimes.SleepFormula | src/server-components/manager.c:221-229 | the random sleep of every client whose division is defined, with all wrap-arounds, in one formula |
| Managers.ActualManager.Serve | src/server-components/manager.c:231-282 | served exactly if the query succeeded, at least 10 nonces are left and the request was sent; the extractor is launched exactly if the query succeeded and fewer than 10 are left |
| ManagerRuns.LaunchRetries | src/server-components/manager.c:256-264 | a client for which the extractor is launched is a served one, and due again five seconds after its turn |
| ManagerRuns.TimeoutReschedules | src/server-components/manager.c:485-503 | every timeout on a queue that is not empty: when the head is due next in each case, that the others stay, and when the extractor is launched |
| ManagerRuns.ClientUpEnlists | src/server-components/manager.c:522-547 | a newcomer comes first in the list and is due after its random sleep; a served client changes neither; nobody else moves |
| ManagerRuns.ClientDownDelists | src/server-components/manager.c:555-580 | everybody with another key keeps list item and due time |
| ManagerRuns.NothingAfterDie | src/server-components/manager.c:587-598 | the order to die ends the run, with clients and due times as they were, whatever comes next |
| Managers.ActualManager.OnTimeout | src/server-components/manager.c:480-503 | the real list and queue follow the timeout step: the head is due again five seconds later after a query error, with fewer than 10 nonces or without a sent request, otherwise after its random sleep |
| Managers.ActualManager.OnClientUp | src/server-components/manager.c:509-546 | the same for a client that comes up |
| Managers.ActualManager.OnClientDown | src/server-components/manager.c:553-579 | the same for a client that goes down |
| Managers.ActualManager.Routine | src/server-components/manager.c:452-602 | for every sequence of events, the event loop reaches the state of the state machine and launches the extractor for the same clients |
| ManagerRuns.TimeoutKeepsConsistent | src/server-components/manager.c:486-503 | a timeout keeps the list and the queue consistent |
| ManagerRuns.ClientUpKeepsConsistent | src/server-components/manager.c:521-546 | so does a client that comes up, new or known |
| ManagerRuns.ClientDownKeepsConsistent | src/server-components/manager.c:553-579 | so does a client that goes down: list and queue drop the same client |
| ManagerRuns.Run | src/server-components/manager.c:470-598 | every run keeps the state consistent |
| ManagerRuns.ServedExactlyOnce | src/server-components/manager.c:485-579 | in a consistent state every served key has exactly one entry in the queue, and nothing else has one |
| ManagerRuns.InEveryRun | src/server-components/manager.c:452-602 | after any events: keys unique, one entry per served client, both counts exact, and only the stored difference of the head may be negative |
| ManagerRuns.OverdueAfterWaking | src/server-components/manager.c:513-517 | nobody is overdue after a signal if and only if it was not late; a late one that is accepted makes exactly the entries near the head overdue |
| ManagerRuns.PunctualRuns | src/server-components/manager.c:470-598 | in every run whose signals are on time, no client is ever overdue |
| ManagerRuns.DownLeavesNothing | src/server-components/manager.c:558-573 | removing the first match leaves no entry and no list item of the client |
| Starvation.VisitUsesUp | src/server-components/manager.c:494-502 | a pause of at least d uses up one of the visits that can come before a deadline |
| Starvation.EventBringsNearer | src/server-components/manager.c:485-579 | every event keeps the waiting entry; a timeout that goes to another client lowers the measure |
| Starvation.NobodyStarves | src/server-components/manager.c:485-503 | in every run with pauses of at least d, a waiting client is served once there were as many timeouts as the measure, plus the visits of arriving clients, allows |
| Starvation.PausingRunsAreFair | src/server-components/manager.c:221-229 | runs have such pauses when the sleep of no client can vanish: a millisecond, or five seconds after a failure |
| StarvationBoundary.NoPauseStarves | src/server-components/manager.c:485-503 | behind a client that is due earlier and comes back without a pause whenever it is served, nobody is served, in every such run |
| StarvationBoundary.TiedClientsStarve | src/ra-additionals/scheduler_queue.c:41-55 | two clients that are due together with a third one, ahead of it, and come back without a pause, take turns and keep it waiting, in every such run |
| StarvationBoundary.PatienceFalls | src/server-components/manager.c:485-503 | otherwise every timeout lowers an explicit bound on how long the entry can be kept waiting |
| StarvationBoundary.StarvationIff | src/server-components/manager.c:485-503 | for every consistent state and every entry: it can be kept waiting for any number of timeouts if and only if somebody due earlier can sleep for no time, or two of those ahead of it can |
| Protocol.BuildRequest | src/server-components/manager.c:312-318 | the packed request is its encoding: id in the first 8 bytes, length in the next 4, then the nonce |
| Protocol.RequestRoundTrip | src/client-parametric-files/uncond/attestator.c:58-68 | the attestator reads back id and nonce, whatever follows them |
| Protocol.ParsedRequestIsSent | src/client-parametric-files/uncond/attestator.c:58-68 | what it reads is the only request that the bytes can start with |
| Protocol.BuildResponse | src/client-parametric-files/uncond/attestator.c:138-163 | the packed response is its encoding: application, attestator number, request id and length at bytes 0, 16, 24 and 32, then the hash |
| Protocol.ResponseRoundTrip | src/server-components/verifier.c:59-69 | the verifier reads back time, application, attestator, request and hash from what the forwarder writes |
| Protocol.ForwardLayout | src/server-components/verifier_forwarder.c:143-146 | which slice of the forwarded bytes is which field, the time first and in two's complement |
| Protocol.HeaderLayout | src/server-components/verifier.c:59-69 | which slice of the header is which field, with the time in two's complement |
| Hashing.DoHash | src/client-parametric-files/cond/ra_do_hash_blake2.c:18-73 | BLAKE2s over nonce, data, application and attestator number; the error exactly for an over-long key |
| Hashing.HashInputLayout | src/client-parametric-files/cond/ra_do_hash_blake2.c:35-59 | which slice of the hash input is which of the four fields |
| Hashing.HashInputSeparates | src/client-parametric-files/cond/ra_do_hash_blake2.c:35-59 | two hash inputs are equal if and only if application, attestator and the joined nonce and data are |
| Hashing.SameNonceSeparatesData | src/client-parametric-files/cond/ra_do_hash_blake2.c:35-59 | under one nonce, different data makes different input |
| Attestators.AttestatorRoutine | src/client-parametric-files/uncond/attestator.c:31-192 | response, nonce and prepared data in all cases: shut down, failed preparation, answered request |
| Extractors.ExtractOne | src/server-components/extractor.c:228-300 | what is stored is the prepared data of the reference image, or what was prepared before if that fails |
| Verifiers.Verify | src/server-components/verifier.c:59-185 | outcome for every input stream: short header, short hash, unknown request, over-long hash, or the verdict with status, reaction and elapsed time |
| Verifiers.ForwardedVerification | src/server-components/verifier.c:129-159 | for a forwarded response the verdict is about its own fields: right if its hash is a prefix of the computed one, in time by the difference to the send time; all four answers written out |
| Verifiers.FullHashPassesIffEqual | src/server-components/verifier.c:137-157 | a hash of full length passes if and only if it is the computed one; the difference to the send time decides which success or which failure it is, and is the recorded time |
| Verifiers.StreamDecides | src/server-components/verifier.c:59-185 | every stream that begins with a header: short hash, unknown request, over-long hash, or status, reaction and elapsed time, each written out |
| Verifiers.EmptyHashPasses | src/server-components/verifier.c:137 | a hash of no bytes passes, since the comparison is as long as the received hash |
| Agreement.DataDecides | src/server-components/verifier.c:129-157 | the stored data passes; other data fails, in time or too late by the difference to the send time, or its hash collides |
| Agreement.ExchangeDecides | src/client-parametric-files/uncond/attestator.c:58-113 | from request bytes to verdict: memory that agrees with the reference on every byte read passes, any other is rejected or collides |
| Agreement.HonestMemoryPasses | src/server-components/verifier.c:137-146 | an area equal to the reference passes for every nonce, and only time decides between the two kinds of success |
| Agreement.PassingBindsWindow | src/server-components/verifier.c:137-157 | on full-walk sizes a window passes if and only if it is the window of the reference, or the hash collides |
| Exchanges.AttestOnce | src/client-parametric-files/uncond/attestator.c:31-192 | the four programs run one after the other on two tables and two images reach that verdict, with BLAKE2s, with status and elapsed time written out |
| GoldbachWalks.PreparedAgrees | src/client-parametric-files/cond/ra_data_preparation_goldbach.c:117-155 | two images prepare alike if and only if the sums of both walks agree at every step |
| Agreement.GoldbachExchangeDecides | src/client-parametric-files/cond/ra_data_preparation_goldbach.c:56-162 | with the Goldbach walk, for every nonce whose window has a row: the response passes if the sums of both walks agree at every step, and is otherwise rejected or collides |
| Agreement.GoldbachChangeDecides | src/client-parametric-files/cond/ra_data_preparation_goldbach.c:117-155 | with the Goldbach walk one changed byte is rejected, or collides, exactly when it is read |

## Left out

- I/O: MySQL, web sockets, `fork` and `exec`, files, logs and printing. What they answer is a parameter of the model.
- Thread mailboxes: the manager's events come one at a time, each already delivered. Lost or overwritten signals and
  spurious wake-ups are not modelled, nor is the choice of the least loaded manager.
- Startup attestation of a new client, which does not touch the list or the queue.
- `transform_time_to_sleep`, `time_left` and clock drift: the time left after an interrupted sleep is a parameter, and
  while the queue is empty its clock stands still.
- Floats: times to sleep are real numbers, without rounding.
- Allocation failures; memory is released where the code says so, but use after release is not modelled.
- Sharing: the list copies a client and the queue keeps a reference to the passed one; in the model both hold values.
- Primality: `BN_is_prime_ex` is exact primality.
- The OpenSSL hashes: they are covered by the theorems of `Agreement`, which hold for any hash of fixed length, but the
  wrappers are not modelled.
- BLAKE2s tree mode, salt, personalisation and the last-node flag: the repository never sets them.
- The 10239 rows of the Goldbach table: `GoldbachWalks.Partitions` is any table with the contract that they are meant
  to have, for even sizes from 4 to 20480. Larger windows have no row, and are excluded.
- `gl_delete`, `gl_destroy`, `ra_mA_remove_block`, `ra_remove_memory_area`: they do not keep counts or ends of the
  lists, and nothing that is modelled calls them.
- Dump and parse of a whole table: they use two different formats, so that only areas make a round trip.
- `verifiers_list.c`, the text parsers, the Java annotation tool and the diversification table.
- Attestators.AttestatorRoutine: has the normal preparation linked in; with the Goldbach preparation the exchange is
  stated about the reply to its prepared data (`Agreement.GoldbachExchangeDecides`).
- ManagerRuns.Run: after the order to die the state is left as it is; the release of the queue is `Destroy`, that of
  the list is not modelled.
- Memory.MemoryArea.GetByte: says what the byte is only while the sizes of the blocks add up to less than 2^32, since
  the 32-bit lower bound wraps around beyond that.
- Memory.MemoryArea.GetBuffer: areas of 2^32 bytes or more are excluded; there the 32-bit position in the buffer wraps
  around, and blocks overwrite each other.
- AreaFormat.AreaRoundTrip: areas of 2^31 blocks or more are excluded; the parser counts blocks in a signed number.
- Protocol.ParseRequest: a buffer that is shorter than its header announces is excluded, since the attestator does not
  look at the length of what it receives.
- Hashing.DoHash: nonce, data and application must have fewer than 2^32 bytes together, since the code adds the three
  lengths in 32 bits.
- Verifiers.Verify: a hash longer than the computed one makes the comparison read behind its end; the model stops there
  with an outcome of its own. A pipe hands over what is in it at once.
