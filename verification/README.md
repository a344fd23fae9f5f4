# Proofs about the NEMEA modules

Dafny models of seven parts of this repository and proofs of what they promise. Each part can be read alone.

* **Rijndael** (`anonymizer/rijndael.c`). `SBoxes`, `GaloisField`, `Cipher` and `KeyExpansion` are the AES of FIPS 197
  (sections 5.1 to 5.3.5), and `SBoxField` says what the substitution tables are in the field; `RijndaelTables` and
  `Rijndael` are the table-driven code with its in-place key schedule, and compute just that. `BlockModes` and
  `RijndaelModes` are the padded ECB and CBC modes, `BitFeedback` the bit-serial CFB mode over one block (section 6.3 of
  NIST SP 800-38A with s = 1). `ZeroKey` is the whole computation for the key of zero bytes, round by round.
* **Mersenne Twister** (`topn/twister.h`). `Twister`: the pointer-walking generator yields the infinite recurrence.
* **Crypto-PAn** (`anonymizer/panonymizer.c`). `PrefixPreserving` is the map on bit strings under any function of a
  prefix; `Anonymizer` is the code for words and bytes, in both directions; `Prefixes` has the theorems about addresses
  and `ip_anonymize`.
* **NAT pairing** (`natpair/natpair.cpp`). `NatFlow` is the pairing relation, `NatPairing` one list of waiting flows with
  its run theorems, `NatViews` what is sent and what expires in terms of the records received, `NatCache` the hash map of
  buckets that refines the list, `NatQueue` the threads step by step.
* **Time series** (`scalar-aggregator`). `TimeSeries` is one ring of windows and what a flow adds to it, `TimeRuns` has
  runs of one database, `RuleRuns` those of all rules of the program, whatever their filters; `TimeDb` is the rotating
  array, and `RuleSet` the main loop with the flush of all databases, from program start.
* **Aggregation and distinct counting** (`aggregator`, `ipv6stats`). `AggFunctions`, `Aggregation` and `AggregatorBooks`
  say what a group of records comes to and which record is in which group; `Aggregator` is the storage of records changed
  in place. `WindowEnds` and `Ipv6Stats` are the two windows of unique addresses and prefixes, `Ipv6Runs` whole runs.
* **Text machines** (`luamodule/template.c`, `logreplay/logreplay.cpp`). `Template` and `TemplateDelete` treat template
  specifications as lists of fields, `TemplateSpec` is the in-place code; `CsvField` reads quoted fields.

`Filters`, `Bits` and `Arithmetic` hold what several of them use. `dafny verify dfyconfig.toml` checks everything.

Where a promise does not hold, theorems say exactly when it does:

* padded ECB fails for whole-block lengths (`BlockModes.PaddedRoundTrip`);
* a block of one-bit feedback comes back from an object set up for decryption exactly when its key bits happen to agree
  with those of encryption (`BitFeedback.FeedbackSession`), and never under zero key and vector
  (`BitFeedback.WrongDirectionFlips`); set up for encryption, always;
* the time series conserve a flow's value unless it leaves the ring, starts some milliseconds after a window has ended,
  or has no length and no positive value (`TimeSeries.SavedExactly`);
* as long as no database is reset for inactivity, a rule keeps its delay exactly when every rule leaves it room, by
  their steps and first rings (`RuleRuns.DelayExactly`, from the options `ProgramDelayExactly`): as all databases are
  rolled equally often, all rules of a program keep theirs exactly when they have one step and close delays
  (`RuleRuns.AllKeepDelay`), and options given between rules can break it;
* a reset breaks the promise for each delay that reaches back before the window in which the flow that caused it starts
  (`TimeRuns.ResetBreaksDelay`);
* a re-initialised ring is one only if it was never rolled (`TimeSeries.InitRing`);
* the average of negative narrow integers goes through unsigned arithmetic (`AggFunctions.MakeAvgExactly`,
  `AggFunctions.NegativeAverageFails`);
* windows of unrelated lengths do not nest (`WindowEnds.NestedExactlyForMultiples`): the IPv4 counts of the short window
  are right in every run when the long one is a multiple of it (`Ipv6Stats.Ipv6Stats.Valid`, kept by every method), and for every
  other pair of sizes a run counts an address twice (`Ipv6Stats.Overcounts`);
* a delete takes the field of a name exactly when the first token that is this name is not a type
  (`TemplateDelete.DeleteExactly`); otherwise it takes this one token (`TemplateDelete.DeleteType`). For several deletes
  and a trim after each of them the condition at each is exact (`DeletesExactly`); for the one trim of `field_del` it is
  sufficient (`DeletesThenTrim`) and not necessary (`LaterDeleteMayRepair`);
* an address field that was anonymized and deanonymized is restored exactly when it held an IPv4 address or its image
  does not look like one (`Prefixes.ThereAndBack`);
* a backslash can hide a closing quote: quoted text is read back exactly when a flag, flipped at each quote directly
  after a backslash and by a backslash at the end, ends unset and no comma follows a quote while it is set
  (`CsvField.ReadingUndoesJoining`).

Code and comments disagree in places, and the code is followed: `Rijndael_padEncrypt` answers a wrong direction with
"not initialized"; the two modes accept different extreme pad lengths; `timedb_init` does not reset the position of the
first window or the unique items; the example in `rijndael.h` passes an uninitialised length, which is read as that of the
plaintext. `rule_create` refuses every rule with a filter, as if memory had run out (`scalar-aggregator/aggregator.c:523-527`);
here the documented filters are kept, and the theorems about rules hold for any outcome of them.

## Model

| member | source | states |
|---|---|---|
| SBoxes.SubInverse | anonymizer/rijndael.c:687-753 | `S5` is the inverse permutation of `S`, in both orders |
| SBoxField.SubIsAffine | anonymizer/rijndael.c:122-140 | for every byte, `S` is the affine map of section 5.1.1 of FIPS 197 applied to the inverse in the field, 0 for 0 |
| SBoxField.InvSubIsInverse | anonymizer/rijndael.c:687-753 | for every byte, `S5` takes that value back |
| SBoxField.HasInverse | anonymizer/rijndael.c:122-140 | every byte has such an inverse |
| SBoxField.OneInverse | anonymizer/rijndael.c:122-140 | and only one, as there are no divisors of zero |
| SBoxField.MultiplesAreProducts | anonymizer/rijndael.c:143-413 | the multiples in the tables are products in the field |
| GaloisField.MixInverse | anonymizer/rijndael.c:1522-1538 | the mixing of columns and its inverse undo each other on every column |
| GaloisField.InvMixAdd | anonymizer/rijndael.c:1522-1538 | inverse mixing distributes over the addition of a round key |
| Cipher.DecryptEncrypt | anonymizer/rijndael.c:1615-1689 | for any schedule and number of rounds, the straight inverse cipher of FIPS 197 5.3 undoes the cipher of 5.1 |
| Cipher.EncryptDecrypt | anonymizer/rijndael.c:1540-1613 | and the cipher undoes the inverse cipher |
| Cipher.EqInvDecryptIsDecrypt | anonymizer/rijndael.c:1615-1689 | the equivalent inverse cipher of 5.3.5, over a schedule with inner round keys inversely mixed, is the inverse cipher |
| Cipher.EncryptPrefix | anonymizer/rijndael.c:1540-1613 | the cipher depends only on the round keys of its rounds, whatever else the fixed key array holds |
| KeyExpansion.CipherInverse | anonymizer/rijndael.c:1444-1689 | encryption and decryption under one 16-, 24- or 32-byte key are inverse permutations |
| ZeroKey.KnownAnswer | anonymizer/rijndael.c:1444-1689 | the zero block under the zero key becomes 66e94bd4ef8a2c3b884cfa59ca342b2e, and back |
| RijndaelTables.RconIsXPower | anonymizer/rijndael.c:1027-1034 | the round constants that are used are the powers of x |
| RijndaelTables.TablesAreRounds | anonymizer/rijndael.c:143-413 | looking up and adding entries of T1 to T4 is SubBytes, ShiftRows and MixColumns; the last round is the first two |
| RijndaelTables.InvTablesAreRounds | anonymizer/rijndael.c:415-753 | entries of T5 to T8 give the inverse round, entries of S5 the last inverse round |
| RijndaelTables.InvTableColumn | anonymizer/rijndael.c:755-1025 | entries of U1 to U4 add up to the inverse mixing of a column |
| Rijndael.NextKeyBlock | anonymizer/rijndael.c:1481-1506 | one in-place turn takes the key matrix from one block of the word-by-word expansion to the next |
| Rijndael.Rijndael.CopyKeyBlock | anonymizer/rijndael.c:1463-1477 | a block of 4, 6 or 8 words is copied behind the words written so far, up to the last round key and no further |
| Rijndael.Rijndael.KeySched | anonymizer/rijndael.c:1444-1520 | the schedule is the key expansion of FIPS 197 5.2 for all three key sizes, within the bounds of the arrays |
| Rijndael.Rijndael.KeyEncToDec | anonymizer/rijndael.c:1522-1538 | the round keys become those of the equivalent inverse cipher |
| Rijndael.Rijndael.EncryptBlock | anonymizer/rijndael.c:1540-1613 | the table-driven rounds compute the cipher, also in place, and change only sixteen bytes |
| Rijndael.Rijndael.DecryptBlock | anonymizer/rijndael.c:1615-1689 | the table-driven rounds compute the equivalent inverse cipher, also in place |
| Rijndael.Rijndael.Encrypt | anonymizer/rijndael.c:1540-1613 | set up for encryption, a block becomes the AES encryption under the key |
| Rijndael.Rijndael.Decrypt | anonymizer/rijndael.c:1615-1689 | set up for decryption, a block becomes the AES decryption under the key |
| Rijndael.Rijndael.Init | anonymizer/rijndael.c:1059-1126 | which error is returned for which arguments; on success the object is ready with exactly this key, mode, direction and vector |
| BlockModes.DecryptedUndoes | anonymizer/rijndael.c:1368-1437 | block-wise decryption with chaining undoes chained encryption of any whole number of blocks |
| BlockModes.UnpadPadded | anonymizer/rijndael.c:1392-1428 | unpadding inverts padding, except that ECB calls a whole block of padding corrupted |
| BlockModes.PaddedRoundTrip | anonymizer/rijndael.c:1213-1437 | pad, encrypt, decrypt, unpad is the identity in CBC always, and in ECB if and only if the length is no multiple of 16 |
| RijndaelModes.EcbPadEncrypt | anonymizer/rijndael.c:1227-1239 | the output is the padded input, encrypted block by block |
| RijndaelModes.CbcPadEncrypt | anonymizer/rijndael.c:1240-1262 | the output is the padded input, each block masked with the ciphertext before it |
| RijndaelModes.PadEncrypt | anonymizer/rijndael.c:1213-1269 | the returned length or error in every state, and the padded ciphertext in the buffer |
| RijndaelModes.CheckPadding | anonymizer/rijndael.c:1392-1398 | the checks accept exactly the texts that unpad, and yield the length of the pad |
| RijndaelModes.DecryptBlocks | anonymizer/rijndael.c:1383-1434 | the buffer gets the unpadded plaintext, or the data are called corrupted, also when the buffers are one |
| RijndaelModes.PadDecrypt | anonymizer/rijndael.c:1368-1437 | the returned length or error in every state, and the plaintext in the buffer |
| RijndaelModes.Session | anonymizer/rijndael.h:111-135 | the documented session returns its input for every key, vector and length, except whole-block lengths in ECB |
| BitFeedback.FeedbackRoundTrip | anonymizer/rijndael.c:1167-1358 | changing a text by the key bits of the ciphertext fed back, over one schedule and then over another, restores it exactly when all 128 key bits agree for this ciphertext; always over one schedule |
| BitFeedback.RegisterBits | anonymizer/rijndael.c:1167-1203 | after k bits, the register holds the last 128 bits of the vector followed by the ciphertext |
| BitFeedback.EncryptOneBlock | anonymizer/rijndael.c:1167-1203 | each of 128 bits in place is changed by the first bit of the encrypted register, into which the ciphertext is shifted |
| BitFeedback.DecryptOneBlock | anonymizer/rijndael.c:1322-1358 | the same with the register fed from the input, which may be the output buffer |
| BitFeedback.FeedbackSession | anonymizer/rijndael.h:150-170 | set up for encryption, one block encrypted in place, set up again with the same key and vector for either direction, decrypted: restored for the direction of encryption; for the other exactly when the key bits agree |
| BitFeedback.DirectionsDiffer | anonymizer/rijndael.c:1121 | under zero key and vector, the first key bits over the schedule and over the inversely mixed one are 0 and 1 |
| BitFeedback.WrongDirectionFlips | anonymizer/rijndael.c:1322-1358 | so the first bit of any plaintext comes back flipped |
| Twister.TwistFits | topn/twister.h:131-150 | the twist of 64-bit variables that hold 32-bit words holds the 32-bit twist |
| Twister.TemperFits | topn/twister.h:139-142 | so does the tempering, although its left shifts leave 32 bits |
| Twister.TwistedWord | topn/twister.h:131-137 | the in-place recurrence over 624 words is one step of x(k+624) in terms of x(k), x(k+1), x(k+397) |
| Twister.Generator.SeedMT | topn/twister.h:74-118 | the state holds the first 624 words of the sequence of the seed, made odd, below 2^32 |
| Twister.Generator.ReloadMT | topn/twister.h:121-144 | the state moves on by 624 words of the sequence; the first of them is returned tempered; a never-seeded one is seeded with 4357 |
| Twister.Generator.RandomMT | topn/twister.h:147-162 | the call after n others returns the tempered word 624 + n of the sequence |
| Twister.FirstNumbers | topn/twister.h:67-163 | any number of calls, seeded or not, yields the beginning of the stream of the seed or of 4357 |
| Twister.Seeding | topn/twister.h:119-123 | each seed word is made of the one before it |
| Twister.SeedingStep | topn/twister.h:123 | by a multiplication with 69069 |
| Twister.LowBitsOfSeeds | topn/twister.h:89-107 | as the comment says, the lowest bit of all seeds is set, the next one never changes, the third one alternates, and the next two have cycles of four and eight |
| Twister.Recurrence | topn/twister.h:131-137 | the published recurrence with its constants, in terms of the words of the sequence |
| Twister.Tempering | topn/twister.h:139-142 | the four steps of the tempering with their constants |
| PrefixPreserving.DeanonymizeAnonymized | anonymizer/panonymizer.c:272-399 | for any function of the prefix, the inverse restores the bits |
| PrefixPreserving.AnonymizeDeanonymized | anonymizer/panonymizer.c:272-399 | and the other way round |
| PrefixPreserving.PreservesPrefixes | anonymizer/panonymizer.c:147-268 | two addresses share a prefix of a length exactly when their images do |
| PrefixPreserving.PreservesCommonPrefixLength | anonymizer/panonymizer.c:147-268 | the longest common prefix keeps its exact length |
| Anonymizer.Panonymizer.constructor | anonymizer/panonymizer.c:99-106 | half of the key is the key, the other half encrypted is the pad |
| Anonymizer.Panonymizer.RandomBit | anonymizer/panonymizer.c:181-201 | the bit of sixteen bytes, from the cipher or from the folded hash |
| Anonymizer.Panonymizer.FillInput | anonymizer/panonymizer.c:232-241 | the input bytes are the first bits of the address and then those of the pad |
| Anonymizer.Panonymizer.FillInputWord | anonymizer/panonymizer.c:170-179 | the shifts of words give the same blend of address and pad |
| Anonymizer.Panonymizer.Anonymize | anonymizer/panonymizer.c:147-205 | the word is anonymized bit by bit under the function in use |
| Anonymizer.Panonymizer.AnonymizeV6 | anonymizer/panonymizer.c:212-268 | the sixteen bytes are anonymized as 128 bits |
| Anonymizer.Panonymizer.Deanonymize | anonymizer/panonymizer.c:272-336 | the word is mapped back |
| Anonymizer.Panonymizer.DeanonymizeV6 | anonymizer/panonymizer.c:339-399 | the bytes are mapped back |
| Anonymizer.MissIsBit | anonymizer/panonymizer.c:393-397 | comparing shifted bytes promoted to int, hence several bits, still tells the one bit that is sought, by the loop's invariant |
| Anonymizer.RandomValueIsBit | anonymizer/panonymizer.c:181-201 | either algorithm yields 0 or 1 |
| Parity.FoldIsParity | anonymizer/panonymizer.c:192-199 | the folded hash looked up in 0x6996 is the parity of its 32 bits |
| Parity.RandomValueIs | anonymizer/panonymizer.c:181-201 | the pseudorandom bit is the first bit of the ciphertext, or the parity of the hash |
| Parity.AnonymizedBit | anonymizer/panonymizer.c:147-205 | each bit of an anonymized address is changed by that bit of the bytes made of the bits before it and the pad |
| Prefixes.IsFromPrefix4Bits | prefix_tags/prefix_tags_functions.c:53-59 | comparing masked words is comparing the first n bits |
| Prefixes.IsFromPrefix6Bits | prefix_tags/prefix_tags_functions.c:60-76 | comparing bytes and one masked byte is comparing the first n bits |
| Prefixes.RoundTrip | anonymizer/panonymizer.c:147-399 | one address is the image of another exactly when this is the inverse image of that, for both families |
| Prefixes.Bijection | anonymizer/panonymizer.c:147-399 | images are equal exactly when addresses are |
| Prefixes.PrefixMatchesKept | prefix_tags/prefix_tags_functions.c:53-79 | an address lies in a prefix exactly when its image lies in the image of the prefix |
| Prefixes.IpAnonymize | anonymizer/anonymizer.c:176-201 | the address becomes its image, or its inverse image, in its family |
| Prefixes.AnonymizeField | anonymizer/anonymizer.c:176-201 | the field becomes its image or inverse image in place, the four bytes of an IPv4 address or all sixteen |
| Prefixes.FieldBack | anonymizer/anonymizer.c:176-201 | one direction undoes the other on a field if and only if the field is IPv4 or its image does not look like IPv4 |
| Prefixes.ThereAndBack | anonymizer/anonymizer.c:176-201 | so two runs with one key, in either order, restore the field exactly in these cases |
| Prefixes.FamiliesAgree | anonymizer/panonymizer.c:147-268 | an IPv6 address begins with an IPv4 address exactly when its image begins with the image of that |
| NatFlow.PrivateBlocks | natpair/natpair.cpp:106-112 | the private addresses are the blocks of section 3 of RFC 1918 |
| NatFlow.HashKeyInjective | natpair/natpair.cpp:262-272 | two flows have one key exactly when the four fields behind it are equal |
| NatFlow.PairableSameKey | natpair/natpair.cpp:175-204 | what can be paired is in one bucket |
| NatFlow.PairSymmetric | natpair/natpair.cpp:175-232 | pairing is symmetric, and the record sent does not depend on which half came first |
| NatFlow.OutputCoversHalves | natpair/natpair.cpp:341-362 | the interval sent is an interval and contains both halves', in either direction |
| NatFlow.OutputOfHalves | natpair/natpair.cpp:282-362 | the record sent, field by field, in terms of the two records received |
| NatFlow.HalvesShareKey | natpair/natpair.cpp:240-331 | the two views of one translated flow get one key and a direction |
| NatViews.PreparedExactly | natpair/natpair.cpp:226-331 | which records are prepared |
| NatViews.PairedExactly | natpair/natpair.cpp:175-204 | two records of the two sides are paired if and only if they agree in protocol, direction, outer address and port, and their times are ordered as the direction says and differ by less than 2 and 3 |
| NatViews.OneSideNeverPairs | natpair/natpair.cpp:175-204 | two records of one side are not |
| NatViews.ViewsPair | natpair/natpair.cpp:175-362 | both views of one translated flow are prepared; they are paired if and only if their times are so, and make the record expected |
| NatViews.ViewsAreSent | natpair/natpair.cpp:641-726 | the loop, given both views in either order, sends just this record if and only if their times are so |
| NatViews.ExpiredExactly | natpair/natpair.cpp:658-725 | after each flow with a known key, and only when a cleaning is due, exactly the flows expire that are older than the clock by the free time |
| NatPairing.FirstPartner | natpair/natpair.cpp:673-698 | the earliest waiting flow that can be paired |
| NatPairing.NoPairWaits | natpair/natpair.cpp:658-726 | in every run, with cleanings, no two waiting flows could be paired with each other |
| NatPairing.EveryFlowAccounted | natpair/natpair.cpp:658-726 | in every run each flow is in exactly one pair sent, or waits, or expired: processed = 2 sent + cached + expired |
| NatPairing.SentArePairs | natpair/natpair.cpp:673-698 | all that is sent are pairs, of two flows that were received |
| NatCache.SamePartner | natpair/natpair.cpp:658-698 | the scan of one bucket finds the partner that a scan of all flows would find |
| NatCache.PartnerRemoved | natpair/natpair.cpp:681-686 | erasing from one bucket is erasing from the list |
| NatCache.FreshBuckets | natpair/natpair.cpp:705-725 | cleaning every bucket, and keeping none that gets empty, is cleaning the list |
| NatCache.KeysOfBuckets | natpair/natpair.cpp:705-706 | the size of the map, which triggers cleaning, is the number of keys that wait |
| NatCache.FlowCache.FindPartner | natpair/natpair.cpp:672-674 | the walk over a bucket stops at its first partner |
| NatCache.FlowCache.TakePartner | natpair/natpair.cpp:673-698 | the partner leaves its bucket, or the bucket leaves the map, and the completed flow is sent |
| NatCache.FlowCache.Store | natpair/natpair.cpp:662-703 | a flow without a partner goes to the end of its bucket, old or new |
| NatCache.FlowCache.CleanCache | natpair/natpair.cpp:705-725 | exactly the stale flows go, and no empty bucket stays |
| NatCache.FlowCache.Process | natpair/natpair.cpp:658-725 | one turn of the loop on buckets is one step on the list |
| NatCache.FlowCache.ProcessAll | natpair/natpair.cpp:641-726 | so is the loop |
| NatQueue.StepKeepsInv | natpair/natpair.cpp:506-525 | every step of every thread keeps the count of tokens, posts owed and flows queued, the mutex and the history |
| NatQueue.EmptyQueueMeansFinished | natpair/natpair.cpp:641-656 | in every interleaving, a token that finds the queue empty is the final one: all producers are past their last push and every flow was popped once, in order |
| NatQueue.PoppedIsPrefix | natpair/natpair.cpp:506-525 | flows leave as they were pushed, those of one thread in the order of its input |
| NatQueue.EveryRunFinishes | natpair/natpair.cpp:506-656 | no interleaving deadlocks or goes on for ever; one that cannot go on has ended all threads with every flow popped |
| NatQueue.EveryRecordAccounted | natpair/natpair.cpp:506-726 | at the exit, the translated records that all threads received are together, as a multiset, the halves of the pairs sent, those that wait and those that expired |
| TimeSeries.InitRing | scalar-aggregator/timedb.c:176-192 | initialisation yields consecutive windows from the first one on exactly when the first window is in slot 0 |
| TimeSeries.RollRing | scalar-aggregator/timedb.c:386-411 | rolling keeps `rolling_data(i)` the window [begin + i step, begin + (i + 1) step) |
| TimeSeries.SaveRing | scalar-aggregator/timedb.c:266-383 | so does saving, once the checks have left a ring |
| TimeSeries.SharesAre | scalar-aggregator/timedb.c:338-357 | a flow adds its value per second times its time within the ring, less its milliseconds if it starts in the last second of a window |
| TimeSeries.ZeroLengthShares | scalar-aggregator/timedb.c:352-357 | a flow of no length adds its value once, twice at the boundary of two windows, or not at all |
| TimeSeries.SavedExactly | scalar-aggregator/timedb.c:266-383 | a save leaves sums that are numbers and adds the value of the flow to them exactly when the flow fits the ring, which a caller can see before |
| TimeDb.TimeDb.constructor | scalar-aggregator/timedb.c:156-173 | an empty database of delay / step + 2 windows |
| TimeDb.TimeDb.Init | scalar-aggregator/timedb.c:176-192 | the slots become consecutive windows in array order |
| TimeDb.TimeDb.SaveData | scalar-aggregator/timedb.c:266-383 | the status and the whole new state, with the two ways to initialise |
| TimeDb.TimeDb.AddFlow | scalar-aggregator/timedb.c:345-369 | every window of the rotated array gets its share, count and item, and no other changes |
| TimeDb.TimeDb.RollDb | scalar-aggregator/timedb.c:386-411 | the first window is reported and comes back empty as the last |
| TimeDb.RollingRotates | scalar-aggregator/timedb.c:398-410 | overwriting one slot and moving the beginning by one is rotating the sequence of windows |
| RuleSet.Rules.FlushCounters | scalar-aggregator/aggregator.c:281-396 | all databases are rolled once, and their first sums are sent |
| RuleSet.Rules.SaveRecord | scalar-aggregator/aggregator.c:675-684 | the loop ends with the flow saved and every other database rolled as often; the events of all rules are those of one turn |
| RuleSet.JobsOfRecord | scalar-aggregator/aggregator.c:829-842 | the turns of a record are, in rule order, those of the rules that have a value, up to the first that refuses it; each with the four times of the record and its value |
| RuleSet.EndsAtRefusal | scalar-aggregator/aggregator.c:829-842 | the program ends early exactly at the first record that some rule refuses |
| RuleSet.TotalOfRecords | scalar-aggregator/aggregator.c:829-842 | the values of the turns of a rule are the numbers in the records that reach it |
| RuleSet.Rules.ProcessRecord | scalar-aggregator/aggregator.c:611-691 | every rule whose filter matches takes its turn, in order, until one does not accept the type of its argument; a character is accepted and dropped where it cannot be summed |
| RuleSet.Rules.Init | scalar-aggregator/aggregator.c:818-827 | all databases are initialised together |
| RuleSet.Run | scalar-aggregator/aggregator.c:730-843 | from program start, each rule with the step, delay and timeout given before it: databases and output are those of the run of all turns, and what a rule has sent and stores are the numbers in the records that reached it |
| RuleSet.SentAndStored | scalar-aggregator/aggregator.c:807-843 | what a rule has sent and what its database stores add up to the numbers in the records that reached it |
| TimeRuns.LoopEnds | scalar-aggregator/aggregator.c:675-684 | the loop takes just as many roll-outs as reach the last second of the flow, and then saves it as in one attempt |
| TimeRuns.StaysInStep | scalar-aggregator/aggregator.c:303-313 | databases in step stay in step, and are rolled only when the flow ends after their end |
| TimeRuns.RunBalances | scalar-aggregator/timedb.c:266-411 | over any run in which saved flows fit and no reset trashes data, reported plus stored is stored at first plus saved, and all are numbers |
| TimeRuns.WindowHolds | scalar-aggregator/timedb.c:345-369 | a window's sum, count and items are the total of shares, the number and the distinct items of the flows that touch it; the sum is a number exactly when all their rates are defined |
| TimeRuns.WindowCollects | scalar-aggregator/timedb.c:266-411 | through saves and roll-outs a window collects exactly the flows saved since it was in the ring |
| TimeRuns.DelayIsKept | scalar-aggregator/timedb.c:161 | in one database, whatever other rules see and roll: a flow that starts at most `delay` seconds before the newest end seen, and not before the first window, is never reported truncated |
| TimeRuns.ResetBreaksDelay | scalar-aggregator/timedb.c:276-286 | after a reset for inactivity, whatever the delay, a flow that starts before the window of the flow that caused it is reported truncated |
| RuleRuns.TurnReaches | scalar-aggregator/aggregator.c:675-684 | the events of one turn lead each database to where the loop leaves it |
| RuleRuns.RunsInStep | scalar-aggregator/aggregator.c:829-842 | over all records and any filters and options, all databases are rolled equally often, and only for a record that ends after the ring of some rule; those that start in step stay so and notice the same newest end |
| RuleRuns.DelayHolds | scalar-aggregator/timedb.c:161 | a rule to which all others leave room truncates no record at most `delay` seconds behind the newest one of the program, whichever rules matched the others |
| RuleRuns.DelayFails | scalar-aggregator/aggregator.c:675-684 | where a rule leaves no room, one long record of it makes a record of the other within the delay truncated, with no reset |
| RuleRuns.DelayExactly | scalar-aggregator/aggregator.c:829-842 | hence a rule keeps a delay over all quiet runs if and only if all rules leave it room |
| RuleRuns.ProgramDelayExactly | scalar-aggregator/aggregator.c:730-843 | the same from program start, in terms of the options of the rules |
| RuleRuns.AllKeepDelay | scalar-aggregator/aggregator.c:730-843 | all rules keep their delays if and only if they have one step, and no delay exceeds another one by more than a step and some seconds |
| RuleRuns.NoneTruncated | scalar-aggregator/aggregator.c:730-843 | with one step, no record is truncated that is at most the least of the delays behind the newest one |
| RuleRuns.NewestInRing | scalar-aggregator/aggregator.c:675-684 | for rings that start in step, none ends before the newest end seen between turns |
| RuleRuns.TooOldIsTruncated | scalar-aggregator/timedb.c:376-380 | and a record older than the whole ring is reported truncated |
| RuleRuns.RunsBalance | scalar-aggregator/aggregator.c:829-842 | for each rule, reported plus stored is stored at first plus the values of all records it matched |
| RuleRuns.AllSavedIsReported | scalar-aggregator/aggregator.c:807-843 | the same from program start |
| AggFunctions.FoldSum | aggregator/configuration.cpp:133-208 | SUM and AVG add up: integers in the range of the type and true but for its modulus, reals as they are; other types keep the first value |
| AggFunctions.FoldMin | aggregator/configuration.cpp:209-255 | MIN of numbers or addresses is one of the values and above none; other types keep the first |
| AggFunctions.FoldMax | aggregator/configuration.cpp:256-302 | MAX is one of the values and below none; other types keep the first |
| AggFunctions.FoldEnds | aggregator/configuration.cpp:303-425 | FIRST is the first value, and LAST the last one for the types that have it |
| AggFunctions.FoldFirstNonEmpty | aggregator/agg_functions.h:147-168 | FIRST_NON_EMPTY is the first value that is not zero, null or empty, if there is one |
| AggFunctions.FoldBits | aggregator/agg_functions.h:204-220 | for integers and characters, a bit is set in the OR iff in some value, in the AND iff in all; other types keep the first |
| AggFunctions.RangesAre | aggregator/agg_functions.h:56-60 | the ranges of the integer types |
| AggFunctions.TowardsZero | aggregator/agg_functions.h:85-89 | what rounding towards zero means for the quotient |
| AggFunctions.MakeAvgExactly | aggregator/agg_functions.h:85-89 | the average is the quotient rounded towards zero if and only if the type is wide, the sum not negative, or the quotients of 2^32 vanish in its width |
| AggFunctions.NegativeAverageFails | aggregator/agg_functions.h:85-89 | three 8-bit values of -1 have the average 84 |
| Aggregation.KeyIsTuple | aggregator/key.cpp:105-123 | the bytes of two keys are equal exactly when all key fields are |
| Aggregation.FieldIsFold | aggregator/aggregator.cpp:252-286 | each stored field is the fold of its function over the members, in their order |
| Aggregation.CountAndTimes | aggregator/aggregator.cpp:252-273 | COUNT is the number of members, TIME_FIRST their earliest start, TIME_LAST their latest end |
| Aggregation.AverageIsMean | aggregator/aggregator.cpp:311-326 | an average sent is the sum of the members over their number, for integers exactly under the condition above, hence divided once |
| AggregatorBooks.ReceiveKeeps | aggregator/aggregator.cpp:645-700 | merge, split and new group keep: groups have one key, members within the active window, and per key sent plus stored is received, in order |
| AggregatorBooks.SplitExactly | aggregator/aggregator.cpp:645-700 | a record begins a group if and only if its key is new, or some member of the stored group started, in seconds, more than the active timeout before it, in which case this group is sent |
| AggregatorBooks.EndIs | aggregator/aggregator.cpp:413-432 | a group is kept by a sweep iff some member ends at the limit or later |
| AggregatorBooks.EmitKeeps | aggregator/aggregator.cpp:421-427 | so does sending a group |
| AggregatorBooks.EmitAllKeeps | aggregator/aggregator.cpp:362-372 | so does sending many, in any order, and just their keys go |
| AggregatorBooks.FlushedIsReceived | aggregator/aggregator.cpp:362-372 | after a flush, the groups sent for a key are the records received with it |
| Aggregator.StoredRecord.InitRecordData | aggregator/aggregator.cpp:297-304 | a record starts as a copy with COUNT 1 |
| Aggregator.StoredRecord.ProcessAggFunctions | aggregator/aggregator.cpp:252-286 | all fields are updated in place as one member more |
| Aggregator.StoredRecord.PrepareToSend | aggregator/aggregator.cpp:311-326 | averages are divided in place and nothing else changes |
| Aggregator.Aggregator.GenerateKey | aggregator/aggregator.cpp:648-653 | the key has the bytes of all key fields |
| Aggregator.Aggregator.IsNewWindow | aggregator/aggregator.cpp:663-673 | whether the record starts too late for the stored group |
| Aggregator.Aggregator.ReceiveRecord | aggregator/aggregator.cpp:645-700 | the storage and the output follow the books: each stored record is the summary of its group, each one sent was |
| Aggregator.Aggregator.SweepPassive | aggregator/aggregator.cpp:413-432 | a sweep sends exactly the groups that ended before the limit |
| Aggregator.Aggregator.FlushStorage | aggregator/aggregator.cpp:362-372 | a flush sends all groups and leaves none |
| Aggregator.OutputIsFold | aggregator/aggregator.cpp:311-356 | a record that was sent, in terms of the members of its group |
| WindowEnds.ClosestEndIsLeast | ipv6stats/ipv6stats.h:143-146 | the end is the least multiple of the size after the time |
| WindowEnds.FirstEndsNested | ipv6stats/ipv6stats.cpp:448-455 | for a long window that is a multiple of the short one, the short one ends no later |
| WindowEnds.EndsStayNested | ipv6stats/ipv6stats.cpp:457-479 | this stays so, and the long window never turns without the short one |
| WindowEnds.NestedExactlyForMultiples | ipv6stats/ipv6stats.cpp:448-455 | and it holds at the start for all times only for multiples |
| Ipv6Stats.Window.CountIpv6 | ipv6stats/ipv6stats.cpp:535-571 | the nested lookups count distinct addresses, /64s and /48s: never too many, and exactly with exact filters |
| Ipv6Stats.Ipv6Stats.CountIpv4 | ipv6stats/ipv6stats.cpp:505-523 | what is not in the long window need not be looked up in the short one, given that this is nested |
| Ipv6Stats.Overcounts | ipv6stats/ipv6stats.cpp:505-523 | for any sizes that are no multiples there is a run, with exact filters, whose short report counts one address twice |
| Ipv6Stats.Ipv6Stats.FlushStats | ipv6stats/ipv6stats.cpp:139-232 | what is written is about the addresses seen in the window, and right |
| Ipv6Stats.Ipv6Stats.RollWindows | ipv6stats/ipv6stats.cpp:457-480 | which windows are reported, cleared and moved on, in this order |
| Ipv6Stats.Ipv6Stats.Timeout | ipv6stats/ipv6stats.cpp:379-423 | both windows are reported and moved on; the second timeout may leave the filters, for they are empty |
| Ipv6Stats.Ipv6Stats.ProcessRecord | ipv6stats/ipv6stats.cpp:429-573 | which windows are turned and reported, and that each window gains the source, of its family, if and only if it sent enough packets |
| Ipv6Runs.WindowsCutTheRun | ipv6stats/ipv6stats.cpp:448-480 | the windows of one size cut the records, in their order, into pieces |
| Ipv6Runs.RunAll | ipv6stats/ipv6stats.cpp:379-573 | from program start, over any records and timeouts, each report is about exactly the sources with enough packets among the records of its window, and counts them and their prefixes |
| Template.RunRenders | luamodule/template.c:92-133 | the automaton writes the tokens of its input with alternating separators, for every input |
| Template.TrimKeepsTokens | luamodule/template.c:92-142 | trimming keeps the tokens and is idempotent |
| Template.TokensOfRender | luamodule/template.c:92-142 | the clean form has just the tokens it was made of |
| Template.TokensOfText | luamodule/template.c:92-142 | the tokens of any text are its words, whatever white space and commas there are between them |
| Template.TrimmedPairs | luamodule/template.c:92-142 | a string of type and name tokens becomes exactly "type name,type name" |
| Template.EvenTokensArePairs | luamodule/template.c:92-142 | any string with an even number of tokens is of that kind |
| Template.AppendedTokens | luamodule/template.c:144-184 | a constructed specification has the old tokens and then those of each argument |
| TemplateDelete.DeleteName | luamodule/template.c:186-219 | when no type is found before the name, a delete blanks just the named field, with its comma and type, and reports whether there was one |
| TemplateDelete.DeleteType | luamodule/template.c:186-219 | when a type is, a delete takes this one token and reports success |
| TemplateDelete.DeleteExactly | luamodule/template.c:186-219 | a trim after the delete gives the specification without the field if and only if no type is found first |
| TemplateDelete.DeletesThenTrim | luamodule/luafuncs.c:222-243 | any such deletes and one trim yield the specification of the fields whose names were not deleted, in order |
| TemplateDelete.DeletesExactly | luamodule/template.c:186-219 | for a list of deletes, a trim after each of them would be right all along if and only if at none of them a type is found first |
| TemplateDelete.LaterDeleteMayRepair | luamodule/luafuncs.c:222-243 | an instance where a type was found first and the one trim at the end is right all the same |
| TemplateSpec.Trim | luamodule/template.c:92-142 | the in-place loop leaves the clean form, and nothing after the old end changes |
| TemplateSpec.TrimStep | luamodule/template.c:107-132 | the write index never passes the read index: no unread character is overwritten |
| TemplateSpec.SearchField | luamodule/template.c:186-209 | the search stops at the first occurrence that is a whole token |
| TemplateSpec.DeleteField | luamodule/template.c:186-219 | the result and the string after a delete |
| TemplateSpec.FieldDel | luamodule/luafuncs.c:198-255 | all deletes by name or id and one trim, with a result for each argument; an error for an argument of another kind |
| TemplateSpec.ArgumentsDelete | luamodule/luafuncs.c:222-243 | the fields that some argument is for, by name or by id, are gone and no others, and an argument is answered with true iff it is for a field that none before it is for, when no type is found before a name |
| CsvField.Stream.GetNextField | logreplay/logreplay.cpp:108-145 | the field and the position after it |
| CsvField.Stream.GetFields | logreplay/logreplay.cpp:327-337 | repeated calls read the fields one after another |
| CsvField.ReadingUndoesJoining | logreplay/logreplay.cpp:108-145 | reading a line of joined fields, bare or quoted with doubled quotes (section 2 of RFC 4180), yields the fields if and only if the flag condition above holds for each quoted one |
| CsvField.ReadingWithoutEscapes | logreplay/logreplay.cpp:108-145 | in particular when no quoted field has a backslash before a quote or at its end |
| CsvField.EscapeFails | logreplay/logreplay.cpp:124-129 | an instance: one line whose first field ends in a backslash is read as one field |

## Left out

- T1..T8 and U1..U4 are defined as multiples in GF(2^8) of S, S5 and the argument instead of 3072 literals; S and S5 are literal.
- Rijndael_blockEncrypt and Rijndael_blockDecrypt in ECB and CBC, which chain as the padded modes do; only their CFB1 branches are modelled, for one block, since the code does not advance its pointers.
- BitFeedback.FeedbackSession: one block, as the code does not advance its pointers, and a buffer apart from key and vector.
- BitFeedback.FeedbackRoundTrip: the output buffer must hold the input before the call, since the code adds the key bits to what is there.
- Word-wise loads and stores of bytes are taken to be in one byte order on both sides; alignment is not modelled.
- Prefixes.AnonymizeField: the bytes by which the UniRec library tells an IPv4 address, zeros before it and ones behind, are not part of the code here; addresses in strings are not modelled.
- Anonymizer.Panonymizer.RandomBit: `hash_div8` is any function of sixteen bytes; its code is not part of this model, nor is the parsing of key strings.
- Prefixes.IsFromPrefix4Bits: lengths 1 to 32, as a shift of a 32-bit word by 32 is undefined.
- `ur_timediff` is any function of two times; UniRec records, TRAP interfaces, files, sockets, signals and options are parameters or lists.
- NatQueue.EveryRunFinishes: producers leave through the end of their loop; the error paths that return early, and failing sends, are not steps. Any number of producers is allowed where the code has two.
- NatCache.FlowCache.Process: flows are values, as the code only copies them; expired flows are a multiset, since the order of the hash map is not specified.
- TimeSeries.SavedExactly: `double` is `real`, so rounding is not modelled, and a sum is a number or it is not (`finite`), where the code has infinities and undefined values; flows that end before they start are saved as the code does, but nothing is said of conservation for them.
- TimeDb.TimeDb.RollDb: a database that counts unique items and is flushed before its first save has no tree yet, and the code passes a null pointer to the library; here it has no items.
- TimeDb.TimeDb.SaveData: B+ trees are sets and digests of values are the values; saving fails only for unsupported types, not for lack of memory.
- RuleSet.Rules.FlushCounters: what is sent are the sums; counts are returned by RollDb, and the averages and rates made of both are not modelled. Sends succeed. Rules of all outputs are one list.
- RuleSet.Rules.ProcessRecord: a filter is given by its result, the value of the argument or none; an argument that is not in the template, which ends the program, is not modelled.
- RuleRuns.DelayExactly: no reset for inactivity (`Quiet`), which leaves one database out of step with the others and breaks the promise (`TimeRuns.ResetBreaksDelay`); a record is a job of each rule whose filter matches it, in any combination.
- RuleRuns.RunsBalance: no reset, and saved flows that fit (`Tidy`), by the exact condition of `TimeSeries.SavedExactly`.
- TimeRuns.RunBalances: a reset that drops stored sums ends the balance; it is excluded by `Gentle`.
- AggFunctions.FoldSum: signed sums wrap as the compilers make them, though overflow of 32 and 64 bits is undefined in C++; `float` and `double` are `real`.
- AggFunctions.FoldMin: addresses are ordered as the numbers that their sixteen bytes make, and are null as 0.0.0.0 or as ::; the UniRec library, which decides both, is not part of this model.
- AggFunctions.FoldEnds: a variable-length value always fits into its record.
- Aggregator.Aggregator.ReceiveRecord: sends succeed; a failing send at a split leaves the loop with the mutex locked in the code. A group of a multiple of 2^32 records with an average is not sent (`Sendable`), as the code would divide by zero.
- Aggregator.Aggregator.SweepPassive: the limit is a parameter, as clocks and the shared time variable are not modelled; both threads hold one mutex, so the methods are the critical sections.
- Ipv6Stats: traffic and tunnel counters, which are plain sums; times do not reach the wrap of 32 bits and counters do not wrap.
- Ipv6Stats.Window.ContainsInsert: the code of the Bloom filter library is not part of this model; a filter is what was inserted and any function that decides false positives.
- TemplateSpec.Trim: at least one token, as the code reads before the string otherwise; so `field_del` must leave a field.
- TemplateDelete.DeletesThenTrim: names that are tokens, and fields of different names, as those of a template are; when the one trim at the end repairs what a delete of a type has left is not characterised.
- TemplateSpec.FieldDel: at least one argument and no empty name; without arguments the code trims the empty string. What the output template makes of the specification is not part of this model.
- mux, demux, merger, nfreader, nfwriter, logger, json modules, traffic_repeater, flowcounter, proto_traffic, link_traffic, the regular expressions of anonymizer.c, key-string parsing and Config: counters and plumbing.
- topn: the algorithm behind its header is not part of this model.
