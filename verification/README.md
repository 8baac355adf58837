# A verified model of the media server's core

This project models, in Dafny, the parts of the server in which many requests share state or in which
data must survive a trip, and proves what those parts are for.

- **Stream admission** (`Admission`, `AdmissionProtocol`, `AdmissionLoop`, `Removal`). Each mutex section of the
  registry is a method; any number of requests interleave section by section. On every run the counters
  count the live grants and the queued callers, no limit is exceeded, nothing leaks, and a torrent that
  somebody streams from is never found expired. The waiting loop, with its two flags, is proved to walk
  the phases of that protocol while the other requests do whatever they like between its steps.
- **Torrent deadlines** (`Expiry`). The compare-and-swap loops that extend and shorten a torrent's deadline
  are linearizable.
- **Stream fairness** (`Fairness`, `FairnessDecision`, `FairnessLimiter`). The grouping of flows by
  torrent, the decision who is slowed down, and the compare-and-swap limiter that spaces delays out.
- **Torrent tokens** (`GoBytes`, `Runes`, `Int64`, `Positional`, `Base62`, `Fields`, `Pack`). Base 62, the
  tag-length-value format and the whole pack and unpack path, as mutual inverses.
- **The virtual-seek reader** (`SeekReader`). The lazy wrapper is indistinguishable from a plain reader.
- **Settings storage** (`Database`, `ReadCache`, `CacheProtocol`, `Migration`, `SafeMigration`,
  `ViewedSync`, `Router`). The read cache is transparent, and under concurrent calls exactly as long as
  conflicting ones do not overlap; migration loses nothing, synchronisation unites, routing takes the
  longest prefix.
- **Supporting algorithms** (`Breaker`, `BreakerSteps`, `Readahead`, `Trackers`, `TrackerPolicy`,
  `TorrentTree`). The circuit breaker, in whole steps and access by access, the read-ahead budgets, the
  tracker normaliser and the policy around it, and the directory tree of a torrent.

Objects whose methods update fields are classes with those fields; every method is proved against a
function of the old state, and what the server promises is proved about those functions. Concurrency is
a state machine over atomic steps: a run is any sequence of events from the initial state, and an event
that does not fit changes nothing. A loop over a Go map takes its elements in an arbitrary order.

`dafny verify dfyconfig.toml` checks everything.

## What the proofs found

- `Breaker`: the default rule never reads the `FailureThreshold` setting, so the breaker trips as
  configured exactly when that is five (`TripsAsConfiguredIff`). Between whole admissions and
  reports it can wedge in half-open for good exactly when `SuccessThreshold` is above
  `HalfOpenMaxCalls + 1`, a negative setting counting as zero. The one breaker in use, that of the torrent
  search, has thresholds 2 and 0: once tripped, its first successful call wedges it (`TorznabWedges`).
- `BreakerSteps`: its loads and stores are not one step. Interleaved, they can wedge it also at
  `HalfOpenMaxCalls + 1` (`SticksIff` is the exact condition), let in any number of calls in one
  episode, let a call in right after a trip, and leave it closed with five failures. A call that never
  reports takes its half-open place with it, so every configuration can wedge.
- `Removal`: a torrent is checked and removed in separate steps; a request granted in between loses it.
- `Pack`: a token does not survive when a size is written `00` (a tag without a number follows), when a
  text has 65536 bytes or more, when a tag needs more than one byte, or when the hash is not 20 bytes
  long. The exact condition is `Packable`. A lone `00` may even be lost without an error: that happens if
  the decompressor announces the end of the stream together with the last byte.
- `ReadCache`: a write leaves the cache coherent exactly when the database hands back what it was given;
  and calls that overlap can leave it stale for good. `CacheProtocol` says exactly which pairs may not
  overlap.
- `Migration`: the verification after a write compares lengths first, so it is stricter than the check
  that skips an entry; an entry that a database re-spells in another length is reported as failed
  (`MigratedIff`, `RespelledFails`).
- `SafeMigration`: the bulk source is not cleared when even one of its entries was already in the target.
- `ViewedSync`: a second synchronisation keeps the marks but rewrites the bytes of an entry that was
  only copied and is not spelled as the encoder spells it; merging two malformed texts takes the second.
- `SeekReader`: the wrapper answers seeks after a size probe without asking the reader below, so a seek
  that fails there shows only at the next read.
- `FairnessDecision`: the decision depends on the order of a map exactly when equally slow rivals
  disagree about client backpressure and the torrent is fast enough for it to matter (`ContestedCase`).
- `TorrentTree`: a directory whose metadata does not come in time reads as empty. A file whose path is also
  a directory of other files hides those files, and a file opens under its path with any components
  appended (`OpensExactly`, `NoFileOpens`).

## Model

| member | source | states |
|---|---|---|
| Admission.StreamAdmissionRegistry.TryAcquire | server/torr/stream_admission.go:194-232 | grants exactly when neither cap stands in the way, says when the unique cap refused, and changes the registry only when it grants |
| Admission.StreamAdmissionRegistry.CanAcquireNow | server/torr/stream_admission.go:234-247 | answers exactly what an acquisition at this moment would answer, with the same reason, and changes nothing |
| Admission.StreamAdmissionRegistry.HasActiveTorrent | server/torr/stream_admission.go:261-270 | true exactly for a non-empty key with readers |
| Admission.StreamAdmissionRegistry.Release | server/torr/stream_admission.go:272-289 | takes one reader and one stream back, drops the last reader's entry, clamps at zero |
| Admission.StreamAdmissionRegistry.TryAcquireQueueSlot | server/torr/stream_admission.go:291-314 | a slot is given exactly below a positive queue size; unique waiters are counted only for debug requests |
| Admission.StreamAdmissionRegistry.ReleaseQueueSlot | server/torr/stream_admission.go:316-327 | one waiter less, and one unique waiter less if it was counted |
| AdmissionProtocol.StepKeepsInv | server/torr/stream_admission.go:194-327 | every critical section of every request keeps all counters equal to what they count |
| AdmissionProtocol.RunsCountTruly | server/torr/stream_admission.go:117-327 | in every interleaving streams, readers per key, waiters and unique waiters equal the live grants and queued requests, and no entry has zero readers |
| AdmissionProtocol.ClampsNeverFire | server/torr/stream_admission.go:272-327 | whoever gives something back is counted, so no guard against a negative count ever acts |
| AdmissionProtocol.Drained | server/torr/stream_admission.go:117-327 | when all requests are finished the registry is the empty one again |
| AdmissionProtocol.ActiveMeansGranted | server/torr/stream_admission.go:261-270 | a torrent counts as active if and only if some request holds a live grant for it |
| AdmissionProtocol.GrantedNeverExpires | server/torr/torrent_lifecycle.go:181-224 | a torrent with a live grant is never reported expired, whatever its readers, clock and state |
| AdmissionProtocol.RunsStayWithinLimits | server/torr/stream_admission.go:194-314 | no interleaving exceeds the stream limit, the limit of distinct torrents or the queue size that all requests respect |
| AdmissionProtocol.SameTorrentNeverUniqueBlocked | server/torr/stream_admission.go:249-259 | a further stream of a torrent that streams is never refused by the unique cap |
| AdmissionProtocol.EntriesNameTheirTorrent | server/torr/stream_admission.go:212-223 | when requests name torrents consistently every entry carries its torrent's ID |
| AdmissionProtocol.EntryKeepsId | server/torr/stream_admission.go:212-223 | an entry is named by the first request that brings an ID and keeps that as long as it lasts |
| AdmissionProtocol.VerdictIs | server/torr/stream_admission.go:194-259 | on every run the verdict follows from the live grants alone: the stream limit first, then the cap on distinct torrents unless the torrent streams already, else a grant |
| AdmissionProtocol.SlotIs | server/torr/stream_admission.go:291-314 | on every run a slot is free exactly while fewer requests hold one than the queue takes |
| Admission.ExpiresIff | server/torr/torrent_lifecycle.go:212-224 | a torrent is expired exactly without readers and streams, with a deadline in the past, at work or closed |
| Removal.RunKeepsInv | server/torr/torrent_lifecycle.go:132-146 | with the check and the removal of an expired torrent as separate steps among all admissions, whoever streams from a doomed torrent was granted since the check |
| Removal.HitsIffNewcomer | server/torr/torrent_lifecycle.go:132-146 | a removal hits a request that streams if and only if one granted after the check still does; one that streamed before is never hit |
| Removal.SafeWithoutGrants | server/torr/torrent_lifecycle.go:132-146 | without a grant in between nobody is streaming when the torrent goes |
| Removal.GrantedIsRemoved | server/torr/torrent_lifecycle.go:132-146 | a request granted right after the check loses its torrent |
| AdmissionLoop.TryAcquireStream | server/torr/stream_admission.go:117-167 | with arbitrary steps of others in between, the loop is a legal path of the protocol; it takes at most one slot, returns what it took whether granted, cancelled or timed out, gives up only after its last tick, is turned away only before the first, and streams exactly when it reports success |
| AdmissionLoop.Shared.AskGrant | server/torr/stream_admission.go:133-140 | after any steps of others, one acquisition moves the request to its next phase |
| AdmissionLoop.Shared.AskSlot | server/torr/stream_admission.go:142-151 | after any steps of others, a refused request gets a slot or is finished |
| AdmissionLoop.Shared.ReturnSlot | server/torr/stream_admission.go:135-165 | a slot goes back once, on the way to streaming or to giving up |
| AdmissionLoop.ContinuesRun | server/torr/stream_admission.go:117-167 | every state a waiting loop passes through is reached by a run, so the run theorems hold there |
| AdmissionLoop.OthersLeaveAlone | server/torr/stream_admission.go:117-167 | steps of other requests leave a request where it stands |
| Expiry.Lifecycle.AddExpiredTime | server/torr/torrent_lifecycle.go:82-95 | undisturbed, the loop ends with the later of the old and the requested deadline |
| Expiry.Lifecycle.ShortenExpiredTime | server/torr/torrent_lifecycle.go:97-116 | undisturbed, the loop keeps a deadline that is ahead and soon enough, and replaces any other |
| Expiry.AtomicIs | server/torr/torrent_lifecycle.go:82-116 | a deadline changes exactly if an extension asks for a later one or a shortening finds it passed or too far ahead, and then to what is asked for |
| Expiry.RunsLinearize | server/torr/torrent_lifecycle.go:82-116 | in every interleaving of loads and swaps the deadline is that of the ended operations in one piece, each exactly once, in the order in which they ended |
| Expiry.ExtensionsTakeMaximum | server/torr/torrent_lifecycle.go:82-95 | extensions alone leave the latest deadline asked for, in whatever order |
| Expiry.ExtensionStands | server/torr/torrent_lifecycle.go:82-116 | what an ended extension asked for stands until a shortening ends |
| Expiry.ExtendedNeverExpiresEarly | server/torr/torrent_lifecycle.go:82-224 | a torrent is not reported expired before a time that an ended extension asked for, unless a shortening has ended since |
| Expiry.ShortenedIsNear | server/torr/torrent_lifecycle.go:97-116 | right after a shortening the deadline lies ahead and within its duration, even one that had passed |
| Fairness.Aggregate | server/torr/stream_fairness.go:271-306 | in any visiting order the groups are the group-by of the flows: byte sums, earliest starts, flag disjunctions, stream counts, torrent ID zero left out |
| Fairness.GroupingUnique | server/torr/stream_fairness.go:271-306 | there is one such grouping, so map order cannot show in it |
| Fairness.SpreadDoesNotMatter | server/torr/stream_fairness.go:294-363 | however bytes are spread over a torrent's connections, its group and rate are the same |
| Fairness.MovedBytesSpread | server/torr/stream_fairness.go:294-306 | moving bytes between two flows of one torrent is such a spread if their first-byte flags stay |
| Fairness.StreamsAddUp | server/torr/stream_fairness.go:271-296 | the stream counts of any set of groups add up to the flows of those torrents |
| Fairness.AllStreamsAddUp | server/torr/stream_fairness.go:271-296 | over all groups they add up to the flows with a non-zero torrent ID |
| Fairness.FlowSignals | server/torr/stream_fairness.go:365-431 | when a flow counts as waiting, as waiting severely, as slowed by its client and as having its first byte, in milliseconds, time stamps and counters |
| Fairness.RateIsBytesPerSecond | server/torr/stream_delivery.go:512-518 | the rate is the whole number of bytes per second |
| Fairness.StagesAre | server/torr/stream_fairness.go:308-353 | when a torrent is mature and when it asks for startup protection, in seconds, bytes and flags |
| FairnessDecision.WeakestMature | server/torr/stream_fairness.go:213-231 | finds the first slowest mature other torrent in visiting order |
| FairnessDecision.StartupCandidate | server/torr/stream_fairness.go:233-252 | finds a protected torrent iff one exists, and the most recently started one |
| FairnessDecision.FairnessDelay | server/torr/stream_fairness.go:149-211 | the whole decision, before rate limiting, equals the specified one for every visiting order |
| FairnessDecision.WeakestIsSlowest | server/torr/stream_fairness.go:213-231 | the rival chosen is slowest of all mature others, and none is chosen only if there is none |
| FairnessDecision.SlowestIsSpared | server/torr/stream_fairness.go:176-197 | a torrent that no mature torrent undercuts gets no imbalance delay |
| FairnessDecision.DelayedIsFast | server/torr/stream_fairness.go:176-197 | an imbalance delay means a rate above 3/2 of the slowest mature rival, the long one exactly above twice |
| FairnessDecision.ProtectedIsNeverDelayed | server/torr/stream_fairness.go:162-198 | a torrent that qualifies for startup protection is delayed by neither rule |
| FairnessDecision.DelayedIsFit | server/torr/stream_fairness.go:149-176 | only a torrent of ten seconds, 16 MiB and 2 MiB a second without pressure of its own, beside another torrent and flow, is ever delayed |
| FairnessDecision.StartupDelayIff | server/torr/stream_fairness.go:175-177 | such a torrent gets 500 microseconds exactly if another one, by its age, bytes and flags, is to be protected and began at least two seconds later |
| FairnessDecision.RivalIs | server/torr/stream_fairness.go:213-231 | who counts as a mature other torrent, in seconds and bytes |
| FairnessDecision.ImbalanceDelayIs | server/torr/stream_fairness.go:179-198 | otherwise the delay goes by the rate and that of the slowest rival: none up to 3/2, 250 microseconds up to twice, 750 beyond |
| FairnessDecision.NoRivalNoDelay | server/torr/stream_fairness.go:179-182 | without a mature rival and a torrent to protect nobody is delayed |
| FairnessDecision.DecisionIsShort | server/torr/stream_fairness.go:149-198 | every delay is 250, 500 or 750 microseconds, or none |
| FairnessDecision.ContestedShows | server/torr/stream_fairness.go:213-231 | in a contested case two visiting orders decide differently |
| FairnessDecision.UncontestedAgrees | server/torr/stream_fairness.go:149-231 | in every other case all visiting orders decide alike |
| FairnessDecision.OrderMattersIffContested | server/torr/stream_fairness.go:149-231 | map order shows in the decision if and only if equally slow rivals disagree on backpressure and it matters |
| FairnessDecision.ContestedCase | server/torr/stream_fairness.go:149-231 | three torrents of 100, 20 and 20 MiB after 20 seconds, one of the slow ones with a slow client, are such a case |
| FairnessLimiter.StreamFairnessFlow.RateLimitedDelay | server/torr/stream_fairness.go:254-269 | an undisturbed write is a load followed by a swap of the protocol |
| FairnessLimiter.RunsAreSpaced | server/torr/stream_fairness.go:254-269 | in every interleaving of loads and swaps granted delays are at least 5 ms apart |
| FairnessLimiter.GrantedIff | server/torr/stream_fairness.go:254-269 | on every run a write with nothing between its load and its swap is granted its delay exactly if the last grant is 5 ms past or there was none |
| FairnessLimiter.WindowBound | server/torr/stream_fairness.go:254-269 | grants that far apart add up to at most one maximal delay per 5 ms of a window, and one more |
| FairnessLimiter.DelayIsBounded | server/torr/stream_fairness.go:254-269 | on every run the delay granted over a window is at most 750 microseconds times (window / 5 ms + 1) |
| GoBytes.TrimSpace | server/torrshash/fields.go:88-88 | strings.TrimSpace on UTF-8 bytes: no outer white space is left and trimmed text is unchanged |
| GoBytes.TrimSpaceDropsBlanks | server/torrshash/fields.go:88-88 | it takes nothing but white space off both ends and leaves what is between them |
| Runes.LeadingSpaceIs | server/torrshash/fields.go:88-88 | what trimming takes off the start is a code point with the Unicode property White_Space |
| Runes.TrailingSpaceIs | server/torrshash/fields.go:88-88 | it takes such a code point off the end |
| Runes.TrailingSpaceIsSpace | server/torrshash/fields.go:88-88 | and nothing else |
| Positional.ValueOfDigits | server/torrshash/base62.go:18-36 | the digits produced by repeated division denote the number divided |
| Positional.DigitsOfValue | server/torrshash/base62.go:18-50 | rewriting a digit string's value gives the string without leading zeros |
| Positional.LittleRoundTrip | server/torrshash/fields.go:47-125 | a number that fits its little-endian field is read back |
| Base62.ReverseInPlace | server/torrshash/base62.go:31-33 | the swap loop reverses the array in place |
| Base62.Encode62 | server/torrshash/base62.go:18-36 | the division loop and the reversal produce the base-62 numeral of the big-endian number |
| Runes.LowBytes | server/torrshash/base62.go:42-43 | the low bytes of the code points of a string, malformed bytes one by one |
| Runes.AsciiIsItself | server/torrshash/base62.go:42-43 | ASCII text is its own low bytes |
| Runes.ReadsWhatIsWritten | server/torrshash/base62.go:42-43 | reading the UTF-8 form of a code point gives the code point, whatever follows |
| Runes.ReadsOnlyWhatIsWritten | server/torrshash/base62.go:42-43 | what is read is a code point in its UTF-8 form, or one byte that starts none, read as U+FFFD |
| Base62.Number | server/torrshash/base62.go:38-47 | the loop over code points accumulates the value of their low bytes |
| Base62.Decode62 | server/torrshash/base62.go:38-50 | yields the shortest bytes of that number's magnitude |
| Base62.AccumulateValue | server/torrshash/base62.go:38-50 | over base-62 symbols the loop accumulates the numeral's value |
| Base62.DecodeEncode | server/torrshash/base62.go:18-50 | decoding an encoding gives back every byte string without its leading zero bytes |
| Base62.EncodeDecode | server/torrshash/base62.go:18-50 | a text survives decoding and encoding if and only if it is base 62 without a leading '0' |
| Base62.SymbolHasPlace | server/torrshash/base62.go:10-10 | the alphabet is the digits, the capital letters and the small letters, in order |
| Base62.KeepsTheNumber | server/torrshash/base62.go:18-50 | a numeral and the bytes it was made from stand for one number, the most significant first |
| Fields.ParseFormat | server/torrshash/fields.go:61-107 | printing a 64-bit integer and parsing it is the identity |
| Fields.ParseIntIs | server/torrshash/fields.go:102-104 | a text is a number exactly if it is decimal digits after at most one sign, of a value that fits 64 bits |
| Fields.Int64RoundTrip | server/torrshash/fields.go:56-107 | the eight two's-complement bytes of a 64-bit integer are read back |
| Fields.WriteRecord | server/torrshash/fields.go:97-124 | emits exactly the record of a trimmed value or reports the parse error |
| Fields.WriteField | server/torrshash/fields.go:87-125 | drops empty and zero-size values, else emits the record |
| Fields.NothingWrittenIff | server/torrshash/fields.go:87-95 | nothing is written exactly for an empty value and for a size of "0" |
| Fields.TextLayout | server/torrshash/fields.go:97-124 | a text record is the tag, two length bytes, the least significant first, and the text |
| Fields.SizeLayout | server/torrshash/fields.go:97-112 | a size record is the tag alone for zero, else the tag and the number, or an error |
| Fields.Int64At | server/torrshash/fields.go:112-112 | the number is eight bytes of two's complement, the least significant first |
| Fields.ParseLayout | server/torrshash/fields.go:47-85 | when a stream ends, when it breaks off, and where a text lies in it |
| Fields.ReadField | server/torrshash/fields.go:47-85 | reads one record off the stream, tells the end from an error, and leaves exactly the rest |
| Fields.SizeRoundTrip | server/torrshash/fields.go:47-125 | a non-zero size record is read back whatever follows it |
| Fields.TextRoundTrip | server/torrshash/fields.go:47-125 | a text record under 65536 bytes is read back whatever follows it |
| Fields.FieldRoundTrip | server/torrshash/fields.go:47-125 | an encodable field is read back trimmed and the stream stands behind it |
| Fields.ParsedShape | server/torrshash/fields.go:47-85 | every field the reader can produce is one the writer can represent |
| Pack.HexLowers | server/torrshash/pack.go:43-78 | decoding and encoding a hexadecimal hash puts it in lower case |
| Pack.HexDigitIs | server/torrshash/pack.go:43-78 | the digits are 0-9 and a-f when written, and A-F as well when read |
| Pack.HexAt | server/torrshash/pack.go:43-46 | each byte is two digits, the more significant first |
| Pack.WriteFields | server/torrshash/pack.go:53-58 | writes all records in order or reports an error |
| Pack.WriteAllConcat | server/torrshash/pack.go:53-58 | records are written one after the other in the order of the list |
| Pack.Pack | server/torrshash/pack.go:12-63 | the token is the base-62 form of the compressed hash and records, or there is none |
| Pack.ReadFields | server/torrshash/pack.go:81-97 | reads fields to the end of the stream, keeping those before an error |
| Pack.Unpack | server/torrshash/pack.go:25-98 | reverses text, compression and layout, with the three ways to fail |
| Pack.ReadWhatWasWritten | server/torrshash/pack.go:53-97 | any list of encodable fields is read back as its kept fields, trimmed and in order |
| Pack.TokenCarriesRaw | server/torrshash/pack.go:12-29 | base 62 and compression hand Unpack exactly the bytes that were packed |
| Pack.PackableSurvives | server/torrshash/pack.go:12-98 | a packable hash comes back with lower-case hash and kept fields |
| Pack.SurvivorIsPackable | server/torrshash/pack.go:12-98 | nothing else does |
| Pack.PackUnpack | server/torrshash/pack.go:12-98 | the round trip holds if and only if the hash is 20 bytes and every kept field is encodable |
| Pack.ExactlyAsItWas | server/torrshash/pack.go:12-98 | forty lower-case digits and any fields without outer white space, in the limits of their tags and no size zero, come back exactly as they were |
| Pack.MayBePadded | server/torrshash/pack.go:25-46 | white space around a token, a hash or a value makes no difference |
| Pack.DeliveredIsPackable | server/torrshash/pack.go:65-98 | whatever unpacking delivers in full meets the condition for packing |
| Pack.DeliveredSurvives | server/torrshash/pack.go:12-98 | so it can be packed again and comes back: the other direction of the round trip |
| Pack.DoubleZeroSizeBreaks | server/torrshash/fields.go:96-107 | a size spelled 00 packs into a token that never comes back: an error if the end of the stream is announced apart from its last byte, success with the field silently lost if it is announced with it |
| SeekReader.ServeContentReadSeeker.constructor | server/torr/stream_content.go:205-217 | starts non-virtual at the reader's own offset |
| SeekReader.SeekLeads | server/torr/stream_content.go:293-313 | a seek leads to the offset from the start, from here or from the end; a negative target, one beyond 64 bits or another whence is rejected and moves nothing |
| SeekReader.ServeContentReadSeeker.SeekReal | server/torr/stream_content.go:277-291 | moves reader and position together and ends virtual mode; a missing reader fails and changes nothing |
| SeekReader.ServeContentReadSeeker.Seek | server/torr/stream_content.go:255-313 | answers that target, without asking the reader below for a size probe and after one, and otherwise as the reader can seek there; a rejected seek moves nothing |
| SeekReader.ServeContentReadSeeker.Read | server/torr/stream_content.go:219-237 | one step of the wrapper's specification: a virtual wrapper first catches up |
| SeekReader.StepAgrees | server/torr/stream_content.go:219-313 | each call whose seek the plain reader can make answers as the plain reader would, and a non-virtual wrapper stays at the offset of the reader below |
| SeekReader.RunsAgree | server/torr/stream_content.go:219-313 | every sequence of seeks and reads in which the plain reader makes all seeks gives the same positions, bytes and read errors through the wrapper |
| SeekReader.ProbeTells | server/torr/stream_content.go:255-275 | a size probe and one seek give away a wrong size, or an offset that the reader below cannot seek to |
| SeekReader.Indistinguishable | server/torr/stream_content.go:205-313 | no call sequence tells the wrapper from a plain reader if and only if it was given the true size and the reader below can seek anywhere |
| SeekReader.ProbeIsFree | server/torr/stream_content.go:255-275 | a size probe and the seeks after it never move the reader below until a read |
| SeekReader.NeverMoreSeeks | server/torr/stream_content.go:219-291 | the reader below is never asked to seek more often than positions and failures were answered |
| Database.DB.Set | server/settings/db.go:113-146 | changes the one entry to what the store keeps of the value |
| Database.DB.List | server/settings/db.go:148-190 | lists every name under the xPath once |
| Database.LookupCleared | server/settings/db.go:226-261 | clearing removes the entries under the xPath and no others |
| ReadCache.DBReadCache.Get | server/settings/dbreadcache.go:61-95 | answers from the cache or the database, remembers the answer, and hands out a private copy |
| ReadCache.DBReadCache.Set | server/settings/dbreadcache.go:97-131 | caches a private copy, forgets the names, writes through; nothing in read-only mode |
| ReadCache.DBReadCache.List | server/settings/dbreadcache.go:133-165 | answers from the cache or the database and remembers a private copy |
| ReadCache.DBReadCache.Rem | server/settings/dbreadcache.go:167-201 | forgets the entry and its list and removes it from the database |
| ReadCache.DBReadCache.Clear | server/settings/dbreadcache.go:203-238 | clears the database's xPath and exactly the cached values and names under it |
| ReadCache.CallerWrites | server/settings/dbreadcache.go:17-37 | writing into a slice that the cache does not hold changes neither cache nor database |
| ReadCache.GetThenWrite | server/settings/dbreadcache.go:61-95 | a caller that writes into the answer of Get changes nothing beyond what Get did |
| ReadCache.ListThenWrite | server/settings/dbreadcache.go:133-165 | the same for the names that List answered |
| ReadCache.SetThenWrite | server/settings/dbreadcache.go:97-131 | a caller that reuses the slice it passed to Set has still set what the slice held then |
| ReadCache.SetCoherentIff | server/settings/dbreadcache.go:97-131 | a write leaves the cache coherent if and only if the database hands the value back |
| ReadCache.RemKeepsCoherence | server/settings/dbreadcache.go:167-201 | after a removal every cached entry is still the database's answer |
| ReadCache.ClearKeepsCoherence | server/settings/dbreadcache.go:203-238 | after a clear every cached entry is still the database's answer |
| ReadCache.ReadOnlyKeeps | server/settings/dbreadcache.go:97-216 | in read-only mode nothing is written |
| ReadCache.CacheIsTransparent | server/settings/dbreadcache.go:61-238 | over any sequence of calls, read-only or not, the database and every answer are those without a cache |
| ReadCache.AlwaysCoherentIffPlain | server/settings/dbreadcache.go:61-238 | over all tables and runs the cache stays coherent if and only if the database hands back whatever it is given |
| ReadCache.Remembers | server/settings/dbreadcache.go:61-238 | after a Get, List or Set the answer no longer depends on the database, and a call forgets nothing it is not about |
| ReadCache.Forgets | server/settings/dbreadcache.go:97-238 | what a Set, Rem or Clear is about, it forgets |
| ReadCache.OvertakenGetIsStale | server/settings/dbreadcache.go:82-94 | a missed Get overtaken by a Set leaves the cache stale unless the Set changed nothing |
| CacheProtocol.AloneIsWhole | server/settings/dbreadcache.go:61-238 | the sections of a call that nothing interrupts do what the whole call does |
| CacheProtocol.SectionsInOrder | server/settings/dbreadcache.go:97-238 | a Set shows in the cache before it is stored, a Rem leaves the cache first, a Clear the database |
| CacheProtocol.StepKeepsInv | server/settings/dbreadcache.go:61-238 | one section of any of the running calls keeps cached entries true, up to what a running Set or Clear is about to make up for |
| CacheProtocol.RunKeepsInv | server/settings/dbreadcache.go:61-238 | so does every interleaving of any number of calls in which no two conflicting ones overlap |
| CacheProtocol.QuietIsCoherent | server/settings/dbreadcache.go:61-238 | when no call is running the cache is coherent again |
| CacheProtocol.AnswersAreCurrent | server/settings/dbreadcache.go:61-165 | on such runs every Get and List answers what the database holds at that moment |
| CacheProtocol.OvertakenRead | server/settings/dbreadcache.go:73-94 | a Get overtaken by a Set, Rem or Clear of its key can leave a stale entry for good |
| CacheProtocol.OvertakenList | server/settings/dbreadcache.go:142-164 | a List overtaken by a Set, Rem or Clear under its xPath can leave a stale list for good |
| CacheProtocol.CrossedWrites | server/settings/dbreadcache.go:97-201 | two overlapping writes of one key with different outcomes can leave one value in the cache and the other in the database for good |
| CacheProtocol.ClashBreaks | server/settings/dbreadcache.go:61-238 | for every pair of conflicting calls, in either order of beginning, some interleaving of just the two ends incoherent |
| CacheProtocol.CoherentIffConflictsForbidden | server/settings/dbreadcache.go:61-238 | a rule for which calls may overlap keeps the cache coherent on all runs if and only if it forbids every conflict: a read with a write of the same thing, two Sets of a key to different values, a Rem with a Set to a value |
| Migration.IsByteArraysEqualJSON | server/settings/migrate_compare.go:12-51 | same bytes, or both well-formed with equal structure; an error for malformed text |
| Migration.SameIff | server/settings/migrate_compare.go:12-51 | two texts are the same exactly if their bytes are, or both are well-formed and denote one structure; the comparison fails exactly for different non-empty texts of which one is malformed |
| Migration.IsByteArraysEqualJSONOptimized | server/settings/migrate_compare.go:54-83 | the same on equal lengths, different otherwise |
| Migration.VerificationIsStricter | server/settings/migrate_compare.go:12-83 | the second comparison accepts exactly what the first accepts at equal length |
| Migration.MigratedIff | server/settings/migrate_execute.go:24-79 | an entry that is not skipped is reported migrated if and only if the target keeps bytes of equal length and structure |
| Migration.RespelledFails | server/settings/migrate_execute.go:24-79 | a store that drops a blank makes the migration fail though the next pre-check would find the entry in place |
| Migration.VerifyMigration | server/settings/migrate_compare.go:85-103 | accepts exactly a target entry that compares equal to the original |
| Migration.MigrateSingle | server/settings/migrate_execute.go:24-79 | reports skip, would-migrate, migrated or failed as specified, writes the target accordingly, never the source |
| Migration.ActionIs | server/settings/migrate_execute.go:24-79 | each action and when it is reported, read off the bytes of both tables |
| Migration.MigrateAllWithReport | server/settings/migrate_execute.go:93-156 | processes every listed entry once, reports each action in order with its counts, leaves the source alone |
| SafeMigration.EachAlone | server/settings/migrate_execute.go:93-156 | in a bulk run each entry fares exactly as if it were migrated alone |
| SafeMigration.OthersUntouched | server/settings/migrate_execute.go:93-156 | no other entry of the target changes |
| SafeMigration.ReportIsComplete | server/settings/migrate_execute.go:93-156 | total = migrated + skipped + failed = number of entries |
| SafeMigration.ReportIsTrue | server/settings/migrate_execute.go:24-156 | at the end a migrated entry is in the target with the same bytes or, in as many, the same structure; a skipped one has the same bytes or structure and is untouched; a failed one has no such copy |
| SafeMigration.CountsAreSets | server/settings/migrate_execute.go:93-156 | the report counts entries by how each fares alone, whatever the order of listing |
| SafeMigration.DryRunPredicts | server/settings/migrate_execute.go:20-156 | a dry run changes nothing and announces migrated plus failed, and the skipped, even if the names are listed in another order next time |
| SafeMigration.SecondRunSkipsAll | server/settings/migrate_execute.go:24-156 | after a run without failures a second run skips every entry, in whatever order they are listed then |
| SafeMigration.SafeMigrate | server/settings/settings.go:153-184 | the source entry is removed only when it was migrated and clearing was asked for |
| SafeMigration.SafeMigrateAll | server/settings/settings.go:186-220 | the source xPath is cleared exactly when asked for and every entry was migrated |
| SafeMigration.NothingIsLost | server/settings/settings.go:186-220 | every source entry is afterwards in the source, or in the target with the same bytes or, in as many bytes, the same structure |
| SafeMigration.SingleIsNotLost | server/settings/settings.go:153-184 | the same for a single migration, and for all other entries |
| SafeMigration.PlainStoreCopies | server/settings/migrate_execute.go:24-156 | into a plain store nothing fails, migrated entries are byte-identical, and the source qualifies for clearing iff it is non-empty and no entry was there before |
| SafeMigration.SelfMigrationSkips | server/settings/migrate_execute.go:24-156 | migrating a database into itself changes nothing and migrates nothing |
| ViewedSync.MergeViewedDataSimple | server/settings/migrate_smart.go:82-126 | unites two index sets; missing or malformed data yields the other side |
| ViewedSync.MergeIsUnion | server/settings/migrate_smart.go:82-126 | the result is well-formed and its marks are the union |
| ViewedSync.MergeTakes | server/settings/migrate_smart.go:82-126 | data of one side is taken as it is, malformed data gives way, and two well-formed texts are united and written anew |
| ViewedSync.MergeCommutesIff | server/settings/migrate_smart.go:82-126 | order does not matter unless both texts are malformed and differ |
| ViewedSync.MergeAssociates | server/settings/migrate_smart.go:82-126 | grouping does not matter on well-formed data |
| ViewedSync.MergeIdempotentIff | server/settings/migrate_smart.go:82-126 | merging data with itself keeps the marks, and the bytes iff they are canonical or malformed |
| ViewedSync.SyncViewedSimple | server/settings/migrate_smart.go:53-80 | every hash of either database gets the merged data in both, other entries stay; both sides may be one database, which is then written to twice |
| ViewedSync.VisitsViewed | server/settings/migrate_smart.go:53-66 | the entries under "Viewed" of either database are synchronised, and no others |
| ViewedSync.BothHoldTheUnion | server/settings/migrate_smart.go:53-126 | afterwards both databases hold, for each hash, the union of the two index sets |
| ViewedSync.SecondSyncChangesIff | server/settings/migrate_smart.go:53-126 | a second run never changes marks, changes bytes iff the first left them unsettled, and a third changes nothing |
| ViewedSync.PlainSyncs | server/settings/migrate_smart.go:53-80 | with plain stores, of two databases or of one, the result is the ideal synchronisation |
| ViewedSync.MigrateMissing | server/settings/migrate_smart.go:36-51 | each side that lacks the entry holds what its store keeps of the other's, an entry that exists is never overwritten, and nothing else is touched |
| Router.SortByLength | server/settings/xpathdbrouter.go:58-62 | a permutation in order of descending length |
| Router.XPathDBRouter.RegisterRoute | server/settings/xpathdbrouter.go:34-66 | refuses a duplicate, adds the default route first, and keeps routes sorted, duplicate-free and equal to the table's keys |
| Router.XPathDBRouter.GetDBForXPath | server/settings/xpathdbrouter.go:80-98 | returns the database of the unique longest registered prefix, or none if nothing is registered |
| Router.XPathDBRouter.Chosen | server/settings/xpathdbrouter.go:80-98 | the longest registered prefix exists, is unique and contains every other matching prefix |
| Router.XPathDBRouter.Get | server/settings/xpathdbrouter.go:100-111 | reads the chosen database |
| Router.XPathDBRouter.Set | server/settings/xpathdbrouter.go:113-124 | writes the chosen database and no other |
| Router.ResolveIsLongest | server/settings/xpathdbrouter.go:80-98 | cutting a path from its end finds the longest registered prefix |
| Router.FirstIsLongest | server/settings/xpathdbrouter.go:80-98 | the first match in a list sorted by length is that prefix |
| Router.RegisteredIsFound | server/settings/xpathdbrouter.go:34-98 | a registered route serves its paths unless a longer registered route matches |
| Breaker.CircuitBreaker.Allow | server/utils/circuitbreaker/circuitbreaker.go:84-125 | passes and refuses calls as specified and counts half-open ones |
| Breaker.AllowsIff | server/utils/circuitbreaker/circuitbreaker.go:84-125 | when a call passes, by state, clock and half-open places, and what it changes |
| Breaker.CircuitBreaker.RecordSuccess | server/utils/circuitbreaker/circuitbreaker.go:127-142 | resets failures and closes a half-open breaker at the threshold |
| Breaker.CircuitBreaker.RecordFailure | server/utils/circuitbreaker/circuitbreaker.go:144-163 | reopens a half-open breaker and trips a closed one |
| Breaker.CircuitBreaker.Execute | server/utils/circuitbreaker/circuitbreaker.go:171-184 | an allowed call runs and is recorded by its outcome, a refused one changes nothing |
| Breaker.RunKeepsInv | server/utils/circuitbreaker/circuitbreaker.go:76-184 | every interleaving of whole admissions and whole reports keeps the breaker's invariant |
| Breaker.EveryRunIsSafe | server/utils/circuitbreaker/circuitbreaker.go:76-184 | as long as admissions and reports do not overlap, closed means under five failures, successes are counted only in half-open below the threshold, and an episode admits at most HalfOpenMaxCalls + 1 calls |
| Breaker.FailuresAreStreak | server/utils/circuitbreaker/circuitbreaker.go:127-147 | on every run the failures counter is the number of failures reported since the last success |
| Breaker.OpensWhen | server/utils/circuitbreaker/circuitbreaker.go:144-163 | a closed breaker opens exactly at the fifth failure report in a row, a half-open one at the first |
| Breaker.TripsAsConfiguredIff | server/utils/circuitbreaker/circuitbreaker.go:32-78 | on all runs the breaker trips at the configured failure threshold if and only if that is five |
| Breaker.OpenUntilTimeout | server/utils/circuitbreaker/circuitbreaker.go:84-125 | between whole steps an open breaker admits nobody until its timeout has passed, whatever arrives or finishes |
| Breaker.WedgedForGood | server/utils/circuitbreaker/circuitbreaker.go:101-107 | from a wedged state no event ever leads away |
| Breaker.NeverWedged | server/utils/circuitbreaker/circuitbreaker.go:84-142 | with SuccessThreshold at most HalfOpenMaxCalls + 1 no run of whole steps wedges |
| Breaker.WedgesIffBudgetTooSmall | server/utils/circuitbreaker/circuitbreaker.go:84-142 | some run of whole steps wedges the breaker if and only if the half-open budget is below the success threshold |
| Breaker.TorznabWedges | server/torznab/torznab.go:68-83 | the breaker of the torrent search, once tripped, is wedged by the first call that succeeds again |
| Breaker.ClosesIffBudgetSuffices | server/utils/circuitbreaker/circuitbreaker.go:84-142 | sequential successful calls close it exactly when the budget suffices, and otherwise never |
| BreakerSteps.AllowAlone | server/utils/circuitbreaker/circuitbreaker.go:84-125 | the loads and stores of an admission that nothing interrupts make the whole step |
| BreakerSteps.SuccessAlone | server/utils/circuitbreaker/circuitbreaker.go:127-142 | so do those of a success report |
| BreakerSteps.FailureAlone | server/utils/circuitbreaker/circuitbreaker.go:144-163 | and those of a failure report |
| BreakerSteps.StepKeepsCounts | server/utils/circuitbreaker/circuitbreaker.go:84-163 | every single access keeps the counters equal to the half-open places and the successes they stand for |
| BreakerSteps.RunKeepsInv | server/utils/circuitbreaker/circuitbreaker.go:84-184 | every interleaving of single accesses, all calls reporting, keeps the invariant behind SticksIff |
| BreakerSteps.StuckForGood | server/utils/circuitbreaker/circuitbreaker.go:101-107 | a breaker that is half-open without a running call or a free place never changes again |
| BreakerSteps.SticksIff | server/utils/circuitbreaker/circuitbreaker.go:84-163 | with single accesses interleaved and every call reporting, some run sticks if and only if SuccessThreshold exceeds HalfOpenMaxCalls: one less than whole steps would allow |
| BreakerSteps.LostCallsStick | server/utils/circuitbreaker/circuitbreaker.go:171-184 | with calls that never report, as after a panic, every configuration can stick |
| BreakerSteps.EpisodeIsUnbounded | server/utils/circuitbreaker/circuitbreaker.go:84-107 | one half-open episode can let in any number of calls under any settings |
| BreakerSteps.StaysOpen | server/utils/circuitbreaker/circuitbreaker.go:84-125 | from an open breaker on which no call acts by an earlier load, nobody is let in before the timeout, whatever the interleaving |
| BreakerSteps.LetInTooEarly | server/utils/circuitbreaker/circuitbreaker.go:144-163 | a call between the stores of Open and of the open time can be let in at once |
| BreakerSteps.ClosedPastTrip | server/utils/circuitbreaker/circuitbreaker.go:127-163 | under any settings a breaker can be closed with five failures that no call is about to act on |
| Readahead.BoundedStaysInBudget | server/torr/stream_http.go:123-168 | the readers together stay within the cache and each within 16 MiB |
| Readahead.InitialStaysInBudget | server/torr/stream_http.go:85-115 | the first read-ahead of all readers together stays within the cache |
| Readahead.InitialIsGreatest | server/torr/stream_http.go:85-115 | the first read-ahead is the most within the adaptive one that the cache holds for all readers |
| Readahead.StarvedIff | server/torr/stream_http.go:123-168 | a reader gets nothing exactly when the cache has fewer bytes than readers |
| Readahead.EnoughForPieces | server/torr/stream_http.go:123-168 | every reader gets the room its pieces ask for or its whole share, and more only up to a quarter of its share |
| Readahead.BoundedIsGreatest | server/torr/stream_http.go:123-168 | a reader gets the most that 16 MiB, the cache for all readers, and its pieces' room or a quarter of its share allow |
| Readahead.RoomIsTwoPiecesIff | server/torr/stream_http.go:133-145 | that room is two pieces within 4 and 16 MiB if and only if doubling the length does not overflow; else it is 4 MiB |
| Readahead.FallsWithReaders | server/torr/stream_http.go:123-168 | more readers never get more each |
| Readahead.RisesWithCapacity | server/torr/stream_http.go:123-168 | a larger cache never gives less |
| Readahead.AdaptiveWithinBounds | server/torr/torrent.go:151-185 | the adaptive value lies between the converted minimum and the capacity, even where conversions overflow |
| Readahead.AdaptiveIsGreatest | server/torr/torrent.go:151-185 | the adaptive value is the most that the cache and the configured bounds allow, shared among more than two torrents |
| Readahead.MinimumKeptIff | server/torr/torrent.go:151-185 | the configured minimum is kept for every cache, load and maximum if and only if its bytes are a 64-bit number |
| Readahead.WarmupIsBounded | server/torr/stream_http.go:280-314 | the warm-up target is positive exactly before the end of the file and exceeds neither the rest, the cache nor its cap |
| Readahead.WarmupIsGreatest | server/torr/stream_http.go:280-314 | the target is the most within the rest of the file, the cap for its size and the part of the cache |
| Readahead.ReadStartupWarmup | server/torr/stream_http.go:604-630 | reads until the target, a read that fails or an empty read, counts data that came with an error, and moves the reader by what it read |
| Readahead.RunStartupWarmup | server/torr/stream_http.go:531-602 | leaves the reader where it found it unless it cannot seek there, asks for one seek at most, and names its outcome truthfully |
| Trackers.CleanTier | server/torr/utils/torrent.go:101-128 | one tier's usable, unseen trackers in order, up to the remaining allowance |
| Trackers.NormalizeTrackers | server/torr/utils/torrent.go:89-140 | the nested loops compute the specified tiers |
| Trackers.Trimming | server/torr/utils/torrent.go:102-105 | strings.TrimSpace is a trimming as the policy asks for: what is trimmed stays as it is |
| Trackers.CappedIsPrefix | server/torr/utils/torrent.go:89-140 | with a cap the flattened result is the first trackers of the uncapped one |
| Trackers.CutKeepsTiers | server/torr/utils/torrent.go:127-137 | a cap shortens only the last remaining tier |
| Trackers.NormalizedIsTidy | server/torr/utils/torrent.go:89-140 | no empty tier, all trackers trimmed and usable, keys distinct, total within the cap |
| Trackers.NormalizeIsIdempotent | server/torr/utils/torrent.go:89-140 | normalising twice is normalising once |
| Trackers.NothingUsableIsLost | server/torr/utils/torrent.go:89-140 | without a cap every usable tracker's key is in the result |
| Trackers.NormalizedIsFirsts | server/torr/utils/torrent.go:89-140 | without a cap the result is the first tracker of each key, of those that count, trimmed and in the given order |
| Trackers.MergeDefaultAndRemoteTrackers | server/torr/utils/torrent.go:210-222 | the cleaned defaults followed by the remote trackers that add a key |
| TrackerPolicy.ApplyTrackerPolicy | server/torr/torrent.go:303-326 | rewrites a torrent's tiers by mode, file trackers and budget; no torrent, no change |
| TrackerPolicy.PolicyByMode | server/torr/torrent.go:303-326 | which tiers are normalised in each mode |
| TrackerPolicy.CleanAllConcat | server/torr/utils/torrent.go:99-137 | normalising a concatenation is normalising its parts, the second after the keys of the first |
| TrackerPolicy.AbsorbsExtra | server/torr/torrent.go:303-326 | tiers added to a list that was normalised with them change nothing, with or without a cap |
| TrackerPolicy.PolicyIsIdempotent | server/torr/torrent.go:303-326 | applying the policy again under the same settings changes nothing, in every mode |
| TrackerPolicy.PolicyIsTidy | server/torr/torrent.go:303-326 | the resulting trackers are usable, distinct and within the budget in every mode |
| TorrentTree.CollectNodes | server/torrfs/torrdir.go:65-104 | the loop over the files builds the node map of a directory |
| TorrentTree.ListEntries | server/torrfs/torrdir.go:65-114 | every node is listed once under its name; a positive limit keeps that many of them |
| TorrentTree.TorrDir.ReadDir | server/torrfs/torrdir.go:43-114 | waits for the metadata, takes over the first torrent of the catalogue that has it, and lists the directory of that torrent; an error exactly without a torrent |
| TorrentTree.UnreadyReadsEmpty | server/torrfs/torrdir.go:43-114 | a directory whose metadata does not come in time reads as empty, without an error |
| TorrentTree.NeverReady | server/torrfs/torrdir.go:48-58 | if the catalogue never has metadata the directory keeps its torrent |
| TorrentTree.AwaitedIs | server/torrfs/torrdir.go:48-58 | the first torrent of the catalogue with metadata is taken |
| TorrentTree.GetTorrPath | server/torrfs/torrdir.go:116-133 | the path of a directory is its components joined, without the title |
| TorrentTree.BelowIsDrop | server/torrfs/torrdir.go:74-86 | a path lies below a directory exactly when its components do; the rest is the remaining components |
| TorrentTree.ListsNextComponents | server/torrfs/torrdir.go:65-104 | a directory lists exactly the next components below it, a file where a path ends and a directory elsewhere |
| TorrentTree.WalkFollows | server/torrfs/node.go:22-52 | opening joined components walks those components one by one |
| TorrentTree.OpenReachesIff | server/torrfs/node.go:22-52 | opening a file's path reaches it if and only if no proper directory part of the path is itself a file |
| TorrentTree.FollowReachesIff | server/torrfs/node.go:22-52 | a walk ends at a file if and only if the file is the last of its path, its path is or begins the walk, and no directory part of it below the start is itself a file |
| TorrentTree.OpensExactly | server/torrfs/node.go:22-52 | the same for Open with any title and any components |
| TorrentTree.AppendedPathOpens | server/torrfs/node.go:22-52 | a file opens by its path with any components appended if and only if it opens by its path |
| TorrentTree.TrailingSlash | server/torrfs/node.go:22-29 | a slash at the end makes no difference, and the title alone is the torrent's own directory |
| TorrentTree.NoFileOpens | server/torrfs/node.go:22-52 | with one file "a", the path "a/x" of no file opens it |
| TorrentTree.EveryFileIsReached | server/torrfs/node.go:22-52 | with distinct paths none of which is a directory part of another, every file is reached |

## Left out

- Pack.Pack, Unpack: zlib is an abstract pair with decompression undoing compression and a non-zero first byte (section 2.2 of RFC 1950); a checksum error in mid-stream and errors on close are not modelled.
- SeekReader.ServeContentReadSeeker.Seek: the reader below stays where it is when a seek fails, and what it serves depends on the offset and the size asked for alone.
- Fairness.Aggregate: byte counts and rates are unbounded integers, the floating-point division of bytesPerSecond is floor division, and one counter stands for the three backpressure counters.
- FairnessLimiter.StreamFairnessFlow.RateLimitedDelay: the clock reads a positive time and the delay is one the decision can ask for.
- Breaker.CircuitBreaker.Allow: here Allow and each report are whole steps; BreakerSteps has their loads and stores. There the open time, which the source does not guard, is read and written in one piece. 32-bit wrap-around of the counters and a trip rule of the caller's own are not modelled.
- AdmissionLoop.TryAcquireStream: the ticker, the timer and the cancellation are a number of ticks followed by giving up; metrics counters and the choice of the error text are left out.
- ReadCache.DBReadCache.Get, Set, List, Rem, Clear: the closed cache and CloseDB are left out; the methods are whole calls, and their sections interleave in CacheProtocol, over a plain store and outside read-only mode.
- Database.DB.Set: a store is an arbitrary function of the old and the new value, which stands for bbolt and for the JSON files; file access is left out.
- Migration.IsByteArraysEqualJSON: the JSON library is an abstract function from text to structure.
- ViewedSync.SyncViewedSimple: the JSON library is an abstract codec of index sets whose encoder can be read back.
- Router.XPathDBRouter.RegisterRoute: the normalisation of a path is an abstract function that maps the empty path to itself; List, Rem and Clear route as Get and Set do and are left out.
- Trackers.NormalizeTrackers: URL parsing is abstract: which trackers have a served scheme, which use IPv6, and the canonical key are arbitrary functions of the trimmed text; trimming is any function that leaves trimmed text alone.
- TorrentTree.TorrDir.ReadDir: the metadata is a flag of the catalogue's answers, without the torrent's own waiting; path.Join on components such as ".." is left out; the category level above the torrent is not modelled.
- Readahead.RunStartupWarmup: the warm-up's own time limit is a status of the reader; the request and the reader exist, and the texts of errors are left out.
- Expiry.Lifecycle.AddExpiredTime: the loop alone is a method; the loops of several goroutines are the state machine beside it.
- The waiting and closing code of a torrent's life cycle, SmartMigrate's choice of direction and the start-up routing of settings: they call the parts above and add little of their own.
- The torrent engine, trackers over HTTP, the piece cache, HTTP handlers, FUSE, WebDAV and DLNA glue, configuration copying, logging and metrics.
