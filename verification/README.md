# Verified model of the SpotiFLAC Rust backend

A Dafny model of the algorithms and lock-protected state machines at the core of the Rust backend, with proofs
of what they promise. `dafny verify dfyconfig.toml` checks everything. One module models one source file or one
part of it; the source path is in the comment at its head.

How to read a module:

- Functions state what the program computes; where the program changes things step by step, a method or class
  with the same loops and branches is proved to compute that function, and the lemmas say what the function means.
- A registry guarded by a lock is a value (`State`, `Registry`, `System`), one function for each section run under
  the lock, and a `Run` over arbitrary interleavings of those sections. Invariants hold over every run. The class at
  the end of the module performs the same sections in place on its fields.
- What the program asks of the outside is a parameter with its contract stated: a clock that does not go back, a
  read that returns some bytes and nothing only at the end, a rename that happens or fails, a block cipher with
  decryption undoing encryption, a pattern engine whose matches are disjoint, ascending and on character boundaries,
  and a cancellation test `check` whose k-th call succeeds or not.

| module | what it proves |
|---|---|
| `Matching` | the one-row programme with stripped prefix and suffix computes Levenshtein distance, and that distance is the least number of edits |
| `Utf8`, `Redact` | editing raw, partly malformed UTF-8 at mapped positions commutes with decoding first and editing the text |
| `JsonSurrogates` | the one-pass rewriter repairs exactly the unpaired UTF-16 escapes |
| `CueLines` | lines from a fixed buffer and arbitrary short reads are the lines of the whole input |
| `Cookies` | a request carries a cookie exactly as the last header that set it said; the `Cookie` header against RFC 6265: what is sent, and in which order, with the exact conditions under which partition and expiry make it differ |
| `BlockModes`, `CtrSegments`, `FileTransform` | CBC, CTR and PKCS7 round trips, overlapping segments in any order, the buffered file transform as one transform of the file |
| `Cancellation`, `OutputLocks`, `Repository`, `Commands`, `Callbacks`, `Budget` | invariants over all interleavings of the concurrent registries |
| `Storage` | what was last set under a key is what a read finds; a shared snapshot is what a fresh read of the file would give, with the exact condition on changes by others |
| `Versions`, `Packages` | version order is a total preorder; a failed upgrade keeps the old package; versions never go down |

`Bytes`, `Bits`, `Checks`, `Options`, `Sequences` and `Division` hold what the others share.

Four conditions matter, and each is shown to be needed:

- The edited raw bytes decode to the edited text for replacements that are not empty, which all of the program's
  are. With an empty one two malformed bytes can join into a character: `Redact.EmptyReplacementDoesNotCommute`.
- The cookie partition keeps a domain cookie from a host that the RFC sends it to exactly when the domain has no dot
  or is an address: `Cookies.HiddenExactly`, `Cookies.UndottedDomainIsHidden`.
- The `Cookie` header is in the order of the RFC exactly when no cookie in it was set again, expired but not yet
  swept, after one behind it had been created: `Cookies.HeaderOrderExactly`, `Cookies.RevivedCookieKeepsItsPlace`.
- A store's snapshot is what a fresh read would give as long as no other program replaces the file between its last
  read or write and the stat that follows: `Storage.NextReadIsFreshExactly` has the exact condition and
  `Storage.ChangeBeforeTheStatStaysUnseen` the input on which a stale object is served.

## Model

| member | source | states |
|---|---|---|
| Matching.CompareStrings | rust_backend/crates/core/src/matching.rs:91-139 | the score is one minus the textbook distance over the longer length, or cancelled exactly when a check fails |
| Matching.RowDistance | rust_backend/crates/core/src/matching.rs:122-138 | the row left by the nested loops ends in the distance of its two operands |
| Matching.NextRow | rust_backend/crates/core/src/matching.rs:124-136 | the row is overwritten in place by the row of distances for one more byte |
| Matching.Strip | rust_backend/crates/core/src/matching.rs:108-118 | what is stripped is the longest common prefix and then the longest common suffix of what that leaves |
| Matching.StripBothAt | rust_backend/crates/core/src/matching.rs:108-118 | stripping leaves the distance unchanged |
| Matching.DistanceSymmetric | rust_backend/crates/core/src/matching.rs:119-121 | the distance does not depend on the order of the operands, so the swap is allowed |
| Matching.ScriptIsNoShorter | rust_backend/crates/core/src/matching.rs:91-139 | no sequence of single-byte edits is shorter than the distance |
| Matching.ShortestScript | rust_backend/crates/core/src/matching.rs:91-139 | some sequence of edits has exactly that length |
| Matching.SimilarityIsAScore | rust_backend/crates/core/src/matching.rs:91-139 | the score lies in [0,1], is symmetric, and is 1 exactly for equal texts |
| Matching.SimilarityCountsEdits | rust_backend/crates/core/src/matching.rs:139 | what is missing from a full score, times the longer length, is the distance |
| Utf8.DecodeText | rust_backend/crates/core/src/text.rs:3-20 | the loop replaces every malformed byte separately and keeps the rest |
| Utf8.DecodeIsValid | rust_backend/crates/core/src/text.rs:3-20 | the decoded text is always well-formed |
| Utf8.DecodeValid | rust_backend/crates/core/src/text.rs:3-20 | well-formed text decodes to itself |
| Utf8.DecodeMalformed | rust_backend/crates/core/src/text.rs:3-20 | a malformed byte becomes U+FFFD and decoding goes on right behind it |
| Utf8.CharLengthExactly | rust_backend/crates/core/src/text.rs:8-9 | a string starts with a character exactly if it starts with the encoding, by section 3 of RFC 3629, of a number that is no surrogate |
| Utf8.ValidUpToIsLongest | rust_backend/crates/core/src/text.rs:11-16 | the prefix copied at once is the longest well-formed one |
| Redact.SanitizeBytes | rust_backend/crates/extensions/src/redact.rs:40-66 | decoding the edited bytes gives the edits of the decoded text, pattern after pattern |
| Redact.RedactOne | rust_backend/crates/extensions/src/redact.rs:46-63 | one round of the loop copies and replaces at the mapped positions |
| Redact.DecodedPositions | rust_backend/crates/extensions/src/redact.rs:68-87 | the text is the decoded one and the list holds where each U+FFFD for a malformed byte starts |
| Redact.PositionIsRaw | rust_backend/crates/extensions/src/redact.rs:47 | the index minus twice the replacements before it is the exact raw position at every character boundary |
| Redact.DecodeAtCut | rust_backend/crates/extensions/src/redact.rs:47-53 | the raw bytes on either side of a mapped position decode to the text on either side of the boundary |
| Redact.SpliceCommutes | rust_backend/crates/extensions/src/redact.rs:45-64 | splicing non-empty well-formed replacements into raw bytes and decoding is decoding and splicing there |
| Redact.RedactCommutes | rust_backend/crates/extensions/src/redact.rs:40-66 | the same for the whole list of patterns |
| Redact.RedactKeepsText | rust_backend/crates/extensions/src/redact.rs:20-27 | redacting text leaves well-formed text |
| Redact.SpliceLast | rust_backend/crates/extensions/src/redact.rs:20-27 | splicing replaces exactly the matched ranges: the last match is replaced, what lies behind it stays, and the rest is spliced before it |
| Redact.SanitizedOneByOne | rust_backend/crates/extensions/src/redact.rs:20-27 | every pattern works on what the ones before it left |
| Redact.EmptyReplacementDoesNotCommute | rust_backend/crates/extensions/src/redact.rs:45-64 | an input on which an empty replacement would join two malformed bytes into a character |
| JsonSurrogates.RewriteSurrogates | rust_backend/crates/core/src/text.rs:23-69 | the one-pass loop computes the repaired text, and copies only if something changed |
| JsonSurrogates.TokensOfRewritten | rust_backend/crates/core/src/text.rs:23-69 | the result has the same length and the same tokens in the same places, apart from the repaired ones |
| JsonSurrogates.RewrittenHasNoUnpaired | rust_backend/crates/core/src/text.rs:35-57 | every surrogate escape that is left is a high one right before a low one, or that low one |
| JsonSurrogates.UnchangedExactly | rust_backend/crates/core/src/text.rs:63-68 | the text is left alone exactly when no escape in it is unpaired |
| JsonSurrogates.ReplacementIsFFFD | rust_backend/crates/core/src/text.rs:25-49 | what is put in is the escape of U+FFFD, and hexadecimal digits of either case count |
| JsonSurrogates.Idempotent | rust_backend/crates/core/src/text.rs:23-69 | rewriting twice is rewriting once |
| JsonSurrogates.RewrittenIsValid | rust_backend/crates/core/src/text.rs:23-69 | the result of rewriting a UTF-8 string is one |
| JsonSurrogates.RenderTokens | rust_backend/crates/core/src/text.rs:34-62 | cutting text into tokens loses nothing |
| JsonSurrogates.ReadPair | rust_backend/crates/core/src/text.rs:36-46 | the twelve-byte test sees a pair exactly where two escapes make one |
| JsonSurrogates.CutsAreBoundaries | rust_backend/crates/core/src/text.rs:47-51 | every cut the rewriter makes falls on a character boundary, so slicing the string never panics |
| CueLines.Lines.Next | rust_backend/crates/core/src/cue.rs:197-240 | whatever the reads, the next line of everything unread, or the end, or too long; and what stays unread |
| CueLines.Lines.Fill | rust_backend/crates/core/src/cue.rs:210-219 | refilling the empty buffer changes nothing about what is unread |
| CueLines.ReadLines | rust_backend/crates/core/src/cue.rs:42-65 | reading to the end gives the lines of the whole input, or those before the first one too long; a failed read or check gives a prefix of them |
| CueLines.ScanIsSplitting | rust_backend/crates/core/src/cue.rs:197-247 | line by line is splitting at newlines, dropping one trailing carriage return, up to the first field of 65,536 bytes or more |
| CueLines.SplitExists | rust_backend/crates/core/src/cue.rs:197-240 | every input splits at its newlines |
| CueLines.SplitUnique | rust_backend/crates/core/src/cue.rs:197-240 | in one way only |
| CueLines.LineEndingsAlike | rust_backend/crates/core/src/cue.rs:243-247 | lines ended by carriage return and newline, or by newline alone, are the same lines |
| CueLines.TooLongExactly | rust_backend/crates/core/src/cue.rs:197-240 | reading stops at the first field of 65,536 bytes or more, and all fields before it are lines |
| Cookies.HeaderFollowsRfc | rust_backend/crates/network/src/cookies.rs:143-170 | after any run and a sweep the header holds only unexpired cookies that section 5.4 of RFC 6265 allows, all it demands apart from undotted domains and, at an address, domain cookies; longest path first and then in the order the entries were put in; what an entry says of its header is `KeptExactly` |
| Cookies.CarriedExactly | rust_backend/crates/network/src/cookies.rs:22-160 | over every run, told from the attributes of the last header that set a cookie: a request carries it if and only if nothing has dropped it, it is alive, it is not secure over plain HTTP, and partition, host and path fit; without a Domain attribute only the host that set it fits |
| Cookies.SecureAndHostOnlyHold | rust_backend/crates/network/src/cookies.rs:65-160 | if the last header that set a listed cookie said Secure the request is HTTPS, and if it named no domain the request is to the host that set it |
| Cookies.KeptExactly | rust_backend/crates/network/src/cookies.rs:22-174 | the jar holds a key if and only if no clear, no expired header for it and no sweep after its end came since its last header, and then with that header's value, Secure attribute, expiry and host restriction |
| Cookies.KeptWasSet | rust_backend/crates/network/src/cookies.rs:22-140 | nothing is in the jar that no header has set |
| Cookies.RenderedTakenApart | rust_backend/crates/network/src/cookies.rs:165-169 | cutting the header at its semicolons gives the listed names and values in their order |
| Cookies.ValuesWithoutSemicolon | rust_backend/crates/network/src/cookies.rs:56-62 | whatever was stored, no value holds a semicolon, so the cutting is exact |
| Cookies.HeaderOrderExactly | rust_backend/crates/network/src/cookies.rs:117-124 | the header is in the order of RFC 6265, longest path first and then earliest creation, if and only if no cookie in it was set again, expired and not yet swept, after one behind it with a path as long had been created |
| Cookies.RevivedCookieKeepsItsPlace | rust_backend/crates/network/src/cookies.rs:113-124 | the failing input: an expired cookie set again before a sweep keeps its place although it was created later |
| Cookies.SweepPreventsRevival | rust_backend/crates/network/src/cookies.rs:145-146 | a sweep at the instant of the header leaves no expired entry to be set again |
| Cookies.CreatedWhenLastRevived | rust_backend/crates/network/src/cookies.rs:113-124 | the creation of section 5.3 of RFC 6265 is the step that put the entry in or the last one that set it while expired |
| Cookies.OneEntryPerCookie | rust_backend/crates/network/src/cookies.rs:92 | for dotted names the entries are the cookies of the RFC: domain, path and name determine the partition |
| Cookies.CookieJar.Header | rust_backend/crates/network/src/cookies.rs:143-170 | expired entries go, the selected ones are listed in order and rendered |
| Cookies.CookieJar.Sorted | rust_backend/crates/network/src/cookies.rs:162-164 | sorting by bytes and sequence is sorting by path length and creation |
| Cookies.SortOrderIsRfcOrder | rust_backend/crates/network/src/cookies.rs:162-164 | among cookies of one request, byte order of paths is order by length |
| Cookies.ListedUnique | rust_backend/crates/network/src/cookies.rs:149-169 | jar and request determine the list, so the map's iteration order does not matter |
| Cookies.SequenceIsStoringOrder | rust_backend/crates/network/src/cookies.rs:117-124 | sequence numbers order entries by the step that put them in, through all updates, expiries and clears, and are distinct |
| Cookies.EveryReachableJar | rust_backend/crates/network/src/cookies.rs:22-174 | numbers are below the counter and used once, and every entry sits in the partition its domain gives |
| Cookies.CookieJar.StoreOne | rust_backend/crates/network/src/cookies.rs:30-140 | one header is ignored, removes its entry, updates it in place or creates one, which then holds the header's own value, Secure attribute, expiry and host restriction |
| Cookies.CookieJar.Store | rust_backend/crates/network/src/cookies.rs:22-140 | a batch is its headers one by one, each with the effect of `KeptExactly`, or nothing if there are more than 3000 |
| Cookies.AcceptedIsSentBack | rust_backend/crates/network/src/cookies.rs:22-160 | an accepted cookie goes back to every later request to its host that the RFC allows |
| Cookies.AcceptedExactly | rust_backend/crates/network/src/cookies.rs:52-85 | a header is taken if and only if its value is printable and it names no domain, its own address, or a domain, in letters of either case and with at most one dot in front, that its host is or lies below |
| Cookies.LivesUntilExpiry | rust_backend/crates/network/src/cookies.rs:92-116 | a cookie is alive by its Max-Age, which goes before Expires and is never if not positive, exactly until the expiry the jar computes |
| Cookies.SelectsWhatRfcSends | rust_backend/crates/network/src/cookies.rs:152-160 | the filter accepts nothing the RFC forbids, domain cookies for addresses included, and all it sends for host-only cookies and dotted domains |
| Cookies.AddressesGetNoDomainCookies | rust_backend/crates/network/src/cookies.rs:153-156 | an address never receives a domain cookie although the filter does not ask |
| Cookies.PartitionOf | rust_backend/crates/network/src/cookies.rs:183-190 | a host that passes the domain test is in the domain's partition if and only if the domain has a dot or is the host |
| Cookies.PartitionSafe | rust_backend/crates/network/src/cookies.rs:183-190 | the partition hides nothing from any host below a domain if and only if the domain has a dot |
| Cookies.DottedReachesAll | rust_backend/crates/network/src/cookies.rs:148-160 | a domain cookie reaches every named host the RFC sends it to if and only if its domain has a dot |
| Cookies.HiddenExactly | rust_backend/crates/network/src/cookies.rs:22-160 | a domain cookie of a reachable jar reaches every host the RFC sends it to if and only if its domain has a dot and is not an address |
| Cookies.UndottedDomainIsHidden | rust_backend/crates/network/src/cookies.rs:22-160 | from an empty jar, `api.example.test` sets a cookie for `test` that is accepted and stored, that the RFC sends to `other.test` and the program does not |
| Cookies.DefaultPathMatches | rust_backend/crates/network/src/cookies.rs:192-199 | the default path matches the request path it came from exactly when that path is absolute |
| Cookies.DefaultPathIsDirectory | rust_backend/crates/network/src/cookies.rs:192-199 | the default path is what stands before the last slash, or the slash |
| Cookies.PathMatchesBelow | rust_backend/crates/network/src/cookies.rs:157-159 | a path matches itself and what continues it at a slash |
| BlockModes.Transform | rust_backend/crates/extensions/src/crypto.rs:57-82 | the refusals, and otherwise the named mode in the asked direction applied to the slice in place |
| BlockModes.TransformSlice | rust_backend/crates/extensions/src/crypto.rs:84-127 | the loop over chunks computes the mode on the slice and touches nothing else; a failed check stops it |
| BlockModes.IncrementInPlace | rust_backend/crates/extensions/src/crypto.rs:99-104 | the carry loop computes the incremented counter |
| BlockModes.IncrementAddsOne | rust_backend/crates/extensions/src/crypto.rs:99-104 | the counter is one big-endian number and grows by one modulo 256 to its length |
| BlockModes.CounterAdds | rust_backend/crates/extensions/src/crypto.rs:93-104 | the counter of block n is the start plus n, modulo 256 to its length |
| BlockModes.CbcRoundTrip | rust_backend/crates/extensions/src/crypto.rs:84-127 | CBC decryption undoes encryption for every aligned input |
| BlockModes.CbcEncryptsBlocks | rust_backend/crates/extensions/src/crypto.rs:117-122 | CBC encryption of section 6.2 of NIST SP 800-38A: every block is xored with the ciphertext block before it, or the initialization vector, and encrypted |
| BlockModes.CbcDecryptsBlocks | rust_backend/crates/extensions/src/crypto.rs:109-116 | every block is decrypted and xored with the ciphertext block before it, or the initialization vector |
| BlockModes.CtrInvolution | rust_backend/crates/extensions/src/crypto.rs:84-127 | CTR is its own inverse for every length |
| BlockModes.CtrIsStream | rust_backend/crates/extensions/src/crypto.rs:93-104 | CTR xors byte i with byte i modulo the block size of the encrypted counter of its block |
| BlockModes.UnpadPad | rust_backend/crates/extensions/src/crypto.rs:129-150 | unpadding undoes padding |
| BlockModes.PadAligns | rust_backend/crates/extensions/src/crypto.rs:129-132 | padding adds at least one byte and at most a block, each byte being the number added |
| BlockModes.UnpadExactly | rust_backend/crates/extensions/src/crypto.rs:129-150 | unpadding succeeds exactly on images of padding |
| BlockModes.PaddedRoundTrip | rust_backend/crates/extensions/src/crypto_host.rs:161-167 | pad, encrypt, decrypt, unpad restores the data |
| CtrSegments.ApplySegments | rust_backend/crates/extensions/src/crypto_host.rs:218-261 | the loop applies the list in order, refuses at the first bad segment and counts those not empty |
| CtrSegments.AllMask | rust_backend/crates/extensions/src/crypto_host.rs:218-261 | the list is accepted if and only if every segment is, and xors each byte with the masks of all segments over it |
| CtrSegments.FilledExactly | rust_backend/crates/extensions/src/crypto_host.rs:218-261 | what is counted is every segment that is not empty, as often as it occurs |
| CtrSegments.ResizedPadsZeros | rust_backend/crates/extensions/src/crypto_host.rs:243-251 | a short counter start is filled with zeros behind it |
| CtrSegments.AnyOrder | rust_backend/crates/extensions/src/crypto_host.rs:218-261 | any order of the same segments, overlapping or not, gives the same bytes or is refused alike |
| CtrSegments.TwiceRestores | rust_backend/crates/extensions/src/crypto_host.rs:218-261 | applying the list twice restores the bytes |
| FileTransform.TransformFile | rust_backend/crates/extensions/src/file_transform.rs:100-145 | for every buffer size and way of reading, segment number offset + m * every, for each m, if whole or if tails are wanted, is transformed on its own and every other byte is the file's; the counter is the number of those segments; a refusal means one of them is not made of whole blocks |
| FileTransform.TransformBuffer | rust_backend/crates/extensions/src/file_transform.rs:108-123 | one buffer is transformed in place as a part of the file that starts at its segment number: which segments are transformed, which are left, and how many |
| FileTransform.TransformSegment | rust_backend/crates/extensions/src/file_transform.rs:109-121 | a segment whose number is in turn, and which is whole or a wanted tail, is transformed in place with a new start value or refused if unaligned; another is left alone |
| FileTransform.ReadChunk | rust_backend/crates/extensions/src/file_host.rs:275-292 | the buffer is filled unless the file ends, through short and interrupted reads |
| FileTransform.BufferSize | rust_backend/crates/extensions/src/file_transform.rs:60-61 | the buffer holds a whole number of segments, at least one, within the limit, and the most that was asked for |
| FileTransform.SegmentsAreIndependent | rust_backend/crates/extensions/src/file_transform.rs:108-123 | each segment of the output is made from the same segment of the file and its number alone |
| FileTransform.WholeIsPatterned | rust_backend/crates/extensions/src/file_transform.rs:108-123 | the transform of a file or a part of one, told from segment numbers and places alone |
| FileTransform.SelectedExactly | rust_backend/crates/extensions/src/file_transform.rs:110-120 | the counter is exactly the number of segments in turn and taken |
| FileTransform.FailsExactly | rust_backend/crates/extensions/src/file_transform.rs:112-117 | the transform fails if and only if a segment in turn and taken is not made of whole blocks |
| FileTransform.WholeConcat | rust_backend/crates/extensions/src/file_transform.rs:100-145 | a file may be cut after any whole number of segments |
| FileTransform.InverseRestores | rust_backend/crates/extensions/src/file_transform.rs:44-145 | a successful encryption followed by decryption with the same options restores the file |
| Cancellation.EveryReachableState | rust_backend/crates/core/src/cancellation.rs:117-313 | over every run counts are the live leases, flags are shared, sentinels are cancelled, and no sleeper whose wait is over lacks a notification |
| Cancellation.CancelReachesExactly | rust_backend/crates/core/src/cancellation.rs:136-152 | cancel sets the flag of exactly the live leases of that ID |
| Cancellation.CancelActiveReachesExactly | rust_backend/crates/core/src/cancellation.rs:154-167 | cancelling the active requests reaches every live tracked lease and no other, and makes no sentinel |
| Cancellation.ReleasedKeepsInv | rust_backend/crates/core/src/cancellation.rs:300-313 | release keeps the invariant and never takes a count below zero |
| Cancellation.RetryStartsUncancelled | rust_backend/crates/core/src/cancellation.rs:117-167 | after the last release of an ID a retry starts uncancelled, unless the ID was cancelled meanwhile or had a live lease while the active requests were |
| Cancellation.CancelBeforeAcquire | rust_backend/crates/core/src/cancellation.rs:117-152 | a cancellation before the request is not lost: over any run without a reset while idle, a last release or a shutdown, the next acquisition of the ID starts cancelled and its wait ends at once |
| Cancellation.DoomedExactly | rust_backend/crates/core/src/cancellation.rs:117-195 | exactly which steps make the next acquisition of an ID start cancelled and which take it back |
| Cancellation.ShutdownIsForGood | rust_backend/crates/core/src/cancellation.rs:197-204 | after a shutdown no lease is handed out any more and every wait ends as closed |
| Cancellation.FreshActiveCancelled | rust_backend/crates/core/src/cancellation.rs:154-167 | cancelling the active requests leaves an ID without live leases alone |
| Cancellation.NotificationDelivers | rust_backend/crates/core/src/cancellation.rs:275-296 | a notification reaches every sleeper, and a woken waiter whose wait is over returns |
| Cancellation.CancellationRegistry.AcquireLease | rust_backend/crates/core/src/cancellation.rs:117-134 | the entry is created or reused, counted, and its flag shared with the lease |
| Cancellation.CancellationRegistry.CancelId | rust_backend/crates/core/src/cancellation.rs:136-152 | the flag of the ID is set, in a sentinel if nobody holds it: afterwards the ID has an entry and its flag is set |
| Cancellation.CancellationRegistry.CancelAllActive | rust_backend/crates/core/src/cancellation.rs:154-167 | the loop sets exactly the flags of entries in use and returns their IDs |
| Cancellation.CancellationRegistry.ReleaseLease | rust_backend/crates/core/src/cancellation.rs:300-313 | the first release uncounts the lease and drops the entry with the last one |
| Cancellation.CancellationRegistry.WaitOnce | rust_backend/crates/core/src/cancellation.rs:279-295 | one pass of a wait answers closed, released, cancelled or expired, in that order, or sleeps |
| OutputLocks.OneGuardPerPath | rust_backend/crates/extensions/src/files.rs:153-184 | in every interleaving at most one guard per path is live, and holders and waiters of one path share one lock object |
| OutputLocks.TurnByPath | rust_backend/crates/extensions/src/files.rs:168-183 | a turn is granted exactly when nobody holds the path, refused exactly when the check failed or the caller holds it itself |
| OutputLocks.HolderIsOwner | rust_backend/crates/extensions/src/files.rs:168-183 | the owner field names exactly the thread whose guard is live |
| OutputLocks.FileRegistry.LookUp | rust_backend/crates/extensions/src/files.rs:158-167 | dead entries are pruned and the path's object is upgraded or made |
| OutputLocks.FileRegistry.TryLock | rust_backend/crates/extensions/src/files.rs:168-183 | one turn of the waiting loop; a refused caller keeps its reference until it lets go of it |
| OutputLocks.FileRegistry.UnlockGuard | rust_backend/crates/extensions/src/files.rs:662-667 | dropping a guard clears the owner |
| Repository.EveryFetchGetsItsOwnUrl | rust_backend/crates/extensions/src/repository.rs:214-407 | over every interleaving the cache belongs to the configured URL, a generation has one refresh in flight, and a fetch that succeeds returns a registry of the URL of its generation |
| Repository.GenerationsKeepTheirUrl | rust_backend/crates/extensions/src/repository.rs:214-272 | a new URL is a new generation with an empty cache, and history is never rewritten |
| Repository.DecisionCommits | rust_backend/crates/extensions/src/repository.rs:378-407 | a 200 with a good body becomes the cache of its URL from now on, a 304 renews the cached registry, and that registry is the answer |
| Repository.DecisionFallsBack | rust_backend/crates/extensions/src/repository.rs:365-402 | another status, a bad body, a failed request or a generation that is over commits nothing, and the answer is the cached registry or an error, each exactly when it should be |
| Repository.FlightReturnsTheDecision | rust_backend/crates/extensions/src/repository.rs:317-340 | over every interleaving, what the leader decides is what its flight holds and what the leader and all followers of the flight return |
| Repository.FollowersReturn | rust_backend/crates/extensions/src/repository.rs:317-331 | in every reachable state a listed flight has a leader; once its answer is published a follower returns it, or an error if its generation is over |
| Repository.LeaderKeepsItsCache | rust_backend/crates/extensions/src/repository.rs:301-332 | until it decides a leader keeps the URL, generation and cached registry it started with |
| Repository.ResponseArrives | rust_backend/crates/extensions/src/repository.rs:361-364 | a response reaches its leader unless the repository was closed or cleared meanwhile, and then the leader answers with an error |
| Repository.CommittedIsServed | rust_backend/crates/extensions/src/repository.rs:290-316 | what was committed is served without a request until it is half an hour old, if nothing is cleared or decided meanwhile |
| Repository.ShutdownIsForGood | rust_backend/crates/extensions/src/repository.rs:401-405 | after a shutdown nothing is committed to the cache or its file any more |
| Repository.ExtensionRepository.StartFetch | rust_backend/crates/extensions/src/repository.rs:290-316 | answer from a cache younger than half an hour unless forced, else follow the flight of this generation or lead a new one |
| Repository.ExtensionRepository.FinishRefresh | rust_backend/crates/extensions/src/repository.rs:360-407 | for each kind of response: which registry is committed with which time, and which registry or error is the answer; nothing is committed for a generation that is over |
| Repository.ExtensionRepository.EndFlight | rust_backend/crates/extensions/src/repository.rs:332-339 | the leader takes its flight out and returns its answer |
| Repository.ExtensionRepository.SetRegistryUrl | rust_backend/crates/extensions/src/repository.rs:244-251 | another URL clears the cache and starts a generation, the same one changes nothing |
| Repository.ExtensionRepository.Clear | rust_backend/crates/extensions/src/repository.rs:267-272 | a new generation without cache and flights, even if the cache file survives |
| Commands.ClaimedAtMostOnce | rust_backend/crates/extensions/src/ffmpeg.rs:188-213 | over every run a command is in at most one claim |
| Commands.ExecutorsGetTheirOwn | rust_backend/crates/extensions/src/ffmpeg.rs:145-176 | an executor that comes back with a result has the only one accepted for its own command |
| Commands.WaitingIsHandedOut | rust_backend/crates/extensions/src/ffmpeg.rs:188-213 | over every run, while its executor waits in an open registry, a command that is unclaimed and without a result is in the next claim, exactly as it was put in |
| Commands.ListedExactly | rust_backend/crates/extensions/src/ffmpeg.rs:188-213 | pumps are shown exactly the commands that no claim held and no result was accepted for |
| Commands.AcceptedIsDelivered | rust_backend/crates/extensions/src/ffmpeg.rs:86-101 | whatever happens between, short of a shutdown, an executor that looks again and is not cancelled leaves with the result that was accepted for its command |
| Commands.GoneForGood | rust_backend/crates/extensions/src/ffmpeg.rs:86-111 | a command that was taken out never comes back and no result completes it |
| Commands.DoneIsGone | rust_backend/crates/extensions/src/ffmpeg.rs:151-177 | in every reachable state the command of an executor that returned is gone |
| Commands.GetTellsThePump | rust_backend/crates/extensions/src/ffmpeg.rs:53-57 | in every reachable state of an open registry `get` finds a command while its executor waits, and neither before it was put in nor after the executor returned |
| Commands.FirstResultWins | rust_backend/crates/extensions/src/ffmpeg.rs:86-101 | over every run the first result for a waiting command is accepted, every later one refused, and its executor can come back with no other |
| Commands.IdsAreUnique | rust_backend/crates/extensions/src/ffmpeg.rs:124-125 | two executors never wait under one ID, whatever their extensions are called |
| Commands.IdInjective | rust_backend/crates/extensions/src/ffmpeg.rs:124-125 | an ID determines its extension and number |
| Commands.DecimalInjective | rust_backend/crates/extensions/src/ffmpeg.rs:125 | a number's decimal rendering determines it |
| Commands.StepKeepsInv | rust_backend/crates/extensions/src/ffmpeg.rs:52-231 | every step keeps the queue's invariant |
| Commands.CommandRegistry.Pending | rust_backend/crates/extensions/src/ffmpeg.rs:188-213 | the loop lists exactly the unclaimed commands without a result, and marks them if asked to |
| Commands.CommandRegistry.ClaimPending | rust_backend/crates/extensions/src/ffmpeg.rs:71-84 | one pass of a pump: every listed command is claimed and returned |
| Commands.CommandRegistry.Complete | rust_backend/crates/extensions/src/ffmpeg.rs:88-101 | a result is stored for a waiting command once, and refused otherwise |
| Commands.CommandRegistry.Poll | rust_backend/crates/extensions/src/ffmpeg.rs:153-175 | cancelled before closed before finished before late, and a finished command is taken out |
| Commands.CommandRegistry.Shutdown | rust_backend/crates/extensions/src/ffmpeg.rs:103-111 | the queue is emptied and stays closed |
| Callbacks.EveryReachableState | rust_backend/crates/extensions/src/auth.rs:163-286 | owners name pending requests with their nonce, and the nonce of an unexpired request has an owner |
| Callbacks.ConsumedOnce | rust_backend/crates/extensions/src/auth.rs:264-286 | two callbacks that succeed, the first consuming, are separated by a new registration of the nonce |
| Callbacks.FailedCallbackForgets | rust_backend/crates/extensions/src/auth.rs:277-280 | a callback leaves nothing with its nonce exactly if it failed or consumed |
| Callbacks.RefusedExactly | rust_backend/crates/extensions/src/auth.rs:163-205 | in every reachable state a request is refused exactly if it is blank, the registry is closed or its nonce belongs to another extension's different request; an accepted one is stored |
| Callbacks.OwnerKeepsNonce | rust_backend/crates/extensions/src/auth.rs:163-286 | an unexpired request keeps its nonce until it is resolved, cleared or superseded by its own extension |
| Callbacks.RegisteredKeepsInv | rust_backend/crates/extensions/src/auth.rs:163-205 | registering, with or without superseding an older request, keeps the table |
| Callbacks.RemovedKeepsInv | rust_backend/crates/extensions/src/auth.rs:207-224 | removing an owner hands its nonce to an unexpired request that carries it, if there is one |
| Callbacks.AuthRegistry.RegisterPending | rust_backend/crates/extensions/src/auth.rs:163-205 | accepted exactly when named, open and not another extension's nonce; and the new table |
| Callbacks.AuthRegistry.RemovePending | rust_backend/crates/extensions/src/auth.rs:207-224 | the request goes and the nonce passes to an heir or is freed |
| Callbacks.AuthRegistry.FindHeir | rust_backend/crates/extensions/src/auth.rs:219-221 | the search finds an unexpired request with the nonce if and only if there is one |
| Callbacks.AuthRegistry.Lookup | rust_backend/crates/extensions/src/auth.rs:234-244 | an expired request is dropped before the lookup |
| Callbacks.AuthRegistry.ResolveCallback | rust_backend/crates/extensions/src/auth.rs:264-286 | the owner is returned if its request is unexpired, and the nonce is forgotten on failure or consumption |
| Budget.BudgetIsExact | rust_backend/crates/extensions/src/resolution.rs:15-78 | after any run of guards the budget is the allowance minus, down to zero, the time with no pause or some charge |
| Budget.NeverIncreases | rust_backend/crates/extensions/src/resolution.rs:15-78 | the budget never increases |
| Budget.CountsNeverUnderflow | rust_backend/crates/extensions/src/resolution.rs:68-78 | a live guard is always counted, so dropping it cannot take a count below zero |
| Budget.RunsByCounts | rust_backend/crates/extensions/src/resolution.rs:16-23 | the two counts decide whether the budget runs |
| Budget.ResolutionBudget.Enter | rust_backend/crates/extensions/src/resolution.rs:48-60 | settle, count and hand out the guard |
| Budget.ResolutionBudget.Left | rust_backend/crates/extensions/src/resolution.rs:41-46 | what is read without settling is exact |
| Budget.BudgetGuard.Drop | rust_backend/crates/extensions/src/resolution.rs:68-78 | settle and uncount |
| Storage.EveryReadIsFresh | rust_backend/crates/extensions/src/storage.rs:238-388 | after any operations of any handles and any changes by others, except a replacement of the file between an operation's last read or write of it and the stat that follows, a successful read gives the meaning of what it sees, and left alone what a fresh read, decryption and parse would |
| Storage.RefreshIsFreshRead | rust_backend/crates/extensions/src/storage.rs:238-276 | whatever others do meanwhile, a successful read gives the meaning of what it saw, and the snapshot stays coherent if and only if the file at the second stat still holds what was loaded |
| Storage.QuietRefresh | rust_backend/crates/extensions/src/storage.rs:238-276 | left alone, one read is a fresh one, fails exactly when a fresh one would unless a call failed, and keeps the files' meaning |
| Storage.NextReadIsFreshExactly | rust_backend/crates/extensions/src/storage.rs:246-276 | after a snapshot was filled, also from a file that was gone at the second stat, the next read is fresh if and only if the files at the second stat mean what had been read |
| Storage.ChangeBeforeTheStatStaysUnseen | rust_backend/crates/extensions/src/storage.rs:251-274 | the failing inputs: a file changed or deleted between the read and the second stat is not noticed, and the old object is served from then on |
| Storage.FilledCoherentExactly | rust_backend/crates/extensions/src/storage.rs:272-274 | a snapshot just filled in is coherent if and only if its file still holds it |
| Storage.SnapshotsDoNotCrossKeys | rust_backend/crates/extensions/src/storage.rs:225-250 | over every run a snapshot is served unread only to handles with the key of the operation that filled it |
| Storage.LoadMeansSeen | rust_backend/crates/extensions/src/storage.rs:251-308 | whatever others do meanwhile, a load that succeeds gives the meaning of what it read |
| Storage.LoadMeans | rust_backend/crates/extensions/src/storage.rs:251-308 | left alone, the legacy formats mean the same before and after they are rewritten |
| Storage.MigrationMoves | rust_backend/crates/extensions/src/storage.rs:278-308 | old settings that were read are in the new file, encrypted under the key, and the old file is gone; a failure leaves both as they were unless the last call failed |
| Storage.MutateCoherent | rust_backend/crates/extensions/src/storage.rs:322-367 | a set, a removal or a replacement is made to the meaning of what was seen, entry by entry, and the snapshot stays coherent if and only if the file at the final stat still holds it |
| Storage.MutateWrites | rust_backend/crates/extensions/src/storage.rs:322-367 | left alone, after a successful change a fresh read finds the new value under the key and everything else as before, the key gone and everything else as before, or the replacement; after a failed one the old object or, if only the last look failed, the changed one; without a fault it succeeds exactly when the object can be read and a key is there to write it |
| Storage.SparedExactly | rust_backend/crates/extensions/src/storage.rs:329-357 | nothing is written if and only if a plain store is asked to remove a key it lacks; any other successful change leaves a file just written that opens to the changed object |
| Storage.EveryChangeIsMade | rust_backend/crates/extensions/src/storage.rs:238-367 | after any operations and any changes by others that settle, a change by a handle left alone leaves the object it found, changed as asked, for the next read |
| Storage.LastChangeIsRead | rust_backend/crates/extensions/src/storage.rs:310-367 | over any run that does not touch the key, reads and changes failing or not, a read finds what was last set under it, or nothing after a removal |
| Storage.ExtensionStore.All | rust_backend/crates/extensions/src/storage.rs:316-320 | a closed handle touches nothing, a successful read gives the meaning of what it saw, and left alone it is fresh |
| Storage.ExtensionStore.Get | rust_backend/crates/extensions/src/storage.rs:310-314 | one entry of what a read finds, under the same conditions |
| Storage.ExtensionStore.Apply | rust_backend/crates/extensions/src/storage.rs:322-367 | a closed handle touches nothing; a successful change does to what it saw exactly what its kind says, a fresh read then finds that, and the file is written unless a plain store lacks the key to be removed |
| Storage.ExtensionStore.MutateShared | rust_backend/crates/extensions/src/storage.rs:344-367 | load, change, write and second stat leave the snapshot and the files that `MutateCoherent` and `MutateWrites` speak of |
| Storage.ExtensionStore.RefreshShared | rust_backend/crates/extensions/src/storage.rs:238-276 | the shared snapshot and the files become those of the read |
| Storage.ExtensionStore.Load | rust_backend/crates/extensions/src/storage.rs:251-271 | the file or a legacy format is read, and a legacy one rewritten |
| Versions.TotalPreorder | rust_backend/crates/extensions/src/environment.rs:743-770 | the comparison is a total preorder: equal exactly when all parts are, reversed by exchange, transitive |
| Versions.PartsExactly | rust_backend/crates/extensions/src/environment.rs:743-770 | the parts are what stands between the dots, with or without a `v` in front |
| Versions.PartIsItsNumber | rust_backend/crates/extensions/src/environment.rs:743-770 | a part of digits, signed or not, is the number it is written for, within the limits of the type |
| Versions.PartWithoutNumber | rust_backend/crates/extensions/src/environment.rs:743-770 | a part that is not a number counts as zero |
| Versions.LongerByOne | rust_backend/crates/extensions/src/environment.rs:743-770 | a zero more at the end does not count, anything else there does |
| Versions.CompareVersions | rust_backend/crates/extensions/src/environment.rs:743-770 | the loop over two iterators decides at the first part that differs, a missing one being zero |
| Packages.FailedUpgradeKeepsOldPackage | rust_backend/crates/extensions/src/manager.rs:684-777 | on every error path the entry is unchanged and the old package is whole at its target or at a kept backup; success needs every call |
| Packages.InstallOrUpgradeExactly | rust_backend/crates/extensions/src/manager.rs:200-281 | success needs a free target or a newer version and the calls to work, puts the package at its target and in the entries, and changes nothing else; failure changes no entry |
| Packages.RemovedMayReturn | rust_backend/crates/extensions/src/manager.rs:632-680 | an entry goes only when source and data both went; then its name may be installed again |
| Packages.VersionsNeverGoDown | rust_backend/crates/extensions/src/manager.rs:200-227 | over any run without unload, removal or shutdown a version never goes down and the package stays whole |
| Packages.ExtensionManager.UpgradePackage | rust_backend/crates/extensions/src/manager.rs:684-777 | the rename sequence with its roll-back gives the directories and entries of the outcome |
| Packages.ExtensionManager.Swap | rust_backend/crates/extensions/src/manager.rs:741-759 | preserve, activate, roll back: which directories are where on each path |
| Packages.ExtensionManager.InstallPackage | rust_backend/crates/extensions/src/manager.rs:258-281 | an existing target is refused, a failed stage leaves nothing, success registers the package |
| Packages.ExtensionManager.InstallOrUpgradePackage | rust_backend/crates/extensions/src/manager.rs:200-227 | an installed name is upgraded, another installed |

## Left out

- Matching: trimming, case folding and the language tables of `lowercase`, `uppercase` and `normalize`; `compare_duration`. The score is a real number, without the rounding of `f64`.
- Redact.SanitizeBytes: the regular expressions themselves; a pattern is any function from a text to well-formed matches and non-empty replacements.
- JsonSurrogates: the JSON grammar outside strings; as in the program, only quotes and backslashes matter.
- CueLines: what `parse` does with a line (commands, timestamps, quoting); the reader's error texts.
- Cookies: parsing of header text and dates, host normalisation, and the sign and overflow rules of `Max-Age` digits; `Option<SetCookie>` is what they leave. Which names are addresses is a parameter; an address has a colon or more than two labels.
- Cookies.CookieJar.Sorted: the library sort is an insertion sort; the order it must give is unique.
- BlockModes: AES and Blowfish, and key set-up; any lawful cipher of at most 255 bytes a block stands for them where padding is concerned.
- FileTransform.TransformFile: option parsing, locks, staging and publishing of the output file, and the progress callback.
- Cancellation: wakers and observed threads, time limits of waits (a wait may end at any time) and memory ordering; a flag is read and written under the lock.
- Cancellation.CancellationRegistry.CancelAllActive: the order of the returned IDs.
- OutputLocks: path resolution and case folding; a path is already folded. Waiting is a turn taken again.
- Repository: requests, parsing and downloads; a response is any value with the URL it came from. Wrap-around of the 64-bit generation. Time limits of waits.
- Commands: wrap-around of the 64-bit sequence number, JSON rendering of pending commands, and wake-ups: waiting is polling again, and a time limit may pass at any time.
- Callbacks: records, tokens and their generations, random nonces, and `has_fresh_challenge`.
- Callbacks.AuthRegistry.FindHeir: which of several candidates inherits (the program takes the first in key order).
- Budget: the width of `Duration` and of the counters.
- Storage: AES-GCM, JSON and the file system; `Codec` and `System` hold their contracts, the main one being that a file identity changes whenever content does. A write that fails changes nothing.
- Packages: settings, status, engines, runtimes and the order of teardown; archives and manifest checks; failures to remove a temporary directory.
- QuickJS execution, HTTP, DNS, TLS, media code, progress and the mobile wrappers: outside this model.
