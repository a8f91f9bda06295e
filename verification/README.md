# Verified model of the nova-ai core

This project models, in Dafny, the stateful and algorithmic core of the `nova-ai` crate and the
patch generation loop of `nova-ai-codegen`, and proves what those parts are for:

- the response cache: two intrusive linked lists, a free list and an index threaded through one slab,
  proved to behave as a plain recency-ordered list in every reachable state;
- request coalescing in the chat client, as a transition system over every interleaving of callers,
  leader tasks and cancellations, and the retry loop around the provider;
- the cache key encoding, uniquely decodable;
- middle truncation of diffs, including the marker whose length depends on the number it states;
- the code anonymizer, what its redactions hide, and the separately written lexer that has to undo the
  renaming;
- the stream line decoder, independent of how bytes arrive, and the increments of a stream that may
  repeat itself;
- filtering of excluded file sections by every path a section names, exact for every rendered git patch,
  the path headers of git diffs and
  their quoting, and the patch parser, with round trips for headers, quoting, renames and patches;
- the repair loop, with that parser inside, and the edit-range check.

Clock readings, provider replies, cancellations and hash-map iteration orders are arbitrary inputs.
Characters are Unicode scalar values; where the code works on bytes, so does the model.

Six statements one might expect turn out to be false of the code as it is. Each has a concrete
counterexample and the exact condition under which it holds:

- anonymized code is not always restored: a renamed identifier directly behind a run of literals that
  holds a letter or an underscore is lost (`GluedLiteralFails`), and so is code behind a line comment with a carriage
  return in it (`StrayReturnFails`); the condition, for all code, is in `RoundTrip`;
- a malformed patch is not always rejected: a hunk line that starts with a character of more than one
  byte makes the parser panic (`WidePatchPanics`, condition in `PatchPanicsIff`);
- filtering a diff without git headers does not always replace exactly the excluded files: a removed line
  that starts with `-- `, directly followed by an added line that starts with `++ `, is taken for the
  header of another file (`HiddenHeaderSplits`, condition in `FilteredExactlyIff`);
- an unquoted `diff --git` header is not always read back: the path `x "` passes for a quoted path with
  what follows it (`QuoteAtEndMisread`, condition in `HeaderRoundTrip`);
- the edit-range check refuses some edits that stay inside the range (`RepeatedInsertionRefused`,
  condition in `EnforceUnchangedOutside`);
- a stream of increments is not always put together: `ha` followed by `ha` is taken for a repetition
  (`RepetitionLost`, condition on the chunks in `IncrementsAddUp`).

The marker iteration of the truncation code, on the other hand, always settles: `NoFiveRises` needs no
bound on the size of the text.

Verify with `dafny verify dfyconfig.toml`.

## Model

| member | source | states |
|---|---|---|
| ResponseCache.PushLruBack | crates/nova-ai/src/cache.rs:227-244 | appends a slot to the recency list: the links still thread exactly the listed slots, nothing but recency links changed |
| ResponseCache.PushTtlBack | crates/nova-ai/src/cache.rs:246-263 | the same for the age list |
| ResponseCache.DetachLru | crates/nova-ai/src/cache.rs:265-292 | removes one slot from the middle or either end of the recency list, all other slots in order |
| ResponseCache.DetachTtl | crates/nova-ai/src/cache.rs:294-321 | the same for the age list |
| ResponseCache.TouchLru | crates/nova-ai/src/cache.rs:211-217 | moves a slot to the most recent end, order of the others kept |
| ResponseCache.TouchTtl | crates/nova-ai/src/cache.rs:219-225 | moves a slot to the youngest end |
| ResponseCache.Remove | crates/nova-ai/src/cache.rs:323-337 | removing an occupied slot removes exactly its key from the list and keeps slab, index, free list and both lists coherent; only an empty slot would reset the cache |
| ResponseCache.PruneLocked | crates/nova-ai/src/cache.rs:181-209 | the pruning loops compute the simple list's expiry and size pruning; no reset or corrupted branch is taken |
| ResponseCache.Overwrite | crates/nova-ai/src/cache.rs:133-179 | storing under a present key replaces value and time and makes the entry youngest and most recent |
| ResponseCache.Append | crates/nova-ai/src/cache.rs:133-179 | storing under a new key appends; the slab grows only if there is no free slot |
| ResponseCache.Allocate | crates/nova-ai/src/cache.rs:133-179 | the slot taken is free or new, and on neither list |
| ResponseCache.LlmResponseCache.constructor | crates/nova-ai/src/cache.rs:104-112 | an empty coherent cache that holds at least one entry |
| ResponseCache.LlmResponseCache.Get | crates/nova-ai/src/cache.rs:114-131 | refines the simple list's lookup, whose effect on every later call is stated by FetchEffect, OrderedByLastUse and HitKeepsRecent: a hit counts as a use, an expired entry goes; coherence and the slab bound of one more than the maximum are kept |
| ResponseCache.LlmResponseCache.Insert | crates/nova-ai/src/cache.rs:133-179 | refines the simple list's insertion and pruning at two clock readings (FreshMembers, InsertEffect), keeping coherence and the slab bound |
| CacheRuns.InsertEffect | crates/nova-ai/src/cache.rs:133-209 | after an insertion no expired entry is left and at most one entry, the least recent, was evicted for size |
| CacheRuns.InsertHolds | crates/nova-ai/src/cache.rs:133-209 | the inserted entry is held and most recent unless it expired between the two clock readings |
| CacheRuns.FreshMembers | crates/nova-ai/src/cache.rs:133-209 | an insertion leaves, before the size limit, exactly the new entry and the entries of other keys, each unless it is older than the time-to-live |
| CacheRuns.FetchEffect | crates/nova-ai/src/cache.rs:114-131 | a fetch takes out exactly the entry of its key that is too old, and otherwise returns its value |
| CacheRuns.OrderedByLastUse | crates/nova-ai/src/cache.rs:114-209 | in every reachable state the entries are in the order of the last call that used their key, where a use is a store or a fetch that hit |
| CacheRuns.RunBounded | crates/nova-ai/src/cache.rs:114-209 | after every run of calls keys are distinct and the size limit holds |
| CacheRuns.RunHoldsLatest | crates/nova-ai/src/cache.rs:114-209 | whatever is held for a key after any run is what the last store to it wrote |
| CacheRuns.HitIsLatest | crates/nova-ai/src/cache.rs:114-131 | a hit is the last value stored and at most the time-to-live old; a miss means not held or too old |
| CacheRuns.RunKeepsRecent | crates/nova-ai/src/cache.rs:114-209 | an entry survives every run that uses fewer other keys than the size limit, as least-recently-used eviction promises |
| CacheRuns.HitKeepsRecent | crates/nova-ai/src/cache.rs:114-209 | a hit refreshes the entry: after it, any calls on fewer other keys than the size limit leave the same value to be fetched, until it is too old |
| Coalescing.Preserved | crates/nova-ai/src/client.rs:744-1027 | every step of callers, leaders and cancellation keeps the invariant |
| Coalescing.RunInvariant | crates/nova-ai/src/client.rs:744-1027 | every state of every run satisfies the invariant |
| Coalescing.OneLeaderPerKey | crates/nova-ai/src/client.rs:744-764 | no two leaders for one key are both unfinished and uncancelled |
| Coalescing.CancelledMeansAllLeft | crates/nova-ai/src/client.rs:558-573 | the shared token is cancelled only when every caller that joined has left because it was itself cancelled |
| Coalescing.OnlyOwnerUnregisters | crates/nova-ai/src/client.rs:994-1010 | a registration is removed only by its own leader or by the last waiter leaving it, never by an older leader |
| Coalescing.NoLostWakeup | crates/nova-ai/src/client.rs:1013-1027 | once the leader has notified, every parked caller can wake |
| Coalescing.Delivery | crates/nova-ai/src/client.rs:1013-1027 | after notification each of a caller's own steps brings it closer to returning the written result, and nobody else's step sets it back |
| Coalescing.SameReply | crates/nova-ai/src/client.rs:994-1027 | callers served by one flight got the same reply, the one its leader computed |
| Coalescing.WriteOnce | crates/nova-ai/src/client.rs:994-999 | a written result never changes |
| Coalescing.CacheHoldsSuccesses | crates/nova-ai/src/client.rs:994-1003 | the cache only ever holds, and serves, successful replies of flights for that key (that successes do get there is SuccessIsCached) |
| Coalescing.SuccessIsCached | crates/nova-ai/src/client.rs:994-1003 | a successful result reaches the cache under its key and stays until evicted or overwritten |
| Coalescing.CachedIsServed | crates/nova-ai/src/client.rs:744-764 | a caller that comes meanwhile is served that text and starts no flight |
| Coalescing.ServedWasComputed | crates/nova-ai/src/client.rs:838-1027 | what a caller is served is the outcome of an earlier provider call of its own flight |
| Coalescing.OneCallPerFlight | crates/nova-ai/src/client.rs:838-1003 | the provider is called once per flight, however many callers join |
| Coalescing.CallerStays | crates/nova-ai/src/client.rs:744-1027 | callers keep their keys, and what they end with |
| Coalescing.RequestedIff | crates/nova-ai/src/client.rs:744-1027 | a token is cancelled exactly if its caller asked for that before |
| Coalescing.RefusedIff | crates/nova-ai/src/client.rs:744-764 | a caller is refused at the door exactly if it had asked before, and goes on to the cache otherwise |
| Coalescing.LeavesOnlyOnRequest | crates/nova-ai/src/client.rs:1019-1024 | a caller gives up only if its own token was cancelled |
| Coalescing.NotCancelledByOthers | crates/nova-ai/src/client.rs:838-1027 | a caller that is handed a cancellation got it from the provider: the shared token of its flight was never cancelled |
| RetryLoop.RawDelayMonotone | crates/nova-ai/src/client.rs:650-669 | later attempts never wait less, never more than the maximum, and the factor stays in range |
| RetryLoop.DelayDoubles | crates/nova-ai/src/client.rs:650-669 | the delay starts at the initial backoff and doubles with each attempt up to the maximum, through the seventeenth attempt |
| RetryLoop.Attempt | crates/nova-ai/src/client.rs:1030-1170 | one attempt takes a permit before the deadline, calls once under it and gives it back on every path |
| RetryLoop.ChatWithRetries | crates/nova-ai/src/client.rs:1030-1170 | for every sequence of outcomes: at most one call more than the retries, none at or after the deadline, a call is repeated only behind a timeout or transport failure or a status of 408, 429 or 500 to 599, and such a failure is not returned while a retry is left, unless time is up; no permit held while sleeping or at the end, bounded sleeps, and the result is the last reply or the stated reason for stopping |
| CacheKeyEncoding.FieldPrefixFree | crates/nova-ai/src/cache.rs:49-56 | a length-prefixed field can be told from whatever follows it |
| CacheKeyEncoding.LeValue | crates/nova-ai/src/cache.rs:49-64 | the bytes of a number, lowest first, have its value |
| CacheKeyEncoding.EncodeInjective | crates/nova-ai/src/client.rs:594-630 | two encodings are equal if and only if label, Azure pair, endpoint, model, effective token limit, temperature and all messages are |
| CacheKeyEncoding.CacheKeyBuilder.constructor | crates/nova-ai/src/cache.rs:37-43 | the namespace is fed first |
| CacheKeyEncoding.CacheKeyBuilder.PushBytes | crates/nova-ai/src/cache.rs:49-56 | feeds eight bytes whose little-endian value is the length, and then the field |
| CacheKeyEncoding.CacheKeyBuilder.PushU32 | crates/nova-ai/src/cache.rs:58-60 | feeds four bytes whose little-endian value is the number |
| CacheKeyEncoding.CacheKeyBuilder.PushU64 | crates/nova-ai/src/cache.rs:62-64 | feeds eight bytes whose little-endian value is the number |
| CacheKeyEncoding.BuildCacheKey | crates/nova-ai/src/client.rs:594-630 | what the pushes feed to the hasher is the encoding |
| Decimals.ValueOfDecimal | crates/nova-ai/src/features.rs:316-320 | a printed number has the value it prints |
| Decimals.DecimalIsNumeral | crates/nova-ai/src/features.rs:316-320 | what is printed is made of digits, has the value of the number and no leading zero |
| Truncation.MarkerIsNotice | crates/nova-ai/src/features.rs:316-326 | the marker is the fixed notice around that numeral, and has the length assumed for it |
| Decimals.DigitCount | crates/nova-ai/src/features.rs:349-356 | the division loop counts the digits printed |
| Selection.UpperBound | crates/nova-ai/src/features.rs:966-980 | the binary search finds the largest index whose value is within the limit |
| Selection.SelectPrefixSuffix | crates/nova-ai/src/features.rs:913-964 | a disjoint prefix and suffix within budget that keeps both ends if any such choice does and keeps the most characters among those |
| Selection.BestMonotone | crates/nova-ai/src/features.rs:913-964 | a larger budget never keeps less, also where it first allows both ends |
| Selection.BestStable | crates/nova-ai/src/features.rs:913-964 | shrinking the budget to what is kept changes nothing |
| MarkerLength.MarkerSize | crates/nova-ai/src/features.rs:316-326 | the computed marker length is the length of the marker, which is the notice around the numeral of its number (MarkerIsNotice) |
| MarkerLength.NoFiveRises | crates/nova-ai/src/features.rs:860-911 | the assumed marker length cannot grow five times, for texts of any size |
| Truncation.LineMarker | crates/nova-ai/src/features.rs:860-911 | the eight-round iteration settles, on the shortest marker that is right about itself |
| Truncation.TruncateByLines | crates/nova-ai/src/features.rs:860-911 | within the limit, the text with one stretch replaced by a notice whose digits have, without a leading zero, the length of that stretch, around the best choice of lines that marker leaves room for |
| Truncation.CharMarker | crates/nova-ai/src/features.rs:982-1015 | the iteration settles for single lines too |
| Truncation.TruncateByChars | crates/nova-ai/src/features.rs:982-1015 | such a cut that uses the whole limit, evenly divided |
| Truncation.MarkerOnly | crates/nova-ai/src/features.rs:328-347 | never longer than the limit |
| DiffMarks.ScanLines | crates/nova-ai/src/features.rs:480-545 | finds exactly the marked lines, in order |
| DiffTruncation.ChooseSections | crates/nova-ai/src/features.rs:365-478 | the pair it picks is best over all feasible pairs by both ends, section count and characters; none only if none is feasible |
| DiffTruncation.TruncateBySections | crates/nova-ai/src/features.rs:365-478 | head, notice with the exact count in digits and tail for that pair; nothing only if no choice of sections fits |
| DiffTruncation.HunkMarker | crates/nova-ai/src/features.rs:601-730 | settles on the shortest marker that is right about itself, or no marker leaves room |
| DiffTruncation.HunkBounds | crates/nova-ai/src/features.rs:601-730 | chunk bounds are the file's start, its hunks and the end, in order |
| DiffTruncation.TruncateByHunks | crates/nova-ai/src/features.rs:601-858 | keeps both ends with the best choice of hunks around a notice with the exact count in digits; nothing only if no such choice exists |
| DiffTruncation.SectionStartAfter | crates/nova-ai/src/features.rs:560-582 | a section never reaches back into an earlier header pair |
| DiffTruncation.SectionLead | crates/nova-ai/src/features.rs:560-587 | a section takes in its longest lead of an `Index:` line with or without a rule, or one `diff` line, and no other line in front of its header |
| TruncatedPatches.GitFileStarts | crates/nova-ai/src/features.rs:480-510 | a rendered git patch is cut exactly where its files start |
| TruncatedPatches.PlainFileStarts | crates/nova-ai/src/features.rs:512-545 | so is a patch without git headers, if no hunk hides a header and no line holds `diff --git` |
| TruncatedPatches.FileHunkStarts | crates/nova-ai/src/features.rs:601-730 | a single rendered file is cut exactly where its hunks start |
| DiffTruncation.SectionStarts | crates/nova-ai/src/features.rs:512-545 | one start per header pair, strictly increasing |
| DiffTruncation.TruncateByFiles | crates/nova-ai/src/features.rs:286-310 | whole sections if they fit, else whole hunks of a single file, else nothing |
| DiffTruncation.TruncateMiddle | crates/nova-ai/src/features.rs:286-310 | never above the limit; short texts unchanged; otherwise a cut by files, hunks or lines, in that order of preference, whose notice states in digits exactly how many characters are missing |
| ReservedWords.ReservedLetters | crates/nova-ai/src/anonymizer.rs:606-821 | every reserved word consists of ASCII letters, so none looks like a placeholder |
| ReservedWords.ReservedIffListed | crates/nova-ai/src/anonymizer.rs:606-821 | the reserved words are exactly those of the lists |
| Anonymizer.TakeToken | crates/nova-ai/src/anonymizer.rs:99-334 | the cursor loops take exactly one token and leave the rest |
| Anonymizer.CodeAnonymizer.constructor | crates/nova-ai/src/anonymizer.rs:61-67 | the options, and no names yet |
| Anonymizer.CodeAnonymizer.GetOrCreateAnonName | crates/nova-ai/src/anonymizer.rs:336-345 | returns the name on record, recording a fresh one if there is none |
| Anonymizer.CodeAnonymizer.Anonymize | crates/nova-ai/src/anonymizer.rs:99-334 | for all options, the output is the code with every renamable identifier replaced by its name and comments, strings and numbers redacted as the options say; the names stay injective |
| Anonymizer.ConcealedLeavesNoTrace | crates/nova-ai/src/anonymizer.rs:99-334 | two codes that differ only in stripped comments, in sensitive strings or in long numbers that are redacted give the same output and the same names |
| CodePieces.PieceLexes | crates/nova-ai/src/anonymizer.rs:99-334 | an identifier, comment, literal, numeral or symbol, written down, is one token of its kind, whatever follows that cannot belong to it |
| CodePieces.PiecesShown | crates/nova-ai/src/anonymizer.rs:99-334 | for all options, code written in such pieces is anonymized piece by piece: what is shown of each is stated without the lexer |
| CodePieces.LiteralHiddenIff | crates/nova-ai/src/anonymizer.rs:823-876 | an ASCII string literal without escapes or blanks around it is hidden if and only if it holds a telltale word in any case, starts like a key and is long enough, holds the start of a certificate, or is long and 95 percent key characters |
| CodePieces.TelltaleHidden | crates/nova-ai/src/anonymizer.rs:823-840 | a literal with a telltale word in it never shows, blanks and other characters around it or not |
| CodePieces.LongNumberHidden | crates/nova-ai/src/anonymizer.rs:99-334 | a number of sixteen digits or more never shows |
| CodePieces.LabelsForgotten | crates/nova-ai/src/anonymizer.rs:336-345 | code in which identifiers that are not reserved are consistently called something else is anonymized to the same text |
| Anonymizer.RenamingOnly | crates/nova-ai/src/anonymizer.rs:99-334 | with the redactions off, only identifiers are replaced |
| Anonymizer.NamesStayValid | crates/nova-ai/src/anonymizer.rs:336-345 | names are injective placeholders across any number of calls |
| Anonymizer.AllNamed | crates/nova-ai/src/anonymizer.rs:99-334 | every renamable identifier of the code has a name |
| Anonymizer.KeysStayIdents | crates/nova-ai/src/anonymizer.rs:336-345 | only identifiers are ever given names |
| Anonymizer.BuildReverse | crates/nova-ai/src/anonymizer.rs:361-381 | the reverse map, smallest original first, in whatever order the map is walked |
| Anonymizer.ReverseIsInverse | crates/nova-ai/src/anonymizer.rs:361-381 | for tables the anonymizer builds it is the inverse |
| Anonymizer.Deanonymize | crates/nova-ai/src/anonymizer.rs:396-528 | the index loop computes the second lexer's meaning |
| Anonymizer.NothingToRestore | crates/nova-ai/src/anonymizer.rs:396-528 | without names every code is returned unchanged |
| SecondLexer.RestoreIsRun | crates/nova-ai/src/anonymizer.rs:396-528 | the second lexer, with its lookahead, is a machine that takes one character at a time |
| SecondLexer.RunAppend | crates/nova-ai/src/anonymizer.rs:396-528 | that machine may stop anywhere and continue with the rest |
| SecondLexer.QuietEmits | crates/nova-ai/src/anonymizer.rs:396-528 | text in which no word is a recorded name passes through unchanged, from any state |
| AnonymizerRoundTrip.RestoreRender | crates/nova-ai/src/anonymizer.rs:396-528 | the exact result of restoring anonymized code, token by token, for all code, also where the two lexers are out of step |
| AnonymizerRoundTrip.RoundTrip | crates/nova-ai/src/anonymizer.rs:396-528 | for all code, restored if and only if every changed identifier is met between words outside comments and quotes of the second lexer, and no other word it meets is a recorded name |
| AnonymizerRoundTrip.LoudShows | crates/nova-ai/src/anonymizer.rs:396-528 | a word that is wrongly replaced shows in the output, whatever comes behind it |
| AnonymizerRoundTrip.RoundTripOrdinary | crates/nova-ai/src/anonymizer.rs:396-528 | where a line comment holds a carriage return only directly in front of its newline or at the end of the text, restored if and only if no changed identifier is glued to a literal run with a letter or an underscore |
| AnonymizerRoundTrip.RoundTripWellSpaced | crates/nova-ai/src/anonymizer.rs:396-528 | a condition on the code alone, carriage returns included, that is enough |
| AnonymizerRoundTrip.GluedLiteralFails | crates/nova-ai/src/anonymizer.rs:396-528 | a literal directly followed by an identifier is not restored |
| AnonymizerRoundTrip.StrayReturnFails | crates/nova-ai/src/anonymizer.rs:396-528 | a carriage return inside a line comment is not handled alike by the two lexers |
| LineDecoding.EnsureMaxFrame | crates/nova-ai/src/stream_decode.rs:22-45 | accepts exactly if no line grows beyond the limit, and reports the length attempted |
| LineDecoding.FitsIffNoLongLine | crates/nova-ai/src/stream_decode.rs:22-45 | the running counter accepts exactly the streams without a long line |
| LineDecoding.Drain | crates/nova-ai/src/cloud.rs:1099-1117 | the splitting loop computes the one-shot split, which gives back the lines that were sent (SplitOfSent) |
| LineDecoding.LineDecoder.constructor | crates/nova-ai/src/cloud.rs:1094-1097 | nothing buffered |
| LineDecoding.LineDecoder.Push | crates/nova-ai/src/cloud.rs:1099-1117 | queues exactly the completed lines of that split, keeps the rest within the limit, changes nothing on rejection |
| LineDecoding.LineDecoder.NextLine | crates/nova-ai/src/cloud.rs:1119-1127 | hands out queued lines in order, consuming an invalid one |
| LineDecoding.LineDecoder.Finish | crates/nova-ai/src/cloud.rs:1129-1148 | the remaining lines and the unterminated one (AllLinesOfSent), or the first that is not UTF-8 and what is left behind it |
| LineDecoding.SplitConcat | crates/nova-ai/src/cloud.rs:1099-1117 | splitting may stop anywhere and continue with the rest |
| LineDecoding.SplitOfSent | crates/nova-ai/src/cloud.rs:1099-1117 | lines sent with LF or CRLF are split into exactly those lines, and the rest kept, if and only if none that ends in a carriage return was sent with a bare LF |
| LineDecoding.AllLinesOfSent | crates/nova-ai/src/cloud.rs:1099-1148 | so is a stream whose last line is not terminated, with or without a carriage return behind it |
| LineDecoding.LongLinesOfSent | crates/nova-ai/src/stream_decode.rs:22-45 | a stream of sent lines is within the limit exactly if every line is, its carriage return counted |
| LineDecoding.ChunkingIsIrrelevant | crates/nova-ai/src/cloud.rs:1094-1149 | for every chunking and every interleaving of reads, lines read, queued and buffered are the one-shot split |
| LineDecoding.FinishCompletes | crates/nova-ai/src/cloud.rs:1129-1148 | what was read plus what finishing returns is all lines of the stream |
| LineDecoding.AcceptanceIsIrrelevant | crates/nova-ai/src/cloud.rs:1094-1149 | a session is accepted if and only if no line of the whole stream is too long |
| DeltaStream.GeminiText.constructor | crates/nova-ai/src/cloud.rs:1070-1086 | no text yet |
| DeltaStream.GeminiText.Delta | crates/nova-ai/src/cloud.rs:1070-1086 | what is handed on is exactly what the remembered text grew by |
| DeltaStream.CumulativeIsLast | crates/nova-ai/src/cloud.rs:1070-1086 | whole texts sent again and again are decoded to the last |
| DeltaStream.IncrementsAddUp | crates/nova-ai/src/cloud.rs:1070-1086 | increments add up if and only if none looks like a repetition of the increments before it put together |
| DeltaStream.RepetitionLost | crates/nova-ai/src/cloud.rs:1070-1086 | a repeated increment is lost |
| DiffFilter.Decide | crates/nova-ai/src/diff.rs:717-748 | excluded if and only if some candidate is, with or without its prefix; an error only if no candidate names a path |
| DiffFilter.SeenThroughPrefix | crates/nova-ai/src/diff.rs:802-821 | a prefix does not hide an excluded path |
| DiffFilter.MissingFileUnseen | crates/nova-ai/src/diff.rs:802-821 | `/dev/null` among the candidates changes no verdict |
| DiffFilter.UnifiedLead | crates/nova-ai/src/diff.rs:763-800 | a section takes in its longest lead of `Index:` line, rule and `diff` line, and no other line in front of its header |
| DiffFilter.UnifiedStartAfter | crates/nova-ai/src/diff.rs:763-795 | a section never reaches back into an earlier header pair |
| DiffFilter.UnifiedSections | crates/nova-ai/src/diff.rs:632-715 | section starts increase strictly and each section holds exactly its own header pair |
| DiffFilter.NothingRedacted | crates/nova-ai/src/diff.rs:632-715 | preamble and sections partition the lines |
| DiffFilter.FindUnifiedSections | crates/nova-ai/src/diff.rs:632-715 | the sections, already in the order sorting gives them |
| CandidatePaths.ExtractMetadata | crates/nova-ai/src/diff.rs:261-291 | the paths of all rename, copy and binary lines as these lines are written (QuotedRelocation, UnquotedRelocation, BinaryLineReads), or an error if one of these lines cannot be read |
| CandidatePaths.MetadataHas | crates/nova-ai/src/diff.rs:261-291 | no line is passed over |
| CandidatePaths.FindFallback | crates/nova-ai/src/diff.rs:549-612 | where the header cannot be read: the first rename pair, else copy pair, else binary pair, else `---` and `+++` pair, each path read as it is written |
| CandidatePaths.LongestCommonTail | crates/nova-ai/src/diff.rs:513-547 | what two paths are found to have in common is the longest sequence of parts that ends both |
| CandidatePaths.CustomPrefixSeen | crates/nova-ai/src/diff.rs:513-547 | for any two prefixes that share no last directory, what the prefixed paths have in common is the path behind the prefixes, as text |
| CandidatePaths.FindSuffix | crates/nova-ai/src/diff.rs:513-547 | the loop from the back finds that sequence, and nothing for `/dev/null` |
| CandidatePaths.CollectGitPaths | crates/nova-ai/src/diff.rs:147-219 | all candidates of a section: header or fallback, metadata, common suffixes unless renamed or copied, `---` and `+++` pair |
| CandidatePaths.CandidatesHold | crates/nova-ai/src/diff.rs:147-219 | every path that header, metadata and pair name is among the candidates |
| CandidatePaths.QuotedRelocation | crates/nova-ai/src/diff.rs:293-315 | a rename or copy line that holds git's quoting of a path gives that path |
| CandidatePaths.UnquotedRelocation | crates/nova-ai/src/diff.rs:293-315 | so does one that holds the path as it is, blanks included |
| CandidatePaths.BinaryLineReads | crates/nova-ai/src/diff.rs:317-425 | `Binary files P and Q differ` gives both paths, each quoted or not, wherever ` and ` separates them beyond doubt |
| CandidatePaths.UnquotedGitPath | crates/nova-ai/src/diff.rs:467-491 | an unquoted `---` or `+++` path of a git section without a tab is all that follows, blanks included |
| CandidatePaths.RevisionMayFollow | crates/nova-ai/src/diff.rs:899-921 | behind a path a revision with any number, a working copy or a missing file may be noted |
| CandidatePaths.DateMayFollow | crates/nova-ai/src/diff.rs:852-901 | so may a date, if and only if nothing, white space, or `T` and a digit stands behind it |
| CandidatePaths.NothingElseFollows | crates/nova-ai/src/diff.rs:852-921 | a note that starts with anything but a digit or a parenthesis is refused |
| DiffFilter.FilterUnified | crates/nova-ai/src/diff.rs:632-715 | the partition with the sections whose `---` or `+++` path is excluded replaced by the sentinel; two sections with the same start never occur |
| DiffFilter.FilterGit | crates/nova-ai/src/diff.rs:93-259 | the same for git sections, judged by all their candidate paths, behind a preamble that may hold unified ones; more than one header pair in a section is an error |
| DiffFilter.NewlineStyle | crates/nova-ai/src/diff.rs:65-85 | CRLF exactly when all line ends are |
| DiffFilter.FilterDiff | crates/nova-ai/src/diff.rs:31-63 | blank diffs and diffs from which nothing was omitted come back as they were; an unreadable diff becomes one sentinel line; of every rendered patch exactly the excluded files are replaced (GitFilteredExactly, FilteredExactlyIff) |
| DiffFilter.NothingExcluded | crates/nova-ai/src/diff.rs:31-63 | with nothing to exclude, a diff that can be read is returned unchanged |
| DiffFilter.KeptGitSection | crates/nova-ai/src/diff.rs:136-251 | a git section is kept only if none of its candidates is excluded, with or without `a/` and `b/`: the paths of its header if that can be read, of every rename, copy and binary line and of its `---` and `+++` pair, all of which have to be readable, and what the two paths of a pair have in common |
| DiffFilter.CustomPrefixExcluded | crates/nova-ai/src/diff.rs:183-204 | a section with a header of two differently prefixed paths, quoted or not, and no rename or copy line is not kept if the path behind the prefixes is excluded |
| DiffFilter.NothingExcludedKept | crates/nova-ai/src/diff.rs:31-63 | in every diff that can be read, each section is replaced by the sentinel or names nothing excluded in any of these places |
| FilteredPatches.PathLineFiltered | crates/nova-ai/src/diff.rs:823-850 | a rendered `---` or `+++` path, bare, in front of a tab or quoted, is read if and only if what follows it is nothing, a timestamp or a revision |
| FilteredPatches.SectionsAreFiles | crates/nova-ai/src/diff.rs:632-715 | without hidden headers the sections of a rendered patch start exactly where its files do |
| FilteredPatches.FilteredExactly | crates/nova-ai/src/diff.rs:632-715 | without hidden headers, whatever is excluded, exactly the excluded files are replaced, or filtering fails exactly if the paths of some file cannot be read |
| FilteredPatches.UnreadableFails | crates/nova-ai/src/diff.rs:632-715 | a file whose paths cannot be read makes filtering fail, hidden headers or not |
| FilteredPatches.HiddenHeadersShow | crates/nova-ai/src/diff.rs:632-715 | with hidden headers there is a rule of exclusion for which the result is wrong |
| FilteredPatches.FilteredExactlyIff | crates/nova-ai/src/diff.rs:632-715 | filtering is right for all rules of exclusion if and only if no hunk holds a removed `-- ` line directly followed by an added `++ ` line, or it always fails |
| FilteredPatches.HiddenHeaderSplits | crates/nova-ai/src/diff.rs:750-761 | at a concrete patch with such lines, the rest of an excluded file is kept |
| DiffFilter.QuotedPathSeen | crates/nova-ai/src/diff.rs:293-315 | a section with a rename or copy line that holds git's quoting of an excluded path is not kept |
| DiffFilter.LineSeen | crates/nova-ai/src/diff.rs:147-219 | a section with any line that names an excluded path is not kept |
| DiffFilter.UnquotedPathSeen | crates/nova-ai/src/diff.rs:293-315 | nor is one with a rename or copy line that holds an excluded path without quotes |
| DiffFilter.BinaryPathSeen | crates/nova-ai/src/diff.rs:317-425 | nor one with a binary line that names an excluded path on either side |
| DiffFilter.CombinedPathSeen | crates/nova-ai/src/diff.rs:961-1022 | nor one with a combined header that names an excluded path, quoted or not |
| FilteredGitPatches.GitPathLineFiltered | crates/nova-ai/src/diff.rs:467-511 | a rendered `---` or `+++` path of a git section is read if and only if what follows it is nothing, a timestamp or a revision |
| FilteredGitPatches.FileCandidates | crates/nova-ai/src/diff.rs:147-219 | a rendered git file is judged by exactly the paths of its header, or if that cannot be read of its rename lines or pair, of its rename lines, of its pair, and, unless renamed, by what each two have in common |
| FilteredGitPatches.GitFileJudged | crates/nova-ai/src/diff.rs:136-251 | its section is undecided exactly if a hunk hides a header, its path lines cannot be read or no path is one, and else excluded exactly if one of those paths is |
| FilteredGitPatches.GitSectionsAreFiles | crates/nova-ai/src/diff.rs:93-110 | the git sections of a rendered patch start exactly where its files do |
| FilteredGitPatches.GitFilteredExactly | crates/nova-ai/src/diff.rs:93-259 | whatever is excluded, of every rendered git patch, with renames, quoted paths and headers that cannot be read, exactly the excluded files are replaced, or filtering fails exactly if one of them is undecided |
| FilteredGitPatches.OrdinaryFileJudged | crates/nova-ai/src/diff.rs:136-251 | a file with one path under git's own prefixes is replaced exactly if the path is excluded as it is, with a prefix, or without a first directory `a/` or `b/` |
| Utf8.DecodeOfEncoded | crates/nova-ai/src/diff.rs:1111-1146 | decoding undoes encoding |
| Utf8.EncodeOfDecoded | crates/nova-ai/src/diff.rs:1111-1146 | decoding accepts nothing but encodings |
| GitQuoting.ParseDigits | crates/nova-ai/src/diff.rs:1234-1278 | up to the given number of digits is read, and no more, wherever the text ends |
| GitQuoting.ParseEscape | crates/nova-ai/src/diff.rs:1224-1303 | one escape appended to the output, the cursor behind it |
| GitQuoting.ParseCStyleBytes | crates/nova-ai/src/diff.rs:1193-1222 | the unescaped bytes up to the first unescaped quote |
| GitQuoting.UnescapeRendered | crates/nova-ai/src/diff.rs:1193-1222 | however bytes are written, plain, as letters, in octal or hexadecimal digits or as escaped characters that stand for themselves, they are read back up to the closing quote |
| GitQuoting.QuotedTokenRoundTrip | crates/nova-ai/src/diff.rs:1111-1146 | a quoted path parses to the path and the untouched remainder exactly when that is empty or starts with white space |
| GitQuoting.GitQuotingRoundTrip | crates/nova-ai/src/diff.rs:1111-1146 | git's own quoting of any path is undone |
| GitQuoting.QuotedIsPrintable | crates/nova-ai/src/diff.rs:1111-1146 | git's quoting of any path is printable ASCII, so it fits on a line |
| DiffHeaders.ParseUnquotedSpaces | crates/nova-ai/src/diff.rs:1039-1104 | the two loops find the only acceptable split, or none if there is not exactly one |
| DiffHeaders.ParseSectionPaths | crates/nova-ai/src/diff.rs:961-1022 | tokens first, then the only split; one path for combined diffs |
| DiffHeaders.TokenHeader | crates/nova-ai/src/diff.rs:961-1022 | a header of two paths, each a word or quoted, gives both, whatever ends the line |
| DiffHeaders.CombinedHeader | crates/nova-ai/src/diff.rs:961-1022 | a `diff --cc` or `diff --combined` header gives its one path, with blanks inside or quoted |
| DiffHeaders.NoOtherSplit | crates/nova-ai/src/diff.rs:1039-1104 | at most one split of a header gives equal paths |
| DiffHeaders.HeaderSplit | crates/nova-ai/src/diff.rs:1039-1104 | that split is found unless the path ends in white space and `/dev/null` |
| DiffHeaders.HeaderRoundTrip | crates/nova-ai/src/diff.rs:961-1104 | an unquoted header is read as written if and only if the path does not end in white space, nor in white space and `/dev/null`, nor passes for a quoted path |
| DiffHeaders.QuoteAtEndMisread | crates/nova-ai/src/diff.rs:961-1022 | the path `x "` is misread |
| HunkParsing.RangeRoundTrip | crates/nova-ai/src/patch.rs:949-961 | a range, with its length or without, is read back |
| HunkParsing.HeaderRoundTrip | crates/nova-ai/src/patch.rs:851-947 | a hunk header is read back whatever follows it |
| HunkParsing.BodyRoundTrip | crates/nova-ai/src/patch.rs:851-947 | a hunk body is read back up to the next hunk or file |
| HunkParsing.NoteSkipped | crates/nova-ai/src/patch.rs:888-929 | a note about a missing last newline changes nothing, wherever in the body it stands |
| HunkParsing.HunkRoundTrip | crates/nova-ai/src/patch.rs:851-947 | a consistent hunk is read back if and only if no removed line starts with `-- `, and rejected otherwise |
| HunkParsing.ParseHunk | crates/nova-ai/src/patch.rs:851-947 | every accepted hunk has exactly the context, removed and added lines its header states, and the index moves on; otherwise rejection or panic as specified |
| HunkParsing.BodyPanicsIff | crates/nova-ai/src/patch.rs:888-929 | reading a body panics if and only if behind nothing but body lines comes one whose first character takes more than one byte |
| HunkParsing.HunkPanicsIff | crates/nova-ai/src/patch.rs:851-947 | reading a hunk panics if and only if its header is readable and its body is of that kind |
| HunkParsing.WideLinePanics | crates/nova-ai/src/patch.rs:906-906 | the line `é` in a hunk is not rejected but makes the parser panic |
| PatchRendering.WidePatchPanics | crates/nova-ai/src/patch.rs:572-613 | so does the patch of one file with that hunk |
| PatchRendering.WordPath | crates/nova-ai/src/patch.rs:963-1001 | behind a path without a tab only a timestamp is accepted |
| PatchRendering.NotedPath | crates/nova-ai/src/patch.rs:963-1001 | in front of a tab a path may hold spaces |
| PatchRendering.PathLineRoundTrip | crates/nova-ai/src/patch.rs:963-1001 | a path line is read back, however the path is written: bare, in front of a tab, or quoted |
| PatchParsing.ParseHunks | crates/nova-ai/src/patch.rs:733-809 | skipping blank and metadata lines, the loop collects exactly the hunks up to the next file, or is rejected or panics where one of them is malformed |
| PatchParsing.ParseUnifiedFileBlock | crates/nova-ai/src/patch.rs:733-809 | paths, prefixes and hunks of the file block at an index, which moves on; an unchanged path needs a hunk |
| PatchParsing.ParseMetadata | crates/nova-ai/src/patch.rs:626-731 | the last `rename from` and `rename to` in front of the file block, or an error if one cannot be read |
| PatchParsing.ParseHeaderPaths | crates/nova-ai/src/patch.rs:811-849 | the header's two paths; unknown if unquoted white space hides them, an error if a quote is to blame |
| PatchParsing.ParseGitFileBlock | crates/nova-ai/src/patch.rs:626-731 | header, renames and file block reconciled into one file; an error if they contradict each other or leave no path; the index moves on |
| PatchRendering.RenamesDecide | crates/nova-ai/src/patch.rs:626-731 | rename lines settle the paths if and only if the header agrees with them, prefixed or not |
| PatchRendering.ClearHeader | crates/nova-ai/src/patch.rs:811-849 | a header of two tokens, or of the same path twice, is read back |
| PatchRendering.VagueHeader | crates/nova-ai/src/patch.rs:811-849 | a header of unquoted paths with spaces that cannot be told apart is no error |
| PatchRendering.PrefaceRoundTrip | crates/nova-ai/src/patch.rs:626-731 | header, metadata and rename lines, quoted or not, are read back up to the file block or the next file |
| PatchRendering.RenameRoundTrip | crates/nova-ai/src/patch.rs:626-731 | a pure rename is read back, also from `a/x` to `b/x` without prefixes |
| PatchRendering.TakenForOne | crates/nova-ai/src/patch.rs:626-731 | a pure rename and a file without a git header behind it are read as one file, if at all |
| PatchParsing.ParseUnifiedDiff | crates/nova-ai/src/patch.rs:572-613 | the files of the patch, its rejection or a panic; every accepted patch has files, and every file of it consistent hunks and a change |
| PatchParsing.PatchPanicsIff | crates/nova-ai/src/patch.rs:572-947 | a patch makes the parser panic if and only if it comes to a hunk of that kind before anything it rejects |
| PatchParsing.NarrowNeverPanics | crates/nova-ai/src/patch.rs:572-947 | a patch in which every line starts with an ASCII character, or is empty, never does |
| PatchParsing.PatchConsistent | crates/nova-ai/src/patch.rs:572-613 | on whatever lines, every hunk of every accepted file has the old and new lengths its lines add up to, and a file without hunks has two different paths or is missing on both sides |
| PatchRendering.BlockRoundTrip | crates/nova-ai/src/patch.rs:733-809 | a rendered file block is read back up to the next file, with prefixes or without |
| PatchRendering.FilesRoundTrip | crates/nova-ai/src/patch.rs:572-613 | the lines of any number of well-formed files, with git headers, renames and quoted paths or without, parse to those files; to nothing if a removed line looks like a header; to fewer files if one is swallowed |
| PatchRendering.PatchRoundTrip | crates/nova-ai/src/patch.rs:572-613 | the text of any well-formed multi-file patch parses to the same patch if and only if no removed line starts with `-- `, in which case it is rejected, and no file without a git header directly follows a pure rename |
| EditRange.DiffSpanBefore | crates/nova-ai-codegen/src/lib.rs:931-968 | the changed span by greedy prefix, then suffix, widened to character boundaries; none only for equal texts |
| EditRange.SpanUnique | crates/nova-ai-codegen/src/lib.rs:931-968 | prefix, suffix and boundaries determine the span, so the check has one answer |
| EditRange.EnforceUnchangedOutside | crates/nova-ai-codegen/src/lib.rs:875-929 | acceptance implies that all bytes outside the range are kept, without overlap; the exact condition of acceptance; the error cases |
| EditRange.RepeatedInsertionRefused | crates/nova-ai-codegen/src/lib.rs:875-968 | an insertion that repeats what follows the range keeps everything outside it and is refused |
| RepairLoop.CheckText | crates/nova-ai-codegen/src/lib.rs:815-833 | the text gate, with the file missing before or after |
| RepairLoop.PositionOrder | crates/nova-ai-codegen/src/lib.rs:974-976 | positions are ordered as the text is read, line by line |
| RepairLoop.ContainsIff | crates/nova-ai-codegen/src/lib.rs:970-972 | one range contains another that is not inverted if and only if it contains every position of it |
| RepairLoop.ParsePayload | crates/nova-ai/src/patch.rs:531-570 | a decoded JSON patch that is not empty, or the parsed diff, all of whose hunks are consistent; rejection and panic apart |
| RepairLoop.CheckIntent | crates/nova-ai-codegen/src/lib.rs:761-813 | passes if and only if a JSON patch holds no file operation and edits only the allowed file inside the range, and a diff only changes that file in place: neither creates, deletes nor renames |
| RepairLoop.RunGates | crates/nova-ai-codegen/src/lib.rs:478-624 | the first gate a reply fails, its result, a panic of the parser, or the cancellation seen in front of applying |
| RepairLoop.JudgeMeansEveryGate | crates/nova-ai-codegen/src/lib.rs:478-624 | a result is judged good if and only if that same patch passed every gate that is switched on |
| RepairLoop.GeneratePatch | crates/nova-ai-codegen/src/lib.rs:399-626 | for every sequence of replies: at most one call more than the allowed repairs, or one where repairs are off, and every call but the last answered by a reply that failed a gate; a result comes uncancelled from the last reply, which passed every gate, and where a range is set changes only that file in place and keeps the text outside the range; a rejection comes only with the last allowed call; configuration errors come before any call |

## Left out

- Anonymizer.CodeAnonymizer.Anonymize: what counts as a Unicode letter or digit is a parameter; a token is redacted after it was taken, where the code counts digits and collects the literal in the same loop.
- LineDecoding.LineDecoder.NextLine: lines are byte strings; whether a line is valid UTF-8 is a parameter.
- Coalescing.NotCancelledByOthers: a provider that itself answers with a cancellation is passed on to all callers of its flight, as in the code.
- Coalescing.Preserved: callers that are dropped without being cancelled, saturation of the waiter count, and entries that other clients or `chat_stream` put into a shared cache are not steps of the model; evictions are arbitrary.
- RetryLoop.ChatWithRetries: the copy of the loop inside the leader task (client.rs:838-992) is the same code and is not modelled twice; its token is the flight's.
- CacheKeyEncoding.EncodeInjective: about the bytes that are hashed, not the digest.
- DiffFilter.FilterDiff: which paths are excluded is a given predicate on path texts; that the file system may know one file by several paths is not modelled.
- CandidatePaths.FindFallback: scanning a header for broken quotes and a binary line for ` and ` are recursions instead of loops.
- PatchRendering.PatchRoundTrip: patches are rendered without notes about a missing newline at the end of a file (NoteSkipped says that they change nothing) and without file blocks that have no hunk; the messages of errors are not modelled.
- FilteredGitPatches.GitFilteredExactly: about patches in which every file has a `diff --git` header; copies, binary files and combined diffs are covered section by section (LineSeen, BinaryPathSeen, CombinedPathSeen).
- HunkParsing.ParseHunk: numbers are those of a 64-bit target; line counts are unbounded.
- RepairLoop.GeneratePatch: taking the payload out of a reply and decoding JSON, safety limits, applying, formatting and validating are given functions; prompts, progress reports and metrics are left out.
- ResponseCache.LlmResponseCache.Get: the lock around the cache is not modelled; calls are atomic.
- HTTP providers, JSON decoding, server-sent events and URL handling: network plumbing over other libraries.
- Redaction by regular expressions, glob matching and privacy policies: their behaviour lives in other libraries.
- Choosing the payload of a model reply and the JSON patch format: heuristics and library decoding.
- Completion ranking, `diff_diagnostics`, `resolve_before_path`, configuration types, metrics and logging: these would only add easy members.
