# RocksDB core values, in Dafny

This project models several small, self-contained parts of a partial Rust
port of RocksDB and proves properties of them:

- **Write-stall taxonomy** (`write_stall.dfy`). Write-stall causes and
  conditions have a declared ordinal layout with sentinel values. Causes
  split into column-family scope and DB scope. The model covers their
  hyphenated names, the internal statistic each (cause, condition) pair
  counts into, and the keys of the write-stall statistics map.
- **Status values.**
  - `status_codes.dfy` holds the shared code, subcode and severity enums
    and the subcode message table of `util/status.cc`.
  - `rs_status.dfy` is the Rust `Status` of rocksdb-sys, with its `to_string`.
  - `status.dfy` is the C++ `Status`: its predicates, factories,
    message-building constructor and `CopyAppendMessage`, plus a class whose
    copy and move operations update the objects involved.
  - `io_status.dfy` is the C++ `IOStatus`.
  - `error.dfy` is the Rust `Error` of the top-level crate: conversions
    from `Status` codes and `Display`.
- **Slices** (`slice.dfy`, `cstrings.dfy`).
  - The Rust slice record (a C-string copy and a size) and the
    `char_ptr_to_bytes` helpers.
  - The C++ `Slice`: prefix and suffix tests, three-way comparison,
    `difference_offset`, `remove_prefix` and `remove_suffix`.
  - `PinnableSlice`'s pinned and unpinned editing of its owned buffer.
- **Column-family options** (`cf_options.dfy`).
  - The legacy colon-separated `compression_opts` parser, read one
    `getline` at a time.
  - The overflow-checked multiply and the per-level `max_file_size`
    table, filled in a loop.
  - The level index used by `MaxFileSizeForLevel`, and the saturating
    L0 meta-pin size.
  - The rollback of `GetMutableOptionsFromStrings` on failure.
- **Bit math** (`bit_math.dfy`).
  - `DownwardInvolution` with the laws its comment states: it is an
    involution, keeps the highest set bit and distributes over xor, and
    the bottom-bits claim stated exactly.
  - `floor_log2`, `trailing_zeros`, `count_ones`, `parity`, `swap_bytes`
    and `reverse_bits` for the eight integer types.
- **KeyVersion debug records** (`debug.dfy`): the byte-string and the text
  versions, their constructors and defaults, and the total `ValueType`
  name mapping.

Conventions:
- Integers are unbounded in Dafny. The source's widths are written out: a
  `w`-bit value is its sequence of `w` two's-complement bits, least
  significant first.
- Rust panics (`assert!`, `todo!`, `unwrap` on a bad value) become the
  `Panic` case of a `Result`. C++ `assert`s become preconditions.
- A C string is the byte sequence that holds its NUL terminator. A pointer
  is `Null` or `Ptr` of the bytes it can reach.
- `CppStatus` models the `Status` class of `include/rocksdb/status.h`.
  `rocksdb/include/rocksdb/status.h` declares a subset of that class, with
  the same fields, the same code-only `operator==` and the subcode enum
  spelled `rs::status::SubCode`. It lacks `IsLockLimit`, the argument-less
  `SpaceLimit()` and `PathNotFound()`, and the two-message overloads of
  `TimedOut`, `Expired`, `CompactionTooLarge` and `TxnNotPrepared`. The
  model of those members holds only for the first header. The table cites
  the second header where a member is declared in both.

## Model

| member | source | states |
|---|---|---|
| WriteStall.OrdinalsAreDeclarationOrder | rocksdb-rs/src/types.rs:17-42 | cause ordinals run 0..6 in declaration order and condition ordinals 0..2, each injective |
| WriteStall.ScopeCounts | db/write_stall_stats.h:40-46 | there are 3 column-family-scope causes and 1 DB-scope cause, measured between the sentinels |
| WriteStall.IsCFScopeWriteStallCause | db/write_stall_stats.cc:110-119 | true exactly for the three ordinals just below the CF sentinel: memtable, L0 file count, pending compaction bytes |
| WriteStall.IsDBScopeWriteStallCause | db/write_stall_stats.cc:121-130 | true exactly for WriteBufferManagerLimit |
| WriteStall.ScopesPartitionCauses | db/write_stall_stats.cc:110-130 | no cause is in both scopes, and a cause is in one of them iff it is a real cause (not a sentinel or None) |
| WriteStall.WriteStallCauseToHyphenString | db/write_stall_stats.cc:14-33 | the result is "invalid" exactly for the sentinels and None |
| WriteStall.WriteStallConditionToHyphenString | db/write_stall_stats.cc:35-48 | the result is "invalid" exactly for Normal |
| WriteStall.HyphenStringsAreDistinct | db/write_stall_stats.cc:14-48 | different real causes, and different conditions, get different names |
| WriteStall.InternalCFStat | db/write_stall_stats.cc:50-90 | a real statistic comes back iff the cause is CF-scope and the condition is not Normal; delays map to delay counters and stops to stop counters |
| WriteStall.InternalCFStatIsInjective | db/write_stall_stats.cc:50-90 | the six valid (cause, condition) pairs get six distinct statistics |
| WriteStall.InternalDBStat | db/write_stall_stats.cc:92-108 | the stop counter comes back only for (WriteBufferManagerLimit, Stopped); every other pair gets the enum maximum |
| WriteStall.CauseConditionCount | db/write_stall_stats.cc:156-178 | empty exactly for a cause outside both scopes; otherwise cause name, "-", condition name |
| WriteStall.CauseConditionCountExamples | db/write_stall_stats.cc:156-178 | the concrete keys, e.g. "memtable-limit-delays" and "write-buffer-manager-limit-stops" |
| WriteStall.CauseInitials | db/write_stall_stats.cc:14-33 | the first letter of a real cause's name tells the cause |
| WriteStall.StatsMapKeysAreDistinct | db/write_stall_stats.cc:132-178 | counted (cause, condition) keys are pairwise distinct and differ from the four fixed keys |
| WriteStall.CountedKeysDiffer | db/write_stall_stats.cc:156-178 | two counted pairs with the same key are the same pair |
| WriteStall.NotAFixedKey | db/write_stall_stats.cc:132-154 | no counted key equals "total-stops", "total-delays" or either "cf-l0-file-count-limit-…-with-ongoing-compaction" key |
| CStrings.StrLen | rocksdb-sys/src/common.rs:4-6 | the index of the first NUL: a NUL is there and none before it |
| CStrings.CharPtrToBytes | rocksdb-sys/src/common.rs:3-6 | the bytes up to and including the first NUL: a prefix of memory, NUL-terminated, with no earlier NUL |
| CStrings.CharPtrToBytesAndSize | rocksdb-sys/src/common.rs:8-14 | the same bytes, with size one less than their length; the byte at `size` is NUL and the rest equal memory |
| CStrings.CharPtrToBytesOfTerminated | rocksdb-sys/src/common.rs:4-6 | reading a byte string that ends in its only NUL gives it back unchanged |
| CStrings.BytesToString | rocksdb-sys/src/status.rs:241-244 | one character per byte, character `i` from byte `i` |
| CStrings.StringToBytes | rocksdb-sys/src/status.rs:241-244 | one byte per (8-bit) character, byte `i` from character `i` |
| CStrings.StringBytesRoundTrip | rocksdb-sys/src/status.rs:241-244 | bytes to text and back, and 8-bit text to bytes and back, are identities |
| StatusCodes.SubCodeMessagesCoverRealSubCodes | util/status.cc:22-41 | the message table has one entry per real subcode, empty only for None; index 4 is "No space left on device" and 12 is " (overwritten)" |
| RsStatus.Status.Message | rocksdb-sys/src/status.rs:241-244 | the state without its final byte (the NUL); empty for an empty state |
| RsStatus.Status.ToString | rocksdb-sys/src/status.rs:192-248 | panics exactly on a sentinel code or subcode; otherwise starts with the code prefix followed by the subcode text, and is exactly those when the state is empty |
| RsStatus.Status.SetStateUnsafe | rocksdb-sys/src/status.rs:250-261 | only the state changes: [NUL] for a null pointer, otherwise the C string with its NUL, whose message is the bytes before the NUL |
| RsStatus.CodePrefix | rocksdb-sys/src/status.rs:193-212 | panics only on MaxCode; "OK" exactly for Ok; every other prefix ends in ": " |
| RsStatus.SubCodeText | rocksdb-sys/src/status.rs:214-234 | panics only on MaxSubCode; otherwise the entry of the shared subcode message table |
| RsStatus.NewWithCodeSubcodeRetryableDataLossScope | rocksdb-sys/src/status.rs:5-21 | stores the given code, subcode, flags and scope, with severity NoError and an empty state |
| RsStatus.NewWithCodeAndSubcode | rocksdb-sys/src/status.rs:27-37 | the whole record: the given code and subcode, severity NoError, no flags, scope 0, empty state |
| RsStatus.NewWithCode | rocksdb-sys/src/status.rs:23-25 | the whole record: the given code, subcode None, severity NoError, no flags, scope 0, empty state |
| RsStatus.Default | rocksdb-sys/src/status.rs:264-276 | an Ok status with subcode None, severity NoError and an empty state |
| RsStatus.ConstructorsAgree | rocksdb-sys/src/status.rs:5-37 | each shorter constructor is the longer one with default arguments; `Default` is `new_with_code(Ok)` and prints "OK" |
| RsStatus.SubCodePredicatesRefineCodePredicates | rocksdb-sys/src/status.rs:65-190 | each subcode predicate implies its code predicate (no space ⇒ IO error, deadlock ⇒ busy, …) |
| RsStatus.ColumnFamilyDroppedAsWritten | rocksdb-sys/src/status.rs:149-152 | as written, `is_column_family_dropped` coincides with `is_compaction_too_large` and is false for a ColumnFamilyDropped status |
| RsStatus.ColumnFamilyDroppedIntended | rocksdb-sys/src/status.rs:149-152 | the corrected predicate holds exactly for code ColumnFamilyDropped and never together with `is_compaction_too_large` |
| RsStatus.SetStateThenToString | rocksdb-sys/src/status.rs:236-261 | after setting a message, `to_string` is prefix, subcode text, ": " only when there is a subcode, then the message |
| RsStatus.NullStateAddsSeparator | rocksdb-sys/src/status.rs:236-258 | a null state still gives a trailing ": " when there is a subcode |
| RsStatus.TryAgainExample | rocksdb-sys/src/status.rs:306-311 | a TryAgain status with "Oops I did it again" prints "Operation failed. Try again.: Oops I did it again" |
| CppStatus.StatusValue.ToRs | util/status.cc:69-71 | the bridge value keeps code and subcode; a null state becomes empty |
| CppStatus.StatusValue.ToString | util/status.cc:69-71 | panics exactly on a sentinel; a plain Ok status prints "OK" |
| CppStatus.OK | include/rocksdb/status.h:35-42 | Ok, None, NoError, no flags, scope 0, null state; likewise at rocksdb/include/rocksdb/status.h:35-42 |
| CppStatus.FromCode | include/rocksdb/status.h:437-443 | the given code and subcode, every other field at its default |
| CppStatus.FromCodeAndFlags | include/rocksdb/status.h:445-452 | the given code, subcode, flags and scope, with NoError and a null state |
| CppStatus.JoinedMessage | util/status.cc:48-58 | `msg` when `msg2` is empty; otherwise `msg`, two separator bytes, `msg2`, of length len1 + 2 + len2 |
| CppStatus.MessageState | util/status.cc:43-60 | the C string kept: the joined message and a NUL (cut at an earlier NUL if the message holds one) |
| CppStatus.BuildState | util/status.cc:43-60 | the buffer filled byte by byte equals the message state |
| CppStatus.WithMessage | util/status.cc:43-60 | code, subcode and severity as given, no flags, scope 0, state the message state; refuses MaxSubCode |
| CppStatus.FromMessage | include/rocksdb/status.h:456-457 | subcode None, severity NoError, state the message state |
| CppStatus.NotFoundWithSubCode | include/rocksdb/status.h:137-140 | a NotFound status with the given subcode and message |
| CppStatus.OkOverwritten | include/rocksdb/status.h:127 | satisfies `IsOkOverwritten` with a null state |
| CppStatus.NoSpace | include/rocksdb/status.h:231 | satisfies `IsNoSpace` (IOError, NoSpace); likewise at rocksdb/include/rocksdb/status.h:201 |
| CppStatus.NoSpaceWithMessage | include/rocksdb/status.h:232-234 | satisfies `IsNoSpace` and carries the message |
| CppStatus.MemoryLimit | include/rocksdb/status.h:236 | satisfies `IsMemoryLimit` (Aborted, MemoryLimit) |
| CppStatus.MemoryLimitWithMessage | include/rocksdb/status.h:237-239 | satisfies `IsMemoryLimit` and carries the message |
| CppStatus.SpaceLimit | include/rocksdb/status.h:241 | IOError with subcode SpaceLimit; only include/rocksdb/status.h declares this argument-less form |
| CppStatus.SpaceLimitWithMessage | include/rocksdb/status.h:242-244 | IOError, SpaceLimit, carrying the message |
| CppStatus.PathNotFound | include/rocksdb/status.h:246 | satisfies `IsPathNotFound` and `IsIOError`; only include/rocksdb/status.h declares this argument-less form |
| CppStatus.PathNotFoundWithMessage | include/rocksdb/status.h:247-249 | satisfies `IsPathNotFound` and `IsIOError`, carrying the message |
| CppStatus.TxnNotPrepared | include/rocksdb/status.h:251-253 | satisfies `IsTxnNotPrepared` (InvalidArgument, TxnNotPrepared); likewise at rocksdb/include/rocksdb/status.h:219-221 |
| CppStatus.TxnNotPreparedWithMessage | include/rocksdb/status.h:254-256 | satisfies `IsTxnNotPrepared`, carrying the message; only include/rocksdb/status.h declares this overload |
| CppStatus.CopyAppendMessage | util/status.cc:62-67 | keeps code, subcode and severity; the state becomes old message, delimiter, new message, NUL |
| CppStatus.CopyAppendMessageExtends | util/status.cc:62-67 | the old message is a prefix of the new one and the appended part is delimiter + message |
| CppStatus.MessageRoundTrip | util/status.cc:43-71 | a status built from a message prints the code prefix followed by that message |
| CppStatus.ToStringWithMessage | util/status.cc:69-71 | the C++ `ToString` of a status with a message is prefix, subcode text, separator when there is a subcode, message |
| CppStatus.EqualityComparesCodesOnly | include/rocksdb/status.h:529-539 | `==` is an equivalence that compares only the code, `!=` is its negation; NoSpace equals a plain IOError; likewise at rocksdb/include/rocksdb/status.h:489-499 |
| CppStatus.StatusValue.Equals | include/rocksdb/status.h:529-533 | `operator==`: equal statuses agree on every predicate that tests the code alone, and two successes are equal whatever their subcodes and messages; likewise at rocksdb/include/rocksdb/status.h:489-493 |
| CppStatus.StatusValue.NotEquals | include/rocksdb/status.h:535-539 | `operator!=`: true iff the other status is not equal to this one; likewise at rocksdb/include/rocksdb/status.h:495-499 |
| CppStatus.PredicatesAndFactories | include/rocksdb/status.h:259-419 | each subcode predicate implies its code predicate; `OK()` is not overwritten; each factory satisfies its predicate; likewise at rocksdb/include/rocksdb/status.h:224-377 |
| CppStatus.Status.constructor | include/rocksdb/status.h:35-42 | a new object holds `OK()` |
| CppStatus.Status.Copy | include/rocksdb/status.h:468-477 | the new object holds the source's fields |
| CppStatus.Status.CopyWithSeverity | include/rocksdb/status.h:478-487 | the source's fields with only the severity replaced; likewise at rocksdb/include/rocksdb/status.h:438-447 |
| CppStatus.Status.Move | include/rocksdb/status.h:503-506 | the new object takes the source's old fields and the source is reset to `OK()` |
| CppStatus.Status.CopyAssign | include/rocksdb/status.h:488-501 | the target takes the source's fields; self-assignment changes nothing |
| CppStatus.Status.MoveAssign | include/rocksdb/status.h:508-527 | the target takes the source's old fields and the source is reset to `OK()`; a self-move changes nothing; likewise at rocksdb/include/rocksdb/status.h:468-487 |
| CppIOStatus.IOFromCode | include/rocksdb/io_status.h:147-148 | the given code and subcode, no flags, scope FileSystem, null state |
| CppIOStatus.IOWithMessage | include/rocksdb/io_status.h:155-171 | refuses Ok and MaxSubCode; scope FileSystem; state `msg` or `msg: msg2` with NUL |
| CppIOStatus.IOFactories | include/rocksdb/io_status.h:112-125 | NoSpace, PathNotFound and IOFenced satisfy their predicates; the default is Ok with scope FileSystem |
| CppIOStatus.IOStatus.constructor | include/rocksdb/io_status.h:38 | a new IOStatus is Ok/None with scope FileSystem |
| CppIOStatus.IOStatus.Copy | include/rocksdb/io_status.h:173-174 | the new object holds the source's fields |
| CppIOStatus.IOStatus.Move | include/rocksdb/io_status.h:190-192 | the new object takes the source's fields; the source's code, subcode, scope and state are reset and its flags kept |
| CppIOStatus.IOStatus.SetRetryable | include/rocksdb/io_status.h:49 | only `retryable` changes |
| CppIOStatus.IOStatus.SetDataLoss | include/rocksdb/io_status.h:50 | only `data_loss` changes |
| CppIOStatus.IOStatus.SetScope | include/rocksdb/io_status.h:51-53 | only `scope` changes |
| CppIOStatus.IOStatus.CopyAssign | include/rocksdb/io_status.h:176-188 | the target takes every copied field of the source and keeps its severity; self-assignment changes nothing |
| CppIOStatus.IOStatus.MoveAssign | include/rocksdb/io_status.h:194-207 | the target takes the source's fields; the source's code, subcode and scope reset while retryable and data_loss stay; self-move changes nothing |
| CppIOStatus.IOStatus.Value | include/rocksdb/io_status.h:138-140 | `operator Status()`: the whole inner status, every field including the severity |
| CppIOStatus.IOStatus.GetRetryable | include/rocksdb/io_status.h:55 | the retryable flag of the inner status |
| CppIOStatus.IOStatus.GetDataLoss | include/rocksdb/io_status.h:56 | the data-loss flag of the inner status |
| CppIOStatus.IOStatus.GetScope | include/rocksdb/io_status.h:57 | the scope of the inner status |
| CppIOStatus.IOStatus.Equals | include/rocksdb/io_status.h:209-211 | `operator==` agrees with `Status::operator==` on the inner statuses |
| CppIOStatus.IOStatus.NotEquals | include/rocksdb/io_status.h:213-215 | `operator!=`: true iff the other IOStatus is not equal to this one |
| CppIOStatus.IOEqualityComparesCodesOnly | include/rocksdb/io_status.h:209-215 | `==` is reflexive, symmetric and transitive, is decided by the code alone (subcode, flags, scope, severity and message play no part), and `!=` is its negation |
| CppIOStatus.SetThenGet | include/rocksdb/io_status.h:49-57 | each getter returns what its setter stored, and nothing else changes |
| CppIOStatus.StatusToIOStatus | include/rocksdb/io_status.h:217-222 | a fresh IOStatus takes all the status's fields and the status is reset to `OK()` |
| RocksError.StatusCodeOf | src/error.rs:24-46 | every `Code` comes from a status code other than Ok and MaxCode |
| RocksError.StatusSubCodeOf | src/error.rs:67-94 | every `SubCode` comes from a status subcode other than None and MaxSubCode |
| RocksError.CodeFromStatusCode | src/error.rs:24-46 | panics exactly on Ok (and the sentinel); otherwise the same-named code |
| RocksError.SubCodeFromStatusSubCode | src/error.rs:67-94 | None for subcode None; otherwise Some of the same-named subcode; panics on the sentinel |
| RocksError.ConversionsRoundTrip | src/error.rs:24-94 | the conversions are mutually inverse on both sides |
| RocksError.CodeRoundTrip | src/error.rs:24-46 | converting a code to a status code and back gives it again |
| RocksError.SubCodeRoundTrip | src/error.rs:67-94 | converting a subcode to a status subcode and back gives it again |
| RocksError.FromStatus | src/error.rs:103-118 | succeeds iff code and subcode convert; keeps code and subcode; the message is absent iff the state is null |
| RocksError.CodeText | src/error.rs:128-144 | the same text as the code prefix of rocksdb-sys `to_string` |
| RocksError.SubCodeText | src/error.rs:148-167 | the subcode message table entry, as in `to_string` |
| RocksError.Display | src/error.rs:126-178 | starts with the code text and the subcode text when present, ends with the message; only the code text when there is neither |
| RocksError.DisplayVersusToString | src/error.rs:126-178 | with a subcode and a message, `Display` omits the ": " that `to_string` puts between them |
| RocksError.TextsAgree | src/error.rs:128-170 | the texts `Display` uses equal those of rocksdb-sys |
| RocksError.DisplayOfMessage | src/error.rs:172-175 | with a message, `Display` is code text, subcode text, message, with no separator |
| RocksError.FromStatusWithMessage | src/error.rs:103-118 | a status holding a message gives an error holding that message as text |
| RocksError.DisplayWithoutMessage | src/error.rs:126-178 | without a message, `Display` equals the status's `to_string` |
| Slices.Memcmp | include/rocksdb/slice.h:255 | zero iff the first `n` bytes agree; its sign is the lexicographic order of those bytes |
| Slices.LexLessIsStrictTotal | include/rocksdb/slice.h:116-120 | the byte order is irreflexive, asymmetric and total on distinct sequences |
| Slices.LexLessByPrefix | include/rocksdb/slice.h:252-263 | a difference in the common length decides the order; if one is a prefix of the other, the shorter is smaller |
| Slices.CommonPrefixLength | include/rocksdb/slice.h:265-272 | within both lengths, the prefixes agree, and the bytes just after differ when both continue |
| Slices.CommonPrefixLengthUnique | include/rocksdb/slice.h:265-272 | any length with those properties is the common prefix length |
| Slices.RsSlice.View | include/rocksdb/slice.h:64-68 | the viewed bytes have the slice's size and, for a valid slice, hold no NUL |
| Slices.RsSlice.SetSize | rocksdb-sys/src/slice.rs:18-20 | only the size changes; shrinking keeps a prefix of the view |
| Slices.RsSlice.SetDataPtr | rocksdb-sys/src/slice.rs:26-30 | panics on null; otherwise the data becomes the C string with its NUL and the size is unchanged |
| Slices.RsSlice.Empty | include/rocksdb/slice.h:73 | `empty()` is true iff the view holds no byte |
| Slices.RsSlice.At | include/rocksdb/slice.h:75-80 | byte `n` of the view, for `n` below the size |
| Slices.RsSlice.StartsWith | include/rocksdb/slice.h:122-125 | true iff `x`'s view is a prefix of this view |
| Slices.RsSlice.EndsWith | include/rocksdb/slice.h:127-130 | true iff `x`'s view is a suffix of this view |
| Slices.RsSlice.Compare | include/rocksdb/slice.h:252-263 | negative, zero or positive as this view is lexicographically before, equal to or after `b`'s |
| Slices.RsSlice.DifferenceOffset | include/rocksdb/slice.h:265-272 | the loop stops at the length of the common prefix of the two views |
| Slices.Equals | include/rocksdb/slice.h:245-248 | true iff the views are equal |
| Slices.NotEquals | include/rocksdb/slice.h:250 | true iff the views differ |
| Slices.CompareLaws | include/rocksdb/slice.h:116-125 | compare is antisymmetric, zero iff `==`, and a proper prefix compares before the longer slice |
| Slices.AffixesOfSelf | include/rocksdb/slice.h:122-130 | every slice starts and ends with itself and with the empty slice; its difference offset with itself is its size |
| Slices.Default | rocksdb-sys/src/slice.rs:37-44 | data [NUL], size 0, an empty valid view |
| Slices.FromRawWithSize | rocksdb-sys/src/slice.rs:6-10 | panics on null; data is the whole C string with its NUL, size is `n` whatever the string's length; valid iff `n` is at most that length |
| Slices.EmbeddedNulLosesBytes | include/rocksdb/slice.h:41-44 | bytes holding a NUL, made into a slice with their own length as `Slice(const std::string&)` does, give a slice that is not valid: the copy stops at the first NUL and is no longer than the size; "A", NUL, "B" gives the copy "A", NUL with size 3; the copy is made by rocksdb-sys/src/slice.rs:6-10 |
| Slices.FromRaw | rocksdb-sys/src/slice.rs:12-16 | panics on null; size is the string length and the view is the bytes before the NUL |
| Slices.SuffixIsCString | include/rocksdb/slice.h:89-93 | data from any offset within the size is still a NUL-terminated C string |
| Slices.Slice.constructor | include/rocksdb/slice.h:37 | a new slice is the default (empty) slice |
| Slices.Slice.FromPtrAndSize | include/rocksdb/slice.h:40-52 | the slice `from_raw_with_size` builds |
| Slices.Slice.FromCString | include/rocksdb/slice.h:56 | the slice `from_raw` builds: valid, viewing the bytes before the NUL |
| Slices.Slice.SetData | include/rocksdb/slice.h:62 | the data is replaced as by `set_data_ptr` |
| Slices.Slice.SetSize | include/rocksdb/slice.h:70 | the size is replaced as by `set_size` |
| Slices.Slice.Clear | include/rocksdb/slice.h:83-86 | the slice becomes the default slice and is empty |
| Slices.Slice.RemovePrefix | include/rocksdb/slice.h:89-93 | asserts only `n <= size()` plus a readable C string at the new data pointer; the data becomes the copy of that C string and the size drops by `n`; on a valid slice the new view is the old view from index `n` on, still valid |
| Slices.Slice.RemoveSuffix | include/rocksdb/slice.h:95-98 | the new view is the old view without its last `n` bytes; data unchanged |
| Slices.Erase | include/rocksdb/slice.h:201 | `std::string::erase`: removes `n` bytes at `pos`, keeping everything before |
| Slices.PinnableSlice.constructor | include/rocksdb/slice.h:150 | unpinned, empty own buffer, default slice |
| Slices.PinnableSlice.WithBuffer | include/rocksdb/slice.h:151 | unpinned over the given buffer |
| Slices.PinnableSlice.IsPinned | include/rocksdb/slice.h:225 | whether the slice is pinned; an unpinned valid slice lies within its own buffer |
| Slices.PinnableSlice.GetSelf | include/rocksdb/slice.h:223 | the owned buffer, which holds no NUL and which an unpinned valid slice does not outrun |
| Slices.PinnableSlice.PinSlice | include/rocksdb/slice.h:160-179 | requires unpinned; leaves the slice pinned, viewing `s`, buffer unchanged |
| Slices.PinnableSlice.PinSelf | include/rocksdb/slice.h:189-194 | stays unpinned; the slice views the whole buffer |
| Slices.PinnableSlice.PinSelfFrom | include/rocksdb/slice.h:181-187 | copies `s`'s view into the buffer and views it |
| Slices.PinnableSlice.RemovePrefix | include/rocksdb/slice.h:206-215 | pinned: the view loses `n` leading bytes; unpinned: the buffer loses them and the slice views the buffer |
| Slices.PinnableSlice.RemoveSuffix | include/rocksdb/slice.h:196-204 | pinned: the view loses `n` trailing bytes; unpinned: they are erased from the buffer and the slice views the buffer |
| Slices.PinnableSlice.Reset | include/rocksdb/slice.h:217-221 | unpinned, size 0, buffer unchanged |
| Slices.UnpinnedEditsTrimTheView | include/rocksdb/slice.h:196-215 | the unpinned erases remove exactly the prefix or suffix the pinned edits drop |
| CFOptions.ToUint32 | options/cf_options.cc:71 | storing an `int` into a `uint32_t` field: unchanged when non-negative, plus 2^32 when negative |
| CFOptions.Split | options/cf_options.cc:43-47 | the ':'-separated fields: at least one, none containing ':' |
| CFOptions.SplitJoinRoundTrip | options/cf_options.cc:43-47 | splitting and joining with ':' are mutually inverse |
| CFOptions.ColonIndex | options/cf_options.cc:47 | the position of the first ':', or the length when there is none |
| CFOptions.GetLine | options/cf_options.cc:47 | `std::getline` with ':' fails exactly when nothing is left to read |
| CFOptions.Readable | options/cf_options.cc:47-126 | the number of fields the reads deliver: all of them unless the last is empty |
| CFOptions.GetLineStep | options/cf_options.cc:47-126 | each read returns the next field and hits the end exactly on the last field |
| CFOptions.ReadField | options/cf_options.cc:47-126 | one read succeeds iff a field remains to be read, returns it, and reports end-of-text |
| CFOptions.Expected | options/cf_options.cc:40-132 | the options after parsing: every delivered field, up to nine, stored in order; unchanged when nothing is read |
| CFOptions.ParseFailure | options/cf_options.cc:48-49 | InvalidArgument with "unable to parse the specified CF option " + name |
| CFOptions.CompressionOptions.FromValue | options/cf_options.cc:42 | an options object holding the given fields |
| CFOptions.StoreField | options/cf_options.cc:51-126 | stores field `k` into its option; a sixth field is `enabled` when it is last and parallel_threads otherwise |
| CFOptions.ReadAndStore | options/cf_options.cc:47-126 | one read and its assignment: progress by one field on success, nothing changes on failure |
| CFOptions.FailedRead | options/cf_options.cc:47-126 | a failed read means the text is not accepted, with the fields read so far stored |
| CFOptions.TrailingText | options/cf_options.cc:128-131 | text left after nine fields is refused, with all nine stored |
| CFOptions.ReachedEnd | options/cf_options.cc:64-132 | reaching the end after three to nine fields accepts the text |
| CFOptions.ParseCompressionOptions | options/cf_options.cc:40-132 | OK iff the text has 3 to 9 fields and the last is not empty, otherwise the parse failure; the options hold exactly the fields read |
| CFOptions.ParseOptionalFields | options/cf_options.cc:64-99 | after the three required fields, the outcome above |
| CFOptions.ParseLaterFields | options/cf_options.cc:101-132 | after the sixth field, the outcome above, refusing leftover text |
| CFOptions.MultiplyCheckOverflow | options/cf_options.cc:958-967 | 0 for a zero operand or non-positive multiplier; `op1` when the product passes UINT64_MAX; the product otherwise |
| CFOptions.DivisionDetectsOverflow | options/cf_options.cc:963 | the division test detects exactly the products above UINT64_MAX |
| CFOptions.MaxFileSizeForL0MetaPin | options/cf_options.cc:987-997 | write_buffer_size/2*3, or SIZE_MAX when that would overflow |
| CFOptions.FileSizeAt | options/cf_options.cc:999-1012 | the size `RefreshDerivedOptions` gives level `i`: unlimited for level 0 under universal compaction, the base size for level 1 and for level 0 otherwise, never below the base from level 1 on when the multiplier is at least 1, and 0 beyond level 1 when the multiplier is not positive |
| CFOptions.FileSizeIsGeometric | options/cf_options.cc:999-1012 | while it fits, level `i` gets base × multiplier^(i-1) |
| CFOptions.FileSizesNonDecreasing | options/cf_options.cc:999-1012 | with a multiplier of at least 1, sizes never shrink from level 1 down |
| CFOptions.FileSizeTable | options/cf_options.cc:999-1012 | one entry per level, each the size that level gets |
| CFOptions.Resize | options/cf_options.cc:1001 | `std::vector::resize`: the new length, old entries kept |
| CFOptions.MutableCFOptions.FromValue | options/cf_options.cc:1154-1167 | an options object holding the given fields |
| CFOptions.MutableCFOptions.Assign | options/cf_options.cc:1160 | the implicit copy assignment: every field copied |
| CFOptions.MutableCFOptions.RefreshDerivedOptions | options/cf_options.cc:999-1012 | the loop leaves `max_file_size` equal to the table for `num_levels` levels and changes nothing else |
| CFOptions.LevelIndex | options/cf_options.cc:972-985 | the index read: the level minus the base level when dynamic level bytes is on, the style is Level and the level is at least the base level, and the level itself otherwise; within 0..level when the asserts' conditions hold, and 0 at the base level |
| CFOptions.MaxFileSizeForLevel | options/cf_options.cc:972-985 | the entry of `max_file_size` at `level - base_level` when dynamic level bytes is on, the style is Level and `level >= base_level`, and at `level` otherwise; the asserts become requires |
| CFOptions.MaxFileSizeForLevelOverTable | options/cf_options.cc:972-1012 | over a refreshed table, a level gets the size computed for its (shifted) index; the base level gets the target file size base |
| CFOptions.GetMutableOptionsFromStrings | options/cf_options.cc:1154-1167 | the parser's status is returned; on success the parsed options stay; on failure a distinct target is restored to the base options |
| BitMath.PatternRoundTrip | rocksdb/rocksdb-sys/src/math.rs:52-69 | `v as u64` read back `as T` gives `v`; a pattern read as `T` and back gives the pattern |
| BitMath.BitsOfPrefix | rocksdb/rocksdb-sys/src/math.rs:52-69 | the low bits of a value are a prefix of its wider bit pattern (sign extension then truncation) |
| BitMath.DownwardInvolution | util/math.h:38-57 | the six guarded xor-shifts on the 64-bit `r`, then `r as T`, compute the specification function; likewise at rocksdb/rocksdb-sys/src/math.rs:51-70 |
| BitMath.BitsOfDownwardInvolution | util/math.h:43-56 | the result's pattern is the steps applied to the input's pattern |
| BitMath.XorShiftInvolution | util/math.h:45-55 | each xor-shift step undoes itself |
| BitMath.StepsInvolution | util/math.h:22 | the whole sequence of steps is its own inverse |
| BitMath.DownwardInvolutionIsInvolution | util/math.h:22 | DI(DI(v)) == v for every value of every type; likewise at rocksdb/rocksdb-sys/src/math.rs:88-158 |
| BitMath.StepsLinear | util/math.h:29 | the steps distribute over xor of patterns |
| BitMath.DownwardInvolutionDistributesOverXor | util/math.h:29 | DI(a ^ b) == DI(a) ^ DI(b) |
| BitMath.DownwardInvolutionKeepsHighestBit | util/math.h:20-21 | the bits from any position up are clear in the result iff they are in the input |
| BitMath.DownwardInvolutionKeepsFloorLog2 | util/math.h:20-21 | `floor_log2` of the result equals that of the input, panics included |
| BitMath.StepsDetermineWindow | util/math.h:26-28 | patterns agreeing outside a window of `c` bits, with images agreeing on their bottom `c` bits, are equal |
| BitMath.DownwardInvolutionBottomBits | util/math.h:23-28 | the bottom `b` bits of `v`, the bits from `b + c` up and the bottom `c` bits of DI(v) determine `v` |
| BitMath.BottomBitIsParity | util/math.h:38-57 | bit 0 of the steps' image is the parity of the pattern |
| BitMath.DownwardInvolutionBottomBit | util/math.h:38-57 | DI(v) is odd exactly when `parity(v)` is 1 |
| BitMath.BottomBitsClaimAsWrittenFails | util/math.h:23-25 | the comment's claim for arbitrary high bits fails for u8, b = 0, c = 1 |
| BitMath.Log2 | rocksdb/rocksdb-sys/src/math.rs:7-9 | the `r` with 2^r ≤ x < 2^(r+1) |
| BitMath.Log2Unique | rocksdb/rocksdb-sys/src/math.rs:7-9 | only one `r` brackets `x` so |
| BitMath.FloorLog2 | rocksdb/rocksdb-sys/src/math.rs:7-9 | panics iff v ≤ 0; otherwise r below the width with 2^r ≤ v < 2^(r+1); likewise at rocksdb-rs/src/math.rs:1-31 |
| BitMath.SameHighestBitSameFloorLog2 | util/math.h:20-21 | patterns with the same highest set bit have the same `floor_log2` outcome |
| BitMath.TrailingZeros | rocksdb/rocksdb-sys/src/math.rs:11-13 | the bits below the result are clear and, below the width, the bit at the result is set; likewise at rocksdb-rs/src/math.rs:33-63 |
| BitMath.TrailingZerosOfZero | rocksdb-rs/src/math.rs:33-63 | the result is the width (8, 16, 32 or 64) exactly for 0 |
| BitMath.CountOnes | rocksdb/rocksdb-sys/src/math.rs:15-17 | at most the width, and 0 exactly for 0 |
| BitMath.Parity | rocksdb/rocksdb-sys/src/math.rs:19-21 | 0 or 1, and 1 exactly when `count_ones` is odd |
| BitMath.ParityOfXor | rocksdb/rocksdb-sys/src/math.rs:19-21 | the parity of `a ^ b` is the sum of the parities mod 2 |
| BitMath.CountXor | rocksdb/rocksdb-sys/src/math.rs:15-17 | ones in `a ^ b` plus twice the ones in `a & b` equal the ones in `a` and `b` |
| BitMath.ReverseBits | rocksdb/rocksdb-sys/src/math.rs:27-29 | bit `i` of the result is bit `w - 1 - i` of `v` |
| BitMath.ReverseBitsInvolution | rocksdb/rocksdb-sys/src/math.rs:27-29 | reversing twice gives `v` back and keeps the count of ones |
| BitMath.SwapBytes | rocksdb/rocksdb-sys/src/math.rs:23-25 | byte `b` of the result is byte `w/8 - 1 - b` of `v` |
| BitMath.SwapBytesInvolution | rocksdb/rocksdb-sys/src/math.rs:23-25 | swapping twice gives `v` back |
| ValueTypes.TypeName | rocksdb-sys/src/debug.rs:20-56 | "Invalid" exactly for bytes the enum does not declare; every declared type has its own name; likewise at rocksdb-rs/src/debug.rs:18-54 |
| ValueTypes.TypeNameInjective | rocksdb-sys/src/debug.rs:20-56 | different declared types get different names |
| SysDebug.KeyVersion.GetTypeName | rocksdb-sys/src/debug.rs:20-56 | "Invalid" exactly for an undeclared value type |
| SysDebug.New | rocksdb-sys/src/debug.rs:6-18 | all four fields stored as given |
| SysDebug.Default | rocksdb-sys/src/debug.rs:59-68 | empty key and value, sequence 0, TypeDeletion, named "TypeDeletion" |
| SysDebug.DefaultKeyVersion | rocksdb-sys/src/debug.rs:107-109 | equals `Default` |
| SysDebug.NewKeyVersion | rocksdb-sys/src/debug.rs:70-88 | panics iff a pointer is null, the key's check first; otherwise key and value are the C strings with their NULs |
| SysDebug.NewKeyVersionFromCStrings | rocksdb-sys/src/debug.rs:90-105 | key and value are the strings cut at their first NUL, plus NUL; the whole string when it has none |
| SysDebug.CStringPrefix | rocksdb-sys/src/debug.rs:90-105 | reading a C++ string's buffer as a C string keeps its bytes up to the first NUL |
| RsDebug.KeyVersion.GetTypeName | rocksdb-rs/src/debug.rs:18-54 | "Invalid" exactly for an undeclared value type |
| RsDebug.New | rocksdb-rs/src/debug.rs:4-16 | all four fields stored as given |
| RsDebug.Default | rocksdb-rs/src/debug.rs:57-66 | empty strings, sequence 0, TypeDeletion |
| RsDebug.NewKeyVersion | rocksdb-rs/src/debug.rs:68-75 | equals `KeyVersion::new` on the same arguments |
| RsDebug.DefaultKeyVersion | rocksdb-rs/src/debug.rs:77-79 | equals `Default` |

## Left out

- `MultiplyCheckOverflow` takes a `double` multiplier. Only integer multipliers, the ones `RefreshDerivedOptions` passes, are modelled. Double rounding and the `double` comparison are not.
- `ParseInt`, `ParseUint64` and `ParseBoolean` are not part of this model. They are passed to the parser as total functions.
- The option-table parser `OptionTypeInfo::ParseType` behind `GetMutableOptionsFromStrings` is not part of this model. It is a function parameter that returns a status and the updated options.
- The `OptionTypeInfo` registration tables, the `Configurable*` classes, the factory lambdas, `OptionsAreEqual` and the `Dump` logging of `options/cf_options.cc` are plumbing into code not shown. The logger argument of `GetMutableOptionsFromStrings` is dropped.
- CFOptions.ParseCompressionOptions: the straight-line sequence of nine reads is split over three methods (`ParseCompressionOptions`, `ParseOptionalFields`, `ParseLaterFields`). The reads and their order are those of the source.
- CFOptions.ParseCompressionOptions: the real `ParseInt`, `ParseUint64` and `ParseBoolean` throw `std::invalid_argument` (or `std::out_of_range`) on a malformed or empty field, such as the middle field of "1::3" or the fields of "a:b:c". That exception path is not modelled. The contract "OK iff 3 to 9 fields and the last is not empty" holds only for the total parsers the model takes as parameters.
- CFOptions.GetMutableOptionsFromStrings: the parser is applied to the base options as a value, so partial updates a failing parser leaves behind are visible only when the target is the base object itself.
- C++ `Slice::ToString`, `ToStringView`, `DecodeHex` and the `SliceParts` constructor are not modelled. Neither is the `PinnableSlice` move constructor and assignment, nor `Cleanable` and its cleanup functions, which are foreign callbacks.
- Slice data is a copy of a C string, as the Rust record keeps it. `Slice(const std::string&)` and `Slice(d, n)` go through `from_raw_with_size`, which copies only up to the first NUL but keeps the size `n`. For bytes holding a NUL before `n`, the copy is shorter than the size, so the slice is not `Valid` and its view does not hold the given bytes (`Slices.FromRawWithSize`, `Slices.EmbeddedNulLosesBytes`). Binary keys with a zero byte are therefore not carried by the port as written. A constructor that copies all `n` bytes is not modelled, because every slice of the model keeps the C-string representation.
- Slices.PinnableSlice.GetSelf: returns the owned buffer by value, not the `std::string*` of slice.h:223. Writes through that pointer, such as filling the buffer before `PinSelf()`, are not modelled as aliasing; `PinSelfFrom` and `WithBuffer` stand for them.
- Sizes are unbounded: `size_t` overflow in slice arithmetic is not modelled. The slice asserts and preconditions keep offsets within the size.
- The FFI bridge declarations (`rocksdb-sys/src/lib.rs`, `rocksdb-rs/src/lib.rs`, the option enum files) are used only for enum values. The wrappers over the C++ database (`src/db.rs`, `src/batch.rs`, the examples) and the tests that need a live database are I/O.
- `From<&UniquePtr<Status>> for Error` (src/error.rs:120-124) is a pointer dereference that forwards to `From<&Status>`, which is modelled as `RocksError.FromStatus`.
- The free functions of rocksdb-sys that forward to a method (`status_new`, `slice_set_size` and the like) are covered by the method they forward to.
- The `as i32` casts of `floor_log2_*`, `trailing_zeros_*`, `count_ones_*` and `parity_*` never change a value, because every result is at most 64. The model returns the natural number.
- Bit operations on `u64` are modelled on sequences of 64 bits rather than on machine words. `leading_zeros` appears only through `floor_log2`, as the comment of `DownwardInvolution` relates them.
- Text produced from bytes (`String::from_utf8_lossy`, `CStr::to_string_lossy`) maps one byte to one character. That is exact for ASCII; replacement of invalid UTF-8 sequences is not modelled.
- The `checked_` status instrumentation (`MarkChecked`, `MustCheck`) and raw pointer ownership (`unique_ptr`, `new char[]`) are debug-build and memory details. A state is a byte sequence or null.
- Write-stall evaluation, per-scope state and writer blocking do not appear in the code this model covers; only the naming and classification layer does.

## Findings

| source | as written | input that shows it | evidently intended | confidence | as-written member | corrected member |
|---|---|---|---|---|---|---|
| rocksdb-sys/src/status.rs:149-152 | `is_column_family_dropped` tests `Code::CompactionTooLarge` | `new_with_code(ColumnFamilyDropped).is_column_family_dropped()` is false, while `new_with_code(CompactionTooLarge)` gives true | test `Code::ColumnFamilyDropped`, as `IsColumnFamilyDropped` of include/rocksdb/status.h does | high, not executed | RsStatus.ColumnFamilyDroppedAsWritten | RsStatus.ColumnFamilyDroppedIntended |
| util/math.h:23-25 | the comment claims the `b` bottom bits of `v` and the `c` bottom bits of `DownwardInvolution(v)` determine the `b + c` bottom bits of `v` | u8 with b = 0, c = 1: v = 1 and v = 2 both have odd images (1 and 3) but differ in their bottom bit | the claim holds once the bits of `v` above `b + c` are fixed too, as the parenthesis "(which is all of v if v < 2**(b + c))" suggests | medium, not executed | BitMath.BottomBitsClaimAsWrittenFails | BitMath.DownwardInvolutionBottomBits |
