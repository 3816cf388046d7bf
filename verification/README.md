# DroidPad updater, modelled in Dafny

DroidPad's Windows updater (`src/lib/msw/updater.cpp`) does two jobs. This
project models both.

- **Updater** fetches a manifest and parses it. Each manifest line holds one
  release as seven `;`-separated fields: versionCode, versionName, url,
  bytesTotal, name, comment and md5. The updater picks the first record with
  the highest version code and posts one `UpdatesNotification`. That
  notification carries every parsed record, an install candidate list with
  zero or one entry, and the `userRequest` flag.
- **UpdateDl** downloads the chosen installer in 64 KiB chunks and posts a
  `DlStatus` event trace: STARTED, then one PROGRESS per chunk, then FAILED,
  SUCCESS or nothing. After the loop it checks the file's MD5 digest. Only a
  download that reached the end of the stream, was not cancelled and passed
  the digest check launches the installer.

The project has three modules:

- `WxText` (`wxtext.dfy`) states the two pieces of wxWidgets behaviour the
  updater relies on. The first is `wxStringTokenizer` in its default mode:
  strtok mode for the all-white-space delimiters `"\r\n"`, and ret-empty mode
  for `";"`. The second is `wxString::ToLong`, assumed here to store what C's
  `strtol` produces (see `ToLong` under "## Left out").
- `Updater` (`updater.dfy`) holds the manifest parser, the selection rule and
  `Updater::Entry`.
- `UpdateDl` (`download.dfy`) holds the download loop, the write sub-loop and
  the MD5 gate.

Both loops of `parseUpdates` and both loops of `UpdateDl::Entry` are methods
with loop invariants. Each is proved against a specification function:
`ParseManifest`/`Decide` for parsing and `Download` for downloading. The
properties are then proved as lemmas about those functions.

Events posted with `AddPendingEvent` are modelled as a returned sequence, in
posting order. The download thread's view of the world is an input `Session`:

- whether the URL parsed and the stream opened;
- one `Chunk` per loop pass, holding the OK flag, the bytes read and the
  lengths each write call reported;
- the index of the first read of `running` that sees it cleared;
- the md5check verdict.

The end of the stream is the point where every chunk has been read.

## Model

| member | source | states |
|---|---|---|
| WxText.StrtokTokensShape | src/lib/msw/updater.cpp:78 | Line tokens from the `"\r\n"` tokenizer are never empty and never contain `\r` or `\n`. |
| WxText.RetEmptyTokensShape | src/lib/msw/updater.cpp:81 | Field tokens from the `";"` tokenizer never contain `;`. There is at least one token exactly when the line is non-empty. The last of several tokens is never empty, because trailing empty fields are dropped. |
| WxText.SplitJoin | src/lib/msw/updater.cpp:78-81 | Cutting at delimiters undoes joining with a delimiter, provided no field holds one. |
| WxText.StrtokJoin | src/lib/msw/updater.cpp:78 | Joining non-empty, delimiter-free lines with `\n` and tokenizing gives back exactly those lines. |
| WxText.RetEmptyJoin | src/lib/msw/updater.cpp:81 | Joining `;`-free fields with `;` and tokenizing gives back exactly those fields, provided the last field is non-empty. |
| WxText.ToLong | src/lib/msw/updater.cpp:88-97 | The stored value always lies in the 32-bit `long` range. |
| WxText.ToLongDecimal | src/lib/msw/updater.cpp:88-97 | Every `long` written in canonical decimal is read back by `ToLong` as itself. |
| Updater.ReadVersions | src/lib/msw/updater.cpp:79-103 | The line loop yields exactly `Records` of the tokenized lines, and never more records than lines. |
| Updater.HighestUpdate | src/lib/msw/updater.cpp:107-112 | The selection loop ends with `FirstMax`. That result satisfies the independent first-maximum rule `IsFirstMaximum`. |
| Updater.ParseUpdates | src/lib/msw/updater.cpp:76-121 | Exactly one notification is posted. It equals `Decide`: all parsed records, at most one candidate, and the caller's `userRequest`. |
| Updater.Entry | src/lib/msw/updater.cpp:53-74 | Nothing is posted, and nothing is parsed, when the URL or the stream fails. Otherwise the post is the one notification for the text read. |
| Updater.RecordsAppend | src/lib/msw/updater.cpp:79-103 | Parsing is line by line: the records of concatenated line lists are the concatenated records. |
| Updater.TokenizeSplice | src/lib/msw/updater.cpp:80-81 | A line's fields do not depend on the lines around it. |
| Updater.RecordsSkip | src/lib/msw/updater.cpp:83-87 | A tokenized line with fewer than seven fields adds no record between its neighbours' records. |
| Updater.RecordsAddOne | src/lib/msw/updater.cpp:88-102 | A tokenized line with at least seven fields adds one record, built from its first seven fields, at its place. |
| Updater.MalformedLineSkipped | src/lib/msw/updater.cpp:80-87 | A manifest line with fewer than seven fields adds no record. The lines after it parse as if it were absent. |
| Updater.WellFormedLineAddsOne | src/lib/msw/updater.cpp:88-102 | A manifest line with at least seven fields adds exactly one record at its place in manifest order. The fields are versionCode, versionName, url, bytesTotal, name, comment, md5, in that order; extra fields are ignored. |
| Updater.RecordsLength | src/lib/msw/updater.cpp:79-103 | There are never more records than lines. |
| Updater.FirstMaxIsFirstMaximum | src/lib/msw/updater.cpp:107-112 | The strict `>` scan from the default record picks one of two results. If no record beats the default code, it keeps the default. Otherwise it picks the earliest record whose code is maximal. |
| Updater.FirstMaximumUnique | src/lib/msw/updater.cpp:107-112 | The first-maximum rule determines its record uniquely. |
| Updater.HighestIsFirstOfMaximalCode | src/lib/msw/updater.cpp:107-112 | Suppose some record beats the default code. Then the chosen record's code bounds every code, and no earlier record reaches that code, so a tie goes to the first. |
| Updater.CandidateIffNewer | src/lib/msw/updater.cpp:105-120 | The candidate list has at most one entry. It is non-empty exactly when a parsed record, or the default record, is newer than the running build. Its entry is then newer and is the first-maximum choice. |
| Updater.FieldsRoundTrip | src/lib/msw/updater.cpp:88-101 | The seven fields of a writable record read back as that record. |
| Updater.RecordLineRoundTrip | src/lib/msw/updater.cpp:81-101 | A written record line is a single line, and it tokenizes back into its seven fields. |
| Updater.ManifestRoundTrip | src/lib/msw/updater.cpp:76-103 | Writing records as a manifest and parsing it gives back the same records in the same order. |
| Updater.NewerOfTwoOffered | src/lib/msw/updater.cpp:76-120 | Take a manifest listing a newer release and then an older one, read by a build between the two. Both records come back in order, and the newer one is the candidate. |
| Updater.TieGoesToFirst | src/lib/msw/updater.cpp:107-117 | When two distinct records share the newest code, the one listed first is the candidate. |
| UpdateDl.WriteChunk | src/lib/msw/updater.cpp:165-168 | The write loop stops with the count `Drain` gives. That count is at least the bytes read and, for a non-empty chunk, less than twice the bytes read. |
| UpdateDl.Entry | src/lib/msw/updater.cpp:131-207 | The events posted, launches made and bytes written are exactly `Download` of the session. |
| UpdateDl.Completed | src/lib/msw/updater.cpp:157-162 | The number of completed passes is bounded by the chunks available and by the reads of `running` that still see it set. |
| UpdateDl.CompletedIsFirstStop | src/lib/msw/updater.cpp:157-162 | Every completed pass saw `running` set and OK streams. The loop stops at the end of the stream, at a cleared `running`, or at a pass whose streams are not OK. |
| UpdateDl.CompletedAt | src/lib/msw/updater.cpp:157-162 | Conversely, a position where the loop would stop first is the pass count. |
| UpdateDl.ProgressEventsShape | src/lib/msw/updater.cpp:163-172 | There is one PROGRESS per pass. Pass k reports the bytes read in passes 0 to k, together with the expected total. |
| UpdateDl.ReadTotalMonotone | src/lib/msw/updater.cpp:164 | The running byte total never decreases. |
| UpdateDl.ReadTotalBound | src/lib/msw/updater.cpp:153-163 | After n passes the running byte total is at most n·65536. |
| UpdateDl.DownloadTrace | src/lib/msw/updater.cpp:140-205 | Every trace starts with STARTED. When the URL and stream opened, events 1 to n are PROGRESS for the n completed passes, and at most one more event follows, which is FAILED or SUCCESS. Otherwise the trace is STARTED, FAILED. |
| UpdateDl.ProgressReportsRunningTotal | src/lib/msw/updater.cpp:155-172 | The k-th PROGRESS carries the bytes read in the first k passes, so the reported totals never decrease. |
| UpdateDl.LaunchGate | src/lib/msw/updater.cpp:150-205 | The installer is launched at most once. It is launched exactly when the URL and stream opened, the loop reached the end of the stream, `running` is still set at the gate and the MD5 check passed. A launch and a closing SUCCESS go together. |
| UpdateDl.Md5Mismatch | src/lib/msw/updater.cpp:191-199 | After a complete download, a digest mismatch posts FAILED last and launches nothing. |
| UpdateDl.OpenFailure | src/lib/msw/updater.cpp:149-187 | A URL or stream that cannot be opened gives exactly STARTED then FAILED, no bytes and no launch. |
| UpdateDl.NoVerdictWhenInterrupted | src/lib/msw/updater.cpp:157-162 | Suppose streams are not OK mid-loop, or `running` is cleared before the gate. Then the trace ends after the last PROGRESS, with no FAILED, no SUCCESS and no launch. |
| UpdateDl.DrainBounds | src/lib/msw/updater.cpp:166-168 | The write loop's count reaches the bytes read and, for a non-empty chunk, stays below twice that; for an empty chunk the count does not move. |
| UpdateDl.FileGrowthExact | src/lib/msw/updater.cpp:163-168 | When every first write reports the whole chunk, the file grows by exactly the bytes read. |
| UpdateDl.FileGrowthCoversRead | src/lib/msw/updater.cpp:163-168 | The file receives at least every byte read and at most twice as many; once anything was read, strictly fewer than twice as many. |
| UpdateDl.ShortWriteOverrun | src/lib/msw/updater.cpp:167 | Read 10 bytes, get a short first write of 4, then a write of the full 10 requested: the loop counts 14 bytes written. |
| UpdateDl.EvenChunks | src/lib/msw/updater.cpp:163-172 | Passes of b bytes, each written in one call, report k·b after pass k. The file then holds n·b bytes. |
| UpdateDl.SmoothDownload | src/lib/msw/updater.cpp:131-207 | Five 200-byte chunks of a 1000-byte installer report 200, 400, 600, 800, 1000. Then one launch and SUCCESS follow. |
| UpdateDl.CancelledAfterTwo | src/lib/msw/updater.cpp:157-172 | The same download cancelled after two chunks reports 200 and 400. It gives no verdict, no launch and 400 bytes on disk. |

## Left out

- The network and file I/O are inputs, not modelled: wxURL, the input stream, wxFileOutputStream and the temporary path. The manifest arrives as a string. The download arrives as a sequence of per-pass OK flags, read sizes and write results.
- Threads are not modelled. `running` is cleared from another thread; here it is the index of the first of its reads that sees it cleared.
- md5check is an opaque boolean. forkProcess is a launch counter.
- File contents are not modelled, only byte counts.
- Logging is not modelled.
- `UpdateInfo`'s default constructor lives in `updater.hpp`, which is not part of this model. The default record is a parameter, and so is `VERSION_CODE`.
- `src/lib/events.hpp` and `src/if-gui/about.hpp` are not part of this model. They hold only declarations.
- wxWidgets itself is not part of this model. The tokenizer modes are taken from the library's documentation.
- ToLong: the model assumes the value kept is what `strtol` produces, with 0 when there are no digits and clamping to a 32-bit `long` on overflow. Some wxWidgets versions instead return false without writing the target in those two cases; `long code` and `long bytesTotal` (src/lib/msw/updater.cpp:88, :95) are uninitialised, so the record would then carry an indeterminate value. The model does not capture that.
- Fixed-width integers are unbounded here. `int byteCount` and `size_t totalBytes` can neither overflow nor wrap, and a negative `bytesTotal` is reported as is rather than converted to `size_t`.
- A session holds finitely many chunks, and each chunk's writes eventually report as many bytes as were read. A stream that never reaches its end, or a writer that stops making progress, would hang the real loop and is not modelled.
- Two C++ defects have no effect on the traces and are left out: the missing return value of `Updater::Entry`, and `delete` applied to a `new[]` buffer.
- Where the code's behaviour may surprise a reader, the model follows the code:
  - No event is posted when the download is cancelled.
  - No event is posted when the streams stop reporting OK in mid-loop.
  - Failing to open the output file shows up only as that mid-loop OK failure.
  - Progress totals are non-decreasing rather than strictly increasing, because a read may return 0 bytes.
  - The selection loop starts from the default record, so the candidate is compared with `VERSION_CODE` after competing with that record's code.
  - A line that ends with an empty md5 field loses it, along with any empty fields before it, because the tokenizer drops trailing empty fields; it then has fewer than seven fields and is skipped.
- The write sub-loop passes `bytesRead`, not the remaining length, on every call. This is kept as written; `ShortWriteOverrun` shows the file growing by more than was read.
