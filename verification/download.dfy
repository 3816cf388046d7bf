/** UpdateDl: downloading the chosen installer in fixed-size chunks, reporting
    progress, checking the file's MD5 digest and launching it.

    The network stream, the output file, the worker thread's `running` flag,
    md5check and forkProcess are outside the model. What they report is the
    input `Session`; what the thread posts and launches is the output `Run`. */
module UpdateDl {
  import opened Updater

  /** Bytes asked for by each read of the download stream. */
  const BufferSize: nat := 65536

  /** The DlStatus events posted to the device manager. */
  datatype DlEvent =
    | Started
    | Progress(byteCount: int, totalBytes: int)
    | Failed
    | Success

  /** One pass of the download loop as the streams report it: whether both
      streams were OK at the top of the pass, how many bytes the read
      returned, and what each successive write call reported writing. */
  datatype Chunk = Chunk(ok: bool, bytesRead: nat, writes: seq<nat>)

  /** Everything the download thread observes.
      `running` is read at every loop head and once more at the MD5 gate;
      those reads are numbered 0, 1, 2, … and `cancel` is the number of the
      first read that sees it cleared (the flag starts true and is only ever
      cleared, so every later read sees it cleared too). The stream is at its
      end once every chunk has been read. */
  datatype Session = Session(
    urlOk: bool,
    streamOk: bool,
    chunks: seq<Chunk>,
    cancel: nat,
    md5Ok: bool)

  /** What one download posts and does: the events in posting order, how many
      times the installer was launched, and how many bytes went to the file. */
  datatype Run = Run(events: seq<DlEvent>, launches: nat, fileBytes: nat)

  function Sum(xs: seq<nat>): nat
  {
    if xs == [] then 0 else xs[0] + Sum(xs[1..])
  }

  /** A write reports at most the length it was asked for, and the reported
      lengths of one chunk eventually add up to what was read: the writer
      makes progress. A read returns at most one buffer. */
  predicate ValidChunk(c: Chunk)
  {
    && c.bytesRead <= BufferSize
    && (forall k :: 0 <= k < |c.writes| ==> c.writes[k] <= c.bytesRead)
    && Sum(c.writes) >= c.bytesRead
  }

  predicate ValidSession(t: Session)
  {
    forall i :: 0 <= i < |t.chunks| ==> ValidChunk(t.chunks[i])
  }

  /** What the write loop has counted when it stops: starting from `sofar`,
      reported write lengths are added until they reach `target`. Every call
      asks for `target` bytes again, however many were already written. */
  function Drain(target: nat, writes: seq<nat>, sofar: nat): nat
  {
    if sofar >= target || writes == [] then sofar
    else Drain(target, writes[1..], sofar + writes[0])
  }

  /** The number of passes that get past the OK check: the loop continues
      while `running` reads true and the stream has data, and stops at the
      first pass whose streams are not OK. */
  function Completed(chunks: seq<Chunk>, cancel: nat): (n: nat)
    ensures n <= |chunks| && n <= cancel
  {
    if chunks == [] || cancel == 0 || !chunks[0].ok then 0
    else 1 + Completed(chunks[1..], cancel - 1)
  }

  /** The loop was left through the OK check rather than through its guard. */
  predicate IoFailed(t: Session)
  {
    var n := Completed(t.chunks, t.cancel);
    n < |t.chunks| && n < t.cancel
  }

  /** `running` still reads true at the MD5 gate, which follows the last loop head. */
  predicate RunningAtGate(t: Session)
  {
    Completed(t.chunks, t.cancel) + 1 < t.cancel
  }

  /** Bytes read over the given passes. */
  function ReadTotal(cs: seq<Chunk>): nat
  {
    if cs == [] then 0 else ReadTotal(cs[..|cs| - 1]) + cs[|cs| - 1].bytesRead
  }

  /** Bytes written to the file over the given passes. */
  function FileGrowth(cs: seq<Chunk>): nat
  {
    if cs == [] then 0
    else FileGrowth(cs[..|cs| - 1]) + Drain(cs[|cs| - 1].bytesRead, cs[|cs| - 1].writes, 0)
  }

  /** The progress events the given passes post, one per pass. */
  function ProgressEvents(cs: seq<Chunk>, totalBytes: int): seq<DlEvent>
  {
    if cs == [] then []
    else ProgressEvents(cs[..|cs| - 1], totalBytes) + [Progress(ReadTotal(cs), totalBytes)]
  }

  /** The whole download: STARTED; FAILED when the URL or the stream cannot
      be opened; otherwise one PROGRESS per completed pass, then, when the
      loop ended at the end of the stream and `running` still reads true, the
      MD5 verdict: FAILED, or a launch followed by SUCCESS. */
  function Download(info: UpdateInfo, t: Session): Run
  {
    if !(t.urlOk && t.streamOk) then Run([Started, Failed], 0, 0)
    else
      var done := t.chunks[..Completed(t.chunks, t.cancel)];
      var trace := [Started] + ProgressEvents(done, info.bytesTotal);
      if !IoFailed(t) && RunningAtGate(t) then
        if t.md5Ok then Run(trace + [Success], 1, FileGrowth(done))
        else Run(trace + [Failed], 0, FileGrowth(done))
      else Run(trace, 0, FileGrowth(done))
  }

  /** The write loop of UpdateDl::Entry for one chunk of `bytesRead` bytes:
      write calls are made until their reported lengths reach `bytesRead`;
      `writes` are the lengths the calls report, in order. */
  method WriteChunk(bytesRead: nat, writes: seq<nat>) returns (bytesWritten: nat)
    requires forall k :: 0 <= k < |writes| ==> writes[k] <= bytesRead
    requires Sum(writes) >= bytesRead
    ensures bytesWritten == Drain(bytesRead, writes, 0)
    ensures bytesRead <= bytesWritten && (bytesRead > 0 ==> bytesWritten < 2 * bytesRead)
  {
    bytesWritten := 0;
    var k := 0;
    while bytesWritten < bytesRead
      invariant k <= |writes|
      invariant bytesWritten + Sum(writes[k..]) == Sum(writes)
      invariant Drain(bytesRead, writes[k..], bytesWritten) == Drain(bytesRead, writes, 0)
      decreases |writes| - k
    {
      if k == |writes| {
        assert false;
      }
      assert writes[k..][1..] == writes[k + 1..];
      bytesWritten := bytesWritten + writes[k];
      k := k + 1;
    }
    DrainBounds(bytesRead, writes, 0);
  }

  /** UpdateDl::Entry. Returns the events posted, the number of installer
      launches and the number of bytes written to the output file. */
  method Entry(info: UpdateInfo, t: Session) returns (events: seq<DlEvent>, launches: nat, fileBytes: nat)
    requires ValidSession(t)
    ensures Run(events, launches, fileBytes) == Download(info, t)
  {
    events := [Started];
    launches := 0;
    fileBytes := 0;
    var fileOk := true;
    var gateRead := 0;
    if t.urlOk {
      if t.streamOk {
        var byteCount := 0;
        var totalBytes := info.bytesTotal;
        var i := 0;
        // Loop head i is read number i of `running`; the stream is at its end once i reaches |t.chunks|.
        while i < t.cancel && i < |t.chunks|
          invariant i <= |t.chunks| && i <= t.cancel
          invariant forall j :: 0 <= j < i ==> t.chunks[j].ok
          invariant byteCount == ReadTotal(t.chunks[..i])
          invariant fileBytes == FileGrowth(t.chunks[..i])
          invariant events == [Started] + ProgressEvents(t.chunks[..i], totalBytes)
          invariant fileOk
        {
          if !t.chunks[i].ok {
            fileOk := false;
            break;
          }
          var bytesRead := t.chunks[i].bytesRead;
          byteCount := byteCount + bytesRead;
          var bytesWritten := WriteChunk(bytesRead, t.chunks[i].writes);
          fileBytes := fileBytes + bytesWritten;
          events := events + [Progress(byteCount, totalBytes)];
          assert t.chunks[..i + 1][..i] == t.chunks[..i];
          i := i + 1;
        }
        CompletedAt(t.chunks, t.cancel, i);
        gateRead := i + 1;
      } else {
        events := events + [Failed];
        fileOk := false;
      }
    } else {
      events := events + [Failed];
      fileOk := false;
    }

    if gateRead < t.cancel && fileOk {
      if !t.md5Ok {
        events := events + [Failed];
        fileOk := false;
        return;
      }
      launches := launches + 1;
      events := events + [Success];
    }
  }

  // ------------------------------------------------------------ properties

  /** The loop count is the first stop: every earlier pass saw `running` and
      OK streams, and the pass it names (if any) was refused by one of them. */
  lemma {:induction false} CompletedIsFirstStop(chunks: seq<Chunk>, cancel: nat)
    ensures var n := Completed(chunks, cancel);
      && (forall j :: 0 <= j < n ==> j < cancel && chunks[j].ok)
      && (n == |chunks| || n == cancel || !chunks[n].ok)
  {
    if chunks != [] && cancel != 0 && chunks[0].ok {
      CompletedIsFirstStop(chunks[1..], cancel - 1);
      var n := Completed(chunks, cancel);
      forall j | 0 <= j < n ensures j < cancel && chunks[j].ok {
        if j > 0 {
          assert chunks[j] == chunks[1..][j - 1];
        }
      }
    }
  }

  /** Conversely, any position where the loop would stop first is the loop count. */
  lemma {:induction false} CompletedAt(chunks: seq<Chunk>, cancel: nat, n: nat)
    requires n <= |chunks| && n <= cancel
    requires forall j :: 0 <= j < n ==> chunks[j].ok
    requires n == |chunks| || n == cancel || !chunks[n].ok
    ensures Completed(chunks, cancel) == n
  {
    if n > 0 {
      assert chunks[0].ok;
      forall j | 0 <= j < n - 1 ensures chunks[1..][j].ok {
        assert chunks[1..][j] == chunks[j + 1];
      }
      CompletedAt(chunks[1..], cancel - 1, n - 1);
    }
  }

  /** Pass k's progress event reports the bytes read in passes 0 to k. */
  lemma {:induction false} ProgressEventsShape(cs: seq<Chunk>, totalBytes: int)
    ensures |ProgressEvents(cs, totalBytes)| == |cs|
    ensures forall k :: 0 <= k < |cs| ==>
      ProgressEvents(cs, totalBytes)[k] == Progress(ReadTotal(cs[..k + 1]), totalBytes)
  {
    if cs != [] {
      var p := cs[..|cs| - 1];
      ProgressEventsShape(p, totalBytes);
      forall k | 1 <= k <= |p| ensures cs[..k] == p[..k] {
      }
      assert cs[..|cs|] == cs;
    }
  }

  /** Byte totals never decrease from one pass to a later one. */
  lemma {:induction false} ReadTotalMonotone(cs: seq<Chunk>, j: nat, k: nat)
    requires j <= k <= |cs|
    ensures ReadTotal(cs[..j]) <= ReadTotal(cs[..k])
  {
    if j < k {
      ReadTotalMonotone(cs, j, k - 1);
      assert cs[..k][..k - 1] == cs[..k - 1];
    }
  }

  /** Each pass reads at most one buffer, so the total is at most one buffer per pass. */
  lemma {:induction false} ReadTotalBound(cs: seq<Chunk>)
    requires forall i :: 0 <= i < |cs| ==> ValidChunk(cs[i])
    ensures ReadTotal(cs) <= |cs| * BufferSize
  {
    if cs != [] {
      ReadTotalBound(cs[..|cs| - 1]);
      assert ValidChunk(cs[|cs| - 1]);
    }
  }

  /** The shape of every trace: STARTED first; when the streams opened, one
      PROGRESS per completed pass and then at most one closing FAILED or
      SUCCESS; when they did not, FAILED right after STARTED. */
  lemma DownloadTrace(info: UpdateInfo, t: Session)
    ensures var r := Download(info, t);
      && |r.events| >= 1 && r.events[0] == Started
      && (t.urlOk && t.streamOk ==>
            var n := Completed(t.chunks, t.cancel);
            && n + 1 <= |r.events| <= n + 2
            && (forall k :: 1 <= k <= n ==> r.events[k].Progress?)
            && (|r.events| == n + 2 ==> r.events[n + 1] == Failed || r.events[n + 1] == Success))
      && (!(t.urlOk && t.streamOk) ==> r.events == [Started, Failed])
      && (forall k :: 1 <= k < |r.events| - 1 ==> r.events[k].Progress?)
  {
    if t.urlOk && t.streamOk {
      ProgressEventsShape(t.chunks[..Completed(t.chunks, t.cancel)], info.bytesTotal);
    }
  }

  /** The k-th PROGRESS event reports the bytes read in the first k passes, so
      the reported totals never decrease. */
  lemma ProgressReportsRunningTotal(info: UpdateInfo, t: Session)
    requires t.urlOk && t.streamOk
    ensures var r := Download(info, t);
      var n := Completed(t.chunks, t.cancel);
      && n < |r.events|
      && (forall k :: 1 <= k <= n ==> r.events[k] == Progress(ReadTotal(t.chunks[..k]), info.bytesTotal))
      && (forall j, k :: 1 <= j <= k <= n ==> r.events[j].byteCount <= r.events[k].byteCount)
  {
    var n := Completed(t.chunks, t.cancel);
    var done := t.chunks[..n];
    ProgressEventsShape(done, info.bytesTotal);
    var r := Download(info, t);
    forall k | 1 <= k <= n
      ensures r.events[k] == Progress(ReadTotal(t.chunks[..k]), info.bytesTotal)
    {
      assert done[..k] == t.chunks[..k];
      assert r.events[k] == ProgressEvents(done, info.bytesTotal)[k - 1];
    }
    forall j, k | 1 <= j <= k <= n
      ensures r.events[j].byteCount <= r.events[k].byteCount
    {
      ReadTotalMonotone(t.chunks, j, k);
    }
  }

  /** The integrity gate: the installer is launched at most once, and it is
      launched exactly when the URL and stream opened, the loop reached the
      end of the stream, `running` still reads true at the gate, and the MD5
      check passed; a launch is always reported by a closing SUCCESS and a
      closing SUCCESS always means a launch. */
  lemma LaunchGate(info: UpdateInfo, t: Session)
    ensures var r := Download(info, t);
      && r.launches <= 1
      && (r.launches == 1 <==> t.urlOk && t.streamOk && !IoFailed(t) && RunningAtGate(t) && t.md5Ok)
      && (r.launches == 1 <==> r.events[|r.events| - 1] == Success)
      && (r.launches == 1 ==> Completed(t.chunks, t.cancel) == |t.chunks|)
  {
    if t.urlOk && t.streamOk {
      var done := t.chunks[..Completed(t.chunks, t.cancel)];
      ProgressEventsShape(done, info.bytesTotal);
      var trace := [Started] + ProgressEvents(done, info.bytesTotal);
      assert trace[|trace| - 1] != Success;
    }
  }

  /** A digest mismatch after a complete download posts FAILED last and launches nothing. */
  lemma Md5Mismatch(info: UpdateInfo, t: Session)
    requires t.urlOk && t.streamOk && !IoFailed(t) && RunningAtGate(t) && !t.md5Ok
    ensures var r := Download(info, t);
      r.launches == 0 && r.events[|r.events| - 1] == Failed
      && |r.events| == Completed(t.chunks, t.cancel) + 2
  {
    ProgressEventsShape(t.chunks[..Completed(t.chunks, t.cancel)], info.bytesTotal);
  }

  /** When the URL or the stream cannot be opened the trace is STARTED, FAILED
      and nothing is written or launched. */
  lemma OpenFailure(info: UpdateInfo, t: Session)
    requires !t.urlOk || !t.streamOk
    ensures Download(info, t) == Run([Started, Failed], 0, 0)
  {
  }

  /** A pass whose streams are not OK, or a `running` flag cleared before the
      gate, ends the trace after the last PROGRESS: no FAILED, no SUCCESS,
      no launch. */
  lemma NoVerdictWhenInterrupted(info: UpdateInfo, t: Session)
    requires t.urlOk && t.streamOk && (IoFailed(t) || !RunningAtGate(t))
    ensures var r := Download(info, t);
      && r.launches == 0
      && |r.events| == Completed(t.chunks, t.cancel) + 1
      && Failed !in r.events && Success !in r.events
  {
    var done := t.chunks[..Completed(t.chunks, t.cancel)];
    ProgressEventsShape(done, info.bytesTotal);
    var r := Download(info, t);
    forall k | 0 <= k < |r.events| ensures r.events[k] != Failed && r.events[k] != Success {
      if k > 0 {
        assert r.events[k] == ProgressEvents(done, info.bytesTotal)[k - 1];
      }
    }
  }

  /** The write loop stops once the count reaches what was read and, because
      a single write reports at most that much, before it reaches twice as
      much. */
  lemma {:induction false} DrainBounds(target: nat, writes: seq<nat>, sofar: nat)
    requires forall k :: 0 <= k < |writes| ==> writes[k] <= target
    requires sofar + Sum(writes) >= target
    requires sofar < 2 * target || sofar == 0
    ensures var d := Drain(target, writes, sofar);
      target <= d && (target > 0 ==> d < 2 * target) && (target == 0 ==> d == sofar)
  {
    if sofar < target && writes != [] {
      DrainBounds(target, writes[1..], sofar + writes[0]);
    }
  }

  /** The file grows by exactly what was read when the first write of every
      pass reports the whole chunk. */
  lemma {:induction false} FileGrowthExact(cs: seq<Chunk>)
    requires forall i :: 0 <= i < |cs| ==> |cs[i].writes| > 0 && cs[i].writes[0] == cs[i].bytesRead
    ensures FileGrowth(cs) == ReadTotal(cs)
  {
    if cs != [] {
      FileGrowthExact(cs[..|cs| - 1]);
      var c := cs[|cs| - 1];
      if c.bytesRead > 0 {
        assert Drain(c.bytesRead, c.writes[1..], c.writes[0]) == c.bytesRead;
      }
    }
  }

  /** Every byte read goes to the file at least once; short writes can make
      the file longer than the download. */
  lemma {:induction false} FileGrowthCoversRead(cs: seq<Chunk>)
    requires forall i :: 0 <= i < |cs| ==> ValidChunk(cs[i])
    ensures ReadTotal(cs) <= FileGrowth(cs) <= 2 * ReadTotal(cs)
    ensures ReadTotal(cs) > 0 ==> FileGrowth(cs) < 2 * ReadTotal(cs)
  {
    if cs != [] {
      FileGrowthCoversRead(cs[..|cs| - 1]);
      var c := cs[|cs| - 1];
      assert ValidChunk(c);
      DrainBounds(c.bytesRead, c.writes, 0);
    }
  }

  /** A short first write makes the loop ask for the full chunk again, so the
      file gets more bytes than were read: 10 bytes read, a first write of 4,
      then a write of all 10 requested, and 14 bytes go to the file. */
  lemma ShortWriteOverrun()
    ensures ValidChunk(Chunk(true, 10, [4, 10]))
    ensures Drain(10, [4, 10], 0) == 14
  {
    assert Sum([4, 10]) == 14 by {
      assert [4, 10][1..] == [10];
      assert [10][1..] == [];
    }
    assert Drain(10, [4, 10], 0) == Drain(10, [10], 4) by {
      assert [4, 10][1..] == [10];
    }
  }

  /** Passes that each read `b` bytes and write them in one call: the k-th
      progress report says k·b bytes and the file holds n·b bytes. */
  lemma {:induction false} EvenChunks(cs: seq<Chunk>, b: nat, totalBytes: int)
    requires forall i :: 0 <= i < |cs| ==> cs[i] == Chunk(true, b, [b])
    ensures ReadTotal(cs) == |cs| * b && FileGrowth(cs) == |cs| * b
    ensures ProgressEvents(cs, totalBytes) == seq(|cs|, k requires 0 <= k < |cs| => Progress((k + 1) * b, totalBytes))
  {
    if cs != [] {
      var p := cs[..|cs| - 1];
      EvenChunks(p, b, totalBytes);
      assert b > 0 ==> Drain(b, [b], 0) == Drain(b, [], b);
    }
  }

  /** Five full 200-byte chunks of a 1000-byte installer, nothing cancelled,
      digest correct: five progress reports from 200 to 1000, one launch,
      SUCCESS. */
  lemma SmoothDownload(info: UpdateInfo)
    requires info.bytesTotal == 1000
    ensures var c := Chunk(true, 200, [200]);
      Download(info, Session(true, true, [c, c, c, c, c], 7, true))
        == Run([Started, Progress(200, 1000), Progress(400, 1000), Progress(600, 1000),
                Progress(800, 1000), Progress(1000, 1000), Success], 1, 1000)
  {
    var c := Chunk(true, 200, [200]);
    var cs := [c, c, c, c, c];
    CompletedAt(cs, 7, 5);
    assert cs[..5] == cs;
    EvenChunks(cs, 200, 1000);
  }

  /** The same download cancelled after two chunks: two progress reports, no verdict, no launch. */
  lemma CancelledAfterTwo(info: UpdateInfo)
    requires info.bytesTotal == 1000
    ensures var c := Chunk(true, 200, [200]);
      Download(info, Session(true, true, [c, c, c, c, c], 2, true))
        == Run([Started, Progress(200, 1000), Progress(400, 1000)], 0, 400)
  {
    var c := Chunk(true, 200, [200]);
    var cs := [c, c, c, c, c];
    CompletedAt(cs, 2, 2);
    assert cs[..2] == [c, c];
    EvenChunks([c, c], 200, 1000);
  }
}
