/** Lines, and where LogPusher (internal/agent/runner.go) cuts its byte stream. A char of a string
    is one byte.
  */
module LogLines {

  // ---------------------------------------------------------------------------------------
  // splitLines
  // ---------------------------------------------------------------------------------------

  /** The lines of s that a newline ends, and what comes after the last newline. */
  function Ended(s: string): (seq<string>, string) {
    if s == "" then ([], "")
    else
      var (lines, tail) := Ended(s[..|s| - 1]);
      var c := s[|s| - 1];
      if c == '\n' then (lines + [tail], "") else (lines, tail + [c])
  }

  /** The lines of s: an unended last line counts if it is not empty. */
  function Lines(s: string): seq<string> {
    var (lines, tail) := Ended(s);
    if tail == "" then lines else lines + [tail]
  }

  function Unlines(lines: seq<string>): string {
    if lines == [] then "" else Unlines(lines[..|lines| - 1]) + lines[|lines| - 1] + "\n"
  }

  predicate EndsLine(s: string) {
    s == "" || s[|s| - 1] == '\n'
  }

  lemma {:induction false} EndedRoundTrip(s: string)
    ensures Unlines(Ended(s).0) + Ended(s).1 == s
    ensures Ended(s).1 == "" <==> EndsLine(s)
    ensures '\n' !in Ended(s).1
    ensures forall line :: line in Ended(s).0 ==> '\n' !in line
  {
    if s != "" {
      var front, c := s[..|s| - 1], s[|s| - 1];
      EndedRoundTrip(front);
      var (lines, tail) := Ended(front);
      assert s == front + [c];
      if c == '\n' {
        assert (lines + [tail])[..|lines|] == lines;
      }
    }
  }

  /** Lines loses nothing: writing its result back restores s, with its last line ended, and no
      line holds a newline. */
  lemma LinesRoundTrip(s: string)
    ensures Unlines(Lines(s)) == if EndsLine(s) then s else s + "\n"
    ensures forall line :: line in Lines(s) ==> '\n' !in line
  {
    EndedRoundTrip(s);
    var (lines, tail) := Ended(s);
    assert (lines + [tail])[..|lines|] == lines;
  }

  method SplitLines(s: string) returns (out: seq<string>)
    ensures out == Lines(s)
  {
    out := [];
    var start := 0;
    for i := 0 to |s|
      invariant start <= i
      invariant Ended(s[..i]).0 == out
      invariant Ended(s[..i]).1 == s[start..i]
    {
      EndedOneMore(s, i);
      if s[i] == '\n' {
        out := out + [s[start..i]];
        start := i + 1;
      } else {
        assert s[start..i] + [s[i]] == s[start..i + 1];
      }
    }
    assert s[..|s|] == s && s[start..|s|] == s[start..];
    if start < |s| {
      out := out + [s[start..]];
    }
  }

  lemma EndedOneMore(s: string, i: nat)
    requires i < |s|
    ensures var (lines, tail) := Ended(s[..i]);
            Ended(s[..i + 1]) == if s[i] == '\n' then (lines + [tail], "") else (lines, tail + [s[i]])
  {
    assert s[..i + 1][..i] == s[..i];
  }

  /** Appending b to a: newlines of b end lines as they do in b alone, except that the first line
      of b continues the last one of a. */
  lemma {:induction false} EndedOfConcat(a: string, b: string)
    ensures |Ended(a + b).0| == |Ended(a).0| + |Ended(b).0|
    ensures EndsLine(a) ==> Ended(a + b).0 == Ended(a).0 + Ended(b).0 && Ended(a + b).1 == Ended(b).1
  {
    if b == "" {
      EndedRoundTrip(a);
      assert a + b == a;
      assert Ended(a).0 + [] == Ended(a).0;
    } else {
      assert (a + b)[..|a + b| - 1] == a + b[..|b| - 1];
      EndedOfConcat(a, b[..|b| - 1]);
    }
  }

  /** Cutting after a newline cuts no line. */
  lemma LinesOfCleanCut(a: string, b: string)
    requires EndsLine(a)
    ensures Lines(a + b) == Lines(a) + Lines(b)
  {
    EndedOfConcat(a, b);
    EndedRoundTrip(a);
  }

  /** Cutting anywhere else makes two lines of one. */
  lemma LinesOfSplitLine(a: string, b: string)
    requires !EndsLine(a) && b != ""
    ensures |Lines(a + b)| == |Lines(a)| + |Lines(b)| - 1
  {
    EndedOfConcat(a, b);
    EndedRoundTrip(a);
    EndedRoundTrip(b);
    EndedRoundTrip(a + b);
  }

  // ---------------------------------------------------------------------------------------
  // Cutting the stream
  // ---------------------------------------------------------------------------------------

  datatype Limits = Limits(flushBytes: nat, maxLineBytes: nat)

  /** What has been cut off the stream, chunk by chunk, and what is still buffered. */
  datatype Stream = Stream(chunks: seq<string>, buf: string)

  datatype Op = Write(data: string) | Tick

  function Concat(chunks: seq<string>): string {
    if chunks == [] then "" else Concat(chunks[..|chunks| - 1]) + chunks[|chunks| - 1]
  }

  /** The lines of each chunk, in order: what is shipped. */
  function CutLines(chunks: seq<string>): seq<string> {
    if chunks == [] then [] else CutLines(chunks[..|chunks| - 1]) + Lines(chunks[|chunks| - 1])
  }

  /** The length of s up to and including its last newline; 0 without one. */
  function CompleteLength(s: string): (n: nat)
    ensures n <= |s| && (n > 0 ==> s[n - 1] == '\n') && '\n' !in s[n..]
  {
    if s == "" then 0
    else if s[|s| - 1] == '\n' then |s|
    else
      var n := CompleteLength(s[..|s| - 1]);
      assert s[n..] == s[..|s| - 1][n..] + [s[|s| - 1]];
      n
  }

  function Push(st: Stream, n: nat): Stream
    requires n <= |st.buf|
  {
    if n == 0 then st else Stream(st.chunks + [st.buf[..n]], st.buf[n..])
  }

  /** flushCompleteLinesLocked cuts after the last newline; flushLocked cuts everything. */
  function CutComplete(st: Stream): Stream {
    Push(st, CompleteLength(st.buf))
  }

  function CutAll(st: Stream): Stream {
    Push(st, |st.buf|)
  }

  /** Write appends, then cuts by size. */
  function AfterWrite(lim: Limits, st: Stream, data: string): Stream {
    var fuller := Stream(st.chunks, st.buf + data);
    if |fuller.buf| >= lim.maxLineBytes then CutAll(fuller)
    else if |fuller.buf| >= lim.flushBytes then CutComplete(fuller)
    else fuller
  }

  function AfterOp(lim: Limits, st: Stream, op: Op): Stream {
    match op
    case Write(data) => AfterWrite(lim, st, data)
    case Tick => CutComplete(st)
  }

  function Replay(lim: Limits, ops: seq<Op>): Stream {
    if ops == [] then Stream([], "") else AfterOp(lim, Replay(lim, ops[..|ops| - 1]), ops[|ops| - 1])
  }

  function Data(op: Op): string {
    match op
    case Write(data) => data
    case Tick => ""
  }

  function Written(ops: seq<Op>): string {
    if ops == [] then "" else Written(ops[..|ops| - 1]) + Data(ops[|ops| - 1])
  }

  /** Every chunk but the last ends a line. */
  ghost predicate CleanCuts(chunks: seq<string>) {
    forall i :: 0 <= i < |chunks| - 1 ==> EndsLine(chunks[i])
  }

  ghost predicate NonEmpty(chunks: seq<string>) {
    forall i :: 0 <= i < |chunks| ==> chunks[i] != ""
  }

  /** The whole stream so far. */
  function Seen(st: Stream): string {
    Concat(st.chunks) + st.buf
  }

  lemma PushKeepsStream(st: Stream, n: nat)
    requires n <= |st.buf|
    ensures Seen(Push(st, n)) == Seen(st)
    ensures NonEmpty(st.chunks) ==> NonEmpty(Push(st, n).chunks)
  {
  }

  /** A final flush leaves nothing buffered. */
  lemma CutAllEmpties(st: Stream)
    ensures CutAll(st).buf == "" && Concat(CutAll(st).chunks) == Seen(st)
    ensures NonEmpty(st.chunks) ==> NonEmpty(CutAll(st).chunks)
  {
  }

  /** What may stay buffered: after a tick no complete line, and after a write no complete line unless
      the buffer is below the flush threshold. */
  lemma NoCompleteLineStays(lim: Limits, st: Stream, op: Op)
    ensures var buf := AfterOp(lim, st, op).buf;
            '\n' !in buf || (op.Write? && |buf| < lim.flushBytes)
  {
  }

  lemma OpKeepsStream(lim: Limits, st: Stream, op: Op)
    ensures Seen(AfterOp(lim, st, op)) == Seen(st) + Data(op)
    ensures NonEmpty(st.chunks) ==> NonEmpty(AfterOp(lim, st, op).chunks)
  {
    match op
    case Tick => PushKeepsStream(st, CompleteLength(st.buf));
    case Write(data) =>
      var fuller := Stream(st.chunks, st.buf + data);
      PushKeepsStream(fuller, |fuller.buf|);
      PushKeepsStream(fuller, CompleteLength(fuller.buf));
      assert Seen(fuller) == Seen(st) + data;
  }

  /** Nothing is lost or reordered by cutting. */
  lemma {:induction false} ReplayKeepsStream(lim: Limits, ops: seq<Op>)
    ensures Seen(Replay(lim, ops)) == Written(ops) && NonEmpty(Replay(lim, ops).chunks)
  {
    if ops != [] {
      ReplayKeepsStream(lim, ops[..|ops| - 1]);
      OpKeepsStream(lim, Replay(lim, ops[..|ops| - 1]), ops[|ops| - 1]);
    }
  }

  /** The lines shipped are the lines of the stream exactly when every cut but the last fell after
      a newline; otherwise there are more of them. */
  lemma {:induction false} CutLinesExact(chunks: seq<string>)
    requires NonEmpty(chunks)
    ensures |CutLines(chunks)| >= |Lines(Concat(chunks))|
    ensures CleanCuts(chunks) <==> |CutLines(chunks)| == |Lines(Concat(chunks))|
    ensures CleanCuts(chunks) <==> CutLines(chunks) == Lines(Concat(chunks))
  {
    if chunks != [] {
      var front, last := chunks[..|chunks| - 1], chunks[|chunks| - 1];
      CutLinesExact(front);
      EndOfConcat(front);
      if EndsLine(Concat(front)) {
        LinesOfCleanCut(Concat(front), last);
        CleanCutsFront(chunks);
      } else {
        LinesOfSplitLine(Concat(front), last);
        assert chunks[|front| - 1] == front[|front| - 1];
        assert !CleanCuts(chunks);
      }
    }
  }

  lemma EndOfConcat(chunks: seq<string>)
    requires NonEmpty(chunks)
    ensures EndsLine(Concat(chunks)) <==> chunks == [] || EndsLine(chunks[|chunks| - 1])
    ensures Concat(chunks) == "" ==> chunks == []
  {
  }

  lemma CleanCutsFront(chunks: seq<string>)
    requires NonEmpty(chunks) && chunks != []
    requires var front := chunks[..|chunks| - 1]; front == [] || EndsLine(front[|front| - 1])
    ensures CleanCuts(chunks) <==> CleanCuts(chunks[..|chunks| - 1])
  {
  }

  // ---------------------------------------------------------------------------------------
  // When no line is ever cut
  // ---------------------------------------------------------------------------------------

  ghost predicate LinesShorterThan(s: string, limit: int) {
    forall line :: line in Lines(s) ==> |line| < limit
  }

  /** A stretch of short-lined output without a newline is short. */
  lemma {:induction false} ShortStretch(s: string, limit: int, i: nat, j: nat)
    requires LinesShorterThan(s, limit) && limit > 0
    requires i <= j <= |s| && forall k :: i <= k < j ==> s[k] != '\n'
    ensures j - i < limit
  {
    if j == |s| {
      LongTail(s, i);
      assert Ended(s).1 != "" ==> Ended(s).1 in Lines(s);
    } else {
      ShortLinesOfFront(s, limit);
      ShortStretch(s[..|s| - 1], limit, i, j);
    }
  }

  lemma {:induction false} LongTail(s: string, i: nat)
    requires i <= |s| && forall k :: i <= k < |s| ==> s[k] != '\n'
    ensures |Ended(s).1| >= |s| - i
  {
    if i < |s| {
      LongTail(s[..|s| - 1], i);
    }
  }

  lemma ShortLinesOfFront(s: string, limit: int)
    requires s != "" && LinesShorterThan(s, limit)
    ensures LinesShorterThan(s[..|s| - 1], limit)
  {
  }

  ghost predicate WritesAtMost(ops: seq<Op>, w: nat) {
    forall i :: 0 <= i < |ops| && ops[i].Write? ==> |ops[i].data| <= w
  }

  lemma ShortBuffer(st: Stream, limit: int, whole: string)
    requires LinesShorterThan(whole, limit) && limit > 0
    requires Seen(st) <= whole && '\n' !in st.buf
    ensures |st.buf| < limit
  {
    var n := |Concat(st.chunks)|;
    assert whole[..n + |st.buf|] == Seen(st);
    assert whole[n..n + |st.buf|] == st.buf;
    ShortStretch(whole, limit, n, n + |st.buf|);
  }

  ghost predicate CleanExtension(chunks: seq<string>, longer: seq<string>) {
    || longer == chunks
    || (|longer| == |chunks| + 1 && longer[..|chunks|] == chunks && EndsLine(longer[|chunks|]))
  }

  lemma CutCompleteIsClean(st: Stream, limit: int, whole: string)
    requires LinesShorterThan(whole, limit) && limit > 0 && Seen(st) <= whole
    ensures |CutComplete(st).buf| < limit && CleanExtension(st.chunks, CutComplete(st).chunks)
  {
    PushKeepsStream(st, CompleteLength(st.buf));
    ShortBuffer(CutComplete(st), limit, whole);
  }

  /** One operation cuts only after newlines and leaves a short buffer, if it started with one. */
  lemma OpCutsNoLine(lim: Limits, st: Stream, op: Op, w: nat, whole: string)
    requires |Data(op)| <= w && lim.flushBytes <= lim.maxLineBytes - w && 0 < lim.maxLineBytes - w
    requires LinesShorterThan(whole, lim.maxLineBytes - w) && Seen(st) + Data(op) <= whole
    requires |st.buf| < lim.maxLineBytes - w
    ensures |AfterOp(lim, st, op).buf| < lim.maxLineBytes - w
    ensures CleanExtension(st.chunks, AfterOp(lim, st, op).chunks)
  {
    var fuller := Stream(st.chunks, st.buf + Data(op));
    assert Seen(fuller) == Seen(st) + Data(op);
    CutCompleteIsClean(fuller, lim.maxLineBytes - w, whole);
    assert op.Tick? ==> fuller == st;
  }

  /** The buffer always holds less than maxLineBytes - w, so no write reaches the ceiling. */
  lemma {:induction false} NoForcedCut(lim: Limits, ops: seq<Op>, w: nat, whole: string)
    requires WritesAtMost(ops, w) && Written(ops) <= whole
    requires lim.flushBytes <= lim.maxLineBytes - w && 0 < lim.maxLineBytes - w
    requires LinesShorterThan(whole, lim.maxLineBytes - w)
    ensures var st := Replay(lim, ops);
            |st.buf| < lim.maxLineBytes - w && forall i :: 0 <= i < |st.chunks| ==> EndsLine(st.chunks[i])
  {
    if ops != [] {
      var front, op := ops[..|ops| - 1], ops[|ops| - 1];
      var before, after := Replay(lim, front), Replay(lim, ops);
      assert Written(front) <= Written(ops);
      NoForcedCut(lim, front, w, whole);
      ReplayKeepsStream(lim, front);
      OpCutsNoLine(lim, before, op, w, whole);
      forall i | 0 <= i < |after.chunks|
        ensures EndsLine(after.chunks[i])
      {
        assert i < |before.chunks| ==> after.chunks[i] == before.chunks[i];
      }
    }
  }

  /** Chunk boundaries and flush timing do not matter. With writes of at most w bytes, every line
      shorter than maxLineBytes - w, and flushBytes no larger than that, the lines shipped over any
      interleaving of writes and ticks and a final flush are the lines of the whole output. */
  lemma FlushTimingDoesNotMatter(lim: Limits, ops: seq<Op>, w: nat)
    requires WritesAtMost(ops, w)
    requires lim.flushBytes <= lim.maxLineBytes - w && 0 < lim.maxLineBytes - w
    requires LinesShorterThan(Written(ops), lim.maxLineBytes - w)
    ensures CutLines(CutAll(Replay(lim, ops)).chunks) == Lines(Written(ops))
  {
    NoForcedCut(lim, ops, w, Written(ops));
    LinesKeptIffCutsClean(lim, ops);
  }

  // ---------------------------------------------------------------------------------------
  // When one is
  // ---------------------------------------------------------------------------------------

  /** The thresholds of NewLogPusher: 4 KiB and 256 KiB. */
  const DEFAULT_LIMITS := Limits(4_096, 262_144)

  /** With them, writes of up to 32 KiB and lines of less than 224 KiB are enough. */
  lemma DefaultsKeepLines(ops: seq<Op>)
    requires WritesAtMost(ops, 32_768) && LinesShorterThan(Written(ops), 229_376)
    ensures CutLines(CutAll(Replay(DEFAULT_LIMITS, ops)).chunks) == Lines(Written(ops))
  {
    FlushTimingDoesNotMatter(DEFAULT_LIMITS, ops, 32_768);
  }

  /** Chunk k does not end a line, and the stream up to and including it is `at` bytes long. */
  ghost predicate UncleanAt(chunks: seq<string>, k: nat, at: nat) {
    k < |chunks| && !EndsLine(chunks[k]) && |Concat(chunks[..k + 1])| == at
  }

  /** Write i reaches the ceiling with an unended line buffered, after `at` bytes of output. */
  ghost predicate ForcedAt(lim: Limits, ops: seq<Op>, i: nat, at: nat) {
    && i < |ops| && ops[i].Write?
    && var buffered := Replay(lim, ops[..i]).buf + ops[i].data;
       |buffered| >= lim.maxLineBytes && !EndsLine(buffered) && |Written(ops[..i + 1])| == at
  }

  ghost predicate Unclean(chunks: seq<string>, at: nat) {
    exists k: nat :: UncleanAt(chunks, k, at)
  }

  ghost predicate Forced(lim: Limits, ops: seq<Op>, at: nat) {
    exists i: nat :: ForcedAt(lim, ops, i, at)
  }

  /** A cut inside a line is a write that reached the ceiling, and the other way round. */
  lemma {:induction false} UncleanIffForced(lim: Limits, ops: seq<Op>, at: nat)
    ensures Unclean(Replay(lim, ops).chunks, at) <==> Forced(lim, ops, at)
  {
    if ops != [] {
      var front, op := ops[..|ops| - 1], ops[|ops| - 1];
      UncleanIffForced(lim, front, at);
      ForcedBefore(lim, ops, at);
      OneMoreCut(lim, Replay(lim, front), op, at);
    }
  }

  ghost predicate CutsLine(lim: Limits, st: Stream, op: Op, at: nat) {
    op.Write? && |st.buf + op.data| >= lim.maxLineBytes && !EndsLine(st.buf + op.data)
    && |Seen(st) + op.data| == at
  }

  lemma ForcedBefore(lim: Limits, ops: seq<Op>, at: nat)
    requires ops != []
    ensures var front := ops[..|ops| - 1];
            Forced(lim, ops, at) <==> Forced(lim, front, at) || CutsLine(lim, Replay(lim, front), ops[|front|], at)
  {
    var front, last := ops[..|ops| - 1], |ops| - 1;
    forall i | 0 <= i < |front|
      ensures ForcedAt(lim, ops, i, at) <==> ForcedAt(lim, front, i, at)
    {
      assert front[..i] == ops[..i] && front[..i + 1] == ops[..i + 1] && front[i] == ops[i];
    }
    ReplayKeepsStream(lim, front);
    assert ops[..last + 1] == ops;
    assert ForcedAt(lim, ops, last, at) <==> CutsLine(lim, Replay(lim, front), ops[last], at);
    if Forced(lim, ops, at) {
      var i: nat :| ForcedAt(lim, ops, i, at);
      assert i < last ==> ForcedAt(lim, front, i, at);
    }
  }

  lemma OneMoreCut(lim: Limits, st: Stream, op: Op, at: nat)
    ensures Unclean(AfterOp(lim, st, op).chunks, at) <==> Unclean(st.chunks, at) || CutsLine(lim, st, op, at)
  {
    var chunks, st' := st.chunks, AfterOp(lim, st, op);
    OpKeepsStream(lim, st, op);
    assert chunks <= st'.chunks && |st'.chunks| <= |chunks| + 1;
    forall k | 0 <= k < |chunks|
      ensures UncleanAt(st'.chunks, k, at) <==> UncleanAt(chunks, k, at)
    {
      assert chunks[..k + 1] == st'.chunks[..k + 1];
    }
    if |st'.chunks| > |chunks| {
      assert st'.chunks[..|chunks| + 1] == st'.chunks;
      LastCut(lim, st, op, at);
    }
  }

  lemma LastCut(lim: Limits, st: Stream, op: Op, at: nat)
    requires |AfterOp(lim, st, op).chunks| == |st.chunks| + 1
    ensures UncleanAt(AfterOp(lim, st, op).chunks, |st.chunks|, at) <==> CutsLine(lim, st, op, at)
  {
    var st' := AfterOp(lim, st, op);
    OpKeepsStream(lim, st, op);
    assert st'.chunks[..|st.chunks| + 1] == st'.chunks;
    if op.Write? && |st.buf + op.data| >= lim.maxLineBytes {
      var fuller := Stream(st.chunks, st.buf + op.data);
      CutAllEmpties(fuller);
      assert Seen(fuller) == Seen(st) + op.data;
      assert fuller.buf[..|fuller.buf|] == fuller.buf;
    }
  }

  lemma ConcatGrows(chunks: seq<string>, k: nat)
    requires NonEmpty(chunks) && k < |chunks|
    ensures |Concat(chunks[..k + 1])| <= |Concat(chunks)|
    ensures |Concat(chunks[..k + 1])| == |Concat(chunks)| <==> k == |chunks| - 1
    decreases |chunks|
  {
    if k == |chunks| - 1 {
      assert chunks[..k + 1] == chunks;
    } else {
      var front := chunks[..|chunks| - 1];
      assert front[..k + 1] == chunks[..k + 1];
      ConcatGrows(front, k);
    }
  }

  /** Chunks are clean up to the last exactly when no unclean one ends before the stream does. */
  lemma CleanIffNoneUnclean(chunks: seq<string>)
    requires NonEmpty(chunks)
    ensures CleanCuts(chunks) <==> forall at: nat :: Unclean(chunks, at) ==> at == |Concat(chunks)|
  {
    forall k | 0 <= k < |chunks| && !EndsLine(chunks[k])
      ensures |Concat(chunks[..k + 1])| == |Concat(chunks)| <==> k == |chunks| - 1
    {
      ConcatGrows(chunks, k);
    }
    if !CleanCuts(chunks) {
      var k :| 0 <= k < |chunks| - 1 && !EndsLine(chunks[k]);
      assert UncleanAt(chunks, k, |Concat(chunks[..k + 1])|);
      assert Unclean(chunks, |Concat(chunks[..k + 1])|);
    }
  }

  lemma UncleanOfCutAll(st: Stream, at: nat)
    requires at != |Seen(st)|
    ensures Unclean(CutAll(st).chunks, at) <==> Unclean(st.chunks, at)
  {
    var all := CutAll(st).chunks;
    CutAllEmpties(st);
    forall k | 0 <= k < |st.chunks|
      ensures UncleanAt(all, k, at) <==> UncleanAt(st.chunks, k, at)
    {
      assert all[..k + 1] == st.chunks[..k + 1];
    }
    assert all[..|all|] == all;
    assert forall k: nat :: UncleanAt(all, k, at) ==> k < |st.chunks|;
  }

  /** Without those bounds, the law holds if and only if no write reached the ceiling with an
      unended line buffered before the last byte of the output. */
  lemma LinesKeptIffNoForcedCut(lim: Limits, ops: seq<Op>)
    ensures CutLines(CutAll(Replay(lim, ops)).chunks) == Lines(Written(ops)) <==>
            forall at: nat :: Forced(lim, ops, at) ==> at == |Written(ops)|
  {
    var st := Replay(lim, ops);
    LinesKeptIffCutsClean(lim, ops);
    ReplayKeepsStream(lim, ops);
    CutAllEmpties(st);
    CleanIffNoneUnclean(CutAll(st).chunks);
    forall at: nat | at != |Written(ops)|
      ensures Unclean(CutAll(st).chunks, at) <==> Forced(lim, ops, at)
    {
      UncleanOfCutAll(st, at);
      UncleanIffForced(lim, ops, at);
    }
  }

  /** The lines shipped are those of the output exactly when every cut but the last is clean. */
  lemma LinesKeptIffCutsClean(lim: Limits, ops: seq<Op>)
    ensures var st := CutAll(Replay(lim, ops));
            CutLines(st.chunks) == Lines(Written(ops)) <==> CleanCuts(st.chunks)
  {
    ReplayKeepsStream(lim, ops);
    CutAllEmpties(Replay(lim, ops));
    CutLinesExact(CutAll(Replay(lim, ops)).chunks);
  }

  /** It does not hold always: a line that reaches the ceiling is shipped in pieces. */
  lemma CeilingSplitsALine()
    ensures var lim, ops := Limits(1, 2), [Write("ab"), Write("c")];
            CutLines(CutAll(Replay(lim, ops)).chunks) != Lines(Written(ops))
  {
    var lim, ops := Limits(1, 2), [Write("ab"), Write("c")];
    assert ops[..0] == [] && ops[..1] == [Write("ab")] && [Write("ab")][..0] == [];
    assert Written([Write("ab")]) == "" + "ab" == "ab" && "" + "ab" == "ab";
    assert Written(ops) == "ab" + "c" && |Written(ops)| == 3;
    assert ForcedAt(lim, ops, 0, 2) && Forced(lim, ops, 2);
    LinesKeptIffNoForcedCut(lim, ops);
  }
}
