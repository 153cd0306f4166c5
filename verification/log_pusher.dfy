/** LogPusher of internal/agent/runner.go: lines that could not be sent wait in order, the oldest
    are dropped when there are too many, and the number dropped is reported.

    A failed AppendLogBulk is taken to store nothing. Masking is an uninterpreted function of the
    line.
  */
module LogAccounting {

  /** What the controller stores for one pusher: its lines, and the pusher's own two notices. */
  datatype Entry = Line(text: string) | Dropped(count: nat) | SplitNotice

  function AsEntries(lines: seq<string>): seq<Entry> {
    seq(|lines|, i requires 0 <= i < |lines| => Line(lines[i]))
  }

  function LinesOf(log: seq<Entry>): seq<string> {
    if log == [] then []
    else LinesOf(log[..|log| - 1]) + match log[|log| - 1] case Line(text) => [text] case _ => []
  }

  /** The losses the stored notices admit to. */
  function Reported(log: seq<Entry>): nat {
    if log == [] then 0
    else Reported(log[..|log| - 1]) + match log[|log| - 1] case Dropped(n) => n case _ => 0
  }

  function Notices(log: seq<Entry>): nat {
    if log == [] then 0 else Notices(log[..|log| - 1]) + if log[|log| - 1].SplitNotice? then 1 else 0
  }

  function Flatten(batches: seq<seq<string>>): seq<string> {
    if batches == [] then [] else batches[0] + Flatten(batches[1..])
  }

  /** The lines whose mark is true, in order. */
  function Survivors(lines: seq<string>, kept: seq<bool>): seq<string>
    requires |lines| == |kept|
  {
    if lines == [] then []
    else
      var n := |lines| - 1;
      Survivors(lines[..n], kept[..n]) + if kept[n] then [lines[n]] else []
  }

  function Lost(kept: seq<bool>): nat {
    if kept == [] then 0 else Lost(kept[..|kept| - 1]) + if kept[|kept| - 1] then 0 else 1
  }

  /** Every line cut from the stream is accounted for. `kept` marks, oldest first, the lines that
      have left the queue: those stored by the controller and those dropped. The stored lines are
      the kept ones in the order they were emitted, the queue is exactly the lines after those, and
      the dropped ones are counted or already reported. */
  ghost predicate Accounted(cut: seq<string>, pending: seq<seq<string>>, kept: seq<bool>, log: seq<Entry>, dropped: nat) {
    && |kept| <= |cut|
    && Flatten(pending) == cut[|kept|..]
    && LinesOf(log) == Survivors(cut[..|kept|], kept)
    && Lost(kept) == dropped + Reported(log)
  }

  function Marks(n: nat, mark: bool): seq<bool> {
    seq(n, _ => mark)
  }

  lemma {:induction false} LogOfBatch(log: seq<Entry>, lines: seq<string>)
    ensures LinesOf(log + AsEntries(lines)) == LinesOf(log) + lines
    ensures Reported(log + AsEntries(lines)) == Reported(log)
    ensures Notices(log + AsEntries(lines)) == Notices(log)
  {
    var batch := AsEntries(lines);
    if lines == [] {
      assert log + batch == log;
    } else {
      var n := |lines| - 1;
      LogOfBatch(log, lines[..n]);
      assert (log + batch)[..|log + batch| - 1] == log + AsEntries(lines[..n]);
      assert lines == lines[..n] + [lines[n]];
    }
  }

  lemma {:induction false} SurvivorsOfBatch(a: seq<string>, kept: seq<bool>, b: seq<string>, mark: bool)
    requires |a| == |kept|
    ensures Survivors(a + b, kept + Marks(|b|, mark)) == Survivors(a, kept) + if mark then b else []
    ensures Lost(kept + Marks(|b|, mark)) == Lost(kept) + if mark then 0 else |b|
  {
    if b == [] {
      assert a + b == a && kept + Marks(0, mark) == kept;
    } else {
      var n := |b| - 1;
      SurvivorsOfBatch(a, kept, b[..n], mark);
      assert (a + b)[..|a| + n] == a + b[..n];
      assert (kept + Marks(|b|, mark))[..|a| + n] == kept + Marks(n, mark);
      assert b == b[..n] + [b[n]];
    }
  }

  lemma {:induction false} FlattenSnoc(batches: seq<seq<string>>, batch: seq<string>)
    ensures Flatten(batches + [batch]) == Flatten(batches) + batch
  {
    if batches == [] {
      assert [batch][1..] == [];
    } else {
      assert (batches + [batch])[1..] == batches[1..] + [batch];
      FlattenSnoc(batches[1..], batch);
    }
  }

  /** The oldest batch leaves the queue: stored (mark) or dropped. */
  lemma OldestLeaves(cut: seq<string>, pending: seq<seq<string>>, kept: seq<bool>, log: seq<Entry>, dropped: nat, mark: bool)
    requires Accounted(cut, pending, kept, log, dropped) && pending != []
    ensures var n := |pending[0]|;
            Accounted(cut, pending[1..], kept + Marks(n, mark),
                      if mark then log + AsEntries(pending[0]) else log,
                      if mark then dropped else dropped + n)
    ensures mark ==> Lost(kept + Marks(|pending[0]|, mark)) == Lost(kept)
    ensures Notices(log + AsEntries(pending[0])) == Notices(log)
  {
    var batch, k := pending[0], |kept|;
    var done := k + |batch|;
    assert cut[k..][..|batch|] == batch;
    assert cut[..done] == cut[..k] + batch;
    assert cut[done..] == cut[k..][|batch|..];
    LogOfBatch(log, batch);
    SurvivorsOfBatch(cut[..k], kept, batch, mark);
  }

  lemma NewBatchWaits(cut: seq<string>, pending: seq<seq<string>>, kept: seq<bool>, log: seq<Entry>, dropped: nat, batch: seq<string>)
    requires Accounted(cut, pending, kept, log, dropped)
    ensures Accounted(cut + batch, pending + [batch], kept, log, dropped)
  {
    FlattenSnoc(pending, batch);
    assert (cut + batch)[|kept|..] == cut[|kept|..] + batch;
    assert (cut + batch)[..|kept|] == cut[..|kept|];
  }

  lemma NoticeStored(cut: seq<string>, pending: seq<seq<string>>, kept: seq<bool>, log: seq<Entry>, dropped: nat)
    requires Accounted(cut, pending, kept, log, dropped)
    ensures Accounted(cut, pending, kept, log + [Dropped(dropped)], 0)
    ensures Accounted(cut, pending, kept, log + [SplitNotice], dropped)
    ensures Notices(log + [Dropped(dropped)]) == Notices(log) && Notices(log + [SplitNotice]) == Notices(log) + 1
  {
  }

  /** Conservation: every line cut is stored, waiting, counted as dropped, or reported dropped. */
  lemma Conservation(cut: seq<string>, pending: seq<seq<string>>, kept: seq<bool>, log: seq<Entry>, dropped: nat)
    requires Accounted(cut, pending, kept, log, dropped)
    ensures |cut| == |LinesOf(log)| + |Flatten(pending)| + dropped + Reported(log)
    ensures dropped + Reported(log) == 0 ==> LinesOf(log) + Flatten(pending) == cut
  {
    SurvivorCount(cut[..|kept|], kept);
    assert cut == cut[..|kept|] + cut[|kept|..];
  }

  /** Nothing is stored or waits that was not cut. */
  lemma AccountedAreCut(cut: seq<string>, pending: seq<seq<string>>, kept: seq<bool>, log: seq<Entry>, dropped: nat, line: string)
    requires Accounted(cut, pending, kept, log, dropped) && (line in LinesOf(log) || line in Flatten(pending))
    ensures line in cut
  {
    if line in LinesOf(log) {
      SurvivorsAreLines(cut[..|kept|], kept, line);
    }
  }

  lemma {:induction false} SurvivorsAreLines(lines: seq<string>, kept: seq<bool>, line: string)
    requires |lines| == |kept| && line in Survivors(lines, kept)
    ensures line in lines
    decreases |lines|
  {
    var last := |lines| - 1;
    if lines != [] && line in Survivors(lines[..last], kept[..last]) {
      SurvivorsAreLines(lines[..last], kept[..last], line);
    }
  }

  lemma {:induction false} SurvivorCount(lines: seq<string>, kept: seq<bool>)
    requires |lines| == |kept|
    ensures |Survivors(lines, kept)| + Lost(kept) == |lines|
    ensures Lost(kept) == 0 ==> Survivors(lines, kept) == lines
  {
    if lines != [] {
      var n := |lines| - 1;
      SurvivorCount(lines[..n], kept[..n]);
      assert lines == lines[..n] + [lines[n]];
    }
  }

  function BytesOf(lines: seq<string>): nat {
    if lines == [] then 0 else BytesOf(lines[..|lines| - 1]) + |lines[|lines| - 1]|
  }

  function PendingBytes(batches: seq<seq<string>>): nat {
    if batches == [] then 0 else PendingBytes(batches[..|batches| - 1]) + BytesOf(batches[|batches| - 1])
  }

  /** Taking the oldest batch off the queue takes exactly its bytes off. */
  lemma {:induction false} PendingBytesOfRest(batches: seq<seq<string>>)
    requires batches != []
    ensures PendingBytes(batches[1..]) + BytesOf(batches[0]) == PendingBytes(batches)
  {
    if |batches| == 1 {
      assert batches[..0] == [] && batches[1..] == [];
    } else {
      var n := |batches| - 1;
      assert batches[1..][..n - 1] == batches[..n][1..];
      PendingBytesOfRest(batches[..n]);
    }
  }
}

module LogPushing {
  import opened LogLines
  import opened LogAccounting

  /** The controller's store of one pusher's records. */
  class Controller {
    var log: seq<Entry>

    /** How many calls have failed. */
    ghost var failures: nat

    constructor ()
      ensures log == [] && failures == 0
    {
      log, failures := [], 0;
    }

    /** AppendLogBulk: stores the whole batch, or fails and stores nothing. */
    method Append(batch: seq<Entry>) returns (ok: bool)
      modifies this
      ensures log == if ok then old(log) + batch else old(log)
      ensures failures == if ok then old(failures) else old(failures) + 1
    {
      ok := *;
      if ok {
        log := log + batch;
      } else {
        failures := failures + 1;
      }
    }
  }

  class LogPusher {
    const client: Controller
    const limits: Limits
    const maxPendingBytes: nat
    const mask: string -> string

    var buf: string
    var pending: seq<seq<string>>
    var droppedLines: nat

    /** The chunks cut off the stream so far, and the fate of the lines that left the queue. */
    ghost var chunks: seq<string>
    ghost var kept: seq<bool>

    constructor (client: Controller, limits: Limits, maxPendingBytes: nat, mask: string -> string)
      requires client.log == []
      ensures this.client == client && this.limits == limits && this.mask == mask
      ensures this.maxPendingBytes == maxPendingBytes
      ensures Valid() && Streamed() == Stream([], "")
    {
      this.client, this.limits, this.maxPendingBytes, this.mask := client, limits, maxPendingBytes, mask;
      buf, pending, droppedLines := "", [], 0;
      chunks, kept := [], [];
    }

    ghost function Streamed(): Stream
      reads this
    {
      Stream(chunks, buf)
    }

    function Masked(lines: seq<string>): seq<string> {
      seq(|lines|, i requires 0 <= i < |lines| => mask(lines[i]))
    }

    lemma MaskedCut(chunks: seq<string>, chunk: string)
      requires chunk != ""
      ensures Masked(CutLines(chunks + [chunk])) == Masked(CutLines(chunks)) + Masked(Lines(chunk))
      ensures CutAll(Stream(chunks, chunk)) == Stream(chunks + [chunk], "")
    {
      assert (chunks + [chunk])[..|chunks|] == chunks;
      assert chunk[..|chunk|] == chunk && chunk[|chunk|..] == "";
    }

    /** Every line cut so far is accounted for, and the queue is within its cap or is one batch. */
    ghost predicate Valid()
      reads this, client
    {
      && Accounted(Masked(CutLines(chunks)), pending, kept, client.log, droppedLines)
      && (|pending| <= 1 || PendingBytes(pending) <= maxPendingBytes)
    }

    /** Since the counts given, either some call failed or nothing was lost. */
    ghost predicate LossMeansFailure(failures: nat, lost: nat)
      reads this, client
    {
      failures <= client.failures && (failures == client.failures ==> Lost(kept) == lost)
    }

    /** Nothing waits and no loss is left to report. */
    predicate Settled()
      reads this
    {
      pending == [] && droppedLines == 0
    }

    /** flushPendingLocked: oldest first, stopping at the first failure. */
    method FlushPending() returns (drained: bool)
      requires Valid()
      modifies this`pending, this`kept, client
      ensures Valid() && (drained <==> pending == [])
      ensures client.failures == old(client.failures) + if drained then 0 else 1
      ensures LossMeansFailure(old(client.failures), old(Lost(kept)))
      ensures Notices(client.log) == old(Notices(client.log))
    {
      while |pending| > 0
        invariant Valid() && client.failures == old(client.failures) && Lost(kept) == old(Lost(kept))
        invariant Notices(client.log) == old(Notices(client.log))
      {
        OldestLeaves(Masked(CutLines(chunks)), pending, kept, client.log, droppedLines, true);
        var ok := client.Append(AsEntries(pending[0]));
        if !ok {
          return false;
        }
        PendingBytesOfRest(pending);
        kept := kept + Marks(|pending[0]|, true);
        pending := pending[1..];
      }
      return true;
    }

    /** appendPendingLocked: the newest batch always stays. */
    method AppendPending(batch: seq<string>)
      requires Accounted(Masked(CutLines(chunks)), pending + [batch], kept, client.log, droppedLines)
      modifies this`pending, this`kept, this`droppedLines
      ensures Valid() && pending != [] && pending[|pending| - 1] == batch
      ensures exists k: nat :: NoMoreThanNeeded(old(pending) + [batch], k, pending)
    {
      pending := pending + [batch];
      ghost var k, queue := 0, pending;
      var size := PendingSizeBytes();
      while |pending| > 1 && size > maxPendingBytes
        invariant size == PendingBytes(pending)
        invariant Accounted(Masked(CutLines(chunks)), pending, kept, client.log, droppedLines)
        invariant NoMoreThanNeeded(queue, k, pending)
      {
        OneMoreNeeded(queue, k, pending);
        DropOldest();
        k := k + 1;
        size := PendingSizeBytes();
      }
      assert pending[|pending| - 1] == queue[|queue| - 1];
    }

    /** The oldest batch is discarded, and its lines counted. */
    method DropOldest()
      requires Accounted(Masked(CutLines(chunks)), pending, kept, client.log, droppedLines) && pending != []
      modifies this`pending, this`kept, this`droppedLines
      ensures Accounted(Masked(CutLines(chunks)), pending, kept, client.log, droppedLines)
      ensures pending == old(pending)[1..] && droppedLines == old(droppedLines) + |old(pending)[0]|
    {
      OldestLeaves(Masked(CutLines(chunks)), pending, kept, client.log, droppedLines, false);
      kept := kept + Marks(|pending[0]|, false);
      droppedLines := droppedLines + |pending[0]|;
      pending := pending[1..];
    }

    /** pendingSizeBytes. */
    method PendingSizeBytes() returns (total: nat)
      ensures total == PendingBytes(pending)
    {
      total := 0;
      for i := 0 to |pending|
        invariant total == PendingBytes(pending[..i])
      {
        assert pending[..i + 1][..i] == pending[..i];
        for j := 0 to |pending[i]|
          invariant total == PendingBytes(pending[..i]) + BytesOf(pending[i][..j])
        {
          assert pending[i][..j + 1][..j] == pending[i][..j];
          total := total + |pending[i][j]|;
        }
        assert pending[i][..|pending[i]|] == pending[i];
      }
      assert pending[..|pending|] == pending;
    }

    /** The queue lost its k oldest batches, and keeping one more of them would exceed the cap. */
    ghost predicate NoMoreThanNeeded(queue: seq<seq<string>>, k: nat, left: seq<seq<string>>) {
      k < |queue| && left == queue[k..] && (k > 0 ==> PendingBytes(queue[k - 1..]) > maxPendingBytes)
    }

    lemma OneMoreNeeded(queue: seq<seq<string>>, k: nat, left: seq<seq<string>>)
      requires NoMoreThanNeeded(queue, k, left) && |left| > 1 && PendingBytes(left) > maxPendingBytes
      ensures NoMoreThanNeeded(queue, k + 1, left[1..])
    {
    }

    /** flushLocked: the backlog first, then everything buffered, then the drop notice. */
    method FlushAll()
      requires Valid()
      modifies this`pending, this`kept, this`droppedLines, this`buf, this`chunks, client
      ensures Valid() && Streamed() == CutAll(old(Streamed()))
      ensures LossMeansFailure(old(client.failures), old(Lost(kept)))
      ensures client.failures == old(client.failures) ==> Settled()
      ensures client.failures <= old(client.failures) + 1
      ensures Notices(client.log) == old(Notices(client.log))
    {
      var drained := FlushPending();
      if |buf| > 0 {
        SendBuffer(drained);
      }
      ReportDropped();
    }

    /** The drop notice, if nothing is left waiting; the count is reset only once it is stored. */
    method ReportDropped()
      requires Valid()
      modifies this`droppedLines, client
      ensures Valid()
      ensures client.failures == old(client.failures) && pending == [] ==> droppedLines == 0
      ensures old(client.failures) <= client.failures <= old(client.failures) + if pending == [] then 1 else 0
      ensures Notices(client.log) == old(Notices(client.log))
    {
      if |pending| == 0 && droppedLines > 0 {
        NoticeStored(Masked(CutLines(chunks)), pending, kept, client.log, droppedLines);
        var ok := client.Append([Dropped(droppedLines)]);
        if ok {
          droppedLines := 0;
        }
      }
    }

    /** The buffer becomes one batch; it is sent only if nothing older waits. */
    method SendBuffer(drained: bool)
      requires Valid() && buf != "" && (drained <==> pending == [])
      modifies this`pending, this`kept, this`droppedLines, this`buf, this`chunks, client
      ensures Valid() && Streamed() == CutAll(old(Streamed()))
      ensures drained ==> LossMeansFailure(old(client.failures), old(Lost(kept)))
      ensures drained && client.failures == old(client.failures) ==> pending == []
      ensures !drained ==> client.failures == old(client.failures) && pending != []
      ensures old(client.failures) <= client.failures <= old(client.failures) + 1
      ensures client.failures > old(client.failures) ==> pending != []
      ensures Notices(client.log) == old(Notices(client.log))
    {
      var chunk := buf;
      buf := "";
      var lines := SplitLines(chunk);
      var reqs := Masked(lines);
      MaskedCut(chunks, chunk);
      NewBatchWaits(Masked(CutLines(chunks)), pending, kept, client.log, droppedLines, reqs);
      chunks := chunks + [chunk];
      if |lines| > 0 {
        Dispatch(reqs, drained);
      } else {
        FlattenSnoc(pending, reqs);
      }
    }

    /** A new batch is sent if nothing older waits; otherwise, or if that fails, it waits. */
    method Dispatch(reqs: seq<string>, drained: bool)
      requires Accounted(Masked(CutLines(chunks)), pending + [reqs], kept, client.log, droppedLines)
      requires drained <==> pending == []
      modifies this`pending, this`kept, this`droppedLines, client
      ensures Valid() && (drained ==> LossMeansFailure(old(client.failures), old(Lost(kept))))
      ensures drained && client.failures == old(client.failures) ==> pending == []
      ensures !drained ==> client.failures == old(client.failures) && pending != []
      ensures old(client.failures) <= client.failures <= old(client.failures) + 1
      ensures client.failures > old(client.failures) ==> pending != []
      ensures Notices(client.log) == old(Notices(client.log))
    {
      if !drained {
        AppendPending(reqs);
        return;
      }
      assert pending + [reqs] == [reqs] && [reqs][1..] == [];
      OldestLeaves(Masked(CutLines(chunks)), [reqs], kept, client.log, droppedLines, true);
      var ok := client.Append(AsEntries(reqs));
      if ok {
        kept := kept + Marks(|reqs|, true);
      } else {
        AppendPending(reqs);
      }
    }

    /** flushCompleteLinesLocked: only up to the last newline. */
    method FlushComplete()
      requires Valid()
      modifies this`pending, this`kept, this`droppedLines, this`buf, this`chunks, client
      ensures Valid() && Streamed() == CutComplete(old(Streamed()))
      ensures LossMeansFailure(old(client.failures), old(Lost(kept)))
      ensures client.failures == old(client.failures) ==> pending == []
      ensures '\n' !in buf
      ensures Notices(client.log) == old(Notices(client.log))
    {
      var n := CompleteLength(buf);
      if n == 0 {
        if |pending| > 0 {
          var drained := FlushPending();
        }
        return;
      }
      var tail := buf[n..];
      buf := buf[..n];
      FlushAll();
      assert old(buf)[..n][..n] == old(buf)[..n];
      buf := buf + tail;
    }

    /** flushForcedLocked: everything, and a notice if that cut a line. */
    method FlushForced()
      requires Valid()
      modifies this`pending, this`kept, this`droppedLines, this`buf, this`chunks, client
      ensures Valid() && Streamed() == CutAll(old(Streamed()))
      ensures LossMeansFailure(old(client.failures), old(Lost(kept)))
      ensures client.failures == old(client.failures) ==> Settled()
      ensures client.failures == old(client.failures) && !EndsLine(old(buf)) ==>
                client.log != [] && client.log[|client.log| - 1] == SplitNotice
      ensures EndsLine(old(buf)) || pending != [] ==> Notices(client.log) == old(Notices(client.log))
      ensures Notices(client.log) <= old(Notices(client.log)) + 1
    {
      var partial := |buf| > 0 && buf[|buf| - 1] != '\n';
      FlushAll();
      if !partial || |pending| > 0 {
        return;
      }
      NoticeStored(Masked(CutLines(chunks)), pending, kept, client.log, droppedLines);
      var ok := client.Append([SplitNotice]);
    }

    /** Write: what is cut depends only on the bytes written, never on what the controller answers,
        and less than maxLineBytes stays buffered. */
    method Write(data: string)
      requires Valid() && limits.maxLineBytes > 0
      modifies this`pending, this`kept, this`droppedLines, this`buf, this`chunks, client
      ensures Notices(client.log) != old(Notices(client.log)) ==>
                |old(buf) + data| >= limits.maxLineBytes && !EndsLine(old(buf) + data)
      ensures Valid() && Streamed() == AfterWrite(limits, old(Streamed()), data)
      ensures |buf| < limits.maxLineBytes && (|buf| < limits.flushBytes || '\n' !in buf)
      ensures LossMeansFailure(old(client.failures), old(Lost(kept)))
    {
      buf := buf + data;
      if |buf| >= limits.maxLineBytes {
        FlushForced();
      } else if |buf| >= limits.flushBytes {
        FlushComplete();
      }
    }

    /** Flush: everything left, then up to three more attempts, unless time runs out. Lines are left
        waiting only if time ran out or all four attempts failed. */
    method Flush() returns (timedOut: bool)
      requires Valid()
      modifies this`pending, this`kept, this`droppedLines, this`buf, this`chunks, client
      ensures Valid() && Streamed() == CutAll(old(Streamed()))
      ensures LossMeansFailure(old(client.failures), old(Lost(kept)))
      ensures client.failures == old(client.failures) ==> Settled()
      ensures pending != [] && !timedOut ==> client.failures == old(client.failures) + 4
      ensures client.failures <= old(client.failures) + 4
      ensures Notices(client.log) == old(Notices(client.log))
    {
      FlushAll();
      CutAllEmpties(old(Streamed()));
      timedOut := false;
      var i := 0;
      while i < 3 && |pending| > 0
        invariant 0 <= i <= 3 && Valid() && Streamed() == CutAll(old(Streamed()))
        invariant LossMeansFailure(old(client.failures), old(Lost(kept)))
        invariant client.failures == old(client.failures) ==> Settled()
        invariant client.failures <= old(client.failures) + 1 + i && Notices(client.log) == old(Notices(client.log))
        invariant pending != [] ==> client.failures == old(client.failures) + 1 + i
        decreases 3 - i
      {
        timedOut := *;
        if timedOut {
          return;
        }
        FlushAll();
        i := i + 1;
      }
    }

    /** A whole step: any interleaving of writes and ticks, then Flush. If no call fails, the stored
        lines are the lines cut, each masked; and if no cut was forced either, they are the lines
        written. Lines are left waiting only after four failed calls, or if time ran out. */
    method Run(ops: seq<Op>) returns (timedOut: bool)
      requires Valid() && Streamed() == Stream([], "") && limits.maxLineBytes > 0
      modifies this`pending, this`kept, this`droppedLines, this`buf, this`chunks, client
      ensures Valid() && Streamed() == CutAll(Replay(limits, ops))
      ensures |CutLines(chunks)| == |LinesOf(client.log)| + |Flatten(pending)| + droppedLines + Reported(client.log)
      ensures CutLines(chunks) == Lines(Written(ops)) <==>
              forall at: nat :: Forced(limits, ops, at) ==> at == |Written(ops)|
      ensures client.failures == old(client.failures) ==>
                Settled() && |LinesOf(client.log)| == |CutLines(chunks)|
                && forall i :: 0 <= i < |CutLines(chunks)| ==> LinesOf(client.log)[i] == mask(CutLines(chunks)[i])
      ensures pending != [] && !timedOut ==> client.failures >= old(client.failures) + 4
      ensures forall line :: line in LinesOf(client.log) || line in Flatten(pending) ==>
                exists i :: 0 <= i < |CutLines(chunks)| && line == mask(CutLines(chunks)[i])
    {
      for i := 0 to |ops|
        invariant Valid() && Streamed() == Replay(limits, ops[..i])
        invariant LossMeansFailure(old(client.failures), old(Lost(kept)))
      {
        assert ops[..i + 1][..i] == ops[..i];
        match ops[i]
        case Write(data) => Write(data);
        case Tick => FlushComplete();
      }
      assert ops[..|ops|] == ops;
      timedOut := Flush();
      forall line | line in LinesOf(client.log) || line in Flatten(pending)
        ensures exists i :: 0 <= i < |CutLines(chunks)| && line == mask(CutLines(chunks)[i])
      {
        AccountedAreCut(Masked(CutLines(chunks)), pending, kept, client.log, droppedLines, line);
        var i :| 0 <= i < |CutLines(chunks)| && Masked(CutLines(chunks))[i] == line;
      }
      Conservation(Masked(CutLines(chunks)), pending, kept, client.log, droppedLines);
      assert old(kept) == [];
      LinesKeptIffNoForcedCut(limits, ops);
    }
  }
}
