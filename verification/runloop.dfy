/** The body of the `while (g_running)` loop of `run_anonymizer`
    (src/anonymizer.cpp) and runs of it, with the bookkeeping that the
    at-least-once argument needs: how many records were consumed, up to
    which record the last commit asked the consumer position to move, and
    which batches the sink accepted. */
module RunLoop {
  import opened Text
  import opened Sink
  import opened RowRender
  import opened Coordinator

  /** What `consumer.poll(100ms)` returned: nothing, an error event, or a
      record (decoding is not part of this model). */
  datatype Poll = NoMessage | ConsumerError(reason: string) | Record(record: HttpLogRecord)

  /** The inputs of one loop iteration: the shutdown flag read at the top,
      the clock reading passed to `try_flush`, what a send would observe and
      the clock reading after a failed send, the poll result, and the clock
      reading of the size-limit check. */
  datatype Tick = Tick(running: bool, now: nat, transport: Transport, nowErr: nat, poll: Poll, now2: nat)

  /** The coordinator state plus the consumer's view: records consumed so
      far, the position the last `commitCurrent` call asked the broker to
      store (counted in records; a failed commit leaves the broker's own
      position behind, which this model does not track), how often
      `commitCurrent` was called, every batch the sink accepted, in order,
      and how long the last iteration slept. */
  datatype Loop = Loop(
    coord: State,
    consumed: nat,
    committed: nat,
    commitCalls: nat,
    delivered: seq<seq<string>>,
    pauseMs: nat)

  function Begin(now: nat): Loop {
    Loop(Start(now), 0, 0, 0, [], 0)
  }

  /** Every row the loop has taken in: the accepted batches, then the
      rows still buffered. */
  function Admitted(l: Loop): seq<string> {
    Concat(l.delivered) + l.coord.batch
  }

  /** All rows of a sequence of batches, in order. */
  function Concat(batches: seq<seq<string>>): seq<string>
    decreases |batches|
  {
    if |batches| == 0 then [] else Concat(batches[..|batches| - 1]) + batches[|batches| - 1]
  }

  /** How a decoded record becomes its row. The source renders with
      `RowRender.RenderRow`; the loop's bookkeeping holds for any rendering,
      so the run functions take it as a parameter. */
  type Render = HttpLogRecord -> string

  /** One pass of the loop body: `try_flush`, then one poll, then for a
      record the append and the size-limit pause. */
  function Iterate(cfg: Config, render: Render, l: Loop, tick: Tick): (l': Loop)
    // a record is never dropped: delivered rows plus buffered rows grow by
    // exactly the row this iteration rendered
    ensures Admitted(l') == Admitted(l) + PolledRows(render, [tick])
    // a commit follows exactly the successful sends
    ensures l'.commitCalls - l.commitCalls == |l'.delivered| - |l.delivered| <= 1
    ensures l'.committed != l.committed ==> l'.committed == l.consumed
  {
    var f := TryFlush(cfg, l.coord, tick.now, tick.transport, tick.nowErr);
    var flushed := if f.commitCalled then
      l.(coord := f.state, committed := l.consumed, commitCalls := l.commitCalls + 1,
         delivered := l.delivered + [l.coord.batch], pauseMs := f.sleepMs)
    else l.(coord := f.state, pauseMs := f.sleepMs);
    match tick.poll
    case Record(r) =>
      var coord := Append(flushed.coord, render(r));
      flushed.(coord := coord, consumed := flushed.consumed + 1,
               pauseMs := f.sleepMs + SizeLimitWait(cfg, coord, tick.now2))
    case _ => flushed
  }

  /** The rendered rows of the records polled in `ticks`, in order. */
  function PolledRows(render: Render, ticks: seq<Tick>): seq<string>
    decreases |ticks|
  {
    if |ticks| == 0 then []
    else
      var last := ticks[|ticks| - 1];
      PolledRows(render, ticks[..|ticks| - 1]) + (if last.poll.Record? then [render(last.poll.record)] else [])
  }

  /** The ticks the loop runs: all of them up to the first one whose
      shutdown flag is down. */
  function RunningPrefix(ticks: seq<Tick>): (p: seq<Tick>)
    ensures |p| <= |ticks| && p == ticks[..|p|]
    ensures forall i :: 0 <= i < |p| ==> p[i].running
    ensures |p| < |ticks| ==> !ticks[|p|].running
    decreases |ticks|
  {
    if |ticks| == 0 || !ticks[0].running then [] else [ticks[0]] + RunningPrefix(ticks[1..])
  }

  /** The loop: iterate while the flag is up, then leave. There is no
      final flush, so rows still buffered at shutdown stay unsent and
      their records stay uncommitted. */
  function Run(cfg: Config, render: Render, l: Loop, ticks: seq<Tick>): Loop
    decreases |ticks|
  {
    if |ticks| == 0 || !ticks[0].running then l
    else Run(cfg, render, Iterate(cfg, render, l, ticks[0]), ticks[1..])
  }

  /** The bookkeeping a run from `Begin` keeps:
      - every consumed record's row is either delivered or buffered;
      - the position the last commit asked for is exactly the number of
        delivered rows, so no commit covers a record before the sink
        accepted its row;
      - `commitCurrent` was called once per accepted batch, and no accepted
        batch was empty. */
  ghost predicate Accounted(l: Loop) {
    && |Concat(l.delivered)| + |l.coord.batch| == l.consumed
    && l.committed == |Concat(l.delivered)|
    && l.commitCalls == |l.delivered|
    && (forall i :: 0 <= i < |l.delivered| ==> |l.delivered[i]| > 0)
  }

  lemma ConcatAppend(batches: seq<seq<string>>, b: seq<string>)
    ensures Concat(batches + [b]) == Concat(batches) + b
  {
    assert (batches + [b])[..|batches|] == batches;
  }

  lemma {:induction false} PolledRowsPrepend(render: Render, t: Tick, ticks: seq<Tick>)
    ensures PolledRows(render, [t] + ticks) == PolledRows(render, [t]) + PolledRows(render, ticks)
    decreases |ticks|
  {
    if |ticks| == 0 {
      assert [t] + ticks == [t];
    } else {
      var init := ticks[..|ticks| - 1];
      assert ([t] + ticks)[..|ticks|] == [t] + init;
      PolledRowsPrepend(render, t, init);
    }
  }

  lemma IterateAccounted(cfg: Config, render: Render, l: Loop, tick: Tick)
    requires Accounted(l)
    ensures Accounted(Iterate(cfg, render, l, tick))
  {
    var f := TryFlush(cfg, l.coord, tick.now, tick.transport, tick.nowErr);
    if f.commitCalled {
      ConcatAppend(l.delivered, l.coord.batch);
    }
  }

  /** A run from an accounted state stays accounted. */
  lemma {:induction false} RunAccounted(cfg: Config, render: Render, l: Loop, ticks: seq<Tick>)
    requires Accounted(l)
    ensures Accounted(Run(cfg, render, l, ticks))
    decreases |ticks|
  {
    if |ticks| > 0 && ticks[0].running {
      IterateAccounted(cfg, render, l, ticks[0]);
      RunAccounted(cfg, render, Iterate(cfg, render, l, ticks[0]), ticks[1..]);
    }
  }

  /** Over a run, the rows taken in grow by exactly the rows of the records
      polled while the flag was up, in poll order. */
  lemma {:induction false} RunAdmits(cfg: Config, render: Render, l: Loop, ticks: seq<Tick>)
    ensures Admitted(Run(cfg, render, l, ticks)) == Admitted(l) + PolledRows(render, RunningPrefix(ticks))
    decreases |ticks|
  {
    if |ticks| == 0 || !ticks[0].running {
      assert Admitted(l) + [] == Admitted(l);
    } else {
      var t := ticks[0];
      var l' := Iterate(cfg, render, l, t);
      var rest := RunningPrefix(ticks[1..]);
      assert RunningPrefix(ticks) == [t] + rest;
      RunAdmits(cfg, render, l', ticks[1..]);
      PolledRowsPrepend(render, t, rest);
      AdmitsCompose(Admitted(l), Admitted(l'), PolledRows(render, [t]), PolledRows(render, rest),
                    Admitted(Run(cfg, render, l, ticks)));
    }
  }

  /** Growth by `p1` followed by growth by `p2` is growth by `p1 + p2`. */
  lemma AdmitsCompose(a: seq<string>, a': seq<string>, p1: seq<string>, p2: seq<string>, r: seq<string>)
    requires a' == a + p1 && r == a' + p2
    ensures r == a + (p1 + p2)
  {
  }

  /** From start-up: all polled rows are accounted for, and the position
      the last commit asked for covers exactly the rows delivered, which
      form a prefix of the polled rows. */
  lemma RunFromStart(cfg: Config, render: Render, now: nat, ticks: seq<Tick>)
    ensures var l := Run(cfg, render, Begin(now), ticks);
      && Accounted(l)
      && Admitted(l) == PolledRows(render, RunningPrefix(ticks))
      && Concat(l.delivered) == PolledRows(render, RunningPrefix(ticks))[..l.committed]
  {
    var l := Run(cfg, render, Begin(now), ticks);
    RunAccounted(cfg, render, Begin(now), ticks);
    RunAdmits(cfg, render, Begin(now), ticks);
    var all := PolledRows(render, RunningPrefix(ticks));
    assert all == Concat(l.delivered) + l.coord.batch;
    assert all[..|Concat(l.delivered)|] == Concat(l.delivered);
  }

  /** The records polled in `ticks`, in order. */
  function PolledRecords(ticks: seq<Tick>): seq<HttpLogRecord>
    decreases |ticks|
  {
    if |ticks| == 0 then []
    else
      var last := ticks[|ticks| - 1];
      PolledRecords(ticks[..|ticks| - 1]) + (if last.poll.Record? then [last.poll.record] else [])
  }

  /** The polled rows are the polled records, each rendered. */
  lemma {:induction false} PolledRowsOfRecords(render: Render, ticks: seq<Tick>)
    ensures |PolledRows(render, ticks)| == |PolledRecords(ticks)|
    ensures forall i :: 0 <= i < |PolledRecords(ticks)| ==>
      PolledRows(render, ticks)[i] == render(PolledRecords(ticks)[i])
    decreases |ticks|
  {
    if |ticks| > 0 {
      PolledRowsOfRecords(render, ticks[..|ticks| - 1]);
    }
  }

  /** With the source's rendering, every row whose record a commit asked
      for reads back as that record's shown values: no commit request
      passes a record whose row the sink did not accept intact. */
  lemma CommittedRowsReadBack(cfg: Config, now: nat, ticks: seq<Tick>)
    ensures var l := Run(cfg, RenderRow, Begin(now), ticks);
      var records := PolledRecords(RunningPrefix(ticks));
      && l.committed <= |records|
      && |Concat(l.delivered)| == l.committed
      && forall i :: 0 <= i < l.committed ==>
        ParseRow(Concat(l.delivered)[i]) == Some(Shown(records[i]))
  {
    var l := Run(cfg, RenderRow, Begin(now), ticks);
    var records := PolledRecords(RunningPrefix(ticks));
    RunFromStart(cfg, RenderRow, now, ticks);
    PolledRowsOfRecords(RenderRow, RunningPrefix(ticks));
    forall i | 0 <= i < l.committed
      ensures ParseRow(Concat(l.delivered)[i]) == Some(Shown(records[i]))
    {
      ParseRenderedRow(records[i]);
    }
  }
}
