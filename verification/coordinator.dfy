/** The flush coordinator of `run_anonymizer` (src/anonymizer.cpp): the
    `try_flush` lambda, the batch append and the size-limit wait. Time is
    milliseconds of the steady clock, passed in explicitly; a sleep is
    reported as a duration instead of being performed. */
module Coordinator {
  import opened Text
  import opened Sink

  /** BATCH_MAX and FLUSH_SECONDS, read once at start-up. */
  datatype Config = Config(batchMax: nat, flushSeconds: nat) {
    /** FLUSH_EVERY in milliseconds. */
    function FlushEvery(): nat {
      flushSeconds * 1000
    }
  }

  /** Pause after a failed send that is not a 503. */
  const OtherFailureDelay: nat := 5000

  /** The coordinator's variables. `nextAllowedSend` starts at 0, which no
      clock reading is below, as `time_point::min()` in the source. */
  datatype State = State(batch: seq<string>, lastFlush: nat, nextAllowedSend: nat)

  /** State on entry to the run loop, with the clock reading `now`. */
  function Start(now: nat): State {
    State([], now, 0)
  }

  /** One call of `try_flush`: the new state, whether `sink.send` was
      called, whether `consumer.commitCurrent` was called, and how long the
      call slept before returning. */
  datatype Flush = Flush(state: State, attempted: bool, commitCalled: bool, sleepMs: nat)

  /** The three guards of `try_flush`: rows are buffered, no 503 cool-down
      is in force, and at least a full interval has elapsed since the
      last successful flush. */
  predicate Due(cfg: Config, s: State, now: nat) {
    && |s.batch| > 0
    && s.nextAllowedSend <= now
    && cfg.FlushEvery() <= now - s.lastFlush
  }

  /** The earliest send time after a 503 seen at `nowErr`: one interval
      after the last successful flush, or one interval after `nowErr` when
      that moment has already arrived or passed. */
  function NextSlot(cfg: Config, lastFlush: nat, nowErr: nat): (slot: nat)
    ensures lastFlush + cfg.FlushEvery() <= slot
    ensures nowErr < lastFlush + cfg.FlushEvery() ==> slot == lastFlush + cfg.FlushEvery()
    ensures lastFlush + cfg.FlushEvery() <= nowErr ==> slot == nowErr + cfg.FlushEvery()
    ensures 0 < cfg.FlushEvery() && lastFlush <= nowErr ==>
      nowErr < slot <= nowErr + cfg.FlushEvery()
  {
    var slot := lastFlush + cfg.FlushEvery();
    if slot <= nowErr then nowErr + cfg.FlushEvery() else slot
  }

  /** `try_flush(now)`. `t` is what the POST observed and `nowErr` the clock
      reading taken after a failed send. The result of `commitCurrent` is
      not an input: the source logs a failure and carries on unchanged. */
  function TryFlush(cfg: Config, s: State, now: nat, t: Transport, nowErr: nat): (f: Flush)
    // no attempt, and nothing changes, unless all three guards pass
    ensures f.attempted <==> Due(cfg, s, now)
    ensures !f.attempted ==> f.state == s && !f.commitCalled && f.sleepMs == 0
    // commitCurrent is called exactly when the send succeeded
    ensures f.commitCalled <==> f.attempted && Send(t).Sent?
    ensures f.commitCalled ==> f.state == State([], now, s.nextAllowedSend) && f.sleepMs == 0
    // a failed send keeps the batch and the last flush time
    ensures f.attempted && !f.commitCalled ==>
      f.state.batch == s.batch && f.state.lastFlush == s.lastFlush
    // a 503 moves the send window; any other failure pauses five seconds
    ensures f.attempted && IsOverload(Send(t)) ==>
      && f.state.nextAllowedSend == NextSlot(cfg, s.lastFlush, nowErr)
      && f.state.nextAllowedSend == nowErr + f.sleepMs
    ensures f.attempted && Send(t).Failed? && !IsOverload(Send(t)) ==>
      f.state == s && f.sleepMs == OtherFailureDelay
  {
    if |s.batch| == 0 then Flush(s, false, false, 0)
    else if now < s.nextAllowedSend then Flush(s, false, false, 0)
    else if now - s.lastFlush < cfg.FlushEvery() then Flush(s, false, false, 0)
    else
      match Send(t)
      case Sent => Flush(State([], now, s.nextAllowedSend), true, true, 0)
      case Failed(what) =>
        if Contains(CStr(what), OverloadMarker) then
          var slot := NextSlot(cfg, s.lastFlush, nowErr);
          Flush(s.(nextAllowedSend := slot), true, false, slot - nowErr)
        else
          Flush(s, true, false, OtherFailureDelay)
  }

  /** `batch.emplace_back(row)`. */
  function Append(s: State, row: string): (s': State)
    ensures s'.batch == s.batch + [row]
    ensures s'.lastFlush == s.lastFlush && s'.nextAllowedSend == s.nextAllowedSend
  {
    s.(batch := s.batch + [row])
  }

  /** The size-limit pause after an append, read at `now2`: once the batch
      holds BATCH_MAX rows and the flush window is still closed, sleep until
      it opens. It never sends and never shortens the batch. */
  function SizeLimitWait(cfg: Config, s: State, now2: nat): (w: nat)
    ensures w != 0 <==> cfg.batchMax <= |s.batch| && now2 - s.lastFlush < cfg.FlushEvery()
    ensures w != 0 ==> now2 + w == s.lastFlush + cfg.FlushEvery()
    ensures s.lastFlush <= now2 ==> w <= cfg.FlushEvery()
  {
    if cfg.batchMax <= |s.batch| && now2 - s.lastFlush < cfg.FlushEvery() then
      cfg.FlushEvery() - (now2 - s.lastFlush)
    else 0
  }

  /** Once the size-limit pause is over, the interval guard of `try_flush`
      passes: the pause ends exactly when the window opens. */
  lemma SizeLimitWaitOpensWindow(cfg: Config, s: State, now2: nat, later: nat)
    requires s.lastFlush <= now2
    requires cfg.batchMax <= |s.batch|
    requires now2 + SizeLimitWait(cfg, s, now2) <= later
    ensures cfg.FlushEvery() <= later - s.lastFlush
  {
  }

  /** After a 503 no send is attempted, and nothing changes, at any time
      before the slot it computed, whatever the sink would have said. */
  lemma CooldownHonored(cfg: Config, s: State, now: nat, t: Transport, nowErr: nat,
                        later: nat, t': Transport, nowErr': nat)
    requires TryFlush(cfg, s, now, t, nowErr).attempted && IsOverload(Send(t))
    requires later < TryFlush(cfg, s, now, t, nowErr).state.nextAllowedSend
    ensures var s' := TryFlush(cfg, s, now, t, nowErr).state;
      TryFlush(cfg, s', later, t', nowErr') == Flush(s', false, false, 0)
  {
  }

  /** With a positive interval and a clock that has not gone back, a 503
      pushes the next allowed send strictly into the future but never more
      than one interval past `nowErr`, and the pause reaches it exactly. */
  lemma OverloadBackoffWindow(cfg: Config, s: State, now: nat, t: Transport, nowErr: nat)
    requires 0 < cfg.FlushEvery()
    requires s.lastFlush <= nowErr
    requires Due(cfg, s, now)
    ensures IsOverload(Send(t)) ==>
      var f := TryFlush(cfg, s, now, t, nowErr);
      && nowErr < f.state.nextAllowedSend <= nowErr + cfg.FlushEvery()
      && 0 < f.sleepMs <= cfg.FlushEvery()
  {
  }

  /** The time trigger measures from the last successful flush, not from the
      first buffered row: a row appended once the interval since the last
      flush has run out is sent by the next `try_flush`, whatever its own
      age. */
  lemma TimeTriggerFromLastFlush(cfg: Config, s: State, row: string, now: nat, t: Transport, nowErr: nat)
    requires s.nextAllowedSend <= now
    requires s.lastFlush + cfg.FlushEvery() <= now
    ensures TryFlush(cfg, Append(s, row), now, t, nowErr).attempted
  {
  }

  /** A full batch is not sent early: inside the interval no attempt is
      made however many rows are buffered. */
  lemma SizeTriggerNeverSends(cfg: Config, s: State, now: nat, t: Transport, nowErr: nat)
    requires cfg.batchMax <= |s.batch|
    requires now - s.lastFlush < cfg.FlushEvery()
    ensures !TryFlush(cfg, s, now, t, nowErr).attempted
    ensures TryFlush(cfg, s, now, t, nowErr).state == s
  {
  }

  /** `msg` is built from `e.what()`, so a body that mentions "HTTP 503"
      only after a NUL does not count as a rate limit: the failure takes
      the five-second pause and leaves the send window alone. */
  lemma NulHidesOverload(cfg: Config, s: State, now: nat, nowErr: nat)
    requires Due(cfg, s, now)
    ensures TryFlush(cfg, s, now, Response(500, "\0HTTP 503"), nowErr) == Flush(s, true, false, OtherFailureDelay)
  {
    var t := Response(500, "\0HTTP 503");
    var body := "\0HTTP 503";
    assert CStr(body) == "";
    ResponseClassification(500, body);
    assert !Contains(CStr(body), OverloadMarker);
    ThreeDigitCode503(500);
  }
}
