/**
 * A logging handler that batches log records and posts them to a Discord webhook,
 * with a minimum interval between posts and a bounded retry on rate limiting.
 *
 * The monotonic clock is a `Clock` object that sleeping and posting advance, and
 * that the caller advances between emissions. The webhook is an `Endpoint` that
 * records every POST and answers from a finite script of responses. Once the
 * script is exhausted, it accepts every post.
 */
module DiscordLogging {
  import opened Wrappers
  import opened Strings

  datatype Level = Debug | Info | Warning | Error

  /** A log record as the handler receives it. */
  datatype LogRecord = LogRecord(level: Level, created: real, message: string)

  type Seconds = r: real | r >= 0.0

  /**
   * One answer of the webhook to a POST: whether it was ok, the
   * `x-ratelimit-reset-after` header if present, and how long the request took.
   */
  datatype Response = Response(ok: bool, resetAfter: Option<Seconds>, took: Seconds)

  /** Discord's limit on the length of a message; longer content is cut. */
  const MaxContent: nat := 2000
  /** The sleep used when a failed response carries no reset header. */
  const DefaultResetAfter: Seconds := 2.0
  /** `post_webhook`'s default timeout, the one `emit` uses. */
  const DefaultTimeout: real := 5.0
  /** The handler's default minimum interval between delivery attempts. */
  const DefaultInterval: real := 1.0

  /** The answer of an endpoint whose script of responses is exhausted. */
  const Accepted := Response(true, None, 0.0)

  /** The answer to the `i`-th POST (counting from 0) of an endpoint scripted with `script`. */
  function AnswerAt(script: seq<Response>, i: nat): Response
  {
    if i < |script| then script[i] else Accepted
  }

  /** The sleep before the next attempt: the reset header of a failed answer, or the default when it has none. */
  function SleepFor(r: Response): Seconds
  {
    r.resetAfter.GetOr(DefaultResetAfter)
  }

  /**
   * How one call of `post_webhook` ends: the number of POSTs made, whether the
   * last one was accepted, the time elapsed since the first POST returned, and
   * the total time slept.
   */
  datatype Delivery = Delivery(posts: nat, delivered: bool, elapsed: real, slept: real)

  /**
   * The retry protocol of `post_webhook`, from the moment the answer to the
   * `i`-th POST has arrived, with `elapsed` seconds elapsed since the first POST
   * returned and `slept` of them spent sleeping.
   */
  function Retry(script: seq<Response>, i: nat, elapsed: real, slept: real, timeout: real): (d: Delivery)
    requires i <= |script|
    requires 0.0 <= slept <= elapsed
    decreases |script| - i
  {
    var r := AnswerAt(script, i);
    if r.ok then Delivery(i + 1, true, elapsed, slept)
    else
      var pause := SleepFor(r);
      if elapsed + pause > timeout then Delivery(i + 1, false, elapsed, slept)
      else Retry(script, i + 1, elapsed + pause + AnswerAt(script, i + 1).took, slept + pause, timeout)
  }

  /**
   * The retry protocol posts again only after a failed answer, delivers iff the
   * last answer was ok, gives up only when the pending sleep would overrun the
   * timeout, and never sleeps past the timeout in total.
   */
  lemma {:induction false} RetryFacts(script: seq<Response>, i: nat, elapsed: real, slept: real, timeout: real)
    requires i <= |script|
    requires 0.0 <= slept <= elapsed
    ensures var d := Retry(script, i, elapsed, slept, timeout);
            i < d.posts <= |script| + 1 &&
            (d.delivered <==> AnswerAt(script, d.posts - 1).ok) &&
            (forall k :: i <= k < d.posts - 1 ==> !AnswerAt(script, k).ok) &&
            (!d.delivered ==> d.elapsed + SleepFor(AnswerAt(script, d.posts - 1)) > timeout) &&
            slept <= d.slept <= d.elapsed && elapsed <= d.elapsed &&
            (d.slept == slept || d.slept <= timeout) &&
            (d.posts == i + 1 ==> d.slept == slept && d.elapsed == elapsed) &&
            (d.posts > i + 1 ==> d.elapsed - AnswerAt(script, d.posts - 1).took <= timeout)
    decreases |script| - i
  {
    var r := AnswerAt(script, i);
    if !r.ok && elapsed + SleepFor(r) <= timeout {
      var pause := SleepFor(r);
      RetryFacts(script, i + 1, elapsed + pause + AnswerAt(script, i + 1).took, slept + pause, timeout);
    }
  }

  /** The total sleep before POSTs `i + 1` to `n - 1`: the reset time of each failed answer from POST `i` to POST `n - 2`. */
  function Slept(script: seq<Response>, i: nat, n: nat): real
    decreases n - i
  {
    if n <= i + 1 then 0.0 else SleepFor(AnswerAt(script, i)) + Slept(script, i + 1, n)
  }

  /** The total duration of POSTs `i + 1` to `n - 1`. */
  function Took(script: seq<Response>, i: nat, n: nat): real
    decreases n - i
  {
    if n <= i + 1 then 0.0 else AnswerAt(script, i + 1).took + Took(script, i + 1, n)
  }

  /**
   * Every retry follows a sleep of exactly the failed answer's reset time (2 s
   * without the header), and the elapsed time is those sleeps plus the durations
   * of the later POSTs.
   */
  lemma {:induction false} RetryTiming(script: seq<Response>, i: nat, elapsed: real, slept: real, timeout: real)
    requires i <= |script|
    requires 0.0 <= slept <= elapsed
    ensures var d := Retry(script, i, elapsed, slept, timeout);
            d.slept == slept + Slept(script, i, d.posts) &&
            d.elapsed == elapsed + Slept(script, i, d.posts) + Took(script, i, d.posts)
    decreases |script| - i
  {
    RetryFacts(script, i, elapsed, slept, timeout);
    var r := AnswerAt(script, i);
    if !r.ok && elapsed + SleepFor(r) <= timeout {
      var pause := SleepFor(r);
      var took := AnswerAt(script, i + 1).took;
      RetryFacts(script, i + 1, elapsed + pause + took, slept + pause, timeout);
      RetryTiming(script, i + 1, elapsed + pause + took, slept + pause, timeout);
    }
  }

  /** The whole of one `post_webhook` call against an endpoint scripted with `script`. */
  function Deliver(script: seq<Response>, timeout: real): (d: Delivery)
    ensures 1 <= d.posts <= |script| + 1
    ensures d.delivered <==> AnswerAt(script, d.posts - 1).ok
    ensures forall k :: 0 <= k < d.posts - 1 ==> !AnswerAt(script, k).ok
    ensures !d.delivered ==> d.elapsed + SleepFor(AnswerAt(script, d.posts - 1)) > timeout
    ensures d.slept == 0.0 || d.slept <= timeout
    ensures d.posts == 1 ==> d.slept == 0.0
    ensures d.posts > 1 ==> d.elapsed - AnswerAt(script, d.posts - 1).took <= timeout
    ensures d.slept == Slept(script, 0, d.posts)
    ensures d.elapsed == Slept(script, 0, d.posts) + Took(script, 0, d.posts)
  {
    RetryFacts(script, 0, 0.0, 0.0, timeout);
    RetryTiming(script, 0, 0.0, 0.0, timeout);
    Retry(script, 0, 0.0, 0.0, timeout)
  }

  /** The answers left after `n` POSTs. */
  function Drop(script: seq<Response>, n: nat): seq<Response>
  {
    if n < |script| then script[n..] else []
  }

  /** The first answer left after `n` POSTs is the answer to POST `n`. */
  lemma AnswerAfterDrop(script: seq<Response>, n: nat)
    ensures AnswerAt(Drop(script, n), 0) == AnswerAt(script, n)
    ensures Drop(Drop(script, n), 1) == Drop(script, n + 1)
  {
  }

  /** A failed answer whose reset fits in the timeout leads to a sleep and the next POST. */
  lemma RetryContinues(script: seq<Response>, i: nat, elapsed: real, slept: real, timeout: real)
    requires i <= |script| && 0.0 <= slept <= elapsed
    requires !AnswerAt(script, i).ok && elapsed + SleepFor(AnswerAt(script, i)) <= timeout
    ensures i < |script|
    ensures Retry(script, i, elapsed, slept, timeout) ==
              Retry(script, i + 1, elapsed + SleepFor(AnswerAt(script, i)) + AnswerAt(script, i + 1).took,
                    slept + SleepFor(AnswerAt(script, i)), timeout)
  {
  }

  /** A rate-limit reset of 3 s against a 5 s timeout: one retry, which is accepted. */
  lemma ResetWithinTimeoutRetriesOnce()
    ensures Deliver([Response(false, Some(3.0), 0.0)], 5.0) == Delivery(2, true, 3.0, 3.0)
  {
  }

  /** A rate-limit reset of 10 s against a 5 s timeout: give up at once, without sleeping. */
  lemma ResetBeyondTimeoutGivesUp()
    ensures Deliver([Response(false, Some(10.0), 0.0)], 5.0) == Delivery(1, false, 0.0, 0.0)
  {
  }

  /** `n` copies of `x`. */
  function Repeat(x: string, n: nat): seq<string>
  {
    seq(n, _ => x)
  }

  /** Python's `self.format(record)` for every queued record; a queued `None` cannot be formatted. */
  function FormatAll(queue: seq<Option<LogRecord>>, format: LogRecord -> string): seq<string>
    requires forall k :: 0 <= k < |queue| ==> queue[k].Some?
  {
    seq(|queue|, k requires 0 <= k < |queue| && queue[k].Some? => format(queue[k].value))
  }

  /**
   * The text `emit` posts: the queued records, one per line, then the new record
   * (nothing for `None`), inside a code fence. `None` when a queued entry is `None`,
   * because formatting it raises an error before anything is posted.
   */
  function Render(queue: seq<Option<LogRecord>>, record: Option<LogRecord>, format: LogRecord -> string): (text: Option<string>)
    ensures text.Some? <==> forall k :: 0 <= k < |queue| ==> queue[k].Some?
    ensures text.Some? ==> |text.value| >= 7 && text.value[..3] == "```" && text.value[|text.value| - 3..] == "```"
  {
    if exists k :: 0 <= k < |queue| && queue[k].None? then None
    else
      var recordContent := if record.Some? then format(record.value) else "";
      Some("```" + Join(FormatAll(queue, format), "\n") + "\n" + recordContent + "```")
  }

  /** With an empty queue the block holds only the new record, after a leading newline. */
  lemma RenderAlone(record: LogRecord, format: LogRecord -> string)
    ensures Render([], Some(record), format) == Some("```\n" + format(record) + "```")
  {
    assert Join(FormatAll([], format), "\n") == "";
    assert "```" + "" + "\n" + format(record) + "```" == "```\n" + format(record) + "```";
  }

  /** Once a `None` is queued, no later queue that keeps it can be rendered. */
  lemma RenderFailsOnceNoneQueued(before: seq<Option<LogRecord>>, after: seq<Option<LogRecord>>,
                                  record: Option<LogRecord>, format: LogRecord -> string)
    ensures Render(before + [None] + after, record, format) == None
  {
    assert (before + [None] + after)[|before|] == None;
  }

  /** The monotonic clock: `monotonic()` reads `now`, `sleep(d)` advances it. */
  class Clock {
    var now: real

    constructor (start: real)
      ensures now == start
    {
      now := start;
    }

    method Sleep(d: Seconds)
      modifies this
      ensures now == old(now) + d
    {
      now := now + d;
    }
  }

  /** The webhook: every POSTed content is recorded, and each POST takes the time its answer says. */
  class Endpoint {
    /** The answers still to come, in order. */
    var script: seq<Response>
    /** The contents POSTed so far, in order. */
    var sent: seq<string>

    constructor (answers: seq<Response>)
      ensures script == answers && sent == []
    {
      script := answers;
      sent := [];
    }

    method Post(content: string, clock: Clock) returns (r: Response)
      modifies this, clock
      ensures r == AnswerAt(old(script), 0)
      ensures script == if old(script) == [] then [] else old(script)[1..]
      ensures sent == old(sent) + [content]
      ensures clock.now == old(clock.now) + r.took
    {
      r := AnswerAt(script, 0);
      if script != [] {
        script := script[1..];
      }
      sent := sent + [content];
      clock.now := clock.now + r.took;
    }

    /**
     * What one `post_webhook` call did to this endpoint and to the clock: the
     * outcome is `Deliver` of the script as it was, every POST carried the first
     * `MaxContent` characters of `content`, and the time is that of the first POST
     * plus `d.elapsed`.
     */
    twostate predicate Attempted(clock: Clock, content: string, timeout: real, d: Delivery)
      reads this, clock
    {
      d == Deliver(old(script), timeout) &&
      sent == old(sent) + Repeat(Truncate(content, MaxContent), d.posts) &&
      script == Drop(old(script), d.posts) &&
      clock.now == old(clock.now) + AnswerAt(old(script), 0).took + d.elapsed
    }
  }

  /** What an emission did. */
  datatype EmitResult =
    | Queued                      // the interval gate held: the record was queued, nothing posted
    | Posted(delivered: bool)     // the queue and the record were posted; `delivered` is the outcome
    | FormatFailed                // a queued `None` could not be formatted; nothing changed

  /** The interval gate of `emit`: a real record that arrives too soon after the last attempt is only queued. */
  predicate Gated(record: Option<LogRecord>, lastEmit: real, interval: real, now: real)
  {
    record.Some? && lastEmit + interval > now
  }

  /** The Discord logging handler. */
  class WebhookHandler {
    const url: string
    const interval: real
    /** The formatter the handler renders records with. */
    const format: LogRecord -> string
    /** The time of the last delivery attempt. */
    var lastEmit: real
    /** The records waiting for the next delivery; a failed flush queues `None`. */
    var queue: seq<Option<LogRecord>>

    constructor (webhookUrl: string, formatter: LogRecord -> string, minEmitInterval: real := DefaultInterval)
      ensures url == webhookUrl && interval == minEmitInterval && format == formatter
      ensures lastEmit == 0.0 && queue == []
    {
      url := webhookUrl;
      interval := minEmitInterval;
      format := formatter;
      lastEmit := 0.0;
      queue := [];
    }

    /**
     * Posts `content` (cut to `MaxContent` characters), and while the answer is
     * not ok, sleeps for the reset time it names and posts again. Gives up, without
     * sleeping, when that sleep would take the time elapsed since the first answer
     * past `timeout`.
     */
    method PostWebhook(content: string, clock: Clock, endpoint: Endpoint, timeout: real := DefaultTimeout) returns (ok: bool)
      modifies clock, endpoint
      ensures endpoint.Attempted(clock, content, timeout, Deliver(old(endpoint.script), timeout))
      ensures ok == Deliver(old(endpoint.script), timeout).delivered
    {
      ghost var script := endpoint.script;
      ghost var sent := endpoint.sent;
      ghost var d := Deliver(script, timeout);
      var body := Truncate(content, MaxContent);
      var response := endpoint.Post(body, clock);
      var start := clock.now;
      ghost var i: nat := 0;
      ghost var elapsed: real, slept: real := 0.0, 0.0;
      while !response.ok
        invariant i <= |script| && 0.0 <= slept <= elapsed && elapsed == clock.now - start
        invariant response == AnswerAt(script, i)
        invariant endpoint.script == Drop(script, i + 1)
        invariant endpoint.sent == sent + Repeat(body, i + 1)
        invariant start == old(clock.now) + AnswerAt(script, 0).took
        invariant Retry(script, i, elapsed, slept, timeout) == d
        decreases |endpoint.script| + (if response.ok then 0 else 1)
      {
        var pause := SleepFor(response);
        if clock.now - start + pause > timeout {
          return false;
        }
        RetryContinues(script, i, elapsed, slept, timeout);
        AnswerAfterDrop(script, i + 1);
        clock.Sleep(pause);
        response := endpoint.Post(body, clock);
        ghost var next := Retry(script, i + 1, elapsed + pause + response.took, slept + pause, timeout);
        assert next == d;
        i, elapsed, slept := i + 1, elapsed + pause + response.took, slept + pause;
      }
      return true;
    }

    /**
     * What `emit(record)` does, arriving when the clock reads `old(clock.now)`,
     * and what it returns as `result`.
     */
    twostate predicate Emitted(record: Option<LogRecord>, clock: Clock, endpoint: Endpoint, result: EmitResult)
      reads this, clock, endpoint
    {
      if Gated(record, old(lastEmit), interval, old(clock.now)) then
        result == Queued && queue == old(queue) + [record] && lastEmit == old(lastEmit) &&
        endpoint.sent == old(endpoint.sent) && endpoint.script == old(endpoint.script) && clock.now == old(clock.now)
      else
        match Render(old(queue), record, format)
        case None =>
          result == FormatFailed && queue == old(queue) && lastEmit == old(lastEmit) &&
          endpoint.sent == old(endpoint.sent) && endpoint.script == old(endpoint.script) && clock.now == old(clock.now)
        case Some(text) =>
          var d := Deliver(old(endpoint.script), DefaultTimeout);
          endpoint.Attempted(clock, text, DefaultTimeout, d) &&
          result == Posted(d.delivered) &&
          lastEmit == old(clock.now) &&
          queue == if d.delivered then [] else old(queue) + [record]
    }

    /**
     * Emits `record`, or flushes the queue when `record` is `None`. Behind the
     * gate, the record is queued. Otherwise the queue and the record are posted
     * as one block, the attempt time is recorded, and the queue is cleared on
     * success or has the record appended on failure.
     */
    method Emit(record: Option<LogRecord>, clock: Clock, endpoint: Endpoint) returns (result: EmitResult)
      modifies this, clock, endpoint
      ensures Emitted(record, clock, endpoint, result)
    {
      var now := clock.now;
      if record.Some? && lastEmit + interval > now {
        queue := queue + [record];
        return Queued;
      }
      var text := Render(queue, record, format);
      if text.None? {
        return FormatFailed;
      }
      var success := PostWebhook(text.value, clock, endpoint);
      lastEmit := now;
      if success {
        queue := [];
      } else {
        queue := queue + [record];
      }
      return Posted(success);
    }

    /** Posts the queued records, if there are any, as `emit(None)` does. */
    method Flush(clock: Clock, endpoint: Endpoint) returns (result: Option<EmitResult>)
      modifies this, clock, endpoint
      ensures old(queue) == [] ==>
                result == None && queue == old(queue) && lastEmit == old(lastEmit) &&
                endpoint.sent == old(endpoint.sent) && endpoint.script == old(endpoint.script) && clock.now == old(clock.now)
      ensures old(queue) != [] ==> result.Some? && Emitted(None, clock, endpoint, result.value)
    {
      if queue != [] {
        var r := Emit(None, clock, endpoint);
        return Some(r);
      }
      return None;
    }
  }

  /**
   * With the default interval of one second, records that arrive in the first
   * second are behind the gate: they are queued in arrival order and nothing is posted.
   */
  method GatedRecordsQueueInOrder(format: LogRecord -> string, first: LogRecord, second: LogRecord)
    returns (results: seq<EmitResult>, queued: seq<Option<LogRecord>>, posted: seq<string>)
    ensures results == [Queued, Queued]
    ensures queued == [Some(first), Some(second)]
    ensures posted == []
  {
    var clock := new Clock(0.25);
    var endpoint := new Endpoint([]);
    var handler := new WebhookHandler("webhook", format);
    var a := handler.Emit(Some(first), clock, endpoint);
    clock.Sleep(0.5);
    var b := handler.Emit(Some(second), clock, endpoint);
    results, queued, posted := [a, b], handler.queue, endpoint.sent;
  }

  /**
   * A flush that fails leaves `None` in the queue, so every later emission past the
   * gate fails to format the queue and neither posts nor clears it.
   */
  method FailedFlushBlocksDelivery(format: LogRecord -> string, first: LogRecord, second: LogRecord)
    returns (flushed: Option<EmitResult>, later: EmitResult, queued: seq<Option<LogRecord>>)
    ensures flushed == Some(Posted(false))
    ensures later == FormatFailed
    ensures queued == [Some(first), None]
  {
    var clock := new Clock(10.0);
    var endpoint := new Endpoint([Response(false, Some(10.0), 0.0)]);
    var handler := new WebhookHandler("webhook", format, 60.0);
    var a := handler.Emit(Some(first), clock, endpoint);
    ResetBeyondTimeoutGivesUp();
    flushed := handler.Flush(clock, endpoint);
    clock.Sleep(120.0);
    RenderFailsOnceNoneQueued([Some(first)], [], Some(second), format);
    assert handler.queue == [Some(first)] + [None] + [];
    later := handler.Emit(Some(second), clock, endpoint);
    queued := handler.queue;
  }
}
