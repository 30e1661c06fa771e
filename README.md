# Reddit Perspective moderation bot: a Dafny model

This project models the two reliability mechanisms of a Reddit moderation bot.

The first is `DiscordWebhookHandler`, a logging handler that batches log records and posts them to a Discord webhook. It keeps a queue of pending records and a minimum interval between delivery attempts, one second by default. While the interval has not passed, a record is only queued. Otherwise, the whole queue plus the new record is rendered into one code block of at most 2000 characters and posted. Rate-limited posts are retried after the `x-ratelimit-reset-after` delay, within a 5-second timeout. After an attempt, the queue is cleared on success. On failure, the triggering record (or `None`, for a flush) is appended to the old queue.

The second is the main script. For each comment, it lower-cases the attribute names of the Perspective scores and builds a summary: id, author, cleaned permalink, the first 1500 characters of the body, and one line per attribute. It files one moderator report per attribute whose score meets its threshold, with ties escalating. It logs the summary at `info` if anything was reported and at `debug` otherwise. The main loop survives Reddit server errors by sleeping 25 to 35 seconds and re-subscribing. Any other error is logged and re-raised.

Files:
- `wrappers.dfy`: `Option`.
- `strings.dfy`: the Python `str` operations the code uses. `s[:n]` is `Truncate`, `split` is `Split`, `join` is `Join`, `replace` is `Replace`, `lower` is `Lower`, and `{s:16s}` is `PadRight`. It also holds their round-trip lemmas.
- `discord_logging.dfy`: the handler as a class with `queue` and `lastEmit` fields.
  - `Clock` stands for the monotonic clock; sleeping and posting advance it.
  - `Endpoint` stands for the webhook. It records every POST and answers from a finite script of responses, then accepts everything.
  - `Retry` and `Deliver` are the pure specification of the `post_webhook` retry loop. `RetryFacts` and `RetryTiming` state their properties, and `SleepFor` is the header lookup with its default of 2 s.
  - `Gated` is the interval test of `emit`; the contract of `Emit` states what it decides.
- `script.dfy`: `evaluate_comment`'s dict comprehension, the permalink cleaning, the loop of `process_comment` (`Escalate`), and the `while True` loop of `main` (`Supervise`).

Behaviours of the code that the model keeps exactly:
- A failed delivery keeps the whole old queue and appends the triggering record after it, or `None` when the trigger was a flush.
- A queued `None` cannot be formatted on a later delivery, because Python's `Formatter.format(None)` raises. From then on, every emission past the gate raises before posting, and the queue is never cleared. `Render`, `RenderFailsOnceNoneQueued` and `FailedFlushBlocksDelivery` state this.
- The text posted for an empty queue is a fence, a newline, the record and a fence, not the record alone.
- The backoff `randint(25, 35)` includes both 25 and 35.
- A failing Perspective answer is not skipped per comment. It is a `KeyError` that leaves `process_comment`, and `main` logs it and re-raises it. So are a permalink with fewer than six `/`-separated segments and an attribute without a configured threshold (`ProcessError`).

## Model

| member | source | states |
|---|---|---|
| `Strings.Truncate` | discord_logging.py:35 | `s[:n]` is a prefix of `s` of length at most `n`: all of `s` when it fits, exactly `n` characters otherwise |
| `Strings.Split` | script.py:85 | `str.split` gives at least one piece, and gives `[s]` when it gives one |
| `Strings.SplitPiecesFree` | script.py:85 | no piece of `s.split(sep)` contains `sep`: every occurrence of `sep` is a cut |
| `Strings.Join` | script.py:85 | `sep.join(parts)` starts with the first part, and with two or more parts `sep` follows it |
| `Strings.Replace` | script.py:85 | replacing any pattern, the empty one included, by itself leaves the string unchanged |
| `Strings.ReplaceIsJoinOfSplit` | script.py:85 | `s.replace(pat, rep)` equals `rep.join(s.split(pat))` for a non-empty `pat`, so every occurrence is replaced |
| `Strings.SplitJoinRoundTrip` | script.py:85 | joining the pieces of `s.split(sep)` with `sep` gives back `s` |
| `Strings.ReplaceAbsent` | script.py:85 | a pattern that does not occur leaves one piece and an unchanged string |
| `Strings.ReplaceEmptyLength` | script.py:85 | replacing the empty string adds the replacement's length once per character and once more |
| `Strings.ReplaceEmptyAroundEach` | script.py:85 | replacing the empty string gives the replacement, the characters joined by the replacement, and the replacement again |
| `Strings.Lower` | script.py:117 | lower-casing keeps the length, leaves no ASCII capital, maps each capital to the letter 32 code points above it, and keeps every other character |
| `Strings.PadRight` | script.py:94 | `{attribute:16s}` is the name followed by spaces up to width 16, never cut |
| `DiscordLogging.RetryFacts` | discord_logging.py:38-48 | the retry loop posts again only after a failed answer; it delivers iff the last answer was ok; it gives up only when the pending sleep would take the elapsed time past the timeout; total sleep stays within the timeout; no sleep happens without a further POST; when it re-posted, the time elapsed before the last POST stayed within the timeout |
| `DiscordLogging.RetryTiming` | discord_logging.py:38-46 | every retry follows a sleep of exactly the failed answer's `x-ratelimit-reset-after` value, 2 s without the header; the total sleep is the sum of those reset times, and the elapsed time is that sum plus the durations of the later POSTs |
| `DiscordLogging.Deliver` | discord_logging.py:35-48 | one `post_webhook` call makes at least one POST; it returns `True` iff the final answer was ok; `False` means the pending sleep would exceed the timeout; sleeps never add up past the timeout, and no sleep happens without a re-post; the elapsed time minus the last POST's duration is within the timeout, so a retry starts only inside the timeout; the time slept is exactly the sum of the failed answers' reset times, and the elapsed time is that sum plus the later POSTs' durations |
| `DiscordLogging.ResetWithinTimeoutRetriesOnce` | discord_logging.py:38-48 | a 3 s reset against a 5 s timeout gives one retry and delivery after 3 s of sleep |
| `DiscordLogging.ResetBeyondTimeoutGivesUp` | discord_logging.py:41-43 | a 10 s reset against a 5 s timeout gives up after one POST, without sleeping |
| `DiscordLogging.Render` | discord_logging.py:64-66 | the posted block can be built iff no queued entry is `None`, and then it is fenced by three backticks at both ends |
| `DiscordLogging.RenderAlone` | discord_logging.py:64-66 | with an empty queue, the block is a fence, a newline, the formatted record and a fence |
| `DiscordLogging.RenderFailsOnceNoneQueued` | discord_logging.py:64-72 | once a failed flush has queued `None`, no queue that still holds it can be rendered |
| `DiscordLogging.Clock.Sleep` | discord_logging.py:45 | sleeping advances the clock by exactly the sleep duration |
| `DiscordLogging.Endpoint.Post` | discord_logging.py:46 | a POST records its content, consumes the next scripted answer, and advances the clock by the request's duration |
| `DiscordLogging.WebhookHandler.constructor` | discord_logging.py:10-23 | a new handler has an empty queue, `last_emit = 0` and the given interval, one second by default |
| `DiscordLogging.WebhookHandler.PostWebhook` | discord_logging.py:25-48 | with a timeout of 5 s by default, every POST carries `content[:2000]`; the number of POSTs, the result, the answers consumed and the time elapsed are those of `Deliver` |
| `DiscordLogging.WebhookHandler.Emit` | discord_logging.py:50-72 | behind the gate, the record is appended and nothing else changes. Otherwise the queue is rendered: if rendering fails, nothing changes; if not, exactly one `post_webhook` call sends the block, `last_emit` becomes the arrival time, and the queue is emptied on success or becomes the old queue plus the record on failure |
| `DiscordLogging.WebhookHandler.Flush` | discord_logging.py:74-77 | on an empty queue nothing changes and nothing is posted; otherwise it behaves exactly as `emit(None)` |
| `DiscordLogging.GatedRecordsQueueInOrder` | discord_logging.py:10-62 | with the default one-second interval, two records in the first second are queued in arrival order with no POST |
| `DiscordLogging.FailedFlushBlocksDelivery` | discord_logging.py:58-77 | a flush that times out queues `None` after the old records, and the next emission past the gate fails to format and posts nothing |
| `Script.Put` | script.py:116-119 | a dict assignment stores the pair and keeps every other key's pair; a new key is appended at the end; an existing key keeps its position and only its value changes |
| `Script.Collect` | script.py:116-119 | the comprehension fails iff some entry lacks `summaryScore.value` |
| `Script.EvaluateComment` | script.py:107-119 | `evaluate_comment` fails iff `attributeScores` is missing or some entry lacks `summaryScore.value` |
| `Script.EvaluateKeys` | script.py:116-119 | the result has unique keys, exactly the lower-cased attribute names of the answer |
| `Script.LastValueWins` | script.py:116-119 | each lower-cased name maps to the score of the last entry with that name |
| `Script.EvaluateDistinct` | script.py:116-119 | with distinct lower-cased names, the result is one pair per entry, in order: the lower-cased name and `summaryScore.value` |
| `Script.CleanPermalink` | script.py:85 | cleaning succeeds iff the permalink has a `/`-separated segment at index 5 |
| `Script.CleanPermalinkReplacesAll` | script.py:85 | the cleaned permalink is the pieces around every occurrence of that segment, joined with `_`. An empty segment puts `_` before every character and at the end |
| `Script.Header` | script.py:86-90 | the summary's first lines start with `New comment `, end with a blank line, and hold, in order, the id, the author, `https://www.reddit.com` followed by the cleaned link, and the body cut to 1500 characters and no more |
| `Script.ScoreLines` | script.py:93-94 | each attribute adds a line of at least 19 characters ending in a newline |
| `Script.ScoreLinesAppend` | script.py:93-94 | the lines of two runs of scores are those of the first followed by those of the second, so the lines follow result order |
| `Script.ScoreLinesSingle` | script.py:93-94 | one attribute gives exactly its own line, so there is one line per attribute |
| `Script.ScoreLineShape` | script.py:94 | a summary line is the attribute name padded to at least 16 characters, then `: `, the rendered score and a newline |
| `Script.Reports` | script.py:93-102 | there are at most as many reports as attributes, and every report names an attribute with a threshold and a score that meets it |
| `Script.FirstMissing` | script.py:95 | the first attribute without a configured threshold: every earlier one has a threshold |
| `Script.ReportsAppend` | script.py:93-102 | the reports for two runs of scores are those of the first followed by those of the second, so reports follow result order |
| `Script.ReportsSingle` | script.py:95-102 | one attribute gives one report iff its score is at or above its threshold (a tie reports), carrying attribute, score and threshold |
| `Script.ReportsIffEscalates` | script.py:93-96 | some report is filed iff some attribute meets its threshold |
| `Script.ReportsSound` | script.py:95-102 | every report carries an attribute and score from the results, and that attribute's threshold, which the score meets |
| `Script.ProcessComment` | script.py:82-104 | a malformed answer or a short permalink fails before any report. Otherwise, the outcome is `Escalate`'s over the header built from the id, author, cleaned link and at most 1500 characters of the body |
| `Script.Escalate` | script.py:91-104 | the summary has one line per attribute; the reports are exactly those of attributes meeting their thresholds, in order; the level is `info` iff some attribute escalates, else `debug`; a missing threshold fails at that attribute and keeps the earlier reports |
| `Script.FirstFatal` | script.py:72-79 | the first stream error that is not a `ServerError`: all earlier ones are |
| `Script.Supervise` | script.py:67-79 | each `ServerError` before the first other error gives a sleep of 25 to 35 seconds, logged at `warning`, and a re-subscription. The loop stops exactly when some other error occurs, logging that first one at `error` and re-raising it |

## Left out

- HTTP: `requests.post` and the `aiohttp` session are replaced by a scripted `Endpoint` and by the Perspective answer given as a value. The webhook URL is stored but not sent anywhere.
- The Reddit API: authentication, the comment stream, `mod_reddit.comment` and `.report` are left out. Reports are returned as `Report` values, and a stream subscription is represented only by the error that ended it. What `process_comment` does inside a subscription is modelled on its own.
- Dynaconf configuration, the module-level logger and handler setup, the handler's level filter, and `logging`'s dispatch of records to handlers are left out. The formatter is a constructor parameter of the handler.
- Percentage rendering (`{score:6.2%}`) is a parameter `percent`. The report reason text is not rendered; a `Report` carries the attribute, score and threshold.
- The real `monotonic()` and `sleep()` are replaced by a `Clock` object. The scoring call's `asyncio.sleep(1)` throttle, async scheduling and the `KeyboardInterrupt` handling at the entry point are runtime plumbing with no behaviour to state.
- `DiscordLogging.WebhookHandler.PostWebhook`: a run that never ends is not modelled. In the code, the webhook can keep failing while the elapsed time never passes the timeout: with a zero reset delay, or with positive delays whose sum stays within the timeout. Here an endpoint script is finite and then accepts, so every run ends. Every run that ends is covered.
- `DiscordLogging.WebhookHandler.PostWebhook`: `requests.post` raising (connection errors, timeouts) is not modelled. `Endpoint.Post` always answers. In the code the exception leaves `post_webhook` and `emit` uncaught, before `last_emit` and the queue are updated.
- `DiscordLogging.WebhookHandler.PostWebhook`: reset headers that are negative or not numbers are not modelled. In the code, `float()` or `sleep()` would raise on them; here delays have the type `Seconds`, which is never negative.
- `Strings.Lower`: only ASCII letters are lower-cased; Python lower-cases all of Unicode. Perspective's attribute names are ASCII.
- `Script.Supervise`: `OtherError` stands for any `Exception` subclass other than `ServerError`. A `BaseException` that is not an `Exception` (`KeyboardInterrupt`, `SystemExit`, `CancelledError`) passes through `main` unlogged; it is not modelled.
- `Script.Supervise`: the endless `while True` runs over a finite list of subscription ends. When the list runs out without a fatal error, the loop is reported as still running.
