/**
 * The moderation bot's main script: scores each comment of the subreddit's
 * stream with the Perspective API, reports every attribute that meets its
 * threshold to the moderators, logs a summary, and keeps the stream alive
 * across Reddit server errors.
 *
 * The Perspective answer, the Reddit stream and the report calls are inputs and
 * outputs of the members below: an answer is a list of score entries, a stream
 * subscription is the error that ended it, and the reports are returned.
 */
module Script {
  import opened Wrappers
  import opened Strings
  import opened DiscordLogging

  /** A Reddit comment, as far as the script reads it. */
  datatype Comment = Comment(id: string, author: string, body: string, permalink: string)

  /**
   * One entry of the answer's `attributeScores` object: the attribute name and
   * `summaryScore.value`, which is `None` when the entry lacks it.
   */
  datatype ScoreEntry = ScoreEntry(attribute: string, summaryScore: Option<real>)

  /** A Python `dict[str, float]` in insertion order. */
  type Scores = seq<(string, real)>

  function Keys(d: Scores): set<string>
  {
    set k | 0 <= k < |d| :: d[k].0
  }

  predicate UniqueKeys(d: Scores)
  {
    forall i, j :: 0 <= i < j < |d| ==> d[i].0 != d[j].0
  }

  /** The position of key `k` in `d`, or `|d|` when it is absent. */
  function IndexOf(d: Scores, k: string): (i: nat)
    ensures i <= |d|
    ensures i < |d| ==> d[i].0 == k
    ensures forall j :: 0 <= j < i ==> d[j].0 != k
  {
    if d == [] then 0 else if d[0].0 == k then 0 else 1 + IndexOf(d[1..], k)
  }

  /** `d[k] = v`: a present key keeps its place and takes the new value; a new key goes last. */
  function Put(d: Scores, k: string, v: real): (r: Scores)
    ensures (k, v) in r
    ensures forall p :: p in d && p.0 != k ==> p in r
    ensures k !in Keys(d) ==> r == d + [(k, v)]
    ensures UniqueKeys(d) && k in Keys(d) ==>
              |r| == |d| && forall j :: 0 <= j < |d| ==> r[j] == (if d[j].0 == k then (k, v) else d[j])
  {
    var i := IndexOf(d, k);
    if i < |d| then
      var r := d[i := (k, v)];
      assert r[i] == (k, v);
      assert forall j :: 0 <= j < |d| && j != i ==> r[j] == d[j];
      r
    else d + [(k, v)]
  }

  /** Writing a key keeps the keys unique and adds exactly that key. */
  lemma PutKeys(d: Scores, k: string, v: real)
    requires UniqueKeys(d)
    ensures UniqueKeys(Put(d, k, v))
    ensures Keys(Put(d, k, v)) == Keys(d) + {k}
  {
    var i := IndexOf(d, k);
    var r := Put(d, k, v);
    if i == |d| {
      assert r[|d|].0 == k;
    } else {
      forall x | x in Keys(d) + {k} ensures x in Keys(r) {
        if x != k {
          var j :| 0 <= j < |d| && d[j].0 == x;
          assert r[j].0 == x;
        } else {
          assert r[i].0 == k;
        }
      }
    }
  }

  /** Every entry has a summary score. */
  predicate AllScored(entries: seq<ScoreEntry>)
  {
    forall i :: 0 <= i < |entries| ==> entries[i].summaryScore.Some?
  }

  /**
   * The dict comprehension of `evaluate_comment`, from a partly built `acc` on.
   * It fails exactly when some entry lacks its summary score.
   */
  function Collect(entries: seq<ScoreEntry>, acc: Scores): (r: Option<Scores>)
    ensures r.Some? <==> AllScored(entries)
    decreases |entries|
  {
    if entries == [] then Some(acc)
    else if entries[0].summaryScore.None? then None
    else
      assert forall i :: 1 <= i < |entries| ==> entries[i] == entries[1..][i - 1];
      Collect(entries[1..], Put(acc, Lower(entries[0].attribute), entries[0].summaryScore.value))
  }

  /**
   * `evaluate_comment`: the `attributeScores` of the Perspective answer keyed by
   * lower-cased attribute name. `None` when the answer has no `attributeScores`
   * or an entry has no `summaryScore.value`: the lookup raises a `KeyError`.
   */
  function EvaluateComment(answer: Option<seq<ScoreEntry>>): (r: Option<Scores>)
    ensures r.None? <==> answer.None? || !AllScored(answer.value)
  {
    if answer.None? then None else Collect(answer.value, [])
  }

  /** The lower-cased names of `entries`. */
  function LowerNames(entries: seq<ScoreEntry>): set<string>
  {
    set i | 0 <= i < |entries| :: Lower(entries[i].attribute)
  }

  lemma {:induction false} CollectKeys(entries: seq<ScoreEntry>, acc: Scores)
    requires UniqueKeys(acc)
    ensures Collect(entries, acc).Some? ==>
              UniqueKeys(Collect(entries, acc).value) &&
              Keys(Collect(entries, acc).value) == Keys(acc) + LowerNames(entries)
    decreases |entries|
  {
    if entries != [] && entries[0].summaryScore.Some? {
      var k := Lower(entries[0].attribute);
      PutKeys(acc, k, entries[0].summaryScore.value);
      CollectKeys(entries[1..], Put(acc, k, entries[0].summaryScore.value));
      assert LowerNames(entries) == {k} + LowerNames(entries[1..]) by {
        forall x | x in LowerNames(entries) ensures x in {k} + LowerNames(entries[1..]) {
          var i :| 0 <= i < |entries| && Lower(entries[i].attribute) == x;
          if i > 0 { assert entries[1..][i - 1] == entries[i]; }
        }
        forall x | x in LowerNames(entries[1..]) ensures x in LowerNames(entries) {
          var i :| 0 <= i < |entries[1..]| && Lower(entries[1..][i].attribute) == x;
          assert entries[1..][i] == entries[i + 1];
        }
      }
    }
  }

  /** The result is a dict with exactly one key per lower-cased attribute name of the answer. */
  lemma EvaluateKeys(entries: seq<ScoreEntry>)
    ensures EvaluateComment(Some(entries)).Some? ==>
              UniqueKeys(EvaluateComment(Some(entries)).value) &&
              Keys(EvaluateComment(Some(entries)).value) == LowerNames(entries)
  {
    CollectKeys(entries, []);
  }

  /** No entry of `entries` lower-cases to `k`. */
  predicate NameAbsent(entries: seq<ScoreEntry>, k: string)
  {
    forall j :: 0 <= j < |entries| ==> Lower(entries[j].attribute) != k
  }

  lemma {:induction false} CollectKeepsUntouched(entries: seq<ScoreEntry>, acc: Scores, p: (string, real))
    requires p in acc && NameAbsent(entries, p.0)
    ensures Collect(entries, acc).Some? ==> p in Collect(entries, acc).value
    decreases |entries|
  {
    if entries != [] && entries[0].summaryScore.Some? {
      assert Lower(entries[0].attribute) != p.0;
      assert forall j :: 0 <= j < |entries[1..]| ==> entries[1..][j] == entries[j + 1];
      CollectKeepsUntouched(entries[1..], Put(acc, Lower(entries[0].attribute), entries[0].summaryScore.value), p);
    }
  }

  lemma {:induction false} CollectLastWins(entries: seq<ScoreEntry>, acc: Scores, i: nat)
    requires i < |entries| && entries[i].summaryScore.Some?
    requires NameAbsent(entries[i + 1..], Lower(entries[i].attribute))
    ensures Collect(entries, acc).Some? ==>
              (Lower(entries[i].attribute), entries[i].summaryScore.value) in Collect(entries, acc).value
    decreases |entries|
  {
    if entries[0].summaryScore.Some? {
      var acc' := Put(acc, Lower(entries[0].attribute), entries[0].summaryScore.value);
      if i == 0 {
        CollectKeepsUntouched(entries[1..], acc', (Lower(entries[0].attribute), entries[0].summaryScore.value));
      } else {
        assert entries[1..][i - 1] == entries[i];
        assert entries[1..][i - 1 + 1..] == entries[i + 1..];
        CollectLastWins(entries[1..], acc', i - 1);
      }
    }
  }

  /** Each lower-cased name maps to the score of the last entry with that name. */
  lemma LastValueWins(entries: seq<ScoreEntry>, i: nat)
    requires i < |entries| && entries[i].summaryScore.Some?
    requires NameAbsent(entries[i + 1..], Lower(entries[i].attribute))
    ensures EvaluateComment(Some(entries)).Some? ==>
              (Lower(entries[i].attribute), entries[i].summaryScore.value) in EvaluateComment(Some(entries)).value
  {
    CollectLastWins(entries, [], i);
  }

  /** The entries with lower-cased names and their summary scores, in the answer's order. */
  function Lowered(entries: seq<ScoreEntry>): (r: Scores)
    requires AllScored(entries)
    ensures |r| == |entries|
  {
    seq(|entries|, i requires 0 <= i < |entries| => (Lower(entries[i].attribute), entries[i].summaryScore.value))
  }

  lemma PutKeysFresh(d: Scores, k: string, v: real)
    requires k !in Keys(d)
    ensures Keys(Put(d, k, v)) == Keys(d) + {k}
  {
    var r := Put(d, k, v);
    assert r[|d|].0 == k;
    forall x | x in Keys(r) ensures x in Keys(d) + {k} {
      var j :| 0 <= j < |r| && r[j].0 == x;
      if j < |d| { assert r[j] == d[j]; }
    }
  }

  lemma LoweredCons(entries: seq<ScoreEntry>)
    requires |entries| > 0 && AllScored(entries)
    ensures AllScored(entries[1..])
    ensures Lowered(entries) == [(Lower(entries[0].attribute), entries[0].summaryScore.value)] + Lowered(entries[1..])
  {
    var tail := entries[1..];
    assert forall j :: 0 <= j < |tail| ==> tail[j] == entries[j + 1];
  }

  /** The lower-cased names of `entries` are pairwise distinct. */
  predicate DistinctNames(entries: seq<ScoreEntry>)
  {
    forall i, j :: 0 <= i < j < |entries| ==> Lower(entries[i].attribute) != Lower(entries[j].attribute)
  }

  /** No lower-cased name of `entries` is already a key of `acc`. */
  predicate FreshNames(entries: seq<ScoreEntry>, acc: Scores)
  {
    forall i :: 0 <= i < |entries| ==> Lower(entries[i].attribute) !in Keys(acc)
  }

  lemma DistinctTail(entries: seq<ScoreEntry>, acc: Scores, v: real)
    requires |entries| > 0 && DistinctNames(entries) && FreshNames(entries, acc)
    ensures DistinctNames(entries[1..])
    ensures FreshNames(entries[1..], Put(acc, Lower(entries[0].attribute), v))
  {
    var k := Lower(entries[0].attribute);
    var tail := entries[1..];
    assert forall j :: 0 <= j < |tail| ==> tail[j] == entries[j + 1];
    PutKeysFresh(acc, k, v);
  }

  lemma {:induction false} CollectDistinct(entries: seq<ScoreEntry>, acc: Scores)
    requires AllScored(entries) && DistinctNames(entries) && FreshNames(entries, acc)
    ensures Collect(entries, acc) == Some(acc + Lowered(entries))
    decreases |entries|
  {
    if entries == [] {
      assert acc + Lowered(entries) == acc;
    } else {
      var k := Lower(entries[0].attribute);
      var v := entries[0].summaryScore.value;
      var acc' := Put(acc, k, v);
      assert acc' == acc + [(k, v)];
      LoweredCons(entries);
      DistinctTail(entries, acc, v);
      CollectDistinct(entries[1..], acc');
      assert acc' + Lowered(entries[1..]) == acc + Lowered(entries);
    }
  }

  /**
   * When the lower-cased names are distinct, as for Perspective's upper-case
   * attribute names, the result has one entry per answer entry, in the same order.
   */
  lemma EvaluateDistinct(entries: seq<ScoreEntry>)
    requires AllScored(entries) && DistinctNames(entries)
    ensures EvaluateComment(Some(entries)) == Some(Lowered(entries))
  {
    assert Keys([]) == {};
    CollectDistinct(entries, []);
    assert [] + Lowered(entries) == Lowered(entries);
  }

  /**
   * The permalink with every occurrence of its `/`-separated segment at index 5
   * (the title slug) replaced by `_`. `None` when there is no such segment: the
   * index raises an `IndexError`.
   */
  function CleanPermalink(permalink: string): (r: Option<string>)
    ensures r.Some? <==> |Split(permalink, "/")| > 5
  {
    var segments := Split(permalink, "/");
    if |segments| <= 5 then None else Some(Replace(permalink, segments[5], "_"))
  }

  /**
   * The cleaned permalink is the pieces of the permalink around the occurrences
   * of its title slug, joined with `_`; a title slug that is empty puts a `_`
   * before every character and at the end.
   */
  lemma CleanPermalinkReplacesAll(permalink: string)
    requires |Split(permalink, "/")| > 5
    ensures var slug := Split(permalink, "/")[5];
            var cleaned := CleanPermalink(permalink).value;
            (slug != [] ==> cleaned == Join(Split(permalink, slug), "_")) &&
            (slug == [] ==> cleaned == "_" + Join(Chars(permalink), "_") + "_")
  {
    var slug := Split(permalink, "/")[5];
    if slug != [] {
      ReplaceIsJoinOfSplit(permalink, slug, "_");
    } else {
      assert permalink != [];
      ReplaceEmptyAroundEach(permalink, "_");
    }
  }

  /** The maximum number of characters of the body that the summary shows. */
  const MaxBody: nat := 1500
  /** The width the attribute names are padded to in the summary. */
  const AttributeWidth: nat := 16

  /** The first lines of the summary: the comment id, author, cleaned link and at most 1500 characters of the body. */
  function Header(c: Comment, link: string): (h: string)
    ensures |h| == 42 + |c.id| + |c.author| + |link| + (if |c.body| <= MaxBody then |c.body| else MaxBody)
    ensures h[..12] == "New comment " && h[|h| - 2..] == "\n\n"
    ensures h[12..12 + |c.id|] == c.id
    ensures h[16 + |c.id|..16 + |c.id| + |c.author|] == c.author
    ensures var at := 17 + |c.id| + |c.author|;
            h[at..at + 22] == "https://www.reddit.com" && h[at + 22..at + 22 + |link|] == link
    ensures var b := Truncate(c.body, MaxBody); h[|h| - 2 - |b|..|h| - 2] == b
  {
    "New comment " + c.id + " by " + c.author + "\n" +
    "https://www.reddit.com" + link + "\n" +
    Truncate(c.body, MaxBody) + "\n\n"
  }

  /** One line of the summary; `percent` renders the score as Python's `{score:6.2%}` does. */
  function ScoreLine(attribute: string, score: real, percent: real -> string): string
  {
    PadRight(attribute, AttributeWidth) + ": " + percent(score) + "\n"
  }

  /**
   * A summary line is the attribute name padded to at least 16 characters, then
   * `": "`, the rendered score and a newline.
   */
  lemma ScoreLineShape(attribute: string, score: real, percent: real -> string)
    ensures var p := PadRight(attribute, AttributeWidth);
            var l := ScoreLine(attribute, score, percent);
            |p| >= AttributeWidth && p[..|attribute|] == attribute && |l| == |p| + 3 + |percent(score)| &&
            l[..|p|] == p && l[|p|..|p| + 2] == ": " &&
            l[|p| + 2..|l| - 1] == percent(score) && l[|l| - 1] == '\n'
  {
  }

  /** One summary line per scored attribute, triggered or not. */
  function ScoreLines(results: Scores, percent: real -> string): (r: string)
    ensures |r| >= (AttributeWidth + 3) * |results|
    ensures results != [] ==> r[|r| - 1] == '\n'
  {
    if results == [] then ""
    else ScoreLines(results[..|results| - 1], percent) + ScoreLine(results[|results| - 1].0, results[|results| - 1].1, percent)
  }

  /** The summary lines of `a + b` are those of `a` followed by those of `b`: the lines follow result order. */
  lemma {:induction false} ScoreLinesAppend(a: Scores, b: Scores, percent: real -> string)
    ensures ScoreLines(a + b, percent) == ScoreLines(a, percent) + ScoreLines(b, percent)
    decreases |b|
  {
    if b == [] {
      assert a + b == a;
    } else {
      var init := b[..|b| - 1];
      var last := b[|b| - 1];
      var line := ScoreLine(last.0, last.1, percent);
      assert (a + b)[..|a + b| - 1] == a + init;
      assert (a + b)[|a + b| - 1] == last;
      assert ScoreLines(a + b, percent) == ScoreLines(a + init, percent) + line;
      assert ScoreLines(b, percent) == ScoreLines(init, percent) + line;
      ScoreLinesAppend(a, init, percent);
    }
  }

  /** A single attribute gives exactly its own summary line. */
  lemma ScoreLinesSingle(entry: (string, real), percent: real -> string)
    ensures ScoreLines([entry], percent) == ScoreLine(entry.0, entry.1, percent)
  {
    assert [entry][..0] == [];
  }

  /** A moderator report: the attribute, its score and its threshold. */
  datatype Report = Report(attribute: string, score: real, threshold: real)

  predicate HasThresholds(results: Scores, thresholds: map<string, real>)
  {
    forall j :: 0 <= j < |results| ==> results[j].0 in thresholds
  }

  /** A score at or above its threshold triggers a report; a tie triggers. */
  predicate Triggers(entry: (string, real), thresholds: map<string, real>)
    requires entry.0 in thresholds
  {
    entry.1 >= thresholds[entry.0]
  }

  /** Some attribute meets its threshold. */
  predicate Escalates(results: Scores, thresholds: map<string, real>)
    requires HasThresholds(results, thresholds)
  {
    exists j :: 0 <= j < |results| && Triggers(results[j], thresholds)
  }

  /** The reports issued for `results`, in their order. */
  function Reports(results: Scores, thresholds: map<string, real>): (r: seq<Report>)
    requires HasThresholds(results, thresholds)
    ensures |r| <= |results|
    ensures forall k :: 0 <= k < |r| ==> r[k].attribute in thresholds && r[k].score >= r[k].threshold
  {
    if results == [] then []
    else
      var last := results[|results| - 1];
      Reports(results[..|results| - 1], thresholds) +
      (if Triggers(last, thresholds) then [Report(last.0, last.1, thresholds[last.0])] else [])
  }

  /** The index of the first attribute without a threshold, or `|results|` when all have one. */
  function FirstMissing(results: Scores, thresholds: map<string, real>): (k: nat)
    ensures k <= |results|
    ensures HasThresholds(results[..k], thresholds)
    ensures k < |results| ==> results[k].0 !in thresholds
  {
    if results == [] then 0
    else if results[0].0 !in thresholds then 0
    else
      var k := 1 + FirstMissing(results[1..], thresholds);
      assert forall j :: 1 <= j < k ==> results[..k][j] == results[1..][..k - 1][j - 1];
      k
  }

  lemma {:induction false} ReportsAppend(a: Scores, b: Scores, thresholds: map<string, real>)
    requires HasThresholds(a, thresholds) && HasThresholds(b, thresholds)
    ensures HasThresholds(a + b, thresholds)
    ensures Reports(a + b, thresholds) == Reports(a, thresholds) + Reports(b, thresholds)
    decreases |b|
  {
    if b != [] {
      var b' := b[..|b| - 1];
      assert HasThresholds(b', thresholds) by {
        forall j | 0 <= j < |b'| ensures b'[j].0 in thresholds { assert b'[j] == b[j]; }
      }
      assert (a + b)[..|a + b| - 1] == a + b';
      assert (a + b)[|a + b| - 1] == b[|b| - 1];
      ReportsAppend(a, b', thresholds);
    } else {
      assert a + b == a;
    }
  }

  /** Reports of a single attribute: one exactly when it meets its threshold, carrying the attribute, score and threshold. */
  lemma ReportsSingle(entry: (string, real), thresholds: map<string, real>)
    requires entry.0 in thresholds
    ensures Reports([entry], thresholds) ==
              if entry.1 >= thresholds[entry.0] then [Report(entry.0, entry.1, thresholds[entry.0])] else []
  {
    assert [entry][..0] == [];
  }

  /** Some report is issued exactly when some attribute meets its threshold. */
  lemma {:induction false} ReportsIffEscalates(results: Scores, thresholds: map<string, real>)
    requires HasThresholds(results, thresholds)
    ensures Reports(results, thresholds) != [] <==> Escalates(results, thresholds)
    decreases |results|
  {
    if results != [] {
      var init := results[..|results| - 1];
      ReportsIffEscalates(init, thresholds);
      if Escalates(init, thresholds) {
        var j :| 0 <= j < |init| && Triggers(init[j], thresholds);
        assert results[j] == init[j];
      }
      if Escalates(results, thresholds) && !Triggers(results[|results| - 1], thresholds) {
        var j :| 0 <= j < |results| && Triggers(results[j], thresholds);
        assert init[j] == results[j];
      }
    }
  }

  /** Every report carries an attribute of `results`, its score and its threshold, and the score meets the threshold. */
  lemma {:induction false} ReportsSound(results: Scores, thresholds: map<string, real>, r: Report)
    requires HasThresholds(results, thresholds)
    requires r in Reports(results, thresholds)
    ensures (r.attribute, r.score) in results
    ensures r.attribute in thresholds && r.threshold == thresholds[r.attribute] && r.score >= r.threshold
    decreases |results|
  {
    var init := results[..|results| - 1];
    if r in Reports(init, thresholds) {
      ReportsSound(init, thresholds, r);
      assert forall p :: p in init ==> p in results;
    }
  }

  /** What `process_comment` did. */
  datatype Processed =
    | Logged(level: Level, text: string, reports: seq<Report>)
    | Failed(error: ProcessError, reports: seq<Report>)

  datatype ProcessError =
    | MalformedAnswer                    // the Perspective answer lacks a score
    | ShortPermalink                     // the permalink has no segment at index 5
    | MissingThreshold(attribute: string) // no threshold is configured for this attribute

  /**
   * `process_comment`: scores the comment, reports each attribute that meets its
   * threshold, and logs the summary at `Info` when something was reported and at
   * `Debug` otherwise. A failure ends the processing where `process_comment` raises; the
   * reports already issued stay issued.
   */
  method ProcessComment(c: Comment, answer: Option<seq<ScoreEntry>>, thresholds: map<string, real>,
                        percent: real -> string) returns (out: Processed)
    ensures EvaluateComment(answer).None? ==> out == Failed(MalformedAnswer, [])
    ensures EvaluateComment(answer).Some? && CleanPermalink(c.permalink).None? ==> out == Failed(ShortPermalink, [])
    ensures EvaluateComment(answer).Some? && CleanPermalink(c.permalink).Some? ==>
              var results := EvaluateComment(answer).value;
              var k := FirstMissing(results, thresholds);
              if k < |results| then
                out == Failed(MissingThreshold(results[k].0), Reports(results[..k], thresholds))
              else
                out.Logged? &&
                out.text == Header(c, CleanPermalink(c.permalink).value) + ScoreLines(results, percent) &&
                out.reports == Reports(results, thresholds) &&
                out.level == if Escalates(results, thresholds) then Info else Debug
  {
    var scores := EvaluateComment(answer);
    if scores.None? {
      return Failed(MalformedAnswer, []);
    }
    var link := CleanPermalink(c.permalink);
    if link.None? {
      return Failed(ShortPermalink, []);
    }
    out := Escalate(Header(c, link.value), scores.value, thresholds, percent);
  }

  /**
   * The loop of `process_comment` over the scores, after the summary's first
   * lines `head`: each attribute adds its line to the summary and, when it meets
   * its threshold, a report and the `Info` level. An attribute without a
   * threshold raises, leaving the reports issued before it.
   */
  method Escalate(head: string, results: Scores, thresholds: map<string, real>, percent: real -> string)
    returns (out: Processed)
    ensures var k := FirstMissing(results, thresholds);
            if k < |results| then
              out == Failed(MissingThreshold(results[k].0), Reports(results[..k], thresholds))
            else
              out.Logged? &&
              out.text == head + ScoreLines(results, percent) &&
              out.reports == Reports(results, thresholds) &&
              out.level == if Escalates(results, thresholds) then Info else Debug
  {
    var text := head;
    var level := Debug;
    var reports: seq<Report> := [];
    for i := 0 to |results|
      invariant HasThresholds(results[..i], thresholds)
      invariant text == head + ScoreLines(results[..i], percent)
      invariant reports == Reports(results[..i], thresholds)
      invariant level == if reports != [] then Info else Debug
    {
      var (attribute, score) := results[i];
      PrefixStep(results, thresholds, percent, i);
      text := text + ScoreLine(attribute, score, percent);
      if attribute !in thresholds {
        FirstMissingAt(results, thresholds, i);
        return Failed(MissingThreshold(attribute), reports);
      }
      if score >= thresholds[attribute] {
        level := Info;
        reports := reports + [Report(attribute, score, thresholds[attribute])];
      }
    }
    assert results[..|results|] == results;
    FirstMissingAt(results, thresholds, |results|);
    ReportsIffEscalates(results, thresholds);
    return Logged(level, text, reports);
  }

  /** One more attribute extends the summary by its line and the reports by its report, if any. */
  lemma PrefixStep(results: Scores, thresholds: map<string, real>, percent: real -> string, i: nat)
    requires i < |results| && HasThresholds(results[..i], thresholds)
    ensures ScoreLines(results[..i + 1], percent) ==
              ScoreLines(results[..i], percent) + ScoreLine(results[i].0, results[i].1, percent)
    ensures results[i].0 in thresholds ==>
              HasThresholds(results[..i + 1], thresholds) &&
              Reports(results[..i + 1], thresholds) ==
                Reports(results[..i], thresholds) +
                (if Triggers(results[i], thresholds) then [Report(results[i].0, results[i].1, thresholds[results[i].0])] else [])
  {
    assert results[..i + 1][..i] == results[..i];
    assert results[..i + 1][i] == results[i];
  }

  /** `FirstMissing` is the first place without a threshold. */
  lemma FirstMissingAt(results: Scores, thresholds: map<string, real>, i: nat)
    requires i <= |results| && HasThresholds(results[..i], thresholds)
    requires i < |results| ==> results[i].0 !in thresholds
    ensures FirstMissing(results, thresholds) == i
  {
    var k := FirstMissing(results, thresholds);
    assert forall j :: 0 <= j < i ==> results[j].0 in thresholds by {
      forall j | 0 <= j < i ensures results[j].0 in thresholds { assert results[..i][j] == results[j]; }
    }
    assert forall j :: 0 <= j < k ==> results[j].0 in thresholds by {
      forall j | 0 <= j < k ensures results[j].0 in thresholds { assert results[..k][j] == results[j]; }
    }
  }

  /** How one subscription to the comment stream ended: the loop over it only ends by an exception. */
  datatype StreamEnd =
    | ServerError         // asyncprawcore's `ServerError`
    | OtherError(name: string)

  /** What the supervisor logged about a subscription's end. */
  datatype SupervisorEvent = RetryingIn(seconds: int) | Encountered(error: StreamEnd)

  /** A log line of the supervisor: `logger.warning` for a retry, `logger.error` for a fatal error. */
  datatype SupervisorLog = SupervisorLog(level: Level, event: SupervisorEvent)

  /** The index of the first end that is not a `ServerError`, or `|ends|`. */
  function FirstFatal(ends: seq<StreamEnd>): (k: nat)
    ensures k <= |ends|
    ensures forall j :: 0 <= j < k ==> ends[j] == ServerError
    ensures k < |ends| ==> ends[k].OtherError?
  {
    if ends == [] || ends[0].OtherError? then 0 else 1 + FirstFatal(ends[1..])
  }

  /** The backoff bounds of `randint(25, 35)`, both inclusive. */
  const MinBackoff := 25
  const MaxBackoff := 35

  /**
   * The `while True` loop of `main` over the ends of successive subscriptions:
   * after a `ServerError`, sleep a duration chosen in 25..35 seconds and
   * subscribe again; any other error is logged and re-raised, which stops the
   * loop. `stopped` is that error; `None` when the loop is still running after `ends`.
   */
  method Supervise(ends: seq<StreamEnd>) returns (stopped: Option<StreamEnd>, sleeps: seq<int>, log: seq<SupervisorLog>)
    ensures forall j :: 0 <= j < |sleeps| ==> MinBackoff <= sleeps[j] <= MaxBackoff
    ensures stopped.Some? <==> exists j :: 0 <= j < |ends| && ends[j].OtherError?
    ensures stopped.Some? ==> stopped.value == ends[FirstFatal(ends)]
    ensures |sleeps| == FirstFatal(ends)
    ensures |log| == |sleeps| + (if stopped.Some? then 1 else 0)
    ensures forall j :: 0 <= j < |sleeps| ==> log[j] == SupervisorLog(Warning, RetryingIn(sleeps[j]))
    ensures stopped.Some? ==> log[|sleeps|] == SupervisorLog(Error, Encountered(stopped.value))
  {
    sleeps, log := [], [];
    var i := 0;
    while i < |ends|
      invariant i <= FirstFatal(ends)
      invariant |sleeps| == i && |log| == i
      invariant forall j :: 0 <= j < i ==> MinBackoff <= sleeps[j] <= MaxBackoff && log[j] == SupervisorLog(Warning, RetryingIn(sleeps[j]))
    {
      match ends[i]
      case ServerError =>
        var pause :| MinBackoff <= pause <= MaxBackoff;
        log := log + [SupervisorLog(Warning, RetryingIn(pause))];
        sleeps := sleeps + [pause];
        i := i + 1;
      case OtherError(_) =>
        log := log + [SupervisorLog(Error, Encountered(ends[i]))];
        return Some(ends[i]), sleeps, log;
    }
    return None, sleeps, log;
  }
}
