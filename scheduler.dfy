/**
 * The poll scheduler (core/scheduler.py), run one step at a time.
 *
 * A polling task is represented by its bookkeeping entry; the concurrent
 * execution of tasks, cancellation, real sleeping and random jitter are not
 * modelled: jitter is an integer input, the stagger sleeps `start` awaits are
 * recorded as steps of a start-up trace, and the endless `_poll_loop` runs
 * for as many cycles as it is given inputs for.
 */
module Scheduler {
  import opened Optional
  import opened Models
  import State
  import Bus
  import Fetcher
  import FeedParser

  /** `_MAX_BACKOFF_EXP`: the cap on the exponent of the backoff factor. */
  const MaxBackoffExp: nat := 5
  /** The base poll interval, in seconds, of a provider configured without one. */
  const DefaultPollInterval: int := 30

  datatype ProviderConfig = ProviderConfig(
    name: string,
    feedUrl: string,
    product: Option<string>,
    pollIntervalSeconds: Option<int>)

  /** The product label: the configured one, else the provider name. */
  function ProductOf(cfg: ProviderConfig): (r: string)
    ensures cfg.product.None? ==> r == cfg.name
    ensures cfg.product.Some? ==> r == cfg.product.value
  {
    cfg.product.GetOr(cfg.name)
  }

  /** The base poll interval: the configured one, else 30 seconds. */
  function BaseIntervalOf(cfg: ProviderConfig): (r: int)
    ensures cfg.pollIntervalSeconds.None? ==> r == DefaultPollInterval
    ensures cfg.pollIntervalSeconds.Some? ==> r == cfg.pollIntervalSeconds.value
  {
    cfg.pollIntervalSeconds.GetOr(DefaultPollInterval)
  }

  // ---------------------------------------------------------------------
  // Backoff arithmetic of `_poll_loop`
  // ---------------------------------------------------------------------

  function Pow2(n: nat): (r: nat)
    ensures r >= 1
  {
    if n == 0 then 1 else 2 * Pow2(n - 1)
  }

  /** `base_interval * 2 ** min(failure_count, _MAX_BACKOFF_EXP)`. */
  function Backoff(base: int, failureCount: nat): int {
    base * Pow2(if failureCount < MaxBackoffExp then failureCount else MaxBackoffExp)
  }

  /** Each further failure doubles the backoff until the exponent reaches its cap. */
  lemma BackoffDoubles(base: int, failureCount: nat)
    requires failureCount < MaxBackoffExp
    ensures Backoff(base, failureCount + 1) == 2 * Backoff(base, failureCount)
  {
  }

  /** From five failures on, the backoff stays at 32 times the base interval. */
  lemma BackoffCapped(base: int, failureCount: nat)
    requires failureCount >= MaxBackoffExp
    ensures Backoff(base, failureCount) == 32 * base
  {
  }

  /** For a non-negative base interval the backoff never shrinks as failures accumulate. */
  lemma BackoffMonotone(base: int, fewer: nat, more: nat)
    requires base >= 0 && fewer <= more
    ensures base <= Backoff(base, fewer) <= Backoff(base, more) <= 32 * base
  {
    var lo := if fewer < MaxBackoffExp then fewer else MaxBackoffExp;
    var hi := if more < MaxBackoffExp then more else MaxBackoffExp;
    Pow2Monotone(lo, hi);
    PowBelowCap(hi);
    ScaleMonotone(base, Pow2(lo), Pow2(hi), 32);
  }

  lemma {:induction false} Pow2Monotone(lo: nat, hi: nat)
    requires lo <= hi
    ensures Pow2(lo) <= Pow2(hi)
    decreases hi - lo
  {
    if lo < hi {
      Pow2Monotone(lo, hi - 1);
    }
  }

  lemma ScaleMonotone(base: int, x: int, y: int, z: int)
    requires base >= 0 && 1 <= x <= y <= z
    ensures base <= base * x <= base * y <= base * z
  {
    assert base * x - base == base * (x - 1);
    assert base * y - base * x == base * (y - x);
    assert base * z - base * y == base * (z - y);
  }

  lemma {:induction false} PowBelowCap(e: nat)
    requires e <= MaxBackoffExp
    ensures Pow2(e) <= 32
  {
    if e > 0 {
      PowBelowCap(e - 1);
    }
  }

  /**
   * The loop's bookkeeping after one cycle: a success resets the failure
   * count and sleeps the base interval plus jitter; a failure increments the
   * count and sleeps the backoff for the new count plus jitter.
   */
  function NextSleep(succeeded: bool, failureCount: nat, base: int, jitter: int): (r: (nat, int))
    ensures succeeded ==> r.0 == 0 && r.1 == base + jitter
    ensures !succeeded ==> r.0 == failureCount + 1 && r.1 == Backoff(base, r.0) + jitter
  {
    if succeeded then (0, base + jitter)
    else (failureCount + 1, Backoff(base, failureCount + 1) + jitter)
  }

  /**
   * Three failures then a success at base 10 and no jitter sleep 20, 40,
   * 80 and then 10, with the count back at 0.
   */
  lemma BackoffExample()
    ensures var (c1, s1) := NextSleep(false, 0, 10, 0);
      var (c2, s2) := NextSleep(false, c1, 10, 0);
      var (c3, s3) := NextSleep(false, c2, 10, 0);
      var (c4, s4) := NextSleep(true, c3, 10, 0);
      s1 == 20 && s2 == 40 && s3 == 80 && s4 == 10 && c3 == 3 && c4 == 0
  {
  }

  /** One turn of the poll loop: the network for that cycle, the jitter drawn, and the clock reading. */
  datatype Tick = Tick(transport: Fetcher.Transport, jitter: int, now: string)

  /** The failure count after a run of cycle outcomes (true = success): the failures since the last success. */
  function FailureCount(outcomes: seq<bool>): nat {
    if outcomes == [] then 0
    else if outcomes[|outcomes| - 1] then 0
    else FailureCount(outcomes[..|outcomes| - 1]) + 1
  }

  /** The sleep after the last of a non-empty run of outcomes. */
  function SleepAfter(outcomes: seq<bool>, base: int, jitter: int): int
    requires outcomes != []
  {
    NextSleep(outcomes[|outcomes| - 1], FailureCount(outcomes[..|outcomes| - 1]), base, jitter).1
  }

  /**
   * One more cycle extends the schedule by the sleep `NextSleep` makes of
   * the failure count so far, and moves the count as `NextSleep` says.
   */
  lemma ScheduleNext(outcomes: seq<bool>, ok: bool, base: int, ticks: seq<Tick>)
    requires |outcomes| < |ticks|
    ensures var next := NextSleep(ok, FailureCount(outcomes), base, ticks[|outcomes|].jitter);
      var n := |outcomes|;
      && FailureCount(outcomes + [ok]) == next.0
      && Schedule(outcomes + [ok], base, ticks[..n + 1]) == Schedule(outcomes, base, ticks[..n]) + [next.1]
  {
    var n := |outcomes|;
    assert (outcomes + [ok])[..n] == outcomes;
    assert ticks[..n + 1][..n] == ticks[..n];
  }

  /** The sleeps after each of a run of outcomes, the jitter of each cycle taken from its tick. */
  function Schedule(outcomes: seq<bool>, base: int, ticks: seq<Tick>): (r: seq<int>)
    requires |outcomes| == |ticks|
    ensures |r| == |outcomes|
  {
    if outcomes == [] then []
    else
      var n := |outcomes| - 1;
      Schedule(outcomes[..n], base, ticks[..n]) + [SleepAfter(outcomes, base, ticks[n].jitter)]
  }

  /**
   * The sleep after cycle `k` depends on the outcomes up to and including
   * that cycle, and on that cycle's jitter, and on nothing later.
   */
  lemma {:induction false} ScheduleSleeps(outcomes: seq<bool>, base: int, ticks: seq<Tick>)
    requires |outcomes| == |ticks|
    ensures forall k :: 0 <= k < |outcomes| ==>
      Schedule(outcomes, base, ticks)[k] == SleepAfter(outcomes[..k + 1], base, ticks[k].jitter)
  {
    if outcomes != [] {
      var n := |outcomes| - 1;
      ScheduleSleeps(outcomes[..n], base, ticks[..n]);
      forall k | 0 <= k < n
        ensures Schedule(outcomes, base, ticks)[k] == SleepAfter(outcomes[..k + 1], base, ticks[k].jitter)
      {
        assert outcomes[..n][..k + 1] == outcomes[..k + 1];
        assert ticks[..n][k] == ticks[k];
      }
      assert outcomes[..n + 1] == outcomes;
    }
  }

  /**
   * With no jitter and a non-negative base, every sleep lies between the
   * base interval and 32 times it, and after a success it is the base.
   */
  lemma SleepBounds(outcomes: seq<bool>, base: int)
    requires outcomes != [] && base >= 0
    ensures base <= SleepAfter(outcomes, base, 0) <= 32 * base
    ensures outcomes[|outcomes| - 1] ==> SleepAfter(outcomes, base, 0) == base
  {
    if !outcomes[|outcomes| - 1] {
      BackoffMonotone(base, FailureCount(outcomes[..|outcomes| - 1]) + 1, FailureCount(outcomes[..|outcomes| - 1]) + 1);
    }
  }

  // ---------------------------------------------------------------------
  // Start-up and shutdown bookkeeping
  // ---------------------------------------------------------------------

  /** A polling task, known by its name and the provider it polls. */
  datatype Task = Task(name: string, provider: ProviderConfig)

  function TaskFor(cfg: ProviderConfig): Task {
    Task("poll-" + cfg.name, cfg)
  }

  /** One task per configuration, in configuration order. */
  function TasksFor(cfgs: seq<ProviderConfig>): (r: seq<Task>)
    ensures |r| == |cfgs|
    ensures forall i :: 0 <= i < |cfgs| ==> r[i] == TaskFor(cfgs[i])
  {
    if cfgs == [] then [] else TasksFor(cfgs[..|cfgs| - 1]) + [TaskFor(cfgs[|cfgs| - 1])]
  }

  /** What `start` does, step by step: a stagger sleep, or the launch of the task of one provider. */
  datatype StartStep = Stagger | Launch(index: nat)

  /** The steps of `start` for `n` providers: launches in order, a stagger before all but the first. */
  function StartTrace(n: nat): seq<StartStep> {
    if n == 0 then []
    else StartTrace(n - 1) + (if n - 1 > 0 then [Stagger] else []) + [Launch(n - 1)]
  }

  function Staggers(trace: seq<StartStep>): nat {
    if trace == [] then 0
    else Staggers(trace[..|trace| - 1]) + (if trace[|trace| - 1] == Stagger then 1 else 0)
  }

  function Launches(trace: seq<StartStep>): seq<nat> {
    if trace == [] then []
    else Launches(trace[..|trace| - 1]) + (if trace[|trace| - 1].Launch? then [trace[|trace| - 1].index] else [])
  }

  /** The last step of the start-up trace for `n` providers launches provider `n - 1`, right after a stagger unless it is the first. */
  lemma StartTraceLast(n: nat)
    requires n > 0
    ensures var t := StartTrace(n);
      var prev := StartTrace(n - 1);
      && t[..|t| - 1] == (if n > 1 then prev + [Stagger] else prev)
      && t[|t| - 1] == Launch(n - 1)
  {
  }

  /** `start` for `n` providers launches each provider exactly once, in configuration order. */
  lemma {:induction false} StartLaunchesEach(n: nat)
    ensures Launches(StartTrace(n)) == seq(n, i => i)
  {
    if n > 0 {
      StartLaunchesEach(n - 1);
      StartTraceLast(n);
      var prev := StartTrace(n - 1);
      if n > 1 {
        var withStagger := prev + [Stagger];
        assert withStagger[..|withStagger| - 1] == prev;
        assert Launches(withStagger) == Launches(prev);
      }
      assert seq(n - 1, i => i) + [n - 1] == seq(n, i => i);
    }
  }

  /** `start` for `n` providers sleeps the stagger delay n - 1 times. */
  lemma {:induction false} StartStaggerCount(n: nat)
    ensures Staggers(StartTrace(n)) == if n == 0 then 0 else n - 1
  {
    if n > 0 {
      StartStaggerCount(n - 1);
      StartTraceLast(n);
      var prev := StartTrace(n - 1);
      if n > 1 {
        var withStagger := prev + [Stagger];
        assert withStagger[..|withStagger| - 1] == prev;
        assert Staggers(withStagger) == Staggers(prev) + 1;
      }
    }
  }

  /** `start` launches first without sleeping, and sleeps the stagger delay right before every later launch. */
  lemma {:induction false} StartStaggersBeforeLaunch(n: nat)
    ensures n > 0 ==> StartTrace(n)[0] == Launch(0)
    ensures forall j :: 0 < j < |StartTrace(n)| && StartTrace(n)[j].Launch? ==> StartTrace(n)[j - 1] == Stagger
  {
    if n > 0 {
      StartStaggersBeforeLaunch(n - 1);
      var prev := StartTrace(n - 1);
      var t := StartTrace(n);
      if n > 1 {
        assert t == prev + [Stagger, Launch(n - 1)];
        forall j | 0 < j < |t| && t[j].Launch?
          ensures t[j - 1] == Stagger
        {
          if j < |prev| {
            assert t[j] == prev[j] && t[j - 1] == prev[j - 1];
          }
        }
      } else {
        assert t == [Launch(0)];
      }
    }
  }

  // ---------------------------------------------------------------------
  // One poll cycle, as values
  // ---------------------------------------------------------------------

  /**
   * The foreign functions a cycle relies on: the feed library, HTML entity
   * decoding, and `datetime.fromisoformat` followed by the display
   * rendering (None when the timestamp cannot be parsed).
   */
  datatype Foreign = Foreign(
    feedparser: string -> FeedParser.Feed,
    unescape: string -> string,
    parseTime: string -> Option<string>)

  /**
   * The event for a changed entry: provider `name`, product
   * "<product> - <title>", the title as status, the summary as message, the
   * entry id, and the entry's timestamp, or `now` when it cannot be parsed.
   */
  function MakeEvent(name: string, product: string, e: FeedParser.ParsedEntry, t: EventType,
                     parseTime: string -> Option<string>, now: string): (ev: StatusEvent)
    ensures ev.provider == name && ev.product == product + " - " + e.title
    ensures ev.status == e.title && ev.message == e.summary
    ensures ev.incidentId == e.entryId && ev.eventType == t
    ensures ev.timestamp == parseTime(e.updated).GetOr(now)
  {
    StatusEvent(name, product + " - " + e.title, e.title, e.summary, parseTime(e.updated).GetOr(now), e.entryId, t)
  }

  /**
   * One entry of the detect/mark/emit walk: an unchanged entry leaves the
   * seen entries alone and yields nothing; a changed one is recorded as seen
   * and yields one event whose type is the detection result.
   */
  function Step(seen: map<string, string>, e: FeedParser.ParsedEntry,
                name: string, product: string, parseTime: string -> Option<string>, now: string)
    : (r: (map<string, string>, seq<StatusEvent>))
    ensures r.1 == [] <==> e.entryId in seen && seen[e.entryId] == e.updated
    ensures r.1 == [] ==> r.0 == seen
    ensures r.1 != [] ==>
      && r.0 == seen[e.entryId := e.updated] && |r.1| == 1
      && r.1[0].eventType == (if e.entryId in seen then Updated else New)
  {
    var (changed, changeType) := State.Detect(seen, e.entryId, e.updated);
    if !changed then (seen, [])
    else (seen[e.entryId := e.updated], [MakeEvent(name, product, e, ParseEventType(changeType).value, parseTime, now)])
  }

  /** The walk over all parsed entries, in parser order: the final seen entries and the events. */
  function Detection(seen: map<string, string>, entries: seq<FeedParser.ParsedEntry>,
                     name: string, product: string, parseTime: string -> Option<string>, now: string)
    : (map<string, string>, seq<StatusEvent>)
    decreases |entries|
  {
    if entries == [] then (seen, [])
    else
      var (next, emitted) := Step(seen, entries[0], name, product, parseTime, now);
      var rest := Detection(next, entries[1..], name, product, parseTime, now);
      (rest.0, emitted + rest.1)
  }

  /**
   * One turn of the walk from position `i`: what remains to be emitted
   * after `done` is this entry's step followed by the walk from `i + 1`.
   */
  lemma DetectionAdvance(whole: (map<string, string>, seq<StatusEvent>), done: seq<StatusEvent>,
                         seen: map<string, string>, entries: seq<FeedParser.ParsedEntry>, i: nat,
                         name: string, product: string, parseTime: string -> Option<string>, now: string)
    requires i < |entries|
    requires var rest := Detection(seen, entries[i..], name, product, parseTime, now);
      whole.0 == rest.0 && whole.1 == done + rest.1
    ensures var step := Step(seen, entries[i], name, product, parseTime, now);
      var rest := Detection(step.0, entries[i + 1..], name, product, parseTime, now);
      whole.0 == rest.0 && whole.1 == (done + step.1) + rest.1
  {
    assert entries[i..][1..] == entries[i + 1..];
  }

  /** A store view with the seen entries of `name` replaced. */
  ghost function WithSeen(view: map<string, State.StateView>, name: string, seen: map<string, string>): map<string, State.StateView>
    requires name in view
  {
    view[name := view[name].(seenEntries := seen)]
  }

  lemma WithSeenSame(view: map<string, State.StateView>, name: string)
    requires name in view
    ensures WithSeen(view, name, view[name].seenEntries) == view
  {
  }

  lemma WithSeenTwice(view: map<string, State.StateView>, name: string, a: map<string, string>, b: map<string, string>)
    requires name in view
    ensures WithSeen(WithSeen(view, name, a), name, b) == WithSeen(view, name, b)
  {
  }

  /** `event` carries the fields that cycle derives from entry `e`. */
  predicate DerivedFrom(event: StatusEvent, e: FeedParser.ParsedEntry, name: string, product: string,
                        parseTime: string -> Option<string>, now: string)
  {
    && event.provider == name && event.product == product + " - " + e.title
    && event.status == e.title && event.message == e.summary
    && event.incidentId == e.entryId && event.timestamp == parseTime(e.updated).GetOr(now)
  }

  /** Every position moved one place on. */
  ghost function Shift(positions: seq<nat>): (r: seq<nat>)
    ensures |r| == |positions|
    ensures forall k :: 0 <= k < |positions| ==> r[k] == positions[k] + 1
  {
    seq(|positions|, k requires 0 <= k < |positions| => positions[k] + 1)
  }

  /** The positions of the entries the walk emits an event for. */
  ghost function Emitted(seen: map<string, string>, entries: seq<FeedParser.ParsedEntry>): seq<nat>
    decreases |entries|
  {
    if entries == [] then []
    else
      var e := entries[0];
      var changed := State.Detect(seen, e.entryId, e.updated).0;
      var rest := Emitted(if changed then seen[e.entryId := e.updated] else seen, entries[1..]);
      (if changed then [0] else []) + Shift(rest)
  }

  /** The emitting positions are positions of the feed, listed in increasing order. */
  lemma {:induction false} EmittedInOrder(seen: map<string, string>, entries: seq<FeedParser.ParsedEntry>)
    ensures var p := Emitted(seen, entries);
      && (forall k :: 0 <= k < |p| ==> p[k] < |entries|)
      && (forall j, k :: 0 <= j < k < |p| ==> p[j] < p[k])
    decreases |entries|
  {
    if entries != [] {
      var e := entries[0];
      var changed := State.Detect(seen, e.entryId, e.updated).0;
      var next := if changed then seen[e.entryId := e.updated] else seen;
      var rest := Emitted(next, entries[1..]);
      EmittedInOrder(next, entries[1..]);
      assert var q := Emitted(next, entries[1..]); forall k :: 0 <= k < |q| ==> q[k] < |entries[1..]|;
      var first: seq<nat> := if changed then [0] else [];
      assert Emitted(seen, entries) == first + Shift(rest);
      ConsInOrder(first, rest, |entries|);
    }
  }

  /** Position 0, if present, before the positions of a shorter feed shifted by one keeps order and bounds. */
  lemma ConsInOrder(first: seq<nat>, rest: seq<nat>, n: nat)
    requires n >= 1 && |first| <= 1 && (first != [] ==> first[0] == 0)
    requires forall k :: 0 <= k < |rest| ==> rest[k] < n - 1
    requires forall j, k :: 0 <= j < k < |rest| ==> rest[j] < rest[k]
    ensures var p := first + Shift(rest);
      && (forall k :: 0 <= k < |p| ==> p[k] < n)
      && (forall j, k :: 0 <= j < k < |p| ==> p[j] < p[k])
  {
    var p := first + Shift(rest);
    var skip := |first|;
    forall k | 0 <= k < |p|
      ensures p[k] < n
    {
      if k >= skip {
        assert p[k] == rest[k - skip] + 1;
      }
    }
    forall j, k | 0 <= j < k < |p|
      ensures p[j] < p[k]
    {
      assert p[k] == rest[k - skip] + 1;
      if j >= skip {
        assert p[j] == rest[j - skip] + 1;
      }
    }
  }

  /**
   * Events come only from entries, one per emitting entry, in parser order,
   * each carrying the fields derived from its entry.
   */
  lemma {:induction false} DetectionEventsFollowEntries(seen: map<string, string>, entries: seq<FeedParser.ParsedEntry>,
      name: string, product: string, parseTime: string -> Option<string>, now: string)
    ensures var events := Detection(seen, entries, name, product, parseTime, now).1;
      var p := Emitted(seen, entries);
      && |events| == |p|
      && forall k :: 0 <= k < |p| ==> p[k] < |entries| && DerivedFrom(events[k], entries[p[k]], name, product, parseTime, now)
    decreases |entries|
  {
    if entries != [] {
      var e := entries[0];
      var (changed, _) := State.Detect(seen, e.entryId, e.updated);
      var step := Step(seen, e, name, product, parseTime, now);
      assert step.1 != [] <==> changed;
      var next := if changed then seen[e.entryId := e.updated] else seen;
      assert step.0 == next;
      DetectionEventsFollowEntries(next, entries[1..], name, product, parseTime, now);
      var restEvents := Detection(next, entries[1..], name, product, parseTime, now).1;
      var restPos := Emitted(next, entries[1..]);
      var events := Detection(seen, entries, name, product, parseTime, now).1;
      var p := Emitted(seen, entries);
      assert events == step.1 + restEvents;
      var firstPos: seq<nat> := if changed then [0] else [];
      assert p == firstPos + Shift(restPos);
      ConsDerived(events, p, entries, step.1, restEvents, firstPos, restPos, name, product, parseTime, now);
    }
  }

  /**
   * The events and positions of a walk, built from the first entry's
   * contribution (at most one event, at position 0) and those of the rest of the
   * walk (positions shifted by one), still match entry by entry.
   */
  lemma ConsDerived(events: seq<StatusEvent>, p: seq<nat>, entries: seq<FeedParser.ParsedEntry>,
                    first: seq<StatusEvent>, restEvents: seq<StatusEvent>, firstPos: seq<nat>, restPos: seq<nat>,
                    name: string, product: string, parseTime: string -> Option<string>, now: string)
    requires entries != [] && |first| == |firstPos| <= 1
    requires events == first + restEvents && p == firstPos + Shift(restPos) && |restEvents| == |restPos|
    requires first != [] ==> firstPos[0] == 0 && DerivedFrom(first[0], entries[0], name, product, parseTime, now)
    requires forall j :: 0 <= j < |restPos| ==>
      && restPos[j] < |entries| - 1
      && DerivedFrom(restEvents[j], entries[1..][restPos[j]], name, product, parseTime, now)
    ensures |events| == |p|
    ensures forall k :: 0 <= k < |p| ==> p[k] < |entries| && DerivedFrom(events[k], entries[p[k]], name, product, parseTime, now)
  {
    var skip := |first|;
    forall k | 0 <= k < |p|
      ensures p[k] < |entries| && DerivedFrom(events[k], entries[p[k]], name, product, parseTime, now)
    {
      if k >= skip {
        var j := k - skip;
        assert events[k] == restEvents[j];
        assert p[k] == Shift(restPos)[j] == restPos[j] + 1;
        assert entries[p[k]] == entries[1..][restPos[j]];
      }
    }
  }

  /** When every entry's `updated` string is already recorded, the walk emits nothing and records nothing. */
  lemma {:induction false} DetectionQuietWhenRecorded(seen: map<string, string>, entries: seq<FeedParser.ParsedEntry>,
      name: string, product: string, parseTime: string -> Option<string>, now: string)
    requires forall k :: 0 <= k < |entries| ==> entries[k].entryId in seen && seen[entries[k].entryId] == entries[k].updated
    ensures Detection(seen, entries, name, product, parseTime, now) == (seen, [])
    decreases |entries|
  {
    if entries != [] {
      forall k | 0 <= k < |entries[1..]|
        ensures entries[1..][k].entryId in seen && seen[entries[1..][k].entryId] == entries[1..][k].updated
      {
        assert entries[1..][k] == entries[k + 1];
      }
      DetectionQuietWhenRecorded(seen, entries[1..], name, product, parseTime, now);
      var step := Step(seen, entries[0], name, product, parseTime, now);
      assert step.0 == seen && step.1 == [];
      assert step.1 + [] == [];
    }
  }

  /** Entries that share an id also share their `updated` string. */
  ghost predicate ConsistentIds(entries: seq<FeedParser.ParsedEntry>) {
    forall j, k :: 0 <= j < |entries| && 0 <= k < |entries| && entries[j].entryId == entries[k].entryId ==>
      entries[j].updated == entries[k].updated
  }

  /**
   * After the walk every entry's `updated` string is recorded under its id,
   * provided entries sharing an id agree; ids not in the feed keep their
   * old record.
   */
  lemma {:induction false} DetectionRecordsAll(seen: map<string, string>, entries: seq<FeedParser.ParsedEntry>,
      name: string, product: string, parseTime: string -> Option<string>, now: string)
    requires ConsistentIds(entries)
    ensures var after := Detection(seen, entries, name, product, parseTime, now).0;
      && (forall k :: 0 <= k < |entries| ==> entries[k].entryId in after && after[entries[k].entryId] == entries[k].updated)
      && (forall x :: (forall k :: 0 <= k < |entries| ==> entries[k].entryId != x) ==>
            (x in after <==> x in seen) && (x in seen ==> after[x] == seen[x]))
    decreases |entries|
  {
    if entries != [] {
      var e := entries[0];
      var rest := entries[1..];
      var (changed, _) := State.Detect(seen, e.entryId, e.updated);
      var next := if changed then seen[e.entryId := e.updated] else seen;
      assert ConsistentIds(rest) by {
        forall j, k | 0 <= j < |rest| && 0 <= k < |rest| && rest[j].entryId == rest[k].entryId
          ensures rest[j].updated == rest[k].updated
        {
          assert rest[j] == entries[j + 1] && rest[k] == entries[k + 1];
        }
      }
      DetectionRecordsAll(next, rest, name, product, parseTime, now);
      var after := Detection(seen, entries, name, product, parseTime, now).0;
      assert after == Detection(next, rest, name, product, parseTime, now).0;
      assert e.entryId in next && next[e.entryId] == e.updated;
      forall k | 0 <= k < |entries|
        ensures entries[k].entryId in after && after[entries[k].entryId] == entries[k].updated
      {
        if k > 0 {
          assert entries[k] == rest[k - 1];
        } else if exists j :: 0 <= j < |rest| && rest[j].entryId == e.entryId {
          var j :| 0 <= j < |rest| && rest[j].entryId == e.entryId;
          assert rest[j] == entries[j + 1];
        }
      }
      forall x | (forall k :: 0 <= k < |entries| ==> entries[k].entryId != x)
        ensures (x in after <==> x in seen) && (x in seen ==> after[x] == seen[x])
      {
        assert entries[0].entryId != x;
        forall k | 0 <= k < |rest|
          ensures rest[k].entryId != x
        {
          assert rest[k] == entries[k + 1];
        }
      }
    }
  }

  /**
   * Running the walk again over the same entries emits nothing, provided
   * entries sharing an id agree on their `updated` string.
   */
  lemma RerunEmitsNothing(seen: map<string, string>, entries: seq<FeedParser.ParsedEntry>,
      name: string, product: string, parseTime: string -> Option<string>, now: string)
    requires ConsistentIds(entries)
    ensures var after := Detection(seen, entries, name, product, parseTime, now).0;
      Detection(after, entries, name, product, parseTime, now) == (after, [])
  {
    DetectionRecordsAll(seen, entries, name, product, parseTime, now);
    var after := Detection(seen, entries, name, product, parseTime, now).0;
    DetectionQuietWhenRecorded(after, entries, name, product, parseTime, now);
  }

  /**
   * Without that agreement a rerun can emit again: an id listed twice with
   * two `updated` strings is reported as updated on every cycle.
   */
  lemma RerunWithConflictingDuplicateEmits(name: string, product: string, parseTime: string -> Option<string>, now: string)
    ensures var a := FeedParser.ParsedEntry("inc", "t", "1", "");
      var b := FeedParser.ParsedEntry("inc", "t", "2", "");
      var after := Detection(map[], [a, b], name, product, parseTime, now).0;
      |Detection(after, [a, b], name, product, parseTime, now).1| == 2
  {
    var a := FeedParser.ParsedEntry("inc", "t", "1", "");
    var b := FeedParser.ParsedEntry("inc", "t", "2", "");
    assert [a, b][1..] == [b];
    assert "1" != "2";
    var one := map["inc" := "1"];
    var two := map["inc" := "2"];
    assert map[]["inc" := "1"] == one;
    assert one["inc" := "2"] == two;
    assert two["inc" := "1"] == one;
    assert Detection(two, [b], name, product, parseTime, now).0 == two;
    assert Detection(one, [b], name, product, parseTime, now).0 == two;
    assert Detection(map[], [a, b], name, product, parseTime, now).0 == two;
    assert |Detection(one, [b], name, product, parseTime, now).1| == 1;
  }

  /**
   * Entries whose ids are new to the store and pairwise distinct each yield
   * one event of type "new".
   */
  lemma {:induction false} FirstSightAllNew(seen: map<string, string>, entries: seq<FeedParser.ParsedEntry>,
      name: string, product: string, parseTime: string -> Option<string>, now: string)
    requires forall k :: 0 <= k < |entries| ==> entries[k].entryId !in seen
    requires forall j, k :: 0 <= j < k < |entries| ==> entries[j].entryId != entries[k].entryId
    ensures var events := Detection(seen, entries, name, product, parseTime, now).1;
      && |events| == |entries|
      && forall k :: 0 <= k < |events| ==> events[k].eventType == New && events[k].incidentId == entries[k].entryId
    decreases |entries|
  {
    if entries != [] {
      var e := entries[0];
      var rest := entries[1..];
      forall k | 0 <= k < |rest|
        ensures rest[k].entryId !in seen[e.entryId := e.updated]
      {
        assert rest[k] == entries[k + 1];
      }
      forall j, k | 0 <= j < k < |rest|
        ensures rest[j].entryId != rest[k].entryId
      {
        assert rest[j] == entries[j + 1] && rest[k] == entries[k + 1];
      }
      FirstSightAllNew(seen[e.entryId := e.updated], rest, name, product, parseTime, now);
    }
  }

  /** The outcome of one cycle: whether it completed, the provider's new state, and the events it published. */
  datatype Cycle = Cycle(ok: bool, state: State.StateView, events: seq<StatusEvent>)

  /** The fetch of one cycle, with the provider's stored validators; None when it raised. */
  function FetchFor(st: State.StateView, feedUrl: string, transport: Fetcher.Transport): Option<Fetcher.FetchResult> {
    match transport(Fetcher.Request(feedUrl, Fetcher.HeadersFor(st.etag, st.lastModified)))
    case None => None
    case Some(response) => Some(Fetcher.Shape(response, st.etag, st.lastModified))
  }

  /**
   * The rest of `_poll_once` once the fetch answered: a 304 changes
   * nothing; any other status first stores the result's validators and
   * then, when there is content, runs the detection walk over the parsed
   * entries.
   */
  function Handle(st: State.StateView, result: Fetcher.FetchResult, name: string, product: string,
                  lib: Foreign, now: string): Cycle
  {
    if result.statusCode == Fetcher.NotModified then Cycle(true, st, [])
    else
      var stored := st.(etag := result.etag, lastModified := result.lastModified);
      if result.content.None? then Cycle(true, stored, [])
      else
        var entries := FeedParser.ParseSpec(lib.feedparser(result.content.value), lib.unescape);
        var (seen, events) := Detection(stored.seenEntries, entries, name, product, lib.parseTime, now);
        Cycle(true, stored.(seenEntries := seen), events)
  }

  /** `_poll_once` on a provider's state: a raising fetch fails the cycle; otherwise as `Handle` says. */
  function PollOnceSpec(st: State.StateView, name: string, product: string, feedUrl: string,
                        transport: Fetcher.Transport, lib: Foreign, now: string): Cycle
  {
    match FetchFor(st, feedUrl, transport)
    case None => Cycle(false, st, [])
    case Some(result) => Handle(st, result, name, product, lib, now)
  }

  /** The store, the subscriber registry and the cycle outcomes after a run of `_poll_loop` cycles. */
  datatype Run = Run(view: map<string, State.StateView>, subscribers: seq<Bus.Subscription>, outcomes: seq<bool>)

  /**
   * `_poll_loop` for one provider over a run of ticks: each cycle is
   * `PollOnceSpec` on the provider's state as the previous cycles left it,
   * and its events are published to the registry as it then stands.
   */
  function LoopRun(view: map<string, State.StateView>, subs: seq<Bus.Subscription>, name: string, product: string,
                   feedUrl: string, ticks: seq<Tick>, lib: Foreign): (r: Run)
    ensures |r.outcomes| == |ticks|
    ensures |r.subscribers| == |subs|
    ensures r.view.Keys == view.Keys + (if ticks == [] then {} else {name})
    decreases |ticks|
  {
    if ticks == [] then Run(view, subs, [])
    else
      var n := |ticks| - 1;
      RunStep(LoopRun(view, subs, name, product, feedUrl, ticks[..n], lib), name, product, feedUrl, ticks[n], lib)
  }

  /** One cycle of the loop on the state the previous cycles left. */
  function RunStep(prev: Run, name: string, product: string, feedUrl: string, tick: Tick, lib: Foreign): Run {
    var before := State.Touch(prev.view, name);
    var c := PollOnceSpec(before[name], name, product, feedUrl, tick.transport, lib, tick.now);
    Run(before[name := c.state], Bus.PublishAll(prev.subscribers, c.events), prev.outcomes + [c.ok])
  }

  /** A cycle whose store, registry and outcome are those `PollOnceSpec` gives is the next step of the run. */
  lemma RunStepResult(prev: Run, name: string, product: string, feedUrl: string, tick: Tick, lib: Foreign,
                      view: map<string, State.StateView>, subs: seq<Bus.Subscription>, ok: bool)
    requires
      var before := State.Touch(prev.view, name);
      var c := PollOnceSpec(before[name], name, product, feedUrl, tick.transport, lib, tick.now);
      ok == c.ok && view == before[name := c.state] && subs == Bus.PublishAll(prev.subscribers, c.events)
    ensures RunStep(prev, name, product, feedUrl, tick, lib) == Run(view, subs, prev.outcomes + [ok])
  {
  }

  /** One more tick extends the run by one cycle on the state the run left. */
  lemma LoopRunNext(view: map<string, State.StateView>, subs: seq<Bus.Subscription>, name: string, product: string,
                    feedUrl: string, ticks: seq<Tick>, i: nat, lib: Foreign)
    requires i < |ticks|
    ensures LoopRun(view, subs, name, product, feedUrl, ticks[..i + 1], lib)
      == RunStep(LoopRun(view, subs, name, product, feedUrl, ticks[..i], lib), name, product, feedUrl, ticks[i], lib)
  {
    assert ticks[..i + 1][..i] == ticks[..i];
    assert ticks[..i + 1][i] == ticks[i];
  }

  /**
   * A provider's loop touches only that provider's entry of the store, and
   * every subscriber registered throughout keeps its id and receives the
   * events of the cycles after what it held.
   */
  lemma {:induction false} LoopRunKeepsOthers(view: map<string, State.StateView>, subs: seq<Bus.Subscription>, name: string,
                                              product: string, feedUrl: string, ticks: seq<Tick>, lib: Foreign)
    ensures var r := LoopRun(view, subs, name, product, feedUrl, ticks, lib);
      forall n :: n in view && n != name ==> r.view[n] == view[n]
    ensures var r := LoopRun(view, subs, name, product, feedUrl, ticks, lib);
      forall k :: 0 <= k < |subs| ==> r.subscribers[k].id == subs[k].id && Prefix(subs[k].queue, r.subscribers[k].queue)
    decreases |ticks|
  {
    if ticks != [] {
      var n := |ticks| - 1;
      var prev := LoopRun(view, subs, name, product, feedUrl, ticks[..n], lib);
      LoopRunKeepsOthers(view, subs, name, product, feedUrl, ticks[..n], lib);
      var before := State.Touch(prev.view, name);
      var c := PollOnceSpec(before[name], name, product, feedUrl, ticks[n].transport, lib, ticks[n].now);
      Bus.PublishAllDelivers(prev.subscribers, c.events);
      forall k | 0 <= k < |subs|
        ensures Prefix(subs[k].queue, Bus.PublishAll(prev.subscribers, c.events)[k].queue)
      {
        PrefixTrans(subs[k].queue, prev.subscribers[k].queue, c.events);
      }
    }
  }

  /** `a` is the front of `b`. */
  predicate Prefix(a: seq<StatusEvent>, b: seq<StatusEvent>) {
    |a| <= |b| && b[..|a|] == a
  }

  lemma PrefixTrans(a: seq<StatusEvent>, b: seq<StatusEvent>, extra: seq<StatusEvent>)
    requires Prefix(a, b)
    ensures Prefix(a, b + extra)
  {
    assert (b + extra)[..|a|] == b[..|a|];
  }

  /** `Handle` for an answer without content: only the validators are stored. */
  lemma HandleStores(st: State.StateView, result: Fetcher.FetchResult, name: string, product: string, lib: Foreign, now: string)
    requires result.statusCode != Fetcher.NotModified && result.content.None?
    ensures Handle(st, result, name, product, lib, now) == Cycle(true, st.(etag := result.etag, lastModified := result.lastModified), [])
  {
  }

  /** `Handle` for an answer with content, stated over a whole store view. */
  lemma HandleDetects(before: map<string, State.StateView>, result: Fetcher.FetchResult, name: string, product: string, lib: Foreign, now: string)
    requires name in before
    requires result.statusCode != Fetcher.NotModified && result.content.Some?
    ensures
      var stored := before[name].(etag := result.etag, lastModified := result.lastModified);
      var entries := FeedParser.ParseSpec(lib.feedparser(result.content.value), lib.unescape);
      var d := Detection(stored.seenEntries, entries, name, product, lib.parseTime, now);
      var c := Handle(before[name], result, name, product, lib, now);
      && c.events == d.1
      && WithSeen(before[name := stored], name, d.0) == before[name := c.state]
  {
  }

  /** `PollOnceSpec` case by case, over a whole store view in which the provider is present. */
  lemma PollOnceCases(before: map<string, State.StateView>, name: string, product: string, feedUrl: string,
                      transport: Fetcher.Transport, lib: Foreign, now: string)
    requires name in before
    ensures before[name := before[name]] == before
    ensures var st := before[name];
      var fetched := FetchFor(st, feedUrl, transport);
      var c := PollOnceSpec(st, name, product, feedUrl, transport, lib, now);
      && (fetched.None? ==> c == Cycle(false, st, []))
      && (fetched.Some? && fetched.value.statusCode == Fetcher.NotModified ==> c == Cycle(true, st, []))
      && (fetched.Some? && fetched.value.statusCode != Fetcher.NotModified ==> c == Handle(st, fetched.value, name, product, lib, now))
  {
  }

  /** A 304 answer leaves the provider's state as it was and publishes nothing. */
  lemma NotModifiedChangesNothing(st: State.StateView, name: string, product: string, feedUrl: string,
                                  transport: Fetcher.Transport, lib: Foreign, now: string)
    requires FetchFor(st, feedUrl, transport).Some?
    requires FetchFor(st, feedUrl, transport).value.statusCode == Fetcher.NotModified
    ensures PollOnceSpec(st, name, product, feedUrl, transport, lib, now) == Cycle(true, st, [])
  {
  }

  /**
   * Any other answer stores the result's validators, whatever the content,
   * and touches no seen entry unless there is content.
   */
  lemma OtherStatusStoresValidators(st: State.StateView, name: string, product: string, feedUrl: string,
                                    transport: Fetcher.Transport, lib: Foreign, now: string)
    requires FetchFor(st, feedUrl, transport).Some?
    requires FetchFor(st, feedUrl, transport).value.statusCode != Fetcher.NotModified
    ensures var result := FetchFor(st, feedUrl, transport).value;
      var c := PollOnceSpec(st, name, product, feedUrl, transport, lib, now);
      && c.ok
      && c.state.etag == result.etag && c.state.lastModified == result.lastModified
      && (result.content.None? ==> c.state.seenEntries == st.seenEntries && c.events == [])
  {
  }

  /** The feed of the end-to-end scenario: one incident, with an id, a title and a timestamp. */
  const ScenarioEntry := FeedParser.RawEntry(
    Some("incident-integration-001"), Some("Service disruption"), Some("2025-06-15T10:30:00+00:00"), None, [])
  const ScenarioUrl := "https://status.example.com/feed.atom"
  const ScenarioHeaders := map[Fetcher.ETag := "\"test-etag\"", Fetcher.LastModified := "Sun, 15 Jun 2025 12:00:00 GMT"]

  /**
   * The end-to-end scenario, first cycle: a 200 answer carrying a feed with
   * one new incident publishes one "new" event for it and records the
   * entry and the etag.
   */
  lemma EndToEndFirstCycle(lib: Foreign, first: Fetcher.Transport, body: string, now: string)
    requires forall req :: first(req) == Some(Fetcher.Response(200, body, ScenarioHeaders))
    requires lib.feedparser(body) == FeedParser.Feed(false, [ScenarioEntry])
    ensures var c := PollOnceSpec(State.Initial, "IntegrationTest", "IntegrationTest API", ScenarioUrl, first, lib, now);
      && c.ok
      && |c.events| == 1
      && c.events[0].provider == "IntegrationTest"
      && c.events[0].product == "IntegrationTest API" + " - " + "Service disruption"
      && c.events[0].incidentId == "incident-integration-001"
      && c.events[0].eventType == New
      && "incident-integration-001" in c.state.seenEntries
      && c.state.etag == Some("\"test-etag\"")
  {
    var response := Fetcher.Response(200, body, ScenarioHeaders);
    var result := Fetcher.Shape(response, None, None);
    assert first(Fetcher.Request(ScenarioUrl, Fetcher.HeadersFor(None, None))) == Some(response);
    assert FetchFor(State.Initial, ScenarioUrl, first) == Some(result);
    assert Fetcher.ETag in ScenarioHeaders;
    assert result.etag == Some("\"test-etag\"") && result.content == Some(body);
    var entry := FeedParser.ToParsed(ScenarioEntry, lib.unescape);
    assert entry.entryId == "incident-integration-001" && entry.title == "Service disruption";
    assert [ScenarioEntry][..0] == [];
    assert FeedParser.ParseSpec(lib.feedparser(body), lib.unescape) == [entry];
    var stored := State.Initial.(etag := result.etag, lastModified := result.lastModified);
    var d := Detection(map[], [entry], "IntegrationTest", "IntegrationTest API", lib.parseTime, now);
    FirstSightAllNew(map[], [entry], "IntegrationTest", "IntegrationTest API", lib.parseTime, now);
    DetectionRecordsAll(map[], [entry], "IntegrationTest", "IntegrationTest API", lib.parseTime, now);
    assert PollOnceSpec(State.Initial, "IntegrationTest", "IntegrationTest API", ScenarioUrl, first, lib, now)
      == Cycle(true, stored.(seenEntries := d.0), d.1);
    assert d.1[0] == MakeEvent("IntegrationTest", "IntegrationTest API", entry, New, lib.parseTime, now);
  }

  /** The end-to-end scenario, second cycle: a 304 answer publishes nothing more and changes nothing. */
  lemma EndToEndSecondCycle(lib: Foreign, first: Fetcher.Transport, second: Fetcher.Transport, body: string, now: string)
    requires forall req :: second(req) == Some(Fetcher.Response(304, "", map[]))
    ensures var c1 := PollOnceSpec(State.Initial, "IntegrationTest", "IntegrationTest API", ScenarioUrl, first, lib, now);
      var c2 := PollOnceSpec(c1.state, "IntegrationTest", "IntegrationTest API", ScenarioUrl, second, lib, now);
      c2.events == [] && c2.state == c1.state
  {
    var c1 := PollOnceSpec(State.Initial, "IntegrationTest", "IntegrationTest API", ScenarioUrl, first, lib, now);
    var st := c1.state;
    assert second(Fetcher.Request(ScenarioUrl, Fetcher.HeadersFor(st.etag, st.lastModified))) == Some(Fetcher.Response(304, "", map[]));
    NotModifiedChangesNothing(st, "IntegrationTest", "IntegrationTest API", ScenarioUrl, second, lib, now);
  }

  // ---------------------------------------------------------------------
  // The scheduler object
  // ---------------------------------------------------------------------

  class PollScheduler {
    const providers: seq<ProviderConfig>
    const bus: Bus.EventBus
    const stateManager: State.StateManager
    /** The polling tasks started and not yet stopped. */
    var tasks: seq<Task>

    constructor (providers: seq<ProviderConfig>, bus: Bus.EventBus, stateManager: State.StateManager)
      ensures this.providers == providers && this.bus == bus && this.stateManager == stateManager
      ensures tasks == []
    {
      this.providers := providers;
      this.bus := bus;
      this.stateManager := stateManager;
      tasks := [];
    }

    /**
     * `start`: one task per provider, in configuration order, with a
     * stagger sleep before every launch except the first.
     */
    method Start() returns (trace: seq<StartStep>)
      modifies this
      ensures tasks == old(tasks) + TasksFor(providers)
      ensures trace == StartTrace(|providers|)
    {
      trace := [];
      var index := 0;
      while index < |providers|
        invariant 0 <= index <= |providers|
        invariant tasks == old(tasks) + TasksFor(providers[..index])
        invariant trace == StartTrace(index)
      {
        if index > 0 {
          trace := trace + [Stagger];
        }
        tasks := tasks + [TaskFor(providers[index])];
        trace := trace + [Launch(index)];
        assert providers[..index + 1][..index] == providers[..index];
        index := index + 1;
      }
      assert providers[..index] == providers;
    }

    /** `stop`: every started task is cancelled and the task list is emptied. */
    method Stop() returns (cancelled: seq<Task>)
      modifies this
      ensures cancelled == old(tasks)
      ensures tasks == []
    {
      cancelled := tasks;
      tasks := [];
    }

    /**
     * `_poll_once`: fetch with the stored validators, then as
     * `PollOnceSpec` says; each changed entry is marked seen before its
     * event is published, and the events reach every subscriber in order.
     */
    method PollOnce(name: string, product: string, feedUrl: string, transport: Fetcher.Transport, lib: Foreign, now: string)
      returns (ok: bool, events: seq<StatusEvent>)
      requires stateManager.Valid() && bus.Valid()
      modifies stateManager, stateManager.states.Values, bus
      ensures stateManager.Valid() && bus.Valid()
      ensures forall o :: o in stateManager.states.Values ==> o in old(stateManager.states.Values) || fresh(o)
      ensures
        var before := State.Touch(old(stateManager.View()), name);
        var c := PollOnceSpec(before[name], name, product, feedUrl, transport, lib, now);
        && ok == c.ok && events == c.events
        && stateManager.View() == before[name := c.state]
      ensures bus.subscribers == Bus.PublishAll(old(bus.subscribers), events)
    {
      var state := stateManager.GetState(name);
      ghost var before := stateManager.View();
      assert before[name] == state.Snapshot();
      PollOnceCases(before, name, product, feedUrl, transport, lib, now);
      var fetched := Fetcher.Fetch(feedUrl, state.etag, state.lastModified, transport);
      assert fetched == FetchFor(before[name], feedUrl, transport);
      if fetched.None? {
        return false, [];
      }
      ok := true;
      if fetched.value.statusCode == Fetcher.NotModified {
        return ok, [];
      }
      events := HandleResult(name, product, fetched.value, lib, now);
    }

    /** `_poll_once` after a fetch that answered with anything but 304, as `Handle` says. */
    method HandleResult(name: string, product: string, result: Fetcher.FetchResult, lib: Foreign, now: string)
      returns (events: seq<StatusEvent>)
      requires stateManager.Valid() && bus.Valid()
      requires name in stateManager.states
      requires result.statusCode != Fetcher.NotModified
      modifies stateManager, stateManager.states.Values, bus
      ensures stateManager.Valid() && bus.Valid()
      ensures stateManager.states == old(stateManager.states)
      ensures
        var before := old(stateManager.View());
        var c := Handle(before[name], result, name, product, lib, now);
        events == c.events && stateManager.View() == before[name := c.state]
      ensures bus.subscribers == Bus.PublishAll(old(bus.subscribers), events)
    {
      ghost var before := stateManager.View();
      ghost var stored := before[name].(etag := result.etag, lastModified := result.lastModified);
      stateManager.UpdateEtag(name, result.etag, result.lastModified);
      assert stateManager.View() == before[name := stored];
      if result.content.None? {
        HandleStores(before[name], result, name, product, lib, now);
        return [];
      }
      events := ParseAndDetect(name, product, result.content.value, lib, now);
      HandleDetects(before, result, name, product, lib, now);
    }

    /** The parse and the detect/mark/publish loop of `_poll_once` on a fetched body. */
    method ParseAndDetect(name: string, product: string, body: string, lib: Foreign, now: string)
      returns (events: seq<StatusEvent>)
      requires stateManager.Valid() && bus.Valid()
      requires name in stateManager.states
      modifies stateManager, stateManager.states.Values, bus
      ensures stateManager.Valid() && bus.Valid()
      ensures stateManager.states == old(stateManager.states)
      ensures
        var before := old(stateManager.View());
        var entries := FeedParser.ParseSpec(lib.feedparser(body), lib.unescape);
        var d := Detection(before[name].seenEntries, entries, name, product, lib.parseTime, now);
        events == d.1 && stateManager.View() == WithSeen(before, name, d.0)
      ensures bus.subscribers == Bus.PublishAll(old(bus.subscribers), events)
    {
      var entries := FeedParser.Parse(lib.feedparser(body), lib.unescape);
      events := DetectAndPublish(name, product, entries, lib.parseTime, now);
    }

    /**
     * The loop of `_poll_once` over the parsed entries, one `ProcessEntry`
     * per entry in parser order; only the provider's seen entries change.
     */
    method DetectAndPublish(name: string, product: string, entries: seq<FeedParser.ParsedEntry>,
                            parseTime: string -> Option<string>, now: string)
      returns (events: seq<StatusEvent>)
      requires stateManager.Valid() && bus.Valid()
      requires name in stateManager.states
      modifies stateManager, stateManager.states.Values, bus
      ensures stateManager.Valid() && bus.Valid()
      ensures stateManager.states == old(stateManager.states)
      ensures
        var before := old(stateManager.View());
        var d := Detection(before[name].seenEntries, entries, name, product, parseTime, now);
        && events == d.1
        && stateManager.View() == WithSeen(before, name, d.0)
      ensures bus.subscribers == Bus.PublishAll(old(bus.subscribers), events)
    {
      ghost var before := stateManager.View();
      ghost var whole := Detection(before[name].seenEntries, entries, name, product, parseTime, now);
      ghost var seen := before[name].seenEntries;
      assert before == WithSeen(before, name, seen);
      events := [];
      var i := 0;
      assert entries[0..] == entries;
      while i < |entries|
        invariant 0 <= i <= |entries|
        invariant stateManager.Valid() && bus.Valid()
        invariant stateManager.states == old(stateManager.states)
        invariant stateManager.View() == WithSeen(before, name, seen)
        invariant
          var rest := Detection(seen, entries[i..], name, product, parseTime, now);
          whole.0 == rest.0 && whole.1 == events + rest.1
        invariant bus.subscribers == Bus.PublishAll(old(bus.subscribers), events)
      {
        ghost var step := Step(seen, entries[i], name, product, parseTime, now);
        DetectionAdvance(whole, events, seen, entries, i, name, product, parseTime, now);
        var emitted := ProcessEntry(name, product, entries[i], parseTime, now);
        WithSeenTwice(before, name, seen, step.0);
        seen := step.0;
        Bus.PublishAllAppend(old(bus.subscribers), events, emitted);
        events := events + emitted;
        i := i + 1;
      }
      assert entries[i..] == [];
    }

    /**
     * One turn of that loop: detect; an unchanged entry is skipped; a
     * changed one is marked seen, then its event is built and published.
     */
    method ProcessEntry(name: string, product: string, entry: FeedParser.ParsedEntry,
                        parseTime: string -> Option<string>, now: string)
      returns (emitted: seq<StatusEvent>)
      requires stateManager.Valid() && bus.Valid()
      requires name in stateManager.states
      modifies stateManager, stateManager.states.Values, bus
      ensures stateManager.Valid() && bus.Valid()
      ensures stateManager.states == old(stateManager.states)
      ensures
        var before := old(stateManager.View());
        var step := Step(before[name].seenEntries, entry, name, product, parseTime, now);
        && emitted == step.1
        && stateManager.View() == WithSeen(before, name, step.0)
      ensures bus.subscribers == Bus.PublishAll(old(bus.subscribers), emitted)
    {
      ghost var before := stateManager.View();
      var changed, changeType := stateManager.IsNewOrUpdated(name, entry.entryId, entry.updated);
      if !changed {
        WithSeenSame(before, name);
        return [];
      }
      stateManager.MarkSeen(name, entry.entryId, entry.updated);
      assert stateManager.View() == WithSeen(before, name, before[name].seenEntries[entry.entryId := entry.updated]);
      var timestamp := parseTime(entry.updated).GetOr(now);
      var event := StatusEvent(name, product + " - " + entry.title, entry.title, entry.summary,
                               timestamp, entry.entryId, ParseEventType(changeType).value);
      bus.Publish(event);
      emitted := [event];
      assert emitted[..0] == [];
    }

    /** One guarded cycle of `_poll_loop`: whether `_poll_once` completed without raising. */
    method TryPollOnce(name: string, product: string, feedUrl: string, tick: Tick, lib: Foreign) returns (ok: bool)
      requires stateManager.Valid() && bus.Valid()
      modifies stateManager, stateManager.states.Values, bus
      ensures stateManager.Valid() && bus.Valid()
      ensures forall o :: o in stateManager.states.Values ==> o in old(stateManager.states.Values) || fresh(o)
      ensures ok <==> FetchFor(State.Touch(old(stateManager.View()), name)[name], feedUrl, tick.transport).Some?
      ensures
        var before := State.Touch(old(stateManager.View()), name);
        var c := PollOnceSpec(before[name], name, product, feedUrl, tick.transport, lib, tick.now);
        && ok == c.ok
        && stateManager.View() == before[name := c.state]
        && bus.subscribers == Bus.PublishAll(old(bus.subscribers), c.events)
    {
      var events;
      ok, events := PollOnce(name, product, feedUrl, tick.transport, lib, tick.now);
    }

    /**
     * `_poll_loop` for one provider, run for one cycle per tick: after each
     * cycle the failure count and the sleep are updated as `NextSleep` says.
     */
    method PollLoop(cfg: ProviderConfig, ticks: seq<Tick>, lib: Foreign) returns (sleeps: seq<int>, outcomes: seq<bool>)
      requires stateManager.Valid() && bus.Valid()
      modifies stateManager, stateManager.states.Values, bus
      ensures stateManager.Valid() && bus.Valid()
      ensures |sleeps| == |ticks| && |outcomes| == |ticks|
      ensures sleeps == Schedule(outcomes, BaseIntervalOf(cfg), ticks)
      ensures
        var run := LoopRun(old(stateManager.View()), old(bus.subscribers), cfg.name, ProductOf(cfg), cfg.feedUrl, ticks, lib);
        stateManager.View() == run.view && bus.subscribers == run.subscribers && outcomes == run.outcomes
    {
      var name := cfg.name;
      var product := ProductOf(cfg);
      var baseInterval := BaseIntervalOf(cfg);
      var failureCount: nat := 0;
      sleeps, outcomes := [], [];
      ghost var run := Run(stateManager.View(), bus.subscribers, []);
      var i := 0;
      while i < |ticks|
        invariant 0 <= i <= |ticks|
        invariant stateManager.Valid() && bus.Valid()
        invariant forall o :: o in stateManager.states.Values ==> o in old(stateManager.states.Values) || fresh(o)
        invariant |sleeps| == i && |outcomes| == i
        invariant failureCount == FailureCount(outcomes)
        invariant sleeps == Schedule(outcomes, baseInterval, ticks[..i])
        invariant run == LoopRun(old(stateManager.View()), old(bus.subscribers), name, product, cfg.feedUrl, ticks[..i], lib)
        invariant stateManager.View() == run.view && bus.subscribers == run.subscribers && outcomes == run.outcomes
      {
        LoopRunNext(old(stateManager.View()), old(bus.subscribers), name, product, cfg.feedUrl, ticks, i, lib);
        var ok := TryPollOnce(name, product, cfg.feedUrl, ticks[i], lib);
        RunStepResult(run, name, product, cfg.feedUrl, ticks[i], lib, stateManager.View(), bus.subscribers, ok);
        run := RunStep(run, name, product, cfg.feedUrl, ticks[i], lib);
        ScheduleNext(outcomes, ok, baseInterval, ticks);
        var next := NextSleep(ok, failureCount, baseInterval, ticks[i].jitter);
        failureCount := next.0;
        outcomes := outcomes + [ok];
        sleeps := sleeps + [next.1];
        i := i + 1;
      }
      assert ticks[..i] == ticks;
    }
  }
}
