/**
 The fixed-window rate limiter: one counter per key, opened by the first check after the previous window ended. The
 first check of a window is allowed whatever the limit is, so a limit below one acts as one.
 */
module RateLimiter {
  import opened Wrappers

  datatype Entry = Entry(count: int, resetAt: int)

  datatype Reply = Reply(allowed: bool, remaining: int, resetAt: int)

  type Entries = map<string, Entry>

  datatype Config = Config(limit: int, windowMs: int) {
    function Quota(): int {
      Max(1, limit)
    }
  }

  function Key(key: string): string {
    if key == "" then "global" else key
  }

  /** A check opens a window when its key has no counter or the counter's window has ended. */
  predicate Opens(entries: Entries, key: string, now: int) {
    Key(key) in entries ==> entries[Key(key)].resetAt <= now
  }

  function Counter(entries: Entries, key: string, now: int, config: Config): Entry {
    if Opens(entries, key, now) then Entry(1, now + config.windowMs)
    else entries[Key(key)].(count := entries[Key(key)].count + 1)
  }

  function Verdict(entries: Entries, key: string, now: int, config: Config): Reply {
    var row := Counter(entries, key, now, config);
    Reply(Opens(entries, key, now) || row.count <= config.limit, Max(0, config.limit - row.count), row.resetAt)
  }

  class FixedWindowRateLimiter {
    const config: Config
    var entries: Entries

    constructor (config: Config)
      ensures this.config == config && entries == map[]
    {
      this.config := config;
      entries := map[];
    }

    method Check(key: string, now: int) returns (reply: Reply)
      modifies this
      ensures reply == Verdict(old(entries), key, now, config)
      ensures entries == old(entries)[Key(key) := Counter(old(entries), key, now, config)]
    {
      var normalized := if key != "" then key else "global";
      if normalized !in entries || entries[normalized].resetAt <= now {
        var row := Entry(1, now + config.windowMs);
        entries := entries[normalized := row];
        return Reply(true, Max(0, config.limit - 1), row.resetAt);
      }
      var current := entries[normalized];
      current := current.(count := current.count + 1);
      entries := entries[normalized := current];
      return Reply(current.count <= config.limit, Max(0, config.limit - current.count), current.resetAt);
    }

    method Reset(key: string)
      modifies this
      ensures entries == old(entries) - {Key(key)}
    {
      entries := entries - {if key != "" then key else "global"};
    }
  }

  // ---- Runs ----

  datatype Event = Check(key: string, now: int) | Reset(key: string)

  function After(entries: Entries, event: Event, config: Config): Entries {
    match event
    case Check(key, now) => entries[Key(key) := Counter(entries, key, now, config)]
    case Reset(key) => entries - {Key(key)}
  }

  /** The clock never goes back, starting from last. */
  predicate Ordered(events: seq<Event>, last: int) {
    events == []
    || (if events[0].Check? then last <= events[0].now && Ordered(events[1..], events[0].now) else Ordered(events[1..], last))
  }

  predicate ChecksIn(event: Event, k: string, from: int, to: int) {
    event.Check? && Key(event.key) == k && from <= event.now < to
  }

  function Checks(events: seq<Event>, k: string, from: int, to: int): nat {
    if events == [] then 0 else (if ChecksIn(events[0], k, from, to) then 1 else 0) + Checks(events[1..], k, from, to)
  }

  /** Checks of k that a run allows at times in [from, to). */
  function Allowed(entries: Entries, events: seq<Event>, config: Config, k: string, from: int, to: int): nat
    decreases |events|
  {
    if events == [] then 0
    else
      (if ChecksIn(events[0], k, from, to) && Verdict(entries, events[0].key, events[0].now, config).allowed then 1 else 0)
      + Allowed(After(entries, events[0], config), events[1..], config, k, from, to)
  }

  function Resets(events: seq<Event>, k: string): nat {
    if events == [] then 0
    else (if events[0].Reset? && Key(events[0].key) == k then 1 else 0) + Resets(events[1..], k)
  }

  /** Every counter has counted its opening check, and no window opened after last. */
  ghost predicate Sound(entries: Entries, last: int, config: Config) {
    forall k :: k in entries ==> entries[k].count >= 1 && entries[k].resetAt <= last + config.windowMs
  }

  function Slot(entries: Entries, k: string): Option<Entry> {
    if k in entries then Some(entries[k]) else None
  }

  /** How many more checks of one key an interval of window length starting at from can allow, given the last time seen. */
  function Budget(slot: Option<Entry>, last: int, quota: int, windowMs: int, from: int): int {
    match slot
    case None => if last < from then 2 * quota - 1 else quota
    case Some(row) =>
      var start, left := row.resetAt - windowMs, Max(0, quota - row.count);
      if from + windowMs <= start then 0
      else if from <= start then left
      else if from <= row.resetAt then left + quota
      else 2 * quota - 1
  }

  function Hits(entries: Entries, event: Event, config: Config, k: string, from: int): nat {
    if ChecksIn(event, k, from, from + config.windowMs) && Verdict(entries, event.key, event.now, config).allowed then 1 else 0
  }

  function Surplus(event: Event, k: string, quota: int): int {
    if event.Reset? && Key(event.key) == k then quota else 0
  }

  lemma StepFitsBudget(entries: Entries, last: int, event: Event, config: Config, k: string, from: int)
    requires Sound(entries, last, config) && config.windowMs > 0 && (event.Check? ==> last <= event.now)
    ensures
      var last', q := if event.Check? then event.now else last, config.Quota();
      Hits(entries, event, config, k, from) + Budget(Slot(After(entries, event, config), k), last', q, config.windowMs, from)
      <= Budget(Slot(entries, k), last, q, config.windowMs, from) + Surplus(event, k, q)
  {
    if event.Check? && Key(event.key) == k {
      var row := Counter(entries, event.key, event.now, config);
      assert Slot(After(entries, event, config), k) == Some(row);
      if Opens(entries, event.key, event.now) {
        assert row == Entry(1, event.now + config.windowMs);
      } else {
        assert row == entries[k].(count := entries[k].count + 1);
      }
    } else {
      assert Hits(entries, event, config, k, from) == 0;
      assert Slot(After(entries, event, config), k) == if event.Reset? && Key(event.key) == k then None else Slot(entries, k);
    }
  }

  lemma {:induction false} BudgetSuffices(entries: Entries, last: int, events: seq<Event>, config: Config, k: string, from: int)
    requires Sound(entries, last, config) && Ordered(events, last) && config.windowMs > 0
    ensures Allowed(entries, events, config, k, from, from + config.windowMs)
         <= Budget(Slot(entries, k), last, config.Quota(), config.windowMs, from) + Resets(events, k) * config.Quota()
    decreases |events|
  {
    if events != [] {
      var first, rest, q := events[0], events[1..], config.Quota();
      StepFitsBudget(entries, last, first, config, k, from);
      BudgetSuffices(After(entries, first, config), if first.Check? then first.now else last, rest, config, k, from);
      assert Resets(events, k) * q == Surplus(first, k, q) + Resets(rest, k) * q;
    }
  }

  lemma {:induction false} NothingInside(entries: Entries, events: seq<Event>, config: Config, k: string, from: int, to: int)
    requires to <= from
    ensures Allowed(entries, events, config, k, from, to) == 0
    decreases |events|
  {
    if events != [] {
      NothingInside(After(entries, events[0], config), events[1..], config, k, from, to);
    }
  }

  /**
   Whatever the limit, the window and the interleaving of keys, an interval of one window length, wherever it starts,
   allows at most twice the quota less one, and each reset of the key adds at most one quota.
   */
  lemma AnyIntervalIsBounded(events: seq<Event>, last: int, config: Config, k: string, from: int)
    requires Ordered(events, last)
    ensures Allowed(map[], events, config, k, from, from + config.windowMs)
         <= 2 * config.Quota() - 1 + Resets(events, k) * config.Quota()
  {
    if config.windowMs > 0 {
      BudgetSuffices(map[], last, events, config, k, from);
    } else {
      NothingInside(map[], events, config, k, from, from + config.windowMs);
    }
  }

  lemma {:induction false} RestOfWindow(entries: Entries, last: int, events: seq<Event>, config: Config, k: string, from: int, to: int)
    requires Ordered(events, last) && Resets(events, k) == 0 && from <= last
    requires last < to ==> k in entries && entries[k].count >= 1 && entries[k].resetAt == to
    ensures to <= last ==> Allowed(entries, events, config, k, from, to) == 0 == Checks(events, k, from, to)
    ensures last < to ==>
        Allowed(entries, events, config, k, from, to)
        == Min(Max(0, config.limit - entries[k].count), Checks(events, k, from, to))
    decreases |events|
  {
    if events != [] {
      var last' := if events[0].Check? then events[0].now else last;
      RestOfWindow(After(entries, events[0], config), last', events[1..], config, k, from, to);
    }
  }

  /** What a reply promises comes true: until its reset time exactly the remaining number of checks are allowed, the first ones. */
  lemma RepliesAreTruthful(entries: Entries, key: string, now: int, events: seq<Event>, config: Config)
    requires Sound(entries, now, config) && Ordered(events, now) && Resets(events, Key(key)) == 0
    ensures
      var reply := Verdict(entries, key, now, config);
      Allowed(After(entries, Check(key, now), config), events, config, Key(key), now, reply.resetAt)
      == Min(reply.remaining, Checks(events, Key(key), now, reply.resetAt))
  {
    RestOfWindow(After(entries, Check(key, now), config), now, events, config, Key(key), now,
                 Verdict(entries, key, now, config).resetAt);
  }

  // ---- Keys are counted apart ----

  /** Keys are told apart as they are, except that the empty key is the one called global. */
  predicate SameKey(k: string, k': string) {
    k == k' || (k in {"", "global"} && k' in {"", "global"})
  }

  lemma KeysAgreeExactly(k: string, k': string)
    ensures Key(k) == Key(k') <==> SameKey(k, k')
  {
  }

  /** The replies to the checks of one key, in order. */
  function Replies(entries: Entries, events: seq<Event>, config: Config, k: string): seq<Reply>
    decreases |events|
  {
    if events == [] then []
    else
      (if events[0].Check? && SameKey(events[0].key, k) then [Verdict(entries, events[0].key, events[0].now, config)] else [])
      + Replies(After(entries, events[0], config), events[1..], config, k)
  }

  function Only(events: seq<Event>, k: string): seq<Event> {
    if events == [] then [] else (if SameKey(events[0].key, k) then [events[0]] else []) + Only(events[1..], k)
  }

  lemma {:induction false} SlotDecides(entries: Entries, entries': Entries, events: seq<Event>, config: Config, k: string)
    requires Slot(entries, Key(k)) == Slot(entries', Key(k))
    ensures Replies(entries, events, config, k) == Replies(entries', Only(events, k), config, k)
    decreases |events|
  {
    if events != [] {
      var first, rest := events[0], events[1..];
      KeysAgreeExactly(first.key, k);
      if SameKey(first.key, k) {
        assert Only(events, k)[0] == first && Only(events, k)[1..] == Only(rest, k);
        SlotDecides(After(entries, first, config), After(entries', first, config), rest, config, k);
      } else {
        SlotDecides(After(entries, first, config), entries', rest, config, k);
        assert Only(events, k) == Only(rest, k);
      }
    }
  }

  /** Over every run the replies for a key are those of the run without any other key. */
  lemma OtherKeysNeverMatter(entries: Entries, events: seq<Event>, config: Config, k: string)
    ensures Replies(entries, events, config, k) == Replies(entries, Only(events, k), config, k)
  {
    SlotDecides(entries, entries, events, config, k);
  }

  function ChecksAt(k: string, times: seq<int>): seq<Event> {
    seq(|times|, i requires 0 <= i < |times| => Check(k, times[i]))
  }

  lemma {:induction false} CountedReplies(entries: Entries, k: string, times: seq<int>, config: Config, i: nat)
    requires Key(k) in entries && forall j :: 0 <= j < |times| ==> times[j] < entries[Key(k)].resetAt
    requires i < |times|
    ensures var row, replies := entries[Key(k)], Replies(entries, ChecksAt(k, times), config, k);
            && |replies| == |times|
            && replies[i] == Reply(row.count + i + 1 <= config.limit, Max(0, config.limit - (row.count + i + 1)), row.resetAt)
    decreases |times|
  {
    var next := After(entries, Check(k, times[0]), config);
    assert ChecksAt(k, times)[1..] == ChecksAt(k, times[1..]);
    if |times| == 1 {
      assert Replies(next, ChecksAt(k, times[1..]), config, k) == [];
    } else {
      CountedReplies(next, k, times[1..], config, if i == 0 then 0 else i - 1);
    }
  }

  /**
   The checks of a key that share a window: the first opens it for the window length and is always allowed, the others are
   allowed while the limit lasts, and every reply says what is left of the limit.
   */
  lemma WindowReplies(entries: Entries, k: string, times: seq<int>, config: Config, i: nat)
    requires Key(k) in entries ==> times != [] && entries[Key(k)].resetAt <= times[0]
    requires i < |times| && forall j :: 0 < j < |times| ==> times[j] < times[0] + config.windowMs
    ensures var replies := Replies(entries, ChecksAt(k, times), config, k);
            && |replies| == |times|
            && replies[i] == Reply(i == 0 || i < config.limit, Max(0, config.limit - i - 1), times[0] + config.windowMs)
  {
    var next := After(entries, Check(k, times[0]), config);
    assert ChecksAt(k, times)[1..] == ChecksAt(k, times[1..]);
    if |times| == 1 {
      assert Replies(next, ChecksAt(k, times[1..]), config, k) == [];
    } else {
      CountedReplies(next, k, times[1..], config, if i == 0 then 0 else i - 1);
    }
  }

  // ---- The bound is attained ----

  function Burst(n: nat, now: int): seq<Event> {
    seq(n, i => Check("", now))
  }

  function Raised(entries: Entries, n: nat): Entries
    requires "global" in entries
  {
    entries["global" := entries["global"].(count := entries["global"].count + n)]
  }

  /** One more check in an open window with quota left. */
  lemma OneCheckRuns(entries: Entries, now: int, events: seq<Event>, config: Config, from: int, to: int)
    requires "global" in entries && now < entries["global"].resetAt && entries["global"].count < config.limit
    requires from <= now < to
    ensures Allowed(entries, [Check("", now)] + events, config, "global", from, to)
         == 1 + Allowed(Raised(entries, 1), events, config, "global", from, to)
  {
    var run := [Check("", now)] + events;
    assert run[0] == Check("", now) && run[1..] == events;
    assert After(entries, run[0], config) == Raised(entries, 1) && Verdict(entries, "", now, config).allowed;
  }

  lemma {:induction false} BurstRuns(entries: Entries, n: nat, now: int, events: seq<Event>, config: Config, from: int, to: int)
    requires "global" in entries && now < entries["global"].resetAt && entries["global"].count + n <= config.limit
    requires from <= now < to
    ensures Allowed(entries, Burst(n, now) + events, config, "global", from, to)
         == n + Allowed(Raised(entries, n), events, config, "global", from, to)
    decreases n
  {
    hide Allowed;
    if n == 0 {
      assert Burst(n, now) + events == events && Raised(entries, 0) == entries;
    } else {
      var rest := Burst(n - 1, now) + events;
      assert Burst(n, now) + events == [Check("", now)] + rest;
      OneCheckRuns(entries, now, rest, config, from, to);
      BurstRuns(Raised(entries, 1), n - 1, now, events, config, from, to);
      assert Raised(Raised(entries, 1), n - 1) == Raised(entries, n);
    }
  }

  function WorstRun(config: Config, from: int): seq<Event>
    requires config.limit >= 1
  {
    var second := from + config.windowMs - 1;
    [Check("", from - 1)] + (Burst(config.limit - 1, from) + ([Check("", second)] + (Burst(config.limit - 1, second) + [])))
  }

  /** For every limit and every window of at least two milliseconds some run allows exactly one less than twice the limit. */
  lemma BoundIsAttained(config: Config, from: int)
    requires config.limit >= 1 && config.windowMs >= 2
    ensures Allowed(map[], WorstRun(config, from), config, "global", from, from + config.windowMs) == 2 * config.limit - 1
  {
    var n, second, to := config.limit - 1, from + config.windowMs - 1, from + config.windowMs;
    var tail := [Check("", second)] + (Burst(n, second) + []);
    var run := WorstRun(config, from);
    assert run[1..] == Burst(n, from) + tail && tail[1..] == Burst(n, second) + [];
    var opened1 := map["global" := Entry(1, second)];
    assert After(map[], run[0], config) == opened1;
    BurstRuns(opened1, n, from, tail, config, from, to);
    assert Raised(opened1, n) == opened1["global" := Entry(1 + n, second)];
    var full := opened1["global" := Entry(1 + n, second)];
    assert Allowed(opened1, run[1..], config, "global", from, to) == n + Allowed(full, tail, config, "global", from, to);
    var opened2 := After(full, tail[0], config);
    BurstRuns(opened2, n, second, [], config, from, to);
  }
}
