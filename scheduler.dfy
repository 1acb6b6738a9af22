/**
 * The serial download scheduler: once a minute every configured interval
 * whose period divides the minute of the day is queued, unless it is
 * already queued or running; a single worker takes one interval at a time
 * off the queue and, when the job ends, frees the interval and records the
 * cooldown it asked for.
 */
module Scheduler {
  import opened Common
  import opened AutoUpdate

  /** SCHEDULE_CONFIG: each interval with its period in minutes, in the order the loop visits them. */
  const ScheduleConfig: seq<(string, int)> := [("1d", 1440), ("4h", 240), ("1h", 60), ("15m", 15), ("5m", 5)]

  /** The interval queued once at start-up. */
  const StartupInterval: string := "5m"

  /** Sleep after a run that looks banned, and after an exchange rate-limit error (seconds). */
  const BanPause: int := 1200
  const RateLimitPause: int := 600

  /**
   * An interval is due at hour:minute when its period divides the minute of
   * the day; the daily interval additionally only at hour 0.
   */
  predicate Due(name: string, mins: int, hour: int, minute: int)
    requires mins > 0
  {
    (hour * 60 + minute) % mins == 0 && !(name == "1d" && hour != 0)
  }

  /** On a clock reading (hours 0-23, minutes 0-59) the daily interval is due exactly at midnight. */
  lemma DailyDueOnlyAtMidnight(hour: int, minute: int)
    requires 0 <= hour < 24 && 0 <= minute < 60
    ensures Due("1d", 1440, hour, minute) <==> hour == 0 && minute == 0
  {
    var t := hour * 60 + minute;
    assert 0 <= t < 1440;
    assert t % 1440 == t;
  }

  /** The set of intervals waiting or running, and the queue in FIFO order. */
  datatype Pending = Pending(active: set<string>, queue: seq<string>)

  /** A trigger for `name`: dropped while it is active, otherwise marked active and queued at the back. */
  function Offer(p: Pending, name: string): (r: Pending)
    ensures name in r.active
    ensures name in p.active ==> r == p
    ensures name !in p.active ==> r.active == p.active + {name} && r.queue == p.queue + [name]
  {
    if name in p.active then p else Pending(p.active + {name}, p.queue + [name])
  }

  /** One pass of the scheduler loop over `cfg` at hour:minute. */
  function TickAll(p: Pending, cfg: seq<(string, int)>, hour: int, minute: int): Pending
    requires forall i :: 0 <= i < |cfg| ==> cfg[i].1 > 0
    decreases |cfg|
  {
    if cfg == [] then p
    else
      var q := if Due(cfg[0].0, cfg[0].1, hour, minute) then Offer(p, cfg[0].0) else p;
      TickAll(q, cfg[1..], hour, minute)
  }

  /** The name `name` is due at hour:minute under some entry of `cfg`. */
  predicate DueIn(cfg: seq<(string, int)>, name: string, hour: int, minute: int)
    requires forall i :: 0 <= i < |cfg| ==> cfg[i].1 > 0
  {
    exists i :: 0 <= i < |cfg| && cfg[i].0 == name && Due(name, cfg[i].1, hour, minute)
  }

  /** The names active: the queued ones and the running one. */
  function ActiveOf(queue: seq<string>, running: Option<string>): set<string>
  {
    Elements(queue) + (if running.Some? then {running.value} else {})
  }

  /** No name is queued twice, none is both queued and running, and the active set is exactly those names. */
  predicate Consistent(p: Pending, running: Option<string>)
  {
    NoDup(p.queue) && (running.Some? ==> running.value !in p.queue) && p.active == ActiveOf(p.queue, running)
  }

  lemma OfferKeeps(p: Pending, running: Option<string>, name: string)
    requires Consistent(p, running)
    ensures Consistent(Offer(p, name), running)
  {
    if name !in p.active {
      var r := Offer(p, name);
      assert Elements(r.queue) == Elements(p.queue) + {name};
    }
  }

  /**
   * A pass keeps the scheduler consistent, only appends to the queue, and
   * afterwards exactly the names that were active or are due are active.
   */
  lemma {:induction false} TickAllFacts(p: Pending, running: Option<string>, cfg: seq<(string, int)>, hour: int, minute: int)
    requires forall i :: 0 <= i < |cfg| ==> cfg[i].1 > 0
    requires Consistent(p, running)
    ensures Consistent(TickAll(p, cfg, hour, minute), running)
    ensures StartsWithSeq(TickAll(p, cfg, hour, minute).queue, p.queue)
    ensures forall n :: n in TickAll(p, cfg, hour, minute).active <==> n in p.active || DueIn(cfg, n, hour, minute)
    decreases |cfg|
  {
    if cfg != [] {
      var q := if Due(cfg[0].0, cfg[0].1, hour, minute) then Offer(p, cfg[0].0) else p;
      OfferKeeps(p, running, cfg[0].0);
      TickAllFacts(q, running, cfg[1..], hour, minute);
      forall n
        ensures DueIn(cfg, n, hour, minute) <==> (n == cfg[0].0 && Due(n, cfg[0].1, hour, minute)) || DueIn(cfg[1..], n, hour, minute)
      {
        if DueIn(cfg, n, hour, minute) {
          var i :| 0 <= i < |cfg| && cfg[i].0 == n && Due(n, cfg[i].1, hour, minute);
          if i > 0 {
            assert cfg[1..][i - 1] == cfg[i];
          }
        }
        if DueIn(cfg[1..], n, hour, minute) {
          var i :| 0 <= i < |cfg[1..]| && cfg[1..][i].0 == n && Due(n, cfg[1..][i].1, hour, minute);
          assert cfg[i + 1] == cfg[1..][i];
        }
      }
    }
  }

  /** `s` begins with `prefix`. */
  predicate StartsWithSeq<T(==)>(s: seq<T>, prefix: seq<T>)
  {
    |prefix| <= |s| && s[..|prefix|] == prefix
  }

  /** How a job ended: the statistics it returned, or the text of what it raised. */
  datatype JobResult = Finished(stats: Stats) | Crashed(message: string)

  /**
   * The pause run_task takes before freeing its interval: a long one after a
   * run with more than ten failures and no success, a shorter one after an
   * exchange rate-limit error, none otherwise.
   */
  function Cooldown(result: JobResult): (d: int)
    ensures d == BanPause <==> result.Finished? && result.stats.failed > 10 && result.stats.updated + result.stats.newSymbols == 0
    ensures d == RateLimitPause <==>
              result.Crashed? && (Contains(result.message, "Way too many requests") || Contains(result.message, "-1003"))
    ensures d == 0 || d == BanPause || d == RateLimitPause
  {
    match result
    case Finished(stats) =>
      if stats.failed > 10 && stats.updated + stats.newSymbols == 0 then BanPause else 0
    case Crashed(message) =>
      if Contains(message, "Way too many requests") || Contains(message, "-1003") then RateLimitPause else 0
  }

  /** A run in which some symbol was updated or added never trips the ban pause, however many failed. */
  lemma SuccessNeverPauses(statuses: seq<Status>, total: nat)
    requires Updated in statuses || New in statuses
    ensures Cooldown(Finished(Tally(statuses, total))) != BanPause
  {
    TallyCounts(statuses, total);
  }

  class SerialScheduler {
    var active: set<string>
    var queue: seq<string>
    var running: Option<string>
    /** The pauses taken after each finished job, in order. */
    var pauses: seq<int>

    ghost predicate Valid()
      reads this
    {
      Consistent(Pending(active, queue), running)
    }

    constructor()
      ensures Valid()
      ensures active == {} && queue == [] && running == None && pauses == []
    {
      active := {};
      queue := [];
      running := None;
      pauses := [];
    }

    /** Start-up: the five-minute interval is offered once before the first tick. */
    method Start()
      requires Valid()
      modifies this
      ensures Valid()
      ensures Pending(active, queue) == Offer(old(Pending(active, queue)), StartupInterval)
      ensures running == old(running) && pauses == old(pauses)
    {
      OfferKeeps(Pending(active, queue), running, StartupInterval);
      if StartupInterval !in active {
        active := active + {StartupInterval};
        queue := queue + [StartupInterval];
      }
    }

    /** One pass of scheduler_loop at hour:minute: every due interval not yet active is queued, in table order. */
    method Tick(hour: int, minute: int)
      requires Valid()
      modifies this
      ensures Valid()
      ensures Pending(active, queue) == TickAll(old(Pending(active, queue)), ScheduleConfig, hour, minute)
      ensures running == old(running) && pauses == old(pauses)
    {
      var i := 0;
      while i < |ScheduleConfig|
        invariant 0 <= i <= |ScheduleConfig|
        invariant Valid()
        invariant running == old(running) && pauses == old(pauses)
        invariant TickAll(Pending(active, queue), ScheduleConfig[i..], hour, minute)
                  == TickAll(old(Pending(active, queue)), ScheduleConfig, hour, minute)
      {
        var (name, mins) := ScheduleConfig[i];
        assert ScheduleConfig[i..][1..] == ScheduleConfig[i + 1..];
        OfferKeeps(Pending(active, queue), running, name);
        if Due(name, mins, hour, minute) {
          if name !in active {
            active := active + {name};
            queue := queue + [name];
          }
        }
        i := i + 1;
      }
    }

    /** The worker, when idle, takes the interval at the head of the queue and starts it. */
    method Dequeue() returns (started: Option<string>)
      requires Valid()
      modifies this
      ensures Valid()
      ensures old(running).None? && old(queue) != [] ==>
                started == Some(old(queue)[0]) && running == started && queue == old(queue)[1..]
      ensures old(running).Some? || old(queue) == [] ==> started == None && unchanged(this)
      ensures active == old(active) && pauses == old(pauses)
    {
      if running.Some? || queue == [] {
        return None;
      }
      var head := queue[0];
      assert queue == [head] + queue[1..];
      assert Elements(queue) == {head} + Elements(queue[1..]);
      running := Some(head);
      queue := queue[1..];
      started := running;
    }

    /** run_task ends: its pause is recorded and its interval leaves the active set, whatever the outcome. */
    method Complete(result: JobResult)
      requires Valid() && running.Some?
      modifies this
      ensures Valid()
      ensures running == None && queue == old(queue)
      ensures active == old(active) - {old(running).value}
      ensures pauses == old(pauses) + [Cooldown(result)]
    {
      pauses := pauses + [Cooldown(result)];
      active := active - {running.value};
      running := None;
    }
  }

  /** Once a job completes, the next trigger for its interval queues it again. */
  lemma RequeuedAfterComplete(p: Pending, running: Option<string>, name: string)
    requires Consistent(p, running) && running == Some(name)
    ensures var after := Pending(p.active - {name}, p.queue);
            Consistent(after, None) && Offer(after, name).queue == p.queue + [name]
  {
  }
}
