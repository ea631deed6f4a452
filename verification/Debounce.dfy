/** When the watcher polls: a baseline timer, brought forward by doorbells but never
    closer than the debounce floor.  Polls are taken to be instantaneous and the loop to
    handle a doorbell or an expired timer at once. */
module Debounce {
  import opened Basics

  /** Durations and times in nanoseconds. */
  datatype Config = Config(baseline: int, floor: int)

  const DEFAULT_BASELINE := 5_000_000_000
  const DEFAULT_FLOOR := 100_000_000

  function Configure(baseline: int, floor: int): Config {
    Config(if baseline == 0 then DEFAULT_BASELINE else baseline,
           if floor == 0 then DEFAULT_FLOOR else floor)
  }

  /** The loop's variables, the time, and the times of all polls so far. */
  datatype Loop = Loop(lastPoll: int, pending: bool, deadline: int, now: int, polls: seq<int>)

  datatype Tick = Doorbell(at: int) | Timer

  /** After the first poll. */
  function Start(cfg: Config, now: int): Loop {
    Loop(now, false, now + cfg.baseline, now, [now])
  }

  predicate Possible(l: Loop, t: Tick) {
    match t
    case Doorbell(at) => l.now <= at <= l.deadline
    case Timer => l.now <= l.deadline
  }

  function PolledAt(cfg: Config, l: Loop, at: int): Loop {
    Loop(at, false, at + cfg.baseline, at, l.polls + [at])
  }

  function Handle(cfg: Config, l: Loop, t: Tick): Loop {
    match t
    case Doorbell(at) =>
      if at - l.lastPoll >= cfg.floor then PolledAt(cfg, l, at)
      else l.(pending := true, deadline := at + (cfg.floor - (at - l.lastPoll)), now := at)
    case Timer => PolledAt(cfg, l, l.deadline)
  }

  predicate Schedule(cfg: Config, l: Loop, ticks: seq<Tick>)
    decreases |ticks|
  {
    ticks == [] || (Possible(l, ticks[0]) && Schedule(cfg, Handle(cfg, l, ticks[0]), ticks[1..]))
  }

  function Play(cfg: Config, l: Loop, ticks: seq<Tick>): Loop
    decreases |ticks|
  {
    if ticks == [] then l else Play(cfg, Handle(cfg, l, ticks[0]), ticks[1..])
  }

  /** Consecutive polls are between `lo` and `hi` apart. */
  ghost predicate Spaced(polls: seq<int>, lo: int, hi: int) {
    forall i :: 0 < i < |polls| ==> lo <= polls[i] - polls[i - 1] <= hi
  }

  /** The deadline is the last poll plus the floor or the baseline, nothing else. */
  ghost predicate OnTime(cfg: Config, l: Loop) {
    && l.deadline == l.lastPoll + (if l.pending then cfg.floor else cfg.baseline)
    && l.lastPoll <= l.now <= l.deadline
    && l.polls != [] && l.polls[|l.polls| - 1] == l.lastPoll
    && Spaced(l.polls, cfg.floor, cfg.baseline)
  }

  predicate WellConfigured(cfg: Config) { 0 <= cfg.floor <= cfg.baseline }

  lemma PolledOnTime(cfg: Config, l: Loop, at: int)
    requires WellConfigured(cfg) && OnTime(cfg, l) && l.lastPoll + cfg.floor <= at <= l.lastPoll + cfg.baseline
    ensures OnTime(cfg, PolledAt(cfg, l, at))
  {
    var polls := l.polls + [at];
    forall i | 0 < i < |polls|
      ensures cfg.floor <= polls[i] - polls[i - 1] <= cfg.baseline
    {
      assert polls[i - 1] == l.polls[i - 1];
    }
  }

  lemma HandleOnTime(cfg: Config, l: Loop, t: Tick)
    requires WellConfigured(cfg) && OnTime(cfg, l) && Possible(l, t)
    ensures OnTime(cfg, Handle(cfg, l, t))
  {
    match t
    case Doorbell(at) =>
      if at - l.lastPoll >= cfg.floor {
        PolledOnTime(cfg, l, at);
      }
    case Timer => PolledOnTime(cfg, l, l.deadline);
  }

  /** Every schedule of doorbells keeps the deadline law, so polls are at least the floor
      and at most the baseline apart. */
  lemma {:induction false} EveryScheduleOnTime(cfg: Config, l: Loop, ticks: seq<Tick>)
    requires WellConfigured(cfg) && OnTime(cfg, l) && Schedule(cfg, l, ticks)
    ensures OnTime(cfg, Play(cfg, l, ticks))
    ensures l.polls <= Play(cfg, l, ticks).polls
    decreases |ticks|
  {
    if ticks == [] {
    } else {
      HandleOnTime(cfg, l, ticks[0]);
      EveryScheduleOnTime(cfg, Handle(cfg, l, ticks[0]), ticks[1..]);
    }
  }

  lemma {:induction false} PendingIsServed(cfg: Config, l: Loop, ticks: seq<Tick>)
    requires WellConfigured(cfg) && OnTime(cfg, l) && Schedule(cfg, l, ticks)
    requires l.pending && Play(cfg, l, ticks).now > l.deadline
    ensures exists p :: p in Play(cfg, l, ticks).polls && l.now <= p <= l.deadline
    decreases |ticks|
  {
    if ticks == [] {
    } else {
      var l1 := Handle(cfg, l, ticks[0]);
      HandleOnTime(cfg, l, ticks[0]);
      EveryScheduleOnTime(cfg, l1, ticks[1..]);
      if l1.pending {
        PendingIsServed(cfg, l1, ticks[1..]);
      } else {
        var polls := Play(cfg, l, ticks).polls;
        assert polls[|l1.polls| - 1] == l1.lastPoll;
        assert l1.lastPoll in polls;
      }
    }
  }

  /** A doorbell at time d is answered by a poll no later than the larger of d and the
      previous poll plus the floor, however many doorbells follow it. */
  lemma DoorbellServed(cfg: Config, l: Loop, at: int, rest: seq<Tick>)
    requires WellConfigured(cfg) && OnTime(cfg, l) && Possible(l, Doorbell(at))
    requires Schedule(cfg, Handle(cfg, l, Doorbell(at)), rest)
    requires Play(cfg, Handle(cfg, l, Doorbell(at)), rest).now > Max(at, l.lastPoll + cfg.floor)
    ensures exists p :: p in Play(cfg, Handle(cfg, l, Doorbell(at)), rest).polls
                        && at <= p <= Max(at, l.lastPoll + cfg.floor)
  {
    var l1 := Handle(cfg, l, Doorbell(at));
    HandleOnTime(cfg, l, Doorbell(at));
    EveryScheduleOnTime(cfg, l1, rest);
    if l1.pending {
      PendingIsServed(cfg, l1, rest);
    } else {
      var polls := Play(cfg, l1, rest).polls;
      assert polls[|l1.polls| - 1] == l1.lastPoll;
      assert l1.lastPoll in polls;
    }
  }

  /** The spacing promise holds for every schedule exactly when the floor does not exceed
      the baseline. */
  lemma SpacingIff(cfg: Config)
    requires 0 <= cfg.floor && 0 <= cfg.baseline
    ensures (forall start: int, ticks: seq<Tick> :: Schedule(cfg, Start(cfg, start), ticks) ==>
               Spaced(Play(cfg, Start(cfg, start), ticks).polls, cfg.floor, cfg.baseline))
            <==> cfg.floor <= cfg.baseline
  {
    if cfg.floor <= cfg.baseline {
      forall start: int, ticks: seq<Tick> | Schedule(cfg, Start(cfg, start), ticks)
        ensures Spaced(Play(cfg, Start(cfg, start), ticks).polls, cfg.floor, cfg.baseline)
      {
        EveryScheduleOnTime(cfg, Start(cfg, start), ticks);
      }
    } else {
      var l := Start(cfg, 0);
      var ticks := [Timer];
      assert ticks[1..] == [];
      assert Schedule(cfg, Handle(cfg, l, Timer), []);
      assert Schedule(cfg, l, ticks);
      var l1 := Play(cfg, Handle(cfg, l, Timer), []);
      assert Play(cfg, l, ticks) == l1;
      assert l1.polls[1] - l1.polls[0] == cfg.baseline;
      assert !Spaced(l1.polls, cfg.floor, cfg.baseline);
    }
  }

  /** The loop's body as code. */
  class RunLoop {
    const cfg: Config
    var lastPoll: int
    var doorbellPending: bool
    var deadline: int
    ghost var now: int
    ghost var polls: seq<int>

    ghost function State(): Loop
      reads this
    {
      Loop(lastPoll, doorbellPending, deadline, now, polls)
    }

    /** A zero duration stands for its default. */
    constructor (baseline: int, floor: int, now: int)
      ensures cfg == Configure(baseline, floor) && State() == Start(cfg, now)
      ensures cfg.baseline == if baseline == 0 then 5_000_000_000 else baseline
      ensures cfg.floor == if floor == 0 then 100_000_000 else floor
    {
      var interval := baseline;
      if interval == 0 {
        interval := DEFAULT_BASELINE;
      }
      var debounce := floor;
      if debounce == 0 {
        debounce := DEFAULT_FLOOR;
      }
      cfg := Config(interval, debounce);
      lastPoll, doorbellPending, deadline := now, false, now + interval;
      this.now, polls := now, [now];
    }

    method OnDoorbell(at: int) returns (polled: bool)
      requires Possible(State(), Doorbell(at))
      modifies this
      ensures State() == Handle(cfg, old(State()), Doorbell(at))
      ensures polled <==> at - old(lastPoll) >= cfg.floor
    {
      var sinceLastPoll := at - lastPoll;
      if sinceLastPoll >= cfg.floor {
        polled := true;
        polls := polls + [at];
        lastPoll := at;
        doorbellPending := false;
        deadline := at + cfg.baseline;
      } else {
        polled := false;
        doorbellPending := true;
        deadline := at + (cfg.floor - sinceLastPoll);
      }
      now := at;
    }

    method OnTimer() returns (wasDoorbell: bool)
      requires Possible(State(), Timer)
      modifies this
      ensures State() == Handle(cfg, old(State()), Timer)
      ensures wasDoorbell == old(doorbellPending)
    {
      wasDoorbell := doorbellPending;
      now := deadline;
      polls := polls + [deadline];
      lastPoll := deadline;
      doorbellPending := false;
      deadline := lastPoll + cfg.baseline;
    }
  }
}
