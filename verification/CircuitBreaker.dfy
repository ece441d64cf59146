/** The circuit breaker: a per-datasource state machine that turns out to follow a rule
    without state.  Time is a parameter of each call. */
module CircuitBreaker {
  import opened Base

  datatype CircuitState = Closed | Open | HalfOpen

  datatype BreakerState = BreakerState(state: CircuitState, failureCount: nat, lastFailure: Option<nat>,
                                       lastSuccess: Option<nat>)

  type Breakers = map<string, BreakerState>

  datatype Config = Config(failureThreshold: nat, recovery: nat)

  const FRESH: BreakerState := BreakerState(Closed, 0, None, None)

  function Elapsed(since: nat, now: nat): nat { if now >= since then now - since else 0 }

  function Entry(m: Breakers, ds: string): BreakerState { if ds in m then m[ds] else FRESH }

  // ---- The steps ------------------------------------------------------------

  function Allow(cfg: Config, m: Breakers, ds: string, now: nat): (Breakers, bool) {
    var b := Entry(m, ds);
    match b.state
    case Closed => (m[ds := b], true)
    case HalfOpen => (m[ds := b], true)
    case Open =>
      if b.lastFailure.None? || Elapsed(b.lastFailure.value, now) > cfg.recovery then
        (m[ds := b.(state := HalfOpen)], true)
      else (m[ds := b], false)
  }

  function RecordSuccess(m: Breakers, ds: string, now: nat): Breakers {
    if ds in m then m[ds := m[ds].(failureCount := 0, state := Closed, lastSuccess := Some(now))] else m
  }

  function RecordFailure(cfg: Config, m: Breakers, ds: string, now: nat): Breakers {
    var b := Entry(m, ds);
    var count := b.failureCount + 1;
    m[ds := b.(failureCount := count, lastFailure := Some(now),
               state := if count >= cfg.failureThreshold then Open else b.state)]
  }

  class CircuitBreaker {
    var breakers: Breakers
    const config: Config

    constructor (config: Config)
      ensures breakers == map[] && this.config == config
    {
      breakers := map[];
      this.config := config;
    }

    method AllowRequest(ds: string, now: nat) returns (ok: bool)
      modifies this
      ensures (breakers, ok) == Allow(config, old(breakers), ds, now)
    {
      if ds !in breakers {
        breakers := breakers[ds := FRESH];
      }
      var b := breakers[ds];
      match b.state {
        case Closed => ok := true;
        case HalfOpen => ok := true;
        case Open =>
          if b.lastFailure.None? || Elapsed(b.lastFailure.value, now) > config.recovery {
            breakers := breakers[ds := b.(state := HalfOpen)];
            ok := true;
          } else {
            ok := false;
          }
      }
      assert breakers == Allow(config, old(breakers), ds, now).0;
    }

    method Succeeded(ds: string, now: nat)
      modifies this
      ensures breakers == RecordSuccess(old(breakers), ds, now)
    {
      if ds in breakers {
        var b := breakers[ds].(failureCount := 0);
        b := b.(state := Closed);
        breakers := breakers[ds := b.(lastSuccess := Some(now))];
      }
    }

    method Failed(ds: string, now: nat)
      modifies this
      ensures breakers == RecordFailure(config, old(breakers), ds, now)
    {
      if ds !in breakers {
        breakers := breakers[ds := FRESH];
      }
      var b := breakers[ds];
      b := b.(failureCount := b.failureCount + 1);
      b := b.(lastFailure := Some(now));
      if b.failureCount >= config.failureThreshold {
        b := b.(state := Open);
      }
      breakers := breakers[ds := b];
    }
  }

  // ---- Runs -----------------------------------------------------------------

  datatype Event = Asked(ds: string, at: nat) | Success(ds: string, at: nat) | Failure(ds: string, at: nat)

  function Run(cfg: Config, log: seq<Event>): Breakers {
    if log == [] then map[]
    else
      var before := Run(cfg, log[..|log| - 1]);
      match log[|log| - 1]
      case Asked(ds, at) => Allow(cfg, before, ds, at).0
      case Success(ds, at) => RecordSuccess(before, ds, at)
      case Failure(ds, at) => RecordFailure(cfg, before, ds, at)
  }

  /** The clock does not run backwards. */
  predicate Monotone(log: seq<Event>) {
    forall i, j :: 0 <= i < j < |log| ==> log[i].at <= log[j].at
  }

  /** `now` is not before the end of the log. */
  predicate NotBefore(log: seq<Event>, now: nat) {
    forall i :: 0 <= i < |log| ==> log[i].at <= now
  }

  // ---- The rule without state -----------------------------------------------

  /** Failures of a datasource since its last success. */
  function Failures(log: seq<Event>, ds: string): nat {
    if log == [] then 0
    else
      var front, last := log[..|log| - 1], log[|log| - 1];
      if last.ds != ds || last.Asked? then Failures(front, ds)
      else if last.Success? then 0
      else Failures(front, ds) + 1
  }

  function LastFailure(log: seq<Event>, ds: string): Option<nat> {
    if log == [] then None
    else
      var last := log[|log| - 1];
      if last.ds == ds && last.Failure? then Some(last.at) else LastFailure(log[..|log| - 1], ds)
  }

  /** One failure is needed whatever the threshold says. */
  function Threshold(cfg: Config): nat { Max(cfg.failureThreshold, 1) }

  predicate Tripped(cfg: Config, log: seq<Event>, ds: string) { Failures(log, ds) >= Threshold(cfg) }

  /** Tripped, and the latest failure is no older than the recovery timeout. */
  predicate Blocked(cfg: Config, log: seq<Event>, ds: string, now: nat) {
    Tripped(cfg, log, ds) && LastFailure(log, ds).Some? && Elapsed(LastFailure(log, ds).value, now) <= cfg.recovery
  }

  /** Someone asked after the recovery timeout of the latest failure. */
  predicate Probed(cfg: Config, log: seq<Event>, ds: string) {
    if log == [] then false
    else
      var front, last := log[..|log| - 1], log[|log| - 1];
      if last.ds != ds then Probed(cfg, front, ds)
      else if !last.Asked? then false
      else Probed(cfg, front, ds) || (Tripped(cfg, front, ds) && !Blocked(cfg, front, ds, last.at))
  }

  function StateRule(cfg: Config, log: seq<Event>, ds: string): CircuitState {
    if !Tripped(cfg, log, ds) then Closed else if Probed(cfg, log, ds) then HalfOpen else Open
  }

  // ---- The machine follows the rule -----------------------------------------

  /** What the machine knows of one datasource is what the log says. */
  predicate Follows(cfg: Config, log: seq<Event>, m: Breakers, ds: string) {
    var b := Entry(m, ds);
    && b.failureCount == Failures(log, ds)
    && b.lastFailure == LastFailure(log, ds)
    && b.state == StateRule(cfg, log, ds)
  }

  lemma {:induction false} TrippedHasFailure(cfg: Config, log: seq<Event>, ds: string)
    requires Failures(log, ds) > 0
    ensures LastFailure(log, ds).Some?
  {
    var last := log[|log| - 1];
    if last.ds != ds || last.Asked? { TrippedHasFailure(cfg, log[..|log| - 1], ds); }
  }

  /** Once past the timeout, time only moves further past it. */
  lemma {:induction false} ProbedStaysOpen(cfg: Config, log: seq<Event>, ds: string, now: nat)
    requires Monotone(log) && NotBefore(log, now) && Probed(cfg, log, ds)
    ensures Tripped(cfg, log, ds) && !Blocked(cfg, log, ds, now)
  {
    var front, last := log[..|log| - 1], log[|log| - 1];
    assert NotBefore(front, last.at);
    if last.ds != ds {
      ProbedStaysOpen(cfg, front, ds, now);
    } else if Probed(cfg, front, ds) {
      ProbedStaysOpen(cfg, front, ds, now);
    }
  }

  lemma {:induction false} RunFollows(cfg: Config, log: seq<Event>, ds: string)
    requires Monotone(log)
    ensures Follows(cfg, log, Run(cfg, log), ds)
  {
    if log != [] {
      var front, last := log[..|log| - 1], log[|log| - 1];
      RunFollows(cfg, front, ds);
      if last.ds == ds {
        if Failures(front, ds) > 0 { TrippedHasFailure(cfg, front, ds); }
      }
    }
  }

  /** In every run with a monotone clock, a request is turned down exactly when the failures
      since the last success reach the threshold and the latest is within the timeout. */
  lemma AllowIffNotBlocked(cfg: Config, log: seq<Event>, ds: string, now: nat)
    requires Monotone(log) && NotBefore(log, now)
    ensures Allow(cfg, Run(cfg, log), ds, now).1 <==> !Blocked(cfg, log, ds, now)
  {
    RunFollows(cfg, log, ds);
    if Failures(log, ds) > 0 { TrippedHasFailure(cfg, log, ds); }
    if Probed(cfg, log, ds) { ProbedStaysOpen(cfg, log, ds, now); }
  }

  /** The reported state, likewise. */
  lemma StateIsRule(cfg: Config, log: seq<Event>, ds: string)
    requires Monotone(log)
    ensures Entry(Run(cfg, log), ds).state == StateRule(cfg, log, ds)
    ensures Entry(Run(cfg, log), ds).state.Closed? <==> Failures(log, ds) < Threshold(cfg)
  {
    RunFollows(cfg, log, ds);
  }

  // ---- Consequences ---------------------------------------------------------

  function Reports(log: seq<Event>): seq<Event> { Filter((e: Event) => !e.Asked?, log) }

  lemma {:induction false} ReportsSuffice(log: seq<Event>, ds: string)
    ensures Failures(Reports(log), ds) == Failures(log, ds)
    ensures LastFailure(Reports(log), ds) == LastFailure(log, ds)
  {
    if log != [] {
      var front, last := log[..|log| - 1], log[|log| - 1];
      ReportsSuffice(front, ds);
      if !last.Asked? {
        assert (Reports(front) + [last])[..|Reports(front)|] == Reports(front);
      }
    }
  }

  lemma {:induction false} ReportsMonotone(log: seq<Event>, now: nat)
    requires Monotone(log) && NotBefore(log, now)
    ensures Monotone(Reports(log)) && NotBefore(Reports(log), now)
  {
    if log != [] {
      var front, last := log[..|log| - 1], log[|log| - 1];
      assert NotBefore(front, last.at);
      ReportsMonotone(front, last.at);
    }
  }

  /** Asking is free: dropping every earlier question from a run changes no answer. */
  lemma AskingIsInvisible(cfg: Config, log: seq<Event>, ds: string, now: nat)
    requires Monotone(log) && NotBefore(log, now)
    ensures Allow(cfg, Run(cfg, log), ds, now).1 == Allow(cfg, Run(cfg, Reports(log)), ds, now).1
  {
    ReportsMonotone(log, now);
    ReportsSuffice(log, ds);
    AllowIffNotBlocked(cfg, log, ds, now);
    AllowIffNotBlocked(cfg, Reports(log), ds, now);
  }

  /** A half-open breaker does not hold back after one probe: until the next report it admits
      every request. */
  lemma HalfOpenAdmitsAll(cfg: Config, log: seq<Event>, more: seq<Event>, ds: string, now: nat)
    requires Monotone(log + more) && NotBefore(log + more, now)
    requires Entry(Run(cfg, log), ds).state.HalfOpen?
    requires forall i :: 0 <= i < |more| ==> more[i].Asked? || more[i].ds != ds
    ensures Allow(cfg, Run(cfg, log + more), ds, now).1
  {
    assert Monotone(log) by {
      assert forall i :: 0 <= i < |log| ==> log[i] == (log + more)[i];
    }
    StateIsRule(cfg, log, ds);
    StillProbed(cfg, log, more, ds);
    ProbedStaysOpen(cfg, log + more, ds, now);
    AllowIffNotBlocked(cfg, log + more, ds, now);
  }

  lemma {:induction false} StillProbed(cfg: Config, log: seq<Event>, more: seq<Event>, ds: string)
    requires Probed(cfg, log, ds) && forall i :: 0 <= i < |more| ==> more[i].Asked? || more[i].ds != ds
    ensures Probed(cfg, log + more, ds)
  {
    if more == [] {
      assert log + more == log;
    } else {
      var front := more[..|more| - 1];
      StillProbed(cfg, log, front, ds);
      assert (log + more)[..|log + more| - 1] == log + front;
    }
  }
}
