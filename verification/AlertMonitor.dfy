/** The alert monitor: rules are evaluated against metrics, alerts fire and resolve, and the
    history keeps the latest events. */
module AlertMonitor {
  import opened Base

  datatype AlertRule = AlertRule(id: string, name: string, metric: string, threshold: real, enabled: bool)

  datatype AlertStatus = Firing | Resolved | Acknowledged

  datatype FiredAlert = FiredAlert(
    ruleId: string,
    ruleName: string,
    metric: string,
    value: real,
    threshold: real,
    firedAt: nat,
    status: AlertStatus)

  type Metrics = map<string, real>

  const HISTORY: nat := 1000

  datatype State = State(rules: seq<AlertRule>, active: map<string, FiredAlert>, history: seq<FiredAlert>)

  // ---- One evaluation -------------------------------------------------------

  function Measured(metrics: Metrics, metric: string): real {
    if metric in metrics then metrics[metric] else 0.0
  }

  function Alert(rule: AlertRule, metrics: Metrics, now: nat): FiredAlert {
    FiredAlert(rule.id, rule.name, rule.metric, Measured(metrics, rule.metric), rule.threshold, now, Firing)
  }

  datatype Evaluation = Evaluation(active: map<string, FiredAlert>, events: seq<FiredAlert>)

  /** One rule: fires if its metric is over the threshold and it was quiet, resolves if not and
      it was active. */
  function EvaluateRule(active: map<string, FiredAlert>, rule: AlertRule, metrics: Metrics, now: nat): Evaluation {
    if !rule.enabled then Evaluation(active, [])
    else if Measured(metrics, rule.metric) > rule.threshold then
      if rule.id in active then Evaluation(active, [])
      else Evaluation(active[rule.id := Alert(rule, metrics, now)], [Alert(rule, metrics, now)])
    else if rule.id in active then
      Evaluation(active - {rule.id}, [active[rule.id].(status := Resolved)])
    else Evaluation(active, [])
  }

  function EvaluateRules(active: map<string, FiredAlert>, rules: seq<AlertRule>, metrics: Metrics,
                         now: nat): Evaluation {
    if rules == [] then Evaluation(active, [])
    else
      var before := EvaluateRules(active, rules[..|rules| - 1], metrics, now);
      var last := EvaluateRule(before.active, rules[|rules| - 1], metrics, now);
      Evaluation(last.active, before.events + last.events)
  }

  function Latest(events: seq<FiredAlert>): seq<FiredAlert> {
    if |events| > HISTORY then events[|events| - HISTORY..] else events
  }

  function IsFiring(): FiredAlert -> bool { (e: FiredAlert) => e.status.Firing? }

  /** What the evaluation loop has done once it has been through `rules`. */
  ghost predicate EvaluatedTo(active0: map<string, FiredAlert>, history0: seq<FiredAlert>, rules: seq<AlertRule>,
                              metrics: Metrics, now: nat,
                              active: map<string, FiredAlert>, history: seq<FiredAlert>, fired: seq<FiredAlert>) {
    var r := EvaluateRules(active0, rules, metrics, now);
    active == r.active && history == history0 + r.events && fired == Filter(IsFiring(), r.events)
  }

  lemma NothingEvaluated(active: map<string, FiredAlert>, history: seq<FiredAlert>, metrics: Metrics, now: nat)
    ensures EvaluatedTo(active, history, [], metrics, now, active, history, [])
  {
    assert history == history + [];
  }

  lemma EvaluatedStep(active0: map<string, FiredAlert>, history0: seq<FiredAlert>, rules: seq<AlertRule>,
                      rule: AlertRule, metrics: Metrics, now: nat,
                      active: map<string, FiredAlert>, history: seq<FiredAlert>, fired: seq<FiredAlert>)
    requires EvaluatedTo(active0, history0, rules, metrics, now, active, history, fired)
    ensures
      var s := EvaluateRule(active, rule, metrics, now);
      EvaluatedTo(active0, history0, rules + [rule], metrics, now, s.active, history + s.events,
                  fired + Filter(IsFiring(), s.events))
  {
    var before, step := EvaluateRules(active0, rules, metrics, now), EvaluateRule(active, rule, metrics, now);
    EvaluateSnoc(active0, rules, rule, metrics, now, before, step);
    AppendedEvents(history0, before.events, step.events);
  }

  lemma EvaluateSnoc(active: map<string, FiredAlert>, rules: seq<AlertRule>, rule: AlertRule, metrics: Metrics,
                     now: nat, before: Evaluation, step: Evaluation)
    requires before == EvaluateRules(active, rules, metrics, now)
    requires step == EvaluateRule(before.active, rule, metrics, now)
    ensures EvaluateRules(active, rules + [rule], metrics, now) == Evaluation(step.active, before.events + step.events)
  {
    assert (rules + [rule])[..|rules|] == rules;
  }

  lemma AppendedEvents(history: seq<FiredAlert>, before: seq<FiredAlert>, step: seq<FiredAlert>)
    ensures (history + before) + step == history + (before + step)
    ensures Filter(IsFiring(), before + step) == Filter(IsFiring(), before) + Filter(IsFiring(), step)
  {
    FilterAppend(IsFiring(), before, step);
  }

  class AlertMonitor {
    var rules: seq<AlertRule>
    var active: map<string, FiredAlert>
    var history: seq<FiredAlert>

    ghost function View(): State
      reads this
    {
      State(rules, active, history)
    }

    constructor (rules: seq<AlertRule>)
      ensures View() == State(rules, map[], [])
    {
      this.rules, active, history := rules, map[], [];
    }

    method AddRule(rule: AlertRule)
      modifies this`rules
      ensures rules == old(rules) + [rule]
    {
      rules := rules + [rule];
    }

    method RemoveRule(id: string) returns (removed: bool)
      modifies this`rules
      ensures rules == Filter(OtherRule(id), old(rules))
      ensures removed <==> exists i :: 0 <= i < |old(rules)| && old(rules)[i].id == id
    {
      var before := |rules|;
      RemovedLength(rules, id);
      rules := Filter(OtherRule(id), rules);
      removed := |rules| < before;
    }

    method AcknowledgeAlert(id: string) returns (found: bool)
      modifies this`active
      ensures active == Acknowledge(old(active), id) && (found <==> id in old(active))
    {
      if id in active {
        active := active[id := active[id].(status := Acknowledged)];
        found := true;
      } else {
        found := false;
      }
    }

    /** Returns the alerts that fired, in order: exactly the Firing events it appends. */
    method Evaluate(metrics: Metrics, now: nat) returns (newlyFired: seq<FiredAlert>)
      modifies this`active, this`history
      ensures var r := EvaluateRules(old(active), rules, metrics, now);
        && active == r.active
        && history == Latest(old(history) + r.events)
        && newlyFired == Filter(IsFiring(), r.events)
    {
      newlyFired := EvaluateAll(metrics, now);
      if |history| > HISTORY {
        var start := |history| - HISTORY;
        history := history[start..];
      }
    }

    /** The evaluation loop, before the history is trimmed. */
    method EvaluateAll(metrics: Metrics, now: nat) returns (newlyFired: seq<FiredAlert>)
      modifies this`active, this`history
      ensures EvaluatedTo(old(active), old(history), rules, metrics, now, active, history, newlyFired)
    {
      newlyFired := [];
      NothingEvaluated(active, history, metrics, now);
      for i := 0 to |rules|
        invariant EvaluatedTo(old(active), old(history), rules[..i], metrics, now, active, history, newlyFired)
      {
        EvaluatedStep(old(active), old(history), rules[..i], rules[i], metrics, now, active, history, newlyFired);
        assert rules[..i + 1] == rules[..i] + [rules[i]];
        var fired := EvaluateOne(rules[i], metrics, now);
        newlyFired := newlyFired + fired;
      }
      assert rules[..|rules|] == rules;
    }

    /** One turn of the evaluation loop. */
    method EvaluateOne(rule: AlertRule, metrics: Metrics, now: nat) returns (fired: seq<FiredAlert>)
      modifies this`active, this`history
      ensures var r := EvaluateRule(old(active), rule, metrics, now);
        active == r.active && history == old(history) + r.events && fired == Filter(IsFiring(), r.events)
    {
      fired := [];
      if !rule.enabled {
        return;
      }
      var value := if rule.metric in metrics then metrics[rule.metric] else 0.0;
      if value > rule.threshold {
        if rule.id !in active {
          var alert := FiredAlert(rule.id, rule.name, rule.metric, value, rule.threshold, now, Firing);
          FilterOne(IsFiring(), alert);
          active := active[rule.id := alert];
          history := history + [alert];
          fired := fired + [alert];
        }
      } else if rule.id in active {
        var resolved := active[rule.id].(status := Resolved);
        FilterOne(IsFiring(), resolved);
        active := active - {rule.id};
        history := history + [resolved];
      }
    }
  }

  function OtherRule(id: string): AlertRule -> bool { (r: AlertRule) => r.id != id }

  lemma {:induction false} RemovedLength(rules: seq<AlertRule>, id: string)
    ensures |Filter(OtherRule(id), rules)| < |rules| <==> exists i :: 0 <= i < |rules| && rules[i].id == id
  {
    if rules != [] { RemovedLength(rules[..|rules| - 1], id); }
  }

  function Acknowledge(active: map<string, FiredAlert>, id: string): map<string, FiredAlert> {
    if id in active then active[id := active[id].(status := Acknowledged)] else active
  }

  // ---- Runs -----------------------------------------------------------------

  datatype Op =
    | AddOp(rule: AlertRule)
    | RemoveOp(id: string)
    | AcknowledgeOp(id: string)
    | EvaluateOp(metrics: Metrics, now: nat)

  function EventsOf(s: State, op: Op): seq<FiredAlert> {
    if op.EvaluateOp? then EvaluateRules(s.active, s.rules, op.metrics, op.now).events else []
  }

  function Step(s: State, op: Op): State {
    match op
    case AddOp(rule) => s.(rules := s.rules + [rule])
    case RemoveOp(id) => s.(rules := Filter(OtherRule(id), s.rules))
    case AcknowledgeOp(id) => s.(active := Acknowledge(s.active, id))
    case EvaluateOp(metrics, now) =>
      var r := EvaluateRules(s.active, s.rules, metrics, now);
      s.(active := r.active, history := Latest(s.history + r.events))
  }

  function Run(rules: seq<AlertRule>, ops: seq<Op>): State {
    if ops == [] then State(rules, map[], [])
    else Step(Run(rules, ops[..|ops| - 1]), ops[|ops| - 1])
  }

  /** Every event of the run, in order. */
  function Log(rules: seq<AlertRule>, ops: seq<Op>): seq<FiredAlert> {
    if ops == [] then []
    else Log(rules, ops[..|ops| - 1]) + EventsOf(Run(rules, ops[..|ops| - 1]), ops[|ops| - 1])
  }

  function ForRule(id: string): FiredAlert -> bool { (e: FiredAlert) => e.ruleId == id }

  /** The events of one rule id. */
  function Story(log: seq<FiredAlert>, id: string): seq<FiredAlert> { Filter(ForRule(id), log) }

  // ---- The lifecycle --------------------------------------------------------

  /** Firing and Resolved in strict alternation, each Resolved repeating the alert it ends. */
  predicate Alternates(story: seq<FiredAlert>) {
    forall i :: 0 <= i < |story| ==> InTurn(story, i)
  }

  predicate InTurn(story: seq<FiredAlert>, i: nat)
    requires i < |story|
  {
    if i % 2 == 0 then story[i].status.Firing? else story[i] == story[i - 1].(status := Resolved)
  }

  /** An id is active exactly when its story ends in Firing, and then with that very alert,
      perhaps acknowledged. */
  predicate Told(story: seq<FiredAlert>, active: map<string, FiredAlert>, id: string) {
    && Alternates(story)
    && (id in active <==> |story| % 2 == 1)
    && (id in active ==>
          active[id].ruleId == id && active[id].(status := Firing) == story[|story| - 1] &&
            !active[id].status.Resolved?)
  }

  lemma AlternatesSnoc(story: seq<FiredAlert>, x: FiredAlert)
    requires Alternates(story)
    requires if |story| % 2 == 0 then x.status.Firing? else x == story[|story| - 1].(status := Resolved)
    ensures Alternates(story + [x])
  {
    var t := story + [x];
    forall i | 0 <= i < |t| ensures InTurn(t, i) {
      if i < |story| { assert InTurn(story, i); }
    }
  }

  lemma RuleTold(log: seq<FiredAlert>, active: map<string, FiredAlert>, rule: AlertRule, metrics: Metrics, now: nat,
                 id: string)
    requires Told(Story(log, id), active, id) && (rule.id in active ==> active[rule.id].ruleId == rule.id)
    ensures var r := EvaluateRule(active, rule, metrics, now);
      Told(Story(log + r.events, id), r.active, id)
  {
    var r := EvaluateRule(active, rule, metrics, now);
    FilterAppend(ForRule(id), log, r.events);
    if r.events != [] {
      var x := r.events[0];
      assert r.events == [x] && x.ruleId == rule.id;
      FilterOne(ForRule(id), x);
      if rule.id == id { AlternatesSnoc(Story(log, id), x); }
      assert rule.id != id ==> Story(log + r.events, id) == Story(log, id);
    } else {
      assert log + r.events == log;
    }
  }

  /** Every id is told right by the log and the active alerts. */
  ghost predicate AllTold(log: seq<FiredAlert>, active: map<string, FiredAlert>) {
    forall id :: Told(Story(log, id), active, id)
  }

  lemma {:induction false} RulesTold(log: seq<FiredAlert>, active: map<string, FiredAlert>, rules: seq<AlertRule>,
                                     metrics: Metrics, now: nat)
    requires AllTold(log, active)
    ensures var r := EvaluateRules(active, rules, metrics, now);
      AllTold(log + r.events, r.active)
  {
    if rules == [] {
      assert log + [] == log;
    } else {
      var front, rule := rules[..|rules| - 1], rules[|rules| - 1];
      RulesTold(log, active, front, metrics, now);
      var before := EvaluateRules(active, front, metrics, now);
      var last := EvaluateRule(before.active, rule, metrics, now);
      assert log + (before.events + last.events) == (log + before.events) + last.events;
      forall id ensures Told(Story((log + before.events) + last.events, id), last.active, id) {
        assert Told(Story(log + before.events, rule.id), before.active, rule.id);
        RuleTold(log + before.events, before.active, rule, metrics, now, id);
      }
    }
  }

  /** Over every run of evaluations, acknowledgements and rule changes, the log tells each rule
      id's story in strict alternation, and the active map says how each story stands. */
  lemma {:induction false} RunTold(rules: seq<AlertRule>, ops: seq<Op>)
    ensures AllTold(Log(rules, ops), Run(rules, ops).active)
  {
    if ops != [] {
      var front, op := ops[..|ops| - 1], ops[|ops| - 1];
      var s, log := Run(rules, front), Log(rules, front);
      RunTold(rules, front);
      if op.EvaluateOp? {
        RulesTold(log, s.active, s.rules, op.metrics, op.now);
      } else {
        assert log + [] == log;
        forall id ensures Told(Story(log, id), Step(s, op).active, id) {
          assert Told(Story(log, id), s.active, id);
        }
      }
    }
  }

  lemma LatestOfLatest(a: seq<FiredAlert>, b: seq<FiredAlert>)
    ensures Latest(Latest(a) + b) == Latest(a + b)
  {}

  /** The stored history is the latest thousand events of the log. */
  lemma {:induction false} HistoryIsLatest(rules: seq<AlertRule>, ops: seq<Op>)
    ensures Run(rules, ops).history == Latest(Log(rules, ops))
  {
    if ops != [] {
      var front, op := ops[..|ops| - 1], ops[|ops| - 1];
      HistoryIsLatest(rules, front);
      var events := EventsOf(Run(rules, front), op);
      LatestOfLatest(Log(rules, front), events);
      if !op.EvaluateOp? { assert Log(rules, front) + events == Log(rules, front); }
    }
  }

  /** What `evaluate` reports is what it appended that is Firing: none of those ids was active
      before its rule was reached, so no alert is reported twice without resolving. */
  lemma NoRepeatedFiring(rules: seq<AlertRule>, ops: seq<Op>, id: string, i: nat)
    requires i + 1 < |Story(Log(rules, ops), id)| && Story(Log(rules, ops), id)[i].status.Firing?
    ensures Story(Log(rules, ops), id)[i + 1] == Story(Log(rules, ops), id)[i].(status := Resolved)
  {
    RunTold(rules, ops);
    var story := Story(Log(rules, ops), id);
    assert Told(story, Run(rules, ops).active, id);
    ResolvedNext(story, Run(rules, ops).active, id, i);
  }

  lemma ResolvedNext(story: seq<FiredAlert>, active: map<string, FiredAlert>, id: string, i: nat)
    requires Told(story, active, id) && i + 1 < |story| && story[i].status.Firing?
    ensures story[i + 1] == story[i].(status := Resolved)
  {
    assert InTurn(story, i) && InTurn(story, i + 1);
  }
}
