/** Coalescing of identical concurrent queries.  Each method runs under one lock, so a run is
    a sequence of atomic steps.  An execution is named by the channel its check created. */
module InFlight {
  /** A broadcast channel: its sender still in the map, one value sent, or dropped unsent. */
  datatype Channel<+V> = Open | Sent(value: V) | Closed

  datatype DedupeResult = Execute | Wait(channel: nat)

  datatype State<V> = State(inflight: map<string, nat>, channels: seq<Channel<V>>)

  // ---- The steps ------------------------------------------------------------

  function Check<V>(s: State<V>, key: string): (State<V>, DedupeResult) {
    if key in s.inflight then (s, Wait(s.inflight[key]))
    else (State(s.inflight[key := |s.channels|], s.channels + [Open]), Execute)
  }

  function Remove<V>(s: State<V>, key: string, final: Channel<V>): State<V> {
    if key in s.inflight && s.inflight[key] < |s.channels| then
      State(s.inflight - {key}, s.channels[s.inflight[key] := final])
    else s
  }

  function Complete<V>(s: State<V>, key: string, result: V): State<V> { Remove(s, key, Sent(result)) }

  function Cancel<V>(s: State<V>, key: string): State<V> { Remove(s, key, Closed) }

  class QueryDedup<V> {
    var inflight: map<string, nat>
    /** Every channel ever created; the receivers of one keep seeing it after the map forgot it. */
    var channels: seq<Channel<V>>

    ghost predicate Valid()
      reads this
    {
      forall key :: key in inflight ==> inflight[key] < |channels|
    }

    ghost function View(): State<V>
      reads this
    {
      State(inflight, channels)
    }

    constructor ()
      ensures Valid() && View() == State(map[], [])
    {
      inflight, channels := map[], [];
    }

    method CheckQuery(key: string) returns (r: DedupeResult)
      requires Valid()
      modifies this
      ensures Valid() && (View(), r) == Check(old(View()), key)
    {
      if key in inflight {
        return Wait(inflight[key]);
      } else {
        var tx := |channels|;
        channels := channels + [Open];
        inflight := inflight[key := tx];
        return Execute;
      }
    }

    method CompleteQuery(key: string, result: V)
      requires Valid()
      modifies this
      ensures Valid() && View() == Complete(old(View()), key, result)
    {
      if key in inflight {
        var tx := inflight[key];
        inflight := inflight - {key};
        channels := channels[tx := Sent(result)];
      }
    }

    method CancelQuery(key: string)
      requires Valid()
      modifies this
      ensures Valid() && View() == Cancel(old(View()), key)
    {
      if key in inflight {
        var tx := inflight[key];
        inflight := inflight - {key};
        channels := channels[tx := Closed];
      }
    }
  }

  // ---- Runs, told without the implementation --------------------------------

  /** A caller asks; the caller that runs execution `e` reports a result, or gives up. */
  datatype Event<+V> = Asked(key: string) | Completed(e: nat, value: V) | Cancelled(e: nat)

  predicate Ends<V>(ev: Event<V>, e: nat) { (ev.Completed? || ev.Cancelled?) && ev.e == e }

  predicate Ended<V>(trace: seq<Event<V>>, e: nat) {
    exists i :: 0 <= i < |trace| && Ends(trace[i], e)
  }

  /** The keys of the executions begun, in order: asking begins one when none of that key runs. */
  function Begun<V>(trace: seq<Event<V>>): seq<string> {
    if trace == [] then []
    else
      var front, last := trace[..|trace| - 1], trace[|trace| - 1];
      if last.Asked? && !Running(front, last.key) then Begun(front) + [last.key] else Begun(front)
  }

  predicate Running<V>(trace: seq<Event<V>>, key: string) {
    if trace == [] then false
    else
      var front, last := trace[..|trace| - 1], trace[|trace| - 1];
      match last
      case Asked(k) => k == key || Running(front, key)
      case _ =>
        if last.e < |Begun(front)| && Begun(front)[last.e] == key then false else Running(front, key)
  }

  /** Only the caller told to execute ends an execution, and only once. */
  predicate Disciplined<V>(trace: seq<Event<V>>) {
    trace == [] ||
    var front, last := trace[..|trace| - 1], trace[|trace| - 1];
    Disciplined(front) && (last.Asked? || (last.e < |Begun(front)| && !Ended(front, last.e)))
  }

  /** How an execution stands at the end of a run. */
  function Standing<V>(trace: seq<Event<V>>, e: nat): Channel<V> {
    if trace == [] then Open
    else
      var last := trace[|trace| - 1];
      if !Ends(last, e) then Standing(trace[..|trace| - 1], e)
      else if last.Completed? then Sent(last.value)
      else Closed
  }

  /** The code on that run: each report goes to `complete` or `cancel` under the execution's key. */
  function Run<V>(trace: seq<Event<V>>): State<V> {
    if trace == [] then State(map[], [])
    else
      var front, last := trace[..|trace| - 1], trace[|trace| - 1];
      match last
      case Asked(key) => Check(Run(front), key).0
      case Completed(e, v) => if e < |Begun(front)| then Complete(Run(front), Begun(front)[e], v) else Run(front)
      case Cancelled(e) => if e < |Begun(front)| then Cancel(Run(front), Begun(front)[e]) else Run(front)
  }

  // ---- The invariant --------------------------------------------------------

  /** The executions of a run at a glance. */
  datatype Ledger<!V> = Ledger(begun: seq<string>, ended: nat -> bool, standing: nat -> Channel<V>,
                               running: string -> bool)

  function LedgerOf<V>(trace: seq<Event<V>>): Ledger<V> {
    Ledger(Begun(trace), (e: nat) => Ended(trace, e), (e: nat) => Standing(trace, e), key => Running(trace, key))
  }

  /** The map holds exactly the executions that run, each under its key. */
  ghost predicate Tracks<V>(s: State<V>, l: Ledger<V>) {
    && |s.channels| == |l.begun|
    && (forall e :: 0 <= e < |s.channels| ==> s.channels[e] == l.standing(e))
    && (forall key :: key in s.inflight ==> Holds(s, l, key))
    && (forall e :: 0 <= e < |l.begun| && !l.ended(e) ==> l.begun[e] in s.inflight && s.inflight[l.begun[e]] == e)
    && (forall key :: key in s.inflight <==> l.running(key))
  }

  ghost predicate Holds<V>(s: State<V>, l: Ledger<V>, key: string)
    requires key in s.inflight
  {
    var e := s.inflight[key];
    e < |s.channels| && e < |l.begun| && l.begun[e] == key && !l.ended(e)
  }

  /** A check on the map, and the same question put to the ledger. */
  lemma CheckTracks<V>(s: State<V>, l: Ledger<V>, m: Ledger<V>, key: string)
    requires Tracks(s, l)
    requires m.begun == if l.running(key) then l.begun else l.begun + [key]
    requires forall e :: m.ended(e) == l.ended(e) && m.standing(e) == l.standing(e)
    requires forall k :: m.running(k) <==> k == key || l.running(k)
    requires !l.ended(|l.begun|) && l.standing(|l.begun|).Open?
    ensures Tracks(Check(s, key).0, m)
  {
    var t := Check(s, key).0;
    forall k | k in t.inflight ensures Holds(t, m, k) {
      if k in s.inflight { assert Holds(s, l, k); }
    }
  }

  /** Taking the entry of a running execution out of the map ends just that execution. */
  lemma RemoveTracks<V>(s: State<V>, l: Ledger<V>, m: Ledger<V>, e: nat, final: Channel<V>)
    requires Tracks(s, l) && e < |l.begun| && !l.ended(e)
    requires m.begun == l.begun
    requires forall f :: m.ended(f) <==> l.ended(f) || f == e
    requires forall f :: m.standing(f) == if f == e then final else l.standing(f)
    requires forall k :: m.running(k) <==> k != l.begun[e] && l.running(k)
    ensures Tracks(Remove(s, l.begun[e], final), m)
  {
    var t, key := Remove(s, l.begun[e], final), l.begun[e];
    assert s.inflight[key] == e;
    forall k | k in t.inflight ensures Holds(t, m, k) {
      assert Holds(s, l, k);
    }
  }

  lemma EndedStep<V>(trace: seq<Event<V>>, e: nat)
    requires trace != []
    ensures Ended(trace, e) <==> Ended(trace[..|trace| - 1], e) || Ends(trace[|trace| - 1], e)
  {
    var front := trace[..|trace| - 1];
    if Ended(front, e) {
      var i :| 0 <= i < |front| && Ends(front[i], e);
      assert Ends(trace[i], e);
    }
    if Ended(trace, e) && !Ends(trace[|trace| - 1], e) {
      var i :| 0 <= i < |trace| && Ends(trace[i], e);
      assert Ends(front[i], e);
    }
  }

  lemma {:induction false} NotYetBegun<V>(trace: seq<Event<V>>, e: nat)
    requires Disciplined(trace) && |Begun(trace)| <= e
    ensures !Ended(trace, e) && Standing(trace, e).Open?
  {
    if trace != [] {
      NotYetBegun(trace[..|trace| - 1], e);
      EndedStep(trace, e);
    }
  }

  /** In every disciplined run the code tracks the executions exactly. */
  lemma {:induction false} RunTracks<V>(trace: seq<Event<V>>)
    requires Disciplined(trace)
    ensures Tracks(Run(trace), LedgerOf(trace))
  {
    if trace != [] {
      var front, last := trace[..|trace| - 1], trace[|trace| - 1];
      RunTracks(front);
      forall e: nat ensures Ended(trace, e) <==> Ended(front, e) || Ends(last, e) { EndedStep(trace, e); }
      if last.Asked? {
        NotYetBegun(front, |Begun(front)|);
        CheckTracks(Run(front), LedgerOf(front), LedgerOf(trace), last.key);
      } else {
        RemoveTracks(Run(front), LedgerOf(front), LedgerOf(trace), last.e,
                     if last.Completed? then Sent(last.value) else Closed);
      }
    }
  }

  // ---- What the callers see -------------------------------------------------

  /** At most one execution of a key runs at a time. */
  lemma OneExecutor<V>(trace: seq<Event<V>>, e: nat, f: nat)
    requires Disciplined(trace) && e < |Begun(trace)| && f < |Begun(trace)|
    requires !Ended(trace, e) && !Ended(trace, f) && Begun(trace)[e] == Begun(trace)[f]
    ensures e == f
  {
    RunTracks(trace);
  }

  /** A caller is told to execute exactly when no execution of the key runs; otherwise it joins
      the one that does. */
  lemma CheckAnswer<V>(trace: seq<Event<V>>, key: string)
    requires Disciplined(trace)
    ensures
      match Check(Run(trace), key).1
      case Execute => forall e :: 0 <= e < |Begun(trace)| && Begun(trace)[e] == key ==> Ended(trace, e)
      case Wait(e) => e < |Begun(trace)| && Begun(trace)[e] == key && !Ended(trace, e)
  {
    RunTracks(trace);
  }

  lemma {:induction false} DisciplinedPrefix<V>(trace: seq<Event<V>>, i: nat)
    requires Disciplined(trace) && i <= |trace|
    ensures Disciplined(trace[..i])
  {
    if i == |trace| {
      assert trace[..i] == trace;
    } else {
      DisciplinedPrefix(trace[..|trace| - 1], i);
      assert trace[..|trace| - 1][..i] == trace[..i];
    }
  }

  lemma {:induction false} BegunPrefix<V>(trace: seq<Event<V>>, i: nat)
    requires i <= |trace|
    ensures Begun(trace[..i]) <= Begun(trace)
  {
    if i == |trace| {
      assert trace[..i] == trace;
    } else {
      BegunPrefix(trace[..|trace| - 1], i);
      assert trace[..|trace| - 1][..i] == trace[..i];
    }
  }

  /** How an execution stands says which report ended it, and there was but one. */
  lemma {:induction false} StandingMeaning<V>(trace: seq<Event<V>>, e: nat)
    requires Disciplined(trace)
    ensures Standing(trace, e).Open? <==> !Ended(trace, e)
    ensures forall i :: 0 <= i < |trace| && Ends(trace[i], e) ==>
      Standing(trace, e) == (if trace[i].Completed? then Sent(trace[i].value) else Closed)
    ensures forall i, j :: 0 <= i < j < |trace| && Ends(trace[i], e) ==> !Ends(trace[j], e)
  {
    if trace != [] {
      StandingMeaning(trace[..|trace| - 1], e);
      EndedStep(trace, e);
    }
  }

  /** A waiter that joined execution `e` at step `i` ends up with what ended `e`: the completed
      value, a closed channel on cancel, and pending exactly while `e` runs. */
  lemma WaiterOutcome<V>(trace: seq<Event<V>>, i: nat)
    requires Disciplined(trace) && i < |trace| && trace[i].Asked?
    requires Check(Run(trace[..i]), trace[i].key).1.Wait?
    ensures
      var e := Check(Run(trace[..i]), trace[i].key).1.channel;
      && e < |Run(trace).channels| && e < |Begun(trace)| && Begun(trace)[e] == trace[i].key && !Ended(trace[..i], e)
      && Run(trace).channels[e] == Standing(trace, e)
      && (Run(trace).channels[e].Open? <==> !Ended(trace, e))
      && (forall v :: Run(trace).channels[e] == Sent(v) ==> exists j :: i < j < |trace| && trace[j] == Completed(e, v))
      && (Run(trace).channels[e].Closed? ==> exists j :: i < j < |trace| && trace[j] == Cancelled(e))
  {
    var e := Check(Run(trace[..i]), trace[i].key).1.channel;
    DisciplinedPrefix(trace, i);
    CheckAnswer(trace[..i], trace[i].key);
    BegunPrefix(trace, i);
    RunTracks(trace);
    StandingMeaning(trace, e);
    if Ended(trace, e) {
      var j :| 0 <= j < |trace| && Ends(trace[j], e);
      assert !(exists k :: 0 <= k < i && Ends(trace[..i][k], e));
      assert forall k :: 0 <= k < i ==> trace[..i][k] == trace[k];
      assert i < j;
    }
  }

  /** The discipline is needed.  A second report of an ended execution `e` does nothing exactly
      when no other execution of its key runs.  Otherwise the waiters of that one get the late
      report, and the next caller is told to execute although it has not ended. */
  lemma LateReportIff<V>(trace: seq<Event<V>>, e: nat, v: V)
    requires Disciplined(trace) && e < |Begun(trace)| && Ended(trace, e)
    ensures
      var s, key := Run(trace), Begun(trace)[e];
      && (Complete(s, key, v) == s <==> !Running(trace, key))
      && (Cancel(s, key) == s <==> !Running(trace, key))
      && (Running(trace, key) ==> exists f: nat ::
            && OtherRuns(trace, e, f)
            && Complete(s, key, v).channels[f] == Sent(v) && Cancel(s, key).channels[f] == Closed
            && Check(Complete(s, key, v), key).1.Execute? && Check(Cancel(s, key), key).1.Execute?)
  {
    RunTracks(trace);
    var s, key := Run(trace), Begun(trace)[e];
    if Running(trace, key) {
      assert key in s.inflight && Holds(s, LedgerOf(trace), key);
      var f := s.inflight[key];
      assert OtherRuns(trace, e, f);
      assert key !in Complete(s, key, v).inflight && key !in Cancel(s, key).inflight;
    }
  }

  /** Another execution with the key of `e` runs. */
  predicate OtherRuns<V>(trace: seq<Event<V>>, e: nat, f: nat) {
    && e < |Begun(trace)| && f < |Begun(trace)| && f < |Run(trace).channels|
    && f != e && Begun(trace)[f] == Begun(trace)[e] && !Ended(trace, f)
  }
}
