/** Classification of provider notifications. */
module Notifications {
  import opened Text

  datatype Status =
    | Pending | Submitted | FailedRetryable | FailedPermanent | Delivered | Bounced | Complained | Opened

  /** The fields of a notification that decide what is done with it. */
  datatype Notification = Notification(notificationType: string, eventType: string, bounceType: string)

  datatype Decision = Decision(status: Status, optOut: bool, retry: bool)

  function Label(s: string): string {
    ToLower(TrimSpace(s))
  }

  function EventOf(n: Notification): string {
    if Label(n.notificationType) == "" then Label(n.eventType) else Label(n.notificationType)
  }

  function StatusOf(lower: string): (status: Status)
    ensures status != FailedRetryable
  {
    if lower == "delivered" then Delivered
    else if lower == "bounce" || lower == "bounced" then Bounced
    else if lower == "complaint" || lower == "complained" then Complained
    else if lower == "failed_permanent" then FailedPermanent
    else Submitted
  }

  function MapWebhookStatus(value: string): (status: Status)
    ensures status != FailedRetryable
  {
    StatusOf(Label(value))
  }

  /** What is done about an event; the bounce type matters for bounces only. */
  function DecideEvent(event: string, bounceType: string): (d: Decision)
    ensures d.retry <==> d.status == FailedRetryable
    ensures d.retry <==> event == "bounce" && bounceType == "transient"
    ensures d.retry ==> !d.optOut
    ensures event == "bounce" ==> d.retry != d.optOut
  {
    if event == "delivery" then Decision(Delivered, false, false)
    else if event == "complaint" then Decision(Complained, true, false)
    else if event == "bounce" then
      if bounceType == "transient" then Decision(FailedRetryable, false, true)
      else Decision(Bounced, true, false)
    else if event == "reject" || event == "renderingfailure" then Decision(FailedPermanent, false, false)
    else Decision(MapWebhookStatus(event), false, false)
  }

  function Decide(n: Notification): Decision {
    DecideEvent(EventOf(n), Label(n.bounceType))
  }

  // ----- what is decided, from the fields of the notification -----

  /** The notification type is this word, in any case and with any space around it; if blank, the event type is. */
  ghost predicate Says(n: Notification, word: string) {
    ToLower(TrimSpace(if IsBlank(n.notificationType) then n.eventType else n.notificationType)) == word
  }

  ghost predicate IsTransient(n: Notification) {
    ToLower(TrimSpace(n.bounceType)) == "transient"
  }

  /** What a status in the timeline says about the notification that it was appended for. */
  ghost predicate IsStatusOf(n: Notification, status: Status) {
    match status
    case Delivered => Says(n, "delivery") || Says(n, "delivered")
    case Complained => Says(n, "complaint") || Says(n, "complained")
    case Bounced => (Says(n, "bounce") && !IsTransient(n)) || Says(n, "bounced")
    case FailedRetryable => Says(n, "bounce") && IsTransient(n)
    case FailedPermanent => Says(n, "reject") || Says(n, "renderingfailure") || Says(n, "failed_permanent")
    case Submitted =>
      && !Says(n, "delivery") && !Says(n, "delivered") && !Says(n, "complaint") && !Says(n, "complained")
      && !Says(n, "bounce") && !Says(n, "bounced")
      && !Says(n, "reject") && !Says(n, "renderingfailure") && !Says(n, "failed_permanent")
    case _ => false
  }

  /** Complaints and bounces that are not transient. */
  ghost predicate OptsOut(n: Notification) {
    Says(n, "complaint") || (Says(n, "bounce") && !IsTransient(n))
  }

  /** Status, opt-out and retry for every notification. */
  lemma DecideMeans(n: Notification)
    ensures IsStatusOf(n, Decide(n).status)
    ensures Decide(n).optOut <==> OptsOut(n)
    ensures Decide(n).retry <==> Says(n, "bounce") && IsTransient(n)
  {
    SaysIsEvent(n);
    LabelStays(if Label(n.notificationType) == "" then n.eventType else n.notificationType);
    DecideEventMeans(n, EventOf(n), Label(n.bounceType));
  }

  /** No notification is given two statuses. */
  lemma StatusIsUnique(n: Notification, a: Status, b: Status)
    requires IsStatusOf(n, a) && IsStatusOf(n, b)
    ensures a == b
  {
    SaysIsEvent(n);
    WordsDiffer(EventOf(n));
  }

  lemma SaysIsEvent(n: Notification)
    ensures forall word :: Says(n, word) <==> EventOf(n) == word
  {
    LabelOfBlank(n.notificationType);
  }

  lemma LabelOfBlank(s: string)
    ensures Label(s) == "" <==> IsBlank(s)
  {
  }

  lemma LabelStays(s: string)
    ensures Label(Label(s)) == Label(s)
  {
    LoweredStays(TrimSpace(s));
  }

  lemma LoweredStays(t: string)
    requires Untrimmable(t)
    ensures TrimSpace(ToLower(t)) == ToLower(t) && ToLower(ToLower(t)) == ToLower(t)
  {
    assert Untrimmable(ToLower(t));
  }

  /** The words have different lengths, or different first letters. */
  lemma WordsDiffer(event: string)
    ensures event == "delivery" ==> |event| == 8
    ensures event == "delivered" ==> |event| == 9 && event[0] == 'd'
    ensures event == "complaint" ==> |event| == 9 && event[0] == 'c'
    ensures event == "complained" ==> |event| == 10
    ensures event == "bounce" ==> |event| == 6 && event[0] == 'b'
    ensures event == "bounced" ==> |event| == 7
    ensures event == "reject" ==> |event| == 6 && event[0] == 'r'
    ensures event == "renderingfailure" ==> |event| == 16 && event[0] == 'r'
    ensures event == "failed_permanent" ==> |event| == 16 && event[0] == 'f'
  {
  }

  lemma DecideEventMeans(n: Notification, event: string, bounceType: string)
    requires (forall word :: Says(n, word) <==> event == word) && Label(event) == event
    requires IsTransient(n) <==> bounceType == "transient"
    ensures var d := DecideEvent(event, bounceType);
            && IsStatusOf(n, d.status) && (d.optOut <==> OptsOut(n))
            && (d.retry <==> Says(n, "bounce") && IsTransient(n))
  {
    WordsDiffer(event);
  }
}

/** The retry gate for transient bounces: append an entry, count the entries, perhaps launch a retry. */
module SoftBounceGate {
  import opened Notifications

  type Thread = nat

  /** The configured number of retries, and how notifications are classified. */
  datatype Gate = Gate(maxRetries: nat, decide: Notification -> Decision)

  /** A retry is asked for exactly when a retryable entry is appended. */
  ghost predicate IsGate(gate: Gate) {
    forall n :: gate.decide(n).retry <==> gate.decide(n).status == FailedRetryable
  }

  function RealGate(maxRetries: nat): Gate {
    Gate(maxRetries, Decide)
  }

  lemma RealGateIsGate(maxRetries: nat)
    ensures IsGate(RealGate(maxRetries))
  {
  }

  /** `pos` is where the handler's own entry landed in the delivery's timeline. */
  datatype Phase =
    | Loaded(delivery: string, decision: Decision)
    | Updated(delivery: string, decision: Decision)
    | Appended(delivery: string, decision: Decision, pos: nat)
    | Counted(delivery: string, pos: nat, count: nat)
    | Launched(delivery: string, pos: nat)
    | Ended

  /** Handlers stay in `handlers` after they end, so that the launched retries can be counted. */
  datatype State = State(timelines: map<string, seq<Status>>, handlers: map<Thread, Phase>)

  datatype Step =
    | AddDelivery(delivery: string)
    | OtherEntry(delivery: string, status: Status)
    | Notify(t: Thread, delivery: string, n: Notification)
    | Update(t: Thread)
    | Append(t: Thread)
    | Count(t: Thread)
    | Admit(t: Thread)
    | GiveUp(t: Thread)

  function CountOf(timeline: seq<Status>, status: Status): nat {
    if timeline == [] then 0
    else CountOf(timeline[..|timeline| - 1], status) + if timeline[|timeline| - 1] == status then 1 else 0
  }

  predicate Enabled(s: State, a: Step) {
    match a
    case AddDelivery(d) => d !in s.timelines
    case OtherEntry(d, _) => d in s.timelines
    case Notify(t, d, _) => t !in s.handlers && d in s.timelines
    case Update(t) => t in s.handlers && s.handlers[t].Loaded?
    case Append(t) => t in s.handlers && s.handlers[t].Updated? && s.handlers[t].delivery in s.timelines
    case Count(t) => t in s.handlers && s.handlers[t].Appended? && s.handlers[t].delivery in s.timelines
    case Admit(t) => t in s.handlers && s.handlers[t].Counted?
    case GiveUp(t) => t in s.handlers && !s.handlers[t].Launched?
  }

  /**
   `OtherEntry` is an entry of any other writer: sending, the plain webhook, open tracking and the
   retries themselves. `GiveUp` ends a handler whose current call on the repository failed.
   */
  function Apply(gate: Gate, s: State, a: Step): State
    requires Enabled(s, a)
  {
    match a
    case AddDelivery(d) => s.(timelines := s.timelines[d := []])
    case OtherEntry(d, status) => s.(timelines := s.timelines[d := s.timelines[d] + [status]])
    case Notify(t, d, n) => s.(handlers := s.handlers[t := Loaded(d, gate.decide(n))])
    case Update(t) => s.(handlers := s.handlers[t := Updated(s.handlers[t].delivery, s.handlers[t].decision)])
    case Append(t) =>
      var Updated(d, decision) := s.handlers[t];
      s.(timelines := s.timelines[d := s.timelines[d] + [decision.status]],
         handlers := s.handlers[t := Appended(d, decision, |s.timelines[d]|)])
    case Count(t) =>
      var Appended(d, decision, pos) := s.handlers[t];
      s.(handlers := s.handlers[t :=
          if decision.retry && gate.maxRetries > 0 then Counted(d, pos, CountOf(s.timelines[d], FailedRetryable))
          else Ended])
    case Admit(t) =>
      var Counted(d, pos, count) := s.handlers[t];
      s.(handlers := s.handlers[t := if count <= gate.maxRetries then Launched(d, pos) else Ended])
    case GiveUp(t) => s.(handlers := s.handlers[t := Ended])
  }

  // ----- the inductive invariant -----

  /** The handler's own entry is in the timeline for good. */
  predicate HasEntry(p: Phase) {
    p.Appended? || p.Counted? || p.Launched?
  }

  ghost predicate EntryAt(s: State, p: Phase) {
    HasEntry(p) ==>
      && p.delivery in s.timelines
      && p.pos < |s.timelines[p.delivery]|
      && ((p.Appended? && !p.decision.retry) || s.timelines[p.delivery][p.pos] == FailedRetryable)
  }

  /** How many retryable entries the timeline had when the handler's own was the last. */
  function RankAt(timeline: seq<Status>, pos: nat): nat
    requires pos < |timeline|
  {
    CountOf(timeline[..pos + 1], FailedRetryable)
  }

  ghost predicate PhaseInv(gate: Gate, s: State, p: Phase) {
    && EntryAt(s, p)
    && (p.Loaded? || p.Updated? || p.Appended? ==> (p.decision.retry <==> p.decision.status == FailedRetryable))
    && (p.Counted? ==> p.count >= RankAt(s.timelines[p.delivery], p.pos))
    && (p.Launched? ==> RankAt(s.timelines[p.delivery], p.pos) <= gate.maxRetries)
  }

  /** Two handlers of one delivery have appended different entries. */
  ghost predicate Apart(p: Phase, q: Phase) {
    HasEntry(p) && HasEntry(q) && p.delivery == q.delivery ==> p.pos != q.pos
  }

  ghost predicate Inv(gate: Gate, s: State) {
    && (forall t :: t in s.handlers ==> PhaseInv(gate, s, s.handlers[t]))
    && (forall t, u :: t in s.handlers && u in s.handlers && t != u ==>
          Apart(s.handlers[t], s.handlers[u]))
  }

  lemma CountMonotone(timeline: seq<Status>, i: nat, j: nat, status: Status)
    requires i <= j <= |timeline|
    ensures CountOf(timeline[..i], status) <= CountOf(timeline[..j], status)
    decreases j
  {
    if i < j {
      assert timeline[..j][..j - 1] == timeline[..j - 1];
      CountMonotone(timeline, i, j - 1, status);
    }
  }

  /** An entry's rank never changes: entries are only ever added behind it. */
  lemma RankStable(timeline: seq<Status>, pos: nat, status: Status)
    requires pos < |timeline|
    ensures RankAt(timeline + [status], pos) == RankAt(timeline, pos)
  {
    assert (timeline + [status])[..pos + 1] == timeline[..pos + 1];
  }

  lemma PhaseStep(gate: Gate, s: State, a: Step, t: Thread)
    requires IsGate(gate) && Inv(gate, s) && Enabled(s, a) && t in Apply(gate, s, a).handlers
    ensures PhaseInv(gate, Apply(gate, s, a), Apply(gate, s, a).handlers[t])
  {
    if !(a.Notify? && a.t == t) {
      var p := s.handlers[t];
      if HasEntry(p) {
        var timeline := s.timelines[p.delivery];
        if a.OtherEntry? { RankStable(timeline, p.pos, a.status); }
        if a.Append? && a.t != t { RankStable(timeline, p.pos, s.handlers[a.t].decision.status); }
        if a.Count? && a.t == t {
          CountMonotone(timeline, p.pos + 1, |timeline|, FailedRetryable);
          assert timeline[..|timeline|] == timeline;
        }
      }
    }
  }

  lemma InvStep(gate: Gate, s: State, a: Step)
    requires IsGate(gate) && Inv(gate, s) && Enabled(s, a)
    ensures Inv(gate, Apply(gate, s, a))
  {
    forall t | t in Apply(gate, s, a).handlers
      ensures PhaseInv(gate, Apply(gate, s, a), Apply(gate, s, a).handlers[t])
    {
      PhaseStep(gate, s, a, t);
    }
  }

  // ----- whole runs -----

  const NOTHING: State := State(map[], map[])

  /** The steps lead from one state to the other. */
  ghost predicate Runs(gate: Gate, s: State, steps: seq<Step>, end: State)
    decreases |steps|
  {
    if steps == [] then s == end
    else Enabled(s, steps[0]) && Runs(gate, Apply(gate, s, steps[0]), steps[1..], end)
  }

  lemma {:induction false} InvAfter(gate: Gate, s: State, steps: seq<Step>, end: State)
    requires IsGate(gate) && Inv(gate, s) && Runs(gate, s, steps, end)
    ensures Inv(gate, end)
    decreases |steps|
  {
    if steps == [] {
    } else {
      InvStep(gate, s, steps[0]);
      InvAfter(gate, Apply(gate, s, steps[0]), steps[1..], end);
    }
  }

  /** The handlers that launched a retry of the delivery. */
  ghost function Launches(s: State, delivery: string): set<Thread> {
    set t | t in s.handlers && s.handlers[t].Launched? && s.handlers[t].delivery == delivery
  }

  lemma RankGrows(timeline: seq<Status>, p: nat, q: nat)
    requires p < q < |timeline| && timeline[q] == FailedRetryable
    ensures RankAt(timeline, p) < RankAt(timeline, q)
  {
    assert timeline[..q + 1][..q] == timeline[..q];
    CountMonotone(timeline, p + 1, q, FailedRetryable);
  }

  lemma RankPositive(timeline: seq<Status>, p: nat)
    requires p < |timeline| && timeline[p] == FailedRetryable
    ensures RankAt(timeline, p) >= 1
  {
  }

  /** Threads with different ranks between 1 and `bound` are at most `bound` many. */
  lemma {:induction false} Pigeonhole(threads: set<Thread>, rank: map<Thread, nat>, bound: nat)
    requires forall t :: t in threads ==> t in rank && 1 <= rank[t] <= bound
    requires forall t, u :: t in threads && u in threads && rank[t] == rank[u] ==> t == u
    ensures |threads| <= bound
    decreases bound
  {
    if t :| t in threads && rank[t] == bound {
      Pigeonhole(threads - {t}, rank, bound - 1);
    } else if bound > 0 {
      Pigeonhole(threads, rank, bound - 1);
    } else {
      assert threads == {};
    }
  }

  /** Over every interleaving of handlers, retries and other writers, no delivery is retried more often than allowed. */
  lemma RetriesAreBounded(gate: Gate, steps: seq<Step>, end: State, delivery: string)
    requires IsGate(gate) && Runs(gate, NOTHING, steps, end)
    ensures |Launches(end, delivery)| <= gate.maxRetries
  {
    InvAfter(gate, NOTHING, steps, end);
    LaunchesAreFew(gate, end, delivery);
  }

  /** In particular with the service's own classification of notifications. */
  lemma ServiceRetriesAreBounded(maxRetries: nat, steps: seq<Step>, end: State, delivery: string)
    requires Runs(RealGate(maxRetries), NOTHING, steps, end)
    ensures |Launches(end, delivery)| <= maxRetries
  {
    RealGateIsGate(maxRetries);
    RetriesAreBounded(RealGate(maxRetries), steps, end, delivery);
  }

  lemma LaunchesAreFew(gate: Gate, s: State, delivery: string)
    requires Inv(gate, s)
    ensures |Launches(s, delivery)| <= gate.maxRetries
  {
    var threads := Launches(s, delivery);
    forall t | t in threads
      ensures delivery in s.timelines && s.handlers[t].pos < |s.timelines[delivery]|
      ensures 1 <= RankAt(s.timelines[delivery], s.handlers[t].pos) <= gate.maxRetries
    {
      assert PhaseInv(gate, s, s.handlers[t]);
      RankPositive(s.timelines[delivery], s.handlers[t].pos);
    }
    var rank := map t | t in threads :: RankAt(s.timelines[delivery], s.handlers[t].pos);
    forall t, u | t in threads && u in threads && t != u ensures rank[t] != rank[u] {
      DifferentRanks(gate, s, t, u);
    }
    Pigeonhole(threads, rank, gate.maxRetries);
  }

  lemma DifferentRanks(gate: Gate, s: State, t: Thread, u: Thread)
    requires Inv(gate, s) && t in s.handlers && u in s.handlers && t != u
    requires s.handlers[t].Launched? && s.handlers[u].Launched? && s.handlers[t].delivery == s.handlers[u].delivery
    ensures var d := s.handlers[t].delivery;
            && d in s.timelines && s.handlers[t].pos < |s.timelines[d]| && s.handlers[u].pos < |s.timelines[d]|
            && RankAt(s.timelines[d], s.handlers[t].pos) != RankAt(s.timelines[d], s.handlers[u].pos)
  {
    var timeline := s.timelines[s.handlers[t].delivery];
    assert PhaseInv(gate, s, s.handlers[t]) && PhaseInv(gate, s, s.handlers[u]);
    assert Apart(s.handlers[t], s.handlers[u]);
    if s.handlers[t].pos < s.handlers[u].pos {
      RankGrows(timeline, s.handlers[t].pos, s.handlers[u].pos);
    } else {
      RankGrows(timeline, s.handlers[u].pos, s.handlers[t].pos);
    }
  }

  // ----- the bound is exact -----

  /** The notification makes handlers append a retryable entry and ask for a retry. */
  ghost predicate AsksForRetry(gate: Gate, n: Notification) {
    gate.decide(n) == Decision(FailedRetryable, false, true)
  }

  /** These are exactly the transient bounces. */
  lemma TransientBouncesAskForRetry(maxRetries: nat, n: Notification)
    ensures AsksForRetry(RealGate(maxRetries), n) <==> EventOf(n) == "bounce" && Label(n.bounceType) == "transient"
  {
    var d := DecideEvent(EventOf(n), Label(n.bounceType));
    assert RealGate(maxRetries).decide(n) == d;
  }

  /** `k` bounces were handled one after the other, and each has launched its retry. */
  ghost predicate AllLaunched(s: State, delivery: string, k: nat) {
    && delivery in s.timelines
    && CountOf(s.timelines[delivery], FailedRetryable) == k
    && (forall t: Thread :: t in s.handlers <==> t < k)
    && (forall t :: t in s.handlers ==> s.handlers[t].Launched? && s.handlers[t].delivery == delivery)
  }

  function UpTo(k: nat): (r: set<Thread>)
    ensures |r| == k && forall t: Thread :: t in r <==> t < k
  {
    if k == 0 then {} else UpTo(k - 1) + {k - 1}
  }

  lemma {:induction false} RunFurther(gate: Gate, s: State, steps: seq<Step>, middle: State, a: Step)
    requires Runs(gate, s, steps, middle) && Enabled(middle, a)
    ensures Runs(gate, s, steps + [a], Apply(gate, middle, a))
    decreases |steps|
  {
    if steps == [] {
      assert [] + [a] == [a] && [a][1..] == [];
    } else {
      RunFurther(gate, Apply(gate, s, steps[0]), steps[1..], middle, a);
      assert (steps + [a])[1..] == steps[1..] + [a];
    }
  }

  /** Extends a run by a handler that nobody interrupts, up to its own entry. */
  lemma HandleToEntry(gate: Gate, s: State, steps: seq<Step>, now: State, delivery: string, t: Thread, n: Notification)
    returns (longer: seq<Step>, end: State)
    requires Runs(gate, s, steps, now) && AsksForRetry(gate, n)
    requires delivery in now.timelines && t !in now.handlers
    ensures Runs(gate, s, longer, end)
    ensures end.timelines == now.timelines[delivery := now.timelines[delivery] + [FailedRetryable]]
    ensures end.handlers ==
            now.handlers[t := Appended(delivery, Decision(FailedRetryable, false, true), |now.timelines[delivery]|)]
  {
    var s1 := Apply(gate, now, Notify(t, delivery, n));
    var s2 := Apply(gate, s1, Update(t));
    RunFurther(gate, s, steps, now, Notify(t, delivery, n));
    RunFurther(gate, s, steps + [Notify(t, delivery, n)], s1, Update(t));
    longer := steps + [Notify(t, delivery, n)] + [Update(t)] + [Append(t)];
    RunFurther(gate, s, steps + [Notify(t, delivery, n)] + [Update(t)], s2, Append(t));
    end := Apply(gate, s2, Append(t));
  }

  /** Extends a run by a handler that nobody interrupts, from its own entry on. */
  lemma HandleFromEntry(gate: Gate, s: State, steps: seq<Step>, now: State, delivery: string, t: Thread, pos: nat)
    returns (longer: seq<Step>, end: State)
    requires Runs(gate, s, steps, now)
    requires delivery in now.timelines && t in now.handlers
    requires now.handlers[t] == Appended(delivery, Decision(FailedRetryable, false, true), pos)
    requires 0 < CountOf(now.timelines[delivery], FailedRetryable) <= gate.maxRetries
    ensures Runs(gate, s, longer, end)
    ensures end == now.(handlers := now.handlers[t := Launched(delivery, pos)])
  {
    var s1 := Apply(gate, now, Count(t));
    RunFurther(gate, s, steps, now, Count(t));
    RunFurther(gate, s, steps + [Count(t)], s1, Admit(t));
    longer := steps + [Count(t)] + [Admit(t)];
    end := Apply(gate, s1, Admit(t));
  }

  lemma HandleToLaunch(gate: Gate, steps: seq<Step>, now: State, delivery: string, t: Thread, n: Notification)
    returns (longer: seq<Step>, end: State)
    requires Runs(gate, NOTHING, steps, now) && AsksForRetry(gate, n)
    requires AllLaunched(now, delivery, t) && t < gate.maxRetries
    ensures Runs(gate, NOTHING, longer, end) && AllLaunched(end, delivery, t + 1)
  {
    var entered: State;
    longer, entered := HandleToEntry(gate, NOTHING, steps, now, delivery, t, n);
    CountAppended(now.timelines[delivery], FailedRetryable);
    longer, end := HandleFromEntry(gate, NOTHING, longer, entered, delivery, t, |now.timelines[delivery]|);
    OneMoreLaunched(now, delivery, t, end);
  }

  lemma CountAppended(timeline: seq<Status>, status: Status)
    ensures CountOf(timeline + [status], status) == CountOf(timeline, status) + 1
  {
    assert (timeline + [status])[..|timeline|] == timeline;
  }

  lemma OneMoreLaunched(now: State, delivery: string, t: Thread, end: State)
    requires AllLaunched(now, delivery, t)
    requires end.timelines == now.timelines[delivery := now.timelines[delivery] + [FailedRetryable]]
    requires end.handlers.Keys == now.handlers.Keys + {t}
    requires end.handlers[t] == Launched(delivery, |now.timelines[delivery]|)
    requires forall u :: u in now.handlers ==> end.handlers[u] == now.handlers[u]
    ensures AllLaunched(end, delivery, t + 1)
  {
    CountAppended(now.timelines[delivery], FailedRetryable);
  }

  lemma {:induction false} LaunchMany(gate: Gate, delivery: string, n: Notification, k: nat)
    returns (steps: seq<Step>, end: State)
    requires AsksForRetry(gate, n) && k <= gate.maxRetries
    ensures Runs(gate, NOTHING, steps, end) && AllLaunched(end, delivery, k)
    decreases k
  {
    if k == 0 {
      RunFurther(gate, NOTHING, [], NOTHING, AddDelivery(delivery));
      steps, end := [] + [AddDelivery(delivery)], Apply(gate, NOTHING, AddDelivery(delivery));
    } else {
      steps, end := LaunchMany(gate, delivery, n, k - 1);
      steps, end := HandleToLaunch(gate, steps, end, delivery, k - 1, n);
    }
  }

  /** The bound is reached: if there are notifications that ask for a retry, some run launches exactly `maxRetries`. */
  lemma BoundIsReached(gate: Gate, delivery: string, n: Notification) returns (steps: seq<Step>, end: State)
    requires AsksForRetry(gate, n)
    ensures Runs(gate, NOTHING, steps, end) && |Launches(end, delivery)| == gate.maxRetries
  {
    steps, end := LaunchMany(gate, delivery, n, gate.maxRetries);
    assert Launches(end, delivery) == UpTo(gate.maxRetries);
  }
}

/** The webhook handler itself, which updates the delivery log in place. */
module EmailWebhook {
  import opened Basics
  import opened Notifications
  import opened SoftBounceGate

  type Timelines = map<string, seq<Status>>

  /** The delivery has one more entry, whose status is the one that belongs to the notification. */
  ghost predicate AppendedFor(n: Notification, delivery: string, before: Timelines, after: Timelines) {
    && delivery in before && delivery in after
    && exists status :: IsStatusOf(n, status) && after == before[delivery := before[delivery] + [status]]
  }

  class DeliveryLog {
    var timelines: Timelines
    ghost var handlers: map<Thread, Phase>

    ghost function Snapshot(): State
      reads this
    {
      State(timelines, handlers)
    }

    constructor ()
      ensures Snapshot() == NOTHING
    {
      timelines, handlers := map[], map[];
    }

    /** Performs one step of the handler and records it. */
    ghost method Record(gate: Gate, start: State, steps: seq<Step>, a: Step) returns (longer: seq<Step>)
      requires Runs(gate, start, steps, Snapshot()) && Enabled(Snapshot(), a)
      requires Apply(gate, Snapshot(), a).timelines == timelines
      modifies this`handlers
      ensures Snapshot() == Apply(gate, old(Snapshot()), a) && Runs(gate, start, longer, Snapshot())
    {
      RunFurther(gate, start, steps, Snapshot(), a);
      longer := steps + [a];
      handlers := Apply(gate, Snapshot(), a).handlers;
    }

    /** Appends the handler's own entry. */
    method AddStatusEntry(gate: Gate, delivery: string, status: Status,
                          ghost t: Thread, ghost start: State, ghost steps: seq<Step>)
      returns (ghost longer: seq<Step>)
      requires Runs(gate, start, steps, Snapshot())
      requires t in handlers && handlers[t].Updated? && handlers[t].delivery == delivery && delivery in timelines
      requires handlers[t].decision.status == status
      modifies this
      ensures timelines == old(timelines)[delivery := old(timelines)[delivery] + [status]]
      ensures Snapshot() == Apply(gate, old(Snapshot()), Append(t)) && Runs(gate, start, longer, Snapshot())
    {
      RunFurther(gate, start, steps, Snapshot(), Append(t));
      longer := steps + [Append(t)];
      ghost var after := Apply(gate, Snapshot(), Append(t));
      timelines := timelines[delivery := timelines[delivery] + [status]];
      handlers := after.handlers;
    }

    /**
     `found` is the delivery that the provider's message identifier leads to, if any. Whatever fails, the
     handler is a run of the step system; it launches a retry in exactly the stated case. `optOut` says that the
     recipient is to be opted out.
     */
    method HandleSESNotification(gate: Gate, found: Option<string>, n: Notification, loadFails: bool, updateFails: bool,
                                 appendFails: bool, countFails: bool, ghost t: Thread)
      returns (ok: bool, optOut: bool, retry: bool, ghost steps: seq<Step>)
      requires t !in handlers && (found.Some? ==> found.value in timelines)
      modifies this
      ensures Runs(gate, old(Snapshot()), steps, Snapshot())
      ensures ok <==> !loadFails && (found.None? || (!updateFails && !appendFails))
      ensures timelines == if ok && found.Some?
                           then old(timelines)[found.value := old(timelines)[found.value] + [gate.decide(n).status]]
                           else old(timelines)
      ensures retry <==> ok && found.Some? && gate.decide(n).retry && gate.maxRetries > 0 && !countFails
                         && CountOf(timelines[found.value], FailedRetryable) <= gate.maxRetries
      ensures retry <==> t in handlers && handlers[t].Launched?
      ensures optOut <==> ok && found.Some? && gate.decide(n).optOut
    {
      ghost var start := Snapshot();
      steps, optOut, retry := [], false, false;
      if loadFails {
        return false, false, false, steps;
      }
      if found.None? {
        return true, false, false, steps;
      }
      var delivery := found.value;
      steps := Record(gate, start, steps, Notify(t, delivery, n));
      var decision := gate.decide(n);
      if updateFails {
        steps := Record(gate, start, steps, GiveUp(t));
        return false, false, false, steps;
      }
      steps := Record(gate, start, steps, Update(t));
      if appendFails {
        steps := Record(gate, start, steps, GiveUp(t));
        return false, false, false, steps;
      }
      steps := AddStatusEntry(gate, delivery, decision.status, t, start, steps);
      ok, optOut := true, decision.optOut;
      if decision.retry && gate.maxRetries > 0 && !countFails {
        var count := CountOf(timelines[delivery], FailedRetryable);
        steps := Record(gate, start, steps, Count(t));
        retry := count <= gate.maxRetries;
        steps := Record(gate, start, steps, Admit(t));
      } else {
        steps := Record(gate, start, steps, GiveUp(t));
      }
    }

    /** The handler with the service's own classification: what it does, told from the fields of the notification. */
    method HandleWebhook(maxRetries: nat, found: Option<string>, n: Notification, loadFails: bool, updateFails: bool,
                         appendFails: bool, countFails: bool, ghost t: Thread)
      returns (ok: bool, optOut: bool, retry: bool, ghost steps: seq<Step>)
      requires t !in handlers && (found.Some? ==> found.value in timelines)
      modifies this
      ensures Runs(RealGate(maxRetries), old(Snapshot()), steps, Snapshot())
      ensures ok <==> !loadFails && (found.None? || (!updateFails && !appendFails))
      ensures if ok && found.Some? then AppendedFor(n, found.value, old(timelines), timelines)
              else timelines == old(timelines)
      ensures optOut <==> ok && found.Some? && OptsOut(n)
      ensures retry <==> ok && found.Some? && Says(n, "bounce") && IsTransient(n) && maxRetries > 0 && !countFails
                         && CountOf(timelines[found.value], FailedRetryable) <= maxRetries
    {
      ok, optOut, retry, steps := HandleSESNotification(
        RealGate(maxRetries), found, n, loadFails, updateFails, appendFails, countFails, t);
      DecideMeans(n);
      assert RealGate(maxRetries).decide(n) == Decide(n);
    }
  }
}
