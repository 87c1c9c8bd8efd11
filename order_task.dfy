/** The Celery task `process_order` of the API gateway
    (api_gateway/celery.py). One attempt asks the user service for the
    user and, if it is found, asks the order service to create the order.
    Any exception in an attempt, a business error or a failing client
    alike, is handed to `self.retry` with countdown `2 ** retries`; Celery
    schedules the task again until `max_retries` retries have been used,
    and then raises the attempt's exception. The replies of the two
    services are inputs: `worlds(k)` is what they answer in attempt `k`. */
module OrderTask {
  const MAX_RETRIES: nat := 3
  const STATUS_SUCCESS: string := "success"

  datatype Exception =
    | ValueError(message: string)
    | ClientFailure(description: string)  // an exception raised by a gRPC client

  /** A remote call's result: a response whose `error` string is empty on
      success, or an exception the client raised. */
  datatype Reply<T> = Response(error: string, body: T) | Raised(exception: Exception)

  /** What the services answer in one attempt; `createOrder` is only asked
      if the user was found. Its body is the created order's id. */
  datatype AttemptWorld = AttemptWorld(getUser: Reply<()>, createOrder: Reply<int>)

  datatype Outcome = Succeeded(orderId: int) | Failed(exception: Exception)

  /** The observable steps of a run, each tagged with the value of
      `self.request.retries` during that attempt. */
  datatype Event =
    | GetUser(attempt: nat)
    | CreateOrder(attempt: nat)
    | RetryScheduled(attempt: nat, countdown: nat)

  /** What the task returns or raises. */
  datatype TaskResult =
    | Returned(status: string, orderId: int)
    | RaisedAfterRetries(exception: Exception)

  predicate UserFound(w: AttemptWorld) {
    w.getUser.Response? && w.getUser.error == ""
  }

  predicate OrderCreated(w: AttemptWorld) {
    w.createOrder.Response? && w.createOrder.error == ""
  }

  /** The body of one attempt: what it returns or raises. */
  function AttemptOutcome(w: AttemptWorld): (o: Outcome)
    ensures o.Succeeded? <==> UserFound(w) && OrderCreated(w)
    ensures o.Succeeded? ==> o.orderId == w.createOrder.body
  {
    match w.getUser
    case Raised(e) => Failed(e)
    case Response(userError, _) =>
      if userError != "" then Failed(UserNotFound(userError))
      else
        match w.createOrder
        case Raised(e) => Failed(e)
        case Response(orderError, id) =>
          if orderError != "" then Failed(OrderCreationFailed(orderError))
          else Succeeded(id)
  }

  /** `ValueError(f"User not found: {error}")`. */
  function UserNotFound(error: string): (e: Exception)
    ensures e.ValueError? && |e.message| == |error| + 16
    ensures e.message[..16] == "User not found: " && e.message[16..] == error
  {
    ValueError("User not found: " + error)
  }

  /** `ValueError(f"Order creation failed: {error}")`. */
  function OrderCreationFailed(error: string): (e: Exception)
    ensures e.ValueError? && |e.message| == |error| + 23
    ensures e.message[..23] == "Order creation failed: " && e.message[23..] == error
  {
    ValueError("Order creation failed: " + error)
  }

  /** A failed attempt raises the business error of the step that failed,
      or the client's own exception. */
  lemma FailureReasons(w: AttemptWorld)
    ensures w.getUser.Raised? ==> AttemptOutcome(w) == Failed(w.getUser.exception)
    ensures w.getUser.Response? && w.getUser.error != "" ==>
      AttemptOutcome(w) == Failed(UserNotFound(w.getUser.error))
    ensures UserFound(w) && w.createOrder.Raised? ==>
      AttemptOutcome(w) == Failed(w.createOrder.exception)
    ensures UserFound(w) && w.createOrder.Response? && w.createOrder.error != "" ==>
      AttemptOutcome(w) == Failed(OrderCreationFailed(w.createOrder.error))
  {
  }

  /** The calls one attempt makes: the lookup, and the creation only when
      the lookup found the user. */
  function AttemptEvents(k: nat, w: AttemptWorld): (es: seq<Event>)
    ensures |es| > 0 && es[0] == GetUser(k)
    ensures CreateOrder(k) in es <==> UserFound(w)
  {
    if UserFound(w) then [GetUser(k), CreateOrder(k)] else [GetUser(k)]
  }

  function Pow2(k: nat): (p: nat)
    ensures p >= 1
  {
    if k == 0 then 1 else 2 * Pow2(k - 1)
  }

  /** What the run from the attempt with `retries == k` on returns or
      raises: on failure either the next attempt's result or, with the
      retries used up, the attempt's exception. */
  function Result(worlds: nat -> AttemptWorld, k: nat): (r: TaskResult)
    requires k <= MAX_RETRIES
    ensures r.Returned? ==> r.status == STATUS_SUCCESS
    ensures r.RaisedAfterRetries? ==>
      AttemptOutcome(worlds(MAX_RETRIES)).Failed? &&
      r.exception == AttemptOutcome(worlds(MAX_RETRIES)).exception
    decreases MAX_RETRIES - k
  {
    match AttemptOutcome(worlds(k))
    case Succeeded(id) => Returned(STATUS_SUCCESS, id)
    case Failed(e) =>
      if k == MAX_RETRIES then RaisedAfterRetries(e) else Result(worlds, k + 1)
  }

  /** The steps of the run from attempt `k` on: the attempt's calls, then,
      after a failure with retries left, the scheduled retry and the rest. */
  function Trace(worlds: nat -> AttemptWorld, k: nat): (t: seq<Event>)
    requires k <= MAX_RETRIES
    ensures |t| > 0 && t[0] == GetUser(k)
    decreases MAX_RETRIES - k
  {
    var events := AttemptEvents(k, worlds(k));
    if AttemptOutcome(worlds(k)).Failed? && k < MAX_RETRIES then
      events + [RetryScheduled(k, Pow2(k))] + Trace(worlds, k + 1)
    else events
  }

  /** One run of the task body (lines 17-32): look the user up, stop on
      a failure, otherwise create the order and stop on a failure, and
      return the created id. */
  method RunAttempt(k: nat, w: AttemptWorld) returns (outcome: Outcome, events: seq<Event>)
    ensures outcome == AttemptOutcome(w) && events == AttemptEvents(k, w)
  {
    events := [GetUser(k)];
    match w.getUser {
      case Raised(e) =>
        outcome := Failed(e);
        return;
      case Response(userError, _) =>
        if userError != "" {
          outcome := Failed(UserNotFound(userError));
          return;
        }
    }
    events := events + [CreateOrder(k)];
    match w.createOrder {
      case Raised(e) =>
        outcome := Failed(e);
      case Response(orderError, id) =>
        if orderError != "" {
          outcome := Failed(OrderCreationFailed(orderError));
        } else {
          outcome := Succeeded(id);
        }
    }
  }

  /** `process_order` as Celery drives it: attempts `0, 1, ...`, each
      starting again from the user lookup. */
  method ProcessOrder(worlds: nat -> AttemptWorld) returns (result: TaskResult, trace: seq<Event>)
    ensures result == Result(worlds, 0) && trace == Trace(worlds, 0)
  {
    var retries: nat := 0;
    trace := [];
    assert RunSoFar(worlds, retries, trace);
    while true
      invariant RunSoFar(worlds, retries, trace)
      decreases MAX_RETRIES - retries
    {
      var outcome, events := RunAttempt(retries, worlds(retries));
      if outcome.Succeeded? {
        LastAttempt(worlds, retries, trace);
        result := Returned(STATUS_SUCCESS, outcome.orderId);
        trace := trace + events;
        return;
      }
      if retries == MAX_RETRIES {
        LastAttempt(worlds, retries, trace);
        result := RaisedAfterRetries(outcome.exception);
        trace := trace + events;
        return;
      }
      RetryAttempt(worlds, retries, trace);
      trace := trace + events + [RetryScheduled(retries, Pow2(retries))];
      retries := retries + 1;
    }
  }

  /** The loop state of `ProcessOrder` before the attempt with
      `retries == k`: the steps `done` so far followed by the run from
      attempt `k` make up the whole run, which ends as the run from `k`. */
  ghost predicate RunSoFar(worlds: nat -> AttemptWorld, k: nat, done: seq<Event>) {
    k <= MAX_RETRIES &&
    Result(worlds, k) == Result(worlds, 0) &&
    done + Trace(worlds, k) == Trace(worlds, 0)
  }

  /** An attempt that succeeds, or fails with no retries left, ends the
      run: its calls complete the steps, and its outcome is the result. */
  lemma LastAttempt(worlds: nat -> AttemptWorld, k: nat, done: seq<Event>)
    requires RunSoFar(worlds, k, done)
    requires AttemptOutcome(worlds(k)).Succeeded? || k == MAX_RETRIES
    ensures done + AttemptEvents(k, worlds(k)) == Trace(worlds, 0)
    ensures AttemptOutcome(worlds(k)).Succeeded? ==>
      Result(worlds, 0) == Returned(STATUS_SUCCESS, AttemptOutcome(worlds(k)).orderId)
    ensures AttemptOutcome(worlds(k)).Failed? ==>
      Result(worlds, 0) == RaisedAfterRetries(AttemptOutcome(worlds(k)).exception)
  {
  }

  /** A failed attempt with retries left hands the run on to the next one:
      the steps done so far grow by the attempt's calls and its retry. */
  lemma RetryAttempt(worlds: nat -> AttemptWorld, k: nat, done: seq<Event>)
    requires RunSoFar(worlds, k, done)
    requires k < MAX_RETRIES && AttemptOutcome(worlds(k)).Failed?
    ensures RunSoFar(worlds, k + 1, done + AttemptEvents(k, worlds(k)) + [RetryScheduled(k, Pow2(k))])
  {
    TraceAfterFailure(worlds, k);
    var events := AttemptEvents(k, worlds(k));
    var retry := [RetryScheduled(k, Pow2(k))];
    assert done + Trace(worlds, k) == (done + events + retry) + Trace(worlds, k + 1);
  }

  /** A step of a run that started at attempt `k`: it belongs to an
      attempt between `k` and `MAX_RETRIES`, and a scheduled retry comes
      before the last attempt with countdown `2 ** retries`. */
  predicate WithinRun(e: Event, k: nat) {
    k <= e.attempt <= MAX_RETRIES &&
    (e.RetryScheduled? ==> e.attempt < MAX_RETRIES && e.countdown == Pow2(e.attempt))
  }

  /** After a failed attempt with retries left, the run goes on with the
      retry and the run from the next attempt. */
  lemma TraceAfterFailure(worlds: nat -> AttemptWorld, k: nat)
    requires k < MAX_RETRIES && AttemptOutcome(worlds(k)).Failed?
    ensures Trace(worlds, k) ==
      AttemptEvents(k, worlds(k)) + ([RetryScheduled(k, Pow2(k))] + Trace(worlds, k + 1))
  {
  }

  /** All steps of the run from attempt `k` lie within the retry budget. */
  lemma {:induction false} RunBounds(worlds: nat -> AttemptWorld, k: nat)
    requires k <= MAX_RETRIES
    ensures forall e | e in Trace(worlds, k) :: WithinRun(e, k)
    decreases MAX_RETRIES - k
  {
    var events := AttemptEvents(k, worlds(k));
    if AttemptOutcome(worlds(k)).Failed? && k < MAX_RETRIES {
      RunBounds(worlds, k + 1);
      var rest := Trace(worlds, k + 1);
      assert Trace(worlds, k) == events + [RetryScheduled(k, Pow2(k))] + rest;
    }
  }

  /** Every order creation in `t` directly follows the lookup of the same
      attempt, and that lookup found the user; no trace starts with a
      creation. */
  ghost predicate CreateAfterLookup(worlds: nat -> AttemptWorld, t: seq<Event>) {
    (|t| > 0 ==> !t[0].CreateOrder?) &&
    forall i, j | 0 <= i < j < |t| && j == i + 1 ::
      t[j].CreateOrder? ==> t[i] == GetUser(t[j].attempt) && UserFound(worlds(t[j].attempt))
  }

  /** Every scheduled retry in `t` is directly followed by the lookup of
      the next attempt; no trace ends with a retry. */
  ghost predicate RetryRestartsBody(t: seq<Event>) {
    (|t| > 0 ==> !t[|t| - 1].RetryScheduled?) &&
    forall i, j | 0 <= i < j < |t| && j == i + 1 ::
      t[i].RetryScheduled? ==> t[j] == GetUser(t[i].attempt + 1)
  }

  lemma AttemptOrdered(worlds: nat -> AttemptWorld, k: nat)
    ensures CreateAfterLookup(worlds, AttemptEvents(k, worlds(k)))
    ensures RetryRestartsBody(AttemptEvents(k, worlds(k)))
  {
    var events := AttemptEvents(k, worlds(k));
    if UserFound(worlds(k)) {
      assert events == [GetUser(k), CreateOrder(k)];
    } else {
      assert events == [GetUser(k)];
    }
  }

  lemma ConcatCreateAfterLookup(worlds: nat -> AttemptWorld, a: seq<Event>, b: seq<Event>)
    requires CreateAfterLookup(worlds, a) && CreateAfterLookup(worlds, b)
    ensures CreateAfterLookup(worlds, a + b)
  {
    var t := a + b;
    forall i, j | 0 <= i < j < |t| && j == i + 1 && t[j].CreateOrder?
      ensures t[i] == GetUser(t[j].attempt) && UserFound(worlds(t[j].attempt))
    {
      if j < |a| {
        assert t[i] == a[i] && t[j] == a[j];
      } else if i >= |a| {
        assert t[i] == b[i - |a|] && t[j] == b[j - |a|];
      }
    }
  }

  lemma ConcatRetryRestartsBody(a: seq<Event>, b: seq<Event>)
    requires RetryRestartsBody(a) && RetryRestartsBody(b)
    requires |a| > 0 ==> |b| == 0 || !a[|a| - 1].RetryScheduled?
    ensures RetryRestartsBody(a + b)
  {
    var t := a + b;
    forall i, j | 0 <= i < j < |t| && j == i + 1 && t[i].RetryScheduled?
      ensures t[j] == GetUser(t[i].attempt + 1)
    {
      if j < |a| {
        assert t[i] == a[i] && t[j] == a[j];
      } else if i >= |a| {
        assert t[i] == b[i - |a|] && t[j] == b[j - |a|];
      }
    }
    if |b| > 0 {
      assert t[|t| - 1] == b[|b| - 1];
    }
  }

  lemma RetryThenLookup(retry: Event, rest: seq<Event>)
    requires retry.RetryScheduled? && RetryRestartsBody(rest)
    requires |rest| > 0 && rest[0] == GetUser(retry.attempt + 1)
    ensures RetryRestartsBody([retry] + rest)
  {
    var t := [retry] + rest;
    forall i, j | 0 <= i < j < |t| && j == i + 1 && t[i].RetryScheduled?
      ensures t[j] == GetUser(t[i].attempt + 1)
    {
      if i > 0 {
        assert t[i] == rest[i - 1] && t[j] == rest[j - 1];
      } else {
        assert t[j] == rest[0];
      }
    }
    assert t[|t| - 1] == rest[|rest| - 1];
  }

  /** Within an attempt the lookup comes first: every order creation
      directly follows the lookup of the same attempt, and that lookup
      found the user. */
  lemma {:induction false} RunCreatesAfterLookup(worlds: nat -> AttemptWorld, k: nat)
    requires k <= MAX_RETRIES
    ensures CreateAfterLookup(worlds, Trace(worlds, k))
    decreases MAX_RETRIES - k
  {
    AttemptOrdered(worlds, k);
    if AttemptOutcome(worlds(k)).Failed? && k < MAX_RETRIES {
      RunCreatesAfterLookup(worlds, k + 1);
      var retry := RetryScheduled(k, Pow2(k));
      var rest := Trace(worlds, k + 1);
      assert CreateAfterLookup(worlds, [retry]);
      ConcatCreateAfterLookup(worlds, [retry], rest);
      ConcatCreateAfterLookup(worlds, AttemptEvents(k, worlds(k)), [retry] + rest);
      TraceAfterFailure(worlds, k);
    }
  }

  /** After a scheduled retry the next step is the lookup of the next
      attempt: each retry runs the whole body again. */
  lemma {:induction false} RunRetriesRestartBody(worlds: nat -> AttemptWorld, k: nat)
    requires k <= MAX_RETRIES
    ensures RetryRestartsBody(Trace(worlds, k))
    decreases MAX_RETRIES - k
  {
    AttemptOrdered(worlds, k);
    if AttemptOutcome(worlds(k)).Failed? && k < MAX_RETRIES {
      RunRetriesRestartBody(worlds, k + 1);
      var retry := RetryScheduled(k, Pow2(k));
      var rest := Trace(worlds, k + 1);
      RetryThenLookup(retry, rest);
      ConcatRetryRestartsBody(AttemptEvents(k, worlds(k)), [retry] + rest);
      TraceAfterFailure(worlds, k);
    }
  }

  /** The task returns exactly when some attempt up to the last finds the
      user and creates the order, and then it returns, with status
      "success", the id of the order created by the first such attempt. */
  lemma {:induction false} RunSucceedsAtFirstGoodAttempt(worlds: nat -> AttemptWorld, k: nat)
    requires k <= MAX_RETRIES
    ensures var result := Result(worlds, k);
      result.Returned? <==>
        exists j | k <= j <= MAX_RETRIES :: UserFound(worlds(j)) && OrderCreated(worlds(j))
    ensures var result := Result(worlds, k);
      result.Returned? ==>
        result.status == STATUS_SUCCESS &&
        exists j | k <= j <= MAX_RETRIES ::
          UserFound(worlds(j)) && OrderCreated(worlds(j)) &&
          result.orderId == worlds(j).createOrder.body &&
          forall m | k <= m < j :: !(UserFound(worlds(m)) && OrderCreated(worlds(m)))
    decreases MAX_RETRIES - k
  {
    if AttemptOutcome(worlds(k)).Failed? && k < MAX_RETRIES {
      RunSucceedsAtFirstGoodAttempt(worlds, k + 1);
    }
  }

  /** The task raises only when every attempt failed. */
  lemma {:induction false} RunFailsOnlyWhenAllAttemptsFail(worlds: nat -> AttemptWorld, k: nat)
    requires k <= MAX_RETRIES
    ensures Result(worlds, k).RaisedAfterRetries? ==>
      forall j | k <= j <= MAX_RETRIES :: AttemptOutcome(worlds(j)).Failed?
    decreases MAX_RETRIES - k
  {
    if AttemptOutcome(worlds(k)).Failed? && k < MAX_RETRIES {
      RunFailsOnlyWhenAllAttemptsFail(worlds, k + 1);
    }
  }

  /** No failure goes without a retry while retries are left: when the
      attempts `k` to `j < MAX_RETRIES` all fail, a retry with countdown
      `2 ** j` follows attempt `j`. */
  lemma {:induction false} EveryEarlyFailureRetried(worlds: nat -> AttemptWorld, k: nat, j: nat)
    requires k <= j < MAX_RETRIES
    requires forall m | k <= m <= j :: AttemptOutcome(worlds(m)).Failed?
    ensures RetryScheduled(j, Pow2(j)) in Trace(worlds, k)
    decreases j - k
  {
    var events := AttemptEvents(k, worlds(k));
    var rest := Trace(worlds, k + 1);
    assert Trace(worlds, k) == events + [RetryScheduled(k, Pow2(k))] + rest;
    if k < j {
      EveryEarlyFailureRetried(worlds, k + 1, j);
    }
  }

  /** The attempt numbers along `t` never go down. */
  ghost predicate AttemptsIncrease(t: seq<Event>) {
    forall i, j | 0 <= i < j < |t| :: t[i].attempt <= t[j].attempt
  }

  /** Steps of attempt `k` followed by steps of later attempts keep the
      attempt numbers in order. */
  lemma ConcatAttemptsIncrease(a: seq<Event>, b: seq<Event>, k: nat)
    requires forall e | e in a :: e.attempt == k
    requires forall e | e in b :: e.attempt >= k
    requires AttemptsIncrease(b)
    ensures AttemptsIncrease(a + b)
  {
    var t := a + b;
    forall i, j | 0 <= i < j < |t|
      ensures t[i].attempt <= t[j].attempt
    {
      if j < |a| {
        assert t[i] in a && t[j] in a;
      } else if i >= |a| {
        assert t[i] == b[i - |a|] && t[j] == b[j - |a|];
      } else {
        assert t[i] in a && t[j] in b;
      }
    }
  }

  /** The steps of one attempt all carry its number, in order. */
  lemma AttemptStepsShareNumber(k: nat, w: AttemptWorld)
    ensures forall e | e in AttemptEvents(k, w) :: e.attempt == k
    ensures AttemptsIncrease(AttemptEvents(k, w))
  {
  }

  /** Attempt `k`, its retry and a run of later attempts stay in order. */
  lemma RetryBetweenAttempts(events: seq<Event>, rest: seq<Event>, k: nat)
    requires forall e | e in events :: e.attempt == k
    requires forall e | e in rest :: e.attempt >= k
    requires AttemptsIncrease(rest)
    ensures AttemptsIncrease(events + ([RetryScheduled(k, Pow2(k))] + rest))
  {
    var retry := RetryScheduled(k, Pow2(k));
    ConcatAttemptsIncrease([retry], rest, k);
    ConcatAttemptsIncrease(events, [retry] + rest, k);
  }

  /** The run after attempt `k` holds only later attempts. */
  lemma LaterRunLaterAttempts(worlds: nat -> AttemptWorld, k: nat)
    requires k < MAX_RETRIES
    ensures forall e | e in Trace(worlds, k + 1) :: e.attempt >= k
  {
    RunBounds(worlds, k + 1);
  }

  /** The attempt counter only grows along a run: no step of an attempt
      comes after a step of a later one. */
  lemma {:induction false} RunAttemptsIncrease(worlds: nat -> AttemptWorld, k: nat)
    requires k <= MAX_RETRIES
    ensures AttemptsIncrease(Trace(worlds, k))
    decreases MAX_RETRIES - k
  {
    AttemptStepsShareNumber(k, worlds(k));
    if AttemptOutcome(worlds(k)).Failed? && k < MAX_RETRIES {
      RunAttemptsIncrease(worlds, k + 1);
      LaterRunLaterAttempts(worlds, k);
      RetryBetweenAttempts(AttemptEvents(k, worlds(k)), Trace(worlds, k + 1), k);
      TraceAfterFailure(worlds, k);
    }
  }

  /** The countdowns of the three retries are 1, 2 and 4 seconds. */
  lemma Countdowns()
    ensures Pow2(0) == 1 && Pow2(1) == 2 && Pow2(2) == 4
  {
  }

  /** The number of user lookups in a trace: one per attempt. */
  function Lookups(trace: seq<Event>): (n: nat)
    ensures n <= |trace|
  {
    if trace == [] then 0
    else (if trace[0].GetUser? then 1 else 0) + Lookups(trace[1..])
  }

  lemma {:induction false} LookupsAppend(a: seq<Event>, b: seq<Event>)
    ensures Lookups(a + b) == Lookups(a) + Lookups(b)
    decreases |a|
  {
    if a != [] {
      assert (a + b)[1..] == a[1..] + b;
      LookupsAppend(a[1..], b);
    } else {
      assert a + b == b;
    }
  }

  lemma AttemptLooksUpOnce(k: nat, w: AttemptWorld)
    ensures Lookups(AttemptEvents(k, w)) == 1
  {
    var events := AttemptEvents(k, w);
    if UserFound(w) {
      assert events[1..][1..] == [];
    } else {
      assert events[1..] == [];
    }
  }

  lemma RetryLooksUpNothing(retry: Event)
    requires retry.RetryScheduled?
    ensures Lookups([retry]) == 0
  {
    assert [retry][1..] == [];
  }

  /** A run from attempt `k` makes at most `MAX_RETRIES + 1 - k` lookups:
      at most four attempts in all. */
  lemma {:induction false} AtMostFourAttempts(worlds: nat -> AttemptWorld, k: nat)
    requires k <= MAX_RETRIES
    ensures Lookups(Trace(worlds, k)) <= MAX_RETRIES + 1 - k
    decreases MAX_RETRIES - k
  {
    var events := AttemptEvents(k, worlds(k));
    AttemptLooksUpOnce(k, worlds(k));
    if AttemptOutcome(worlds(k)).Failed? && k < MAX_RETRIES {
      AtMostFourAttempts(worlds, k + 1);
      var retry := RetryScheduled(k, Pow2(k));
      RetryLooksUpNothing(retry);
      LookupsAppend(events, [retry]);
      LookupsAppend(events + [retry], Trace(worlds, k + 1));
    }
  }
}
