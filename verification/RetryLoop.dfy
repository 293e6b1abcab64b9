/** A structured model call: bounded retries, one ledger row per attempt, and a
    bounded wait. The provider, the jitter and the moments of cancellation are an
    arbitrary `world` of turns, one per attempt, numbered from one.
  */
module RetryLoop {
  datatype Body = Malformed | Document(matchesSchema: bool)

  datatype Response = MissingToken | Timeout | ConnectionFailure | Reply(status: int, body: Body)

  /** One turn of the loop, with the three points at which a cancellation can be noticed. */
  datatype Turn = Turn(
    response: Response,
    jitter: real,
    cancelledBefore: bool,
    cancelledAfter: bool,
    cancelledWaiting: bool)

  datatype Outcome = Transient(category: string) | Refused | Unusable | Answered(matchesSchema: bool)

  datatype Row = Row(errorCategory: string, failedFields: seq<string>)

  datatype Result = Returned | TransientFailure(category: string) | ConfigFailure | ContentFailure | Cancelled

  datatype Settings = Settings(maxRetries: int, backoffBase: real, backoffMax: real) {
    function MaxAttempts(): (n: nat)
      ensures n >= 1 && n >= maxRetries && (n == maxRetries || n == 1)
    {
      if maxRetries > 1 then maxRetries else 1
    }

    ghost predicate IsValid() { backoffBase >= 0.0 && backoffMax >= 0.0 }
  }

  /** `_request_once`. */
  function RequestOnce(response: Response): Outcome {
    match response
    case MissingToken => Refused
    case Timeout => Transient("timeout")
    case ConnectionFailure => Transient("connection")
    case Reply(status, body) =>
      if status == 429 then Transient("rate_limit")
      else if 500 <= status <= 599 then Transient("server")
      else if 400 <= status <= 499 then Refused
      else if !(200 <= status < 300) then Refused
      else match body
        case Malformed => Unusable
        case Document(matchesSchema) => Answered(matchesSchema)
  }

  function RowOf(outcome: Outcome): Row {
    match outcome
    case Transient(category) => Row(category, ["provider"])
    case Refused => Row("config", ["provider"])
    case Unusable => Row("content", ["response"])
    case Answered(matchesSchema) => if matchesSchema then Row("", []) else Row("content", ["schema"])
  }

  function Power(n: nat): (p: real)
    ensures p >= 1.0
  {
    if n == 0 then 1.0 else 2.0 * Power(n - 1)
  }

  function Min(x: real, y: real): real { if x <= y then x else y }

  function Exponential(s: Settings, attempt: nat): real
    requires attempt >= 1
  {
    Min(s.backoffMax, s.backoffBase * Power(attempt - 1))
  }

  /** `_backoff_delay`. */
  function BackoffDelay(s: Settings, attempt: nat, jitter: real): real
    requires attempt >= 1
  {
    Exponential(s, attempt) * (1.0 + jitter)
  }

  // ---------- what a call is ----------

  /** A turn after which the loop goes round again, attempts permitting. */
  ghost predicate IsRetried(turn: Turn) {
    && !turn.cancelledBefore
    && RequestOnce(turn.response).Transient?
    && !turn.cancelledAfter
    && !turn.cancelledWaiting
  }

  /** A cancellation noticed before the row of the turn is written. */
  predicate IsSilent(turn: Turn) {
    var outcome := RequestOnce(turn.response);
    turn.cancelledBefore || (turn.cancelledAfter && (outcome.Transient? || outcome.Answered?))
  }

  function Ending(turn: Turn, isLast: bool): Result {
    if IsSilent(turn) then Cancelled
    else match RequestOnce(turn.response)
      case Transient(category) => if isLast then TransientFailure(category) else Cancelled
      case Refused => ConfigFailure
      case Unusable => ContentFailure
      case Answered(matchesSchema) => if matchesSchema then Returned else ContentFailure
  }

  datatype Call = Call(attempts: nat, rows: seq<Row>, waits: seq<real>, result: Result)

  /** A whole call, stated over its attempts: it stops at the first turn that is not retried or at the
      last attempt allowed; each attempt leaves its row and each retry its wait. */
  ghost predicate IsCall(s: Settings, world: nat -> Turn, call: Call) {
    && 1 <= call.attempts <= s.MaxAttempts()
    && (forall i :: 1 <= i < call.attempts ==> IsRetried(world(i)))
    && (call.attempts < s.MaxAttempts() ==> !IsRetried(world(call.attempts)))
    && |call.rows| == call.attempts - (if IsSilent(world(call.attempts)) then 1 else 0)
    && (forall i :: 0 <= i < |call.rows| ==> call.rows[i] == RowOf(RequestOnce(world(i + 1).response)))
    && |call.waits| == call.attempts - 1
    && (forall i :: 0 <= i < |call.waits| ==> call.waits[i] == BackoffDelay(s, i + 1, world(i + 1).jitter))
    && call.result == Ending(world(call.attempts), call.attempts == s.MaxAttempts())
  }

  /** `HTTPStructuredLLM`. */
  class HttpStructuredLlm {
    const settings: Settings
    var ledger: seq<Row>

    constructor (settings: Settings)
      ensures this.settings == settings && ledger == []
    {
      this.settings := settings;
      ledger := [];
    }

    /** `invoke_structured`. */
    method InvokeStructured(world: nat -> Turn) returns (call: Call)
      modifies this
      ensures IsCall(settings, world, call)
      ensures ledger == old(ledger) + call.rows
    {
      hide RowOf, BackoffDelay, Attempted, IsCall, Settings.MaxAttempts;
      var attempt := 0;
      var rows, waits := [], [];
      NothingAttempted(settings, world);
      while true
        invariant Attempted(settings, world, attempt, rows, waits)
        invariant attempt < settings.MaxAttempts() && ledger == old(ledger) + rows
        decreases settings.MaxAttempts() - attempt
      {
        CallEnds(settings, world, attempt, rows, waits);
        AttemptIsRetried(settings, world, attempt, rows, waits);
        attempt := attempt + 1;
        var turn := world(attempt);
        if turn.cancelledBefore {
          return Call(attempt, rows, waits, Cancelled);
        }
        var outcome := RequestOnce(turn.response);
        match outcome {
          case Transient(category) =>
            if turn.cancelledAfter {
              return Call(attempt, rows, waits, Cancelled);
            }
            rows := rows + [RowOf(outcome)];
            ledger := ledger + [RowOf(outcome)];
            if attempt >= settings.MaxAttempts() {
              return Call(attempt, rows, waits, TransientFailure(category));
            }
            if turn.cancelledWaiting {
              return Call(attempt, rows, waits, Cancelled);
            }
            waits := waits + [BackoffDelay(settings, attempt, turn.jitter)];
          case Refused =>
            ledger := ledger + [RowOf(outcome)];
            return Call(attempt, rows + [RowOf(outcome)], waits, ConfigFailure);
          case Unusable =>
            ledger := ledger + [RowOf(outcome)];
            return Call(attempt, rows + [RowOf(outcome)], waits, ContentFailure);
          case Answered(matchesSchema) =>
            if turn.cancelledAfter {
              return Call(attempt, rows, waits, Cancelled);
            }
            ledger := ledger + [RowOf(outcome)];
            if !matchesSchema {
              return Call(attempt, rows + [RowOf(outcome)], waits, ContentFailure);
            }
            return Call(attempt, rows + [RowOf(outcome)], waits, Returned);
        }
      }
    }
  }

  /** After `n` attempts, each of them retried. */
  ghost predicate Attempted(s: Settings, world: nat -> Turn, n: nat, rows: seq<Row>, waits: seq<real>) {
    && n < s.MaxAttempts()
    && (forall i :: 1 <= i <= n ==> IsRetried(world(i)))
    && |rows| == n && (forall i :: 0 <= i < n ==> rows[i] == RowOf(RequestOnce(world(i + 1).response)))
    && |waits| == n && (forall i :: 0 <= i < n ==> waits[i] == BackoffDelay(s, i + 1, world(i + 1).jitter))
  }

  lemma NothingAttempted(s: Settings, world: nat -> Turn)
    ensures Attempted(s, world, 0, [], []) && s.MaxAttempts() > 0
  {}

  lemma AttemptIsRetried(s: Settings, world: nat -> Turn, n: nat, rows: seq<Row>, waits: seq<real>)
    requires Attempted(s, world, n, rows, waits)
    ensures var turn := world(n + 1);
      n + 1 < s.MaxAttempts() && IsRetried(turn) ==>
        Attempted(s, world, n + 1, rows + [RowOf(RequestOnce(turn.response))],
                  waits + [BackoffDelay(s, n + 1, turn.jitter)])
  {
    hide RequestOnce, RowOf, BackoffDelay, IsRetried;
  }

  /** How the attempt after `n` retried ones can be the last. */
  lemma CallEnds(s: Settings, world: nat -> Turn, n: nat, rows: seq<Row>, waits: seq<real>)
    requires Attempted(s, world, n, rows, waits)
    ensures var turn := world(n + 1);
      var recorded := rows + [RowOf(RequestOnce(turn.response))];
      && (IsSilent(turn) ==> IsCall(s, world, Call(n + 1, rows, waits, Cancelled)))
      && (!IsSilent(turn) && (n + 1 == s.MaxAttempts() || !IsRetried(turn)) ==>
            IsCall(s, world, Call(n + 1, recorded, waits, Ending(turn, n + 1 == s.MaxAttempts()))))
  {
    hide RequestOnce, RowOf, BackoffDelay;
  }

  // ---------- accounting ----------

  ghost predicate IsTransientRow(row: Row) { row.errorCategory in {"timeout", "connection", "rate_limit", "server"} }

  ghost predicate IsUncancelled(world: nat -> Turn) {
    forall i :: !world(i).cancelledBefore && !world(i).cancelledAfter && !world(i).cancelledWaiting
  }

  function Failure(result: Result): string {
    match result
    case Returned => ""
    case TransientFailure(category) => category
    case ConfigFailure => "config"
    case ContentFailure => "content"
    case Cancelled => "cancelled"
  }

  /** A failure that may pass: a timeout, a lost connection, too many requests, or a server error. */
  predicate IsPassing(r: Response) {
    r.Timeout? || r.ConnectionFailure? || (r.Reply? && (r.status == 429 || 500 <= r.status < 600))
  }

  /** A reply of success, whatever its body. */
  predicate IsSuccess(r: Response) { r.Reply? && 200 <= r.status < 300 }

  predicate IsCancelled(turn: Turn) { turn.cancelledBefore || turn.cancelledAfter || turn.cancelledWaiting }

  /** Attempt `i` of a call, when nobody cancels it, is followed by another one if and only if its response is a
      failure that may pass and attempts are left. */
  lemma RetriedIff(s: Settings, world: nat -> Turn, call: Call, i: nat)
    requires IsCall(s, world, call) && 1 <= i <= call.attempts && !IsCancelled(world(i))
    ensures i < call.attempts <==> IsPassing(world(i).response) && i < s.MaxAttempts()
  {
    hide RowOf, BackoffDelay, Ending;
    assert i < call.attempts ==> IsRetried(world(i));
  }

  /** What each row says of the response of its attempt. */
  lemma RowsTell(s: Settings, world: nat -> Turn, call: Call, i: nat)
    requires IsCall(s, world, call) && i < |call.rows|
    ensures var row, r := call.rows[i], world(i + 1).response;
      && (row.errorCategory == "timeout" <==> r.Timeout?)
      && (row.errorCategory == "connection" <==> r.ConnectionFailure?)
      && (row.errorCategory == "rate_limit" <==> r.Reply? && r.status == 429)
      && (row.errorCategory == "server" <==> r.Reply? && 500 <= r.status < 600)
      && (row.errorCategory == "config" <==> !IsPassing(r) && !IsSuccess(r))
      && (row.errorCategory == "content" <==> IsSuccess(r) && r.body != Document(true))
      && (row.errorCategory == "" <==> IsSuccess(r) && r.body == Document(true))
      && row.failedFields == (if !IsSuccess(r) then ["provider"] else if r.body.Malformed? then ["response"]
                              else if r.body.matchesSchema then [] else ["schema"])
  {
    hide Ending, BackoffDelay, IsRetried, IsSilent;
    assert call.rows[i] == RowOf(RequestOnce(world(i + 1).response));
  }

  /** What the last response makes of the call, when nobody cancels it. */
  lemma ResultTells(s: Settings, world: nat -> Turn, call: Call)
    requires IsCall(s, world, call) && !IsCancelled(world(call.attempts))
    ensures var r := world(call.attempts).response;
      && (call.result.TransientFailure? <==> IsPassing(r))
      && (call.result.ConfigFailure? <==> !IsPassing(r) && !IsSuccess(r))
      && (call.result.ContentFailure? <==> IsSuccess(r) && r.body != Document(true))
      && (call.result.Returned? <==> IsSuccess(r) && r.body == Document(true))
  {
    hide RowOf, BackoffDelay;
  }

  /** Exactly when a call ends cancelled: before its last attempt, after a response that did not refuse the request or
      fail to parse, or while waiting for another attempt. The first two leave no row for that attempt. */
  lemma CancelledIff(s: Settings, world: nat -> Turn, call: Call)
    requires IsCall(s, world, call)
    ensures var turn := world(call.attempts);
      var noticed := turn.cancelledAfter
        && (IsPassing(turn.response) || (IsSuccess(turn.response) && turn.response.body.Document?));
      && (call.result.Cancelled? <==>
            || turn.cancelledBefore || noticed
            || (turn.cancelledWaiting && IsPassing(turn.response) && call.attempts < s.MaxAttempts()))
      && (|call.rows| < call.attempts <==> turn.cancelledBefore || noticed)
  {
    hide RowOf, BackoffDelay;
  }

  /** The world and the settings determine a call. */
  lemma CallIsUnique(s: Settings, world: nat -> Turn, a: Call, b: Call)
    requires IsCall(s, world, a) && IsCall(s, world, b)
    ensures a == b
  {
    hide BackoffDelay, RowOf, IsRetried, IsSilent;
    assert a.attempts < b.attempts ==> IsRetried(world(a.attempts));
    assert b.attempts < a.attempts ==> IsRetried(world(b.attempts));
  }

  /** Uncancelled: between one and `max(1, maxRetries)` attempts, exactly one row each, every row but the
      last a transient failure, the last one naming the result. Only a transient failure is retried, and
      one is returned exactly when every permitted attempt failed that way. */
  lemma Accounting(s: Settings, world: nat -> Turn, call: Call)
    requires IsCall(s, world, call) && IsUncancelled(world)
    ensures 1 <= |call.rows| == call.attempts <= s.MaxAttempts()
    ensures forall i :: 0 <= i < |call.rows| - 1 ==> IsTransientRow(call.rows[i])
    ensures call.rows[|call.rows| - 1].errorCategory == Failure(call.result) && call.result != Cancelled
    ensures call.attempts < s.MaxAttempts() ==> !IsTransientRow(call.rows[|call.rows| - 1])
    ensures call.result.TransientFailure? <==>
      forall i :: 1 <= i <= s.MaxAttempts() ==> IsPassing(world(i).response)
  {
    forall i | 0 <= i < |call.rows| - 1 ensures IsTransientRow(call.rows[i]) {
      assert IsRetried(world(i + 1));
    }
    var last := RequestOnce(world(call.attempts).response);
    assert call.rows[|call.rows| - 1] == RowOf(last);
    if call.result.TransientFailure? {
      forall i | 1 <= i <= s.MaxAttempts() ensures IsPassing(world(i).response) {
        if i < call.attempts { assert IsRetried(world(i)); }
      }
    }
  }

  /** Even when cancelled a call writes one row for each attempt before its last, and never starts
      another attempt after a configuration or content failure. */
  lemma CancelledAccounting(s: Settings, world: nat -> Turn, call: Call)
    requires IsCall(s, world, call)
    ensures call.attempts - 1 <= |call.rows| <= call.attempts <= s.MaxAttempts()
    ensures forall i :: 1 <= i < call.attempts ==> IsPassing(world(i).response)
    ensures |call.rows| < call.attempts ==> call.result == Cancelled
  {
    forall i | 1 <= i < call.attempts ensures IsPassing(world(i).response) {
      assert IsRetried(world(i));
    }
  }

  // ---------- waiting ----------

  lemma {:induction false} PowerGrows(i: nat, j: nat)
    requires i <= j
    ensures Power(i) <= Power(j)
  {
    if i < j { PowerGrows(i, j - 1); }
  }

  lemma ScaledOrder(scale: real, x: real, y: real)
    requires scale >= 0.0 && x <= y
    ensures scale * x <= scale * y
  {}

  /** Pre-jitter delays never decrease, start at zero or more and stop at the configured maximum. */
  lemma DelaysNeverDecrease(s: Settings, i: nat, j: nat)
    requires s.IsValid() && 1 <= i <= j
    ensures 0.0 <= Exponential(s, i) <= Exponential(s, j) <= s.backoffMax
  {
    hide Power;
    PowerGrows(i - 1, j - 1);
    ScaledOrder(s.backoffBase, Power(i - 1), Power(j - 1));
    ScaledOrder(s.backoffBase, 0.0, Power(i - 1));
  }

  /** Before jitter the first wait is the base, each later one doubles the one before, and all stop at the maximum. */
  lemma DelaysDouble(s: Settings, attempt: nat)
    requires s.IsValid() && attempt >= 1
    ensures Exponential(s, 1) == Min(s.backoffMax, s.backoffBase)
    ensures Exponential(s, attempt + 1) == Min(s.backoffMax, 2.0 * Exponential(s, attempt))
  {
    assert Power(attempt) == 2.0 * Power(attempt - 1) && Power(0) == 1.0;
    hide Power;
    var x := s.backoffBase * Power(attempt - 1);
    assert s.backoffBase * Power(attempt) == 2.0 * x;
  }

  /** Jitter stretches a wait by its own share, from not at all to twice as long. */
  lemma WaitsAreStretched(s: Settings, world: nat -> Turn, call: Call, i: nat)
    requires IsCall(s, world, call) && i < |call.waits|
    ensures |call.waits| == call.attempts - 1
    ensures call.waits[i] == Exponential(s, i + 1) + world(i + 1).jitter * Exponential(s, i + 1)
  {
    hide RowOf, Exponential, RequestOnce, Ending, IsRetried;
    assert call.waits[i] == BackoffDelay(s, i + 1, world(i + 1).jitter);
  }

  function Sum(xs: seq<real>): real {
    if xs == [] then 0.0 else Sum(xs[..|xs| - 1]) + xs[|xs| - 1]
  }

  lemma {:induction false} SumIsBounded(xs: seq<real>, bound: real)
    requires forall i :: 0 <= i < |xs| ==> 0.0 <= xs[i] <= bound
    ensures 0.0 <= Sum(xs) <= bound * |xs| as real
  {
    if xs == [] {
    } else {
      var n := |xs| - 1;
      SumIsBounded(xs[..n], bound);
      assert bound * |xs| as real == bound * n as real + bound;
    }
  }

  lemma OneWaitIsBounded(s: Settings, attempt: nat, jitter: real)
    requires s.IsValid() && attempt >= 1 && 0.0 <= jitter <= 1.0
    ensures 0.0 <= BackoffDelay(s, attempt, jitter) <= 2.0 * s.backoffMax
  {
    hide Exponential;
    DelaysNeverDecrease(s, attempt, attempt);
    ScaledOrder(Exponential(s, attempt), 0.0, 1.0 + jitter);
    ScaledOrder(Exponential(s, attempt), 1.0 + jitter, 2.0);
  }

  /** With jitter in [0, 1] a call waits at most `2 * (attempts - 1) * backoffMax` in all. */
  lemma TotalWaitIsBounded(s: Settings, world: nat -> Turn, call: Call)
    requires s.IsValid() && IsCall(s, world, call)
    requires forall i :: 1 <= i < call.attempts ==> 0.0 <= world(i).jitter <= 1.0
    ensures 0.0 <= Sum(call.waits) <= 2.0 * s.backoffMax * (call.attempts - 1) as real
  {
    hide BackoffDelay, Sum, Ending, IsRetried, RowOf, IsSilent, RequestOnce;
    forall i | 0 <= i < |call.waits| ensures 0.0 <= call.waits[i] <= 2.0 * s.backoffMax {
      assert 1 <= i + 1 < call.attempts;
      OneWaitIsBounded(s, i + 1, world(i + 1).jitter);
    }
    SumIsBounded(call.waits, 2.0 * s.backoffMax);
  }
}
