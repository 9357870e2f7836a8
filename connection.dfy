/** The database connection retry loop of project/refactored_old.py:3-24: try to
    create the engine; a "Connection refused" failure counts one retry and sleeps
    `retry_interval` seconds, any other failure is re-raised, and after
    `max_retries` retries the loop gives up with no engine. The database server is
    a parameter: the answer `create_engine` gets on each successive call. */
module Connection {
  import opened Frame

  /** What one `create_engine` call does: return an engine, or raise with a message. */
  datatype Attempt = Connected(engine: nat) | Failed(message: string)

  /** The answer of the n-th call (counting from 0). */
  type Server = nat -> Attempt

  /** How the loop ends: with an engine, with `engine` still None ("Max retries
      reached"), or by re-raising the exception it caught. */
  datatype Outcome = Established(engine: nat) | Unavailable | Raised(message: string)

  /** The constants the script runs with. */
  const MaxRetries: nat := 10
  const RetryInterval: nat := 10

  /** The failures the loop retries. */
  predicate Refused(a: Attempt) {
    a.Failed? && Contains(a.message, "Connection refused")
  }

  /** The loop from the point where `retry_count` retries have been made. */
  function Run(maxRetries: nat, server: Server, retryCount: nat): Outcome
    decreases maxRetries + 1 - retryCount
  {
    if retryCount > maxRetries then Unavailable
    else
      match server(retryCount)
      case Connected(e) => Established(e)
      case Failed(m) =>
        if Contains(m, "Connection refused") then Run(maxRetries, server, retryCount + 1) else Raised(m)
  }

  /** The number of `create_engine` calls the loop makes from that point. */
  function Calls(maxRetries: nat, server: Server, retryCount: nat): nat
    decreases maxRetries + 1 - retryCount
  {
    if retryCount > maxRetries then 0
    else if Refused(server(retryCount)) then 1 + Calls(maxRetries, server, retryCount + 1)
    else 1
  }

  /** The seconds slept: one interval after every refused call, the last one included. */
  function Slept(maxRetries: nat, retryInterval: nat, server: Server): nat {
    if Run(maxRetries, server, 0).Unavailable? then retryInterval * Calls(maxRetries, server, 0)
    else retryInterval * (Calls(maxRetries, server, 0) - 1)
  }

  /** The loop gives up exactly when every one of its `max_retries + 1` calls is refused. */
  lemma {:induction false} UnavailableIffAllRefused(maxRetries: nat, server: Server, retryCount: nat)
    ensures Run(maxRetries, server, retryCount) == Unavailable <==>
      forall k :: retryCount <= k <= maxRetries ==> Refused(server(k))
    decreases maxRetries + 1 - retryCount
  {
    if retryCount <= maxRetries {
      UnavailableIffAllRefused(maxRetries, server, retryCount + 1);
    }
  }

  /** The loop stops at the first call that is not refused: it connects with that
      call's engine, or re-raises that call's exception. */
  lemma {:induction false} StopsAtFirstUnrefused(maxRetries: nat, server: Server, retryCount: nat, n: nat)
    requires retryCount <= n <= maxRetries && !Refused(server(n))
    requires forall k :: retryCount <= k < n ==> Refused(server(k))
    ensures Run(maxRetries, server, retryCount) ==
      if server(n).Connected? then Established(server(n).engine) else Raised(server(n).message)
    ensures Calls(maxRetries, server, retryCount) == n - retryCount + 1
    decreases n - retryCount
  {
    if retryCount < n {
      StopsAtFirstUnrefused(maxRetries, server, retryCount + 1, n);
    }
  }

  /** At most `max_retries + 1` calls are made, and every call but the last was refused. */
  lemma {:induction false} CallsBounded(maxRetries: nat, server: Server, retryCount: nat)
    requires retryCount <= maxRetries + 1
    ensures Calls(maxRetries, server, retryCount) <= maxRetries + 1 - retryCount
    ensures forall k :: retryCount <= k < retryCount + Calls(maxRetries, server, retryCount) - 1 ==> Refused(server(k))
    decreases maxRetries + 1 - retryCount
  {
    if retryCount <= maxRetries && Refused(server(retryCount)) {
      CallsBounded(maxRetries, server, retryCount + 1);
    }
  }

  /** When every call is refused, every remaining call is made. */
  lemma {:induction false} AllRefusedCalls(maxRetries: nat, server: Server, retryCount: nat)
    requires retryCount <= maxRetries + 1
    requires forall k :: retryCount <= k <= maxRetries ==> Refused(server(k))
    ensures Calls(maxRetries, server, retryCount) == maxRetries + 1 - retryCount
    decreases maxRetries + 1 - retryCount
  {
    if retryCount <= maxRetries {
      AllRefusedCalls(maxRetries, server, retryCount + 1);
    }
  }

  /** With the script's constants, giving up takes 11 calls and 110 seconds of sleep:
      the sleep after the last refused call comes on top of the 100 seconds the
      comment at project/refactored_old.py:1 announces. */
  lemma GivingUpTakes110Seconds(server: Server)
    requires Run(MaxRetries, server, 0) == Unavailable
    ensures Calls(MaxRetries, server, 0) == 11
    ensures Slept(MaxRetries, RetryInterval, server) == 110
  {
    UnavailableIffAllRefused(MaxRetries, server, 0);
    AllRefusedCalls(MaxRetries, server, 0);
  }

  /** The loop of lines 6-19: returns how it ended, how many times it called
      `create_engine` and how many seconds it slept. */
  method Connect(maxRetries: nat, retryInterval: nat, server: Server)
    returns (outcome: Outcome, calls: nat, slept: nat)
    ensures outcome == Run(maxRetries, server, 0)
    ensures calls == Calls(maxRetries, server, 0)
    ensures slept == Slept(maxRetries, retryInterval, server)
  {
    var engine: Option<nat> := None;
    var retryCount: nat := 0;
    calls, slept := 0, 0;
    while retryCount <= maxRetries
      invariant retryCount <= maxRetries + 1
      invariant calls == retryCount && slept == retryInterval * retryCount
      invariant Run(maxRetries, server, 0) == Run(maxRetries, server, retryCount)
      invariant Calls(maxRetries, server, 0) == retryCount + Calls(maxRetries, server, retryCount)
      decreases maxRetries + 1 - retryCount
    {
      var attempt := server(retryCount);
      calls := calls + 1;
      if attempt.Connected? {
        engine := Some(attempt.engine);
        break;
      }
      if Contains(attempt.message, "Connection refused") {
        retryCount := retryCount + 1;
        slept := slept + retryInterval;
      } else {
        return Raised(attempt.message), calls, slept;
      }
    }
    if engine == None {
      outcome := Unavailable;
    } else {
      outcome := Established(engine.value);
    }
  }

  /** The configuration of helpers_test.py: `max_retries=2` and a server that always
      refuses. The engine stays None after the original call and two retries. */
  lemma AlwaysRefusedGivesUp(server: Server)
    requires forall n :: server(n) == Failed("Connection refused")
    ensures Run(2, server, 0) == Unavailable
    ensures Calls(2, server, 0) == 3
  {
    assert StartsWith("Connection refused", "Connection refused");
    assert forall k :: 0 <= k <= 2 ==> Refused(server(k));
    UnavailableIffAllRefused(2, server, 0);
    AllRefusedCalls(2, server, 0);
  }
}
