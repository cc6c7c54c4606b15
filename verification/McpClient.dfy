/**
 * The retry loop of the MCP client (mcp_clients/base.py). The transport is a script: the outcome
 * of the n-th call that is ever sent. Redaction, metrics and the texts of results are left out.
 */
module McpClient {
  import opened Json

  // Raised is any exception other than a timeout or a transport error.
  datatype Outcome = TimedOut | Unreachable | Raised | Returned(raw: Json)

  datatype Error = Error(code: string, retryable: bool)

  datatype Result =
    | Success(data: map<string, Json>, attempts: int)
    | Failure(error: Error, attempts: int)
    | Propagated

  type Script = nat -> Outcome

  predicate Transient(o: Outcome) {
    o.TimedOut? || o.Unreachable?
  }

  // ---------------------------------------------------------------- one response

  /** What a response says: its data, or a structured error. */
  function ParseRawResult(raw: Json, knownCodes: set<string>, repr: Json -> string): (r: Result)
    ensures r.Success?
       <==> raw.Obj? && Get(raw, "ok") == Bool(true) && ("data" in raw.fields ==> raw.fields["data"].Obj?)
    ensures r.Failure? && Get(raw, "ok") != Bool(false) ==> r.error == Error("UNKNOWN_ERROR", false)
    ensures r.Failure? ==> r.error.code in knownCodes + {"UNKNOWN_ERROR", "MCP_UNAVAILABLE"}
    ensures !r.Propagated?
  {
    if !raw.Obj? || "ok" !in raw.fields then Failure(Error("UNKNOWN_ERROR", false), 1)
    else if raw.fields["ok"] == Bool(true) then
      if "data" !in raw.fields then Success(map[], 1)
      else if raw.fields["data"].Obj? then Success(raw.fields["data"].fields, 1)
      else Failure(Error("UNKNOWN_ERROR", false), 1)
    else if raw.fields["ok"] == Bool(false) then
      var error := Get(raw, "error");
      if !error.Obj? then Failure(Error("MCP_UNAVAILABLE", false), 1)
      else
        var code := TextOf(repr, Get(error, "error_code"));
        Failure(Error(if code in knownCodes then code else "MCP_UNAVAILABLE", Truthy(Get(error, "retryable"))), 1)
    else Failure(Error("UNKNOWN_ERROR", false), 1)
  }

  /** The contents: the data of a success, and the code and the retry mark of a structured error. */
  lemma ResponseSays(raw: Json, knownCodes: set<string>, repr: Json -> string)
    ensures var r := ParseRawResult(raw, knownCodes, repr);
            && (r.Success? ==>
                  && raw.Obj?
                  && r.data == if "data" in raw.fields && raw.fields["data"].Obj? then raw.fields["data"].fields
                               else map[])
            && (Get(raw, "ok") == Bool(false) ==>
                  var error := Get(raw, "error");
                  && r.Failure?
                  && (!error.Obj? ==> r.error == Error("MCP_UNAVAILABLE", false))
                  && (error.Obj? ==>
                        && (r.error.retryable <==> "retryable" in error.fields && Truthy(error.fields["retryable"]))
                        && (forall code :: code in knownCodes && Get(error, "error_code") == Str(code)
                              ==> r.error.code == code)
                        && (TextOf(repr, Get(error, "error_code")) !in knownCodes
                            ==> r.error.code == "MCP_UNAVAILABLE")))
  {}

  function WithAttempts(r: Result, n: int): Result {
    if r.Propagated? then r else r.(attempts := n)
  }

  // ---------------------------------------------------------------- the loop, as a relation

  /** Calls number from, from + 1, ... are made until one is not transient or the budget is spent. */
  ghost predicate Makes(script: Script, from: nat, budget: int, calls: nat) {
    && (budget <= 0 ==> calls == 0)
    && (budget > 0 ==> 1 <= calls <= budget)
    && (forall k :: from <= k < from + calls - 1 ==> Transient(script(k)))
    && (0 < calls < budget ==> !Transient(script(from + calls - 1)))
  }

  /** The number of calls is determined by the script and the budget. */
  lemma MakesIsUnique(script: Script, from: nat, budget: int, a: nat, b: nat)
    requires Makes(script, from, budget, a) && Makes(script, from, budget, b)
    ensures a == b
  {
  }

  /** A larger budget only adds calls, and only after transient failures alone. */
  lemma BiggerBudget(script: Script, from: nat, small: int, big: int, a: nat, b: nat)
    requires small <= big && Makes(script, from, small, a) && Makes(script, from, big, b)
    ensures a <= b
    ensures 0 < a < b ==> forall k :: from <= k < from + a ==> Transient(script(k))
  {
  }

  /** The text of the outcome of the last call. */
  function Reported(o: Outcome, attempts: nat, knownCodes: set<string>, repr: Json -> string): Result {
    match o
    case TimedOut => Failure(Error("TIMEOUT_EXCEEDED", false), attempts)
    case Unreachable => Failure(Error("MCP_UNAVAILABLE", false), attempts)
    case Raised => Propagated
    case Returned(raw) => WithAttempts(ParseRawResult(raw, knownCodes, repr), attempts)
  }

  /** What one audited call amounts to: how often it was sent, and the result of the last time. */
  ghost predicate IsCall(script: Script, from: nat, budget: int, knownCodes: set<string>, repr: Json -> string,
                         calls: nat, r: Result)
  {
    && Makes(script, from, budget, calls)
    && r == if calls > 0 then Reported(script(from + calls - 1), calls, knownCodes, repr)
            else Failure(Error("UNKNOWN_ERROR", false), budget)
  }

  /** How a call ends, from the last outcome alone: with its error code, or with what was returned. */
  lemma LastOutcomeDecides(script: Script, from: nat, budget: int, knownCodes: set<string>, repr: Json -> string,
                           calls: nat, r: Result)
    requires IsCall(script, from, budget, knownCodes, repr, calls, r)
    ensures budget > 0 ==> calls > 0
    ensures calls > 0 ==>
              var last := script(from + calls - 1);
              && (last.TimedOut? ==> r == Failure(Error("TIMEOUT_EXCEEDED", false), calls) && calls == budget)
              && (last.Unreachable? ==> r == Failure(Error("MCP_UNAVAILABLE", false), calls) && calls == budget)
              && (last.Raised? ==> r == Propagated)
              && (last.Returned? ==>
                    var parsed := ParseRawResult(last.raw, knownCodes, repr);
                    && (parsed.Success? ==> r == Success(parsed.data, calls))
                    && (parsed.Failure? ==> r == Failure(parsed.error, calls)))
  {
    hide ParseRawResult;
  }

  /** A higher retry limit changes the result only where the lower one ended in a transient failure. */
  lemma MoreRetriesKeepSettledResults(script: Script, from: nat, small: int, big: int, knownCodes: set<string>,
                                      repr: Json -> string, a: nat, b: nat, first: Result, second: Result)
    requires 0 < small <= big
    requires IsCall(script, from, small, knownCodes, repr, a, first)
    requires IsCall(script, from, big, knownCodes, repr, b, second)
    ensures a <= b && (first != second ==> forall k :: from <= k < from + a ==> Transient(script(k)))
  {
    hide Reported;
    BiggerBudget(script, from, small, big, a, b);
  }

  class Client {
    const script: Script
    const knownCodes: set<string>
    const repr: Json -> string
    const maxSafeRetries: int
    var sent: nat
    var audited: nat

    constructor (script: Script, knownCodes: set<string>, repr: Json -> string, maxSafeRetries: int)
      ensures sent == 0 && audited == 0 && this.script == script && this.maxSafeRetries == maxSafeRetries
      ensures this.knownCodes == knownCodes && this.repr == repr
    {
      this.script, this.knownCodes, this.repr, this.maxSafeRetries := script, knownCodes, repr, maxSafeRetries;
      sent, audited := 0, 0;
    }

    /**
     * The audit event comes first: without it nothing is sent. Then the calls that the budget
     * allows are made, and the result is that of the last one with the number of calls made. A
     * failure of the transport that is reported is never marked as retryable.
     */
    method CallTool(auditWorks: bool, safeRetry: bool, mutating: bool) returns (r: Result)
      modifies this
      ensures !auditWorks ==> sent == old(sent) && audited == old(audited)
                              && r == Failure(Error("AUDIT_WRITE_FAILED", false), 1)
      ensures auditWorks ==> audited == old(audited) + 1 && sent >= old(sent)
                             && IsCall(script, old(sent), if safeRetry && !mutating then maxSafeRetries + 1 else 1,
                                       knownCodes, repr, sent - old(sent), r)
      ensures mutating ==> sent <= old(sent) + 1
    {
      if !auditWorks {
        return Failure(Error("AUDIT_WRITE_FAILED", false), 1);
      }
      audited := audited + 1;
      var attempts := if safeRetry && !mutating then maxSafeRetries + 1 else 1;
      var attempt: nat := 1;
      while attempt <= attempts
        invariant sent == old(sent) + attempt - 1 && audited == old(audited) + 1
        invariant attempt == 1 || attempt <= attempts
        invariant forall k :: old(sent) <= k < sent ==> Transient(script(k))
        decreases attempts - attempt
      {
        var outcome := script(sent);
        sent := sent + 1;
        match outcome {
          case TimedOut =>
            if attempt >= attempts {
              return Failure(Error("TIMEOUT_EXCEEDED", safeRetry && attempt < attempts), attempt);
            }
          case Unreachable =>
            if attempt >= attempts {
              return Failure(Error("MCP_UNAVAILABLE", safeRetry && attempt < attempts), attempt);
            }
          case Raised =>
            return Propagated;
          case Returned(raw) =>
            return WithAttempts(ParseRawResult(raw, knownCodes, repr), attempt);
        }
        attempt := attempt + 1;
      }
      return Failure(Error("UNKNOWN_ERROR", false), attempts);
    }
  }
}
