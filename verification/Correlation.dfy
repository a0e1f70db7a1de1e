/**
 * Parsing, routing and answering OCPP-J frames (backend/services/ocpp-server/internal/ocpp), and which CALL each response
 * answers (section 4.2 of OCPP-J 1.6). JSON is an abstract datatype; what a handler makes of a payload is a parameter.
 */
module Correlation {
  import opened Options

  /** A decoded JSON value; Number is any numeral that is not an int64 literal. */
  datatype Json = Null | Bool(b: bool) | Int(n: int) | Number | Str(s: string) | Arr(items: seq<Json>) | Obj(members: seq<(string, Json)>)

  /** Bytes on the socket: not JSON at all, or some JSON value. */
  datatype Raw = NotJson | Document(json: Json)

  datatype Message = Message(uniqueId: string, action: string, payload: Json)

  /** What a handler returns: an error, nil, a payload that encodes, or one that does not. */
  datatype Outcome = HandlerError(description: string) | Nil | Payload(json: Json) | Unencodable

  // ----- Parse -----

  /** Unmarshalling into a Go string: null is accepted and leaves it empty. */
  function AsString(j: Json): (r: Option<string>) {
    match j
    case Str(s) => Some(s)
    case Null => Some("")
    case _ => None
  }

  /** Unmarshalling into a Go int: null is accepted and leaves it 0. */
  function AsInt(j: Json): (r: Option<int>) {
    match j
    case Int(n) => Some(n)
    case Null => Some(0)
    case _ => None
  }

  function Parse(raw: Raw): (r: Option<Message>) {
    if !(raw.Document? && raw.json.Arr?) then None
    else
      var a := raw.json.items;
      if |a| < 3 || AsInt(a[0]) != Some(2) || |a| < 4 then None
      else if AsString(a[1]).None? || AsString(a[2]).None? then None
      else Some(Message(AsString(a[1]).value, AsString(a[2]).value, a[3]))
  }

  /** A CALL frame as section 4.2.1 of OCPP-J 1.6 defines it. */
  function Call(uniqueId: string, action: string, payload: Json): Raw {
    Document(Arr([Int(2), Str(uniqueId), Str(action), payload]))
  }

  /** Unmarshalling into a string gives s. */
  predicate Spells(j: Json, s: string) { j == Str(s) || (j == Null && s == "") }

  /**
   * Every CALL parses to its parts; and what parses is exactly an array of at least four elements that starts with 2 and
   * two strings, where null may stand for the empty string, and it parses to those strings and the fourth element.
   */
  lemma ParseCall(uniqueId: string, action: string, payload: Json, raw: Raw)
    ensures Parse(Call(uniqueId, action, payload)) == Some(Message(uniqueId, action, payload))
    ensures Parse(raw) == Some(Message(uniqueId, action, payload)) <==>
              && raw.Document? && raw.json.Arr? && |raw.json.items| >= 4
              && var a := raw.json.items;
                 a[0] == Int(2) && Spells(a[1], uniqueId) && Spells(a[2], action) && a[3] == payload
  {
  }

  // ----- Process -----

  function CallResult(uniqueId: string, payload: Json): Json { Arr([Int(3), Str(uniqueId), payload]) }

  function CallError(uniqueId: string, description: string): Json {
    Arr([Int(4), Str(uniqueId), Str("InternalError"), Str(description), Obj([])])
  }

  /** The id a response carries. */
  function IdOf(response: Json): (id: string) {
    if response.Arr? && |response.items| > 1 && response.items[1].Str? then response.items[1].s else ""
  }

  /** What the route gives: the registered handler's outcome, or an error for an action nobody registered. */
  function RouteOutcome(handlers: set<string>, msg: Message, outcome: Outcome): Outcome {
    if msg.action in handlers then outcome else HandlerError("ocpp: unsupported action " + msg.action)
  }

  /** What an outcome becomes on the wire, if anything. */
  function Reply(uniqueId: string, outcome: Outcome): (r: Option<Json>) {
    match outcome
    case HandlerError(d) => Some(CallError(uniqueId, d))
    case Nil => None
    case Payload(j) => Some(CallResult(uniqueId, j))
    case Unencodable => None
  }

  /** The response Process returns for a frame, if any. */
  function Respond(handlers: set<string>, raw: Raw, outcome: Outcome): (r: Option<Json>) {
    match Parse(raw)
    case None => None
    case Some(msg) => Reply(msg.uniqueId, RouteOutcome(handlers, msg, outcome))
  }

  /**
   * A response carries its CALL's id; there is none exactly for non-CALLs and for handlers that returned nothing encodable.
   * A payload becomes a CALLRESULT, an error or an unknown action a CALLERROR (sections 4.2.2 and 4.2.3 of OCPP-J 1.6).
   */
  lemma ResponseAnswersItsCall(handlers: set<string>, raw: Raw, outcome: Outcome)
    ensures var call, r := Parse(raw), Respond(handlers, raw, outcome);
            && (r.Some? ==> call.Some? && IdOf(r.value) == call.value.uniqueId)
            && (r.None? <==> call.None? || (call.value.action in handlers && (outcome.Nil? || outcome.Unencodable?)))
            && (call.Some? ==>
                  var id, action := call.value.uniqueId, call.value.action;
                  && (action !in handlers ==>
                        r == Some(Arr([Int(4), Str(id), Str("InternalError"), Str("ocpp: unsupported action " + action), Obj([])])))
                  && (action in handlers && outcome.HandlerError? ==>
                        r == Some(Arr([Int(4), Str(id), Str("InternalError"), Str(outcome.description), Obj([])])))
                  && (action in handlers && outcome.Payload? ==> r == Some(Arr([Int(3), Str(id), outcome.json]))))
  {
  }

  /** A frame that arrives and what its handler would make of it. */
  datatype Arrival = Arrival(raw: Raw, outcome: Outcome)

  /** The positions of the CALLs that get a response, in order. */
  function Answered(handlers: set<string>, arrivals: seq<Arrival>): (r: seq<nat>) {
    if arrivals == [] then []
    else
      var n := |arrivals| - 1;
      Answered(handlers, arrivals[..n]) + if Respond(handlers, arrivals[n].raw, arrivals[n].outcome).Some? then [n] else []
  }

  ghost predicate Increasing(s: seq<nat>) {
    forall i, j :: 0 <= i < j < |s| ==> s[i] < s[j]
  }

  lemma {:induction false} AnsweredExactly(handlers: set<string>, arrivals: seq<Arrival>)
    ensures Increasing(Answered(handlers, arrivals))
    ensures forall n :: n in Answered(handlers, arrivals) <==>
              0 <= n < |arrivals| && Respond(handlers, arrivals[n].raw, arrivals[n].outcome).Some?
  {
    if arrivals != [] {
      AnsweredExactly(handlers, arrivals[..|arrivals| - 1]);
      var before := Answered(handlers, arrivals[..|arrivals| - 1]);
      forall i | 0 <= i < |before| ensures before[i] < |arrivals| - 1 {
        assert before[i] in before;
      }
    }
  }

  // ----- The router and the processor -----

  class Router {
    var handlers: set<string>

    constructor ()
      ensures handlers == {}
    {
      handlers := {};
    }

    method Register(action: string)
      modifies this
      ensures handlers == old(handlers) + {action}
    {
      handlers := handlers + {action};
    }
  }

  class Processor {
    const router: Router

    constructor (r: Router)
      ensures router == r
    {
      router := r;
    }

    /** Process: None stands both for an error and for a nil response. */
    method Process(raw: Raw, outcome: Outcome) returns (response: Option<Json>)
      ensures response == Respond(router.handlers, raw, outcome)
    {
      var msg := Parse(raw);
      if msg.None? {
        return None;
      }
      if msg.value.action !in router.handlers {
        return Some(CallError(msg.value.uniqueId, "ocpp: unsupported action " + msg.value.action));
      }
      match outcome
      case HandlerError(d) => return Some(CallError(msg.value.uniqueId, d));
      case Nil => return None;
      case Unencodable => return None;
      case Payload(j) => return Some(CallResult(msg.value.uniqueId, j));
    }

    /**
     * The read loop over any run of frames. `from[i]` is the arrival that response i answers: they are strictly increasing,
     * so responses answer distinct CALLs in order; each carries its CALL's id; and a frame has no response exactly when it
     * is no CALL, or its handler is registered and returned nil or something that does not encode.
     */
    method ProcessAll(arrivals: seq<Arrival>) returns (responses: seq<Json>, ghost from: seq<nat>)
      ensures |from| == |responses| && Increasing(from)
      ensures forall i :: 0 <= i < |from| ==>
                && from[i] < |arrivals|
                && var call := Parse(arrivals[from[i]].raw);
                   call.Some? && IdOf(responses[i]) == call.value.uniqueId
      ensures forall n :: 0 <= n < |arrivals| ==>
                var call := Parse(arrivals[n].raw);
                n !in from <==> call.None? || (call.value.action in router.handlers && (arrivals[n].outcome.Nil? || arrivals[n].outcome.Unencodable?))
    {
      responses, from := [], [];
      for k := 0 to |arrivals|
        invariant |from| == |responses| && from == Answered(router.handlers, arrivals[..k])
        invariant forall i :: 0 <= i < |from| ==>
                    from[i] < k && Some(responses[i]) == Respond(router.handlers, arrivals[from[i]].raw, arrivals[from[i]].outcome)
      {
        var response := Process(arrivals[k].raw, arrivals[k].outcome);
        assert arrivals[..k + 1][..k] == arrivals[..k] && arrivals[..k + 1][k] == arrivals[k];
        if response.Some? {
          responses := responses + [response.value];
          from := from + [k];
        }
      }
      assert arrivals[..|arrivals|] == arrivals;
      AnsweredExactly(router.handlers, arrivals);
      forall n | 0 <= n < |arrivals|
        ensures Respond(router.handlers, arrivals[n].raw, arrivals[n].outcome).Some? ==> Parse(arrivals[n].raw).Some?
      {
        ResponseAnswersItsCall(router.handlers, arrivals[n].raw, arrivals[n].outcome);
      }
      forall i | 0 <= i < |from| ensures IdOf(responses[i]) == Parse(arrivals[from[i]].raw).value.uniqueId {
        ResponseAnswersItsCall(router.handlers, arrivals[from[i]].raw, arrivals[from[i]].outcome);
      }
    }
  }
}
