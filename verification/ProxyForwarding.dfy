/**
  * Forwarding a request to a backend and its fallbacks. The upstream, the runtime manager's
  * start and the stream's closing are oracles: one answer per attempted backend.
  */
module ProxyForwarding {
  import opened Prelude
  import opened Text
  import Models

  datatype Backend = Backend(name: string, model: string, managed: bool, kind: string)

  datatype ProxyConfig = ProxyConfig(
    backends: map<string, Backend>,
    engineBackends: map<string, string>,
    fallbackBackends: map<string, seq<string>>,
    allowlist: seq<string>,
    denylist: seq<string>)

  /** A backend is configured under its own name. */
  ghost predicate WellNamed(c: ProxyConfig) {
    forall k :: k in c.backends ==> c.backends[k].name == k
  }

  // ---------------------------------------------------------------- backend policy

  predicate PolicyRejects(c: ProxyConfig, name: string) {
    (c.allowlist != [] && name !in c.allowlist) || name in c.denylist
  }

  function BackendForEngine(c: ProxyConfig, engine: string): Option<Backend> {
    if engine !in c.engineBackends then None
    else
      var name := c.engineBackends[engine];
      if PolicyRejects(c, name) then None
      else if name in c.backends then Some(c.backends[name])
      else None
  }

  function Usable(c: ProxyConfig, names: seq<string>): seq<Backend> {
    if names == [] then []
    else
      (if names[0] in c.backends && !PolicyRejects(c, names[0]) then [c.backends[names[0]]] else [])
      + Usable(c, names[1..])
  }

  function FallbackChain(c: ProxyConfig, name: string): seq<Backend> {
    if name in c.fallbackBackends then Usable(c, c.fallbackBackends[name]) else []
  }

  lemma {:induction false} UsableMembers(c: ProxyConfig, names: seq<string>)
    requires WellNamed(c)
    ensures forall b :: b in Usable(c, names) <==>
      b.name in names && MayContact(c, b.name) && c.backends[b.name] == b
  {
    if names != [] {
      UsableMembers(c, names[1..]);
      assert names == [names[0]] + names[1..];
    }
  }

  /** A backend's fallbacks are the configured ones that exist and may be contacted. */
  lemma FallbackChainMembers(c: ProxyConfig, name: string)
    requires WellNamed(c)
    ensures forall b :: b in FallbackChain(c, name) <==>
      && name in c.fallbackBackends && b.name in c.fallbackBackends[name]
      && MayContact(c, b.name) && c.backends[b.name] == b
  {
    if name in c.fallbackBackends {
      UsableMembers(c, c.fallbackBackends[name]);
    }
  }

  /** The members keep their order: a list is used piece by piece, and a single name is used or not. */
  lemma {:induction false} UsableInOrder(c: ProxyConfig, names: seq<string>, more: seq<string>, name: string)
    ensures Usable(c, names + more) == Usable(c, names) + Usable(c, more)
    ensures Usable(c, [name]) == if MayContact(c, name) then [c.backends[name]] else []
  {
    if names == [] {
      assert names + more == more;
    } else {
      assert (names + more)[1..] == names[1..] + more;
      UsableInOrder(c, names[1..], more, name);
    }
    assert [name][1..] == [] && Usable(c, []) == [];
  }

  // ---------------------------------------------------------------- attempts

  const MLX_UNSUPPORTED: set<string> := {"/responses", "/embeddings", "/completions"}

  predicate SupportsPath(b: Backend, path: string) {
    if path == "/chat/completions" || path == "/models" then true
    else if path == "/messages" then false
    else !(b.managed && b.kind == "mlx-lm" && path in MLX_UNSUPPORTED)
  }

  /** How one attempt goes: the runtime does not start, the call raises, or there is a response. */
  datatype Attempt =
    | StartFails
    | Throws(error: string)
    | Responds(status: int, closeFails: bool)

  datatype Event = Begin(name: string) | Contact(name: string) | End(name: string)

  datatype Outcome =
    | Response(status: int, backend: Backend, fallbackUsed: bool)
    | UnsupportedApi(backend: Backend)
    | StartError(backend: Backend)
    | CloseError(backend: Backend)
    | UpstreamError(error: string)

  /** The attempt at index `i` ends the loop. */
  predicate Decisive(attempted: seq<Backend>, attempts: seq<Attempt>, path: string, i: nat)
    requires i < |attempted| == |attempts|
  {
    || !SupportsPath(attempted[i], path)
    || attempts[i].StartFails?
    || (attempts[i].Responds? && (attempts[i].status < 500 || i == |attempted| - 1))
  }

  /** The first attempt from `i` on that ends the loop; past the end when none does. */
  function DecisiveFrom(attempted: seq<Backend>, attempts: seq<Attempt>, path: string, i: nat): (d: nat)
    requires i <= |attempted| == |attempts|
    ensures i <= d <= |attempted|
    ensures forall j: nat :: i <= j < d ==> !Decisive(attempted, attempts, path, j)
    ensures d < |attempted| ==> Decisive(attempted, attempts, path, d)
    decreases |attempted| - i
  {
    if i == |attempted| || Decisive(attempted, attempts, path, i) then i
    else DecisiveFrom(attempted, attempts, path, i + 1)
  }

  /** What the attempt at `d` returns; past the end, the last backend raised. */
  function OutcomeAt(attempted: seq<Backend>, attempts: seq<Attempt>, path: string, d: nat): Outcome
    requires |attempted| == |attempts| > 0 && d <= |attempted|
  {
    if d == |attempted| then
      UpstreamError(if attempts[d - 1].Throws? then attempts[d - 1].error else "upstream failed")
    else if !SupportsPath(attempted[d], path) then UnsupportedApi(attempted[d])
    else
      match attempts[d]
      case StartFails => StartError(attempted[d])
      case Throws(error) => UpstreamError(error)
      case Responds(status, _) => Response(status, attempted[d], d > 0)
  }

  function PostOutcome(attempted: seq<Backend>, attempts: seq<Attempt>, path: string): Outcome
    requires |attempted| == |attempts| > 0
  {
    OutcomeAt(attempted, attempts, path, DecisiveFrom(attempted, attempts, path, 0))
  }

  /** A begun, contacted and ended attempt. */
  function Tried(name: string): seq<Event> {
    [Begin(name), Contact(name), End(name)]
  }

  function AllTried(attempted: seq<Backend>): seq<Event> {
    if attempted == [] then []
    else AllTried(attempted[..|attempted| - 1]) + Tried(attempted[|attempted| - 1].name)
  }

  /** How many backends, in order, are contacted: all up to the decisive one, and that one if it responds. */
  function ContactedCount(attempted: seq<Backend>, attempts: seq<Attempt>, path: string): (k: nat)
    requires |attempted| == |attempts| > 0
    ensures k <= |attempted|
  {
    var d := DecisiveFrom(attempted, attempts, path, 0);
    if d < |attempted| && OutcomeAt(attempted, attempts, path, d).Response? then d + 1 else d
  }

  function PostTrace(attempted: seq<Backend>, attempts: seq<Attempt>, path: string): seq<Event>
    requires |attempted| == |attempts| > 0
  {
    AllTried(attempted[..ContactedCount(attempted, attempts, path)])
  }

  method PostWithFallbacks(primary: Backend, fallbacks: seq<Backend>, path: string, attempts: seq<Attempt>)
    returns (r: Outcome, trace: seq<Event>)
    requires |attempts| == 1 + |fallbacks|
    ensures r == PostOutcome([primary] + fallbacks, attempts, path)
    ensures trace == PostTrace([primary] + fallbacks, attempts, path)
  {
    var attempted := [primary] + fallbacks;
    var lastError := "upstream failed";
    trace := [];
    for index := 0 to |attempted|
      invariant DecisiveFrom(attempted, attempts, path, 0) == DecisiveFrom(attempted, attempts, path, index)
      invariant trace == AllTried(attempted[..index])
      invariant index > 0 && attempts[index - 1].Throws? ==> lastError == attempts[index - 1].error
    {
      var backend := attempted[index];
      if !SupportsPath(backend, path) {
        return UnsupportedApi(backend), trace;
      }
      if attempts[index].StartFails? {
        return StartError(backend), trace;
      }
      assert attempted[..index + 1][..index] == attempted[..index];
      ghost var before := trace;
      trace := trace + [Begin(backend.name), Contact(backend.name)];
      trace := trace + [End(backend.name)];
      assert trace == before + Tried(backend.name);
      if attempts[index].Throws? {
        lastError := attempts[index].error;
        continue;
      }
      if attempts[index].status < 500 || index == |attempted| - 1 {
        return Response(attempts[index].status, backend, index > 0), trace;
      }
    }
    assert !Decisive(attempted, attempts, path, |attempted| - 1);
    assert attempted[..|attempted|] == attempted;
    return UpstreamError(lastError), trace;
  }

  /** The attempt sends the loop on to the next backend, if there is one. */
  predicate Retried(attempted: seq<Backend>, attempts: seq<Attempt>, path: string, i: nat)
    requires i < |attempted| == |attempts|
  {
    SupportsPath(attempted[i], path)
    && (attempts[i].Throws? || (attempts[i].Responds? && attempts[i].status >= 500))
  }

  /** The outcome is what the attempt at `d` means, every earlier one having been retried. */
  ghost predicate Explains(attempted: seq<Backend>, attempts: seq<Attempt>, path: string, d: nat, r: Outcome)
    requires |attempted| == |attempts|
  {
    && d < |attempted|
    && (forall i: nat :: i < d ==> Retried(attempted, attempts, path, i))
    && var last := |attempted| - 1;
       match r
       case Response(status, backend, fallbackUsed) =>
         && SupportsPath(attempted[d], path) && attempts[d].Responds? && attempts[d].status == status
         && (status < 500 || d == last)
         && backend == attempted[d] && fallbackUsed == (d > 0)
       case UpstreamError(error) =>
         d == last && SupportsPath(attempted[d], path) && attempts[d] == Throws(error)
       case StartError(backend) =>
         backend == attempted[d] && SupportsPath(attempted[d], path) && attempts[d] == StartFails
       case UnsupportedApi(backend) =>
         && backend == attempted[d]
         && (path == "/messages"
             || (backend.managed && backend.kind == "mlx-lm"
                 && path in {"/responses", "/embeddings", "/completions"}))
       case CloseError(_) => false
  }

  /**
    * What a POST returns: the first response below 500, or the last backend's response; an
    * error when the last backend raises; and an unsupported path or a failed start aborts.
    * One attempt explains the outcome, and no other outcome can be explained.
    */
  lemma PostOutcomeMeaning(attempted: seq<Backend>, attempts: seq<Attempt>, path: string, r: Outcome)
    requires |attempted| == |attempts| > 0
    ensures r == PostOutcome(attempted, attempts, path) <==> exists d: nat :: Explains(attempted, attempts, path, d, r)
  {
    var d := DecisiveFrom(attempted, attempts, path, 0);
    forall i: nat | i < d ensures i < |attempted| - 1 ==> Retried(attempted, attempts, path, i) {
      assert !Decisive(attempted, attempts, path, i);
    }
    var e := if d == |attempted| then d - 1 else d;
    if d == |attempted| {
      assert !Decisive(attempted, attempts, path, e);
    }
    assert Explains(attempted, attempts, path, e, PostOutcome(attempted, attempts, path));
    if k: nat :| Explains(attempted, attempts, path, k, r) {
      OneExplanation(attempted, attempts, path, k, e, r, PostOutcome(attempted, attempts, path));
    }
  }

  lemma OneExplanation(
    attempted: seq<Backend>, attempts: seq<Attempt>, path: string, d: nat, e: nat, r: Outcome, q: Outcome)
    requires |attempted| == |attempts|
    requires Explains(attempted, attempts, path, d, r) && Explains(attempted, attempts, path, e, q)
    ensures r == q
  {
    assert d < e ==> Retried(attempted, attempts, path, d);
    assert e < d ==> Retried(attempted, attempts, path, e);
  }

  // ---------------------------------------------------------------- the stream form

  /** A failing close of a rejected stream also ends the loop. */
  predicate StreamDecisive(attempted: seq<Backend>, attempts: seq<Attempt>, path: string, i: nat)
    requires i < |attempted| == |attempts|
  {
    Decisive(attempted, attempts, path, i) || (attempts[i].Responds? && attempts[i].closeFails)
  }

  function StreamDecisiveFrom(attempted: seq<Backend>, attempts: seq<Attempt>, path: string, i: nat): (d: nat)
    requires i <= |attempted| == |attempts|
    ensures i <= d <= |attempted|
    ensures forall j: nat :: i <= j < d ==> !StreamDecisive(attempted, attempts, path, j)
    ensures d < |attempted| ==> StreamDecisive(attempted, attempts, path, d)
    decreases |attempted| - i
  {
    if i == |attempted| || StreamDecisive(attempted, attempts, path, i) then i
    else StreamDecisiveFrom(attempted, attempts, path, i + 1)
  }

  function StreamOutcome(attempted: seq<Backend>, attempts: seq<Attempt>, path: string): Outcome
    requires |attempted| == |attempts| > 0
  {
    var d := StreamDecisiveFrom(attempted, attempts, path, 0);
    if d < |attempted| && !Decisive(attempted, attempts, path, d) then CloseError(attempted[d])
    else OutcomeAt(attempted, attempts, path, d)
  }

  /** Everything tried before is ended; an accepted stream is left open on its backend. */
  function StreamTrace(attempted: seq<Backend>, attempts: seq<Attempt>, path: string): seq<Event>
    requires |attempted| == |attempts| > 0
  {
    var d := StreamDecisiveFrom(attempted, attempts, path, 0);
    match StreamOutcome(attempted, attempts, path)
    case Response(_, backend, _) => AllTried(attempted[..d]) + [Begin(backend.name), Contact(backend.name)]
    case CloseError(backend) => AllTried(attempted[..d]) + Tried(backend.name)
    case _ => AllTried(attempted[..d])
  }

  method OpenStreamWithFallbacks(primary: Backend, fallbacks: seq<Backend>, path: string, attempts: seq<Attempt>)
    returns (r: Outcome, trace: seq<Event>)
    requires |attempts| == 1 + |fallbacks|
    ensures r == StreamOutcome([primary] + fallbacks, attempts, path)
    ensures trace == StreamTrace([primary] + fallbacks, attempts, path)
  {
    var attempted := [primary] + fallbacks;
    var lastError := "upstream failed";
    trace := [];
    for index := 0 to |attempted|
      invariant StreamDecisiveFrom(attempted, attempts, path, 0) == StreamDecisiveFrom(attempted, attempts, path, index)
      invariant trace == AllTried(attempted[..index])
      invariant index > 0 && attempts[index - 1].Throws? ==> lastError == attempts[index - 1].error
    {
      var backend := attempted[index];
      if !SupportsPath(backend, path) {
        return UnsupportedApi(backend), trace;
      }
      if attempts[index].StartFails? {
        return StartError(backend), trace;
      }
      assert attempted[..index + 1][..index] == attempted[..index];
      ghost var before := trace;
      trace := trace + [Begin(backend.name), Contact(backend.name)];
      if attempts[index].Throws? {
        lastError := attempts[index].error;
        trace := trace + [End(backend.name)];
        assert trace == before + Tried(backend.name);
        continue;
      }
      if attempts[index].status >= 500 && index < |attempted| - 1 {
        trace := trace + [End(backend.name)];
        assert trace == before + Tried(backend.name);
        if attempts[index].closeFails {
          return CloseError(backend), trace;
        }
        continue;
      }
      return Response(attempts[index].status, backend, index > 0), trace;
    }
    assert !StreamDecisive(attempted, attempts, path, |attempted| - 1);
    assert attempted[..|attempted|] == attempted;
    return UpstreamError(lastError), trace;
  }

  /** While no rejected stream fails to close, the stream form answers as the POST form does. */
  lemma {:induction false} StreamAnswersAsPost(
    attempted: seq<Backend>, attempts: seq<Attempt>, path: string, i: nat)
    requires |attempted| == |attempts| > 0 && i <= |attempted|
    requires forall j :: 0 <= j < |attempts| && attempts[j].Responds? ==> !attempts[j].closeFails
    ensures StreamDecisiveFrom(attempted, attempts, path, i) == DecisiveFrom(attempted, attempts, path, i)
    ensures StreamOutcome(attempted, attempts, path) == PostOutcome(attempted, attempts, path)
    decreases |attempted| - i
  {
    if i < |attempted| {
      StreamAnswersAsPost(attempted, attempts, path, i + 1);
    } else if i > 0 {
      StreamDecisiveSame(attempted, attempts, path, 0);
    }
  }

  lemma {:induction false} StreamDecisiveSame(
    attempted: seq<Backend>, attempts: seq<Attempt>, path: string, i: nat)
    requires |attempted| == |attempts| && i <= |attempted|
    requires forall j :: 0 <= j < |attempts| && attempts[j].Responds? ==> !attempts[j].closeFails
    ensures StreamDecisiveFrom(attempted, attempts, path, i) == DecisiveFrom(attempted, attempts, path, i)
    decreases |attempted| - i
  {
    if i < |attempted| {
      StreamDecisiveSame(attempted, attempts, path, i + 1);
    }
  }

  // ---------------------------------------------------------------- the end of a stream

  /** How relaying the body ends; it is abandoned when the client closes the generator. */
  datatype BodyEnd = Exhausted | Fails(error: string) | Cancelled | Abandoned

  /** How leaving the upstream's context goes: an exception is logged, anything else escapes. */
  datatype ContextExit = Exits | ExitRaises | ExitEscapes

  /** The event log, if one is configured, and the code points of the prompt it is to record. */
  datatype EventLog = NoEventLog | EventLog(prompt: seq<nat>)

  /** The prompt has a UTF-8 encoding to hash: no code point is a lone surrogate. */
  predicate Encodable(prompt: seq<nat>) {
    forall i :: 0 <= i < |prompt| ==> !(0xD800 <= prompt[i] <= 0xDFFF)
  }

  predicate EventRaises(log: EventLog) {
    log.EventLog? && !Encodable(log.prompt)
  }

  datatype StreamStatus = Forwarded | Interrupted

  /** What leaves the generator. */
  datatype Escape = Nothing | Body(end: BodyEnd) | Exit | Event

  /** The request is ended last, so whatever escapes the clean-up before skips it. */
  function StreamTail(backend: Backend, exit: ContextExit, log: EventLog): seq<Event> {
    if exit.ExitEscapes? || EventRaises(log) then [] else [End(backend.name)]
  }

  /** Relay the body; then, whatever happened, leave the context, write the event, end the request. */
  method StreamResponseBytes(
    backend: Backend, chunks: seq<string>, bodyEnd: BodyEnd, exit: ContextExit, log: EventLog)
    returns (delivered: seq<string>, logged: Option<StreamStatus>, escape: Escape, trace: seq<Event>)
    ensures delivered == chunks
    ensures trace == StreamTail(backend, exit, log)
    ensures logged.Some? <==> log.EventLog? && Encodable(log.prompt) && !exit.ExitEscapes?
    ensures logged.Some? ==> (logged.value == Interrupted <==> bodyEnd.Fails? || bodyEnd.Cancelled?)
    ensures escape == Nothing <==> bodyEnd.Exhausted? && trace != []
    ensures escape.Body? ==> escape.end == bodyEnd && trace != []
  {
    delivered, logged, trace := [], None, [];
    for k := 0 to |chunks|
      invariant delivered == chunks[..k]
    {
      delivered := delivered + [chunks[k]];
    }
    var status := if bodyEnd.Fails? || bodyEnd.Cancelled? then Interrupted else Forwarded;
    if exit.ExitEscapes? {
      escape := Exit;
      return;
    }
    if log.EventLog? {
      if !Encodable(log.prompt) {
        escape := Event;
        return;
      }
      logged := Some(status);
    }
    trace := [End(backend.name)];
    escape := if bodyEnd.Exhausted? then Nothing else Body(bodyEnd);
  }

  // ---------------------------------------------------------------- begins and ends match

  function Count(trace: seq<Event>, e: Event): nat {
    multiset(trace)[e]
  }

  lemma CountAppend(s: seq<Event>, t: seq<Event>, e: Event)
    ensures Count(s + t, e) == Count(s, e) + Count(t, e)
  {
    assert multiset(s + t) == multiset(s) + multiset(t);
  }

  lemma TriedCounts(b: string, name: string)
    ensures Count(Tried(b), Begin(name)) == Count(Tried(b), End(name)) == if b == name then 1 else 0
  {
    assert multiset(Tried(b)) == multiset{Begin(b), Contact(b), End(b)};
  }

  lemma {:induction false} TriedIsBalanced(attempted: seq<Backend>, name: string)
    ensures Count(AllTried(attempted), Begin(name)) == Count(AllTried(attempted), End(name))
  {
    if attempted != [] {
      var n := |attempted| - 1;
      TriedIsBalanced(attempted[..n], name);
      TriedCounts(attempted[n].name, name);
      CountAppend(AllTried(attempted[..n]), Tried(attempted[n].name), Begin(name));
      CountAppend(AllTried(attempted[..n]), Tried(attempted[n].name), End(name));
    }
  }

  /** Whatever the attempts do, a POST ends every request it begins, on every backend. */
  lemma PostEndsEveryRequest(attempted: seq<Backend>, attempts: seq<Attempt>, path: string, name: string)
    requires |attempted| == |attempts| > 0
    ensures var trace := PostTrace(attempted, attempts, path);
      Count(trace, Begin(name)) == Count(trace, End(name))
  {
    TriedIsBalanced(attempted[..ContactedCount(attempted, attempts, path)], name);
  }

  lemma OpenCounts(b: string, name: string)
    ensures Count([Begin(b), Contact(b)], Begin(name)) == if b == name then 1 else 0
    ensures Count([Begin(b), Contact(b)], End(name)) == 0
    ensures Count([End(b)], Begin(name)) == 0
    ensures Count([End(b)], End(name)) == if b == name then 1 else 0
  {
    assert multiset([Begin(b), Contact(b)]) == multiset{Begin(b), Contact(b)};
    assert multiset([End(b)]) == multiset{End(b)};
  }

  /** The stream form leaves exactly one request open, on the backend it returns, and none when it raises. */
  lemma StreamLeavesOneOpen(attempted: seq<Backend>, attempts: seq<Attempt>, path: string, name: string)
    requires |attempted| == |attempts| > 0
    ensures var r := StreamOutcome(attempted, attempts, path);
      var trace := StreamTrace(attempted, attempts, path);
      Count(trace, Begin(name))
      == Count(trace, End(name)) + (if r.Response? && r.backend.name == name then 1 else 0)
  {
    var r := StreamOutcome(attempted, attempts, path);
    var before := AllTried(attempted[..StreamDecisiveFrom(attempted, attempts, path, 0)]);
    TriedIsBalanced(attempted[..StreamDecisiveFrom(attempted, attempts, path, 0)], name);
    if r.Response? {
      var b := r.backend.name;
      OpenCounts(b, name);
      CountAppend(before, [Begin(b), Contact(b)], Begin(name));
      CountAppend(before, [Begin(b), Contact(b)], End(name));
    } else if r.CloseError? {
      TriedCounts(r.backend.name, name);
      CountAppend(before, Tried(r.backend.name), Begin(name));
      CountAppend(before, Tried(r.backend.name), End(name));
    }
  }

  /** On every backend, as many requests are ended as were begun. */
  ghost predicate Balanced(trace: seq<Event>) {
    forall name :: Count(trace, Begin(name)) == Count(trace, End(name))
  }

  lemma TailCounts(trace: seq<Event>, b: Backend, exit: ContextExit, log: EventLog, name: string)
    ensures var tail := StreamTail(b, exit, log);
      && Count(trace + tail, Begin(name)) == Count(trace, Begin(name))
      && Count(trace + tail, End(name)) == Count(trace, End(name)) + (if tail != [] && b.name == name then 1 else 0)
  {
    OpenCounts(b.name, name);
    CountAppend(trace, StreamTail(b, exit, log), Begin(name));
    CountAppend(trace, StreamTail(b, exit, log), End(name));
  }

  /**
    * Exactly when a relayed stream ends its request: unless leaving the upstream's context is
    * cut off, or there is an event to write and its prompt cannot be encoded. Then the request
    * stays open on its backend.
    */
  lemma StreamEndsRequestIff(
    attempted: seq<Backend>, attempts: seq<Attempt>, path: string, exit: ContextExit, log: EventLog)
    requires |attempted| == |attempts| > 0
    requires StreamOutcome(attempted, attempts, path).Response?
    ensures var b := StreamOutcome(attempted, attempts, path).backend;
      Balanced(StreamTrace(attempted, attempts, path) + StreamTail(b, exit, log))
      <==> !exit.ExitEscapes?
           && !(log.EventLog? && exists i :: 0 <= i < |log.prompt| && 0xD800 <= log.prompt[i] <= 0xDFFF)
  {
    var b := StreamOutcome(attempted, attempts, path).backend;
    var trace, tail := StreamTrace(attempted, attempts, path), StreamTail(b, exit, log);
    forall name ensures Count(trace + tail, Begin(name)) == Count(trace + tail, End(name))
                   <==> b.name != name || tail != []
    {
      StreamLeavesOneOpen(attempted, attempts, path, name);
      TailCounts(trace, b, exit, log, name);
    }
    assert Balanced(trace + tail) ==> Count(trace + tail, Begin(b.name)) == Count(trace + tail, End(b.name));
  }

  /** With an event log, a prompt holding a lone surrogate leaves its request begun for good. */
  lemma LoneSurrogateLeavesRequestOpen(backend: Backend, path: string)
    requires SupportsPath(backend, path)
    ensures var trace := StreamTrace([backend], [Responds(200, false)], path)
                         + StreamTail(backend, Exits, EventLog([0xD800]));
      Count(trace, Begin(backend.name)) == Count(trace, End(backend.name)) + 1
  {
    var log := EventLog([0xD800]);
    assert !Encodable(log.prompt) by {
      assert log.prompt[0] == 0xD800;
    }
    var trace := StreamTrace([backend], [Responds(200, false)], path);
    StreamLeavesOneOpen([backend], [Responds(200, false)], path, backend.name);
    assert trace + StreamTail(backend, Exits, log) == trace;
  }

  // ---------------------------------------------------------------- what a trace says

  /** One request at a time: begun, then contacted, then ended. */
  datatype Phase = Idle | Begun(name: string) | Contacted(name: string)

  /** Where a trace leaves off, if every event in it comes in turn. */
  function Replay(trace: seq<Event>): Option<Phase> {
    if trace == [] then Some(Idle)
    else
      match (Replay(trace[..|trace| - 1]), trace[|trace| - 1])
      case (Some(Idle), Begin(name)) => Some(Begun(name))
      case (Some(Begun(open)), Contact(name)) => if open == name then Some(Contacted(name)) else None
      case (Some(Contacted(open)), End(name)) => if open == name then Some(Idle) else None
      case _ => None
  }

  /** The backends contacted, in order. */
  function ContactsOf(trace: seq<Event>): seq<string> {
    if trace == [] then []
    else
      var last := trace[|trace| - 1];
      ContactsOf(trace[..|trace| - 1]) + (if last.Contact? then [last.name] else [])
  }

  function NamesOf(backends: seq<Backend>): (names: seq<string>)
    ensures |names| == |backends| && forall i :: 0 <= i < |backends| ==> names[i] == backends[i].name
  {
    seq(|backends|, i requires 0 <= i < |backends| => backends[i].name)
  }

  lemma TraceSnoc(trace: seq<Event>, e: Event)
    ensures ContactsOf(trace + [e]) == ContactsOf(trace) + (if e.Contact? then [e.name] else [])
    ensures Replay(trace + [e]) ==
      match (Replay(trace), e)
      case (Some(Idle), Begin(name)) => Some(Begun(name))
      case (Some(Begun(open)), Contact(name)) => if open == name then Some(Contacted(name)) else None
      case (Some(Contacted(open)), End(name)) => if open == name then Some(Idle) else None
      case _ => None
  {
    assert (trace + [e])[..|trace|] == trace;
  }

  /** After finished requests, one that is begun and contacted is the only open one; ending it leaves none. */
  lemma OneMore(trace: seq<Event>, name: string)
    requires Replay(trace) == Some(Idle)
    ensures var open := trace + [Begin(name), Contact(name)];
      Replay(open) == Some(Contacted(name)) && ContactsOf(open) == ContactsOf(trace) + [name]
    ensures var done := trace + Tried(name);
      Replay(done) == Some(Idle) && ContactsOf(done) == ContactsOf(trace) + [name]
  {
    var begun := trace + [Begin(name)];
    var open := begun + [Contact(name)];
    TraceSnoc(trace, Begin(name));
    TraceSnoc(begun, Contact(name));
    TraceSnoc(open, End(name));
    assert trace + [Begin(name), Contact(name)] == open;
    assert trace + Tried(name) == open + [End(name)];
    assert ContactsOf(trace) + [] == ContactsOf(trace);
  }

  lemma {:induction false} AllTriedReplays(attempted: seq<Backend>)
    ensures Replay(AllTried(attempted)) == Some(Idle)
    ensures ContactsOf(AllTried(attempted)) == NamesOf(attempted)
  {
    if attempted != [] {
      var n := |attempted| - 1;
      AllTriedReplays(attempted[..n]);
      OneMore(AllTried(attempted[..n]), attempted[n].name);
      assert NamesOf(attempted) == NamesOf(attempted[..n]) + [attempted[n].name];
    }
  }

  /**
    * What a POST contacts: with attempt `d` explaining the outcome, the backends before it, and
    * its own when it responded or, as the last, raised; each once, in order, between the begin
    * and the end of its own request, with no other request open.
    */
  lemma PostTraceMeaning(attempted: seq<Backend>, attempts: seq<Attempt>, path: string, d: nat)
    requires |attempted| == |attempts| > 0
    requires Explains(attempted, attempts, path, d, PostOutcome(attempted, attempts, path))
    ensures var r := PostOutcome(attempted, attempts, path);
      var trace := PostTrace(attempted, attempts, path);
      && Replay(trace) == Some(Idle)
      && ContactsOf(trace) == NamesOf(attempted)[..if r.Response? || r.UpstreamError? then d + 1 else d]
  {
    var k := ContactedCount(attempted, attempts, path);
    AllTriedReplays(attempted[..k]);
    ExplainedAt(attempted, attempts, path, d);
    assert NamesOf(attempted[..k]) == NamesOf(attempted)[..k];
  }

  /** The explaining attempt is the first decisive one; or the last one, raising, when none is. */
  lemma ExplainedAt(attempted: seq<Backend>, attempts: seq<Attempt>, path: string, d: nat)
    requires |attempted| == |attempts| > 0
    requires Explains(attempted, attempts, path, d, PostOutcome(attempted, attempts, path))
    ensures var first := DecisiveFrom(attempted, attempts, path, 0);
      if PostOutcome(attempted, attempts, path).UpstreamError? then d == |attempted| - 1 && first == |attempted|
      else d == first
  {
    var first := DecisiveFrom(attempted, attempts, path, 0);
    assert first < d ==> Retried(attempted, attempts, path, first);
    assert d < first ==> !Decisive(attempted, attempts, path, d);
  }

  // ---------------------------------------------------------------- what the stream form answers

  /** The attempt sends the stream form on: its rejected stream, if any, was closed. */
  predicate StreamRetried(attempted: seq<Backend>, attempts: seq<Attempt>, path: string, i: nat)
    requires i < |attempted| == |attempts|
  {
    Retried(attempted, attempts, path, i) && !(attempts[i].Responds? && attempts[i].closeFails)
  }

  /** Like `Explains`; but a rejected stream that fails to close ends the loop, with its own error. */
  ghost predicate StreamExplains(attempted: seq<Backend>, attempts: seq<Attempt>, path: string, d: nat, r: Outcome)
    requires |attempted| == |attempts|
  {
    && d < |attempted|
    && (forall i: nat :: i < d ==> StreamRetried(attempted, attempts, path, i))
    && var rejected := attempts[d].Responds? && attempts[d].status >= 500 && d < |attempted| - 1;
       match r
       case CloseError(backend) =>
         backend == attempted[d] && rejected && attempts[d].closeFails && SupportsPath(attempted[d], path)
       case _ => Explains(attempted, attempts, path, d, r)
  }

  /** At the first decisive attempt, or the last one when none is, the stream form's outcome is explained. */
  function StreamEnd(attempted: seq<Backend>, attempts: seq<Attempt>, path: string): (d: nat)
    requires |attempted| == |attempts| > 0
    ensures d < |attempted|
  {
    var first := StreamDecisiveFrom(attempted, attempts, path, 0);
    if first == |attempted| then first - 1 else first
  }

  lemma StreamOutcomeExplained(attempted: seq<Backend>, attempts: seq<Attempt>, path: string)
    requires |attempted| == |attempts| > 0
    ensures StreamExplains(attempted, attempts, path, StreamEnd(attempted, attempts, path),
                           StreamOutcome(attempted, attempts, path))
  {
    var first, d := StreamDecisiveFrom(attempted, attempts, path, 0), StreamEnd(attempted, attempts, path);
    forall i: nat | i < d
      ensures StreamRetried(attempted, attempts, path, i) && Retried(attempted, attempts, path, i)
    {
      assert !StreamDecisive(attempted, attempts, path, i);
    }
    if first == |attempted| {
      assert !StreamDecisive(attempted, attempts, path, d);
      assert attempts[d].Throws?;
    } else {
      assert StreamDecisive(attempted, attempts, path, d);
    }
  }

  lemma OneStreamExplanation(
    attempted: seq<Backend>, attempts: seq<Attempt>, path: string, d: nat, e: nat, r: Outcome, q: Outcome)
    requires |attempted| == |attempts|
    requires StreamExplains(attempted, attempts, path, d, r) && StreamExplains(attempted, attempts, path, e, q)
    ensures r == q && d == e
  {
    assert d < e ==> StreamRetried(attempted, attempts, path, d);
    assert e < d ==> StreamRetried(attempted, attempts, path, e);
  }

  /** What opening a stream returns: one attempt explains the outcome, and no other outcome can be explained. */
  lemma StreamOutcomeMeaning(attempted: seq<Backend>, attempts: seq<Attempt>, path: string, r: Outcome)
    requires |attempted| == |attempts| > 0
    ensures r == StreamOutcome(attempted, attempts, path)
       <==> exists d: nat :: StreamExplains(attempted, attempts, path, d, r)
  {
    StreamOutcomeExplained(attempted, attempts, path);
    if d: nat :| StreamExplains(attempted, attempts, path, d, r) {
      OneStreamExplanation(attempted, attempts, path, d, StreamEnd(attempted, attempts, path), r,
                           StreamOutcome(attempted, attempts, path));
    }
  }

  /**
    * What opening a stream contacts: the same backends in the same way, a failing close included;
    * and a returned stream is left begun and contacted, the only request open.
    */
  lemma StreamTraceMeaning(attempted: seq<Backend>, attempts: seq<Attempt>, path: string, d: nat)
    requires |attempted| == |attempts| > 0
    requires StreamExplains(attempted, attempts, path, d, StreamOutcome(attempted, attempts, path))
    ensures var r := StreamOutcome(attempted, attempts, path);
      var trace := StreamTrace(attempted, attempts, path);
      && Replay(trace) == Some(if r.Response? then Contacted(attempted[d].name) else Idle)
      && ContactsOf(trace)
         == NamesOf(attempted)[..if r.Response? || r.UpstreamError? || r.CloseError? then d + 1 else d]
  {
    var r := StreamOutcome(attempted, attempts, path);
    var first := StreamDecisiveFrom(attempted, attempts, path, 0);
    StreamOutcomeExplained(attempted, attempts, path);
    OneStreamExplanation(attempted, attempts, path, d, StreamEnd(attempted, attempts, path), r, r);
    AllTriedReplays(attempted[..first]);
    NamesOfPrefix(attempted, first);
    if r.Response? || r.CloseError? {
      OneMore(AllTried(attempted[..d]), attempted[d].name);
      NamesOfPrefix(attempted, d + 1);
    }
  }

  lemma NamesOfPrefix(backends: seq<Backend>, k: nat)
    requires k <= |backends|
    ensures NamesOf(backends[..k]) == NamesOf(backends)[..k]
    ensures k > 0 ==> NamesOf(backends)[..k] == NamesOf(backends)[..k - 1] + [backends[k - 1].name]
  {
  }

  // ---------------------------------------------------------------- policy over the whole request

  lemma {:induction false} ContactsAreAttempted(attempted: seq<Backend>, name: string)
    ensures Contact(name) in AllTried(attempted) ==> exists b :: b in attempted && b.name == name
  {
    if attempted != [] {
      var n := |attempted| - 1;
      ContactsAreAttempted(attempted[..n], name);
      assert attempted == attempted[..n] + [attempted[n]];
      if Contact(name) in AllTried(attempted[..n]) {
        var b :| b in attempted[..n] && b.name == name;
        assert b in attempted;
      } else if Contact(name) in Tried(attempted[n].name) {
        assert attempted[n] in attempted;
      }
    }
  }

  /** A backend that may be contacted under the configuration. */
  predicate MayContact(c: ProxyConfig, name: string) {
    name in c.backends && name !in c.denylist && (c.allowlist == [] || name in c.allowlist)
  }

  lemma AttemptedMayBeContacted(c: ProxyConfig, primary: Backend, name: string, b: Backend)
    requires WellNamed(c) && MayContact(c, primary.name) && b in [primary] + FallbackChain(c, primary.name)
    requires b.name == name
    ensures MayContact(c, name)
  {
    if b != primary {
      assert primary.name in c.fallbackBackends;
      UsableMembers(c, c.fallbackBackends[primary.name]);
    }
  }

  lemma PostContactsAttempted(attempted: seq<Backend>, attempts: seq<Attempt>, path: string, name: string)
    requires |attempted| == |attempts| && attempted != []
    requires Contact(name) in PostTrace(attempted, attempts, path)
    ensures exists b :: b in attempted && b.name == name
  {
    ContactsAreAttempted(attempted[..ContactedCount(attempted, attempts, path)], name);
  }

  lemma StreamContactsAttempted(attempted: seq<Backend>, attempts: seq<Attempt>, path: string, name: string)
    requires |attempted| == |attempts| && attempted != []
    requires Contact(name) in StreamTrace(attempted, attempts, path)
    ensures exists b :: b in attempted && b.name == name
  {
    var d := StreamDecisiveFrom(attempted, attempts, path, 0);
    ContactsAreAttempted(attempted[..d], name);
    if d < |attempted| {
      assert attempted[d] in attempted;
    }
  }

  /** How a request comes by its primary backend. */
  datatype Selection = ByEngine(engine: string) | Manually(settings: ManualSettings, clientModel: Option<string>)

  function PrimaryFor(c: ProxyConfig, s: Selection): Option<Backend> {
    match s
    case ByEngine(engine) => if engine == Models.FAIL_CLOSED_ENGINE then None else BackendForEngine(c, engine)
    case Manually(m, clientModel) =>
      match SelectManually(c, m, clientModel)
      case Ok(selection) => Some(selection.backend)
      case Err(_) => None
  }

  /** An engine's primary is the backend configured for it, if it may be contacted; the gate has none. */
  lemma PrimaryOfEngine(c: ProxyConfig, engine: string)
    requires WellNamed(c)
    ensures var primary := PrimaryFor(c, ByEngine(engine));
      && (primary.Some? <==>
            engine != "human_confirm" && engine in c.engineBackends && MayContact(c, c.engineBackends[engine]))
      && (primary.Some? ==> primary.value == c.backends[c.engineBackends[engine]])
  {
  }

  /** A manual selection's primary is the one selected. */
  lemma PrimaryOfSelection(c: ProxyConfig, m: ManualSettings, clientModel: Option<string>)
    ensures var r := SelectManually(c, m, clientModel);
      PrimaryFor(c, Manually(m, clientModel)) == if r.Ok? then Some(r.value.backend) else None
  {
  }

  /**
    * Whether an engine or the operator selects the primary backend, no backend the policy
    * rejects is contacted, neither as primary nor as a fallback, by either form.
    */
  lemma NoRejectedBackendContacted(
    c: ProxyConfig, s: Selection, path: string, attempts: seq<Attempt>, name: string)
    requires WellNamed(c) && PrimaryFor(c, s).Some?
    requires |attempts| == 1 + |FallbackChain(c, PrimaryFor(c, s).value.name)|
    ensures var attempted := [PrimaryFor(c, s).value] + FallbackChain(c, PrimaryFor(c, s).value.name);
      && (Contact(name) in PostTrace(attempted, attempts, path) ==> MayContact(c, name))
      && (Contact(name) in StreamTrace(attempted, attempts, path) ==> MayContact(c, name))
  {
    var primary := PrimaryFor(c, s).value;
    PrimaryMayBeContacted(c, s);
    var attempted := [primary] + FallbackChain(c, primary.name);
    forall b | b in attempted && b.name == name ensures MayContact(c, name) {
      AttemptedMayBeContacted(c, primary, name, b);
    }
    if Contact(name) in PostTrace(attempted, attempts, path) {
      PostContactsAttempted(attempted, attempts, path, name);
    }
    if Contact(name) in StreamTrace(attempted, attempts, path) {
      StreamContactsAttempted(attempted, attempts, path, name);
    }
  }

  lemma PrimaryMayBeContacted(c: ProxyConfig, s: Selection)
    requires WellNamed(c) && PrimaryFor(c, s).Some?
    ensures MayContact(c, PrimaryFor(c, s).value.name)
  {
    match s
    case ByEngine(engine) => EngineBackendIff(c, engine);
    case Manually(m, clientModel) => ManualSelectionIsBounded(c, m, clientModel);
  }

  /** The backend chosen for an engine may be contacted, and nothing else is chosen. */
  lemma EngineBackendIff(c: ProxyConfig, engine: string)
    requires WellNamed(c)
    ensures var chosen := BackendForEngine(c, engine);
      && (chosen.Some? <==> engine in c.engineBackends && MayContact(c, c.engineBackends[engine]))
      && (chosen.Some? ==> chosen.value.name == c.engineBackends[engine])
  {
  }

  // ---------------------------------------------------------------- manual routing

  datatype ManualSettings = ManualSettings(
    defaultBackend: Option<string>,
    defaultModel: Option<string>,
    respectClientModel: bool,
    rejectUnknownModel: bool)

  datatype ManualError = ManualConfigInvalid | BackendPolicyRejected | BackendMissing | UnknownModel

  datatype ManualSelection = ManualSelection(backend: Backend, model: string)

  predicate ModelAllowed(b: Backend, defaultModel: string, requested: string) {
    (requested == defaultModel && !Blank(defaultModel)) || (requested == b.model && !Blank(b.model))
  }

  function SelectManually(c: ProxyConfig, m: ManualSettings, clientModel: Option<string>)
    : Result<ManualSelection, ManualError>
  {
    if m.defaultBackend.None? || m.defaultBackend.value == "" || m.defaultModel.None? || m.defaultModel.value == ""
    then Err(ManualConfigInvalid)
    else if PolicyRejects(c, m.defaultBackend.value) then Err(BackendPolicyRejected)
    else if m.defaultBackend.value !in c.backends then Err(BackendMissing)
    else
      var backend := c.backends[m.defaultBackend.value];
      if m.respectClientModel && clientModel.Some? && !Blank(clientModel.value) then
        var requested := Strip(clientModel.value);
        if ModelAllowed(backend, m.defaultModel.value, requested) then Ok(ManualSelection(backend, requested))
        else if m.rejectUnknownModel then Err(UnknownModel)
        else Ok(ManualSelection(backend, m.defaultModel.value))
      else Ok(ManualSelection(backend, m.defaultModel.value))
  }

  /**
    * Manual routing sends only to the configured backend, only when the policy admits it, and
    * only for the default model or the backend's own, whatever the client asks for.
    */
  lemma ManualSelectionIsBounded(c: ProxyConfig, m: ManualSettings, clientModel: Option<string>)
    requires WellNamed(c)
    ensures var r := SelectManually(c, m, clientModel);
      && (r.Ok? ==>
            && m.defaultBackend == Some(r.value.backend.name)
            && MayContact(c, r.value.backend.name)
            && (Some(r.value.model) == m.defaultModel || r.value.model == r.value.backend.model))
      && (r.Ok? && Some(r.value.model) != m.defaultModel ==>
            m.respectClientModel && clientModel.Some? && r.value.model == Strip(clientModel.value))
  {
  }

  /** The client's model counts: the operator respects it and the client named one. */
  predicate ClientAsks(m: ManualSettings, clientModel: Option<string>) {
    m.respectClientModel && clientModel.Some? && !Blank(clientModel.value)
  }

  predicate Given(setting: Option<string>) {
    setting.Some? && setting.value != ""
  }

  /** A backend serves the default model and its own, unless blank. */
  ghost predicate Serves(m: ManualSettings, b: Backend, model: string) {
    !Blank(model) && (Some(model) == m.defaultModel || model == b.model)
  }

  /**
    * Manual routing, case by case: it fails on missing settings, then on a rejected backend, then
    * on one that is not configured, then on an unknown client model if those are refused; a
    * served client model is used, stripped, and in every other case the default one.
    */
  lemma ManualSelectionCases(c: ProxyConfig, m: ManualSettings, clientModel: Option<string>)
    requires WellNamed(c)
    ensures var r := SelectManually(c, m, clientModel);
      && (r == Err(ManualConfigInvalid) <==> !Given(m.defaultBackend) || !Given(m.defaultModel))
      && (Given(m.defaultBackend) && Given(m.defaultModel) ==>
            var name := m.defaultBackend.value;
            var asked := if ClientAsks(m, clientModel) then Strip(clientModel.value) else m.defaultModel.value;
            && (r == Err(BackendPolicyRejected) <==>
                  name in c.denylist || (c.allowlist != [] && name !in c.allowlist))
            && (r == Err(BackendMissing) <==>
                  name !in c.denylist && (c.allowlist == [] || name in c.allowlist) && name !in c.backends)
            && (MayContact(c, name) ==>
                  var b := c.backends[name];
                  && (r == Err(UnknownModel) <==>
                        ClientAsks(m, clientModel) && !Serves(m, b, asked) && m.rejectUnknownModel)
                  && (r.Ok? ==>
                        && r.value.backend == b
                        && r.value.model
                           == if ClientAsks(m, clientModel) && Serves(m, b, asked) then asked
                              else m.defaultModel.value)))
  {
    if ClientAsks(m, clientModel) {
      StripTwice(clientModel.value);
      if Given(m.defaultBackend) && Given(m.defaultModel) && MayContact(c, m.defaultBackend.value) {
        var b := c.backends[m.defaultBackend.value];
        assert ModelAllowed(b, m.defaultModel.value, Strip(clientModel.value))
          <==> Serves(m, b, Strip(clientModel.value));
      }
    }
  }
}
