/**
 * The middleware stack. Middleware are queued in the order they are added;
 * handling a request builds, from a copy of the queue, a chain of handlers by
 * repeatedly popping the LAST middleware and wrapping it around the handler
 * built so far, starting from a terminal handler that answers 404 "No
 * middleware processed the request". The first middleware added therefore
 * runs outermost: it sees the request first and the response last.
 *
 * A middleware's `handle($request, $next)` is arbitrary code. Here it is the
 * `Decision` it takes for the request it receives: answer without calling
 * `$next`, throw without calling it, or call it once with some request and
 * then turn what it returned (or threw) into its own result. Each run also
 * yields a trace of `Event`s so the order of entering and leaving can be
 * stated.
 */
module MiddlewareStack {
  import opened Wrappers
  import opened Failures
  import Requests
  import Responses
  import ExceptionHandler

  type Request = Requests.Request
  type Response = Responses.Response

  /** What a middleware does with the request it receives. */
  datatype Decision =
    | Answer(response: Response)
    | Throw(failure: Failure)
    | Delegate(forward: Request, finish: Outcome<Response> -> Outcome<Response>)

  datatype Middleware = Middleware(decide: Request -> Decision)

  /** The queue of middleware, first added first. */
  datatype Stack = Stack(middlewares: seq<Middleware>)

  function Empty(): Stack {
    Stack([])
  }

  /** `addMiddleware`: enqueue at the back. */
  function AddMiddleware(s: Stack, m: Middleware): (s': Stack)
    ensures |s'.middlewares| == |s.middlewares| + 1
    ensures s'.middlewares[..|s.middlewares|] == s.middlewares
    ensures s'.middlewares[|s.middlewares|] == m
  {
    Stack(s.middlewares + [m])
  }

  const UnhandledText := "No middleware processed the request"

  /** What the terminal handler answers. */
  function Unhandled(): (r: Response)
    ensures r.content == UnhandledText && r.statusCode == 404 && Responses.GetHeader(r, "Content-Type") == None
  {
    Responses.Create(UnhandledText, 404, [])
  }

  /** A handler: the terminal one, or middleware number `index` wrapped around the next handler. */
  datatype Handler = Terminal | Layer(index: nat, middleware: Middleware, next: Handler)

  datatype Event =
    | Entered(index: nat, request: Request)  // middleware `index` was called
    | Resumed(index: nat)                    // its `$next` returned or threw
    | ReachedTerminal                        // the terminal handler was called

  /** Calling a handler: its outcome and the events, in order. */
  function Invoke(h: Handler, req: Request): (Outcome<Response>, seq<Event>) {
    match h
    case Terminal => (Ok(Unhandled()), [ReachedTerminal])
    case Layer(i, m, next) =>
      match m.decide(req)
      case Answer(resp) => (Ok(resp), [Entered(i, req)])
      case Throw(f) => (Err(f), [Entered(i, req)])
      case Delegate(fwd, finish) =>
        var (inner, trace) := Invoke(next, fwd);
        (finish(inner), [Entered(i, req)] + trace + [Resumed(i)])
  }

  /** The chain read front to back: middleware k wraps the chain of those added after it. */
  function Nest(ms: seq<Middleware>, k: nat): Handler
    requires k <= |ms|
    decreases |ms| - k
  {
    if k == |ms| then Terminal else Layer(k, ms[k], Nest(ms, k + 1))
  }

  /**
   * `handle`: pop from the back of a copy of the queue, wrapping each popped
   * middleware around the handler built so far, then call the result. The
   * chain so built is the front-to-back one: the first middleware added is
   * called first.
   */
  method Handle(s: Stack, request: Request) returns (outcome: Outcome<Response>, trace: seq<Event>)
    ensures (outcome, trace) == Invoke(Nest(s.middlewares, 0), request)
    ensures s.middlewares == [] ==> outcome == Ok(Unhandled()) && trace == [ReachedTerminal]
    ensures s.middlewares != [] ==> trace[0] == Entered(0, request)
  {
    var queue := s.middlewares;
    var handler := Terminal;
    while queue != []
      invariant queue == s.middlewares[..|queue|]
      invariant handler == Nest(s.middlewares, |queue|)
      decreases |queue|
    {
      var m := queue[|queue| - 1];
      queue := queue[..|queue| - 1];
      handler := Layer(|queue|, m, handler);
    }
    var result := Invoke(handler, request);
    outcome, trace := result.0, result.1;
  }

  // ---------------------------------------------------------------------------
  // Properties
  // ---------------------------------------------------------------------------

  ghost predicate AlwaysDelegates(m: Middleware) {
    forall r :: m.decide(r).Delegate?
  }

  /** The middleware answers or throws by itself and never calls `$next`. */
  ghost predicate NeverDelegates(m: Middleware) {
    forall r :: !m.decide(r).Delegate?
  }

  /**
   * The trace of an onion of `n` layers numbered from `first`: entered in
   * increasing order, then the terminal handler, then left in decreasing order.
   */
  ghost predicate IsOnion(t: seq<Event>, first: nat, n: nat) {
    && |t| == 2 * n + 1
    && (forall j :: 0 <= j < n ==> t[j].Entered? && t[j].index == first + j)
    && t[n] == ReachedTerminal
    && (forall j :: n < j < 2 * n + 1 ==> t[j] == Resumed(first + 2 * n - j))
  }

  /**
   * The onion: when every middleware calls `$next`, they are entered in the
   * order they were added, the terminal handler is reached once, and they are
   * left in the reverse order.
   */
  lemma {:induction false} OnionOrder(ms: seq<Middleware>, k: nat, req: Request)
    requires k <= |ms|
    requires forall i :: k <= i < |ms| ==> AlwaysDelegates(ms[i])
    ensures IsOnion(Invoke(Nest(ms, k), req).1, k, |ms| - k)
    decreases |ms| - k
  {
    if k < |ms| {
      var d := ms[k].decide(req);
      assert d.Delegate?;
      OnionOrder(ms, k + 1, d.forward);
      var inner := Invoke(Nest(ms, k + 1), d.forward).1;
      assert Invoke(Nest(ms, k), req).1 == [Entered(k, req)] + inner + [Resumed(k)] by {
        assert Nest(ms, k) == Layer(k, ms[k], Nest(ms, k + 1));
      }
      WrapOnion(inner, k, |ms| - k, req);
    }
  }

  /** Wrapping an onion trace in one more layer gives an onion trace one layer deeper. */
  lemma WrapOnion(inner: seq<Event>, k: nat, n: nat, req: Request)
    requires n > 0 && IsOnion(inner, k + 1, n - 1)
    ensures IsOnion([Entered(k, req)] + inner + [Resumed(k)], k, n)
  {
    var t := [Entered(k, req)] + inner + [Resumed(k)];
    forall j | 0 <= j < n
      ensures t[j].Entered? && t[j].index == k + j
    {
      if j > 0 {
        assert t[j] == inner[j - 1];
      }
    }
    assert t[n] == inner[n - 1];
    forall j | n < j < 2 * n + 1
      ensures t[j] == Resumed(k + 2 * n - j)
    {
      if j < 2 * n {
        assert t[j] == inner[j - 1];
      }
    }
  }

  /**
   * A middleware that answers or throws without calling `$next` hides
   * everything after it: the outcome and trace are those of the stack cut
   * just after it, and the terminal handler is never reached.
   */
  lemma {:induction false} ShortCircuit(ms: seq<Middleware>, j: nat, k: nat, req: Request)
    requires k <= j < |ms|
    requires NeverDelegates(ms[j])
    ensures Invoke(Nest(ms, k), req) == Invoke(Nest(ms[..j + 1], k), req)
    ensures ReachedTerminal !in Invoke(Nest(ms, k), req).1
    ensures forall e :: e in Invoke(Nest(ms, k), req).1 && e.Entered? ==> k <= e.index <= j
    decreases j - k
  {
    var cut := ms[..j + 1];
    var d := ms[k].decide(req);
    assert Nest(ms, k) == Layer(k, ms[k], Nest(ms, k + 1));
    assert Nest(cut, k) == Layer(k, ms[k], Nest(cut, k + 1));
    if k < j && d.Delegate? {
      ShortCircuit(ms, j, k + 1, d.forward);
      var inner := Invoke(Nest(ms, k + 1), d.forward).1;
      assert Invoke(Nest(ms, k), req).1 == [Entered(k, req)] + inner + [Resumed(k)];
    }
  }

  /** The terminal answer of an empty stack, whatever the request. */
  lemma EmptyStackAnswers404(req: Request)
    ensures Invoke(Nest(Empty().middlewares, 0), req) == (Ok(Unhandled()), [ReachedTerminal])
    ensures Unhandled().statusCode == 404
  {
  }

  // ---------------------------------------------------------------------------
  // Example middleware
  // ---------------------------------------------------------------------------

  /** Calls `$next`, then answers 200 with the inner content followed by `tag`. */
  function Appender(tag: string): Middleware {
    Middleware(r => Delegate(r, (o: Outcome<Response>) => match o
                                     case Ok(inner) => Ok(Responses.Create(inner.content + tag, 200, []))
                                     case Err(f) => Err(f)))
  }

  /** Answers 200 with a fixed text without calling `$next`. */
  function Fixed(text: string): Middleware {
    Middleware(r => Answer(Responses.Create(text, 200, [])))
  }

  /** What the translator does with the outcome of `$next`: a thrown failure becomes the handler's response. */
  function Translate(o: Outcome<Response>): (r: Outcome<Response>)
    ensures r.Ok?
    ensures o.Ok? ==> r == o
    ensures o.Err? ==> r.value == ExceptionHandler.Handle(o.error)
  {
    match o
    case Ok(resp) => Ok(resp)
    case Err(f) => Ok(ExceptionHandler.Handle(f))
  }

  /** Calls `$next` and translates what it throws. */
  function Translator(): Middleware {
    Middleware(r => Delegate(r, Translate))
  }

  function Appenders(tags: seq<string>): (ms: seq<Middleware>)
    ensures |ms| == |tags|
    ensures forall i :: 0 <= i < |tags| ==> ms[i] == Appender(tags[i])
  {
    seq(|tags|, i requires 0 <= i < |tags| => Appender(tags[i]))
  }

  /** The tags from last to first, concatenated. */
  function Reversed(tags: seq<string>): string {
    if tags == [] then "" else Reversed(tags[1..]) + tags[0]
  }

  /**
   * Appenders added in order t0, t1, ... produce the terminal text followed by
   * the tags in reverse order: the innermost middleware appends first.
   */
  lemma {:induction false} AppendersReverse(tags: seq<string>, k: nat, req: Request)
    requires k <= |tags|
    ensures var r := Invoke(Nest(Appenders(tags), k), req).0;
            && r.Ok?
            && r.value.content == UnhandledText + Reversed(tags[k..])
            && r.value.statusCode == (if k == |tags| then 404 else 200)
    decreases |tags| - k
  {
    var ms := Appenders(tags);
    if k == |tags| {
      assert tags[k..] == [];
    } else {
      AppendersReverse(tags, k + 1, req);
      var inner := Invoke(Nest(ms, k + 1), req).0;
      AppenderLayer(ms, k, tags[k], req);
      assert tags[k..][1..] == tags[k + 1..];
      assert Reversed(tags[k..]) == Reversed(tags[k + 1..]) + tags[k];
      assert UnhandledText + Reversed(tags[k..]) == inner.value.content + tags[k];
    }
  }

  /** One appending layer: the inner response's content with the tag added, status 200. */
  lemma AppenderLayer(ms: seq<Middleware>, k: nat, tag: string, req: Request)
    requires k < |ms| && ms[k] == Appender(tag)
    requires Invoke(Nest(ms, k + 1), req).0.Ok?
    ensures Invoke(Nest(ms, k), req).0
         == Ok(Responses.Create(Invoke(Nest(ms, k + 1), req).0.value.content + tag, 200, []))
  {
    assert Nest(ms, k) == Layer(k, Appender(tag), Nest(ms, k + 1));
  }

  /** Two appending middleware: "...requestMiddleware2 Middleware1 ". */
  lemma TwoAppenders(req: Request)
    ensures var ms := AddMiddleware(AddMiddleware(Empty(), Appender("Middleware1 ")), Appender("Middleware2 ")).middlewares;
            var r := Invoke(Nest(ms, 0), req).0;
            && r.Ok?
            && r.value.content == UnhandledText + "Middleware2 " + "Middleware1 "
            && r.value.statusCode == 200
  {
    var tags := ["Middleware1 ", "Middleware2 "];
    var ms := AddMiddleware(AddMiddleware(Empty(), Appender("Middleware1 ")), Appender("Middleware2 ")).middlewares;
    assert ms == Appenders(tags);
    AppendersReverse(tags, 0, req);
    assert tags[0..] == tags;
    assert tags[1..] == ["Middleware2 "];
    assert tags[1..][1..] == [];
    assert Reversed(tags[1..]) == "" + "Middleware2 ";
    assert Reversed(tags) == "" + "Middleware2 " + "Middleware1 ";
  }

  /** A first middleware that answers on its own stops propagation: "Final response". */
  lemma StopsPropagation(req: Request)
    ensures var ms := AddMiddleware(AddMiddleware(Empty(), Fixed("Final response")), Appender("Middleware2 ")).middlewares;
            Invoke(Nest(ms, 0), req) == (Ok(Responses.Create("Final response", 200, [])), [Entered(0, req)])
  {
  }

  /**
   * A stack whose first middleware is the translator never throws: whatever a
   * later middleware throws comes back as the exception handler's response,
   * with the status its family calls for.
   */
  lemma TranslatorCatchesEverything(rest: seq<Middleware>, req: Request)
    ensures var r := Invoke(Nest([Translator()] + rest, 0), req).0;
            && r == Translate(Invoke(Nest(rest, 0), req).0)
            && r.Ok?
  {
    var ms := [Translator()] + rest;
    NestShift(rest, ms, 0, req);
    assert Invoke(Nest(ms, 0), req).0 == Translate(Invoke(Nest(ms, 1), req).0) by {
      assert ms[0] == Translator();
      assert Nest(ms, 0) == Layer(0, Translator(), Nest(ms, 1));
    }
  }

  /** Nesting a suffix renumbers the middleware but calls the same ones with the same requests. */
  lemma {:induction false} NestShift(rest: seq<Middleware>, ms: seq<Middleware>, k: nat, req: Request)
    requires |ms| == |rest| + 1 && ms[1..] == rest
    requires k <= |rest|
    ensures Invoke(Nest(ms, k + 1), req).0 == Invoke(Nest(rest, k), req).0
    decreases |rest| - k
  {
    if k < |rest| {
      assert ms[k + 1] == rest[k];
      var d := rest[k].decide(req);
      if d.Delegate? {
        NestShift(rest, ms, k + 1, d.forward);
      }
    }
  }

  /** Throws `f` without calling `$next`. */
  function Thrower(f: Failure): Middleware {
    Middleware(r => Throw(f))
  }

  /**
   * A failure thrown behind the translator comes back as the exception
   * handler's response; a bad request, for one, as a 400.
   */
  lemma ThrownBehindTranslator(f: Failure, req: Request)
    ensures Invoke(Nest([Translator(), Thrower(f)], 0), req).0 == Ok(ExceptionHandler.Handle(f))
    ensures f == BadRequestException(f.message) ==> Invoke(Nest([Translator(), Thrower(f)], 0), req).0.value.statusCode == 400
  {
    TranslatorCatchesEverything([Thrower(f)], req);
    assert [Translator()] + [Thrower(f)] == [Translator(), Thrower(f)];
    assert Invoke(Nest([Thrower(f)], 0), req).0 == Err(f) by {
      assert Nest([Thrower(f)], 0) == Layer(0, Thrower(f), Terminal);
    }
  }
}
