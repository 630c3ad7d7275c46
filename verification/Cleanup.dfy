/** What pthread_cleanup_push and pthread_cleanup_pop mean, and theorems about them. */
module Cleanup {

  datatype Handler = Handler(routine: nat, arg: nat)

  datatype CancelType = Deferred | Asynchronous

  /** When a cancellation request is acted on: never, or at the cancellation point after n others. */
  datatype Request = Never | After(n: nat)

  /** Straight-line programs with nested push/pop blocks. */
  datatype Prog =
    | End
    | Work(id: nat, rest: Prog)
    | SetType(ctype: CancelType, rest: Prog)
    | TestCancel(rest: Prog)
    | Exit
    | Break  // leaves the body of the innermost block
    | Scope(defers: bool, h: Handler, body: Prog, execute: int, rest: Prog)

  /** Calls of handlers and other work, and marks for entering and leaving a block:
      Popped when its pop code runs, Left when it is left without it. */
  datatype Event =
    | Did(id: nat)
    | Pushed(h: Handler)
    | Popped(h: Handler, execute: int)
    | Left(h: Handler)
    | Called(h: Handler)

  datatype Thread = Thread(trace: seq<Event>, ctype: CancelType, request: Request) {
    function Log(e: Event): Thread {
      this.(trace := trace + [e])
    }

    /** One more cancellation point has been passed. */
    function Tick(): Thread {
      if request.After? && request.n > 0 then this.(request := After(request.n - 1)) else this
    }
  }

  datatype Outcome = Fell | Broke | Cancelled

  datatype Result = Result(out: Outcome, t: Thread)

  /** Does break inside a body skip the code of the pop, or does it reach it? */
  datatype Style = SkipsPop | ReachesPop

  function CalledAll(open: seq<Handler>): seq<Event> {
    seq(|open|, i requires 0 <= i < |open| => Called(open[i]))
  }

  function Unwound(t: Thread, open: seq<Handler>): Result {
    Result(Cancelled, t.(trace := t.trace + CalledAll(open)))
  }

  function Pop(t: Thread, entry: CancelType, defers: bool, h: Handler, execute: int): Thread {
    var u := (if defers then t.(ctype := entry) else t).Log(Popped(h, execute));
    if execute != 0 then u.Log(Called(h)) else u
  }

  /** open: the handlers pushed and not yet popped, the innermost first. */
  function Eval(style: Style, p: Prog, t: Thread, open: seq<Handler>): Result {
    match p
    case End => Result(Fell, t)
    case Work(id, rest) => Eval(style, rest, t.Log(Did(id)), open)
    case SetType(c, rest) => Eval(style, rest, t.(ctype := c), open)
    case TestCancel(rest) => if t.request == After(0) then Unwound(t, open) else Eval(style, rest, t.Tick(), open)
    case Exit => Unwound(t, open)
    case Break => Result(Broke, t)
    case Scope(defers, h, body, execute, rest) =>
      var start := t.Log(Pushed(h));
      var r := Eval(style, body, if defers then start.(ctype := Deferred) else start, [h] + open);
      if r.out.Cancelled? then r
      else if r.out.Broke? && style.SkipsPop? then Eval(style, rest, r.t.Log(Left(h)).Log(Called(h)), open)
      else Eval(style, rest, Pop(r.t, t.ctype, defers, h, execute), open)
  }

  // ----- unwinding block by block is unwinding the whole chain at once

  /** Extending the chain of open handlers only appends their calls to a cancelled run. */
  lemma {:induction false} OpenOnlyAppends(style: Style, p: Prog, t: Thread, inner: seq<Handler>, outer: seq<Handler>)
    ensures var r, q := Eval(style, p, t, inner + outer), Eval(style, p, t, inner);
            r == if q.out.Cancelled? then Unwound(q.t, outer) else q
  {
    match p
    case End =>
    case Break =>
    case Work(id, rest) => OpenOnlyAppends(style, rest, t.Log(Did(id)), inner, outer);
    case SetType(c, rest) => OpenOnlyAppends(style, rest, t.(ctype := c), inner, outer);
    case TestCancel(rest) =>
      CalledAllConcat(inner, outer);
      OpenOnlyAppends(style, rest, t.Tick(), inner, outer);
    case Exit => CalledAllConcat(inner, outer);
    case Scope(defers, h, body, execute, rest) =>
      var start := t.Log(Pushed(h));
      var entered := if defers then start.(ctype := Deferred) else start;
      assert [h] + (inner + outer) == ([h] + inner) + outer;
      OpenOnlyAppends(style, body, entered, [h] + inner, outer);
      var u := Eval(style, body, entered, [h] + inner).t;
      OpenOnlyAppends(style, rest, u.Log(Left(h)).Log(Called(h)), inner, outer);
      OpenOnlyAppends(style, rest, Pop(u, t.ctype, defers, h, execute), inner, outer);
  }

  lemma UnwoundFew(t: Thread, h: Handler)
    ensures Unwound(t, []) == Result(Cancelled, t)
    ensures Unwound(t, [h]) == Result(Cancelled, t.Log(Called(h)))
  {
  }

  lemma CalledAllConcat(inner: seq<Handler>, outer: seq<Handler>)
    ensures CalledAll(inner + outer) == CalledAll(inner) + CalledAll(outer)
  {
  }

  // ----- exactly once

  datatype Verdict = Rejected | Accepted(open: seq<Handler>)

  /** Reads a trace on its own: follows the marks, and accepts a call only right after the mark that
      demands it: a pop with non-zero execute, or a block left without its pop. */
  function Monitor(trace: seq<Event>, open: seq<Handler>): Verdict
    decreases |trace|
  {
    if trace == [] then Accepted(open)
    else match trace[0]
      case Did(_) => Monitor(trace[1..], open)
      case Pushed(h) => Monitor(trace[1..], [h] + open)
      case Called(_) => Rejected
      case Popped(h, execute) =>
        if open == [] || open[0] != h then Rejected
        else if execute == 0 then Monitor(trace[1..], open[1..])
        else if |trace| > 1 && trace[1] == Called(h) then Monitor(trace[2..], open[1..])
        else Rejected
      case Left(h) =>
        if open == [] || open[0] != h then Rejected
        else if |trace| > 1 && trace[1] == Called(h) then Monitor(trace[2..], open[1..])
        else Rejected
  }

  lemma {:induction false} MonitorConcat(a: seq<Event>, b: seq<Event>, open: seq<Handler>)
    requires Monitor(a, open).Accepted?
    ensures Monitor(a + b, open) == Monitor(b, Monitor(a, open).open)
    decreases |a|
  {
    if a == [] {
      assert a + b == b;
    } else {
      assert (a + b)[1..] == a[1..] + b;
      var two := (a[0].Popped? && a[0].execute != 0) || a[0].Left?;
      if two {
        assert (a + b)[2..] == a[2..] + b;
        MonitorConcat(a[2..], b, open[1..]);
      } else {
        MonitorConcat(a[1..], b, if a[0].Pushed? then [a[0].h] + open else if a[0].Popped? then open[1..] else open);
      }
    }
  }

  /** r's trace adds ran to t's, and after it the calls of the handlers still open when it was cancelled. */
  ghost predicate Explains(t: Thread, open: seq<Handler>, r: Result, ran: seq<Event>, still: seq<Handler>) {
    && Monitor(ran, open) == Accepted(still)
    && (if r.out.Cancelled? then r.t.trace == t.trace + ran + CalledAll(still)
        else r.t.trace == t.trace + ran && still == open)
  }

  lemma ExplainsAfter(t: Thread, open: seq<Handler>, first: seq<Event>, mid: seq<Handler>, u: Thread,
                      r: Result, ran: seq<Event>, still: seq<Handler>)
    requires Monitor(first, open) == Accepted(mid) && u.trace == t.trace + first
    requires Explains(u, mid, r, ran, still)
    requires !r.out.Cancelled? ==> mid == open
    ensures Explains(t, open, r, first + ran, still)
  {
    MonitorConcat(first, ran, open);
    assert t.trace + first + ran == t.trace + (first + ran);
  }

  /** A handler popped is called at its pop exactly when execute is non-zero, and never otherwise.
      When the thread is cancelled, exactly the handlers pushed and not yet popped are called after that,
      each once, the last pushed first; when it is not, every handler has been popped. */
  lemma {:induction false} ExactlyOnce(style: Style, p: Prog, t: Thread, open: seq<Handler>)
    returns (ran: seq<Event>, still: seq<Handler>)
    ensures Explains(t, open, Eval(style, p, t, open), ran, still)
    decreases p
  {
    match p
    case End => ran, still := [], open;
    case Break => ran, still := [], open;
    case Exit => ran, still := [], open;
    case Work(id, rest) =>
      ran, still := ExactlyOnce(style, rest, t.Log(Did(id)), open);
      ExplainsAfter(t, open, [Did(id)], open, t.Log(Did(id)), Eval(style, p, t, open), ran, still);
      ran := [Did(id)] + ran;
    case SetType(c, rest) => ran, still := ExactlyOnce(style, rest, t.(ctype := c), open);
    case TestCancel(rest) =>
      if t.request == After(0) {
        ran, still := [], open;
      } else {
        ran, still := ExactlyOnce(style, rest, t.Tick(), open);
      }
    case Scope(defers, h, body, execute, rest) => ran, still := ScopeExactlyOnce(style, p, t, open);
  }

  lemma {:induction false} ScopeExactlyOnce(style: Style, p: Prog, t: Thread, open: seq<Handler>)
    returns (ran: seq<Event>, still: seq<Handler>)
    requires p.Scope?
    ensures Explains(t, open, Eval(style, p, t, open), ran, still)
    decreases p, 0
  {
    hide Monitor, CalledAll;
    var h := p.h;
    var start := t.Log(Pushed(h));
    var entered := if p.defers then start.(ctype := Deferred) else start;
    var r := Eval(style, p.body, entered, [h] + open);
    var inside, within := ExactlyOnce(style, p.body, entered, [h] + open);
    MonitorMarks(h, p.execute, open);
    if r.out.Cancelled? {
      ExplainsAfter(t, open, [Pushed(h)], [h] + open, entered, r, inside, within);
      ran, still := [Pushed(h)] + inside, within;
    } else {
      var marks := if r.out.Broke? && style.SkipsPop? then [Left(h), Called(h)]
                   else if p.execute != 0 then [Popped(h, p.execute), Called(h)] else [Popped(h, p.execute)];
      var after := if r.out.Broke? && style.SkipsPop? then r.t.Log(Left(h)).Log(Called(h))
                   else Pop(r.t, t.ctype, p.defers, h, p.execute);
      assert after.trace == r.t.trace + marks;
      var later, end := ExactlyOnce(style, p.rest, after, open);
      MonitorConcat([Pushed(h)], inside, open);
      MonitorConcat([Pushed(h)] + inside, marks, open);
      assert after.trace == t.trace + ([Pushed(h)] + inside + marks);
      ExplainsAfter(t, open, [Pushed(h)] + inside + marks, open, after, Eval(style, p, t, open), later, end);
      ran, still := [Pushed(h)] + inside + marks + later, end;
    }
  }

  lemma MonitorMarks(h: Handler, execute: int, open: seq<Handler>)
    ensures Monitor([Pushed(h)], open) == Accepted([h] + open)
    ensures Monitor([Left(h), Called(h)], [h] + open) == Accepted(open)
    ensures execute != 0 ==> Monitor([Popped(h, execute), Called(h)], [h] + open) == Accepted(open)
    ensures execute == 0 ==> Monitor([Popped(h, execute)], [h] + open) == Accepted(open)
  {
  }

  // ----- the cancellation type

  /** How a program ends when it is not cancelled from outside. */
  function Ends(p: Prog): Outcome {
    match p
    case End => Fell
    case Exit => Cancelled
    case Break => Broke
    case Work(_, rest) => Ends(rest)
    case SetType(_, rest) => Ends(rest)
    case TestCancel(rest) => Ends(rest)
    case Scope(_, _, body, _, rest) => if Ends(body).Cancelled? then Cancelled else Ends(rest)
  }

  lemma {:induction false} EndsAsSaid(style: Style, p: Prog, t: Thread, open: seq<Handler>)
    ensures var r := Eval(style, p, t, open);
            && (!r.out.Cancelled? ==> r.out == Ends(p))
            && (t.request.Never? ==> r.out == Ends(p) && r.t.request.Never?)
  {
    match p
    case Work(id, rest) => EndsAsSaid(style, rest, t.Log(Did(id)), open);
    case SetType(c, rest) => EndsAsSaid(style, rest, t.(ctype := c), open);
    case TestCancel(rest) => EndsAsSaid(style, rest, t.Tick(), open);
    case Scope(defers, h, body, execute, rest) =>
      var start := t.Log(Pushed(h));
      var entered := if defers then start.(ctype := Deferred) else start;
      EndsAsSaid(style, body, entered, [h] + open);
      var u := Eval(style, body, entered, [h] + open).t;
      EndsAsSaid(style, rest, u.Log(Left(h)).Log(Called(h)), open);
      EndsAsSaid(style, rest, Pop(u, t.ctype, defers, h, execute), open);
    case _ =>
  }

  // ----- cancellation points

  /** The cancellation points a program passes when it is not cancelled; what follows a block that exits
      is not reached. */
  function Points(p: Prog): nat {
    match p
    case Work(_, rest) => Points(rest)
    case SetType(_, rest) => Points(rest)
    case TestCancel(rest) => 1 + Points(rest)
    case Scope(_, _, body, _, rest) => Points(body) + if Ends(body).Cancelled? then 0 else Points(rest)
    case _ => 0
  }

  /** The program with the point it passes after n others made an exit. */
  function CutAt(p: Prog, n: nat): Prog
    requires n < Points(p)
  {
    match p
    case Work(id, rest) => Work(id, CutAt(rest, n))
    case SetType(c, rest) => SetType(c, CutAt(rest, n))
    case TestCancel(rest) => if n == 0 then Exit else TestCancel(CutAt(rest, n - 1))
    case Scope(defers, h, body, execute, rest) =>
      if n < Points(body) then Scope(defers, h, CutAt(body, n), execute, rest)
      else Scope(defers, h, body, execute, CutAt(rest, n - Points(body)))
  }

  /** The same run, with a request left that is due after n more points. */
  function Pending(r: Result, n: nat): Result {
    Result(r.out, r.t.(request := After(n)))
  }

  /** What r must be when p starts in t with a request due after some points. */
  ghost predicate Answers(style: Style, p: Prog, t: Thread, open: seq<Handler>, r: Result) {
    t.request.After? ==>
      var n, calm := t.request.n, t.(request := Never);
      && (r.out.Cancelled? <==> n < Points(p) || Ends(p).Cancelled?)
      && r == if n < Points(p) then Pending(Eval(style, CutAt(p, n), calm, open), 0)
              else Pending(Eval(style, p, calm, open), n - Points(p))
  }

  lemma {:induction false} CutExits(p: Prog, n: nat)
    requires n < Points(p)
    ensures Ends(CutAt(p, n)).Cancelled?
  {
    match p
    case Work(_, rest) => CutExits(rest, n);
    case SetType(_, rest) => CutExits(rest, n);
    case TestCancel(rest) =>
      if n > 0 {
        CutExits(rest, n - 1);
      }
    case Scope(_, _, body, _, rest) =>
      if n < Points(body) {
        CutExits(body, n);
      } else {
        CutExits(rest, n - Points(body));
      }
  }

  /** A request is acted on exactly at the point it names: a run that reaches that point is the run of the program
      that exits there, and one that does not is the run without the request. */
  lemma {:induction false} RequestActedOn(style: Style, p: Prog, t: Thread, open: seq<Handler>)
    ensures Answers(style, p, t, open, Eval(style, p, t, open))
  {
    match p
    case End =>
    case Exit =>
    case Break =>
    case Work(id, rest) => RequestActedOn(style, rest, t.Log(Did(id)), open);
    case SetType(c, rest) => RequestActedOn(style, rest, t.(ctype := c), open);
    case TestCancel(rest) => RequestActedOn(style, rest, t.Tick(), open);
    case Scope(defers, h, body, execute, rest) =>
      hide Answers, Eval, Points, CutAt;
      var entered := Entered(p, t);
      RequestActedOn(style, body, entered, [h] + open);
      RequestActedOn(style, rest, Leave(style, p, t, Eval(style, body, entered, [h] + open)), open);
      ScopeActedOn(style, p, t, open);
  }

  /** The thread at the start of p's body, and after its block, when r is the result of the body. */
  function Entered(p: Prog, t: Thread): Thread
    requires p.Scope?
  {
    var start := t.Log(Pushed(p.h));
    if p.defers then start.(ctype := Deferred) else start
  }

  function Leave(style: Style, p: Prog, t: Thread, r: Result): Thread
    requires p.Scope?
  {
    if r.out.Broke? && style.SkipsPop? then r.t.Log(Left(p.h)).Log(Called(p.h))
    else Pop(r.t, t.ctype, p.defers, p.h, p.execute)
  }

  lemma ScopeUnfolded(style: Style, p: Prog, t: Thread, open: seq<Handler>)
    requires p.Scope?
    ensures var r := Eval(style, p.body, Entered(p, t), [p.h] + open);
            Eval(style, p, t, open) == if r.out.Cancelled? then r else Eval(style, p.rest, Leave(style, p, t, r), open)
  {
  }

  lemma LeaveCalm(style: Style, p: Prog, t: Thread, r: Result, n: nat)
    requires p.Scope? && r.t.request.Never?
    ensures Leave(style, p, t, Pending(r, n)).(request := Never) == Leave(style, p, t.(request := Never), r)
    ensures Leave(style, p, t, Pending(r, n)).request == After(n)
    ensures Entered(p, t).(request := Never) == Entered(p, t.(request := Never))
    ensures Entered(p, t).request == t.request
  {
  }

  lemma ScopeActedOn(style: Style, p: Prog, t: Thread, open: seq<Handler>)
    requires p.Scope?
    requires var r := Eval(style, p.body, Entered(p, t), [p.h] + open);
             var v := Leave(style, p, t, r);
             && Answers(style, p.body, Entered(p, t), [p.h] + open, r)
             && Answers(style, p.rest, v, open, Eval(style, p.rest, v, open))
    ensures Answers(style, p, t, open, Eval(style, p, t, open))
  {
    hide Eval, Entered, Leave;
    var calm, inner := t.(request := Never), [p.h] + open;
    ScopeUnfolded(style, p, t, open);
    if t.request.After? {
      var n := t.request.n;
      var still := Eval(style, p.body, Entered(p, calm), inner);
      EndsAsSaid(style, p.body, Entered(p, calm), inner);
      LeaveCalm(style, p, t, Result(Fell, calm), n);
      if n < Points(p) {
        ScopeUnfolded(style, CutAt(p, n), calm, open);
        CutSame(style, p, calm, still, n);
      }
      if n >= Points(p.body) {
        LeaveCalm(style, p, t, still, n - Points(p.body));
        ScopeUnfolded(style, p, calm, open);
      }
    }
  }

  lemma CutSame(style: Style, p: Prog, t: Thread, r: Result, n: nat)
    requires p.Scope? && n < Points(p)
    ensures var q := CutAt(p, n);
            && q.Scope? && q.h == p.h && Entered(q, t) == Entered(p, t)
            && Leave(style, q, t, r) == Leave(style, p, t, r)
  {
  }

  /** The trace of one block that is run through; and setting the type outside any block. */
  lemma OneBlock(style: Style, t: Thread, defers: bool, h: Handler, id: nat, execute: int, c: CancelType)
    ensures var r := Eval(style, Scope(defers, h, Work(id, End), execute, End), t, []);
            r == Result(Fell, Thread(
              t.trace + [Pushed(h), Did(id), Popped(h, execute)] + (if execute != 0 then [Called(h)] else []),
              t.ctype, t.request))
    ensures Eval(style, SetType(c, End), t, []) == Result(Fell, Thread(t.trace, c, t.request))
  {
    var entered := Entered(Scope(defers, h, End, execute, End), t);
    assert Eval(style, Work(id, End), entered, [h]) == Result(Fell, entered.Log(Did(id)));
    assert [h] + [] == [h];
  }

  /** The trace and type of one block that is exited, or cancelled at its first point: nothing after that runs
      but the handler. */
  lemma OneBlockLeft(style: Style, t: Thread, defers: bool, h: Handler, id: nat, execute: int, after: Prog, rest: Prog)
    ensures forall last | last == Exit || (last == TestCancel(after) && t.request == After(0)) ::
              Eval(style, Scope(defers, h, Work(id, last), execute, rest), t, []) ==
                Result(Cancelled, Thread(t.trace + [Pushed(h), Did(id), Called(h)],
                                         if defers then Deferred else t.ctype, t.request))
  {
    forall last | last == Exit || (last == TestCancel(after) && t.request == After(0))
      ensures Eval(style, Scope(defers, h, Work(id, last), execute, rest), t, []) ==
                Result(Cancelled, Thread(t.trace + [Pushed(h), Did(id), Called(h)],
                                         if defers then Deferred else t.ctype, t.request))
    {
      var entered := Entered(Scope(defers, h, End, execute, End), t);
      assert Eval(style, Work(id, last), entered, [h]) == Unwound(entered.Log(Did(id)), [h]);
      UnwoundFew(entered.Log(Did(id)), h);
      assert [h] + [] == [h];
    }
  }

  predicate NoBreak(p: Prog) {
    match p
    case Break => false
    case SetType(_, rest) => NoBreak(rest)
    case Work(_, rest) => NoBreak(rest)
    case TestCancel(rest) => NoBreak(rest)
    case Scope(_, _, body, _, rest) => NoBreak(body) && NoBreak(rest)
    case _ => true
  }

  lemma {:induction false} NoBreakFalls(style: Style, p: Prog, t: Thread, open: seq<Handler>)
    requires NoBreak(p)
    ensures !Eval(style, p, t, open).out.Broke?
  {
    match p
    case Work(id, rest) => NoBreakFalls(style, rest, t.Log(Did(id)), open);
    case SetType(c, rest) => NoBreakFalls(style, rest, t.(ctype := c), open);
    case TestCancel(rest) => NoBreakFalls(style, rest, t.Tick(), open);
    case Scope(defers, h, body, execute, rest) =>
      var start := t.Log(Pushed(h));
      var entered := if defers then start.(ctype := Deferred) else start;
      NoBreakFalls(style, body, entered, [h] + open);
      var u := Eval(style, body, entered, [h] + open).t;
      NoBreakFalls(style, rest, Pop(u, t.ctype, defers, h, execute), open);
    case _ =>
  }

  /** What a program that is not cancelled does to the cancellation type. */
  datatype Effect = Keep | Fix(ctype: CancelType) {
    function Then(next: Effect): Effect {
      if next.Keep? then this else next
    }

    function Apply(c: CancelType): CancelType {
      if Keep? then c else ctype
    }
  }

  /** A deferring block gives back the type it found, unless its body skips the code of the pop. */
  function TypeEffect(style: Style, p: Prog): Effect {
    match p
    case Work(_, rest) => TypeEffect(style, rest)
    case SetType(c, rest) => Fix(c).Then(TypeEffect(style, rest))
    case TestCancel(rest) => TypeEffect(style, rest)
    case Scope(defers, _, body, _, rest) =>
      var inside := TypeEffect(style, body);
      var block := if !defers then inside
                   else if Ends(body).Broke? && style.SkipsPop? then Fix(Deferred).Then(inside)
                   else Keep;
      block.Then(TypeEffect(style, rest))
    case _ => Keep
  }

  lemma {:induction false} TypeAfter(style: Style, p: Prog, t: Thread, open: seq<Handler>)
    ensures var r := Eval(style, p, t, open);
            !r.out.Cancelled? ==> r.t.ctype == TypeEffect(style, p).Apply(t.ctype)
  {
    match p
    case Work(id, rest) => TypeAfter(style, rest, t.Log(Did(id)), open);
    case SetType(c, rest) => TypeAfter(style, rest, t.(ctype := c), open);
    case TestCancel(rest) => TypeAfter(style, rest, t.Tick(), open);
    case Scope(defers, h, body, execute, rest) =>
      var start := t.Log(Pushed(h));
      var entered := if defers then start.(ctype := Deferred) else start;
      TypeAfter(style, body, entered, [h] + open);
      EndsAsSaid(style, body, entered, [h] + open);
      var u := Eval(style, body, entered, [h] + open).t;
      TypeAfter(style, rest, u.Log(Left(h)).Log(Called(h)), open);
      TypeAfter(style, rest, Pop(u, t.ctype, defers, h, execute), open);
    case _ =>
  }

  /** A thread that is never cancelled, entering with a type other than c. */
  function Entering(c: CancelType): Thread {
    Thread([], if c.Deferred? then Asynchronous else Deferred, Never)
  }

  /** For every program and either style: each completed run ends with the type it started with exactly
      when the program always exits or its effect on the type is to keep it. */
  lemma TypeRestored(style: Style, p: Prog, open: seq<Handler>)
    ensures Ends(p).Cancelled? || TypeEffect(style, p).Keep? <==>
            forall t: Thread :: var r := Eval(style, p, t, open); !r.out.Cancelled? ==> r.t.ctype == t.ctype
  {
    var e := TypeEffect(style, p);
    if Ends(p).Cancelled? || e.Keep? {
      forall t: Thread
        ensures var r := Eval(style, p, t, open); !r.out.Cancelled? ==> r.t.ctype == t.ctype
      {
        TypeAfter(style, p, t, open);
        EndsAsSaid(style, p, t, open);
      }
    } else {
      var t := Entering(e.ctype);
      TypeAfter(style, p, t, open);
      EndsAsSaid(style, p, t, open);
    }
  }

  /** Every change of the cancellation type lies inside some deferring block. */
  predicate Guarded(p: Prog) {
    match p
    case SetType(_, _) => false
    case Work(_, rest) => Guarded(rest)
    case TestCancel(rest) => Guarded(rest)
    case Scope(defers, _, body, _, rest) => (defers || Guarded(body)) && Guarded(rest)
    case _ => true
  }

  /** Some deferring block, not inside another that gives the type back, is left by break. */
  predicate SkipsRestore(p: Prog) {
    match p
    case Work(_, rest) => SkipsRestore(rest)
    case SetType(_, rest) => SkipsRestore(rest)
    case TestCancel(rest) => SkipsRestore(rest)
    case Scope(defers, _, body, _, rest) =>
      (if defers then Ends(body).Broke? else SkipsRestore(body)) || SkipsRestore(rest)
    case _ => false
  }

  /** When all changes of the type lie inside deferring blocks, their effect is to keep it exactly when break
      reaches the pop or no such block is left by break. */
  lemma {:induction false} GuardedEffect(style: Style, p: Prog)
    requires Guarded(p)
    ensures TypeEffect(style, p).Keep? <==> style.ReachesPop? || !SkipsRestore(p)
  {
    match p
    case Work(_, rest) => GuardedEffect(style, rest);
    case TestCancel(rest) => GuardedEffect(style, rest);
    case Scope(defers, _, body, _, rest) =>
      if !defers {
        GuardedEffect(style, body);
      }
      GuardedEffect(style, rest);
    case _ =>
  }

  /** When all changes of the type lie inside deferring blocks, however nested, every completed run restores it
      exactly when the program always exits, break reaches the pop, or no such block is left by break. */
  lemma GuardedKeeps(style: Style, p: Prog, open: seq<Handler>)
    requires Guarded(p)
    ensures Ends(p).Cancelled? || style.ReachesPop? || !SkipsRestore(p) <==>
            forall t: Thread :: var r := Eval(style, p, t, open); !r.out.Cancelled? ==> r.t.ctype == t.ctype
  {
    GuardedEffect(style, p);
    TypeRestored(style, p, open);
  }

  lemma {:induction false} NoBreakSkipsNothing(p: Prog)
    requires NoBreak(p)
    ensures !Ends(p).Broke? && !SkipsRestore(p)
  {
    match p
    case Work(_, rest) => NoBreakSkipsNothing(rest);
    case SetType(_, rest) => NoBreakSkipsNothing(rest);
    case TestCancel(rest) => NoBreakSkipsNothing(rest);
    case Scope(_, _, body, _, rest) =>
      NoBreakSkipsNothing(body);
      NoBreakSkipsNothing(rest);
    case _ =>
  }

  /** One deferring block gives back the type in every completed run, whatever its body does to it, exactly
      when the body always exits, or break reaches the pop, or the body does not end by break. */
  lemma DeferringBlockRestores(style: Style, h: Handler, body: Prog, execute: int, open: seq<Handler>)
    ensures Ends(body).Cancelled? || style.ReachesPop? || !Ends(body).Broke? <==>
            forall t: Thread :: var r := Eval(style, Scope(true, h, body, execute, End), t, open);
                                !r.out.Cancelled? ==> r.t.ctype == t.ctype
  {
    TypeRestored(style, Scope(true, h, body, execute, End), open);
  }

  /** The smallest failure: push_defer_np; break; pop_restore_np. Where break skips the pop, the thread is
      left in deferred mode. */
  lemma BreakLeavesDeferred(h: Handler, execute: int, t: Thread, open: seq<Handler>)
    ensures var p := Scope(true, h, Break, execute, End);
            && Eval(SkipsPop, p, t, open).out == Eval(ReachesPop, p, t, open).out == Fell
            && Eval(SkipsPop, p, t, open).t.ctype == Deferred
            && Eval(ReachesPop, p, t, open).t.ctype == t.ctype
  {
  }

  // ----- do the expansions agree?

  /** Without break, the two styles give the same run in every respect. */
  lemma {:induction false} AgreeWithoutBreak(p: Prog, t: Thread, open: seq<Handler>)
    requires NoBreak(p)
    ensures Eval(SkipsPop, p, t, open) == Eval(ReachesPop, p, t, open)
  {
    match p
    case Work(id, rest) => AgreeWithoutBreak(rest, t.Log(Did(id)), open);
    case SetType(c, rest) => AgreeWithoutBreak(rest, t.(ctype := c), open);
    case TestCancel(rest) => AgreeWithoutBreak(rest, t.Tick(), open);
    case Scope(defers, h, body, execute, rest) =>
      var start := t.Log(Pushed(h));
      var entered := if defers then start.(ctype := Deferred) else start;
      AgreeWithoutBreak(body, entered, [h] + open);
      NoBreakFalls(SkipsPop, body, entered, [h] + open);
      var u := Eval(SkipsPop, body, entered, [h] + open).t;
      AgreeWithoutBreak(rest, Pop(u, t.ctype, defers, h, execute), open);
    case _ =>
  }

  /** The handler calls in a trace. */
  function Calls(trace: seq<Event>): seq<Handler> {
    if trace == [] then []
    else Calls(trace[..|trace| - 1]) +
         if trace[|trace| - 1].Called? then [trace[|trace| - 1].h] else []
  }

  lemma {:induction false} CallsConcat(a: seq<Event>, b: seq<Event>)
    ensures Calls(a + b) == Calls(a) + Calls(b)
    decreases |b|
  {
    if b == [] {
      assert a + b == a;
    } else {
      assert (a + b)[..|a + b| - 1] == a + b[..|b| - 1];
      CallsConcat(a, b[..|b| - 1]);
    }
  }

  lemma CallsLog(t: Thread, e: Event)
    ensures Calls(t.Log(e).trace) == Calls(t.trace) + if e.Called? then [e.h] else []
  {
  }

  /** No block that can be reached is left by break while its pop says not to execute the handler. */
  predicate SafeBreaks(p: Prog) {
    match p
    case Work(_, rest) => SafeBreaks(rest)
    case SetType(_, rest) => SafeBreaks(rest)
    case TestCancel(rest) => SafeBreaks(rest)
    case Scope(_, _, body, execute, rest) =>
      && SafeBreaks(body)
      && !(Ends(body).Broke? && execute == 0)
      && (Ends(body).Cancelled? || SafeBreaks(rest))
    case _ => true
  }

  /** Two runs that have reached the same point, with the same handler calls so far. */
  predicate SameCalls(s: Thread, t: Thread) {
    s.request == t.request && Calls(s.trace) == Calls(t.trace)
  }

  lemma CallsUnwound(t: Thread, open: seq<Handler>)
    ensures Calls(Unwound(t, open).t.trace) == Calls(t.trace) + Calls(CalledAll(open))
  {
    CallsConcat(t.trace, CalledAll(open));
  }

  lemma CallsLeave(t: Thread, entry: CancelType, defers: bool, h: Handler, execute: int)
    ensures Calls(t.Log(Left(h)).Log(Called(h)).trace) == Calls(t.trace) + [h]
    ensures Calls(Pop(t, entry, defers, h, execute).trace) == Calls(t.trace) + if execute != 0 then [h] else []
  {
    CallsLog(t, Left(h));
    CallsLog(t.Log(Left(h)), Called(h));
    var u := if defers then t.(ctype := entry) else t;
    CallsLog(u, Popped(h, execute));
    CallsLog(u.Log(Popped(h, execute)), Called(h));
  }

  lemma {:induction false} SafeBreaksAgree(p: Prog, s: Thread, t: Thread, open: seq<Handler>)
    requires SafeBreaks(p) && SameCalls(s, t)
    ensures var a, b := Eval(SkipsPop, p, s, open), Eval(ReachesPop, p, t, open);
            a.out == b.out && SameCalls(a.t, b.t)
    decreases p, 1
  {
    match p
    case End =>
    case Break =>
    case Exit => CallsUnwound(s, open); CallsUnwound(t, open);
    case Work(id, rest) =>
      CallsLog(s, Did(id)); CallsLog(t, Did(id));
      SafeBreaksAgree(rest, s.Log(Did(id)), t.Log(Did(id)), open);
    case SetType(c, rest) => SafeBreaksAgree(rest, s.(ctype := c), t.(ctype := c), open);
    case TestCancel(rest) =>
      CallsUnwound(s, open); CallsUnwound(t, open);
      SafeBreaksAgree(rest, s.Tick(), t.Tick(), open);
    case Scope(_, _, _, _, _) => SafeScopeAgrees(p, s, t, open);
  }

  lemma {:induction false} SafeScopeAgrees(p: Prog, s: Thread, t: Thread, open: seq<Handler>)
    requires p.Scope? && SafeBreaks(p) && SameCalls(s, t)
    ensures var a, b := Eval(SkipsPop, p, s, open), Eval(ReachesPop, p, t, open);
            a.out == b.out && SameCalls(a.t, b.t)
    decreases p, 0
  {
    hide Calls, Monitor, CalledAll;
    var h := p.h;
    CallsLog(s, Pushed(h)); CallsLog(t, Pushed(h));
    var s0, t0 := s.Log(Pushed(h)), t.Log(Pushed(h));
    var s1 := if p.defers then s0.(ctype := Deferred) else s0;
    var t1 := if p.defers then t0.(ctype := Deferred) else t0;
    SafeBreaksAgree(p.body, s1, t1, [h] + open);
    EndsAsSaid(SkipsPop, p.body, s1, [h] + open);
    var a, b := Eval(SkipsPop, p.body, s1, [h] + open), Eval(ReachesPop, p.body, t1, [h] + open);
    if !a.out.Cancelled? {
      CallsLeave(a.t, s.ctype, p.defers, h, p.execute);
      CallsLeave(b.t, t.ctype, p.defers, h, p.execute);
      var a1 := if a.out.Broke? then a.t.Log(Left(h)).Log(Called(h)) else Pop(a.t, s.ctype, p.defers, h, p.execute);
      SafeBreaksAgree(p.rest, a1, Pop(b.t, t.ctype, p.defers, h, p.execute), open);
    }
  }

  /** The number of handler calls in a trace so far. */
  function Count(t: Thread): nat {
    |Calls(t.trace)|
  }

  /** Uncancelled, skipping the pop never loses a call, and an unsafe break adds one. */
  lemma {:induction false} BreaksAddCalls(p: Prog, s: Thread, t: Thread, open: seq<Handler>)
    requires s.request.Never? && t.request.Never?
    ensures var a, b := Eval(SkipsPop, p, s, open), Eval(ReachesPop, p, t, open);
            && Count(a.t) - Count(s) >= Count(b.t) - Count(t)
            && (!SafeBreaks(p) ==> Count(a.t) - Count(s) > Count(b.t) - Count(t))
    decreases p, 1
  {
    match p
    case End =>
    case Break =>
    case Exit => CallsUnwound(s, open); CallsUnwound(t, open);
    case Work(id, rest) =>
      CallsLog(s, Did(id)); CallsLog(t, Did(id));
      BreaksAddCalls(rest, s.Log(Did(id)), t.Log(Did(id)), open);
    case SetType(c, rest) => BreaksAddCalls(rest, s.(ctype := c), t.(ctype := c), open);
    case TestCancel(rest) => BreaksAddCalls(rest, s.Tick(), t.Tick(), open);
    case Scope(_, _, _, _, _) => ScopeAddsCalls(p, s, t, open);
  }

  lemma {:induction false} ScopeAddsCalls(p: Prog, s: Thread, t: Thread, open: seq<Handler>)
    requires p.Scope? && s.request.Never? && t.request.Never?
    ensures var a, b := Eval(SkipsPop, p, s, open), Eval(ReachesPop, p, t, open);
            && Count(a.t) - Count(s) >= Count(b.t) - Count(t)
            && (!SafeBreaks(p) ==> Count(a.t) - Count(s) > Count(b.t) - Count(t))
    decreases p, 0
  {
    hide Calls, Monitor, CalledAll;
    var h := p.h;
    CallsLog(s, Pushed(h)); CallsLog(t, Pushed(h));
    var s0, t0 := s.Log(Pushed(h)), t.Log(Pushed(h));
    var s1 := if p.defers then s0.(ctype := Deferred) else s0;
    var t1 := if p.defers then t0.(ctype := Deferred) else t0;
    BreaksAddCalls(p.body, s1, t1, [h] + open);
    EndsAsSaid(SkipsPop, p.body, s1, [h] + open);
    EndsAsSaid(ReachesPop, p.body, t1, [h] + open);
    var a, b := Eval(SkipsPop, p.body, s1, [h] + open), Eval(ReachesPop, p.body, t1, [h] + open);
    if !a.out.Cancelled? {
      CallsLeave(a.t, s.ctype, p.defers, h, p.execute);
      CallsLeave(b.t, t.ctype, p.defers, h, p.execute);
      var a1 := if a.out.Broke? then a.t.Log(Left(h)).Log(Called(h)) else Pop(a.t, s.ctype, p.defers, h, p.execute);
      BreaksAddCalls(p.rest, a1, Pop(b.t, t.ctype, p.defers, h, p.execute), open);
    }
  }

  /** The styles make the same handler calls in every run exactly when no reachable block with
      execute zero is left by break. */
  lemma AgreeExactlyWhenBreaksSafe(p: Prog)
    ensures SafeBreaks(p) <==>
            forall t: Thread :: Calls(Eval(SkipsPop, p, t, []).t.trace) == Calls(Eval(ReachesPop, p, t, []).t.trace)
  {
    if SafeBreaks(p) {
      forall t: Thread
        ensures Calls(Eval(SkipsPop, p, t, []).t.trace) == Calls(Eval(ReachesPop, p, t, []).t.trace)
      {
        SafeBreaksAgree(p, t, t, []);
      }
    } else {
      var t := Thread([], Deferred, Never);
      BreaksAddCalls(p, t, t, []);
      assert |Calls(Eval(SkipsPop, p, t, []).t.trace)| > |Calls(Eval(ReachesPop, p, t, []).t.trace)|;
    }
  }

  /** The styles leave the same cancellation type after every completed run exactly when the program always
      exits or has the same effect on the type in both. */
  lemma SameTypeExactly(p: Prog, open: seq<Handler>)
    ensures Ends(p).Cancelled? || TypeEffect(SkipsPop, p) == TypeEffect(ReachesPop, p) <==>
            forall t: Thread :: var a, b := Eval(SkipsPop, p, t, open), Eval(ReachesPop, p, t, open);
                                !a.out.Cancelled? && !b.out.Cancelled? ==> a.t.ctype == b.t.ctype
  {
    var d, e := TypeEffect(SkipsPop, p), TypeEffect(ReachesPop, p);
    if Ends(p).Cancelled? || d == e {
      forall t: Thread
        ensures var a, b := Eval(SkipsPop, p, t, open), Eval(ReachesPop, p, t, open);
                !a.out.Cancelled? && !b.out.Cancelled? ==> a.t.ctype == b.t.ctype
      {
        SameType(p, t, open);
      }
    } else {
      var t := Entering(if d.Fix? then d.ctype else e.ctype);
      TypeAfter(SkipsPop, p, t, open);
      TypeAfter(ReachesPop, p, t, open);
      EndsAsSaid(SkipsPop, p, t, open);
      EndsAsSaid(ReachesPop, p, t, open);
    }
  }

  lemma SameType(p: Prog, t: Thread, open: seq<Handler>)
    requires Ends(p).Cancelled? || TypeEffect(SkipsPop, p) == TypeEffect(ReachesPop, p)
    ensures var a, b := Eval(SkipsPop, p, t, open), Eval(ReachesPop, p, t, open);
            !a.out.Cancelled? && !b.out.Cancelled? ==> a.t.ctype == b.t.ctype
  {
    TypeAfter(SkipsPop, p, t, open);
    TypeAfter(ReachesPop, p, t, open);
    EndsAsSaid(SkipsPop, p, t, open);
  }

  /** The smallest disagreement: push; break; pop(0). */
  lemma BreakDisagrees(h: Handler, t: Thread)
    ensures var p := Scope(false, h, Break, 0, End);
            && Calls(Eval(SkipsPop, p, t, []).t.trace) == Calls(t.trace) + [h]
            && Calls(Eval(ReachesPop, p, t, []).t.trace) == Calls(t.trace)
  {
    hide Calls;
    var u := t.Log(Pushed(h));
    CallsLog(t, Pushed(h));
    CallsLeave(u, t.ctype, false, h, 0);
  }
}
