/** The three expansions of pthread_cleanup_push and pthread_cleanup_pop, step by step. */
module CleanupExpansions {
  import opened Cleanup

  /** The parts of a thread that the expansions touch. */
  class PThread {
    var trace: seq<Event>
    var cancelType: CancelType
    var request: Request
    /** The registered unwind buffers, the innermost first. */
    var registered: seq<UnwindBuf>

    function View(): Thread
      reads this
    {
      Thread(trace, cancelType, request)
    }

    constructor (cancelType: CancelType, request: Request)
      ensures View() == Thread([], cancelType, request) && registered == []
    {
      trace, this.cancelType, this.request, registered := [], cancelType, request, [];
    }

    method Log(e: Event)
      modifies this`trace
      ensures trace == old(trace) + [e]
    {
      trace := trace + [e];
    }

    /** pthread_setcanceltype: set the type and hand back the one before. */
    method SetCancelType(c: CancelType) returns (previous: CancelType)
      modifies this`cancelType
      ensures cancelType == c && previous == old(cancelType)
    {
      previous := cancelType;
      cancelType := c;
    }

    method PassPoint()
      modifies this`request
      ensures View() == old(View()).Tick()
    {
      if request.After? && request.n > 0 {
        request := After(request.n - 1);
      }
    }

    /** __pthread_register_cancel and its deferring variant, which saves the type in the buffer. */
    method Register(buf: UnwindBuf)
      modifies this`registered
      ensures registered == [buf] + old(registered)
    {
      registered := [buf] + registered;
    }

    method RegisterDefer(buf: UnwindBuf)
      modifies this`registered, this`cancelType, buf
      ensures registered == [buf] + old(registered)
      ensures buf.savedType == old(cancelType) && cancelType == Deferred
    {
      registered := [buf] + registered;
      buf.savedType := SetCancelType(Deferred);
    }

    /** __pthread_unregister_cancel and its restoring variant. */
    method Unregister(buf: UnwindBuf)
      requires registered != [] && registered[0] == buf
      modifies this`registered
      ensures registered == old(registered)[1..]
    {
      registered := registered[1..];
    }

    method UnregisterRestore(buf: UnwindBuf)
      requires registered != [] && registered[0] == buf
      modifies this`registered, this`cancelType
      ensures registered == old(registered)[1..] && cancelType == buf.savedType
    {
      registered := registered[1..];
      var previous := SetCancelType(buf.savedType);
    }

    /** Jump to the innermost buffer; there __sigsetjmp returns non-zero, the routine runs, and
        __pthread_unwind_next goes on to the buffer around it. */
    method Unwind()
      modifies this`registered, this`trace
      ensures registered == [] && trace == old(trace) + CalledAll(Handlers(old(registered)))
    {
      ghost var n := 0;
      while registered != []
        invariant 0 <= n <= |old(registered)| && registered == old(registered)[n..]
        invariant trace == old(trace) + CalledAll(Handlers(old(registered))[..n])
        decreases |registered|
      {
        var buf := registered[0];
        registered := registered[1..];
        Log(Called(buf.h));
        assert Handlers(old(registered))[..n + 1] == Handlers(old(registered))[..n] + [buf.h];
        CalledAllConcat(Handlers(old(registered))[..n], [buf.h]);
        n := n + 1;
      }
      assert Handlers(old(registered))[..n] == Handlers(old(registered));
    }
  }

  /** __pthread_unwind_buf_t with the routine and argument its block captured. */
  class UnwindBuf {
    const h: Handler
    var savedType: CancelType

    constructor (h: Handler)
      ensures this.h == h
    {
      this.h, savedType := h, Deferred;
    }
  }

  function Handlers(bufs: seq<UnwindBuf>): seq<Handler> {
    seq(|bufs|, i requires 0 <= i < |bufs| => bufs[i].h)
  }

  /** The C++ expansion's scope object. */
  class CleanupClass {
    const h: Handler
    var doIt: int
    var cancelType: CancelType

    constructor (h: Handler)
      ensures this.h == h && doIt == 1
    {
      this.h, doIt, cancelType := h, 1, Deferred;
    }

    method SetDoIt(newval: int)
      modifies this`doIt
      ensures doIt == newval
    {
      doIt := newval;
    }

    method Defer(t: PThread)
      modifies this`cancelType, t`cancelType
      ensures cancelType == old(t.cancelType) && t.cancelType == Deferred
    {
      cancelType := t.SetCancelType(Deferred);
    }

    method Restore(t: PThread)
      modifies t`cancelType
      ensures t.cancelType == cancelType
    {
      var previous := t.SetCancelType(cancelType);
    }

    /** The destructor. */
    method Destroy(t: PThread)
      modifies t`trace
      ensures t.trace == old(t.trace) + if doIt != 0 then [Called(h)] else []
    {
      if doIt != 0 {
        t.Log(Called(h));
      }
    }
  }

  /** The frame that GNU C's cleanup attribute hands to CleanupRoutine when its scope is left. */
  class CleanupFrame {
    const h: Handler
    var doIt: int
    var cancelType: CancelType

    constructor (h: Handler)
      ensures this.h == h && doIt == 1
    {
      this.h, doIt, cancelType := h, 1, Deferred;
    }
  }

  method CleanupRoutine(frame: CleanupFrame, t: PThread)
    modifies t`trace
    ensures t.trace == old(t.trace) + if frame.doIt != 0 then [Called(frame.h)] else []
  {
    if frame.doIt != 0 {
      t.Log(Called(frame.h));
    }
  }

  /** The C++ expansion: a scope object whose destructor runs on every way out of the block. */
  method RunScopeObjects(t: PThread, p: Prog) returns (out: Outcome)
    modifies t
    ensures Result(out, t.View()) == Eval(SkipsPop, p, old(t.View()), [])
    ensures Answers(SkipsPop, p, old(t.View()), [], Result(out, t.View()))
    ensures t.registered == old(t.registered)
    decreases p
  {
    RequestActedOn(SkipsPop, p, t.View(), []);
    match p
    case End => out := Fell;
    case Work(id, rest) =>
      t.Log(Did(id));
      out := RunScopeObjects(t, rest);
    case SetType(c, rest) =>
      var previous := t.SetCancelType(c);
      out := RunScopeObjects(t, rest);
    case TestCancel(rest) =>
      if t.request == After(0) {
        UnwoundFew(t.View(), Handler(0, 0));
        out := Cancelled;
      } else {
        t.PassPoint();
        out := RunScopeObjects(t, rest);
      }
    case Exit =>
      UnwoundFew(t.View(), Handler(0, 0));
      out := Cancelled;
    case Break => out := Broke;
    case Scope(defers, h, body, execute, rest) =>
      ghost var t0 := t.View();
      t.Log(Pushed(h));
      var clframe := new CleanupClass(h);
      if defers {
        clframe.Defer(t);
      }
      ghost var t1 := t.View();
      assert t1 == if defers then t0.Log(Pushed(h)).(ctype := Deferred) else t0.Log(Pushed(h));
      out := RunScopeObjects(t, body);
      OpenOnlyAppends(SkipsPop, body, t1, [], [h]);
      UnwoundFew(t.View(), h);
      ghost var r := Eval(SkipsPop, body, t1, [h] + []);
      assert [] + [h] == [h] + [];
      assert r == if out.Cancelled? then Unwound(t.View(), [h]) else Result(out, t.View());
      // the pop's code runs only when control falls into it
      if out.Fell? {
        if defers {
          clframe.Restore(t);
        }
        clframe.SetDoIt(execute);
        t.Log(Popped(h, execute));
      } else if out.Broke? {
        t.Log(Left(h));
      }
      // every way out of the block runs this
      clframe.Destroy(t);
      assert out.Cancelled? ==> t.View() == r.t;
      assert out.Broke? ==> t.View() == r.t.Log(Left(h)).Log(Called(h));
      assert out.Fell? ==> t.View() == Pop(r.t, t0.ctype, defers, h, execute);
      if !out.Cancelled? {
        out := RunScopeObjects(t, rest);
      }
  }

  /** The GNU C expansion: a frame with the cleanup attribute. */
  method RunCleanupAttribute(t: PThread, p: Prog) returns (out: Outcome)
    modifies t
    ensures Result(out, t.View()) == Eval(SkipsPop, p, old(t.View()), [])
    ensures Answers(SkipsPop, p, old(t.View()), [], Result(out, t.View()))
    ensures t.registered == old(t.registered)
    decreases p
  {
    RequestActedOn(SkipsPop, p, t.View(), []);
    match p
    case End => out := Fell;
    case Work(id, rest) =>
      t.Log(Did(id));
      out := RunCleanupAttribute(t, rest);
    case SetType(c, rest) =>
      var previous := t.SetCancelType(c);
      out := RunCleanupAttribute(t, rest);
    case TestCancel(rest) =>
      if t.request == After(0) {
        UnwoundFew(t.View(), Handler(0, 0));
        out := Cancelled;
      } else {
        t.PassPoint();
        out := RunCleanupAttribute(t, rest);
      }
    case Exit =>
      UnwoundFew(t.View(), Handler(0, 0));
      out := Cancelled;
    case Break => out := Broke;
    case Scope(defers, h, body, execute, rest) =>
      ghost var t0 := t.View();
      t.Log(Pushed(h));
      var clframe := new CleanupFrame(h);
      if defers {
        clframe.cancelType := t.SetCancelType(Deferred);
      }
      ghost var t1 := t.View();
      assert t1 == if defers then t0.Log(Pushed(h)).(ctype := Deferred) else t0.Log(Pushed(h));
      out := RunCleanupAttribute(t, body);
      OpenOnlyAppends(SkipsPop, body, t1, [], [h]);
      UnwoundFew(t.View(), h);
      ghost var r := Eval(SkipsPop, body, t1, [h] + []);
      assert [] + [h] == [h] + [];
      assert r == if out.Cancelled? then Unwound(t.View(), [h]) else Result(out, t.View());
      // the pop's code runs only when control falls into it
      if out.Fell? {
        if defers {
          var previous := t.SetCancelType(clframe.cancelType);
        }
        clframe.doIt := execute;
        t.Log(Popped(h, execute));
      } else if out.Broke? {
        t.Log(Left(h));
      }
      // every way out of the block runs this
      CleanupRoutine(clframe, t);
      assert out.Cancelled? ==> t.View() == r.t;
      assert out.Broke? ==> t.View() == r.t.Log(Left(h)).Log(Called(h));
      assert out.Fell? ==> t.View() == Pop(r.t, t0.ctype, defers, h, execute);
      if !out.Cancelled? {
        out := RunCleanupAttribute(t, rest);
      }
  }

  /** The plain C expansion: a buffer registered with the thread; the body is a loop of its own, so
      break reaches the code of the pop. */
  method RunRegistered(t: PThread, p: Prog) returns (out: Outcome)
    modifies t
    ensures Result(out, t.View()) == Eval(ReachesPop, p, old(t.View()), Handlers(old(t.registered)))
    ensures Answers(ReachesPop, p, old(t.View()), Handlers(old(t.registered)), Result(out, t.View()))
    ensures t.registered == if out.Cancelled? then [] else old(t.registered)
    decreases p
  {
    RequestActedOn(ReachesPop, p, t.View(), Handlers(t.registered));
    match p
    case End => out := Fell;
    case Work(id, rest) =>
      t.Log(Did(id));
      out := RunRegistered(t, rest);
    case SetType(c, rest) =>
      var previous := t.SetCancelType(c);
      out := RunRegistered(t, rest);
    case TestCancel(rest) =>
      if t.request == After(0) {
        t.Unwind();
        out := Cancelled;
      } else {
        t.PassPoint();
        out := RunRegistered(t, rest);
      }
    case Exit =>
      t.Unwind();
      out := Cancelled;
    case Break => out := Broke;
    case Scope(defers, h, body, execute, rest) =>
      var cancelBuf := new UnwindBuf(h);
      t.Log(Pushed(h));
      if defers {
        t.RegisterDefer(cancelBuf);
      } else {
        t.Register(cancelBuf);
      }
      assert Handlers(t.registered) == [h] + Handlers(old(t.registered));
      out := RunRegistered(t, body);
      if !out.Cancelled? {
        if defers {
          t.UnregisterRestore(cancelBuf);
        } else {
          t.Unregister(cancelBuf);
        }
        t.Log(Popped(h, execute));
        if execute != 0 {
          t.Log(Called(h));
        }
        out := RunRegistered(t, rest);
      }
  }

  /** The three expansions side by side. The same requests cancel them. They run alike when nothing breaks out
      of a block, make the same handler calls when no reachable block with execute zero is left by break, and
      leave the same cancellation type when they complete and break skips no restoring. */
  method RunAll(p: Prog, cancelType: CancelType, request: Request)
    returns (scoped: PThread, attribute: PThread, registered: PThread, a: Outcome, b: Outcome, c: Outcome)
    ensures scoped.View() == attribute.View() && a == b
    ensures a.Cancelled? <==> Ends(p).Cancelled? || (request.After? && request.n < Points(p))
    ensures c.Cancelled? <==> a.Cancelled?
    ensures NoBreak(p) ==> registered.View() == scoped.View() && c == a
    ensures SafeBreaks(p) ==> Calls(registered.trace) == Calls(scoped.trace) && c == a
    ensures !a.Cancelled? && !c.Cancelled? && TypeEffect(SkipsPop, p) == TypeEffect(ReachesPop, p) ==>
              registered.cancelType == scoped.cancelType
  {
    scoped := new PThread(cancelType, request);
    attribute := new PThread(cancelType, request);
    registered := new PThread(cancelType, request);
    ghost var t := scoped.View();
    EndsAsSaid(SkipsPop, p, t, []);
    EndsAsSaid(ReachesPop, p, t, []);
    a := RunScopeObjects(scoped, p);
    b := RunCleanupAttribute(attribute, p);
    assert Handlers(registered.registered) == [];
    c := RunRegistered(registered, p);
    if NoBreak(p) {
      AgreeWithoutBreak(p, t, []);
    }
    if SafeBreaks(p) {
      SafeBreaksAgree(p, t, t, []);
    }
    if TypeEffect(SkipsPop, p) == TypeEffect(ReachesPop, p) {
      SameType(p, t, []);
    }
  }
}
