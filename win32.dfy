/**
 * The slice of the Win32 and IMM32 platform that the IME manager talks to.
 *
 * Every call that changes platform state is recorded as an entry of a ghost
 * effect log kept by a Platform object.  Everything the platform answers
 * (the focused window, the input context it hands out, the numbers it reports
 * about the composition string) is an Oracle value supplied by the caller.
 */
module Win32 {
  import opened Wrappers

  /** A window handle (HWND); NullWindow is nullptr. */
  datatype Hwnd = NullWindow | Window(id: nat)

  /** An input-method context handle (HIMC); NullContext is nullptr. */
  datatype Himc = NullContext | Context(id: nat)

  /** The caret rectangle; only its top-left corner is ever read. */
  datatype Rect = Rect(left: int, top: int)

  /** The selector passed to ImmGetCompositionString (GCS_COMPSTR or GCS_RESULTSTR). */
  datatype StringKind = CompositionString | ResultString

  /** One platform call with a side effect, with the arguments that matter. */
  datatype Effect =
    | CreateCaret(window: Hwnd, width: int, height: int)
    | DestroyCaret
    | SetCaretPos(x: int, y: int)
    | SetCompositionWindow(context: Himc, x: int, y: int)
    | SetCandidateWindow(context: Himc, x: int, y: int)
    | GetContext(window: Hwnd, result: Himc)
    | ReleaseContext(window: Hwnd, context: Himc)
  {
    /** True of the three calls that place something at a screen point. */
    predicate Positions() {
      SetCaretPos? || SetCompositionWindow? || SetCandidateWindow?
    }
  }

  /** What the platform answers during one call of the manager. */
  datatype Oracle = Oracle(
    focus: Hwnd,             // GetFocus()
    context: Himc,           // ImmGetContext() for the manager's window
    cursorPos: int,          // ImmGetCompositionStringW(GCS_CURSORPOS, nullptr, 0)
    compositionBytes: int,   // ImmGetCompositionString(GCS_COMPSTR, nullptr, 0)
    resultBytes: int)        // ImmGetCompositionString(GCS_RESULTSTR, nullptr, 0)
  {
    /** The byte length reported for the string that `kind` selects. */
    function Bytes(kind: StringKind): int {
      match kind
      case CompositionString => compositionBytes
      case ResultString => resultBytes
    }
  }

  /** The platform as the manager sees it: a log of the calls made to it. */
  class Platform {
    ghost var log: seq<Effect>

    constructor ()
      ensures log == []
    {
      log := [];
    }

    method CreateCaret(window: Hwnd, width: int, height: int)
      modifies this
      ensures log == old(log) + [Effect.CreateCaret(window, width, height)]
    {
      log := log + [Effect.CreateCaret(window, width, height)];
    }

    method DestroyCaret()
      modifies this
      ensures log == old(log) + [Effect.DestroyCaret]
    {
      log := log + [Effect.DestroyCaret];
    }

    method SetCaretPos(x: int, y: int)
      modifies this
      ensures log == old(log) + [Effect.SetCaretPos(x, y)]
    {
      log := log + [Effect.SetCaretPos(x, y)];
    }

    method ImmSetCompositionWindow(context: Himc, x: int, y: int)
      modifies this
      ensures log == old(log) + [Effect.SetCompositionWindow(context, x, y)]
    {
      log := log + [Effect.SetCompositionWindow(context, x, y)];
    }

    method ImmSetCandidateWindow(context: Himc, x: int, y: int)
      modifies this
      ensures log == old(log) + [Effect.SetCandidateWindow(context, x, y)]
    {
      log := log + [Effect.SetCandidateWindow(context, x, y)];
    }

    /** Hands out the context the oracle names, and records that it did. */
    method ImmGetContext(window: Hwnd, env: Oracle) returns (c: Himc)
      modifies this
      ensures c == env.context
      ensures log == old(log) + [Effect.GetContext(window, c)]
    {
      c := env.context;
      log := log + [Effect.GetContext(window, c)];
    }

    method ImmReleaseContext(window: Hwnd, context: Himc)
      modifies this
      ensures log == old(log) + [Effect.ReleaseContext(window, context)]
    {
      log := log + [Effect.ReleaseContext(window, context)];
    }
  }

  // ---------------------------------------------------------------------
  // The system caret.

  /**
   * Replays the caret calls of `log` starting with a caret that exists iff
   * `present`.  The result is whether a caret exists at the end, or None when
   * the log creates a caret while one exists or destroys one while none does.
   */
  function CaretAfter(present: bool, log: seq<Effect>): Option<bool>
    decreases |log|
  {
    if log == [] then Some(present)
    else if log[0].CreateCaret? then
      if present then None else CaretAfter(true, log[1..])
    else if log[0].DestroyCaret? then
      if present then CaretAfter(false, log[1..]) else None
    else CaretAfter(present, log[1..])
  }

  /** The number of CreateCaret calls in `log`. */
  function CreatedCarets(log: seq<Effect>): nat {
    if log == [] then 0
    else (if log[0].CreateCaret? then 1 else 0) + CreatedCarets(log[1..])
  }

  /** The number of DestroyCaret calls in `log`. */
  function DestroyedCarets(log: seq<Effect>): nat {
    if log == [] then 0
    else (if log[0].DestroyCaret? then 1 else 0) + DestroyedCarets(log[1..])
  }

  function Indicator(b: bool): int {
    if b then 1 else 0
  }

  /** The calls of `log` that place something at a screen point, in order. */
  function Placements(log: seq<Effect>): seq<Effect> {
    if log == [] then []
    else (if log[0].Positions() then [log[0]] else []) + Placements(log[1..])
  }

  lemma {:induction false} PlacementsAppend(a: seq<Effect>, b: seq<Effect>)
    ensures Placements(a + b) == Placements(a) + Placements(b)
    decreases |a|
  {
    if a == [] {
      assert a + b == b;
    } else {
      assert (a + b)[0] == a[0];
      assert (a + b)[1..] == a[1..] + b;
      PlacementsAppend(a[1..], b);
    }
  }

  lemma {:induction false} CaretAfterAppend(present: bool, a: seq<Effect>, b: seq<Effect>)
    ensures CaretAfter(present, a + b) ==
      (match CaretAfter(present, a)
       case None => None
       case Some(e) => CaretAfter(e, b))
    decreases |a|
  {
    if a == [] {
      assert a + b == b;
    } else {
      assert (a + b)[0] == a[0];
      assert (a + b)[1..] == a[1..] + b;
      if a[0].CreateCaret? {
        if !present { CaretAfterAppend(true, a[1..], b); }
      } else if a[0].DestroyCaret? {
        if present { CaretAfterAppend(false, a[1..], b); }
      } else {
        CaretAfterAppend(present, a[1..], b);
      }
    }
  }

  lemma {:induction false} CaretCountsAppend(a: seq<Effect>, b: seq<Effect>)
    ensures CreatedCarets(a + b) == CreatedCarets(a) + CreatedCarets(b)
    ensures DestroyedCarets(a + b) == DestroyedCarets(a) + DestroyedCarets(b)
    decreases |a|
  {
    if a == [] {
      assert a + b == b;
    } else {
      assert (a + b)[0] == a[0];
      assert (a + b)[1..] == a[1..] + b;
      CaretCountsAppend(a[1..], b);
    }
  }

  /**
   * A log that keeps the one-caret discipline creates exactly as many carets
   * as it destroys, plus one if a caret exists at its end, minus one if a
   * caret existed at its start.
   */
  lemma {:induction false} CaretBalance(present: bool, log: seq<Effect>, final: bool)
    requires CaretAfter(present, log) == Some(final)
    ensures CreatedCarets(log) - DestroyedCarets(log) == Indicator(final) - Indicator(present)
    decreases |log|
  {
    if log != [] {
      if log[0].CreateCaret? {
        CaretBalance(true, log[1..], final);
      } else if log[0].DestroyCaret? {
        CaretBalance(false, log[1..], final);
      } else {
        CaretBalance(present, log[1..], final);
      }
    }
  }

  // ---------------------------------------------------------------------
  // Input contexts.

  /** One context obtained from ImmGetContext and not yet released. */
  datatype Lease = Lease(window: Hwnd, context: Himc)

  /**
   * Replays the context calls of `log` starting with the leases `open`.
   * ImmGetContext adds a lease when it hands out a context; ImmReleaseContext
   * must return an open lease.  None means something was released that was
   * not held (released twice, or never acquired).
   */
  function ContextsAfter(open: multiset<Lease>, log: seq<Effect>): Option<multiset<Lease>>
    decreases |log|
  {
    if log == [] then Some(open)
    else match log[0]
      case GetContext(w, c) =>
        ContextsAfter(if c.Context? then open + multiset{Lease(w, c)} else open, log[1..])
      case ReleaseContext(w, c) =>
        if Lease(w, c) in open then ContextsAfter(open - multiset{Lease(w, c)}, log[1..]) else None
      case _ => ContextsAfter(open, log[1..])
  }

  /** Every context acquired in `log` is released in it, exactly once. */
  predicate ContextsBalanced(log: seq<Effect>) {
    ContextsAfter(multiset{}, log) == Some(multiset{})
  }

  lemma {:induction false} ContextsAfterAppend(open: multiset<Lease>, a: seq<Effect>, b: seq<Effect>)
    ensures ContextsAfter(open, a + b) ==
      (match ContextsAfter(open, a)
       case None => None
       case Some(o) => ContextsAfter(o, b))
    decreases |a|
  {
    if a == [] {
      assert a + b == b;
    } else {
      assert (a + b)[0] == a[0];
      assert (a + b)[1..] == a[1..] + b;
      match a[0]
      case GetContext(w, c) =>
        ContextsAfterAppend(if c.Context? then open + multiset{Lease(w, c)} else open, a[1..], b);
      case ReleaseContext(w, c) =>
        if Lease(w, c) in open { ContextsAfterAppend(open - multiset{Lease(w, c)}, a[1..], b); }
      case _ => ContextsAfterAppend(open, a[1..], b);
    }
  }

  /** Two balanced logs one after the other form a balanced log. */
  lemma BalancedAppend(a: seq<Effect>, b: seq<Effect>)
    requires ContextsBalanced(a) && ContextsBalanced(b)
    ensures ContextsBalanced(a + b)
  {
    ContextsAfterAppend(multiset{}, a, b);
  }
}
