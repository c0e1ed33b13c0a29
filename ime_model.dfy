/**
 * What each operation of the Windows IME manager (TextInputManager) does, as
 * functions of its state and of the platform's answers: the state it leaves
 * and the platform calls it makes, in order.  The imperative classes in
 * module TextInput are proved to behave exactly like these functions; the
 * lemmas below state what the functions guarantee.
 */
module ImeModel {
  import opened Wrappers
  import opened Win32

  /** The manager's fields: window_handle_, ime_active_ and caret_rect_. */
  datatype ImeState = ImeState(window: Hwnd, active: bool, caret: Rect)

  /** The state an operation leaves and the platform calls it makes. */
  datatype Outcome = Outcome(state: ImeState, effects: seq<Effect>)

  /** The value a read-only operation returns and the platform calls it makes. */
  datatype Query<T> = Query(result: T, effects: seq<Effect>)

  /** The size of the synthetic system caret (1 by 1). */
  const CaretWidth: int := 1
  const CaretHeight: int := 1

  /** sizeof(wchar_t) on Windows: a UTF-16 code unit is two bytes. */
  const WcharSize: int := 2

  /** The state of a freshly constructed manager. */
  const Initial: ImeState := ImeState(NullWindow, false, Rect(0, 0))

  // ---------------------------------------------------------------------
  // The ImmContext guard.

  /** The context an ImmContext guard for `window` holds. */
  function ContextFor(window: Hwnd, env: Oracle): Himc {
    if window.NullWindow? then NullContext else env.context
  }

  /**
   * The calls made by the scope of an ImmContext guard for `window` whose
   * body makes the calls `body` when (and only when) it holds a context:
   * nothing for a null window; otherwise ImmGetContext, then the body and
   * ImmReleaseContext if a context was handed out.
   */
  function Guarded(window: Hwnd, env: Oracle, body: seq<Effect>): seq<Effect> {
    if window.NullWindow? then []
    else if env.context.NullContext? then [GetContext(window, NullContext)]
    else [GetContext(window, env.context)] + body + [ReleaseContext(window, env.context)]
  }

  // ---------------------------------------------------------------------
  // The operations.

  /** MoveImeWindow: place the caret, composition and candidate windows. */
  function Move(s: ImeState, env: Oracle): seq<Effect> {
    if env.focus != s.window || !s.active then []
    else
      var x, y := s.caret.left, s.caret.top;
      var c := ContextFor(s.window, env);
      [SetCaretPos(x, y)] + Guarded(s.window, env, [SetCompositionWindow(c, x, y), SetCandidateWindow(c, x, y)])
  }

  /** UpdateImeWindow. */
  function Update(s: ImeState, env: Oracle): seq<Effect> {
    if s.window.NullWindow? then [] else Move(s, env)
  }

  /** SetWindowHandle. */
  function SetWindow(s: ImeState, window: Hwnd): ImeState {
    s.(window := window)
  }

  /** CreateImeWindow. */
  function Create(s: ImeState, env: Oracle): Outcome {
    if s.window.NullWindow? then Outcome(s, [])
    else
      var s' := s.(active := true);
      Outcome(s', (if s.active then [] else [CreateCaret(s.window, CaretWidth, CaretHeight)]) + Update(s', env))
  }

  /** DestroyImeWindow. */
  function Destroy(s: ImeState): Outcome {
    if s.window.NullWindow? then Outcome(s, [])
    else Outcome(s.(active := false), if s.active then [DestroyCaret] else [])
  }

  /** UpdateCaretRect. */
  function UpdateCaret(s: ImeState, rect: Rect, env: Oracle): Outcome {
    var s' := s.(caret := rect);
    Outcome(s', if s.window.NullWindow? then [] else Move(s', env))
  }

  /** GetComposingCursorPosition: 0 (false) without a window, -1 without a context. */
  function CursorPosition(s: ImeState, env: Oracle): Query<int> {
    if s.window.NullWindow? then Query(0, [])
    else Query(if env.context.NullContext? then -1 else env.cursorPos, Guarded(s.window, env, []))
  }

  /**
   * The number of UTF-16 code units in a string the platform reports as
   * `bytes` long.  The source divides a signed byte count by an unsigned
   * sizeof; on 64-bit Windows the result of that, narrowed back to a signed
   * 32-bit length, is non-positive exactly when the floor quotient computed
   * here is, and equal to it when positive.
   */
  function CodeUnits(bytes: int): int {
    bytes / WcharSize
  }

  /**
   * GetString: the length of the text read, None on every guarded path.
   * The text itself is written by the platform and is not modelled.
   */
  function ReadString(s: ImeState, kind: StringKind, env: Oracle): Query<Option<nat>> {
    if s.window.NullWindow? || !s.active then Query(None, [])
    else
      var n := CodeUnits(env.Bytes(kind));
      Query(if env.context.NullContext? || n <= 0 then None else Some(n), Guarded(s.window, env, []))
  }

  // ---------------------------------------------------------------------
  // Any sequence of public calls.

  datatype Call =
    | SetWindowHandle(window: Hwnd)
    | CreateImeWindow
    | DestroyImeWindow
    | UpdateImeWindow
    | UpdateCaretRect(rect: Rect)
    | GetComposingCursorPosition
    | GetComposingString
    | GetResultString

  /** One public call, made while the platform answers as `env` says. */
  datatype Event = Event(call: Call, env: Oracle)

  function Step(s: ImeState, e: Event): Outcome {
    match e.call
    case SetWindowHandle(w) => Outcome(SetWindow(s, w), [])
    case CreateImeWindow => Create(s, e.env)
    case DestroyImeWindow => Destroy(s)
    case UpdateImeWindow => Outcome(s, Update(s, e.env))
    case UpdateCaretRect(r) => UpdateCaret(s, r, e.env)
    case GetComposingCursorPosition => Outcome(s, CursorPosition(s, e.env).effects)
    case GetComposingString => Outcome(s, ReadString(s, CompositionString, e.env).effects)
    case GetResultString => Outcome(s, ReadString(s, ResultString, e.env).effects)
  }

  /** The calls `events`, one after the other. */
  function Run(s: ImeState, events: seq<Event>): Outcome
    decreases |events|
  {
    if events == [] then Outcome(s, [])
    else
      var first := Step(s, events[0]);
      var rest := Run(first.state, events[1..]);
      Outcome(rest.state, first.effects + rest.effects)
  }

  /**
   * What holds of the manager's state and the platform's log between public
   * calls: the system caret exists exactly while the session is active (and
   * was never created twice nor destroyed twice), and every context handed
   * out was released exactly once.
   */
  predicate Consistent(s: ImeState, log: seq<Effect>) {
    CaretAfter(false, log) == Some(s.active) && ContextsBalanced(log)
  }

  // ---------------------------------------------------------------------
  // Properties.

  /** A guard's calls release exactly what they acquire. */
  lemma GuardedBalanced(window: Hwnd, env: Oracle, body: seq<Effect>)
    requires forall i :: 0 <= i < |body| ==> !body[i].GetContext? && !body[i].ReleaseContext?
    ensures ContextsBalanced(Guarded(window, env, body))
  {
    if window.Window? && env.context.Context? {
      var l := Lease(window, env.context);
      var g, r := [GetContext(window, env.context)], [ReleaseContext(window, env.context)];
      assert g[0] == GetContext(window, env.context) && g[1..] == [];
      assert multiset{} + multiset{l} == multiset{l};
      assert ContextsAfter(multiset{}, g) == Some(multiset{l});
      assert r[0] == ReleaseContext(window, env.context) && r[1..] == [];
      assert ContextsAfter(multiset{l}, r) == Some(multiset{});
      BodyKeepsLeases(multiset{l}, body);
      ContextsAfterAppend(multiset{l}, body, r);
      ContextsAfterAppend(multiset{}, g, body + r);
      assert g + body + r == g + (body + r);
    }
  }

  /** Calls that neither acquire nor release a context leave the leases alone. */
  lemma {:induction false} BodyKeepsLeases(open: multiset<Lease>, body: seq<Effect>)
    requires forall i :: 0 <= i < |body| ==> !body[i].GetContext? && !body[i].ReleaseContext?
    ensures ContextsAfter(open, body) == Some(open)
    decreases |body|
  {
    if body != [] {
      BodyKeepsLeases(open, body[1..]);
    }
  }

  /** Calls that neither create nor destroy a caret leave the caret alone. */
  lemma {:induction false} NoCaretCalls(present: bool, log: seq<Effect>)
    requires forall i :: 0 <= i < |log| ==> !log[i].CreateCaret? && !log[i].DestroyCaret?
    ensures CaretAfter(present, log) == Some(present)
    ensures CreatedCarets(log) == 0 && DestroyedCarets(log) == 0
    decreases |log|
  {
    if log != [] {
      NoCaretCalls(present, log[1..]);
    }
  }

  /** Appending calls that touch neither caret nor contexts keeps consistency. */
  lemma KeepsConsistent(s: ImeState, log: seq<Effect>, extra: seq<Effect>)
    requires Consistent(s, log)
    requires forall i :: 0 <= i < |extra| ==> !extra[i].CreateCaret? && !extra[i].DestroyCaret?
    requires ContextsBalanced(extra)
    ensures Consistent(s, log + extra)
  {
    CaretAfterAppend(false, log, extra);
    NoCaretCalls(s.active, extra);
    BalancedAppend(log, extra);
  }

  /**
   * MoveImeWindow does nothing unless the manager's window has the focus and
   * the session is active; otherwise it places the caret at the caret
   * rectangle's top-left corner and, when a context is obtained, the
   * composition and candidate windows at that same point.  It creates and
   * destroys no caret and releases every context it acquires.
   */
  lemma MoveSpec(s: ImeState, env: Oracle)
    ensures Move(s, env) == [] <==> env.focus != s.window || !s.active
    ensures forall e :: e in Move(s, env) && e.Positions() ==> e.x == s.caret.left && e.y == s.caret.top
    ensures Move(s, env) != [] && ContextFor(s.window, env).Context? ==>
      SetCompositionWindow(env.context, s.caret.left, s.caret.top) in Move(s, env) &&
      SetCandidateWindow(env.context, s.caret.left, s.caret.top) in Move(s, env)
    ensures Move(s, env) != [] && ContextFor(s.window, env).NullContext? ==>
      forall e :: e in Move(s, env) ==> !e.SetCompositionWindow? && !e.SetCandidateWindow?
    ensures forall i :: 0 <= i < |Move(s, env)| ==> !Move(s, env)[i].CreateCaret? && !Move(s, env)[i].DestroyCaret?
    ensures ContextsBalanced(Move(s, env))
    ensures env.focus == s.window && s.active ==>
      |Move(s, env)| >= 1 && Move(s, env)[0] == SetCaretPos(s.caret.left, s.caret.top)
    ensures env.focus == s.window && s.active && ContextFor(s.window, env).Context? ==>
      Placements(Move(s, env)) == [SetCaretPos(s.caret.left, s.caret.top),
        SetCompositionWindow(env.context, s.caret.left, s.caret.top),
        SetCandidateWindow(env.context, s.caret.left, s.caret.top)]
    ensures env.focus == s.window && s.active && ContextFor(s.window, env).NullContext? ==>
      Placements(Move(s, env)) == [SetCaretPos(s.caret.left, s.caret.top)]
  {
    if env.focus == s.window && s.active {
      MoveFocused(s, env);
      MovePlacements(s, env);
    }
  }

  /** What a focused, active move calls, apart from the order. */
  lemma MoveFocused(s: ImeState, env: Oracle)
    requires env.focus == s.window && s.active
    ensures Move(s, env) != []
    ensures forall e :: e in Move(s, env) && e.Positions() ==> e.x == s.caret.left && e.y == s.caret.top
    ensures ContextFor(s.window, env).Context? ==>
      SetCompositionWindow(env.context, s.caret.left, s.caret.top) in Move(s, env) &&
      SetCandidateWindow(env.context, s.caret.left, s.caret.top) in Move(s, env)
    ensures ContextFor(s.window, env).NullContext? ==>
      forall e :: e in Move(s, env) ==> !e.SetCompositionWindow? && !e.SetCandidateWindow?
    ensures forall i :: 0 <= i < |Move(s, env)| ==> !Move(s, env)[i].CreateCaret? && !Move(s, env)[i].DestroyCaret?
    ensures ContextsBalanced(Move(s, env))
  {
    var x, y := s.caret.left, s.caret.top;
    var c := ContextFor(s.window, env);
    var body := [SetCompositionWindow(c, x, y), SetCandidateWindow(c, x, y)];
    GuardedBalanced(s.window, env, body);
    ContextsAfterAppend(multiset{}, [SetCaretPos(x, y)], Guarded(s.window, env, body));
  }

  /** The positioning calls of a focused, active move, in the order they are made. */
  lemma MovePlacements(s: ImeState, env: Oracle)
    requires env.focus == s.window && s.active
    ensures Move(s, env)[0] == SetCaretPos(s.caret.left, s.caret.top)
    ensures ContextFor(s.window, env).Context? ==>
      Placements(Move(s, env)) == [SetCaretPos(s.caret.left, s.caret.top),
        SetCompositionWindow(env.context, s.caret.left, s.caret.top),
        SetCandidateWindow(env.context, s.caret.left, s.caret.top)]
    ensures ContextFor(s.window, env).NullContext? ==>
      Placements(Move(s, env)) == [SetCaretPos(s.caret.left, s.caret.top)]
  {
    var x, y := s.caret.left, s.caret.top;
    var c := ContextFor(s.window, env);
    var body := [SetCompositionWindow(c, x, y), SetCandidateWindow(c, x, y)];
    var g := Guarded(s.window, env, body);
    PlacementsAppend([SetCaretPos(x, y)], g);
    assert Placements([SetCaretPos(x, y)]) == [SetCaretPos(x, y)] by {
      assert [SetCaretPos(x, y)][1..] == [];
    }
    if c.Context? {
      GuardedPlacements(s.window, env, body);
      PlacementsAppend([body[0]], [body[1]]);
      assert body == [body[0]] + [body[1]];
      assert Placements([body[0]]) == [body[0]] by { assert [body[0]][1..] == []; }
      assert Placements([body[1]]) == [body[1]] by { assert [body[1]][1..] == []; }
    } else if s.window.Window? {
      assert g == [GetContext(s.window, NullContext)];
      assert Placements(g) == [] by { assert g[1..] == []; }
    }
  }

  /** A guard that obtains a context adds no positioning call of its own around its body. */
  lemma GuardedPlacements(window: Hwnd, env: Oracle, body: seq<Effect>)
    requires window.Window? && env.context.Context?
    ensures Placements(Guarded(window, env, body)) == Placements(body)
  {
    var get, rel := [GetContext(window, env.context)], [ReleaseContext(window, env.context)];
    assert Guarded(window, env, body) == get + body + rel;
    PlacementsAppend(get + body, rel);
    PlacementsAppend(get, body);
    assert Placements(get) == [] by { assert get[1..] == []; }
    assert Placements(rel) == [] by { assert rel[1..] == []; }
  }

  /** With a null window, create, destroy and update change nothing and call nothing. */
  lemma NullWindowIsInert(s: ImeState, env: Oracle)
    requires s.window.NullWindow?
    ensures Create(s, env) == Outcome(s, [])
    ensures Destroy(s) == Outcome(s, [])
    ensures Update(s, env) == []
  {
  }

  /**
   * CreateImeWindow with a window always activates the session and creates
   * a caret only if the session was inactive; a second call creates none, so
   * two calls in a row create exactly one caret between them (none if the
   * session was already active).
   */
  lemma CreateSpec(s: ImeState, env: Oracle)
    requires s.window.Window?
    ensures Create(s, env).state == s.(active := true)
    ensures CreatedCarets(Create(s, env).effects) == if s.active then 0 else 1
    ensures DestroyedCarets(Create(s, env).effects) == 0
    ensures var t := Create(s, env).state;
      CreatedCarets(Create(s, env).effects + Create(t, env).effects) == 1 - Indicator(s.active)
  {
    var s' := s.(active := true);
    MoveSpec(s', env);
    NoCaretCalls(true, Move(s', env));
    CaretCountsAppend(if s.active then [] else [CreateCaret(s.window, CaretWidth, CaretHeight)], Update(s', env));
    CaretCountsAppend([], Update(s', env));
    assert Create(s', env).effects == [] + Update(s', env);
    CaretCountsAppend(Create(s, env).effects, Create(s', env).effects);
  }

  /**
   * DestroyImeWindow with a window always ends the session and destroys the
   * caret only if the session was active; a second call changes nothing and
   * calls nothing, so there is never a duplicate destroy.
   */
  lemma DestroySpec(s: ImeState)
    requires s.window.Window?
    ensures Destroy(s).state == s.(active := false)
    ensures DestroyedCarets(Destroy(s).effects) == Indicator(s.active)
    ensures CreatedCarets(Destroy(s).effects) == 0
    ensures Destroy(Destroy(s).state) == Outcome(Destroy(s).state, [])
  {
  }

  /** UpdateCaretRect stores the rectangle; with a null window it does nothing else. */
  lemma UpdateCaretSpec(s: ImeState, rect: Rect, env: Oracle)
    ensures UpdateCaret(s, rect, env).state == s.(caret := rect)
    ensures s.window.NullWindow? ==> UpdateCaret(s, rect, env).effects == []
    ensures s.window.Window? ==> UpdateCaret(s, rect, env).effects == Move(s.(caret := rect), env)
  {
  }

  /**
   * GetString returns nothing exactly when the window is null, the session
   * is inactive, no context is obtained or the byte count gives no code
   * unit; otherwise it returns bytes / 2 code units.  It acquires a context
   * only past the first two guards and releases every context it acquires.
   */
  lemma ReadStringSpec(s: ImeState, kind: StringKind, env: Oracle)
    ensures var q := ReadString(s, kind, env);
      q.result.None? <==>
        s.window.NullWindow? || !s.active || env.context.NullContext? || env.Bytes(kind) / WcharSize <= 0
    ensures var q := ReadString(s, kind, env);
      q.result.Some? ==> q.result.value == env.Bytes(kind) / WcharSize && q.result.value >= 1
    ensures s.window.NullWindow? || !s.active ==> ReadString(s, kind, env).effects == []
    ensures ContextsBalanced(ReadString(s, kind, env).effects)
  {
    GuardedBalanced(s.window, env, []);
  }

  /** The code-unit count is positive exactly when at least two bytes are reported. */
  lemma CodeUnitsPositive(bytes: int)
    ensures CodeUnits(bytes) > 0 <==> bytes >= WcharSize
  {
  }

  /**
   * GetComposingCursorPosition: 0 without a window, -1 when no context is
   * obtained, the platform's cursor position otherwise; balanced contexts.
   */
  lemma CursorPositionSpec(s: ImeState, env: Oracle)
    ensures s.window.NullWindow? ==> CursorPosition(s, env) == Query(0, [])
    ensures s.window.Window? && env.context.NullContext? ==> CursorPosition(s, env).result == -1
    ensures s.window.Window? && env.context.Context? ==> CursorPosition(s, env).result == env.cursorPos
    ensures ContextsBalanced(CursorPosition(s, env).effects)
  {
    GuardedBalanced(s.window, env, []);
  }

  /** Update keeps the state-log consistency. */
  lemma UpdatePreserves(s: ImeState, log: seq<Effect>, env: Oracle)
    requires Consistent(s, log)
    ensures Consistent(s, log + Update(s, env))
  {
    MoveSpec(s, env);
    KeepsConsistent(s, log, Update(s, env));
  }

  /** Turning the session on, with the caret call the source makes, keeps consistency. */
  lemma ActivatePreserves(s: ImeState, log: seq<Effect>)
    requires Consistent(s, log) && s.window.Window?
    ensures Consistent(s.(active := true),
      log + if s.active then [] else [CreateCaret(s.window, CaretWidth, CaretHeight)])
  {
    var c := if s.active then [] else [CreateCaret(s.window, CaretWidth, CaretHeight)];
    CaretAfterAppend(false, log, c);
    assert ContextsBalanced(c);
    BalancedAppend(log, c);
  }

  /** DestroyImeWindow keeps the state-log consistency. */
  lemma DestroyPreserves(s: ImeState, log: seq<Effect>)
    requires Consistent(s, log)
    ensures Consistent(Destroy(s).state, log + Destroy(s).effects)
  {
    var d := Destroy(s).effects;
    CaretAfterAppend(false, log, d);
    assert ContextsBalanced(d);
    BalancedAppend(log, d);
  }

  /** CreateImeWindow keeps the state-log consistency. */
  lemma CreatePreserves(s: ImeState, log: seq<Effect>, env: Oracle)
    requires Consistent(s, log)
    ensures Consistent(Create(s, env).state, log + Create(s, env).effects)
  {
    if s.window.Window? {
      var c := if s.active then [] else [CreateCaret(s.window, CaretWidth, CaretHeight)];
      var s' := s.(active := true);
      ActivatePreserves(s, log);
      UpdatePreserves(s', log + c, env);
      assert log + Create(s, env).effects == (log + c) + Update(s', env);
    } else {
      assert log + [] == log;
    }
  }

  /** A scope that only acquires and releases a context keeps consistency. */
  lemma GuardedPreserves(s: ImeState, log: seq<Effect>, env: Oracle)
    requires Consistent(s, log)
    ensures Consistent(s, log + Guarded(s.window, env, []))
  {
    GuardedBalanced(s.window, env, []);
    KeepsConsistent(s, log, Guarded(s.window, env, []));
  }

  /** GetComposingCursorPosition keeps the state-log consistency. */
  lemma CursorPositionPreserves(s: ImeState, log: seq<Effect>, env: Oracle)
    requires Consistent(s, log)
    ensures Consistent(s, log + CursorPosition(s, env).effects)
  {
    GuardedPreserves(s, log, env);
    assert log + [] == log;
  }

  /** GetString keeps the state-log consistency. */
  lemma ReadStringPreserves(s: ImeState, kind: StringKind, log: seq<Effect>, env: Oracle)
    requires Consistent(s, log)
    ensures Consistent(s, log + ReadString(s, kind, env).effects)
  {
    GuardedPreserves(s, log, env);
    assert log + [] == log;
  }

  /** Each public call keeps the state-log consistency. */
  lemma StepPreserves(s: ImeState, log: seq<Effect>, e: Event)
    requires Consistent(s, log)
    ensures Consistent(Step(s, e).state, log + Step(s, e).effects)
  {
    match e.call
    case SetWindowHandle(w) =>
      assert log + [] == log;
    case CreateImeWindow =>
      CreatePreserves(s, log, e.env);
    case DestroyImeWindow =>
      DestroyPreserves(s, log);
    case UpdateImeWindow =>
      UpdatePreserves(s, log, e.env);
    case UpdateCaretRect(r) =>
      UpdatePreserves(s.(caret := r), log, e.env);
    case GetComposingCursorPosition =>
      CursorPositionPreserves(s, log, e.env);
    case GetComposingString =>
      ReadStringPreserves(s, CompositionString, log, e.env);
    case GetResultString =>
      ReadStringPreserves(s, ResultString, log, e.env);
  }

  /** Consistency after two stretches of calls, regrouped. */
  lemma Regroup(s: ImeState, log: seq<Effect>, a: seq<Effect>, b: seq<Effect>)
    requires Consistent(s, log + a + b)
    ensures Consistent(s, log + (a + b))
  {
    assert log + a + b == log + (a + b);
  }

  /** Any sequence of public calls keeps the state-log consistency. */
  lemma {:induction false} RunPreserves(s: ImeState, log: seq<Effect>, events: seq<Event>)
    requires Consistent(s, log)
    ensures Consistent(Run(s, events).state, log + Run(s, events).effects)
    decreases |events|
  {
    if events == [] {
      assert log + [] == log;
    } else {
      var first := Step(s, events[0]);
      StepPreserves(s, log, events[0]);
      var rest := Run(first.state, events[1..]);
      RunPreserves(first.state, log + first.effects, events[1..]);
      Regroup(rest.state, log, first.effects, rest.effects);
    }
  }

  /**
   * From a fresh manager, after any sequence of public calls: the caret
   * exists exactly while the session is active, CreateCaret calls outnumber
   * DestroyCaret calls by one if the session is active and by none
   * otherwise, and every context acquired has been released exactly once.
   */
  lemma RunFromInitial(events: seq<Event>)
    ensures var o := Run(Initial, events);
      CaretAfter(false, o.effects) == Some(o.state.active) &&
      CreatedCarets(o.effects) - DestroyedCarets(o.effects) == Indicator(o.state.active) &&
      ContextsBalanced(o.effects)
  {
    var o := Run(Initial, events);
    RunPreserves(Initial, [], events);
    assert [] + o.effects == o.effects;
    CaretBalance(false, o.effects, o.state.active);
  }
}
