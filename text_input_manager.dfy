/**
 * The Windows IME manager as the objects it is: an ImmContext guard that
 * acquires the window's input context when constructed and releases it when
 * it goes out of scope, and a TextInputManager whose methods update its
 * window handle, session flag and caret rectangle and call the platform.
 *
 * Each method is proved to leave the state and to make the platform calls
 * that the matching function of ImeModel describes, and to keep
 * ImeModel.Consistent between the fields and the platform's log.
 */
module TextInput {
  import opened Wrappers
  import opened Win32
  import ImeModel

  /**
   * The scoped input-context guard.  Its constructor is the C++ constructor;
   * Release is the destructor, which every scope calls exactly once, on its
   * way out.
   */
  class ImmContext {
    const platform: Platform
    const window: Hwnd
    const context: Himc
    ghost var released: bool

    constructor (window: Hwnd, env: Oracle, platform: Platform)
      modifies platform
      ensures this.platform == platform && this.window == window
      ensures context == ImeModel.ContextFor(window, env)
      ensures !released
      ensures platform.log == old(platform.log) + (if window.NullWindow? then [] else [GetContext(window, env.context)])
    {
      var c := NullContext;
      if window != NullWindow {
        c := platform.ImmGetContext(window, env);
      }
      this.platform := platform;
      this.window := window;
      this.context := c;
      released := false;
    }

    /** The context held, NullContext if none. */
    function Get(): (c: Himc)
      ensures c == context
    {
      context
    }

    /** The destructor: return the context to the platform if one is held. */
    method Release()
      requires !released
      modifies this, platform
      ensures released
      ensures platform.log == old(platform.log) +
        (if window.Window? && context.Context? then [ReleaseContext(window, context)] else [])
    {
      if window != NullWindow && context != NullContext {
        platform.ImmReleaseContext(window, context);
      }
      released := true;
    }
  }

  class TextInputManager {
    const platform: Platform
    var windowHandle: Hwnd
    var imeActive: bool
    var caretRect: Rect

    /** The manager's fields as a value. */
    function State(): ImeModel.ImeState
      reads this
    {
      ImeModel.ImeState(windowHandle, imeActive, caretRect)
    }

    /** The caret exists exactly while the session is active; no context is held. */
    ghost predicate Valid()
      reads this, platform
    {
      ImeModel.Consistent(State(), platform.log)
    }

    constructor ()
      ensures Valid() && fresh(platform)
      ensures State() == ImeModel.Initial && platform.log == []
    {
      platform := new Platform();
      windowHandle := NullWindow;
      imeActive := false;
      caretRect := Rect(0, 0);
    }

    method SetWindowHandle(window: Hwnd)
      requires Valid()
      modifies this
      ensures Valid()
      ensures State() == ImeModel.SetWindow(old(State()), window)
      ensures platform.log == old(platform.log)
    {
      windowHandle := window;
    }

    method CreateImeWindow(env: Oracle)
      requires Valid()
      modifies this, platform
      ensures Valid()
      ensures State() == ImeModel.Create(old(State()), env).state
      ensures platform.log == old(platform.log) + ImeModel.Create(old(State()), env).effects
    {
      if windowHandle == NullWindow {
        return;
      }
      ghost var s, log := State(), platform.log;
      ghost var caret := if imeActive then [] else [CreateCaret(windowHandle, ImeModel.CaretWidth, ImeModel.CaretHeight)];
      ImeModel.ActivatePreserves(s, log);
      if !imeActive {
        platform.CreateCaret(windowHandle, ImeModel.CaretWidth, ImeModel.CaretHeight);
      }
      imeActive := true;
      assert platform.log == log + caret && State() == s.(active := true);
      UpdateImeWindow(env);
      assert ImeModel.Create(s, env).effects == caret + ImeModel.Update(s.(active := true), env);
      assert platform.log == log + (caret + ImeModel.Update(s.(active := true), env));
    }

    method DestroyImeWindow()
      requires Valid()
      modifies this, platform
      ensures Valid()
      ensures State() == ImeModel.Destroy(old(State())).state
      ensures platform.log == old(platform.log) + ImeModel.Destroy(old(State())).effects
    {
      ImeModel.DestroyPreserves(State(), platform.log);
      if windowHandle == NullWindow {
        return;
      }
      if imeActive {
        platform.DestroyCaret();
      }
      imeActive := false;
    }

    method UpdateImeWindow(env: Oracle)
      requires Valid()
      modifies platform
      ensures Valid()
      ensures platform.log == old(platform.log) + ImeModel.Update(State(), env)
    {
      ImeModel.UpdatePreserves(State(), platform.log, env);
      if windowHandle == NullWindow {
        return;
      }
      MoveImeWindow(env);
    }

    method UpdateCaretRect(rect: Rect, env: Oracle)
      requires Valid()
      modifies this, platform
      ensures Valid()
      ensures State() == ImeModel.UpdateCaret(old(State()), rect, env).state
      ensures platform.log == old(platform.log) + ImeModel.UpdateCaret(old(State()), rect, env).effects
    {
      caretRect := rect;
      if windowHandle == NullWindow {
        return;
      }
      ImeModel.UpdatePreserves(State(), platform.log, env);
      MoveImeWindow(env);
    }

    method GetComposingCursorPosition(env: Oracle) returns (pos: int)
      requires Valid()
      modifies platform
      ensures Valid()
      ensures pos == ImeModel.CursorPosition(State(), env).result
      ensures platform.log == old(platform.log) + ImeModel.CursorPosition(State(), env).effects
    {
      ImeModel.CursorPositionPreserves(State(), platform.log, env);
      if windowHandle == NullWindow {
        assert platform.log + [] == platform.log;
        return 0;
      }
      var imm := new ImmContext(windowHandle, env, platform);
      if imm.Get() != NullContext {
        pos := env.cursorPos;
      } else {
        pos := -1;
      }
      imm.Release();
      assert platform.log == old(platform.log) + ImeModel.CursorPosition(State(), env).effects;
    }

    method GetComposingString(env: Oracle) returns (text: Option<string>)
      requires Valid()
      modifies platform
      ensures Valid()
      ensures text.None? <==> ImeModel.ReadString(State(), CompositionString, env).result.None?
      ensures text.Some? ==> |text.value| == ImeModel.ReadString(State(), CompositionString, env).result.value
      ensures platform.log == old(platform.log) + ImeModel.ReadString(State(), CompositionString, env).effects
    {
      ImeModel.ReadStringPreserves(State(), CompositionString, platform.log, env);
      text := GetString(CompositionString, env);
    }

    method GetResultString(env: Oracle) returns (text: Option<string>)
      requires Valid()
      modifies platform
      ensures Valid()
      ensures text.None? <==> ImeModel.ReadString(State(), ResultString, env).result.None?
      ensures text.Some? ==> |text.value| == ImeModel.ReadString(State(), ResultString, env).result.value
      ensures platform.log == old(platform.log) + ImeModel.ReadString(State(), ResultString, env).effects
    {
      ImeModel.ReadStringPreserves(State(), ResultString, platform.log, env);
      text := GetString(ResultString, env);
    }

    /**
     * The shared read path.  The buffer is allocated with the reported
     * number of code units; what the platform then writes into it is not
     * modelled.
     */
    method GetString(kind: StringKind, env: Oracle) returns (text: Option<string>)
      modifies platform
      ensures text.None? <==> ImeModel.ReadString(State(), kind, env).result.None?
      ensures text.Some? ==> |text.value| == ImeModel.ReadString(State(), kind, env).result.value
      ensures platform.log == old(platform.log) + ImeModel.ReadString(State(), kind, env).effects
    {
      if windowHandle == NullWindow || !imeActive {
        return None;
      }
      var imm := new ImmContext(windowHandle, env, platform);
      if imm.Get() != NullContext {
        var composeBytes := env.Bytes(kind);
        var composeLength := composeBytes / ImeModel.WcharSize;
        if composeLength <= 0 {
          imm.Release();
          return None;
        }
        text := Some(seq(composeLength, _ => '\0'));
        imm.Release();
        return;
      }
      imm.Release();
      return None;
    }

    /** Place the caret and the IME windows at the caret rectangle's top-left. */
    method MoveImeWindow(env: Oracle)
      modifies platform
      ensures platform.log == old(platform.log) + ImeModel.Move(State(), env)
    {
      if env.focus != windowHandle || !imeActive {
        return;
      }
      var x := caretRect.left;
      var y := caretRect.top;
      platform.SetCaretPos(x, y);

      var imm := new ImmContext(windowHandle, env, platform);
      if imm.Get() != NullContext {
        platform.ImmSetCompositionWindow(imm.Get(), x, y);
        platform.ImmSetCandidateWindow(imm.Get(), x, y);
      }
      imm.Release();
    }
  }
}
