# IME window positioning and range formatting, modelled in Dafny

This project models two pieces of a GUI engine's Windows embedding layer.

**The IME manager (`TextInputManager`).** It tracks a window handle (possibly null), a flag saying whether an IME session is active, and the caret rectangle. It keeps the platform's composition window and candidate window next to the caret. The public calls are:

- `SetWindowHandle`, `CreateImeWindow`, `DestroyImeWindow`, `UpdateImeWindow` and `UpdateCaretRect`;
- the readers `GetComposingCursorPosition`, `GetComposingString` and `GetResultString`, which share `GetString`;
- the internal `MoveImeWindow`.

Each of these is a guarded transition. A null handle makes create, destroy and update do nothing. Repositioning does nothing unless the window has the focus and the session is active. Creating a session makes a 1×1 system caret. Destroying it removes the caret. `ImmContext` is a scoped guard: it acquires the window's input context when built and releases it when its scope ends.

**`gfx::Range::ToString`.** It writes a range as `{start,end}` plus a newline. `operator<<` appends that text to a stream.

Files:

- `win32.dfy` (module `Win32`): the platform. Window and context handles, the caret rectangle's top-left corner, and an `Effect` entry for each Win32/IMM32 call that changes platform state. The `Platform` class keeps those entries in a ghost log. An `Oracle` value supplies what the platform answers: the focused window, the context `ImmGetContext` hands out, the cursor position, and the byte length of each string. The module also has two replay functions over the log. `CaretAfter` checks the one-caret discipline. `ContextsAfter` checks that every acquired context is released exactly once, using a multiset of open leases.
- `ime_model.dfy` (module `ImeModel`): one function per operation that gives the state it leaves and the platform calls it makes, in order. It also defines `Step` and `Run` over any sequence of public calls, and the lemmas.
- `text_input_manager.dfy` (module `TextInput`): the classes `ImmContext` and `TextInputManager`. Their methods update the fields and call the `Platform`. Each public method of `TextInputManager` is proved to match its `ImeModel` function exactly and to keep `Valid()`: the caret exists exactly while the session is active, and no context is held. The shared helpers `GetString` and `MoveImeWindow` are proved to match their functions; the public methods that call them keep `Valid()`.
- `range.dfy` (module `GfxRange`): `NatToDecimal`, `ToString`, and the stream insertion `Insert`. The stream is modelled as the text it holds. The module also has a parser, `ParseRange`, proved to be a left inverse of `ToString`: parsing the text gives back the range.
- `wrappers.dfy`: `Option`.

`UpdateCaretRect` repositions only when the window has the focus and the session is active, because `MoveImeWindow` checks both (`text_input_manager.cc:145`). The model keeps that guard.

## Model

| member | source | states |
|---|---|---|
| `TextInput.ImmContext.constructor` | shell/platform/windows/text_input_manager.cc:34-38 | With a null window, no context is acquired and no call is made. Otherwise one `ImmGetContext` call is logged and its result is held. |
| `TextInput.ImmContext.Get` | shell/platform/windows/text_input_manager.cc:46-48 | Returns the context the constructor acquired, `NullContext` if none was. |
| `TextInput.ImmContext.Release` | shell/platform/windows/text_input_manager.cc:40-44 | The destructor. It releases the held context only if both window and context are non-null. It can run once per guard. |
| `TextInput.TextInputManager.SetWindowHandle` | shell/platform/windows/text_input_manager.cc:51-53 | Replaces the handle. Nothing else changes and no platform call is made. |
| `TextInput.TextInputManager.CreateImeWindow` | shell/platform/windows/text_input_manager.cc:55-70 | New state and platform calls are exactly `ImeModel.Create`: a caret is created only when inactive, the session becomes active, then the IME windows are repositioned. Keeps `Valid()`. |
| `TextInput.TextInputManager.DestroyImeWindow` | shell/platform/windows/text_input_manager.cc:72-82 | New state and calls are exactly `ImeModel.Destroy`. Keeps `Valid()`. |
| `TextInput.TextInputManager.UpdateImeWindow` | shell/platform/windows/text_input_manager.cc:84-89 | State unchanged. Calls are exactly `ImeModel.Update`: none for a null window, else `MoveImeWindow`'s. Keeps `Valid()`. |
| `TextInput.TextInputManager.UpdateCaretRect` | shell/platform/windows/text_input_manager.cc:91-98 | Stores the rectangle even with a null window. Calls are exactly `ImeModel.UpdateCaret`. Keeps `Valid()`. |
| `TextInput.TextInputManager.GetComposingCursorPosition` | shell/platform/windows/text_input_manager.cc:100-113 | Result and calls are those of `ImeModel.CursorPosition`: 0 without a window, -1 without a context, else the platform's position. |
| `TextInput.TextInputManager.GetComposingString` | shell/platform/windows/text_input_manager.cc:115-117 | Runs the read path with the composition-string selector. None exactly when `ImeModel.ReadString` gives None, else that many code units. |
| `TextInput.TextInputManager.GetResultString` | shell/platform/windows/text_input_manager.cc:119-121 | The same, with the result-string selector. |
| `TextInput.TextInputManager.GetString` | shell/platform/windows/text_input_manager.cc:123-142 | None in exactly the guarded cases. Otherwise a text of `bytes / 2` code units. Its calls are `ImeModel.ReadString`'s. |
| `TextInput.TextInputManager.MoveImeWindow` | shell/platform/windows/text_input_manager.cc:144-160 | Its platform calls are exactly `ImeModel.Move` of the current state. The manager's fields do not change. |
| `ImeModel.NullWindowIsInert` | shell/platform/windows/text_input_manager.cc:55-89 | With a null handle, create, destroy and update leave the state unchanged and make no call. |
| `ImeModel.CreateSpec` | shell/platform/windows/text_input_manager.cc:55-70 | With a window, create always activates the session. It creates a caret only if the session was inactive and destroys none. Two creates in a row create one caret between them (none if already active). |
| `ImeModel.DestroySpec` | shell/platform/windows/text_input_manager.cc:72-82 | With a window, destroy always deactivates. It destroys a caret only if the session was active. A second destroy changes nothing and calls nothing. |
| `ImeModel.UpdateCaretSpec` | shell/platform/windows/text_input_manager.cc:91-98 | The rectangle is always stored. A null window means no call. Otherwise the calls are a reposition at the new rectangle. |
| `ImeModel.MoveSpec` | shell/platform/windows/text_input_manager.cc:144-160 | No call unless the window has the focus and the session is active. Every positioning call uses the caret's top-left. With a context, both the composition and candidate windows are set there; without one, neither is. No caret is created or destroyed, and contexts balance. When focused and active, the first call is `SetCaretPos`, and the positioning calls are, in order, `SetCaretPos`, `ImmSetCompositionWindow`, `ImmSetCandidateWindow` with a context, and `SetCaretPos` alone without one. |
| `ImeModel.GuardedBalanced` | shell/platform/windows/text_input_manager.cc:34-44 | A guard's scope releases every context it acquires, exactly once. |
| `ImeModel.ReadStringSpec` | shell/platform/windows/text_input_manager.cc:123-142 | None if and only if: the window is null, or the session is inactive, or there is no context, or `bytes / 2 <= 0`. Otherwise the length is `bytes / 2`, and at least 1. No call for the first two guards. Contexts balance. |
| `ImeModel.CodeUnitsPositive` | shell/platform/windows/text_input_manager.cc:130-133 | The code-unit count is positive exactly when at least two bytes are reported. |
| `ImeModel.CursorPositionSpec` | shell/platform/windows/text_input_manager.cc:100-113 | 0 and no call for a null window. -1 without a context. The platform's cursor position otherwise. Contexts balance. |
| `ImeModel.ActivatePreserves` | shell/platform/windows/text_input_manager.cc:63-66 | Creating the caret only when inactive, then activating, keeps the caret-exists-iff-active invariant. |
| `ImeModel.CreatePreserves` | shell/platform/windows/text_input_manager.cc:55-70 | Create keeps `Consistent`: caret exists iff active, contexts balanced. |
| `ImeModel.DestroyPreserves` | shell/platform/windows/text_input_manager.cc:72-82 | Destroy keeps `Consistent`. |
| `ImeModel.UpdatePreserves` | shell/platform/windows/text_input_manager.cc:84-98 | A reposition keeps `Consistent`. |
| `ImeModel.CursorPositionPreserves` | shell/platform/windows/text_input_manager.cc:100-113 | Reading the cursor position keeps `Consistent`. |
| `ImeModel.ReadStringPreserves` | shell/platform/windows/text_input_manager.cc:123-142 | Reading a string keeps `Consistent`. |
| `ImeModel.StepPreserves` | shell/platform/windows/text_input_manager.cc:51-160 | Every public call keeps `Consistent`. |
| `ImeModel.RunPreserves` | shell/platform/windows/text_input_manager.cc:51-160 | Any sequence of public calls keeps `Consistent`. |
| `ImeModel.RunFromInitial` | shell/platform/windows/text_input_manager.cc:55-82 | From a fresh manager, after any sequence of calls: the caret exists exactly while active, `CreateCaret` calls minus `DestroyCaret` calls equal 1 if active else 0, and every acquired context was released exactly once. |
| `Win32.CaretBalance` | shell/platform/windows/text_input_manager.cc:63-81 | A log that keeps the one-caret discipline has creates minus destroys equal to the end state minus the start state. |
| `GfxRange.NatToDecimal` | third_party/accessibility/gfx/range/range.cc:16 | The rendering has `Digits(n)` characters, all decimal digits, and a leading `0` only for zero. |
| `GfxRange.DecimalRoundTrip` | third_party/accessibility/gfx/range/range.cc:16 | Reading a number's rendering back gives the number. |
| `GfxRange.ToString` | third_party/accessibility/gfx/range/range.cc:14-18 | The text starts with `{`, ends with `}` and a newline, has length `4 + digits(start) + digits(end)`, and contains exactly one `,`. |
| `GfxRange.ToStringShape` | third_party/accessibility/gfx/range/range.cc:16 | The text is `{`, the decimal start, `,`, the decimal end, `}`, newline. Between the braces lie exactly the two renderings and the comma. |
| `GfxRange.RangeRoundTrip` | third_party/accessibility/gfx/range/range.cc:14-18 | Parsing the text gives back the range. |
| `GfxRange.ParseFormatted` | third_party/accessibility/gfx/range/range.cc:16 | Any two digit strings placed in the fixed punctuation parse to their values. |
| `GfxRange.ToStringDeterminedByEndpoints` | third_party/accessibility/gfx/range/range.cc:14-18 | Two ranges give equal text if and only if their starts and ends are equal. |
| `GfxRange.ToStringExample` | third_party/accessibility/gfx/range/range.cc:16 | The range [3, 7) is written `{3,7}` and a newline. |
| `GfxRange.Insert` | third_party/accessibility/gfx/range/range.cc:20-22 | `os << r` keeps the stream's earlier text, grows it by the length of `ToString(r)`, and what it appends parses back to `r`. |
| `GfxRange.InsertTwice` | third_party/accessibility/gfx/range/range.cc:20-22 | Two insertions append the two texts in order and nothing else. |

## Left out

- The Win32 and IMM32 calls themselves are not modelled. Their effects are only log entries. Their answers (focused window, context handed out, cursor position, byte lengths) are `Oracle` parameters, fixed for the duration of one public call.
- `GetFocus` and `ImmGetCompositionString` only read platform state, so they are not logged.
- TextInput.TextInputManager.GetString: states only the length of the returned text, not its contents. The platform writes the UTF-16 contents into the buffer, and the code states nothing about them.
- TextInput.TextInputManager.GetComposingString: the same. Only the length of the text is stated.
- TextInput.TextInputManager.GetResultString: the same. Only the length of the text is stated.
- `sizeof(wchar_t) == 2` is the constant `ImeModel.WcharSize`. It is assumed, not derived.
- The source divides a signed 32-bit byte count by an unsigned `sizeof`. The model divides by 2 with Dafny's floor division. On 64-bit Windows both give a non-positive length for every byte count below 2, and equal lengths otherwise. 32-bit builds are not modelled.
- The `COMPOSITIONFORM` and `CANDIDATEFORM` layouts and the `CFS_*` and `GCS_*` constants are not modelled. Only the context and the (x, y) point are kept. The selector is the enum `StringKind`.
- Only `left` and `top` of the caret rectangle are modelled, as integers. Its header is not part of this model, so any conversion of its coordinates to `LONG` is left out.
- The class declaration of `TextInputManager` is not part of this model. Its constructor assumes the initial state is a null handle, an inactive session, and a zero rectangle.
- `ImmContext` cannot be copied in the source. The model has no such rule: Dafny references can alias. The methods never share a guard, and each releases its guard exactly once.
- The endpoint width of `gfx::Range` is not modelled: its header is not part of this model. Endpoints are naturals, and the formatter is stated for every natural.
- The internals of `std::ostringstream` and the flush done by `std::endl` are not modelled. Only the characters written matter.
- The code does not use threads, so concurrency is not modelled.
