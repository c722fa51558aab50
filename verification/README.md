# WebViewEx in Dafny

A model of `WebViewEx`, the web view extensions of the UWP Community Toolkit, with proofs. The class has two parts.

- **The script bridge** (`script_bridge.dfy`, module `WebViewScript`).
  - `RunScriptAsync` wraps the caller's script in `try { … } catch`. The catch clause returns a JSON payload tagged with the sentinel key `wv_internal_error`.
  - The wrapped text is passed to the web view's `eval`.
  - The returned string is either passed back verbatim or, when it parses as a JSON object whose sentinel is boolean `true`, turned into a `JavaScriptInnerException`.
  - Every failure inside the helper is rethrown as a `JavaScriptExecutionException`. That exception names the caller's member, file and line and carries the original, unwrapped script.
  - `InvokeScriptAsync` encodes each argument and builds the call text `method(a1,a2,…);`.
- **The load-state machine** (`load_state.dfy`, module `WebViewLoad`).
  - The `HasLoaded` and `HideOnLoad` attached properties hide a view until its first navigation completes.
  - Class `WebView` holds the state in fields. Its methods are proved to perform the transitions given by value-level functions. Lemmas over event sequences prove the promise of the doc comment at WebViewEx.cs:37 (`HideOnLoadHidesUntilLoaded`). They also show that the promise at WebViewEx.cs:18 does not hold as written (`NavigationAloneNeverLoads`, explained below).
- **Text helpers** (`text.dfy`, module `Text`) support both parts.
  - decimal rendering of `int` (what `Int32.ToString` produces);
  - `string.Join` with a one-character separator;
  - their inverses, `ParseInt` and `Split`, which the round-trip lemmas use.

The collaborators the bridge calls are fields of a `Foreign` value, so every property holds whatever they do:
- the browser engine's `eval`;
- `JsonObject.TryParse`;
- `JsonConvert.ToString` and `JsonConvert.SerializeObject`;
- `Double.ToString` and `Object.ToString`.

Where the code's behaviour is easy to misread, the model follows the code:
- **Script errors are not reported separately from host failures.** The `JavaScriptInnerException` thrown at WebViewEx.cs:135 is raised inside the `try` of `RunScriptAsync` (WebViewEx.cs:102-104 and 115-117), so it reaches the caller wrapped in a `JavaScriptExecutionException` exactly like a host failure (`CaughtErrorIsWrapped`, `HostFailureIsWrapped`).
- **Arguments can fail before the `try`.** Argument encoding runs before that `try`. A null argument with `serialize == false` therefore throws `NullReferenceException` unwrapped (`EncodeArg`, `InvokeScript`).
- **A thrown non-Error loses the script's error.** `JSON.stringify` drops undefined properties. A script that throws a value without a `message` (`throw "oops"`) therefore yields a payload without `message`. Reading that member fails, and the failure is wrapped instead of the script's error (`CaughtNonErrorLosesMessage`).
- **`HasLoaded` is recorded only after `HideOnLoad` is set.** The doc comment at WebViewEx.cs:18 says `HasLoaded` becomes true once the first navigation completes. In the code it is set only by the navigation handler, which is subscribed only when `HideOnLoad` changes. A view that only navigates keeps `HasLoaded` false (`NavigationAloneNeverLoads`).

## Model

| member | source | states |
|---|---|---|
| `WebViewScript.Wrap` | Microsoft.Toolkit.Uwp.UI/Extensions/WebView/WebViewEx.cs:96-98 | the text given to eval is the fixed `try {\n` opening, then the script unchanged, then the fixed catch clause |
| `WebViewScript.UnwrapWrap` | Microsoft.Toolkit.Uwp.UI/Extensions/WebView/WebViewEx.cs:96-98 | stripping the fixed opening and catch clause from a wrapped script gives the script back |
| `WebViewScript.WrapUnwrap` | Microsoft.Toolkit.Uwp.UI/Extensions/WebView/WebViewEx.cs:96-98 | any text that unwraps to a script is exactly that script's wrapping |
| `WebViewScript.WrapInjective` | Microsoft.Toolkit.Uwp.UI/Extensions/WebView/WebViewEx.cs:96-98 | distinct scripts never produce the same wrapped text |
| `WebViewScript.Classify` | Microsoft.Toolkit.Uwp.UI/Extensions/WebView/WebViewEx.cs:131-139 | succeeds exactly when the string does not parse to an object whose sentinel is boolean true, and then returns the string unchanged; otherwise fails with the payload's message and stack, or with the failed read of a missing or non-string `message` or `stack` |
| `WebViewScript.RunScriptHelper` | Microsoft.Toolkit.Uwp.UI/Extensions/WebView/WebViewEx.cs:127-140 | a success is the host's verbatim string; a host failure is passed on; a non-JSON result is a success; its only failures are host, inner-script and payload-read failures |
| `WebViewScript.NewExecutionException` | Microsoft.Toolkit.Uwp.UI/Extensions/WebView/WebViewEx.cs:199-206 | the exception carries the given member, file name, line, script and inner exception, and its message starts with the fixed heading and the member |
| `WebViewScript.ExecutionMessageReadsBack` | Microsoft.Toolkit.Uwp.UI/Extensions/WebView/WebViewEx.cs:200 | member, line, file and script can all be read back from the exception message when member and file have no line break |
| `WebViewScript.RunScript` | Microsoft.Toolkit.Uwp.UI/Extensions/WebView/WebViewEx.cs:79-125 | on either dispatcher branch it succeeds exactly when the helper does, with the host's string; every failure is an execution exception with the caller's member, file and line, the unwrapped script, the helper's failure as inner exception, and the message built at line 200 |
| `WebViewScript.DispatcherBranchesAgree` | Microsoft.Toolkit.Uwp.UI/Extensions/WebView/WebViewEx.cs:100-124 | the on-thread and marshalled branches give the same outcome |
| `WebViewScript.PlainResultPassesThrough` | Microsoft.Toolkit.Uwp.UI/Extensions/WebView/WebViewEx.cs:129-139 | a result that is not JSON, not an object, or lacks a true sentinel is returned verbatim |
| `WebViewScript.HostFailureIsWrapped` | Microsoft.Toolkit.Uwp.UI/Extensions/WebView/WebViewEx.cs:100-124 | a failing host call surfaces as an execution exception naming the caller, with the host failure inside |
| `WebViewScript.CatchPayload` | Microsoft.Toolkit.Uwp.UI/Extensions/WebView/WebViewEx.cs:98 | the caught-error payload always carries the true sentinel, and carries `message` and `stack` exactly when the thrown value defines them |
| `WebViewScript.CaughtErrorIsWrapped` | Microsoft.Toolkit.Uwp.UI/Extensions/WebView/WebViewEx.cs:133-135 | a script error with string message and stack never succeeds: it surfaces as an execution exception whose inner exception carries that message and stack |
| `WebViewScript.CaughtNonErrorLosesMessage` | Microsoft.Toolkit.Uwp.UI/Extensions/WebView/WebViewEx.cs:135 | a thrown value without a message surfaces as the wrapped failure to read `message` |
| `WebViewScript.EncodeArg` | Microsoft.Toolkit.Uwp.UI/Extensions/WebView/WebViewEx.cs:159-179 | ints become decimal text that reads back as the same number; doubles use ToString; strings become a JSON string literal when serializing and stay as they are otherwise; other values and null go to the serializer with the camel-case, ignore-nulls settings; without serializing, objects use ToString and null throws a null reference |
| `WebViewScript.EncodeArgs` | Microsoft.Toolkit.Uwp.UI/Extensions/WebView/WebViewEx.cs:161-179 | on success the encoded list has the arguments' length and order, element by element; on failure the error is that of the first argument that fails, every earlier one succeeding |
| `WebViewScript.CallText` | Microsoft.Toolkit.Uwp.UI/Extensions/WebView/WebViewEx.cs:182 | call text starts with the method name and `(` and ends with `);`; zero arguments give `method();` |
| `WebViewScript.GetString` | Microsoft.Toolkit.Uwp.UI/Extensions/WebView/WebViewEx.cs:135 | reading a member succeeds exactly when it is present and a string, giving that string; otherwise it fails naming the key |
| `WebViewScript.ExecutionMessage` | Microsoft.Toolkit.Uwp.UI/Extensions/WebView/WebViewEx.cs:200 | the message starts with the fixed heading, the member and the line label, and ends with the unwrapped script and a line break; `ExecutionMessageReadsBack` reads every part back |
| `WebViewScript.Rethrow` | Microsoft.Toolkit.Uwp.UI/Extensions/WebView/WebViewEx.cs:106-109 | a success passes through unchanged; a failure becomes an execution exception with the caller's member, file, line and unwrapped script and the failure as inner exception (the same catch stands at lines 119-122) |
| `Text.IntToDecimal` | Microsoft.Toolkit.Uwp.UI/Extensions/WebView/WebViewEx.cs:165 | `Int32.ToString`: a leading `-` exactly for negative numbers, then digits only, so never a comma, space, line break or `(`; `ParseIntToDecimal` reads it back |
| `Text.Join` | Microsoft.Toolkit.Uwp.UI/Extensions/WebView/WebViewEx.cs:182 | `string.Join`: no parts give empty text and the first part starts the result; `SplitJoin` splits it back into the parts |
| `WebViewLoad.Unsubscribe` | Microsoft.Toolkit.Uwp.UI/Extensions/WebView/WebViewEx.cs:58 | `-=` removes exactly one subscription when there is one and is a no-op otherwise (the same removal stands at line 74) |
| `WebViewScript.ParseCallText` | Microsoft.Toolkit.Uwp.UI/Extensions/WebView/WebViewEx.cs:182 | method name and encoded arguments read back from the call text when the name has no `(` and no argument is empty or holds a comma |
| `WebViewScript.InvokeScript` | Microsoft.Toolkit.Uwp.UI/Extensions/WebView/WebViewEx.cs:148-185 | an encoding failure reaches the caller unwrapped; otherwise the outcome is that of running the call text as a script for the same caller |
| `WebViewScript.IntArgumentsReadBack` | Microsoft.Toolkit.Uwp.UI/Extensions/WebView/WebViewEx.cs:157-184 | with int arguments, in either mode, encoding succeeds and the method name and every argument value read back from the call text the host evaluates |
| `Text.ParseIntToDecimal` | Microsoft.Toolkit.Uwp.UI/Extensions/WebView/WebViewEx.cs:165 | every int's decimal text reads back as that int |
| `Text.SplitJoin` | Microsoft.Toolkit.Uwp.UI/Extensions/WebView/WebViewEx.cs:182 | joining comma-free pieces with commas and splitting again gives the pieces back |
| `WebViewLoad.OnHideOnLoadChanged` | Microsoft.Toolkit.Uwp.UI/Extensions/WebView/WebViewEx.cs:53-66 | the callback leaves exactly one handler subscribed, keeps HasLoaded, and collapses the view exactly when the new value is true and the view is not loaded (a collapsed view stays collapsed) |
| `WebViewLoad.OnNavigationCompleted` | Microsoft.Toolkit.Uwp.UI/Extensions/WebView/WebViewEx.cs:68-77 | the handler makes the view visible and loaded and unsubscribes itself |
| `WebViewLoad.SetHideOnLoad` | Microsoft.Toolkit.Uwp.UI/Extensions/WebView/WebViewEx.cs:46-66 | the property takes the new value; HasLoaded is unchanged; setting the current value changes nothing; a change leaves one handler subscribed; the view ends collapsed exactly when it was collapsed or the value changes to true on a view that is not loaded |
| `WebViewLoad.CompleteNavigation` | Microsoft.Toolkit.Uwp.UI/Extensions/WebView/WebViewEx.cs:68-77 | a completed navigation with the handler subscribed shows the view and marks it loaded; without a subscription nothing changes |
| `WebViewLoad.RunKeepsConsistent` | Microsoft.Toolkit.Uwp.UI/Extensions/WebView/WebViewEx.cs:53-77 | after any events there is at most one subscription, and a collapsed view is unloaded with its handler subscribed |
| `WebViewLoad.HasLoadedIsSticky` | Microsoft.Toolkit.Uwp.UI/Extensions/WebView/WebViewEx.cs:27-30 | once HasLoaded is true it stays true after any events |
| `WebViewLoad.OnlyTheHandlerLoads` | Microsoft.Toolkit.Uwp.UI/Extensions/WebView/WebViewEx.cs:76 | HasLoaded becomes true only through a completed navigation with the handler subscribed |
| `WebViewLoad.NavigationAloneNeverLoads` | Microsoft.Toolkit.Uwp.UI/Extensions/WebView/WebViewEx.cs:17-34 | a fresh view that only navigates, without HideOnLoad ever set, keeps its initial state, HasLoaded false |
| `WebViewLoad.RunKeepsShownOnlyWhenLoaded` | Microsoft.Toolkit.Uwp.UI/Extensions/WebView/WebViewEx.cs:36-37 | from a consistent state in which a visible view is loaded, that stays so after any events |
| `WebViewLoad.HideOnLoadHidesUntilLoaded` | Microsoft.Toolkit.Uwp.UI/Extensions/WebView/WebViewEx.cs:36-77 | after HideOnLoad is set on a fresh view, the view is shown only once loaded, and the next completed navigation shows it and marks it loaded |
| `WebViewLoad.WebView.constructor` | Microsoft.Toolkit.Uwp.UI/Extensions/WebView/WebViewEx.cs:33-53 | a new view has both properties false, is visible and has no handler |
| `WebViewLoad.WebView.GetHasLoaded` | Microsoft.Toolkit.Uwp.UI/Extensions/WebView/WebViewEx.cs:22-25 | reads the HasLoaded state |
| `WebViewLoad.WebView.HideOnLoadChanged` | Microsoft.Toolkit.Uwp.UI/Extensions/WebView/WebViewEx.cs:53-66 | the fields change exactly as `OnHideOnLoadChanged` says |
| `WebViewLoad.WebView.SetHideOnLoad` | Microsoft.Toolkit.Uwp.UI/Extensions/WebView/WebViewEx.cs:46-49 | keeps the invariant; the fields change as `SetHideOnLoad` says; HasLoaded is unchanged |
| `WebViewLoad.WebView.NavigationCompletedHandler` | Microsoft.Toolkit.Uwp.UI/Extensions/WebView/WebViewEx.cs:68-77 | the fields change exactly as `OnNavigationCompleted` says |
| `WebViewLoad.WebView.RaiseNavigationCompleted` | Microsoft.Toolkit.Uwp.UI/Extensions/WebView/WebViewEx.cs:68-77 | keeps the invariant; HasLoaded never goes back to false; afterwards the view is visible |

## Left out

- WebViewLoad.SetHideOnLoad: promises exactly one subscribed handler only when the value changes. The property system runs the change callback only on a change, so setting the current value again (for example `false` on a fresh view) subscribes nothing. The callback itself (`OnHideOnLoadChanged`) always leaves exactly one handler.
- Thread affinity. The dispatcher check (`HasThreadAccess`), marshalling through `RunTaskAsync` and `async`/`Task` mechanics are not modelled. Both branches are the same sequential computation, selected by a `hasThreadAccess` flag.
- The browser engine. The web view's `eval` is a pure function from script text to a returned string or a raised failure. The engine's state across calls is not modelled.
- `JsonObject.TryParse` is a parameter. The reading of members (`result[key].GetString()`) is modelled. Every failure of a missing or non-string member is one `JsonAccessFailure(key)`; the platform's exact exception types are not modelled.
- `JsonConvert.ToString`, `JsonConvert.SerializeObject`, `Double.ToString` and `Object.ToString` are parameters. Their output formats, culture-dependent number formatting and camel-casing are not modelled. The settings passed to the serializer are modelled.
- `Object.ToString` is treated as total. A user override that throws is not modelled.
- `RunScriptAsync<T>`: the code returns the helper's string and contains no conversion to `T`. The model returns the string.
- `Int32.ToString` uses the current culture's negative sign. The model uses `-`.
- Null `member` or `file` (C# would concatenate them as empty text) and a null `args` array are not modelled. All strings are present.
- `SetHideOnLoad` on a `DependencyObject` that is not a `WebView` (where `d as WebView` yields null) is not modelled. Only web views are modelled.
- `GetHideOnLoad` is the `hideOnLoad` field read directly. It has no member of its own.
- Dependency-property registration, binding, animation and styling are not modelled. So are the property system's change notification beyond "the callback runs only when the value changes", visibility changes made by other code, and other subscribers to `NavigationCompleted`.
- `UITests/UITests.Tests.Shared/Test.cs` is not part of this model. It drives an external UI and has no logic of its own.
