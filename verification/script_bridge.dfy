/** The script bridge of WebViewEx: wrapping a caller's script in a try/catch
    whose catch returns a sentinel-tagged JSON payload, classifying the text
    the web view's `eval` returns, rethrowing every failure as a
    JavaScriptExecutionException that names the caller, and assembling the
    call text `method(a1,a2,...);` for InvokeScriptAsync.

    The browser engine, the JSON parser of Windows.Data.Json, Newtonsoft's
    JsonConvert and .NET's ToString for doubles and arbitrary objects are not
    part of this model: they enter as the fields of a `Foreign` value, so every
    property below holds whatever those collaborators do. */
module WebViewScript {
  import opened Text

  /** C#'s `int`, the type of the caller's line number and of int arguments. */
  newtype int32 = x: int | -0x8000_0000 <= x < 0x8000_0000

  /** A JSON value as the host's parser presents it (RFC 8259); numbers keep their lexeme. */
  datatype JsonValue =
    | JNull
    | JBool(b: bool)
    | JNumber(lexeme: string)
    | JString(str: string)
    | JArray(items: seq<JsonValue>)
    | JObject(members: map<string, JsonValue>)

  type JsonObject = map<string, JsonValue>

  /** The exceptions that can reach a caller of the bridge. */
  datatype Exception =
      /** anything the web view's InvokeScriptAsync("eval", ...) throws */
    | HostFailure(reason: string)
      /** the JsonObject indexer or GetString on a missing or non-string member */
    | JsonAccessFailure(key: string)
      /** item.ToString() on a null argument */
    | NullReference
      /** whatever JsonConvert.SerializeObject throws */
    | SerializationFailure(reason: string)
      /** JavaScriptInnerException: the script's own error, read from the payload */
    | JavaScriptInner(message: string, javaScriptStackTrace: string)
      /** JavaScriptExecutionException */
    | JavaScriptExecution(message: string, member: string, fileName: string,
                          lineNumber: int32, script: string, inner: Exception)

  /** The result of an awaited call: a value, or the exception it throws. */
  datatype Outcome<+T> = Ok(value: T) | Fail(error: Exception)

  /** What awaiting the web view's eval gives: the returned string or a thrown failure. */
  datatype HostResult = Returned(text: string) | Raised(reason: string)

  /** An argument of InvokeScriptAsync, by its run-time type. `Object` stands
      for every other .NET object (longs, floats, records, ...), named by a handle. */
  datatype Value = Null | Int(i: int32) | Double(bits: bv64) | Str(s: string) | Object(handle: nat)

  datatype SerializerSettings = SerializerSettings(ignoreNullValues: bool, camelCasePropertyNames: bool)

  /** The bridge's fixed serializer settings: NullValueHandling.Ignore and
      CamelCasePropertyNamesContractResolver. */
  const BridgeSettings := SerializerSettings(ignoreNullValues := true, camelCasePropertyNames := true)

  /** The collaborators the bridge calls but does not define. */
  datatype Foreign = Foreign(
    eval: string -> HostResult,                                  // WebView.InvokeScriptAsync("eval", [script])
    tryParse: string -> Option<JsonObject>,                      // JsonObject.TryParse
    jsonString: string -> string,                                // JsonConvert.ToString on a string
    serializeObject: (Value, SerializerSettings) -> Outcome<string>, // JsonConvert.SerializeObject
    formatDouble: bv64 -> string,                                // Double.ToString()
    objectToString: nat -> string)                               // Object.ToString()

  // ---------------------------------------------------------------------------
  // Wrapping

  const TryOpen := "try {\n"
  const CatchTail := "\n} catch (err) { JSON.stringify({ wv_internal_error: true, message: err.message, description: err.description, number: err.number, stack: err.stack }); }"
  const SentinelKey := "wv_internal_error"

  /** The text handed to eval: the caller's script between a fixed opening and a fixed catch clause. */
  function Wrap(script: string): (full: string)
    ensures |full| == |TryOpen| + |script| + |CatchTail|
    ensures HasPrefix(full, TryOpen)
    ensures full[|TryOpen|..|TryOpen| + |script|] == script
    ensures full[|full| - |CatchTail|..] == CatchTail
  {
    TryOpen + script + CatchTail
  }

  /** Strips the fixed opening and catch clause, if both are there. */
  function Unwrap(full: string): Option<string>
  {
    if |full| >= |TryOpen| + |CatchTail| && full[..|TryOpen|] == TryOpen
       && full[|full| - |CatchTail|..] == CatchTail
    then Some(full[|TryOpen|..|full| - |CatchTail|])
    else None
  }

  lemma UnwrapWrap(script: string)
    ensures Unwrap(Wrap(script)) == Some(script)
  {
  }

  lemma WrapUnwrap(full: string, script: string)
    requires Unwrap(full) == Some(script)
    ensures Wrap(script) == full
  {
    assert full == full[..|TryOpen|] + full[|TryOpen|..|full| - |CatchTail|] + full[|full| - |CatchTail|..];
  }

  /** Distinct scripts are never wrapped into the same text. */
  lemma WrapInjective(a: string, b: string)
    requires Wrap(a) == Wrap(b)
    ensures a == b
  {
    UnwrapWrap(a);
    UnwrapWrap(b);
  }

  // ---------------------------------------------------------------------------
  // Classification of the host's string

  /** The payload marks a caught script error: the sentinel is present and is boolean true. */
  predicate IsErrorPayload(o: JsonObject)
  {
    SentinelKey in o && o[SentinelKey] == JBool(true)
  }

  predicate HasString(o: JsonObject, key: string)
  {
    key in o && o[key].JString?
  }

  /** `result[key].GetString()`. */
  function GetString(o: JsonObject, key: string): (r: Outcome<string>)
    ensures r.Ok? <==> key in o && o[key].JString?
    ensures r.Ok? ==> r.value == o[key].str
    ensures r.Fail? ==> r.error == JsonAccessFailure(key)
  {
    if HasString(o, key) then Ok(o[key].str) else Fail(JsonAccessFailure(key))
  }

  /** The body of RunScriptHelperAsync after the eval returned `returnString`,
      given what JsonObject.TryParse made of it. */
  function Classify(returnString: string, parsed: Option<JsonObject>): (r: Outcome<string>)
    ensures r.Ok? <==> !(parsed.Some? && IsErrorPayload(parsed.value))
    ensures r.Ok? ==> r.value == returnString
    ensures parsed.Some? && IsErrorPayload(parsed.value) ==>
              if !HasString(parsed.value, "message") then r == Fail(JsonAccessFailure("message"))
              else if !HasString(parsed.value, "stack") then r == Fail(JsonAccessFailure("stack"))
              else r == Fail(JavaScriptInner(parsed.value["message"].str, parsed.value["stack"].str))
  {
    match parsed
    case None => Ok(returnString)
    case Some(result) =>
      if SentinelKey in result && result[SentinelKey].JBool? && result[SentinelKey].b then
        match GetString(result, "message")
        case Fail(e) => Fail(e)
        case Ok(message) =>
          match GetString(result, "stack")
          case Fail(e) => Fail(e)
          case Ok(stack) => Fail(JavaScriptInner(message, stack))
      else Ok(returnString)
  }

  /** RunScriptHelperAsync: evaluate, then classify the returned string. */
  function RunScriptHelper(f: Foreign, script: string): (r: Outcome<string>)
    ensures r.Ok? ==> f.eval(script) == Returned(r.value)
    ensures f.eval(script).Raised? ==> r == Fail(HostFailure(f.eval(script).reason))
    ensures f.eval(script).Returned? && f.tryParse(f.eval(script).text).None? ==> r == Ok(f.eval(script).text)
    ensures r.Fail? ==> r.error.HostFailure? || r.error.JavaScriptInner? || r.error.JsonAccessFailure?
  {
    match f.eval(script)
    case Raised(reason) => Fail(HostFailure(reason))
    case Returned(returnString) => Classify(returnString, f.tryParse(returnString))
  }

  // ---------------------------------------------------------------------------
  // The execution exception

  const MessageHead := "Error Executing JavaScript Code for "

  /** The message JavaScriptExecutionException passes to its base class. */
  function ExecutionMessage(member: string, fileName: string, line: int32, script: string): (m: string)
    ensures HasPrefix(m, MessageHead + member + "\nLine ")
    ensures |m| > |script| && m[|m| - |script| - 1..] == script + "\n"
  {
    MessageHead + member + "\nLine " + IntToDecimal(line as int) + " of " + fileName + "\n" + script + "\n"
  }

  /** The JavaScriptExecutionException constructor. */
  function NewExecutionException(member: string, fileName: string, line: int32, script: string,
                                 inner: Exception): (e: Exception)
    ensures e.JavaScriptExecution?
    ensures e.member == member && e.fileName == fileName && e.lineNumber == line
    ensures e.script == script && e.inner == inner
    ensures HasPrefix(e.message, MessageHead + member + "\nLine ")
  {
    JavaScriptExecution(ExecutionMessage(member, fileName, line, script), member, fileName, line, script, inner)
  }

  datatype CallSite = CallSite(member: string, fileName: string, line: int, script: string)

  /** Reads "<file>\n<script>\n": the file name ends at the first line break. */
  function ParseFileAndScript(atFile: string): Option<(string, string)>
  {
    match IndexOf(atFile, '\n')
    case None => None
    case Some(k) =>
      var tail := atFile[k + 1..];
      if |tail| == 0 || tail[|tail| - 1] != '\n' then None
      else Some((atFile[..k], tail[..|tail| - 1]))
  }

  /** Reads "<line> of <file>\n<script>\n". */
  function ParseLineFileAndScript(atLine: string): Option<(int, string, string)>
  {
    match IndexOf(atLine, ' ')
    case None => None
    case Some(j) =>
      match ParseInt(atLine[..j])
      case None => None
      case Some(line) =>
        var afterLine := atLine[j..];
        if !HasPrefix(afterLine, " of ") then None
        else
          match ParseFileAndScript(afterLine[4..])
          case None => None
          case Some((fileName, script)) => Some((line, fileName, script))
  }

  /** Reads "Line <line> of <file>\n<script>\n". */
  function ParseLineLabel(afterMember: string): Option<(int, string, string)>
  {
    if !HasPrefix(afterMember, "Line ") then None
    else ParseLineFileAndScript(afterMember[5..])
  }

  /** Reads "<member>\nLine <line> of <file>\n<script>\n". */
  function ParseMemberAndRest(afterHead: string): Option<CallSite>
  {
    match IndexOf(afterHead, '\n')
    case None => None
    case Some(i) =>
      match ParseLineLabel(afterHead[i + 1..])
      case None => None
      case Some((line, fileName, script)) => Some(CallSite(afterHead[..i], fileName, line, script))
  }

  /** Reads member, line, file and script back out of an execution message. */
  function ParseExecutionMessage(message: string): Option<CallSite>
  {
    if !HasPrefix(message, MessageHead) then None
    else ParseMemberAndRest(message[|MessageHead|..])
  }

  lemma FileAndScriptReadBack(fileName: string, script: string)
    requires '\n' !in fileName
    ensures ParseFileAndScript(fileName + "\n" + script + "\n") == Some((fileName, script))
  {
    var tail := script + "\n";
    var atFile := fileName + ['\n'] + tail;
    assert fileName + "\n" + script + "\n" == atFile;
    IndexOfAfter(fileName, '\n', tail);
    assert atFile[..|fileName|] == fileName;
    assert atFile[|fileName| + 1..] == tail;
    assert tail[..|tail| - 1] == script;
  }

  lemma LineFileAndScriptReadBack(line: int, atFile: string, fileName: string, script: string)
    requires ParseFileAndScript(atFile) == Some((fileName, script))
    ensures ParseLineFileAndScript(IntToDecimal(line) + " of " + atFile) == Some((line, fileName, script))
  {
    var digits := IntToDecimal(line);
    var rest := "of " + atFile;
    var atLine := digits + [' '] + rest;
    assert digits + " of " + atFile == atLine;
    IndexOfAfter(digits, ' ', rest);
    assert atLine[..|digits|] == digits;
    ParseIntToDecimal(line);
    var afterLine := atLine[|digits|..];
    assert afterLine == " of " + atFile;
    assert afterLine[4..] == atFile;
  }

  lemma LineLabelReadBack(atLine: string)
    ensures ParseLineLabel("Line " + atLine) == ParseLineFileAndScript(atLine)
  {
    PrefixThenRest("Line ", atLine);
  }

  lemma MemberAndRestReadBack(member: string, afterMember: string, line: int, fileName: string, script: string)
    requires '\n' !in member
    requires ParseLineLabel(afterMember) == Some((line, fileName, script))
    ensures ParseMemberAndRest(member + ['\n'] + afterMember) == Some(CallSite(member, fileName, line, script))
  {
    var afterHead := member + ['\n'] + afterMember;
    IndexOfAfter(member, '\n', afterMember);
    assert IndexOf(afterHead, '\n') == Some(|member|);
    assert afterHead[|member| + 1..] == afterMember;
    assert afterHead[..|member|] == member;
  }

  lemma MessageLayout(member: string, fileName: string, line: int32, script: string)
    ensures ExecutionMessage(member, fileName, line, script)
            == MessageHead + (member + ['\n'] + ("Line " + (IntToDecimal(line as int) + " of " + (fileName + "\n" + script + "\n"))))
  {
  }

  /** The message names the caller: member, line, file and original script can
      all be read back from it when member and file hold no line break. */
  lemma ExecutionMessageReadsBack(member: string, fileName: string, line: int32, script: string)
    requires '\n' !in member && '\n' !in fileName
    ensures ParseExecutionMessage(ExecutionMessage(member, fileName, line, script))
            == Some(CallSite(member, fileName, line as int, script))
  {
    var atFile := fileName + "\n" + script + "\n";
    var atLine := IntToDecimal(line as int) + " of " + atFile;
    var afterHead := member + ['\n'] + ("Line " + atLine);
    FileAndScriptReadBack(fileName, script);
    LineFileAndScriptReadBack(line as int, atFile, fileName, script);
    LineLabelReadBack(atLine);
    MemberAndRestReadBack(member, "Line " + atLine, line as int, fileName, script);
    MessageLayout(member, fileName, line, script);
    PrefixThenRest(MessageHead, afterHead);
  }

  // ---------------------------------------------------------------------------
  // RunScriptAsync

  /** The catch clause around the helper: every failure becomes an execution
      exception carrying the caller's identity and the unwrapped script. */
  function Rethrow(helper: Outcome<string>, member: string, fileName: string, line: int32,
                   script: string): (r: Outcome<string>)
    ensures helper.Ok? ==> r == helper
    ensures helper.Fail? ==> r.Fail? && r.error.JavaScriptExecution? && r.error.inner == helper.error
    ensures helper.Fail? ==> r.error.member == member && r.error.fileName == fileName
                             && r.error.lineNumber == line && r.error.script == script
  {
    match helper
    case Ok(text) => Ok(text)
    case Fail(e) => Fail(NewExecutionException(member, fileName, line, script, e))
  }

  /** RunScriptAsync (both overloads). `hasThreadAccess` selects the dispatcher
      branch; marshalling onto the UI thread is not modelled, so both branches
      run the same wrapped evaluation. */
  function RunScript(f: Foreign, script: string, member: string, fileName: string, line: int32,
                     hasThreadAccess: bool): (r: Outcome<string>)
    ensures r.Ok? <==> RunScriptHelper(f, Wrap(script)).Ok?
    ensures r.Ok? ==> f.eval(Wrap(script)) == Returned(r.value)
    ensures r.Fail? ==> r.error.JavaScriptExecution?
    ensures r.Fail? ==> r.error.member == member && r.error.fileName == fileName
                        && r.error.lineNumber == line && r.error.script == script
    ensures r.Fail? ==> r.error.inner == RunScriptHelper(f, Wrap(script)).error
    ensures r.Fail? ==> r.error.message == ExecutionMessage(member, fileName, line, script)
  {
    var fullscript := Wrap(script);
    if hasThreadAccess then
      Rethrow(RunScriptHelper(f, fullscript), member, fileName, line, script)
    else
      Rethrow(RunScriptHelper(f, fullscript), member, fileName, line, script)
  }

  /** Records the modelling choice above: with marshalling left out, the
      on-thread and marshalled branches are the same computation. This holds by
      construction of `RunScript`, not as a fact about the dispatcher. */
  lemma DispatcherBranchesAgree(f: Foreign, script: string, member: string, fileName: string, line: int32)
    ensures RunScript(f, script, member, fileName, line, true) == RunScript(f, script, member, fileName, line, false)
  {
  }

  /** A plain result (not JSON, not an object, or an object without a true
      sentinel) is returned verbatim. */
  lemma PlainResultPassesThrough(f: Foreign, script: string, member: string, fileName: string,
                                 line: int32, hasThreadAccess: bool, text: string)
    requires f.eval(Wrap(script)) == Returned(text)
    requires f.tryParse(text).None? || !IsErrorPayload(f.tryParse(text).value)
    ensures RunScript(f, script, member, fileName, line, hasThreadAccess) == Ok(text)
  {
  }

  /** A failure of the host itself surfaces wrapped, with the caller's identity. */
  lemma HostFailureIsWrapped(f: Foreign, script: string, member: string, fileName: string,
                             line: int32, hasThreadAccess: bool, reason: string)
    requires f.eval(Wrap(script)) == Raised(reason)
    ensures RunScript(f, script, member, fileName, line, hasThreadAccess)
            == Fail(NewExecutionException(member, fileName, line, script, HostFailure(reason)))
  {
  }

  /** What a caught JavaScript value offers the catch clause; None is `undefined`. */
  datatype Thrown = Thrown(message: Option<JsonValue>, description: Option<JsonValue>,
                           number: Option<JsonValue>, stack: Option<JsonValue>)

  function Defined(key: string, v: Option<JsonValue>): JsonObject
  {
    if v.Some? then map[key := v.value] else map[]
  }

  /** The object the catch clause stringifies: JSON.stringify drops undefined properties. */
  function CatchPayload(t: Thrown): (o: JsonObject)
    ensures IsErrorPayload(o)
    ensures "message" in o <==> t.message.Some?
    ensures t.message.Some? ==> o["message"] == t.message.value
    ensures "stack" in o <==> t.stack.Some?
    ensures t.stack.Some? ==> o["stack"] == t.stack.value
  {
    map[SentinelKey := JBool(true)] + Defined("message", t.message) + Defined("description", t.description)
      + Defined("number", t.number) + Defined("stack", t.stack)
  }

  /** A script that throws an Error with a string message and stack fails with
      an execution exception whose inner exception carries that message and stack:
      the inner error is wrapped exactly like a host failure, never returned. */
  lemma CaughtErrorIsWrapped(f: Foreign, script: string, member: string, fileName: string,
                             line: int32, hasThreadAccess: bool, text: string, thrown: Thrown,
                             message: string, stack: string)
    requires f.eval(Wrap(script)) == Returned(text)
    requires f.tryParse(text) == Some(CatchPayload(thrown))
    requires thrown.message == Some(JString(message)) && thrown.stack == Some(JString(stack))
    ensures RunScript(f, script, member, fileName, line, hasThreadAccess)
            == Fail(NewExecutionException(member, fileName, line, script, JavaScriptInner(message, stack)))
  {
  }

  /** A thrown value without a message (`throw "oops"`) loses the script's
      error: the payload has no message member and reading it fails instead. */
  lemma CaughtNonErrorLosesMessage(f: Foreign, script: string, member: string, fileName: string,
                                   line: int32, hasThreadAccess: bool, text: string, thrown: Thrown)
    requires f.eval(Wrap(script)) == Returned(text)
    requires f.tryParse(text) == Some(CatchPayload(thrown))
    requires thrown.message.None?
    ensures RunScript(f, script, member, fileName, line, hasThreadAccess)
            == Fail(NewExecutionException(member, fileName, line, script, JsonAccessFailure("message")))
  {
  }

  // ---------------------------------------------------------------------------
  // InvokeScriptAsync

  /** The per-argument lambda of InvokeScriptAsync. */
  function EncodeArg(f: Foreign, serialize: bool, item: Value): (r: Outcome<string>)
    ensures item.Int? ==> r.Ok? && ParseInt(r.value) == Some(item.i as int)
    ensures item.Double? ==> r == Ok(f.formatDouble(item.bits))
    ensures item.Str? ==> r == Ok(if serialize then f.jsonString(item.s) else item.s)
    ensures serialize && (item.Null? || item.Object?) ==> r == f.serializeObject(item, BridgeSettings)
    ensures !serialize && item.Object? ==> r == Ok(f.objectToString(item.handle))
    ensures !serialize && item.Null? ==> r == Fail(NullReference)
  {
    if serialize then
      match item
      case Int(i) => ParseIntToDecimal(i as int); Ok(IntToDecimal(i as int))
      case Double(bits) => Ok(f.formatDouble(bits))
      case Str(s) => Ok(f.jsonString(s))
      case _ => f.serializeObject(item, BridgeSettings)
    else
      match item
      case Null => Fail(NullReference)
      case Int(i) => ParseIntToDecimal(i as int); Ok(IntToDecimal(i as int))
      case Double(bits) => Ok(f.formatDouble(bits))
      case Str(s) => Ok(s)
      case Object(handle) => Ok(f.objectToString(handle))
  }

  /** `args.Select(...).ToArray()`: each argument encoded in order; the first failure propagates. */
  function EncodeArgs(f: Foreign, serialize: bool, args: seq<Value>): (r: Outcome<seq<string>>)
    ensures r.Ok? ==> |r.value| == |args|
    ensures r.Ok? ==> forall i :: 0 <= i < |args| ==> EncodeArg(f, serialize, args[i]) == Ok(r.value[i])
    ensures r.Fail? ==> exists i :: 0 <= i < |args| && EncodeArg(f, serialize, args[i]) == Fail(r.error)
                                    && forall j :: 0 <= j < i ==> EncodeArg(f, serialize, args[j]).Ok?
  {
    if |args| == 0 then Ok([])
    else
      match EncodeArg(f, serialize, args[0])
      case Fail(e) => Fail(e)
      case Ok(first) =>
        match EncodeArgs(f, serialize, args[1..])
        case Fail(e) =>
          assert exists i :: 0 <= i < |args| - 1 && EncodeArg(f, serialize, args[1..][i]) == Fail(e)
                             && forall j :: 0 <= j < i ==> EncodeArg(f, serialize, args[1..][j]).Ok?;
          var i :| 0 <= i < |args| - 1 && EncodeArg(f, serialize, args[1..][i]) == Fail(e)
                   && forall j :: 0 <= j < i ==> EncodeArg(f, serialize, args[1..][j]).Ok?;
          assert forall j :: 0 <= j < i + 1 ==> EncodeArg(f, serialize, args[j]).Ok? by {
            forall j | 0 <= j < i + 1 ensures EncodeArg(f, serialize, args[j]).Ok? {
              if j > 0 { assert args[j] == args[1..][j - 1]; }
            }
          }
          Fail(e)
        case Ok(rest) => Ok([first] + rest)
  }

  /** `methodName + "(" + string.Join(",", sanitizedargs) + ");"`. */
  function CallText(methodName: string, encoded: seq<string>): (text: string)
    ensures |encoded| == 0 ==> text == methodName + "();"
    ensures HasPrefix(text, methodName + "(")
    ensures |text| >= |methodName| + 3 && text[|text| - 2..] == ");"
  {
    methodName + "(" + Join(',', encoded) + ");"
  }

  /** Reads method name and argument texts back out of a call text. */
  function ParseCall(text: string): Option<(string, seq<string>)>
  {
    match IndexOf(text, '(')
    case None => None
    case Some(i) =>
      if |text| < i + 3 || text[|text| - 2..] != ");" then None
      else
        var inner := text[i + 1..|text| - 2];
        Some((text[..i], if inner == "" then [] else Split(inner, ',')))
  }

  /** The call text determines method name and arguments when the method name has
      no '(' and no encoded argument is empty or holds a comma. */
  lemma ParseCallText(methodName: string, encoded: seq<string>)
    requires '(' !in methodName
    requires forall i :: 0 <= i < |encoded| ==> encoded[i] != "" && ',' !in encoded[i]
    ensures ParseCall(CallText(methodName, encoded)) == Some((methodName, encoded))
  {
    var joined := Join(',', encoded);
    var text := CallText(methodName, encoded);
    assert text == methodName + ['('] + (joined + ");");
    IndexOfAfter(methodName, '(', joined + ");");
    assert text[..|methodName|] == methodName;
    assert text[|methodName| + 1..|text| - 2] == joined;
    if |encoded| > 0 {
      SplitJoin(encoded, ',');
      assert HasPrefix(joined, encoded[0]);
    }
  }

  /** InvokeScriptAsync. Argument encoding runs before RunScriptAsync's try,
      so its failures reach the caller unwrapped. */
  function InvokeScript(f: Foreign, methodName: string, member: string, fileName: string, line: int32,
                        serialize: bool, args: seq<Value>, hasThreadAccess: bool): (r: Outcome<string>)
    ensures EncodeArgs(f, serialize, args).Fail? ==> r == Fail(EncodeArgs(f, serialize, args).error)
    ensures EncodeArgs(f, serialize, args).Ok? ==>
              r == RunScript(f, CallText(methodName, EncodeArgs(f, serialize, args).value), member, fileName, line, hasThreadAccess)
  {
    match EncodeArgs(f, serialize, args)
    case Fail(e) => Fail(e)
    case Ok(sanitizedArgs) => RunScript(f, CallText(methodName, sanitizedArgs), member, fileName, line, hasThreadAccess)
  }

  /** With int arguments only, in either mode, the script the host evaluates
      is the wrapped call text, from which the method name and every argument read back. */
  lemma IntArgumentsReadBack(f: Foreign, methodName: string, serialize: bool, args: seq<Value>)
    requires '(' !in methodName
    requires forall i :: 0 <= i < |args| ==> args[i].Int?
    ensures EncodeArgs(f, serialize, args).Ok?
    ensures var encoded := EncodeArgs(f, serialize, args).value;
            && ParseCall(CallText(methodName, encoded)) == Some((methodName, encoded))
            && Unwrap(Wrap(CallText(methodName, encoded))) == Some(CallText(methodName, encoded))
            && forall i :: 0 <= i < |args| ==> ParseInt(encoded[i]) == Some(args[i].i as int)
  {
    var encoded := EncodeArgs(f, serialize, args).value;
    forall i | 0 <= i < |encoded| ensures encoded[i] != "" && ',' !in encoded[i] {
      assert EncodeArg(f, serialize, args[i]) == Ok(IntToDecimal(args[i].i as int));
    }
    ParseCallText(methodName, encoded);
    UnwrapWrap(CallText(methodName, encoded));
  }
}
