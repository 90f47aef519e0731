/**
 * The view-manager commands: `getCommandsMap` names them for the JavaScript
 * side and `receiveCommand` turns an id and its arguments into a WebView call.
 */
module Commands {
  import opened Optional

  const CommandSendToBridge := 101
  const CommandEvaluateJS := 102
  const CommandBack := 103
  const CommandForward := 104
  const CommandReload := 105
  const CommandLoadSource := 106

  /** `getCommandsMap()`. */
  const CommandsMap: map<string, int> := map[
    "sendToBridge" := CommandSendToBridge,
    "evaluateJS" := CommandEvaluateJS,
    "goBack" := CommandBack,
    "goForward" := CommandForward,
    "reload" := CommandReload,
    "loadSource" := CommandLoadSource
  ]

  /** A call on the WebView. Both script commands end in the same JavaScript evaluation. */
  datatype ViewCall = EvaluateJavascript(script: string) | GoBack | GoForward | Reload | LoadUrl(url: string)

  datatype CommandEffect =
    | Perform(call: ViewCall)
      /** An id outside the switch: nothing happens. */
    | NoEffect
      /** `args.getString(0)` on a null or empty argument array throws. */
    | MissingArgument

  /** `receiveCommand(root, commandId, args)`; `args` is `None` for a null array. */
  function ReceiveCommand(commandId: int, args: Option<seq<string>>): (e: CommandEffect)
    ensures e.MissingArgument? ==> args.None? || args.value == []
    ensures e.NoEffect? <==> commandId !in CommandsMap.Values
    ensures commandId in {CommandSendToBridge, CommandEvaluateJS, CommandLoadSource} && (args.None? || args.value == []) ==>
      e.MissingArgument?
  {
    CommandIdsIff(commandId);
    var first := if args.Some? && |args.value| > 0 then Some(args.value[0]) else None;
    if commandId == CommandSendToBridge then
      if first.Some? then Perform(EvaluateJavascript(first.value)) else MissingArgument
    else if commandId == CommandEvaluateJS then
      if first.Some? then Perform(EvaluateJavascript(first.value)) else MissingArgument
    else if commandId == CommandBack then
      Perform(GoBack)
    else if commandId == CommandForward then
      Perform(GoForward)
    else if commandId == CommandReload then
      Perform(Reload)
    else if commandId == CommandLoadSource then
      if first.Some? then Perform(LoadUrl(first.value)) else MissingArgument
    else
      NoEffect
  }

  /** The ids the commands map hands out are exactly 101 to 106. */
  lemma CommandIdsIff(id: int)
    ensures id in CommandsMap.Values <==> CommandSendToBridge <= id <= CommandLoadSource
  {
    if id in CommandsMap.Values {
      var name :| name in CommandsMap && CommandsMap[name] == id;
    }
    if CommandSendToBridge <= id <= CommandLoadSource {
      var names := ["sendToBridge", "evaluateJS", "goBack", "goForward", "reload", "loadSource"];
      var name := names[id - CommandSendToBridge];
      assert CommandsMap[name] == id;
    }
  }

  /** What each named command is meant to do with its first argument `a`. */
  function IntendedCall(name: string, a: string): Option<ViewCall> {
    match name
    case "sendToBridge" => Some(EvaluateJavascript(a))
    case "evaluateJS" => Some(EvaluateJavascript(a))
    case "goBack" => Some(GoBack)
    case "goForward" => Some(GoForward)
    case "reload" => Some(Reload)
    case "loadSource" => Some(LoadUrl(a))
    case _ => None
  }

  /** No two command names share an id, so the JavaScript side can never trigger the wrong command. */
  lemma CommandIdsDistinct(n1: string, n2: string)
    requires n1 in CommandsMap && n2 in CommandsMap && n1 != n2
    ensures CommandsMap[n1] != CommandsMap[n2]
  {
  }

  /** Sending a named command's id with one argument performs exactly what that name stands for. */
  lemma NamedCommandPerforms(name: string, a: string, rest: seq<string>)
    requires name in CommandsMap
    ensures IntendedCall(name, a).Some?
    ensures ReceiveCommand(CommandsMap[name], Some([a] + rest)) == Perform(IntendedCall(name, a).value)
  {
  }

  /** The navigation commands ignore their arguments, even a null array. */
  lemma NavigationIgnoresArgs(commandId: int, args: Option<seq<string>>)
    requires commandId in {CommandBack, CommandForward, CommandReload}
    ensures ReceiveCommand(commandId, args) == ReceiveCommand(commandId, None)
    ensures ReceiveCommand(commandId, args).Perform?
  {
  }
}
