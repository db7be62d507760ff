/** The `parse` entry point and its dispatch between the two calling
    conventions (parse.ts lines 17-41 and 51-145). */
module ParseCore {
  import opened Wrappers
  import opened JsValues
  import opened Parsers
  import Text
  import Resolve
  import Options

  /** Whether the parser reference is an identifier matching the espree pattern. */
  predicate IsEspreeRef(ref: ParserRef) {
    ref.ByName? && Text.IsEspreeName(ref.path)
  }

  /** `keysFromParser`: the parse result's own `visitorKeys` first, then the
      module's exported `VisitorKeys` for an espree identifier, then null. */
  function KeysFromParser(ref: ParserRef, parser: Parser, resultKeys: Option<VisitorKeys>): (keys: Option<VisitorKeys>)
    ensures resultKeys.Some? ==> keys == resultKeys
    ensures resultKeys.None? && IsEspreeRef(ref) ==> keys == parser.exportedKeys
    ensures resultKeys.None? && !IsEspreeRef(ref) ==> keys.None?
  {
    if resultKeys.Some? then resultKeys
    else if IsEspreeRef(ref) then parser.exportedKeys
    else None
  }

  /** `makeParseReturn`. */
  function MakeParseReturn(ast: Value, keys: Option<VisitorKeys>): ParseReturn {
    ParseReturn(ast, keys)
  }

  /** How the third warning names the parser. */
  function Describe(ref: ParserRef): string {
    match ref
    case ByName(p) => p
    case ByObject(_) => "`context.languageOptions.parser`"
  }

  /** Lines 101-104: an identifier is loaded, an object is used as it is. */
  function Load(ref: ParserRef, load: Loader): (r: Result<Parser, Failure>)
    ensures ref.ByObject? ==> r == Success(ref.parser)
    ensures ref.ByName? ==> match load(ref.path)
      case Success(p) => r == Success(p)
      case Failure(reason) => r == Failure(LoadFailed(ref.path, reason))
  {
    match ref
    case ByObject(p) => Success(p)
    case ByName(id) =>
      match load(id)
      case Success(p) => Success(p)
      case Failure(reason) => Failure(LoadFailed(id, reason))
  }

  /** Lines 139-144: the simple convention, whose exception propagates; the
      final error when the parser has no `parse` at all. */
  function FallBackToParse(ref: ParserRef, parser: Parser, text: string, opts: Bag,
                           warnings: seq<Warning>, calls: seq<Call>): (run: Run)
    ensures run.warnings == warnings
    ensures parser.parse.Callable? ==> run.calls == calls + [Call(Simple, text, opts)]
    ensures !parser.parse.Callable? ==> run.calls == calls
    ensures parser.parse.Missing? ==> run.result == Failure(NoParseMethod)
    ensures parser.parse.NotCallable? ==> run.result == Failure(NotAFunction)
    ensures parser.parse.Callable? && parser.parse.behaviour.SimpleThrows? ==>
              run.result == Failure(ParseThrew(parser.parse.behaviour.error))
    ensures parser.parse.Callable? && parser.parse.behaviour.SimpleReturns? ==>
              run.result == Success(ParseReturn(parser.parse.behaviour.ast, KeysFromParser(ref, parser, None)))
  {
    match parser.parse
    case Missing => Run(Failure(NoParseMethod), warnings, calls)
    case NotCallable => Run(Failure(NotAFunction), warnings, calls)
    case Callable(SimpleThrows(e)) => Run(Failure(ParseThrew(e)), warnings, calls + [Call(Simple, text, opts)])
    case Callable(SimpleReturns(ast)) =>
      Run(Success(MakeParseReturn(ast, KeysFromParser(ref, parser, None))), warnings, calls + [Call(Simple, text, opts)])
  }

  /** Lines 129-137: after a caught exception, an object `ast` already
      captured is returned; otherwise the "invalid" warning is printed and the
      simple convention is tried. */
  function AfterCaught(ref: ParserRef, parser: Parser, text: string, opts: Bag,
                       captured: Value, warnings: seq<Warning>, calls: seq<Call>): (run: Run)
    ensures captured.Obj? ==>
              run == Run(Success(ParseReturn(captured, KeysFromParser(ref, parser, None))), warnings, calls)
    ensures !captured.Obj? ==>
              run == FallBackToParse(ref, parser, text, opts, warnings + [InvalidParseForESLint(Describe(ref))], calls)
  {
    if !Truthy(captured) || !captured.Obj? then
      FallBackToParse(ref, parser, text, opts, warnings + [InvalidParseForESLint(Describe(ref))], calls)
    else
      Run(Success(MakeParseReturn(captured, KeysFromParser(ref, parser, None))), warnings, calls)
  }

  /** Lines 110-144: `parseForESLint` when it is a function, with its
      exception turned into two warnings and a fall-through; then `parse`. */
  function Invoke(ref: ParserRef, parser: Parser, text: string, opts: Bag): (run: Run)
    ensures forall i :: 0 <= i < |run.calls| ==> run.calls[i].text == text && run.calls[i].options == opts
    ensures |run.calls| <= 2
    ensures parser.parseForESLint.Callable? <==> |run.calls| > 0 && run.calls[0].convention == Rich
    ensures |run.calls| == 2 ==> run.calls[1].convention == Simple
    ensures parser.parseForESLint.Callable? && parser.parseForESLint.behaviour.RichReturns? ==>
              run.result == Success(ParseReturn(parser.parseForESLint.behaviour.ast,
                                                KeysFromParser(ref, parser, parser.parseForESLint.behaviour.visitorKeys)))
              && run.warnings == [] && |run.calls| == 1
    ensures parser.parseForESLint.Callable? && parser.parseForESLint.behaviour.RichThrows? ==>
              var e := parser.parseForESLint.behaviour.error;
              run.warnings == [ErrorWhileParsing(Get(opts, "filePath")),
                               ErrorAt(e.lineNumber, e.column, e.message),
                               InvalidParseForESLint(Describe(ref))]
    ensures !parser.parseForESLint.Callable? ==> run.warnings == []
    ensures !(parser.parseForESLint.Callable? && parser.parseForESLint.behaviour.RichReturns?) ==>
              match parser.parse
              case Missing => run.result == Failure(NoParseMethod)
              case NotCallable => run.result == Failure(NotAFunction)
              case Callable(SimpleThrows(e)) => run.result == Failure(ParseThrew(e))
              case Callable(SimpleReturns(ast)) =>
                run.result == Success(ParseReturn(ast, KeysFromParser(ref, parser, None)))
  {
    match parser.parseForESLint
    case Callable(RichReturns(ast, keys)) =>
      Run(Success(MakeParseReturn(ast, KeysFromParser(ref, parser, keys))), [], [Call(Rich, text, opts)])
    case Callable(RichThrows(e)) =>
      var caught := [ErrorWhileParsing(Get(opts, "filePath")), ErrorAt(e.lineNumber, e.column, e.message)];
      // `ast` is still undefined: the assignment on line 117 follows the call that threw
      AfterCaught(ref, parser, text, opts, Undefined, caught, [Call(Rich, text, opts)])
    case _ =>
      FallBackToParse(ref, parser, text, opts, [], [])
  }

  /** `parse`: resolve the parser, sanitise the options, load the module,
      normalise the text, and invoke. */
  function Parse(filePath: string, content: string, context: Option<Context>, load: Loader): (run: Run)
    ensures context.None? ==> run == Run(Failure(MissingContext), [], [])
                              && Message(run.result.error) == "need context to parse properly"
    ensures context.Some? && Resolve.GetParser(filePath, context.value).None? ==>
              run == Run(Failure(MissingParser), [], [])
              && Message(run.result.error) == "parserPath or languageOptions.parser is required!"
    ensures forall i :: 0 <= i < |run.calls| ==>
              && run.calls[i].text == Text.Normalize(content)
              && run.calls[i].options == Options.Sanitize(Options.SelectOptions(context.value), filePath)
  {
    if context.None? then Run(Failure(MissingContext), [], [])
    else
      var ctx := context.value;
      var raw := Options.SelectOptions(ctx);
      match Resolve.GetParser(filePath, ctx)
      case None => Run(Failure(MissingParser), [], [])
      case Some(ref) =>
        var opts := Options.Sanitize(raw, filePath);
        match Load(ref, load)
        case Failure(f) => Run(Failure(f), [], [])
        case Success(parser) => Invoke(ref, parser, Text.Normalize(content), opts)
  }
}
