/** The entities the parse layer works with: parser modules, the lint context,
    the errors it throws and the warnings it prints. */
module Parsers {
  import opened Wrappers
  import opened JsValues

  /** A visitor-key table: node type to the child properties to visit, in order. */
  type VisitorKeys = map<string, seq<string>>

  /** What a parser throws on a syntax error: line, column and message. */
  datatype ParseError = ParseError(lineNumber: int, column: int, message: string)

  /** What `parseForESLint` does on this file: throw, or return a result
      object with an `ast` and possibly `visitorKeys`. */
  datatype RichOutcome =
    | RichThrows(error: ParseError)
    | RichReturns(ast: Value, visitorKeys: Option<VisitorKeys>)

  /** What `parse` does on this file: throw, or return the tree directly. */
  datatype SimpleOutcome =
    | SimpleThrows(error: ParseError)
    | SimpleReturns(ast: Value)

  /** A property of a parser module: absent, present but not a function, or a
      function with the given behaviour on this file. */
  datatype Member<B> = Missing | NotCallable | Callable(behaviour: B)

  /** A loaded parser module: its two entry points and its exported `VisitorKeys`. */
  datatype Parser = Parser(
    parseForESLint: Member<RichOutcome>,
    parse: Member<SimpleOutcome>,
    exportedKeys: Option<VisitorKeys>)

  /** What `getParser` yields: a module identifier still to be loaded, or a
      parser object supplied directly. */
  datatype ParserRef = ByName(path: string) | ByObject(parser: Parser)

  /** `languageOptions.parser`: falsy, a string, or an object. */
  datatype ParserSlot = NoParser | NamedParser(name: string) | ParserObject(parser: Parser)

  /** The flat-config `languageOptions` container. */
  datatype LanguageOptions = LanguageOptions(parser: ParserSlot, parserOptions: Value)

  /** `settings['import-x/parsers']`: parser identifier to extension list, in
      the object's insertion order. */
  type ParserTable = seq<(string, seq<string>)>

  /** The lint context: the per-extension table (`None` when the setting is
      null or undefined), the legacy `parserPath` and `parserOptions`, and the
      flat-config `languageOptions`. */
  datatype Context = Context(
    parsersSetting: Option<ParserTable>,
    parserPath: Option<string>,
    parserOptions: Value,
    languageOptions: Option<LanguageOptions>)

  /** `moduleRequire`: loads the module with the given identifier, or fails
      with the loader's message. Module resolution is not part of this model. */
  type Loader = string -> Result<Parser, string>

  /** Everything the parse layer throws. */
  datatype Failure =
    | MissingContext
    | MissingParser
    | LoadFailed(id: string, reason: string)
    | NoParseMethod
    | NotAFunction
    | ParseThrew(error: ParseError)

  /** The message of each thrown error. A load failure and a parser's own
      exception keep whatever message their thrower gave them. */
  function Message(f: Failure): string {
    match f
    case MissingContext => "need context to parse properly"
    case MissingParser => "parserPath or languageOptions.parser is required!"
    case LoadFailed(_, reason) => reason
    case NoParseMethod => "Parser must expose a `parse` or `parseForESLint` method"
    case NotAFunction => "parser.parse is not a function"
    case ParseThrew(e) => e.message
  }

  /** The warnings printed when `parseForESLint` fails. */
  datatype Warning =
    | ErrorWhileParsing(filePath: Value)
    | ErrorAt(lineNumber: int, column: int, message: string)
    | InvalidParseForESLint(parserName: string)

  /** Which entry point of the parser was invoked. */
  datatype Convention = Rich | Simple

  /** One invocation of parser code, with the text and options it received. */
  datatype Call = Call(convention: Convention, text: string, options: Bag)

  /** The value `parse` returns. */
  datatype ParseReturn = ParseReturn(ast: Value, visitorKeys: Option<VisitorKeys>)

  /** One run of `parse`: its result or thrown failure, the warnings printed,
      and the parser invocations made, in order. */
  datatype Run = Run(result: Result<ParseReturn, Failure>, warnings: seq<Warning>, calls: seq<Call>)
}
