/** Properties of the composed `parse`. */
module ParseProperties {
  import opened Wrappers
  import opened JsValues
  import opened Parsers
  import Text
  import Resolve
  import Options
  import opened ParseCore

  /** The run resolves `ref` for this file and loads it as `parser`. */
  predicate Uses(filePath: string, context: Option<Context>, load: Loader, ref: ParserRef, parser: Parser) {
    && context.Some?
    && Resolve.GetParser(filePath, context.value) == Some(ref)
    && Load(ref, load) == Success(parser)
  }

  /** The options `parse` hands to the parser. */
  function OptionsFor(filePath: string, ctx: Context): Bag {
    Options.Sanitize(Options.SelectOptions(ctx), filePath)
  }

  /** Once a parser is resolved and loaded, `parse` is the dispatch on the
      normalised text and the sanitised options. */
  lemma ParseInvokes(filePath: string, content: string, context: Option<Context>, load: Loader,
                     ref: ParserRef, parser: Parser)
    requires Uses(filePath, context, load, ref, parser)
    ensures Parse(filePath, content, context, load)
            == Invoke(ref, parser, Text.Normalize(content), OptionsFor(filePath, context.value))
  {
  }

  /** A failed load propagates before any parser code runs. */
  lemma LoadFailurePropagates(filePath: string, content: string, context: Option<Context>, load: Loader,
                              id: string, reason: string)
    requires context.Some? && Resolve.GetParser(filePath, context.value) == Some(ByName(id))
    requires load(id) == Failure(reason)
    ensures Parse(filePath, content, context, load) == Run(Failure(LoadFailed(id, reason)), [], [])
  {
  }

  /** Every bag a parser receives has the capture flags on, the file path set
      and no project options, whatever the configuration says. */
  lemma ParserSeesSanitizedOptions(filePath: string, content: string, context: Option<Context>, load: Loader)
    ensures var run := Parse(filePath, content, context, load);
      forall i :: 0 <= i < |run.calls| ==>
        && (forall k :: k in Options.ForcedFlags ==> Get(run.calls[i].options, k) == Bool(true))
        && Get(run.calls[i].options, "filePath") == Str(filePath)
        && (forall k :: k in Options.ProjectKeys ==> k !in run.calls[i].options)
  {
  }

  /** A rich result is returned as it is, with no check on the tree and no warning. */
  lemma RichSuccessReturnedAsIs(filePath: string, content: string, context: Option<Context>, load: Loader,
                                ref: ParserRef, parser: Parser, ast: Value, keys: Option<VisitorKeys>)
    requires Uses(filePath, context, load, ref, parser)
    requires parser.parseForESLint == Callable(RichReturns(ast, keys))
    ensures var run := Parse(filePath, content, context, load);
      && run.result.Success?
      && run.result.value.ast == ast
      && run.warnings == []
      && |run.calls| == 1
  {
    ParseInvokes(filePath, content, context, load, ref, parser);
  }

  /** When `parseForESLint` throws, three warnings are printed, naming the
      file, the error position and the parser; the outcome is then the
      simple convention's. */
  lemma RichThrowFallsBack(filePath: string, content: string, context: Option<Context>, load: Loader,
                           ref: ParserRef, parser: Parser, e: ParseError)
    requires Uses(filePath, context, load, ref, parser)
    requires parser.parseForESLint == Callable(RichThrows(e))
    ensures var run := Parse(filePath, content, context, load);
      && run.warnings == [ErrorWhileParsing(Str(filePath)), ErrorAt(e.lineNumber, e.column, e.message),
                          InvalidParseForESLint(Describe(ref))]
      && run.calls[0].convention == Rich
      && (parser.parse.Missing? ==> run.result == Failure(NoParseMethod) && |run.calls| == 1)
      && (parser.parse.NotCallable? ==> run.result == Failure(NotAFunction))
      && (parser.parse.Callable? ==> |run.calls| == 2 && run.calls[1].convention == Simple)
      && (forall e2 :: parser.parse == Callable(SimpleThrows(e2)) ==> run.result == Failure(ParseThrew(e2)))
      && (forall ast :: parser.parse == Callable(SimpleReturns(ast)) ==>
            run.result == Success(ParseReturn(ast, KeysFromParser(ref, parser, None))))
  {
    ParseInvokes(filePath, content, context, load, ref, parser);
    var opts := OptionsFor(filePath, context.value);
    assert Get(opts, "filePath") == Str(filePath);
  }

  /** With only the simple convention, its exception propagates untouched and
      nothing is printed. */
  lemma SimpleThrowPropagates(filePath: string, content: string, context: Option<Context>, load: Loader,
                              ref: ParserRef, parser: Parser, e: ParseError)
    requires Uses(filePath, context, load, ref, parser)
    requires !parser.parseForESLint.Callable? && parser.parse == Callable(SimpleThrows(e))
    ensures var run := Parse(filePath, content, context, load);
      run.result == Failure(ParseThrew(e)) && run.warnings == [] && |run.calls| == 1
  {
    ParseInvokes(filePath, content, context, load, ref, parser);
  }

  /** With only the simple convention, a returned tree is the result, with
      the fallback visitor keys, one call and no warning. */
  lemma SimpleSuccessReturned(filePath: string, content: string, context: Option<Context>, load: Loader,
                              ref: ParserRef, parser: Parser, ast: Value)
    requires Uses(filePath, context, load, ref, parser)
    requires !parser.parseForESLint.Callable? && parser.parse == Callable(SimpleReturns(ast))
    ensures var run := Parse(filePath, content, context, load);
      && run.result == Success(ParseReturn(ast, KeysFromParser(ref, parser, None)))
      && run.warnings == [] && |run.calls| == 1 && run.calls[0].convention == Simple
  {
    ParseInvokes(filePath, content, context, load, ref, parser);
  }

  /** A parser with neither entry point fails without being invoked. */
  lemma NeitherMethodFails(filePath: string, content: string, context: Option<Context>, load: Loader,
                           ref: ParserRef, parser: Parser)
    requires Uses(filePath, context, load, ref, parser)
    requires !parser.parseForESLint.Callable? && parser.parse.Missing?
    ensures Parse(filePath, content, context, load) == Run(Failure(NoParseMethod), [], [])
  {
    ParseInvokes(filePath, content, context, load, ref, parser);
  }

  /** Where the visitor keys of a successful run come from: the rich result's
      own table when `parseForESLint` returned one, otherwise the exported
      table of an espree identifier, otherwise null. */
  lemma VisitorKeysSource(ref: ParserRef, parser: Parser, text: string, opts: Bag)
    ensures var run := Invoke(ref, parser, text, opts);
      run.result.Success? ==>
        var keys := run.result.value.visitorKeys;
        if parser.parseForESLint.Callable? && parser.parseForESLint.behaviour.RichReturns?
           && parser.parseForESLint.behaviour.visitorKeys.Some?
        then keys == parser.parseForESLint.behaviour.visitorKeys
        else if IsEspreeRef(ref) then keys == parser.exportedKeys
        else keys.None?
  {
  }

  /** A parser object from `languageOptions` never gets espree's exported
      table: its keys come from its own result or are null. */
  lemma ObjectParserKeys(ref: ParserRef, parser: Parser, text: string, opts: Bag)
    requires ref.ByObject?
    ensures var run := Invoke(ref, parser, text, opts);
      run.result.Success? && run.result.value.visitorKeys.Some? ==>
        parser.parseForESLint.Callable? && parser.parseForESLint.behaviour.RichReturns?
        && run.result.value.visitorKeys == parser.parseForESLint.behaviour.visitorKeys
  {
    VisitorKeysSource(ref, parser, text, opts);
  }
}
