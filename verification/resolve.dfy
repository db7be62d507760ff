/** Parser resolution: `getParserPath` and `getParser` (parse.ts lines 147-183). */
module Resolve {
  import opened Wrappers
  import opened Parsers
  import ExtName

  /** Entry `i` is the first entry of the table whose extension list holds `ext`. */
  ghost predicate FirstMatchAt(table: ParserTable, ext: string, i: int) {
    && 0 <= i < |table|
    && ext in table[i].1
    && forall j :: 0 <= j < i ==> ext !in table[j].1
  }

  /** The `for ... in` scan from entry `from` on: the index of the first entry
      whose extension list holds `ext`. */
  function FirstMatch(table: ParserTable, ext: string, from: nat): (r: Option<nat>)
    requires from <= |table|
    ensures r.Some? ==> from <= r.value < |table| && ext in table[r.value].1
                        && forall j :: from <= j < r.value ==> ext !in table[j].1
    ensures r.None? ==> forall j :: from <= j < |table| ==> ext !in table[j].1
    decreases |table| - from
  {
    if from == |table| then None
    else if ext in table[from].1 then Some(from)
    else FirstMatch(table, ext, from + 1)
  }

  /** `getParserPath`: the first table entry listing the file's extension,
      otherwise the context's `parserPath`. */
  function GetParserPath(filePath: string, ctx: Context): (r: Option<string>)
    ensures ctx.parsersSetting.None? ==> r == ctx.parserPath
    ensures ctx.parsersSetting.Some? ==>
      var table, ext := ctx.parsersSetting.value, ExtName.Extension(filePath);
      && (forall i :: FirstMatchAt(table, ext, i) ==> r == Some(table[i].0))
      && ((forall i :: 0 <= i < |table| ==> ext !in table[i].1) ==> r == ctx.parserPath)
  {
    match ctx.parsersSetting
    case None => ctx.parserPath
    case Some(table) =>
      match FirstMatch(table, ExtName.Extension(filePath), 0)
      case Some(i) => Some(table[i].0)
      case None => ctx.parserPath
  }

  /** A parser object is accepted when it has a `parse` property (of any kind:
      line 159 tests the type of the module's own `parse`, which is always a
      function) or a function-valued `parseForESLint`. */
  predicate Recognised(p: Parser) {
    !p.parse.Missing? || p.parseForESLint.Callable?
  }

  /** A truthy path: present and not the empty string. */
  predicate IsTruthyPath(r: Option<string>) {
    r.Some? && r.value != ""
  }

  /** `getParser`: a truthy path from `getParserPath`, else a recognised
      `languageOptions.parser` object, else nothing. */
  function GetParser(filePath: string, ctx: Context): (r: Option<ParserRef>)
    ensures IsTruthyPath(GetParserPath(filePath, ctx)) ==>
              r == Some(ByName(GetParserPath(filePath, ctx).value))
    ensures !IsTruthyPath(GetParserPath(filePath, ctx)) ==>
              (r.Some? <==> ctx.languageOptions.Some?
                            && ctx.languageOptions.value.parser.ParserObject?
                            && Recognised(ctx.languageOptions.value.parser.parser))
    ensures !IsTruthyPath(GetParserPath(filePath, ctx)) && r.Some? ==>
              r == Some(ByObject(ctx.languageOptions.value.parser.parser))
  {
    var path := GetParserPath(filePath, ctx);
    if IsTruthyPath(path) then Some(ByName(path.value))
    else if ctx.languageOptions.Some? then
      match ctx.languageOptions.value.parser
      case ParserObject(p) => if Recognised(p) then Some(ByObject(p)) else None
      case _ => None
    else None
  }

  // ---------------------------------------------------------------------------
  // Properties

  /** Whatever `getParser` yields is usable: a non-empty identifier, or an
      object exposing a recognised entry point. */
  lemma GetParserYieldsUsable(filePath: string, ctx: Context)
    ensures match GetParser(filePath, ctx)
      case None => true
      case Some(ByName(p)) => p != ""
      case Some(ByObject(p)) => Recognised(p)
  {
  }

  /** Table order decides: when entries `i < j` both list the extension and no
      earlier entry does, entry `i` wins and the later entry's key is not used
      (unless both entries carry the same key): first match, not best match. */
  lemma {:induction false} FirstEntryWins(filePath: string, ctx: Context, i: nat, j: nat)
    requires ctx.parsersSetting.Some?
    requires var table, ext := ctx.parsersSetting.value, ExtName.Extension(filePath);
      && i < j < |table| && ext in table[i].1 && ext in table[j].1
      && forall k :: 0 <= k < i ==> ext !in table[k].1
    ensures GetParserPath(filePath, ctx) == Some(ctx.parsersSetting.value[i].0)
    ensures ctx.parsersSetting.value[j].0 != ctx.parsersSetting.value[i].0 ==>
              GetParserPath(filePath, ctx) != Some(ctx.parsersSetting.value[j].0)
  {
    var table, ext := ctx.parsersSetting.value, ExtName.Extension(filePath);
    assert FirstMatchAt(table, ext, i);
  }

  /** A table `{ "my-parser": [".foo"] }` routes `.foo` files to "my-parser",
      not to the default parser. */
  lemma TableOverridesDefault(ctx: Context)
    requires ctx.parsersSetting == Some([("my-parser", [".foo"])])
    ensures GetParser("x.foo", ctx) == Some(ByName("my-parser"))
  {
    ExtName.ExtensionExample();
    assert FirstMatchAt([("my-parser", [".foo"])], ".foo", 0);
  }

  /** Without a table, every path resolves to the default parser path. */
  lemma NoTableUsesDefault(filePath: string, ctx: Context, name: string)
    requires ctx.parsersSetting.None? && ctx.parserPath == Some(name) && name != ""
    ensures GetParser(filePath, ctx) == Some(ByName(name))
  {
  }

  /** A string in `languageOptions.parser` is never used by itself. */
  lemma NamedLanguageParserIgnored(filePath: string, ctx: Context)
    requires !IsTruthyPath(GetParserPath(filePath, ctx))
    requires ctx.languageOptions.Some? && ctx.languageOptions.value.parser.NamedParser?
    ensures GetParser(filePath, ctx).None?
  {
  }
}
