/** Option sanitisation: the options bag handed to the parser (parse.ts lines 60-98). */
module Options {
  import opened JsValues
  import opened Parsers

  /** The capture flags always switched on. */
  const ForcedFlags: set<string> := {"comment", "attachComment", "tokens", "loc", "range"}

  /** The whole-project options always removed. */
  const ProjectKeys: set<string> := {"EXPERIMENTAL_useProjectService", "projectService", "project", "projects"}

  /** Every key whose output value does not come from the input unchanged. */
  const ManagedKeys: set<string> := ForcedFlags + ProjectKeys + {"filePath", "ecmaFeatures"}

  /** The options as configured: flat-config `languageOptions.parserOptions`
      when truthy, otherwise the legacy `parserOptions`. */
  function SelectOptions(ctx: Context): (v: Value)
    ensures ctx.languageOptions.Some? && Truthy(ctx.languageOptions.value.parserOptions) ==>
              v == ctx.languageOptions.value.parserOptions
    ensures !(ctx.languageOptions.Some? && Truthy(ctx.languageOptions.value.parserOptions)) ==>
              v == ctx.parserOptions
  {
    if ctx.languageOptions.Some? && Truthy(ctx.languageOptions.value.parserOptions)
    then ctx.languageOptions.value.parserOptions
    else ctx.parserOptions
  }

  /** The bag the parser receives: a fresh copy of `raw` and of its
      `ecmaFeatures`, the capture flags forced on, `filePath` set, and the
      project options deleted. */
  function Sanitize(raw: Value, filePath: string): (opts: Bag)
    ensures forall k :: k in ForcedFlags ==> k in opts && opts[k] == Bool(true)
    ensures "filePath" in opts && opts["filePath"] == Str(filePath)
    ensures forall k :: k in ProjectKeys ==> k !in opts
    ensures "ecmaFeatures" in opts && opts["ecmaFeatures"] == Obj(Spread(Get(Spread(raw), "ecmaFeatures")))
    ensures forall k :: k in Spread(raw) && k !in ManagedKeys ==> k in opts && opts[k] == Spread(raw)[k]
    ensures forall k :: k in opts ==> k in Spread(raw) || k in ManagedKeys
  {
    var copy := Spread(raw);
    var features := copy["ecmaFeatures" := Obj(Spread(Get(copy, "ecmaFeatures")))];
    var captured := features["comment" := Bool(true)]["attachComment" := Bool(true)]["tokens" := Bool(true)];
    var located := captured["loc" := Bool(true)]["range" := Bool(true)];
    var withPath := located["filePath" := Str(filePath)];
    withPath - ProjectKeys
  }

  // ---------------------------------------------------------------------------
  // Properties

  /** Sanitising an already sanitised bag changes nothing. */
  lemma SanitizeIdempotent(raw: Value, filePath: string)
    ensures Sanitize(Obj(Sanitize(raw, filePath)), filePath) == Sanitize(raw, filePath)
  {
    var once := Sanitize(raw, filePath);
    var twice := Sanitize(Obj(once), filePath);
    assert Spread(Get(Spread(Obj(once)), "ecmaFeatures")) == Spread(Get(Spread(raw), "ecmaFeatures"));
    assert forall k :: k in twice <==> k in once;
    assert forall k :: k in twice ==> twice[k] == once[k];
  }

  /** What the input says about a managed key other than `ecmaFeatures` makes no difference:
      `comment: false` still comes out `true`, a truthy `project` is still removed. */
  lemma SanitizeIgnoresManagedInput(fields: Bag, k: string, v: Value, filePath: string)
    requires k in ManagedKeys && k != "ecmaFeatures"
    ensures Sanitize(Obj(fields[k := v]), filePath) == Sanitize(Obj(fields), filePath)
  {
    var a := Sanitize(Obj(fields[k := v]), filePath);
    var b := Sanitize(Obj(fields), filePath);
    assert Get(fields[k := v], "ecmaFeatures") == Get(fields, "ecmaFeatures");
    assert forall x :: x in a <==> x in b;
    assert forall x :: x in a ==> a[x] == b[x];
  }

  /** An object-valued `ecmaFeatures` reaches the parser with the same contents. */
  lemma EcmaFeaturesKept(fields: Bag, features: Bag, filePath: string)
    requires "ecmaFeatures" in fields && fields["ecmaFeatures"] == Obj(features)
    ensures Sanitize(Obj(fields), filePath)["ecmaFeatures"] == Obj(features)
  {
  }

  /** Two paths give bags that differ in `filePath` only. */
  lemma SanitizeDependsOnPathOnlyThroughFilePath(raw: Value, p: string, q: string)
    ensures Sanitize(raw, p)["filePath" := Str(q)] == Sanitize(raw, q)
  {
    var a := Sanitize(raw, p)["filePath" := Str(q)];
    var b := Sanitize(raw, q);
    assert forall x :: x in a <==> x in b;
  }
}
