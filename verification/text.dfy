/** Source-text normalisation applied before any parser sees the text, and the
    substring test behind the espree name check. */
module Text {
  import opened Wrappers

  /** U+FEFF, the byte-order mark. */
  const Bom: char := '\U{FEFF}'

  /** `stripUnicodeBOM`: drops one leading byte-order mark. */
  function StripBom(text: string): (r: string)
    ensures |text| > 0 && text[0] == Bom ==> [Bom] + r == text
    ensures !(|text| > 0 && text[0] == Bom) ==> r == text
  {
    if |text| > 0 && text[0] == Bom then text[1..] else text
  }

  /** The two line terminators the class `[^\r\n]` excludes. */
  predicate IsCrOrLf(c: char) {
    c == '\r' || c == '\n'
  }

  /** Length of the longest run of non-CR/LF characters starting at `i`: what
      the greedy `[^\r\n]+` consumes from there. */
  function RunFrom(text: string, i: nat): (n: nat)
    requires i <= |text|
    ensures i + n <= |text|
    ensures forall j :: i <= j < i + n ==> !IsCrOrLf(text[j])
    ensures i + n == |text| || IsCrOrLf(text[i + n])
    decreases |text| - i
  {
    if i == |text| || IsCrOrLf(text[i]) then 0 else 1 + RunFrom(text, i + 1)
  }

  /** The match of `/^#!([^\r\n]+)/u` against `text`: the index where the
      match ends, if the text matches at all. */
  function HashbangMatch(text: string): Option<nat> {
    if |text| >= 2 && text[0] == '#' && text[1] == '!' && RunFrom(text, 2) >= 1
    then Some(2 + RunFrom(text, 2))
    else None
  }

  /** A shebang line: `#!` followed by at least one character that is not CR or LF. */
  predicate HasHashbang(text: string) {
    |text| >= 3 && text[0] == '#' && text[1] == '!' && !IsCrOrLf(text[2])
  }

  /** `transformHashbang`: the regular-expression replacement of the matched
      prefix by `//` followed by the captured rest of the line. */
  function TransformHashbang(text: string): (r: string)
    ensures |r| == |text|
    ensures forall i :: 2 <= i < |text| ==> r[i] == text[i]
    ensures HasHashbang(text) ==> r[0] == '/' && r[1] == '/'
    ensures !HasHashbang(text) ==> r == text
  {
    match HashbangMatch(text)
    case None => text
    case Some(end) => "//" + text[2..end] + text[end..]
  }

  /** The text handed to the parser: BOM stripped first, then the shebang neutralised. */
  function Normalize(text: string): string {
    TransformHashbang(StripBom(text))
  }

  /** Whether `sub` occurs in `s` at index `i`. */
  predicate OccursAt(s: string, sub: string, i: nat) {
    i + |sub| <= |s| && s[i..i + |sub|] == sub
  }

  /** Whether `sub` occurs anywhere in `s`, scanning from the left. */
  function Contains(s: string, sub: string): bool
    decreases |s|
  {
    if |s| < |sub| then false
    else s[..|sub|] == sub || Contains(s[1..], sub)
  }

  // The pattern test on line 26 of parse.ts: both `.*` may match nothing and
  // the test is unanchored, so it holds exactly when "espree" occurs in `name`.
  predicate IsEspreeName(name: string) {
    Contains(name, "espree")
  }

  // ---------------------------------------------------------------------------
  // Properties

  /** The scanning `Contains` agrees with the occurrence definition. */
  lemma {:induction false} ContainsIff(s: string, sub: string)
    ensures Contains(s, sub) <==> exists i: nat :: OccursAt(s, sub, i)
    decreases |s|
  {
    if |s| < |sub| {
      assert forall i: nat :: !OccursAt(s, sub, i);
    } else if s[..|sub|] == sub {
      assert OccursAt(s, sub, 0);
    } else {
      ContainsIff(s[1..], sub);
      if Contains(s[1..], sub) {
        var j: nat :| OccursAt(s[1..], sub, j);
        assert s[1..][j..j + |sub|] == s[j + 1..j + 1 + |sub|];
        assert OccursAt(s, sub, j + 1);
      }
      if exists i: nat :: OccursAt(s, sub, i) {
        var i: nat :| OccursAt(s, sub, i);
        assert i != 0;
        assert s[1..][i - 1..i - 1 + |sub|] == s[i..i + |sub|];
        assert OccursAt(s[1..], sub, i - 1);
      }
    }
  }

  /** Stripping undoes prepending one mark, whatever the rest of the text is. */
  lemma StripBomUndoesPrepend(text: string)
    ensures StripBom([Bom] + text) == text
  {
  }

  /** The shebang rewrite is idempotent. */
  lemma TransformHashbangIdempotent(text: string)
    ensures TransformHashbang(TransformHashbang(text)) == TransformHashbang(text)
  {
  }

  /** `"#!"` alone and `"#!"` directly followed by a line break stay unchanged. */
  lemma BareHashbangUnchanged(rest: string)
    ensures TransformHashbang("#!") == "#!"
    ensures TransformHashbang("#!\n" + rest) == "#!\n" + rest
    ensures TransformHashbang("#!\r" + rest) == "#!\r" + rest
  {
  }

  /** Normalisation is idempotent exactly when the text does not begin with two
      byte-order marks: each pass removes only one mark. */
  lemma NormalizeIdempotentIff(text: string)
    ensures Normalize(Normalize(text)) == Normalize(text)
            <==> !(|text| >= 2 && text[0] == Bom && text[1] == Bom)
  {
    if |text| >= 2 && text[0] == Bom && text[1] == Bom {
      assert Normalize(text) == text[1..];
      assert |Normalize(Normalize(text))| == |text| - 2;
    } else {
      var n := Normalize(text);
      assert !(|n| > 0 && n[0] == Bom);
    }
  }

  /** A concrete input on which normalisation is not idempotent. */
  lemma NormalizeNotIdempotent()
    ensures Normalize(Normalize([Bom, Bom])) != Normalize([Bom, Bom])
  {
    NormalizeIdempotentIff([Bom, Bom]);
  }
}
