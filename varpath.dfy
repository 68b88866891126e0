/** The variable-path translator behind `varReplace`: loop pseudo-variable renaming, the
    `.x` / `[x]` to `["x"]` normalisation of each `$identifier` token, the modifier chain, and
    the escaping and `echo` wrapping. */
module VarPath {
  import opened Common
  import opened Modifier

  // ---------------------------------------------------------------------------------------
  // Renaming of `$key`, `$value` and `$counter` at a word boundary

  /** `name` occurs at `i` and the next character is not a word character (PCRE `\b`). */
  predicate BoundedAt(s: string, name: string, i: nat) {
    OccursAt(s, name, i) && (i + |name| == |s| || !IsWordChar(s[i + |name|]))
  }

  /** `preg_replace('/(\$name)\b/', '${1}' . suffix, s)`, scanning left to right. */
  function RenameAll(s: string, name: string, suffix: string): string
    decreases |s|
  {
    if |s| == 0 then ""
    else if |name| > 0 && BoundedAt(s, name, 0) then name + suffix + RenameAll(s[|name|..], name, suffix)
    else [s[0]] + RenameAll(s[1..], name, suffix)
  }

  /** The three renamings of `varReplace`, applied in the source's order, all with the current
      loop level as suffix. */
  function LoopRename(s: string, level: int): string {
    var l := IntToString(level);
    RenameAll(RenameAll(RenameAll(s, "$key", l), "$value", l), "$counter", l)
  }

  // ---------------------------------------------------------------------------------------
  // Tokens: the matches of `(\$[a-z_A-Z][^\s]*)`

  predicate IsIdentStart(c: char) {
    ('a' <= c <= 'z') || ('A' <= c <= 'Z') || c == '_'
  }

  predicate TokenStartsAt(s: string, i: nat) {
    i + 1 < |s| && s[i] == '$' && IsIdentStart(s[i + 1])
  }

  /** First whitespace index at or after `k`, or the end. */
  function SpaceFrom(s: string, k: nat): (r: nat)
    requires k <= |s|
    ensures k <= r <= |s| && (r == |s| || IsSpace(s[r]))
    ensures forall j :: k <= j < r ==> !IsSpace(s[j])
    decreases |s| - k
  {
    if k == |s| || IsSpace(s[k]) then k else SpaceFrom(s, k + 1)
  }

  predicate IsToken(t: string) {
    TokenStartsAt(t, 0) && forall j :: 0 <= j < |t| ==> !IsSpace(t[j])
  }

  /** All tokens from `i` on, each a `$`, an identifier start and the run of non-space after it. */
  function TokensFrom(s: string, i: nat): (r: seq<string>)
    requires i <= |s|
    ensures forall k :: 0 <= k < |r| ==> IsToken(r[k])
    ensures r == [] <==> forall j :: i <= j < |s| ==> !TokenStartsAt(s, j)
    decreases |s| - i
  {
    if i == |s| then []
    else if TokenStartsAt(s, i) then
      var j := SpaceFrom(s, i + 2);
      assert TokenStartsAt(s[i..j], 0);
      [s[i..j]] + TokensFrom(s, j)
    else TokensFrom(s, i + 1)
  }

  function Tokens(s: string): seq<string> {
    TokensFrom(s, 0)
  }

  // ---------------------------------------------------------------------------------------
  // Normalisation of one token

  /** At a `[`: where `\[(\$?\w*)\]` closes, if it matches here. */
  function BracketClose(t: string): (r: Option<nat>)
    requires |t| > 0 && t[0] == '['
    ensures r.Some? ==> 1 <= r.value < |t| && t[r.value] == ']'
  {
    var k := if 1 < |t| && t[1] == '$' then 2 else 1;
    var j := WordEnd(t, k);
    if j < |t| && t[j] == ']' then Some(j) else None
  }

  /** `preg_replace('/\[(\${0,1}[a-zA-Z_0-9]*)\]/', '["$1"]', t)`. */
  function Brackets(t: string): string
    decreases |t|
  {
    if |t| == 0 then ""
    else if t[0] == '[' then
      match BracketClose(t)
      case Some(j) => "[\"" + t[1..j] + "\"]" + Brackets(t[j + 1..])
      case None => "[" + Brackets(t[1..])
    else [t[0]] + Brackets(t[1..])
  }

  predicate IsQuote(c: char) { c == '\'' || c == '"' }

  /** At a `.`: the end of the capture of `\.(\$?\w*(?!\w*('|")))`, if it matches here. A word run
      followed by a quote defeats the lookahead; after `.$` the lookahead then still succeeds
      with an empty capture, because `$` is neither a word character nor a quote. */
  function DotCapture(t: string): (r: Option<nat>)
    requires |t| > 0 && t[0] == '.'
    ensures r.Some? ==> 1 <= r.value <= |t|
  {
    if 1 < |t| && t[1] == '$' then
      var j := WordEnd(t, 2);
      if !(j < |t| && IsQuote(t[j])) then Some(j) else Some(1)
    else
      var j := WordEnd(t, 1);
      if !(j < |t| && IsQuote(t[j])) then Some(j) else None
  }

  /** The dot replacement, `["$1"]` for each match, scanning left to right. */
  function Dots(t: string): string
    decreases |t|
  {
    if |t| == 0 then ""
    else if t[0] == '.' then
      match DotCapture(t)
      case Some(j) => "[\"" + t[1..j] + "\"]" + Dots(t[j..])
      case None => "." + Dots(t[1..])
    else [t[0]] + Dots(t[1..])
  }

  /** What one token is replaced by: brackets first, then dots. */
  function NormalizeToken(t: string): string {
    Dots(Brackets(t))
  }

  /** The `for` loop over the tokens: each token's text, wherever it now occurs, is replaced by
      its normal form (`str_replace` on the text as the earlier tokens left it). */
  function FoldTokens(h: string, toks: seq<string>): string
    decreases |toks|
  {
    if toks == [] then h else FoldTokens(ReplaceAll(h, toks[0], NormalizeToken(toks[0])), toks[1..])
  }

  // ---------------------------------------------------------------------------------------
  // Assignment test and wrapping

  // `preg_match('/\$.*=.*/', s)`: some `$` is followed, on the same line, by an `=`.
  function HasAssignment(s: string): bool {
    AssignFrom(s, 0, false)
  }

  function AssignFrom(s: string, i: nat, seenDollar: bool): bool
    requires i <= |s|
    decreases |s| - i
  {
    if i == |s| then false
    else if s[i] == '=' && seenDollar then true
    else AssignFrom(s, i + 1, if s[i] == '\n' then false else seenDollar || s[i] == '$')
  }

  /** The text `htmlspecialchars(code, ENT_COMPAT, 'charset', FALSE)`. */
  function Escaped(code: string, charset: string): string {
    "htmlspecialchars(" + code + ", ENT_COMPAT, '" + charset + "', FALSE)"
  }

  /** Escaping applies when requested, then `echo ` is put outermost when requested. */
  function Wrap(code: string, escape: bool, echo: bool, charset: string): string {
    var e := if escape then Escaped(code, charset) else code;
    if echo then "echo " + e else e
  }

  /** The whole of `varReplace($html, $escape, $echo)` at a given loop level and escaping flag. */
  function VarTranslation(html: string, escape: bool, echo: bool, level: int, autoEscape: bool,
                          charset: string): Outcome<string>
  {
    var renamed := LoopRename(html, level);
    var toks := Tokens(renamed);
    if toks == [] then Done(renamed)
    else match ModifierChain(FoldTokens(renamed, toks))
      case Diverges => Diverges
      case Done(m) => Done(if HasAssignment(m) then m else Wrap(m, autoEscape && escape, echo, charset))
  }
}
