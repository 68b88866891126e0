/** What `varReplace` does to the variable paths a template writes: loop pseudo-variables get the
    loop level, dots and brackets become quoted index accesses, text without a variable is left
    alone, and the assignment test means what its regular expression says. */
module VarPathProperties {
  import opened Common
  import opened Modifier
  import opened ModifierProperties
  import opened VarPath

  // ---------------------------------------------------------------------------------------
  // Renaming

  /** Text without a `$` is never renamed. */
  lemma {:induction false} NoDollarNoRename(s: string, name: string, suffix: string)
    requires |name| > 0 && name[0] == '$'
    requires forall k :: 0 <= k < |s| ==> s[k] != '$'
    ensures RenameAll(s, name, suffix) == s
    decreases |s|
  {
    if |s| > 0 {
      NoDollarNoRename(s[1..], name, suffix);
      assert s == [s[0]] + s[1..];
    }
  }

  /** Text in which no `$` is followed by a letter or `_` is never renamed either. */
  lemma {:induction false} NoTokenNoRename(s: string, name: string, suffix: string)
    requires |name| >= 2 && name[0] == '$' && IsIdentStart(name[1])
    requires forall k :: 0 <= k < |s| ==> !TokenStartsAt(s, k)
    ensures RenameAll(s, name, suffix) == s
    decreases |s|
  {
    if |s| > 0 {
      assert !BoundedAt(s, name, 0) by {
        assert !TokenStartsAt(s, 0);
        if |name| <= |s| {
          assert s[0..|name|][0] == s[0] && s[0..|name|][1] == s[1];
        }
      }
      forall k | 0 <= k < |s[1..]| ensures !TokenStartsAt(s[1..], k) {
        assert !TokenStartsAt(s, k + 1);
      }
      NoTokenNoRename(s[1..], name, suffix);
      assert s == [s[0]] + s[1..];
    }
  }

  /** A string of at least two characters whose only `$` is its first. */
  predicate SingleDollar(s: string) {
    |s| >= 2 && s[0] == '$' && forall k :: 0 < k < |s| ==> s[k] != '$'
  }

  /** A string whose only `$` is its first character is renamed exactly when it starts with the
      name at a word boundary; a longer name such as `$keyboard` or `$key1` is left alone. */
  lemma RenameSingle(s: string, name: string, suffix: string)
    requires SingleDollar(s) && |name| > 0 && name[0] == '$'
    ensures RenameAll(s, name, suffix) == if BoundedAt(s, name, 0) then name + suffix + s[|name|..] else s
  {
    if BoundedAt(s, name, 0) {
      NoDollarNoRename(s[|name|..], name, suffix);
    } else {
      NoDollarNoRename(s[1..], name, suffix);
      assert s == [s[0]] + s[1..];
    }
  }

  /** A name that differs from the string in its second character is not renamed there. */
  lemma RenameSingleOther(s: string, name: string, suffix: string)
    requires SingleDollar(s) && |name| >= 2 && name[0] == '$' && s[1] != name[1]
    ensures RenameAll(s, name, suffix) == s
  {
    RenameSingle(s, name, suffix);
  }

  /** A level suffix keeps a single-`$` name single-`$`. */
  lemma SuffixKeepsSingle(v: string, level: int)
    requires SingleDollar(v)
    ensures SingleDollar(v + IntToString(level)) && (v + IntToString(level))[1] == v[1]
  {
    var l := IntToString(level);
    var s := v + l;
    forall k | 0 < k < |s| ensures s[k] != '$' {
      if k >= |v| { assert s[k] == l[k - |v|]; }
    }
  }

  /** A bare loop pseudo-variable is renamed once, to itself followed by the loop level. */
  lemma PseudoVariableRenamed(v: string, level: int)
    requires v == "$key" || v == "$value" || v == "$counter"
    ensures LoopRename(v, level) == v + IntToString(level)
  {
    var l := IntToString(level);
    assert SingleDollar(v);
    SuffixKeepsSingle(v, level);
    RenameSingle(v, v, l);
    assert BoundedAt(v, v, 0);
    assert v[|v|..] == [];
    assert RenameAll(v, v, l) == v + l;
    if v == "$key" {
      RenameSingleOther(v + l, "$value", l);
      RenameSingleOther(v + l, "$counter", l);
    } else if v == "$value" {
      RenameSingleOther(v, "$key", l);
      RenameSingleOther(v + l, "$counter", l);
    } else {
      RenameSingleOther(v, "$key", l);
      RenameSingleOther(v, "$value", l);
    }
  }

  // ---------------------------------------------------------------------------------------
  // Variables without dots, brackets, modifiers or assignment

  /** A variable name: `$`, an identifier start, then word characters (or the `-` of a negative
      level suffix). */
  predicate PlainVariable(t: string) {
    |t| >= 2 && t[0] == '$' && IsIdentStart(t[1]) &&
    forall k :: 1 <= k < |t| ==> IsWordChar(t[k]) || t[k] == '-'
  }

  lemma BracketsNoOpen(t: string)
    requires forall k :: 0 <= k < |t| ==> t[k] != '['
    ensures Brackets(t) == t
  {
    if |t| > 0 {
      BracketsNoOpen(t[1..]);
      assert t == [t[0]] + t[1..];
    }
  }

  lemma DotsNoDot(t: string)
    requires forall k :: 0 <= k < |t| ==> t[k] != '.'
    ensures Dots(t) == t
  {
    if |t| > 0 {
      DotsNoDot(t[1..]);
      assert t == [t[0]] + t[1..];
    }
  }

  lemma NoEqualNoAssignment(s: string, i: nat, seen: bool)
    requires i <= |s| && forall k :: 0 <= k < |s| ==> s[k] != '='
    ensures !AssignFrom(s, i, seen)
    decreases |s| - i
  {
    if i < |s| {
      NoEqualNoAssignment(s, i + 1, if s[i] == '\n' then false else seen || s[i] == '$');
    }
  }

  /** A plain variable is its own only token. */
  lemma PlainTokens(t: string)
    requires PlainVariable(t)
    ensures Tokens(t) == [t]
  {
    var j := SpaceFrom(t, 2);
    assert j == |t|;
    assert t[0..j] == t;
    assert TokensFrom(t, j) == [];
  }

  /** A variable that is plain after renaming is printed as it stands, escaped when both the
      escape argument and the escaping flag are on, with `echo` in front when asked for. */
  lemma PlainTranslation(s: string, escape: bool, echo: bool, level: int, autoEscape: bool,
                         charset: string)
    requires PlainVariable(LoopRename(s, level))
    ensures VarTranslation(s, escape, echo, level, autoEscape, charset)
         == Done(Wrap(LoopRename(s, level), autoEscape && escape, echo, charset))
  {
    var t := LoopRename(s, level);
    PlainTokens(t);
    PlainChars(t);
    BracketsNoOpen(t);
    DotsNoDot(t);
    FoldOwnToken(t);
    ChainFinished(t);
    NoEqualNoAssignment(t, 0, false);
  }

  /** A plain variable has no bracket, dot, `=` or `|` in it. */
  lemma PlainChars(t: string)
    requires PlainVariable(t)
    ensures forall k :: 0 <= k < |t| ==> t[k] != '[' && t[k] != '.' && t[k] != '='
    ensures '|' !in t
  {
  }

  /** A token that is its own normal form leaves the text alone. */
  lemma FoldOwnToken(t: string)
    requires NormalizeToken(t) == t
    ensures FoldTokens(t, [t]) == t
  {
    ReplaceAllSelf(t);
    assert FoldTokens(t, [t]) == FoldTokens(t, []);
  }

  /** `$counter`, `$key` and `$value` used in a loop body name the current level's variables. */
  lemma PseudoVariableTranslation(v: string, escape: bool, echo: bool, level: int, autoEscape: bool,
                                  charset: string)
    requires v == "$key" || v == "$value" || v == "$counter"
    ensures VarTranslation(v, escape, echo, level, autoEscape, charset)
         == Done(Wrap(v + IntToString(level), autoEscape && escape, echo, charset))
  {
    PseudoVariableRenamed(v, level);
    RenamedIsPlain(v, level);
    PlainTranslation(v, escape, echo, level, autoEscape, charset);
  }

  lemma RenamedIsPlain(v: string, level: int)
    requires v == "$key" || v == "$value" || v == "$counter"
    ensures PlainVariable(v + IntToString(level))
  {
    var t := v + IntToString(level);
    assert t[1] == v[1];
    forall k | 1 <= k < |t| ensures IsWordChar(t[k]) || t[k] == '-' {
      if k >= |v| { assert t[k] == IntToString(level)[k - |v|]; }
    }
  }

  /** Text in which no `$` starts a variable (no `$` followed by a letter or `_`, as in `$1` or
      `a $ b`) comes back unchanged: no renaming, no paths, and no modifier or escaping pass
      either. */
  lemma NoVariableVerbatim(s: string, escape: bool, echo: bool, level: int, autoEscape: bool,
                           charset: string)
    requires forall k :: 0 <= k < |s| ==> !TokenStartsAt(s, k)
    ensures VarTranslation(s, escape, echo, level, autoEscape, charset) == Done(s)
  {
    var l := IntToString(level);
    NoTokenNoRename(s, "$key", l);
    NoTokenNoRename(s, "$value", l);
    NoTokenNoRename(s, "$counter", l);
    assert Tokens(s) == [];
  }
  // ---------------------------------------------------------------------------------------
  // Dots and brackets

  predicate Words(n: string) {
    forall k :: 0 <= k < |n| ==> IsWordChar(n[k])
  }

  /** One step of a variable path as written: `.name`, `[name]` or the already quoted
      `["name"]`. */
  datatype Access = Dot(name: string) | Index(name: string) | Key(name: string)

  predicate AllWords(ps: seq<Access>) {
    forall k :: 0 <= k < |ps| ==> Words(ps[k].name)
  }

  /** A step as written, and as it stands after the bracket pass. */
  function StepWritten(a: Access): string {
    match a case Dot(n) => "." + n case Index(n) => "[" + n + "]" case Key(n) => QuotedName(n)
  }

  function StepHalf(a: Access): string {
    match a case Dot(n) => "." + n case _ => QuotedName(a.name)
  }

  function Written(ps: seq<Access>): string
    decreases |ps|
  {
    if ps == [] then "" else StepWritten(ps[0]) + Written(ps[1..])
  }

  function QuotedName(n: string): string {
    "[\"" + n + "\"]"
  }

  /** The canonical form: every step a quoted index. */
  function Quoted(ps: seq<Access>): string
    decreases |ps|
  {
    if ps == [] then "" else QuotedName(ps[0].name) + Quoted(ps[1..])
  }

  /** The form after the bracket pass: indices quoted, dots still as written. */
  function HalfQuoted(ps: seq<Access>): string
    decreases |ps|
  {
    if ps == [] then "" else StepHalf(ps[0]) + HalfQuoted(ps[1..])
  }

  lemma {:induction false} BracketsPrefix(x: string, y: string)
    requires forall k :: 0 <= k < |x| ==> x[k] != '['
    ensures Brackets(x + y) == x + Brackets(y)
    decreases |x|
  {
    if |x| > 0 {
      assert (x + y)[0] == x[0] && (x + y)[1..] == x[1..] + y;
      assert Brackets(x + y) == [x[0]] + Brackets(x[1..] + y);
      BracketsPrefix(x[1..], y);
      assert x == [x[0]] + x[1..];
    } else {
      assert x + y == y;
    }
  }

  lemma {:induction false} DotsPrefix(x: string, y: string)
    requires forall k :: 0 <= k < |x| ==> x[k] != '.'
    ensures Dots(x + y) == x + Dots(y)
    decreases |x|
  {
    if |x| > 0 {
      assert (x + y)[0] == x[0] && (x + y)[1..] == x[1..] + y;
      assert Dots(x + y) == [x[0]] + Dots(x[1..] + y);
      DotsPrefix(x[1..], y);
      assert x == [x[0]] + x[1..];
    } else {
      assert x + y == y;
    }
  }

  /** `[name]` becomes `["name"]`. */
  lemma BracketsIndex(n: string, y: string)
    requires Words(n)
    ensures Brackets("[" + n + "]" + y) == QuotedName(n) + Brackets(y)
  {
    var t := "[" + n + "]" + y;
    WordEndAt(t, 1, 1 + |n|);
    assert BracketClose(t) == Some(1 + |n|);
    assert t[1..1 + |n|] == n;
    assert t[|n| + 2..] == y;
  }

  /** What may follow a `.name` step for the dot pattern to take it whole: nothing, or a
      character that neither extends the word nor is a quote (and, after an empty name, is not
      a `$`). */
  predicate StepEnd(n: string, y: string) {
    y == [] || (!IsWordChar(y[0]) && !IsQuote(y[0]) && (|n| > 0 || y[0] != '$'))
  }

  /** An already quoted `["name"]` is left as it is: the pattern needs a word character or `]`
      right after the `[`, and finds the quote. */
  lemma BracketsKey(n: string, y: string)
    requires Words(n)
    ensures Brackets(QuotedName(n) + y) == QuotedName(n) + Brackets(y)
  {
    var t := QuotedName(n) + y;
    var rest := "\"" + n + "\"]";
    assert t[0] == '[' && t[1] == '"';
    WordEndAt(t, 1, 1);
    assert BracketClose(t) == None;
    assert t[1..] == rest + y;
    BracketsPrefix(rest, y);
    assert QuotedName(n) == "[" + rest;
  }

  /** `.name` becomes `["name"]` when no word character or quote follows the word. */
  lemma DotsDot(n: string, y: string)
    requires Words(n) && StepEnd(n, y)
    ensures Dots("." + n + y) == QuotedName(n) + Dots(y)
  {
    var t := "." + n + y;
    WordEndAt(t, 1, 1 + |n|);
    assert DotCapture(t) == Some(1 + |n|);
    assert t[1..1 + |n|] == n;
    assert t[|n| + 1..] == y;
  }

  /** A tail that can end a path: no `[` or `.` in it, and a first character that ends the last
      step (`|upper`, `)`, a space, or nothing). */
  predicate PathTail(tail: string) {
    (forall k :: 0 <= k < |tail| ==> tail[k] != '[' && tail[k] != '.') &&
    (tail == [] || (!IsWordChar(tail[0]) && !IsQuote(tail[0]) && tail[0] != '$'))
  }

  /** The bracket pass over one step in front of text it has already been shown to handle. */
  lemma BracketStep(a: Access, r: string, q: string)
    requires Words(a.name) && Brackets(r) == q
    ensures Brackets(StepWritten(a) + r) == StepHalf(a) + q
  {
    match a
    case Dot(n) => BracketsPrefix("." + n, r);
    case Index(n) => BracketsIndex(n, r);
    case Key(n) => BracketsKey(n, r);
  }

  lemma {:induction false} BracketPass(ps: seq<Access>, tail: string)
    requires AllWords(ps) && PathTail(tail)
    ensures Brackets(Written(ps) + tail) == HalfQuoted(ps) + tail
    decreases |ps|
  {
    if ps == [] {
      BracketsPrefix(tail, []);
      assert Written(ps) + tail == tail && tail + [] == tail;
    } else {
      BracketPass(ps[1..], tail);
      BracketStep(ps[0], Written(ps[1..]) + tail, HalfQuoted(ps[1..]) + tail);
      AppendAssoc(StepWritten(ps[0]), Written(ps[1..]), tail);
      AppendAssoc(StepHalf(ps[0]), HalfQuoted(ps[1..]), tail);
    }
  }

  lemma HalfQuotedHead(ps: seq<Access>, n: string, tail: string)
    requires PathTail(tail)
    ensures StepEnd(n, HalfQuoted(ps) + tail)
  {
    if ps == [] {
      assert HalfQuoted(ps) + tail == tail;
    } else {
      assert HalfQuoted(ps) == StepHalf(ps[0]) + HalfQuoted(ps[1..]);
      assert (HalfQuoted(ps) + tail)[0] == StepHalf(ps[0])[0];
    }
  }

  /** The dot pass over one half-quoted step in front of text it has been shown to handle. */
  lemma DotStep(a: Access, r: string, q: string)
    requires Words(a.name) && (a.Dot? ==> StepEnd(a.name, r)) && Dots(r) == q
    ensures Dots(StepHalf(a) + r) == QuotedName(a.name) + q
  {
    match a
    case Dot(n) => DotsDot(n, r);
    case Index(n) => DotsPrefix(QuotedName(n), r);
    case Key(n) => DotsPrefix(QuotedName(n), r);
  }

  lemma {:induction false} DotPass(ps: seq<Access>, tail: string)
    requires AllWords(ps) && PathTail(tail)
    ensures Dots(HalfQuoted(ps) + tail) == Quoted(ps) + tail
    decreases |ps|
  {
    if ps == [] {
      DotsPrefix(tail, []);
      assert HalfQuoted(ps) + tail == tail && tail + [] == tail;
    } else {
      DotPass(ps[1..], tail);
      HalfQuotedHead(ps[1..], ps[0].name, tail);
      DotStep(ps[0], HalfQuoted(ps[1..]) + tail, Quoted(ps[1..]) + tail);
      AppendAssoc(StepHalf(ps[0]), HalfQuoted(ps[1..]), tail);
      AppendAssoc(QuotedName(ps[0].name), Quoted(ps[1..]), tail);
    }
  }

  /** A variable path `base.a[b]["c"]` is normalised to `base["a"]["b"]["c"]`, whatever the mix
      of dots, brackets and quoted keys, as long as each step is a run of word characters; a tail such as
      `|upper` after the path is kept. Digits count, so a decimal such as `$x*1.5` turns into
      `$x*1["5"]` as well. */
  lemma CanonicalPath(base: string, ps: seq<Access>, tail: string)
    requires forall k :: 0 <= k < |base| ==> base[k] != '[' && base[k] != '.'
    requires AllWords(ps) && PathTail(tail)
    ensures NormalizeToken(base + Written(ps) + tail) == base + Quoted(ps) + tail
  {
    BracketsPrefix(base, Written(ps) + tail);
    BracketPass(ps, tail);
    DotsPrefix(base, HalfQuoted(ps) + tail);
    DotPass(ps, tail);
    AppendAssoc(base, Written(ps), tail);
    AppendAssoc(base, Quoted(ps), tail);
  }

  /** The quoted form depends only on the names of the steps. */
  lemma {:induction false} QuotedByNames(ps: seq<Access>, qs: seq<Access>)
    requires |ps| == |qs| && forall i :: 0 <= i < |ps| ==> ps[i].name == qs[i].name
    ensures Quoted(ps) == Quoted(qs)
    decreases |ps|
  {
    if ps != [] {
      QuotedByNames(ps[1..], qs[1..]);
    }
  }

  /** `{$a.b.c}`, `{$a[b][c]}` and `{$a["b"]["c"]}`, or any mix of the three forms over the same
      names, normalise to the same text. */
  lemma PathFormsAgree(base: string, ps: seq<Access>, qs: seq<Access>, tail: string)
    requires forall k :: 0 <= k < |base| ==> base[k] != '[' && base[k] != '.'
    requires AllWords(ps) && PathTail(tail)
    requires |ps| == |qs| && forall i :: 0 <= i < |ps| ==> ps[i].name == qs[i].name
    ensures NormalizeToken(base + Written(ps) + tail) == NormalizeToken(base + Written(qs) + tail)
  {
    CanonicalPath(base, ps, tail);
    assert AllWords(qs) by {
      forall k | 0 <= k < |qs| ensures Words(qs[k].name) {
        assert qs[k].name == ps[k].name;
      }
    }
    CanonicalPath(base, qs, tail);
    QuotedByNames(ps, qs);
  }

  // ---------------------------------------------------------------------------------------
  // The assignment test

  predicate NoNewline(s: string, i: nat, j: nat)
    requires i <= j <= |s|
  {
    forall k :: i <= k < j ==> s[k] != '\n'
  }

  /** An `=` at `j` reachable from `i` without crossing a line end. */
  predicate EqualReachable(s: string, i: nat, j: nat) {
    i <= j < |s| && s[j] == '=' && NoNewline(s, i, j)
  }

  /** A `$` at `d` followed on its line by an `=` at `j`: a match of `\$.*=.*`. */
  predicate AssignmentAt(s: string, d: nat, j: nat) {
    d < j < |s| && s[d] == '$' && s[j] == '=' && NoNewline(s, d, j)
  }

  lemma {:induction false} AssignFromMeans(s: string, i: nat, seen: bool)
    requires i <= |s|
    ensures AssignFrom(s, i, seen) <==>
            (seen && exists j: nat :: EqualReachable(s, i, j)) ||
            (exists d: nat, j: nat :: i <= d && AssignmentAt(s, d, j))
    decreases |s| - i
  {
    if i == |s| {
    } else if s[i] == '=' && seen {
      assert EqualReachable(s, i, i);
    } else {
      var seen' := if s[i] == '\n' then false else seen || s[i] == '$';
      AssignFromMeans(s, i + 1, seen');
      if seen && exists j: nat :: EqualReachable(s, i, j) {
        var j: nat :| EqualReachable(s, i, j);
        assert EqualReachable(s, i + 1, j);
      }
      if exists d: nat, j: nat :: i <= d && AssignmentAt(s, d, j) {
        var d: nat, j: nat :| i <= d && AssignmentAt(s, d, j);
        if d == i { assert EqualReachable(s, i + 1, j); }
      }
      var next := i + 1;
      if seen' && exists j: nat :: EqualReachable(s, next, j) {
        var j: nat :| EqualReachable(s, next, j);
        if seen { assert EqualReachable(s, i, j); } else { assert AssignmentAt(s, i, j); }
      }
    }
  }

  /** The scanner answers exactly whether some `$` is followed on the same line by an `=`. */
  lemma HasAssignmentMeans(s: string)
    ensures HasAssignment(s) <==> exists d: nat, j: nat :: AssignmentAt(s, d, j)
  {
    AssignFromMeans(s, 0, false);
  }

  /** A translated path that assigns is left unwrapped, whatever the escape and echo arguments. */
  lemma AssignmentUnwrapped(html: string, escape: bool, echo: bool, level: int, autoEscape: bool,
                            charset: string, d: nat, j: nat)
    requires Tokens(LoopRename(html, level)) != []
    requires var m := ModifierChain(FoldTokens(LoopRename(html, level), Tokens(LoopRename(html, level))));
             m.Done? && AssignmentAt(m.value, d, j)
    ensures VarTranslation(html, escape, echo, level, autoEscape, charset)
         == ModifierChain(FoldTokens(LoopRename(html, level), Tokens(LoopRename(html, level))))
  {
    HasAssignmentMeans(ModifierChain(FoldTokens(LoopRename(html, level), Tokens(LoopRename(html, level)))).value);
  }
}
