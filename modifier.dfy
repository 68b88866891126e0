/** The modifier-chain translator: `a|f:p` becomes `f(a,p)`, repeatedly, left to right. */
module Modifier {
  import opened Common

  /** The characters of both bracket classes of the modifier pattern. The class text `"->` is a
      range from '"' to '>', so it also admits `#%&'*+-./:;<=` and the digits. */
  predicate IsChainChar(c: char) {
    ('"' <= c <= '>') || ('a' <= c <= 'z') || ('A' <= c <= 'Z') || c == '_' || c == '[' || c == ']'
  }

  predicate AllChainChars(s: string) {
    forall k :: 0 <= k < |s| ==> IsChainChar(s[k])
  }

  /** Index of the first occurrence of `c` at or after `from`. */
  function IndexOf(s: string, c: char, from: nat): (r: Option<nat>)
    ensures r.Some? ==> from <= r.value < |s| && s[r.value] == c
    ensures r.Some? ==> forall k :: from <= k < r.value ==> s[k] != c
    ensures r.None? ==> forall k :: from <= k < |s| ==> s[k] != c
    decreases |s| - from
  {
    if from >= |s| then None else if s[from] == c then Some(from) else IndexOf(s, c, from + 1)
  }

  lemma IndexOfIs(s: string, c: char, i: nat)
    requires i < |s| && s[i] == c && forall k :: 0 <= k < i ==> s[k] != c
    ensures IndexOf(s, c, 0) == Some(i)
  {
    var r := IndexOf(s, c, 0);
    assert r.Some?;
    assert !(r.value < i) && !(r.value > i);
  }

  /** The loop guard: there is a `|` and the first one is not followed by another `|`. */
  predicate ChainPending(s: string) {
    match IndexOf(s, '|', 0)
    case None => false
    case Some(i) => !(i + 1 < |s| && s[i + 1] == '|')
  }

  /** A `|` at `i` with a chain character on both sides: where the pattern can match. */
  predicate IsChainBar(s: string, i: nat) {
    0 < i && i + 1 < |s| && s[i] == '|' && IsChainChar(s[i - 1]) && IsChainChar(s[i + 1])
  }

  /** The first `|` at or after `from` at which the pattern can match. */
  function FirstChainBar(s: string, from: nat): (r: Option<nat>)
    ensures r.Some? ==> from <= r.value && IsChainBar(s, r.value)
    ensures r.Some? ==> forall k :: from <= k < r.value ==> !IsChainBar(s, k)
    ensures r.None? ==> forall k :: from <= k ==> !IsChainBar(s, k)
    decreases |s| - from
  {
    if from >= |s| then None
    else if IsChainBar(s, from) then Some(from)
    else FirstChainBar(s, from + 1)
  }

  /** Start of the run of chain characters that ends just before `i`. */
  function RunStart(s: string, i: nat): (r: nat)
    requires i <= |s|
    ensures r <= i && forall k :: r <= k < i ==> IsChainChar(s[k])
    ensures r == 0 || !IsChainChar(s[r - 1])
    decreases i
  {
    if i > 0 && IsChainChar(s[i - 1]) then RunStart(s, i - 1) else i
  }

  /** End of the run of chain characters that starts at `i`. */
  function RunEnd(s: string, i: nat): (r: nat)
    requires i <= |s|
    ensures i <= r <= |s| && forall k :: i <= k < r ==> IsChainChar(s[k])
    ensures r == |s| || !IsChainChar(s[r])
    decreases |s| - i
  {
    if i < |s| && IsChainChar(s[i]) then RunEnd(s, i + 1) else i
  }

  /** What the leftmost match of `([chain]+)\|([chain]+)` captures: the whole run before the first
      matchable `|`, and the whole run after it (neither run can contain a `|`). */
  datatype ChainMatch = ChainMatch(left: string, right: string, at: nat)

  function FindChain(s: string): (r: Option<ChainMatch>)
    ensures r.Some? ==> |r.value.left| > 0 && |r.value.right| > 0
    ensures r.Some? ==> AllChainChars(r.value.left) && AllChainChars(r.value.right)
    ensures r.Some? ==> OccursAt(s, r.value.left + "|" + r.value.right, r.value.at)
    ensures r.None? <==> forall k :: 0 <= k < |s| ==> !IsChainBar(s, k)
  {
    match FirstChainBar(s, 0)
    case None => None
    case Some(b) =>
      var a := RunStart(s, b);
      var e := RunEnd(s, b + 1);
      assert s[a..e] == s[a..b] + "|" + s[b + 1..e];
      assert OccursAt(s, s[a..b] + "|" + s[b + 1..e], a);
      Some(ChainMatch(s[a..b], s[b + 1..e], a))
  }

  /** `explode(":", right)` read into `list($function, $params)`: the function is the text before
      the first ':', the parameters the text between the first and the second ':' (anything after
      a second ':' is dropped), and there are no parameters when there is no ':'. */
  function SplitModifier(right: string): (r: (string, Option<string>))
    ensures ':' !in r.0 && (r.1.Some? ==> ':' !in r.1.value)
    ensures r.1.None? ==> r.0 == right
    ensures r.1.Some? ==> StartsWith(right, r.0 + ":" + r.1.value)
  {
    match IndexOf(right, ':', 0)
    case None => (right, None)
    case Some(i) =>
      var rest := right[i + 1..];
      var p := match IndexOf(rest, ':', 0) case None => rest case Some(j) => rest[..j];
      assert right[..i + 1 + |p|] == right[..i] + ":" + p;
      (right[..i], Some(p))
  }

  /** The replacement text `function(left)` or `function(left,params)`. */
  function Call(m: ChainMatch): string {
    var (f, p) := SplitModifier(m.right);
    f + "(" + m.left + (match p case None => "" case Some(x) => "," + x) + ")"
  }

  lemma CallHasNoBar(m: ChainMatch)
    requires AllChainChars(m.left) && AllChainChars(m.right)
    ensures multiset(Call(m))['|'] == 0
  {
    var (f, p) := SplitModifier(m.right);
    assert '|' !in m.right && '|' !in m.left;
    if p.Some? {
      assert StartsWith(m.right, f + ":" + p.value);
      assert forall c :: c in f + ":" + p.value ==> c in m.right;
    } else {
      assert f == m.right;
    }
    assert '|' !in Call(m);
  }

  /** One turn of the loop body: every occurrence of the matched `left|right` text is replaced by
      its call; `None` when the pattern does not match (the body then changes nothing). */
  function ChainStep(s: string): (r: Option<string>)
    ensures r.None? <==> FindChain(s).None?
    ensures r.Some? ==> multiset(r.value)['|'] < multiset(s)['|']
  {
    match FindChain(s)
    case None => None
    case Some(m) =>
      StepLosesBar(s, m);
      Some(ReplaceAll(s, m.left + "|" + m.right, Call(m)))
  }

  lemma StepLosesBar(s: string, m: ChainMatch)
    requires AllChainChars(m.left) && AllChainChars(m.right)
    requires OccursAt(s, m.left + "|" + m.right, m.at)
    ensures multiset(ReplaceAll(s, m.left + "|" + m.right, Call(m)))['|'] < multiset(s)['|']
  {
    CallHasNoBar(m);
    ReplaceBarRun(s, m.left, m.right, Call(m), m.at);
  }

  lemma ReplaceBarRun(s: string, l: string, r: string, rep: string, at: nat)
    requires '|' !in l && '|' !in r && multiset(rep)['|'] == 0
    requires OccursAt(s, l + "|" + r, at)
    ensures multiset(ReplaceAll(s, l + "|" + r, rep))['|'] < multiset(s)['|']
  {
    BarCount(l, r);
    ReplaceAllFewer(s, l + "|" + r, rep, '|', at);
  }

  lemma BarCount(l: string, r: string)
    requires '|' !in l && '|' !in r
    ensures multiset(l + "|" + r)['|'] == 1
  {
    assert multiset(l + "|" + r) == multiset(l) + multiset("|") + multiset(r);
    assert multiset(l)['|'] == 0 && multiset(r)['|'] == 0;
  }

  /** The whole rewrite: it stops once no modifier is pending, and it never stops when a modifier
      is pending but the pattern cannot match (the PHP loop then spins on an unchanged string). */
  function ModifierChain(s: string): Outcome<string>
    decreases multiset(s)['|']
  {
    if !ChainPending(s) then Done(s)
    else match ChainStep(s)
      case None => Diverges
      case Some(t) => ModifierChain(t)
  }

  /** The loop as evidently intended: it also stops, leaving the text as it is, when a modifier
      is pending but the pattern finds nothing to rewrite. It always finishes, and a modifier
      left pending has no bar the pattern could match. */
  function ModifierChainStopping(s: string): (r: string)
    ensures !ChainPending(r) || forall k :: 0 <= k < |r| ==> !IsChainBar(r, k)
    decreases multiset(s)['|']
  {
    if !ChainPending(s) then s
    else match ChainStep(s)
      case None => s
      case Some(t) => ModifierChainStopping(t)
  }

  /** `modifierReplace`: the while loop of the source, proved against ModifierChain. A finished
      result has no pending modifier and never holds more `|` than the input. */
  method ModifierReplace(html: string) returns (r: Outcome<string>)
    ensures r == ModifierChain(html)
    ensures r.Done? ==> !ChainPending(r.value) && multiset(r.value)['|'] <= multiset(html)['|']
  {
    var h := html;
    while ChainPending(h)
      invariant ModifierChain(h) == ModifierChain(html)
      invariant multiset(h)['|'] <= multiset(html)['|']
      decreases multiset(h)['|']
    {
      var m := FindChain(h);
      if m.None? {
        return Diverges;
      }
      ghost var prev := h;
      h := ReplaceAll(h, m.value.left + "|" + m.value.right, Call(m.value));
      assert ChainStep(prev) == Some(h);
    }
    r := Done(h);
  }
}

module ModifierProperties {
  import opened Common
  import opened Modifier

  /** Input without a `|`, or whose first `|` is doubled (`||` is PHP's "or"), is returned as it is. */
  lemma NoPendingModifierUnchanged(s: string)
    requires '|' !in s || (exists i :: 0 <= i < |s| - 1 && s[i] == '|' && s[i + 1] == '|' && '|' !in s[..i])
    ensures ModifierChain(s) == Done(s)
  {
    if '|' in s {
      var i :| 0 <= i < |s| - 1 && s[i] == '|' && s[i + 1] == '|' && '|' !in s[..i];
      DoubledBarNotPending(s, i);
    } else {
      NoBarNotPending(s);
    }
  }

  lemma NoBarNotPending(s: string)
    requires '|' !in s
    ensures !ChainPending(s)
  {
  }

  lemma DoubledBarNotPending(s: string, i: nat)
    requires i < |s| - 1 && s[i] == '|' && s[i + 1] == '|' && '|' !in s[..i]
    ensures !ChainPending(s)
  {
    assert forall k :: 0 <= k < i ==> s[..i][k] == s[k];
    IndexOfIs(s, '|', i);
  }

  lemma RunStartAll(s: string, i: nat)
    requires i <= |s| && AllChainChars(s[..i])
    ensures RunStart(s, i) == 0
    decreases i
  {
    if i > 0 {
      assert s[..i][i - 1] == s[i - 1];
      assert s[..i - 1] == s[..i][..i - 1];
      RunStartAll(s, i - 1);
    }
  }

  lemma RunEndAll(s: string, i: nat)
    requires i <= |s| && AllChainChars(s[i..])
    ensures RunEnd(s, i) == |s|
    decreases |s| - i
  {
    if i < |s| {
      assert s[i..][0] == s[i];
      assert s[i + 1..] == s[i..][1..];
      RunEndAll(s, i + 1);
    }
  }

  /** The leftmost match in `x|right` followed by text that does not continue the run. */
  lemma FindChainFirst(x: string, right: string, post: string)
    requires |x| > 0 && |right| > 0 && AllChainChars(x) && AllChainChars(right)
    requires post == [] || !IsChainChar(post[0])
    ensures FindChain(x + "|" + right + post) == Some(ChainMatch(x, right, 0))
  {
    var s := x + "|" + right + post;
    forall k | 0 <= k < |x| ensures !IsChainBar(s, k) {
      assert s[k] == x[k];
    }
    assert IsChainBar(s, |x|) by {
      assert s[|x| - 1] == x[|x| - 1];
      assert s[|x| + 1] == right[0];
    }
    assert FirstChainBar(s, 0) == Some(|x|);
    assert s[..|x|] == x;
    RunStartAll(s, |x|);
    var e := |x| + 1 + |right|;
    assert s[|x| + 1..e] == right;
    RunEndAll(s[..e], |x| + 1);
    RunEndPrefix(s, |x| + 1, e);
    assert s[0..|x|] == x;
  }

  lemma RunEndPrefix(s: string, i: nat, e: nat)
    requires i <= e <= |s| && AllChainChars(s[i..e])
    requires e == |s| || !IsChainChar(s[e])
    ensures RunEnd(s, i) == e
    decreases e - i
  {
    if i < e {
      assert s[i..e][0] == s[i];
      assert s[i + 1..e] == s[i..e][1..];
      RunEndPrefix(s, i + 1, e);
    }
  }

  /** How `explode` splits `f` or `f:q` when neither part holds a ':'. */
  lemma SplitPlain(f: string, p: Option<string>)
    requires ':' !in f && (p.Some? ==> ':' !in p.value)
    ensures SplitModifier(ModifierText(f, p)) == (f, p)
  {
    match p {
      case None =>
      case Some(q) =>
        var right := ModifierText(f, p);
        assert right[|f|] == ':';
        assert forall k :: 0 <= k < |f| ==> right[k] == f[k];
        assert IndexOf(right, ':', 0) == Some(|f|);
        assert right[|f| + 1..] == q;
        assert right[..|f|] == f;
    }
  }

  lemma ChainStepOf(s: string, m: ChainMatch)
    requires FindChain(s) == Some(m)
    ensures ChainStep(s) == Some(ReplaceAll(s, m.left + "|" + m.right, Call(m)))
  {
  }

  lemma ChainUnfold(s: string, t: string)
    requires ChainPending(s) && ChainStep(s) == Some(t)
    ensures ModifierChain(s) == ModifierChain(t)
  {
  }

  lemma ChainFinished(s: string)
    requires '|' !in s
    ensures ModifierChain(s) == Done(s)
  {
    assert IndexOf(s, '|', 0).None?;
  }

  lemma CallPlain(x: string, f: string, p: Option<string>)
    requires ':' !in f && (p.Some? ==> ':' !in p.value)
    ensures Call(ChainMatch(x, ModifierText(f, p), 0)) == f + "(" + x + Params(p) + ")"
  {
    SplitPlain(f, p);
  }

  lemma StepWhole(s: string, m: ChainMatch)
    requires FindChain(s) == Some(m) && s == m.left + "|" + m.right
    ensures ChainStep(s) == Some(Call(m))
  {
    ChainStepOf(s, m);
    assert ReplaceAll(s, s, Call(m)) == Call(m) by {
      assert s[..|s|] == s;
      assert s[|s|..] == [];
    }
  }

  lemma LastStep(s: string, m: ChainMatch)
    requires ChainPending(s) && ChainStep(s) == Some(Call(m))
    requires AllChainChars(m.left) && AllChainChars(m.right)
    ensures ModifierChain(s) == Done(Call(m))
  {
    ChainUnfold(s, Call(m));
    CallHasNoBar(m);
    ChainFinished(Call(m));
  }

  lemma PendingAt(x: string, right: string)
    requires |x| > 0 && |right| > 0 && AllChainChars(x) && AllChainChars(right)
    ensures ChainPending(x + "|" + right)
  {
    var s := x + "|" + right;
    assert forall k :: 0 <= k < |x| ==> s[k] == x[k] && IsChainChar(x[k]);
    IndexOfIs(s, '|', |x|);
    assert s[|x| + 1] == right[0];
  }

  /** A single modifier: `x|f` becomes `f(x)` and `x|f:p` becomes `f(x,p)`, when `x`, `f` and `p`
      are runs the modifier pattern accepts. */
  lemma SingleModifier(x: string, f: string, p: Option<string>)
    requires |x| > 0 && |f| > 0 && AllChainChars(x) && AllChainChars(f) && ':' !in f
    requires p.Some? ==> AllChainChars(p.value) && ':' !in p.value
    ensures ModifierChain(x + "|" + ModifierText(f, p)) == Done(f + "(" + x + Params(p) + ")")
  {
    TextChainChars(f, p);
    OneMatch(x, ModifierText(f, p));
    CallPlain(x, f, p);
  }

  lemma TextChainChars(f: string, p: Option<string>)
    requires AllChainChars(f) && (p.Some? ==> AllChainChars(p.value))
    ensures |ModifierText(f, p)| >= |f| && AllChainChars(ModifierText(f, p))
  {
  }

  /** `x|right` with both sides runs of chain characters is rewritten in one step, to the call. */
  lemma OneMatch(x: string, right: string)
    requires |x| > 0 && |right| > 0 && AllChainChars(x) && AllChainChars(right)
    ensures ModifierChain(x + "|" + right) == Done(Call(ChainMatch(x, right, 0)))
  {
    var s := x + "|" + right;
    PendingAt(x, right);
    assert s + [] == s;
    FindChainFirst(x, right, []);
    var m := ChainMatch(x, right, 0);
    StepWhole(s, m);
    LastStep(s, m);
  }

  function ModifierText(f: string, p: Option<string>): string {
    match p case None => f case Some(q) => f + ":" + q
  }

  function Params(p: Option<string>): string {
    match p case None => "" case Some(q) => "," + q
  }

  /** The matched text `x|f` does not occur again in a tail that starts with the chain's next `|`. */
  lemma NoRepeatInTail(x: string, f: string, rest: string)
    requires |x| > 0 && '|' !in x && '|' !in f
    requires |rest| > 0 && rest[0] == '|' && '|' !in rest[1..]
    ensures forall i: nat :: !OccursAt(rest, x + "|" + f, i)
  {
    var pat := x + "|" + f;
    forall i: nat ensures !OccursAt(rest, pat, i) {
      if i + |pat| <= |rest| {
        assert rest[i..i + |pat|][|x|] == rest[i + |x|];
        assert i + |x| == 0 || rest[i + |x|] == rest[1..][i + |x| - 1];
      }
    }
  }

  lemma FirstOfTwo(x: string, f: string, rest: string)
    requires |x| > 0 && |f| > 0 && AllChainChars(x) && AllChainChars(f) && ':' !in f
    requires |rest| > 1 && rest[0] == '|' && '|' !in rest[1..] && IsChainChar(rest[1])
    ensures ChainPending(x + "|" + f + rest)
    ensures ChainStep(x + "|" + f + rest) == Some(f + "(" + x + ")" + rest)
  {
    FirstPending(x, f, rest);
    FirstStep(x, f, rest);
    CallNoParams(x, f);
  }

  lemma CallNoParams(x: string, f: string)
    requires ':' !in f
    ensures Call(ChainMatch(x, f, 0)) == f + "(" + x + ")"
  {
    assert SplitModifier(f) == (f, None);
    assert f + "(" + x + "" == f + "(" + x;
  }

  lemma FirstPending(x: string, f: string, rest: string)
    requires |x| > 0 && |f| > 0 && AllChainChars(x) && AllChainChars(f)
    ensures ChainPending(x + "|" + f + rest)
  {
    var s := x + "|" + f + rest;
    assert forall k :: 0 <= k < |x| ==> s[k] == x[k] && IsChainChar(x[k]);
    IndexOfIs(s, '|', |x|);
    assert s[|x| + 1] == f[0];
  }

  lemma FirstStep(x: string, f: string, rest: string)
    requires |x| > 0 && |f| > 0 && AllChainChars(x) && AllChainChars(f)
    requires |rest| > 1 && rest[0] == '|' && '|' !in rest[1..]
    ensures ChainStep(x + "|" + f + rest) == Some(Call(ChainMatch(x, f, 0)) + rest)
  {
    FindChainFirst(x, f, rest);
    var m := ChainMatch(x, f, 0);
    ChainStepOf(x + "|" + f + rest, m);
    assert '|' !in x && '|' !in f;
    NoRepeatInTail(x, f, rest);
    ReplaceFront(x + "|" + f, rest, Call(m));
  }

  /** Replacing in `pat + rest`, when `pat` does not occur in `rest`, replaces the front only. */
  lemma ReplaceFront(pat: string, rest: string, c: string)
    requires |pat| > 0 && forall i: nat :: !OccursAt(rest, pat, i)
    ensures ReplaceAll(pat + rest, pat, c) == c + rest
  {
    var s := pat + rest;
    assert s[..|pat|] == pat && s[|pat|..] == rest;
    ReplaceAllAbsent(rest, pat, c);
  }

  /** A call `f(x)` is itself a run the pattern accepts, so chains nest. */
  lemma YieldsChainChars(x: string, f: string)
    requires AllChainChars(x) && AllChainChars(f)
    ensures AllChainChars(f + "(" + x + ")")
  {
  }

  /** A chain is applied left to right: `x|f|g:q` becomes `g(f(x),q)`, so `$x|upper|truncate:5`
      becomes `truncate(upper($x),5)`. */
  lemma ChainOfTwo(x: string, f: string, g: string, q: Option<string>)
    requires |x| > 0 && |f| > 0 && |g| > 0
    requires AllChainChars(x) && AllChainChars(f) && AllChainChars(g) && ':' !in f && ':' !in g
    requires q.Some? ==> AllChainChars(q.value) && ':' !in q.value
    ensures ModifierChain(x + "|" + f + "|" + ModifierText(g, q))
         == Done(g + "(" + (f + "(" + x + ")") + Params(q) + ")")
  {
    var right := ModifierText(g, q);
    assert AllChainChars(right);
    var rest := "|" + right;
    assert rest[1..] == right && '|' !in right;
    var s := x + "|" + f + rest;
    assert s == x + "|" + f + "|" + right;
    var y := f + "(" + x + ")";
    assert y + rest == y + "|" + right;
    YieldsChainChars(x, f);
    FirstOfTwo(x, f, rest);
    ChainUnfold(s, y + rest);
    SingleModifier(y, g, q);
  }

  /** When a modifier is pending but the pattern can match nowhere, the source loop never ends:
      the body rewrites nothing and the guard still holds. */
  lemma StrandedBarDiverges(s: string)
    requires ChainPending(s) && forall k :: 0 <= k < |s| ==> !IsChainBar(s, k)
    ensures ModifierChain(s) == Diverges
  {
    assert FindChain(s).None?;
  }

  /** `a |b` (a spaced bar, as in `{if="$a | $b"}`) and `$a|` (a trailing bar) hang the loop. */
  lemma StrandedBarExamples()
    ensures ModifierChain("a |b") == Diverges
    ensures ModifierChain("$a|") == Diverges
  {
    var s := "a |b";
    assert IndexOf(s, '|', 0) == Some(2);
    StrandedBarDiverges(s);
    var t := "$a|";
    assert IndexOf(t, '|', 0) == Some(2);
    StrandedBarDiverges(t);
  }

  /** Where the loop as written finishes, the corrected loop gives the same text. */
  lemma {:induction false} StoppingAgrees(s: string)
    ensures ModifierChain(s).Done? ==> ModifierChain(s).value == ModifierChainStopping(s)
    decreases multiset(s)['|']
  {
    if ChainPending(s) && ChainStep(s).Some? {
      StoppingAgrees(ChainStep(s).value);
    }
  }

  /** The corrected loop leaves a stranded bar where it is: `$a|` stays `$a|`. */
  lemma StoppingKeepsStranded(s: string)
    requires forall k :: 0 <= k < |s| ==> !IsChainBar(s, k)
    ensures ModifierChainStopping(s) == s
  {
    assert FindChain(s).None?;
  }
}
