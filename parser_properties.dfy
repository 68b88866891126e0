/** What the compile pass guarantees: the ignore and noparse blocks, the if and loop counts behind
    the two errors, the escaping save slot, and the names a loop declares for its body. */
module TemplateParserProperties {
  import opened Common
  import opened IncludePath
  import opened VarPath
  import opened VarPathProperties
  import ModifierProperties
  import opened Tags
  import opened TemplateParser

  // ---------------------------------------------------------------------------------------
  // Ignore and noparse blocks

  /** The two block flags are never both set. */
  predicate Exclusive(st: State) {
    !(st.ignoreOpen && st.noparseOpen)
  }

  /** One segment keeps the flags exclusive. */
  lemma StepKeepsExclusive(st: State, seg: Segment, charset: string)
    requires Exclusive(st)
    ensures Step(st, seg, charset).Done? ==> Exclusive(Step(st, seg, charset).value)
  {
  }

  /** The whole pass keeps the flags exclusive. */
  lemma {:induction false} RunKeepsExclusive(st: State, segs: seq<Segment>, charset: string)
    requires Exclusive(st)
    ensures Run(st, segs, charset).Done? ==> Exclusive(Run(st, segs, charset).value)
    decreases |segs|
  {
    if segs != [] {
      StepKeepsExclusive(st, segs[0], charset);
      match Step(st, segs[0], charset)
      case Diverges =>
      case Done(next) => RunKeepsExclusive(next, segs[1..], charset);
    }
  }

  /** Inside an ignore block every segment is dropped, tags included; only the closing tag has an
      effect, and it closes the block. */
  lemma IgnoredDropped(st: State, seg: Segment, charset: string)
    requires st.ignoreOpen && !st.noparseOpen
    ensures Step(st, seg, charset) == Done(if seg.m.ignoreClose then st.(ignoreOpen := false) else st)
  {
    assert st.code + "" == st.code;
  }

  /** Inside a noparse block every segment is copied as it is, an ignore closing tag included;
      the noparse closing tag closes the block and is itself dropped. */
  lemma NoparseVerbatim(st: State, seg: Segment, charset: string)
    requires st.noparseOpen && !st.ignoreOpen
    ensures Step(st, seg, charset) ==
            Done(if seg.m.noparseClose then st.(noparseOpen := false) else st.(code := st.code + seg.html))
  {
    assert st.code + "" == st.code;
  }

  /** Text outside any tag is copied as it is. */
  lemma TextVerbatim(st: State, seg: Segment, charset: string)
    requires Classify(st.ignoreOpen, st.noparseOpen, seg.m) == Text
    ensures Step(st, seg, charset) == Done(st.(code := st.code + seg.html))
  {
  }

  // ---------------------------------------------------------------------------------------
  // The case sequence and the counts behind the errors

  /** How the block flags move: only the four ignore and noparse cases change them. */
  function BlockFlags(c: Case, ignoreOpen: bool, noparseOpen: bool): (bool, bool) {
    match c
    case IgnoreClose => (false, noparseOpen)
    case IgnoreOpen => (true, noparseOpen)
    case NoparseClose => (ignoreOpen, false)
    case NoparseOpen => (ignoreOpen, true)
    case _ => (ignoreOpen, noparseOpen)
  }

  /** The cases the switch picks for the segments, one after the other; it depends on the tag
      matches and the block flags only, not on any translation. */
  function CaseTrace(ignoreOpen: bool, noparseOpen: bool, segs: seq<Segment>): (r: seq<Case>)
    ensures |r| == |segs|
    decreases |segs|
  {
    if segs == [] then []
    else
      var c := Classify(ignoreOpen, noparseOpen, segs[0].m);
      var flags := BlockFlags(c, ignoreOpen, noparseOpen);
      [c] + CaseTrace(flags.0, flags.1, segs[1..])
  }

  /** What a case adds to the if counter and to the loop level. */
  function IfDelta(c: Case): int {
    if c.If? then 1 else if c.IfClose? then -1 else 0
  }

  function LoopDelta(c: Case): int {
    if c.Loop? then 1 else if c.LoopClose? then -1 else 0
  }

  /** Opened minus closed ifs. */
  function IfNet(cs: seq<Case>): int
    decreases |cs|
  {
    if cs == [] then 0 else IfDelta(cs[0]) + IfNet(cs[1..])
  }

  /** Opened minus closed loops. */
  function LoopNet(cs: seq<Case>): int
    decreases |cs|
  {
    if cs == [] then 0 else LoopDelta(cs[0]) + LoopNet(cs[1..])
  }

  /** A step appends to the code and otherwise changes the state as its case says. */
  lemma StepFollowsEffect(st: State, seg: Segment, charset: string)
    ensures var r := Step(st, seg, charset);
            r.Done? ==> r.value == Effect(Classify(st.ignoreOpen, st.noparseOpen, seg.m), st).(code := r.value.code)
  {
  }

  /** What one case does to the counters and flags, counted as the trace counts it. */
  lemma EffectCounts(c: Case, st: State)
    ensures Effect(c, st).openIf == st.openIf + IfDelta(c)
    ensures Effect(c, st).loopLevel == st.loopLevel + LoopDelta(c)
    ensures (Effect(c, st).ignoreOpen, Effect(c, st).noparseOpen) ==
            BlockFlags(c, st.ignoreOpen, st.noparseOpen)
  {
    match c
    case If(_) =>
    case IfClose =>
    case Loop(_) =>
    case LoopClose =>
    case IgnoreClose =>
    case IgnoreOpen =>
    case NoparseClose =>
    case NoparseOpen =>
    case _ =>
  }

  /** After a complete pass the if counter and the loop level have moved by the net number of
      opening and closing tags among the cases the switch picked. */
  lemma {:induction false} RunCounts(st: State, segs: seq<Segment>, charset: string)
    requires Run(st, segs, charset).Done?
    ensures var fin := Run(st, segs, charset).value;
            var cs := CaseTrace(st.ignoreOpen, st.noparseOpen, segs);
            fin.openIf == st.openIf + IfNet(cs) && fin.loopLevel == st.loopLevel + LoopNet(cs)
    decreases |segs|
  {
    if segs != [] {
      var c := Classify(st.ignoreOpen, st.noparseOpen, segs[0].m);
      var next := Step(st, segs[0], charset).value;
      StepFollowsEffect(st, segs[0], charset);
      EffectCounts(c, st);
      RunCounts(next, segs[1..], charset);
      var cs := CaseTrace(st.ignoreOpen, st.noparseOpen, segs);
      assert cs[0] == c && cs[1..] == CaseTrace(next.ignoreOpen, next.noparseOpen, segs[1..]);
    }
  }

  /** The verdict of `compileFile` once every segment has been translated: an if left open is
      reported first, then a loop left open; surplus closing tags are not an error. */
  lemma CompileVerdict(filePath: string, segs: seq<Segment>, loopLevel: int, autoEscape: bool,
                       charset: string)
    requires Run(Start(loopLevel, autoEscape), segs, charset).Done?
    ensures var cs := CaseTrace(false, false, segs);
            Compile(filePath, segs, loopLevel, autoEscape, charset) ==
            if IfNet(cs) > 0 then Failed(UnclosedIf(filePath))
            else if loopLevel + LoopNet(cs) > 0 then Failed(UnclosedLoop(filePath))
            else Compiled(Header + Run(Start(loopLevel, autoEscape), segs, charset).value.code)
  {
    RunCounts(Start(loopLevel, autoEscape), segs, charset);
  }

  /** Each error text names the template it is about, and the two texts tell the open if from
      the open loop. */
  lemma MessagesNameTemplate(e: CompileError)
    ensures exists i: nat :: OccursAt(Message(e), e.templateFile, i)
    ensures Message(UnclosedIf(e.templateFile)) != Message(UnclosedLoop(e.templateFile))
  {
    var f := e.templateFile;
    var m := Message(e);
    if e.UnclosedIf? {
      assert m[40..40 + |f|] == f;
      assert OccursAt(m, f, 40);
    } else {
      assert m[43..43 + |f|] == f;
      assert OccursAt(m, f, 43);
    }
    assert Message(UnclosedIf(f))[25] != Message(UnclosedLoop(f))[25];
  }

  /** The error a compile fails with carries the path of the template being compiled. */
  lemma CompileErrorNamesTemplate(filePath: string, segs: seq<Segment>, loopLevel: int,
                                  autoEscape: bool, charset: string)
    ensures Compile(filePath, segs, loopLevel, autoEscape, charset).Failed? ==>
            Compile(filePath, segs, loopLevel, autoEscape, charset).error.templateFile == filePath
  {
  }

  // ---------------------------------------------------------------------------------------
  // Running over concatenated segments

  lemma {:induction false} RunAppend(st: State, a: seq<Segment>, b: seq<Segment>, charset: string)
    ensures Run(st, a + b, charset) ==
            match Run(st, a, charset)
            case Diverges => Diverges
            case Done(mid) => Run(mid, b, charset)
    decreases |a|
  {
    if a == [] {
      assert a + b == b;
    } else {
      assert (a + b)[0] == a[0] && (a + b)[1..] == a[1..] + b;
      match Step(st, a[0], charset)
      case Diverges =>
      case Done(next) => RunAppend(next, a[1..], b, charset);
    }
  }

  // ---------------------------------------------------------------------------------------
  // The escaping save slot

  /** A segment that matches none of the block or escaping tags. */
  predicate Plain(seg: Segment) {
    !seg.m.ignore && !seg.m.ignoreClose && !seg.m.noparse && !seg.m.noparseClose &&
    seg.m.autoescape.None? && !seg.m.autoescapeClose
  }

  /** Outside the blocks, a plain segment opens no block and touches no escaping tag. */
  lemma PlainCase(seg: Segment)
    requires Plain(seg)
    ensures var c := Classify(false, false, seg.m);
            c != IgnoreOpen && c != NoparseOpen && !c.Autoescape? && c != AutoescapeClose
  {
  }

  /** Any other case leaves closed blocks closed and the escaping state alone. */
  lemma PlainEffect(c: Case, st: State)
    requires c != IgnoreOpen && c != NoparseOpen && !c.Autoescape? && c != AutoescapeClose
    ensures !st.ignoreOpen ==> !Effect(c, st).ignoreOpen
    ensures !st.noparseOpen ==> !Effect(c, st).noparseOpen
    ensures Effect(c, st).autoEscape == st.autoEscape && Effect(c, st).savedEscape == st.savedEscape
  {
  }

  /** Plain segments outside the blocks leave the flags and the escaping state alone. */
  lemma {:induction false} PlainKeepsEscape(st: State, body: seq<Segment>, charset: string)
    requires !st.ignoreOpen && !st.noparseOpen
    requires forall k :: 0 <= k < |body| ==> Plain(body[k])
    ensures var r := Run(st, body, charset);
            r.Done? ==> !r.value.ignoreOpen && !r.value.noparseOpen &&
                        r.value.autoEscape == st.autoEscape && r.value.savedEscape == st.savedEscape
    decreases |body|
  {
    if body != [] {
      StepFollowsEffect(st, body[0], charset);
      PlainCase(body[0]);
      PlainEffect(Classify(false, false, body[0].m), st);
      var tail := body[1..];
      assert forall k :: 0 <= k < |tail| ==> Plain(tail[k]) by {
        forall k | 0 <= k < |tail| ensures Plain(tail[k]) {
          assert tail[k] == body[k + 1];
        }
      }
      match Step(st, body[0], charset)
      case Diverges =>
      case Done(next) =>
        PlainKeepsEscape(next, tail, charset);
    }
  }

  /** `{autoescape="..."}`, plain segments, `{/autoescape}`: the escaping flag comes back to what
      it was, and inside the block it is on unless the argument turns it off. */
  lemma AutoescapeBlockRestores(st: State, open: Segment, body: seq<Segment>, close: Segment,
                                charset: string)
    requires !st.ignoreOpen && !st.noparseOpen
    requires Classify(false, false, open.m).Autoescape?
    requires forall k :: 0 <= k < |body| ==> Plain(body[k])
    requires Classify(false, false, close.m) == AutoescapeClose
    ensures var r := Run(st, [open] + body + [close], charset);
            r.Done? ==> r.value.autoEscape == st.autoEscape
    ensures var r := Run(st, [open] + body, charset);
            r.Done? ==> r.value.autoEscape == !EscapeOff(Classify(false, false, open.m).arg)
  {
    var mid := Effect(Classify(false, false, open.m), st);
    assert st.code + "" == st.code;
    assert Step(st, open, charset) == Done(mid);
    assert Run(st, [open], charset) == Done(mid);
    RunAppend(st, [open], body, charset);
    RunAppend(st, [open] + body, [close], charset);
    PlainKeepsEscape(mid, body, charset);
    match Run(mid, body, charset)
    case Diverges =>
    case Done(fin) =>
      assert fin.code + "" == fin.code;
      assert Step(fin, close, charset) == Done(Effect(AutoescapeClose, fin));
      assert Run(fin, [close], charset) == Done(Effect(AutoescapeClose, fin));
  }

  /** The save slot holds one value: two nested blocks leave, after both closing tags, the flag
      the inner opening tag saved, which is the outer block's setting and not the original one. */
  lemma NestedAutoescapeLosesOuter(st: State, a: string, b: string)
    requires st.autoEscape && EscapeOff(a)
    ensures var inner := Effect(Autoescape(b), Effect(Autoescape(a), st));
            var closed := Effect(AutoescapeClose, Effect(AutoescapeClose, inner));
            !closed.autoEscape && closed.autoEscape != st.autoEscape
  {
  }

  /** The words of the list turn escaping off, and other words do not. */
  lemma EscapeOffWords()
    ensures EscapeOff("off") && EscapeOff("false") && EscapeOff("")
    ensures !EscapeOff("on") && !EscapeOff("true")
  {
    assert !NumericZero("on") && !NumericZero("true");
  }

  /** Numeric strings equal to zero turn escaping off, as `'0'` does under loose comparison. */
  lemma EscapeOffZeros()
    ensures EscapeOff("0") && EscapeOff("00") && EscapeOff(" 0")
  {
    assert NumericZero("0");
    assert NumericZero("00");
    assert NumericZero(" 0");
  }

  lemma EscapeOffSignedZeros()
    ensures EscapeOff("0.0") && EscapeOff("-0")
  {
    assert NumericZero("0.0");
    assert NumericZero("-0");
  }

  /** Other numbers, and a hexadecimal zero (not numeric in PHP), leave escaping on. */
  lemma EscapeOnNumbers()
    ensures !EscapeOff("1") && !EscapeOff("0x0")
  {
    assert !NumericZero("1");
    assert !NumericZero("0x0");
  }

  // ---------------------------------------------------------------------------------------
  // The names a loop declares

  /** The counter a loop at the new level declares is the name `{$counter}` inside its body
      translates to. */
  lemma CounterSeenByBody(level: int, escape: bool, echo: bool, autoEscape: bool, charset: string)
    ensures VarTranslation("$counter", escape, echo, level + 1, autoEscape, charset) ==
            Done(Wrap(CounterName(level + 1), autoEscape && escape, echo, charset))
  {
    PseudoVariableTranslation("$counter", escape, echo, level + 1, autoEscape, charset);
  }

  /** Unless both are captured, the key a loop binds is the name `{$key}` in its body translates
      to. Without `as` the same holds for the value; with a single `as $v`, `$v` names the value. */
  lemma DefaultNamesSeenByBody(cap: LoopCapture, level: int, escape: bool, echo: bool,
                               autoEscape: bool, charset: string)
    requires !(cap.key.Some? && cap.value.Some?)
    ensures var (k, v) := KeyValue(cap, IntToString(level + 1));
            VarTranslation("$key", escape, echo, level + 1, autoEscape, charset) ==
              Done(Wrap(k, autoEscape && escape, echo, charset)) &&
            (cap.key.None? ==> VarTranslation("$value", escape, echo, level + 1, autoEscape, charset) ==
                                 Done(Wrap(v, autoEscape && escape, echo, charset))) &&
            (cap.key.Some? ==> v == cap.key.value)
  {
    PseudoVariableTranslation("$key", escape, echo, level + 1, autoEscape, charset);
    PseudoVariableTranslation("$value", escape, echo, level + 1, autoEscape, charset);
  }

  /** Loops at different levels use different counters. */
  lemma NestedCountersDistinct(l1: int, l2: int)
    requires l1 != l2
    ensures CounterName(l1) != CounterName(l2)
  {
    IntToStringInjective(l1, l2);
    assert CounterName(l1)[8..] == IntToString(l1);
    assert CounterName(l2)[8..] == IntToString(l2);
  }

  /** The source of a loop is translated at the enclosing level: `{loop="$value"}` inside a loop
      iterates over that loop's value. */
  lemma LoopSourceAtEnclosingLevel(cap: LoopCapture, level: int, autoEscape: bool,
                                   charset: string)
    requires cap.variable == "$value"
    ensures LoopCode(cap, level, autoEscape, charset) ==
            Done(LoopHeader("$value" + IntToString(level), cap, level + 1))
  {
    PseudoVariableTranslation("$value", false, false, level, autoEscape, charset);
  }

  // ---------------------------------------------------------------------------------------
  // The include step

  /** The include step runs the `..` loop as written: a path whose normalized form has a word
      character right before `../` never finishes, and any other path reaches `checkTemplate`
      as the three patterns left it, `segment/../` units included. */
  lemma IncludeAsWritten(path: string, level: int, autoEscape: bool, charset: string)
    ensures HasDotDot(Normalized(path)) ==> IncludeCode(path, level, autoEscape, charset) == Diverges
    ensures !HasDotDot(Normalized(path)) ==>
            IncludeCode(path, level, autoEscape, charset) ==
            IncludeCall(Normalized(path), level, autoEscape, charset)
  {
    AsWrittenNeverReduces(Normalized(path));
  }

  /** A path without `$` is passed to `checkTemplate` as a quoted string, as it is. */
  lemma StaticIncludeQuoted(q: string, level: int, autoEscape: bool, charset: string)
    requires forall k :: 0 <= k < |q| ==> q[k] != '$'
    ensures IncludeCall(q, level, autoEscape, charset) ==
            Done("<?php echo $this->checkTemplate(\"" + q + "\");?>")
  {
    NoVariableVerbatim(q, true, false, level, autoEscape, charset);
  }

  /** `{include="d/w/../f"}` hands `d/w/../f` to `checkTemplate` unreduced. */
  lemma IncludeKeepsParent(d: string, w: string, f: string, level: int, autoEscape: bool,
                           charset: string)
    requires IsWord(d) && IsWord(w) && IsWord(f) && |w| > 0
    ensures var p := d + ("/" + (w + ("/../" + f)));
            IncludeCode(p, level, autoEscape, charset) ==
            Done("<?php echo $this->checkTemplate(\"" + p + "\");?>")
  {
    var p := d + ("/" + (w + ("/../" + f)));
    ParentPathNormal(d, w, f);
    AsWrittenLeavesParent(d, w, f);
    ParentPathChars(d, w, f);
    StaticIncludeQuoted(p, level, autoEscape, charset);
  }

  /** `{include="w../f"}` never finishes. */
  lemma IncludeHangs(w: string, f: string, level: int, autoEscape: bool, charset: string)
    requires IsWord(w) && IsWord(f) && |w| > 0
    ensures IncludeCode(w + ("../" + f), level, autoEscape, charset) == Diverges
  {
    WordDotDotNormal(w, f);
    IncludeAsWritten(w + ("../" + f), level, autoEscape, charset);
  }

  /** A compile that reaches an include whose loop never ends never returns. */
  lemma HangingIncludeStopsCompile(filePath: string, before: seq<Segment>, seg: Segment,
                                   after: seq<Segment>, loopLevel: int, autoEscape: bool,
                                   charset: string)
    requires Run(Start(loopLevel, autoEscape), before, charset).Done?
    requires var st := Run(Start(loopLevel, autoEscape), before, charset).value;
             var c := Classify(st.ignoreOpen, st.noparseOpen, seg.m);
             c.Include? && HasDotDot(Normalized(c.path))
    ensures Compile(filePath, before + ([seg] + after), loopLevel, autoEscape, charset) == NonTerminating
  {
    var st := Run(Start(loopLevel, autoEscape), before, charset).value;
    var c := Classify(st.ignoreOpen, st.noparseOpen, seg.m);
    IncludeAsWritten(c.path, st.loopLevel, st.autoEscape, charset);
    assert Step(st, seg, charset) == Diverges;
    RunAppend(Start(loopLevel, autoEscape), before, [seg] + after, charset);
    assert ([seg] + after)[0] == seg;
  }

  // ---------------------------------------------------------------------------------------
  // Function, ternary and constant tags

  /** A function tag whose arguments hold no variable is echoed with its arguments as written;
      one without arguments is called with `()`. */
  lemma FunctionArgsVerbatim(f: FunctionCapture, level: int, autoEscape: bool, charset: string)
    requires f.args.Some? ==> forall k :: 0 <= k < |f.args.value| ==> f.args.value[k] != '$'
    ensures FunctionCode(f, level, autoEscape, charset) ==
            Done("<?php echo " + f.name + (if f.args.Some? then f.args.value else "()") + "; ?>")
  {
    if f.args.Some? {
      NoVariableVerbatim(f.args.value, false, false, level, autoEscape, charset);
    }
  }

  /** The part of a ternary, translated as a variable: escaped when the flag says so, never
      echoed. */
  function TernaryPart(x: string, level: int, autoEscape: bool, charset: string): string {
    Wrap(LoopRename(x, level), autoEscape, false, charset)
  }

  /** A ternary whose test holds no variable (a test starting with `$` is taken by the variable
      tag first) and whose branches are variables: the test is copied, each branch translated,
      and the conditional echoed, as in `{ok?$b:$c}`. */
  lemma TernaryOfTextTest(t: TernaryCapture, level: int, autoEscape: bool, charset: string)
    requires forall k :: 0 <= k < |t.test| ==> t.test[k] != '$'
    requires PlainVariable(LoopRename(t.yes, level))
    requires PlainVariable(LoopRename(t.no, level))
    ensures TernaryCode(t, level, autoEscape, charset) ==
            Done("<?php echo (" + t.test + "?" + TernaryPart(t.yes, level, autoEscape, charset) + ":" +
                 TernaryPart(t.no, level, autoEscape, charset) + "); ?>")
  {
    NoVariableVerbatim(t.test, true, false, level, autoEscape, charset);
    PlainTranslation(t.yes, true, false, level, autoEscape, charset);
    PlainTranslation(t.no, true, false, level, autoEscape, charset);
  }

  /** A constant is not a variable: its code takes no loop renaming and no escaping, so it is the
      same at every level and under either escaping flag, and whatever the segment's text. */
  lemma ConstantIgnoresState(x: string, h1: string, h2: string, l1: int, l2: int, a1: bool,
                             a2: bool, c1: string, c2: string)
    ensures Emitted(Constant(x), h1, l1, a1, c1) == Emitted(Constant(x), h2, l2, a2, c2)
  {
  }

  /** A constant without a modifier is emitted as a statement of its own. */
  lemma ConstantWithoutModifier(x: string, html: string, level: int, autoEscape: bool,
                                charset: string)
    requires '|' !in x
    ensures Emitted(Constant(x), html, level, autoEscape, charset) == Done("<?php " + x + "; ?>")
  {
    ModifierProperties.ChainFinished(x);
  }
}
