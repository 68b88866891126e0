/** `compileFile`: the pass over the template's segments that dispatches each one to its tag
    translation, keeps the if and loop counters and the ignore, noparse and escaping flags, and
    in the end either returns the compiled code or reports the block left open. */
module TemplateParser {
  import opened Common
  import opened Modifier
  import opened VarPath
  import opened IncludePath
  import opened Tags

  // ---------------------------------------------------------------------------------------
  // The `{autoescape="..."}` argument

  /** `s` is a PHP numeric string (surrounding whitespace allowed) whose value is zero. */
  predicate NumericZero(s: string) {
    var a := SkipSpaces(s, 0);
    var b := if a < |s| && (s[a] == '+' || s[a] == '-') then a + 1 else a;
    var c := DigitRun(s, b);
    var dot := c < |s| && s[c] == '.';
    var d := if dot then DigitRun(s, c + 1) else c;
    var digits := (c - b) + (if dot then d - (c + 1) else 0);
    digits > 0 && ZerosIn(s, b, c) && (dot ==> ZerosIn(s, c + 1, d)) &&
    SkipSpaces(s, ExponentEnd(s, d)) == |s|
  }

  function SkipSpaces(s: string, i: nat): (r: nat)
    requires i <= |s|
    ensures i <= r <= |s|
    decreases |s| - i
  {
    if i < |s| && IsSpace(s[i]) then SkipSpaces(s, i + 1) else i
  }

  function DigitRun(s: string, i: nat): (r: nat)
    requires i <= |s|
    ensures i <= r <= |s|
    decreases |s| - i
  {
    if i < |s| && IsDigit(s[i]) then DigitRun(s, i + 1) else i
  }

  /** The end of an exponent `e`/`E`, optional sign, digits starting at `d`, or `d` if none. */
  function ExponentEnd(s: string, d: nat): (r: nat)
    requires d <= |s|
    ensures d <= r <= |s|
  {
    if d < |s| && (s[d] == 'e' || s[d] == 'E') then
      var x := if d + 1 < |s| && (s[d + 1] == '+' || s[d + 1] == '-') then d + 2 else d + 1;
      var y := DigitRun(s, x);
      if y > x then y else d
    else d
  }

  predicate ZerosIn(s: string, i: nat, j: nat)
    requires i <= j <= |s|
  {
    forall k :: i <= k < j ==> s[k] == '0'
  }

  /** `in_array($arg, array('off', 'false', '0', NULL))` with PHP's loose comparison: the two
      words, the empty string (equal to NULL), or any numeric string equal to `'0'`. */
  predicate EscapeOff(arg: string) {
    arg == "off" || arg == "false" || arg == "" || NumericZero(arg)
  }

  // ---------------------------------------------------------------------------------------
  // What each case appends

  /** The key and value names of a loop: both captured, only one captured (it names the value),
      or neither. `n` is the new loop level. */
  function KeyValue(cap: LoopCapture, n: string): (string, string) {
    if cap.key.Some? && cap.value.Some? then (cap.key.value, cap.value.value)
    else if cap.key.Some? then ("$key" + n, cap.key.value)
    else ("$key" + n, "$value" + n)
  }

  /** The name the iteration counter of a loop at `level` gets. */
  function CounterName(level: int): string {
    "$counter" + IntToString(level)
  }

  /** The opening of a loop at the new `level`, over the already translated `source`; a source
      with a `(` is first stored in `$newvarN`. */
  function LoopHeader(source: string, cap: LoopCapture, level: int): string {
    var n := IntToString(level);
    var counter := CounterName(level);
    var newvar := if '(' in source then "$newvar" + n else source;
    var assign := if '(' in source then newvar + "=" + source + ";" else "";
    var (k, v) := KeyValue(cap, n);
    "<?php " + counter + "=-1; " + assign + " if(is_iterable(" + newvar + ") && count(" + newvar +
    ")) foreach( " + newvar + " as " + k + " => " + v + " ){ " + counter + "++; ?>"
  }

  function Around(pre: string, o: Outcome<string>, post: string): Outcome<string> {
    match o
    case Diverges => Diverges
    case Done(x) => Done(pre + x + post)
  }

  /** The include step: the path goes through the three patterns and then the `..` loop as
      written, which either leaves it as it is or never ends. */
  function IncludeCode(path: string, level: int, autoEscape: bool, charset: string): Outcome<string> {
    match UpLevelsAsWritten(Normalized(path))
    case Diverges => Diverges
    case Done(q) => IncludeCall(q, level, autoEscape, charset)
  }

  /** The include call on the reduced path `q`, translated and passed to `checkTemplate` as an
      expression when it holds a `$` and as a quoted string otherwise. */
  function IncludeCall(q: string, level: int, autoEscape: bool, charset: string): Outcome<string> {
    var t := VarTranslation(q, true, false, level, autoEscape, charset);
    if '$' in q then Around("<?php echo $this->checkTemplate(", t, ");?>")
    else Around("<?php echo $this->checkTemplate(\"", t, "\");?>")
  }

  function TernaryCode(t: TernaryCapture, level: int, autoEscape: bool, charset: string): Outcome<string> {
    match VarTranslation(t.test, true, false, level, autoEscape, charset)
    case Diverges => Diverges
    case Done(a) =>
      match VarTranslation(t.yes, true, false, level, autoEscape, charset)
      case Diverges => Diverges
      case Done(b) =>
        match VarTranslation(t.no, true, false, level, autoEscape, charset)
        case Diverges => Diverges
        case Done(c) => Done("<?php echo (" + a + "?" + b + ":" + c + "); ?>")
  }

  /** The loop opening: the source translated without escaping, the header at the new level. */
  function LoopCode(cap: LoopCapture, level: int, autoEscape: bool, charset: string): Outcome<string> {
    match VarTranslation(cap.variable, false, false, level, autoEscape, charset)
    case Diverges => Diverges
    case Done(src) => Done(LoopHeader(src, cap, level + 1))
  }

  /** The function call: the arguments translated when there are any, `()` otherwise. */
  function FunctionCode(f: FunctionCapture, level: int, autoEscape: bool, charset: string): Outcome<string> {
    if f.args.Some? then
      Around("<?php echo " + f.name, VarTranslation(f.args.value, false, false, level, autoEscape, charset), "; ?>")
    else Done("<?php echo " + f.name + "()" + "; ?>")
  }

  /** The text a case appends, given the loop level and escaping flag before the segment. */
  function Emitted(c: Case, html: string, level: int, autoEscape: bool, charset: string): Outcome<string> {
    match c
    case InNoparse => Done(html)
    case Text => Done(html)
    case Include(p) => IncludeCode(p, level, autoEscape, charset)
    case Loop(cap) => LoopCode(cap, level, autoEscape, charset)
    case LoopClose => Done("<?php } ?>")
    case Break => Done("<?php break; ?>")
    case Continue => Done("<?php continue; ?>")
    case If(cond) =>
      Around("<?php if( ", VarTranslation(cond, false, false, level, autoEscape, charset), " ){ ?>")
    case ElseIf(cond) =>
      Around("<?php }elseif( ", VarTranslation(cond, false, false, level, autoEscape, charset), " ){ ?>")
    case Else => Done("<?php }else{ ?>")
    case IfClose => Done("<?php } ?>")
    case Variable(x) => Around("<?php ", VarTranslation(x, true, true, level, autoEscape, charset), "; ?>")
    case Function(f) => FunctionCode(f, level, autoEscape, charset)
    case Ternary(t) => TernaryCode(t, level, autoEscape, charset)
    case Constant(x) => Around("<?php ", ModifierChain(x), "; ?>")
    case _ => Done("")
  }

  // ---------------------------------------------------------------------------------------
  // The state of the pass

  /** What the pass keeps between segments: the code so far, the open-if count, the two block
      flags, the loop level, the escaping flag and its one save slot. */
  datatype State = State(code: string, openIf: int, ignoreOpen: bool, noparseOpen: bool,
                         loopLevel: int, autoEscape: bool, savedEscape: bool)

  /** How a case changes the counters and flags. */
  function Effect(c: Case, st: State): State {
    match c
    case IgnoreClose => st.(ignoreOpen := false)
    case NoparseClose => st.(noparseOpen := false)
    case IgnoreOpen => st.(ignoreOpen := true)
    case NoparseOpen => st.(noparseOpen := true)
    case Loop(_) => st.(loopLevel := st.loopLevel + 1)
    case LoopClose => st.(loopLevel := st.loopLevel - 1)
    case If(_) => st.(openIf := st.openIf + 1)
    case IfClose => st.(openIf := st.openIf - 1)
    case Autoescape(arg) => st.(savedEscape := st.autoEscape, autoEscape := !EscapeOff(arg))
    case AutoescapeClose => st.(autoEscape := st.savedEscape)
    case _ => st
  }

  /** One iteration of the `foreach`. */
  function Step(st: State, seg: Segment, charset: string): Outcome<State> {
    var c := Classify(st.ignoreOpen, st.noparseOpen, seg.m);
    match Emitted(c, seg.html, st.loopLevel, st.autoEscape, charset)
    case Diverges => Diverges
    case Done(t) => Done(Effect(c, st).(code := st.code + t))
  }

  /** The whole `foreach`. */
  function Run(st: State, segs: seq<Segment>, charset: string): Outcome<State>
    decreases |segs|
  {
    if segs == [] then Done(st)
    else match Step(st, segs[0], charset)
      case Diverges => Diverges
      case Done(next) => Run(next, segs[1..], charset)
  }

  /** The exception raised for a block left open, carrying the template's path. */
  datatype CompileError = UnclosedIf(templateFile: string) | UnclosedLoop(templateFile: string)

  function Message(e: CompileError): string {
    match e
    case UnclosedIf(f) => "Error! You need to close an {if} tag in " + f + " template"
    case UnclosedLoop(f) => "Error! You need to close the {loop} tag in " + f + " template"
  }

  datatype CompileResult = Compiled(code: string) | Failed(error: CompileError) | NonTerminating

  /** The guard the compiled file starts with. */
  const Header: string := "<?php if(!class_exists('Rain\\Tpl')){exit;}?>"

  /** The state before the first segment; the loop level and escaping flag are the parser's. */
  function Start(loopLevel: int, autoEscape: bool): State {
    State("", 0, false, false, loopLevel, autoEscape, false)
  }

  /** The checks after the last segment: an open if first, then an open loop. */
  function Finish(filePath: string, st: State): CompileResult {
    if st.openIf > 0 then Failed(UnclosedIf(filePath))
    else if st.loopLevel > 0 then Failed(UnclosedLoop(filePath))
    else Compiled(Header + st.code)
  }

  function Compile(filePath: string, segs: seq<Segment>, loopLevel: int, autoEscape: bool,
                   charset: string): CompileResult
  {
    match Run(Start(loopLevel, autoEscape), segs, charset)
    case Diverges => NonTerminating
    case Done(st) => Finish(filePath, st)
  }

  // ---------------------------------------------------------------------------------------
  // The parser object

  /** The parser keeps the loop level and the escaping flag across calls, as the PHP object
      keeps `loopLevel` and `config['auto_escape']`. */
  class Parser {
    var loopLevel: int
    var autoEscape: bool
    const charset: string

    constructor(autoEscape: bool, charset: string)
      ensures this.loopLevel == 0 && this.autoEscape == autoEscape && this.charset == charset
    {
      this.loopLevel := 0;
      this.autoEscape := autoEscape;
      this.charset := charset;
    }

    /** `varReplace` at the current loop level and escaping flag. */
    method VarReplace(html: string, escape: bool, echo: bool) returns (r: Outcome<string>)
      ensures r == VarTranslation(html, escape, echo, loopLevel, autoEscape, charset)
    {
      var renamed := LoopRename(html, loopLevel);
      var toks := Tokens(renamed);
      if toks == [] {
        return Done(renamed);
      }
      var h := renamed;
      for i := 0 to |toks|
        invariant FoldTokens(h, toks[i..]) == FoldTokens(renamed, toks)
      {
        assert toks[i..][0] == toks[i] && toks[i..][1..] == toks[i + 1..];
        h := ReplaceAll(h, toks[i], NormalizeToken(toks[i]));
      }
      assert toks[|toks|..] == [];
      var m := ModifierReplace(h);
      if m.Diverges? {
        return Diverges;
      }
      var out := m.value;
      if !HasAssignment(out) {
        if autoEscape && escape {
          out := Escaped(out, charset);
        }
        if echo {
          out := "echo " + out;
        }
      }
      return Done(out);
    }

    /** The counter and flag updates of the switch case `c`: the locals of `compileFile` travel
        in the state, the loop level and the escaping flag are also this object's own. */
    method ApplyCase(c: Case, st: State) returns (r: State)
      modifies this
      requires st.loopLevel == loopLevel && st.autoEscape == autoEscape
      ensures r == Effect(c, st)
      ensures loopLevel == r.loopLevel && autoEscape == r.autoEscape
    {
      r := st;
      match c {
        case IgnoreClose => r := r.(ignoreOpen := false);
        case NoparseClose => r := r.(noparseOpen := false);
        case IgnoreOpen => r := r.(ignoreOpen := true);
        case NoparseOpen => r := r.(noparseOpen := true);
        case Loop(_) =>
          loopLevel := loopLevel + 1;
          r := r.(loopLevel := loopLevel);
        case LoopClose =>
          loopLevel := loopLevel - 1;
          r := r.(loopLevel := loopLevel);
        case If(_) => r := r.(openIf := r.openIf + 1);
        case IfClose => r := r.(openIf := r.openIf - 1);
        case Autoescape(arg) =>
          r := r.(savedEscape := autoEscape);
          autoEscape := !EscapeOff(arg);
          r := r.(autoEscape := autoEscape);
        case AutoescapeClose =>
          autoEscape := st.savedEscape;
          r := r.(autoEscape := autoEscape);
        case _ =>
      }
    }

    /** One pass of the `foreach` body: classify the segment, append its translation, apply the
        case's effect on the flags and counters. */
    method StepSegment(st: State, seg: Segment) returns (r: Outcome<State>)
      modifies this
      requires st.loopLevel == loopLevel && st.autoEscape == autoEscape
      ensures r == Step(st, seg, charset)
      ensures r.Done? ==> loopLevel == r.value.loopLevel && autoEscape == r.value.autoEscape
    {
      var c := Classify(st.ignoreOpen, st.noparseOpen, seg.m);
      var t := Emitted(c, seg.html, loopLevel, autoEscape, charset);
      if t.Diverges? {
        return Diverges;
      }
      var next := ApplyCase(c, st);
      r := Done(next.(code := st.code + t.value));
    }

    /** `compileFile` over the split template: the loop over the segments, then the checks for
        blocks left open. */
    method CompileFile(filePath: string, segments: seq<Segment>) returns (r: CompileResult)
      modifies this
      ensures r == Compile(filePath, segments, old(loopLevel), old(autoEscape), charset)
      ensures Run(Start(old(loopLevel), old(autoEscape)), segments, charset).Done? ==>
                var fin := Run(Start(old(loopLevel), old(autoEscape)), segments, charset).value;
                loopLevel == fin.loopLevel && autoEscape == fin.autoEscape
    {
      var st := Start(loopLevel, autoEscape);
      ghost var start := st;
      for i := 0 to |segments|
        invariant st.loopLevel == loopLevel && st.autoEscape == autoEscape
        invariant Run(st, segments[i..], charset) == Run(start, segments, charset)
      {
        assert segments[i..][0] == segments[i] && segments[i..][1..] == segments[i + 1..];
        var next := StepSegment(st, segments[i]);
        if next.Diverges? {
          return NonTerminating;
        }
        st := next.value;
      }
      assert segments[|segments|..] == [];
      if st.openIf > 0 {
        return Failed(UnclosedIf(filePath));
      }
      if st.loopLevel > 0 {
        return Failed(UnclosedLoop(filePath));
      }
      return Compiled(Header + st.code);
    }
  }
}
