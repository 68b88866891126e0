/** The tag table and the order in which `compileFile` tries it. A segment comes with the outcome of
    matching each tag's pattern against it (with the captured groups); which case handles the
    segment then depends only on that record and on whether an ignore or a noparse block is open. */
module Tags {
  import opened Common

  /** The groups of the loop pattern: the source, and the optional `as $k` / `=> $v` parts. */
  datatype LoopCapture = LoopCapture(variable: string, key: Option<string>, value: Option<string>)

  /** The groups of the function pattern: the name, and the optional parenthesised arguments. */
  datatype FunctionCapture = FunctionCapture(name: string, args: Option<string>)

  /** The three groups of the ternary pattern. */
  datatype TernaryCapture = TernaryCapture(test: string, yes: string, no: string)

  /** Which tag patterns match a segment, one field per entry of the tag table. */
  datatype Matches = Matches(
    loop: Option<LoopCapture>, loopClose: bool, loopBreak: bool, loopContinue: bool,
    ifTag: Option<string>, elseifTag: Option<string>, elseTag: bool, ifClose: bool,
    autoescape: Option<string>, autoescapeClose: bool,
    noparse: bool, noparseClose: bool, ignore: bool, ignoreClose: bool,
    includeTag: Option<string>, functionTag: Option<FunctionCapture>, ternary: Option<TernaryCapture>,
    variable: Option<string>, constant: Option<string>)

  /** A piece of the split template: its text, and what the tag patterns made of it. */
  datatype Segment = Segment(html: string, m: Matches)

  /** The case of the dispatching `switch (true)` that handles a segment. */
  datatype Case =
    | IgnoreClose | InIgnore | NoparseClose | InNoparse | IgnoreOpen | NoparseOpen
    | Include(path: string) | Loop(cap: LoopCapture) | LoopClose | Break | Continue
    | If(cond: string) | ElseIf(cond: string) | Else | IfClose | Variable(expr: string)
    | Autoescape(arg: string) | AutoescapeClose | Function(call: FunctionCapture)
    | Ternary(parts: TernaryCapture) | Constant(expr: string) | Text

  /** The switch, its cases tried top to bottom; the first that holds wins. */
  function Classify(ignoreOpen: bool, noparseOpen: bool, m: Matches): Case {
    if !noparseOpen && m.ignoreClose then IgnoreClose
    else if ignoreOpen then InIgnore
    else if m.noparseClose then NoparseClose
    else if noparseOpen then InNoparse
    else if m.ignore then IgnoreOpen
    else if m.noparse then NoparseOpen
    else if m.includeTag.Some? then Include(m.includeTag.value)
    else if m.loop.Some? then Loop(m.loop.value)
    else if m.loopClose then LoopClose
    else if m.loopBreak then Break
    else if m.loopContinue then Continue
    else if m.ifTag.Some? then If(m.ifTag.value)
    else if m.elseifTag.Some? then ElseIf(m.elseifTag.value)
    else if m.elseTag then Else
    else if m.ifClose then IfClose
    else if m.variable.Some? then Variable(m.variable.value)
    else if m.autoescape.Some? then Autoescape(m.autoescape.value)
    else if m.autoescapeClose then AutoescapeClose
    else if m.functionTag.Some? then Function(m.functionTag.value)
    else if m.ternary.Some? then Ternary(m.ternary.value)
    else if m.constant.Some? then Constant(m.constant.value)
    else Text
  }

  /** The position of a case in the switch. */
  function Rank(c: Case): (r: nat)
    ensures r <= 21
  {
    match c
    case IgnoreClose => 0 case InIgnore => 1 case NoparseClose => 2 case InNoparse => 3
    case IgnoreOpen => 4 case NoparseOpen => 5 case Include(_) => 6 case Loop(_) => 7
    case LoopClose => 8 case Break => 9 case Continue => 10 case If(_) => 11 case ElseIf(_) => 12
    case Else => 13 case IfClose => 14 case Variable(_) => 15 case Autoescape(_) => 16
    case AutoescapeClose => 17 case Function(_) => 18 case Ternary(_) => 19 case Constant(_) => 20
    case Text => 21
  }

  /** The condition of the switch case at position `k`, on its own. */
  predicate Applies(k: nat, ignoreOpen: bool, noparseOpen: bool, m: Matches) {
    match k
    case 0 => !noparseOpen && m.ignoreClose
    case 1 => ignoreOpen
    case 2 => m.noparseClose
    case 3 => noparseOpen
    case 4 => m.ignore
    case 5 => m.noparse
    case 6 => m.includeTag.Some?
    case 7 => m.loop.Some?
    case 8 => m.loopClose
    case 9 => m.loopBreak
    case 10 => m.loopContinue
    case 11 => m.ifTag.Some?
    case 12 => m.elseifTag.Some?
    case 13 => m.elseTag
    case 14 => m.ifClose
    case 15 => m.variable.Some?
    case 16 => m.autoescape.Some?
    case 17 => m.autoescapeClose
    case 18 => m.functionTag.Some?
    case 19 => m.ternary.Some?
    case 20 => m.constant.Some?
    case _ => true
  }

  /** The chosen case is the first one whose condition holds: its own condition holds and no
      earlier one does. */
  lemma ClassifyIsFirstMatch(ignoreOpen: bool, noparseOpen: bool, m: Matches)
    ensures Applies(Rank(Classify(ignoreOpen, noparseOpen, m)), ignoreOpen, noparseOpen, m)
    ensures forall k: nat :: k < Rank(Classify(ignoreOpen, noparseOpen, m)) ==>
              !Applies(k, ignoreOpen, noparseOpen, m)
  {
  }

  /** The chosen case carries the captures of the pattern that matched. */
  lemma ClassifyCarriesCaptures(ignoreOpen: bool, noparseOpen: bool, m: Matches)
    ensures var c := Classify(ignoreOpen, noparseOpen, m);
            (c.Include? ==> m.includeTag == Some(c.path)) && (c.Loop? ==> m.loop == Some(c.cap)) &&
            (c.If? ==> m.ifTag == Some(c.cond)) && (c.ElseIf? ==> m.elseifTag == Some(c.cond)) &&
            (c.Variable? ==> m.variable == Some(c.expr)) &&
            (c.Autoescape? ==> m.autoescape == Some(c.arg)) &&
            (c.Function? ==> m.functionTag == Some(c.call)) &&
            (c.Ternary? ==> m.ternary == Some(c.parts)) && (c.Constant? ==> m.constant == Some(c.expr))
  {
  }

  /** A `{$a?b:c}` segment matches the variable pattern too, and that case is tried first, so the
      ternary translation never sees it. */
  lemma VariableShadowsTernary(ignoreOpen: bool, noparseOpen: bool, m: Matches)
    requires m.variable.Some?
    ensures !Classify(ignoreOpen, noparseOpen, m).Ternary?
  {
  }
}
