# slimTpl template compiler, modelled in Dafny

slimTpl compiles HTML templates with `{...}` tags into PHP. `Parser::compileFile` splits the
template at its tags. It walks the pieces with a `switch (true)` and appends PHP code to the
output. Along the way it keeps some state:

- an if counter;
- the loop level;
- two block flags, for `{ignore}` and `{noparse}`;
- the escaping flag and one saved copy of it.

At the end it reports an `{if}` or a `{loop}` left open. Variable tags go through `varReplace`, which:

- renames the loop pseudo-variables to the current level;
- rewrites `.x` and `[x]` to `["x"]`;
- applies `|modifier` chains through `modifierReplace`;
- wraps the result in `htmlspecialchars` and `echo` as requested.

Include paths go through three replacement passes and then the `..` loop as written before
translation. The `Tpl` object holds the configuration and the
template variables. Its `draw` builds the template and cache paths, decides whether to recompile,
and adds a blank line after every `?>` that ends a line.

Modules:

| module | contents |
|---|---|
| `Common` | `Option` and `Outcome`, `str_replace` (`ReplaceAll`), decimal printing and parsing of integers |
| `Modifier`, `ModifierProperties` | `modifierReplace` and the chain lemmas |
| `VarPath`, `VarPathProperties` | `varReplace` as a function, and its lemmas |
| `IncludePath` | the include path passes, the `..` loop as written and as corrected |
| `Tags` | the tag table as a record of match outcomes, and the order of the switch |
| `TemplateParser` | per-case output (`Emitted`), the state of the pass (`Step`, `Run`), class `Parser` with `CompileFile`, `StepSegment`, `ApplyCase` and `VarReplace` |
| `TemplateParserProperties` | block flags, counts behind the errors, the escaping slot, loop names |
| `Engine`, `EngineProperties` | class `Tpl`: `configure`, `assign`, the path and staleness part of `draw`, the newline fix |

`StepSegment` takes each case's output text from the function `Emitted`, which translates
variables with the function `VarTranslation`. The loop form of `varReplace` is the method
`Parser.VarReplace`, proved equal to `VarTranslation` at the object's loop level and escaping flag.

Some PHP loops can run forever. `modifierReplace`, when a modifier is pending but its pattern finds
nothing, is one. The `..` loop of the include path is another. Their results are an
`Outcome`: `Done(value)` or `Diverges`, and a compile that reaches a diverging step is
`NonTerminating`. The compile pass uses both loops as written. The corrected loops of
"## Findings" stand beside them, with their properties proved, and are not used by the pass.

## Model

| member | source | states |
|---|---|---|
| Modifier.ModifierReplace | Parser.php:310-324 | the while loop returns what the chain rewrite defines; a finished result has no pending modifier and never more `\|` than the input |
| ModifierProperties.NoPendingModifierUnchanged | Parser.php:313 | text without `\|`, or whose first `\|` is doubled (`\|\|`), is returned unchanged |
| ModifierProperties.SingleModifier | Parser.php:315-320 | `x\|f` becomes `f(x)` and `x\|f:p` becomes `f(x,p)` |
| ModifierProperties.ChainOfTwo | Parser.php:313-320 | chains apply left to right: `x\|f\|g:q` becomes `g(f(x),q)` |
| ModifierProperties.StrandedBarDiverges | Parser.php:313-321 | whenever a modifier is pending but no `\|` has a chain character on both sides, the pattern matches nothing, the body changes nothing and the loop never ends |
| ModifierProperties.StrandedBarExamples | Parser.php:313-321 | a spaced bar (`a \|b`, as in `{if="$a \| $b"}`) and a trailing bar (`$a\|`) both hang the loop |
| ModifierProperties.StoppingAgrees | Parser.php:313-321 | corrected: wherever the loop as written finishes, the loop that also stops on a failed match gives the same text |
| Modifier.ModifierChainStopping | Parser.php:313-321 | corrected: the loop always finishes, and if a modifier is still pending, no bar is left that the pattern could match |
| ModifierProperties.StoppingKeepsStranded | Parser.php:313-321 | corrected: text whose bars the pattern cannot match is returned as it is, so `$a\|` stays `$a\|` |
| VarPathProperties.NoDollarNoRename | Parser.php:283 | the renaming leaves text without `$` alone |
| VarPathProperties.NoTokenNoRename | Parser.php:283 | the renaming also leaves alone text in which no `$` is followed by a letter or `_` |
| VarPathProperties.PseudoVariableRenamed | Parser.php:283 | `$key`, `$value` and `$counter` get the loop level appended |
| VarPathProperties.PseudoVariableTranslation | Parser.php:280-307 | a lone pseudo-variable translates to its numbered name, escaped and echoed as requested |
| VarPathProperties.PlainTranslation | Parser.php:280-307 | a plain `$name` (no `.`, `[`, `\|` or `=`) is only renamed, escaped when both flags say so, and echoed when asked |
| VarPathProperties.NoVariableVerbatim | Parser.php:283-286 | text in which no `$` is followed by a letter or `_` (such as `$1` or `a $ b`) is returned as it is: no renaming, no modifier pass and no wrapping |
| VarPathProperties.PlainTokens | Parser.php:286 | a plain variable is one token |
| VarPathProperties.BracketsPrefix | Parser.php:290 | the bracket rewrite leaves a bracket-free prefix alone |
| VarPathProperties.DotsPrefix | Parser.php:291 | the dot rewrite leaves a dot-free prefix alone |
| VarPathProperties.BracketsIndex | Parser.php:290 | `[n]` becomes `["n"]` |
| VarPathProperties.DotsDot | Parser.php:291 | `.n` becomes `["n"]` when what follows is neither a word character nor a quote (`.`, `[`, `\|`, `)`, a space or the end) |
| VarPathProperties.BracketPass | Parser.php:290 | over a path of `.n` and `[n]` steps and a tail without `[` or `.`, the bracket pass quotes every index and keeps the tail |
| VarPathProperties.DotPass | Parser.php:291 | the dot pass then quotes every member and keeps the tail |
| VarPathProperties.CanonicalPath | Parser.php:289-292 | a token `$base` followed by any mix of `.n`, `[n]` and `["n"]` and a tail such as `\|upper` becomes `$base["n"]...` with the tail kept |
| VarPathProperties.BracketsKey | Parser.php:290 | an already quoted `["n"]` is left alone by the bracket pass |
| VarPathProperties.PathFormsAgree | Parser.php:289-292 | `$a.b.c`, `$a[b][c]` and `$a["b"]["c"]`, or any mix over the same names, normalise to the same text |
| VarPathProperties.HasAssignmentMeans | Parser.php:299 | the assignment test holds exactly when some `$` is followed by `=` on the same line |
| VarPathProperties.AssignmentUnwrapped | Parser.php:299-304 | an assignment is returned after the modifier pass without escaping or `echo` |
| VarPath.VarTranslation | Parser.php:280-307 | defines `varReplace`: renaming, tokens, the two path passes per token, `modifierReplace`, then escaping and `echo` unless the text is an assignment; its properties are the lemmas of `VarPathProperties` above |
| IncludePath.CollapseNoDoubleSlash | Parser.php:141 | without `:`, the first pass leaves no `//` |
| IncludePath.SchemeKept | Parser.php:141 | the `//` of a `scheme://` prefix is skipped, and the rest is collapsed |
| IncludePath.CurrentDirDropped | Parser.php:141 | `x/./y` becomes `x/y` |
| IncludePath.DoublingReversible | Parser.php:141 | the backslash pass doubles every backslash, so halving them gives the path back |
| IncludePath.UpLevelsReduced | Parser.php:142-144 | corrected: the loop leaves no `name/../` |
| IncludePath.ReduceUpLevels | Parser.php:142-144 | corrected: the while loop computes `UpLevelsReduced` and leaves no `name/../` |
| IncludePath.ParentCancelled | Parser.php:142-144 | corrected: `d/w/../f` becomes `d/f` |
| IncludePath.AsWrittenNeverReduces | Parser.php:142-144 | as written: the loop returns the path unchanged when its guard fails and never ends when it holds |
| IncludePath.AsWrittenHangs | Parser.php:142-144 | as written: `w../...` makes the loop spin forever |
| IncludePath.AsWrittenLeavesParent | Parser.php:142-144 | as written: `d/w/../f` is left unreduced |
| IncludePath.ParentPathNormal | Parser.php:141 | the three patterns leave a path `d/w/../f` of plain words unchanged |
| IncludePath.WordDotDotNormal | Parser.php:141-142 | the three patterns leave `w../f` unchanged, and the guard of the `..` loop matches it |
| Tags.ClassifyIsFirstMatch | Parser.php:113-258 | the chosen case is the first in switch order whose condition holds |
| Tags.ClassifyCarriesCaptures | Parser.php:138-251 | the chosen case carries the groups its pattern captured |
| Tags.VariableShadowsTernary | Parser.php:229-248 | a segment the variable pattern matches never reaches the ternary case |
| Tags.Classify | Parser.php:113-258 | defines the `switch (true)`: the block guards first, then the tag patterns in source order, and plain text last; `ClassifyIsFirstMatch` and `ClassifyCarriesCaptures` state its properties |
| TemplateParser.Emitted | Parser.php:113-258 | defines the text each case appends, from the loop level and escaping flag before the segment; the lemmas on the include, loop, function, ternary and constant cases below state what it produces |
| TemplateParser.IncludeCode | Parser.php:138-154 | defines the include step: the three patterns, the `..` loop as written, then `checkTemplate`; stated by `IncludeAsWritten` |
| TemplateParser.LoopCode | Parser.php:156-191 | defines the loop opening: the source translated without escaping at the enclosing level, then the header at the next level; stated by `LoopSourceAtEnclosingLevel` |
| TemplateParser.LoopHeader | Parser.php:163-190 | defines the header: `$newvarN` when the source has a `(`, the counter, the key and value names, the `is_iterable` guard; stated by `CounterSeenByBody` and `DefaultNamesSeenByBody` |
| TemplateParser.KeyValue | Parser.php:174-183 | defines the key and value names: both captured, only one (it names the value), or the defaults of the level; stated by `DefaultNamesSeenByBody` |
| TemplateParser.FunctionCode | Parser.php:243-245 | defines the function call: arguments translated without escaping, `()` when there are none; stated by `FunctionArgsVerbatim` |
| TemplateParser.TernaryCode | Parser.php:247-249 | defines the ternary: its three parts translated with escaping and without `echo`; stated by `TernaryOfTextTest` |
| TemplateParser.Parser.constructor | Parser.php:29 | a new parser starts at loop level 0, with the configured escaping flag and charset |
| TemplateParser.Parser.VarReplace | Parser.php:280-307 | the method computes `VarTranslation` at the object's loop level and escaping flag |
| TemplateParser.Parser.ApplyCase | Parser.php:115-241 | each case updates the counters and flags as `Effect` says |
| TemplateParser.Parser.StepSegment | Parser.php:111-258 | one pass of the `foreach` body is one `Step` |
| TemplateParser.Parser.CompileFile | Parser.php:104-272 | the pass over the segments, then the two errors or the code behind its header |
| TemplateParserProperties.StepKeepsExclusive | Parser.php:115-136 | one segment never sets the ignore and noparse flags together |
| TemplateParserProperties.RunKeepsExclusive | Parser.php:111-136 | the whole pass never sets the two flags together |
| TemplateParserProperties.IgnoredDropped | Parser.php:115-120 | inside `{ignore}` every segment is dropped; only the closing tag has an effect |
| TemplateParserProperties.NoparseVerbatim | Parser.php:115-128 | inside `{noparse}` segments are copied, `{/ignore}` included; `{/noparse}` closes and is dropped |
| TemplateParserProperties.TextVerbatim | Parser.php:256-257 | a segment no tag matches is copied |
| TemplateParserProperties.StepFollowsEffect | Parser.php:111-258 | a step that finishes leaves every field but the code as its case's `Effect` makes it |
| TemplateParserProperties.EffectCounts | Parser.php:115-241 | `{if}` and `{/if}` move the if counter by +1/-1, `{loop}` and `{/loop}` the loop level, no other case moves either, and the block flags follow `BlockFlags` |
| TemplateParserProperties.RunCounts | Parser.php:161-225 | after the pass, the if counter and loop level equal the start plus opened minus closed tags |
| TemplateParserProperties.CompileVerdict | Parser.php:262-272 | an open if is reported first, then an open loop; otherwise the header plus the code; surplus closes pass |
| TemplateParserProperties.MessagesNameTemplate | Parser.php:263-268 | each error text contains the template's path, and the two texts for one template differ |
| TemplateParserProperties.CompileErrorNamesTemplate | Parser.php:262-268 | the error a compile fails with carries the path of the template being compiled |
| TemplateParserProperties.RunAppend | Parser.php:111 | the pass over two runs of segments is the pass over the first, then over the second |
| TemplateParserProperties.PlainEffect | Parser.php:115-241 | every case other than the block openers and the two escaping tags leaves closed blocks closed and the escaping flag and its saved copy alone |
| TemplateParserProperties.PlainKeepsEscape | Parser.php:234-241 | segments with no block or escaping tag leave the escaping flag and its saved copy alone |
| TemplateParserProperties.AutoescapeBlockRestores | Parser.php:234-241 | inside `{autoescape=a}`, escaping is on unless `a` turns it off; `{/autoescape}` restores it |
| TemplateParserProperties.NestedAutoescapeLosesOuter | Parser.php:235-240 | the save slot holds one value, so nested blocks do not restore the original setting |
| TemplateParserProperties.EscapeOffWords | Parser.php:236 | `off`, `false` and the empty string turn escaping off; `on` and `true` do not |
| TemplateParserProperties.EscapeOffZeros | Parser.php:236 | numeric strings equal to zero (`0`, `00`, ` 0`) turn escaping off, as loose comparison with `'0'` does |
| TemplateParserProperties.EscapeOffSignedZeros | Parser.php:236 | `0.0` and `-0` also compare equal to `'0'` and turn escaping off |
| TemplateParserProperties.EscapeOnNumbers | Parser.php:236 | `1`, and `0x0` (not a numeric string), leave escaping on |
| TemplateParserProperties.CounterSeenByBody | Parser.php:172-187 | the counter a loop declares is the name `{$counter}` in its body translates to |
| TemplateParserProperties.DefaultNamesSeenByBody | Parser.php:174-183 | unless both are captured, the key a loop binds is what `{$key}` in its body becomes; without `as` the value is what `{$value}` becomes; with one `as $v`, `$v` is the value |
| TemplateParserProperties.NestedCountersDistinct | Parser.php:172 | loops at different levels use different counters |
| TemplateParserProperties.LoopSourceAtEnclosingLevel | Parser.php:159-161 | the loop source is translated before the level goes up, so the header of `{loop="$value"}` at level n walks `$value`n, the enclosing loop's value, and binds names of level n+1 |
| TemplateParserProperties.IncludeAsWritten | Parser.php:141-153 | an include whose normalized path has a word character right before `../` never finishes; any other reaches `checkTemplate` with the path as the three patterns left it |
| TemplateParserProperties.StaticIncludeQuoted | Parser.php:146-153 | a path without `$` is passed to `checkTemplate` as a quoted string, as it is |
| TemplateParserProperties.IncludeKeepsParent | Parser.php:141-153 | `{include="d/w/../f"}` compiles to `checkTemplate("d/w/../f")`: the `name/../` is not removed |
| TemplateParserProperties.IncludeHangs | Parser.php:141-144 | `{include="w../f"}` never finishes |
| TemplateParserProperties.HangingIncludeStopsCompile | Parser.php:111-154 | a compile that reaches such an include is `NonTerminating`, whatever comes before or after it |
| TemplateParserProperties.FunctionArgsVerbatim | Parser.php:243-245 | a function tag's arguments without `$` are echoed as written after the name, and no arguments give `()` |
| TemplateParserProperties.TernaryOfTextTest | Parser.php:247-249 | a ternary whose test holds no `$` (a test starting with `$` goes to the variable tag) and whose branches are variables, as in `{ok?$b:$c}`, echoes `(test?b:c)` with the test copied and each branch renamed, escaped under the flag, and not echoed itself |
| TemplateParserProperties.ConstantIgnoresState | Parser.php:250-255 | a constant's code is the same at every loop level, under either escaping flag and for any segment text |
| TemplateParserProperties.ConstantWithoutModifier | Parser.php:250-255 | a constant without `\|` is emitted as the statement `<?php x; ?>` |
| Engine.Tpl.constructor | Tpl.php:28-37 | a new engine has no variables and the default configuration |
| Engine.Tpl.Configure | Tpl.php:39-48 | a non-array argument ends with "Invalid config"; otherwise the configuration becomes `Configured` |
| Engine.Tpl.Assign | Tpl.php:102-109 | the variables become `Assigned`, the configuration is unchanged |
| Engine.Tpl.DrawPlan | Tpl.php:64-76 | the paths and the recompile decision of `draw` are `Plan` |
| EngineProperties.ConfigureKeepsKeys | Tpl.php:43-47 | no key is added: unknown keys are ignored |
| EngineProperties.ConfigureOverwrites | Tpl.php:44-45 | a key already set takes the argument's value |
| EngineProperties.ConfigureLeavesOthers | Tpl.php:43-47 | every other entry is unchanged |
| EngineProperties.ConfigureIdempotent | Tpl.php:39-48 | configuring twice with one argument is configuring once |
| EngineProperties.NullKeyFrozen | Tpl.php:44 | `isset` is false for NULL, so a key configured to NULL can never change again |
| EngineProperties.DefaultsOverwritable | Tpl.php:31-47 | every default key can be configured |
| EngineProperties.AssignArrayWins | Tpl.php:104-105 | in the array union, the new array's keys win |
| EngineProperties.AssignArrayKeeps | Tpl.php:104-105 | keys absent from the array are kept, and nothing else appears |
| EngineProperties.AssignArrayIdempotent | Tpl.php:104-105 | merging the same array twice is merging it once |
| EngineProperties.AssignSingle | Tpl.php:107 | `assign(name, value)` sets that one variable and changes nothing else |
| EngineProperties.IntegerNameIsDecimal | Tpl.php:107 | an integer name is the same key as its decimal string |
| EngineProperties.BasenameOfName | Tpl.php:64 | a name without `/` is its own basename |
| EngineProperties.BasenameDropsDirectories | Tpl.php:64 | the directories in front of a name are dropped |
| EngineProperties.TrailingSlashIgnored | Tpl.php:64 | a trailing slash does not change the basename |
| EngineProperties.PathsStayInDirectories | Tpl.php:64-66 | source and cache paths are built from one slash-free name, with `.html` and `.rtpl.php` |
| EngineProperties.DefaultPaths | Tpl.php:31-66 | with the defaults, `a/b/page` maps to `templates/page.html` and `cache/page.rtpl.php` |
| EngineProperties.MissingTemplateReported | Tpl.php:71-73 | a template time of 0 means "Template name not found!" |
| EngineProperties.RebuildExactlyWhenStale | Tpl.php:76 | recompile exactly when the cache time is 0 or strictly less than the template time; otherwise reuse |
| EngineProperties.FixRoundTrip | Tpl.php:79 | each `?>\n` becomes `?>\n\n`, and taking those blank lines out gives the compiled text back |
| EngineProperties.FixWithoutClosingTag | Tpl.php:79 | text with no `?>\n` is unchanged |

## Left out

- Reading the template and writing the compiled file are not modelled. Neither are `require`,
  output buffering and `extract` in `draw`. This is all I/O, and file times are inputs to
  `DrawPlan`.
- The XML and comment substitutions before the split are not modelled. They are regular-expression
  rewrites of the raw text.
- `preg_split` and the tag patterns themselves are not modelled. Each segment comes with a record
  of which tag patterns match it and what they capture. `Classify` models only the order in which
  the switch tries them.
- Only the `is_iterable` variant of the loop header is modelled. The branch for PHP older than 7.1
  differs only in that text.
- `htmlspecialchars`, `checkTemplate` and the modifier functions run when the compiled PHP runs.
  The model only produces their call text.
- `EscapeOff` follows PHP 8 loose comparison on strings, except that `in_array` also treats as
  zero a float literal that underflows (such as `1e-400`); the model does not.
- `Engine.Value` has no floats and no objects. Array keys are strings, and integer names become
  their decimal string.
- `configure`'s `die` is modelled as a `Died` status that leaves the object unchanged.
- The exceptions of `compileFile` are the `Failed` result. `templateFile` is the path they carry.
- The third include-path pass matches one backslash and writes two, so it is modelled as doubling
  every backslash.

## Findings

| source | as written | input that shows it | evidently intended | confidence | as-written member | corrected member |
|---|---|---|---|---|---|---|
| Parser.php:142-144 | the loop guard tests `\w+\.\./` (no slash before `..`), but the body removes `\w+/\.\./`. The body never makes the guard false, so the loop either never runs or never stops | `a/b/../c` stays unreduced (guard false); `a../b` hangs (guard true, nothing to remove) | repeat while some `name/../` is present, removing it, so that `a/b/../c` becomes `a/c` | high, not executed | IncludePath.AsWrittenNeverReduces | IncludePath.ReduceUpLevels |
| Parser.php:313-321 | the loop runs while a `\|` not followed by `\|` remains, but its body rewrites nothing when the pattern finds no chain characters on both sides of a bar, so the guard stays true | `{if="$a \| $b"}` or `{$a\|}`: the loop never ends | stop when the pattern finds nothing to rewrite and keep the text as it is | high, not executed | ModifierProperties.StrandedBarDiverges | Modifier.ModifierChainStopping |
