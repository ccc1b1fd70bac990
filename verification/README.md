# phpscript, modelled and proved in Dafny

phpscript is a PHP interpreter written in Go. This project models the parts of it whose correctness
rests on an argument no single function shows, and proves what those parts promise. It is
self-contained: `dafny verify dfyconfig.toml` checks all of it.

## What is modelled

**Expressions** (`Syntax`, `Grammar`, `Printer`, `Parser`, then the proofs in `Shape`, `Rules`,
`RoundTrip`, `Sound`, `Verbatim`, `Reading`, `Printed`, `Braces`, `Spans`, `Expressions`, `Grouping`,
`Vocabulary`). The parser is a class with a cursor over the tokens and one stack of pending arguments;
each of its methods is proved to do what the grammar, a set of functions on a token stream, answers. The
printer writes tokens. It adds no parentheses of its own, so the round trip rests on the shape of the
trees: `Shape.Wf` says which trees a grammar level builds and `Shape.Edge` which token goes on with the
last operand inside a tree. A trailing assignment takes `||`, `??` and `?:` but not `or`; a trailing
ternary takes `or` as well. The main results are `Expressions.PrintThenParse` and
`Expressions.ParseThenPrint`, each with its exact condition. `Grouping` and `Vocabulary` say of every
operator and word how it binds and what it is, by sets written out, without the parser's own tables.

**The ordered array** (`OrderedMap`, `Hybrid`, `ArrayRuns`, `ArrayOrder`, `Array`). The dense list and
the hash map it promotes itself to are two forms of one value. Every operation is compared with PHP's
ordered map and its optional next index, every difference has its exact condition, and a run of safe
steps cannot tell the forms apart.

**The worker pool** (`Pool`, `PoolSafety`, `PoolAnswers`, `PoolProgress`, `PoolRefusals`). Each channel,
lock or flag operation of a caller, a worker or a closing caller is one step and a run is any
interleaving. Proved of every reachable state: nothing panics, every accepted run runs once, Close
drains, `true` means the caller's own job, `false` has one of three causes, no worker blocks, and no
call is ever stuck.

**String literals** (`Literals`, `Braced`, `Pieces`, `Scanner`, `Tokens`, `TokenShapes`, `Tokenizer`,
`Lossless`). The lexer reads escapes as a whole and the tokenizer skips two bytes at each; both end
every accepted literal at the same place. The texts of the tokenizer's tokens are the source exactly
where no literal spells `${name}` or `$name[]`.

**Closures and indexes** (`Names`, `Interfaces`, `IncludeCache`, `Symbols`, `Resolve`). The walk over
`extends` declarations, which may be circular, finds exactly the methods in reach. The symbol index
answers what a linear scan answers, and the kept index is the one a rebuild would give through writes
and evictions. Resolving a symbol goes through the index and the functions declared so far and ends in
one function or in an error that says why not.

**Bounded integers** (`Integers`, `Modular`, `Power`, `GoWidth`, `PlainOperand`). Exact integer powers,
typed widths computed in a 64-bit carrier, and what a plain operand does beside a typed one.

**Rewrites, analyses, routes and deadlines** (`ChainedAlloc`, `ChainShape`, `CopyElision`,
`ElisionSites`, `Route`, `RouteGroups`, `Deadline`, `DeadlineRuntime`). `$a = $b = array(...)` split
into one assignment for each name, the analysis that lets a loop bind without a copy, route patterns
rendered for two routers, and the machine behind execution limits and lost clients.

## Where the code and what is said about it part

The model follows the code. These are proved, each with the lemma named.

- The formatter drops the braces of some members: `$o->{FOO}` prints as `$o->$FOO`
  (`Expressions.ConstantMemberLost`), `$o->{$c["read"]}()` prints without braces
  (`Expressions.DynamicMethodLost`) and `(@int)` prints as a cast (`Expressions.SilencedConstantLost`).
- Everything behind `**` belongs to its exponent, `instanceof` included: `$a ** $b instanceof C` raises
  `$a` to the outcome of the test (`Grouping.TwoOperators`).
- Deleting the last element of a list leaves the next index behind; the next append hands the deleted
  key out again (`ArrayRuns.EndIsReused`). Key 2^63-1 makes an array forget its next index
  (`ArrayRuns.LargestForgets`), popping the smallest key too (`Hybrid.PopRefines`), and a cleared array
  is not a reset one (`ArrayRuns.ClearIsNotReset`).
- Submit's documentation says the pool drops a queued run whose client has left; the run is still
  executed (`PoolSafety.CloseDrains`). The arm of Submit's select that watches for the pool stopping is
  never taken (`PoolSafety.NeverPanics`). A channel lent again after a call that left early can deliver
  the signal of the run it left (`PoolAnswers.LentTwice`).
- The width documentation says a plain operand is converted to the width. That makes no difference to
  `+ - * & | ^` on either side and to what is shifted left (`GoWidth.ConvertedFirst`). Quotients,
  remainders and right shifts use the operand as it stands. `PlainOperand.PlainDivisor`,
  `PlainOperand.PlainDividend` and `PlainOperand.PlainShiftedRight` say exactly when that comes to the
  same; a divisor that converts to zero answers where the conversion would fail
  (`PlainOperand.DivisorConvertsToZero`). A 64-bit unsigned shift count from 2^63 on fails as negative
  (`GoWidth.HugeCountFails`).
- A lookup through the symbol index misses nothing but names behind a leading separator, which it finds
  and a scan does not (`Symbols.IndexIsScan`). Two of its errors never occur: what it resolves to is
  declared by the tree or declared already, and is in the function table afterwards
  (`Resolve.Resolver.ResolveSymbol`).
- The split of a chained allocation goes wrong where the literal reads a name the chain binds before its
  last assignment: `$a = $b = array($b)` (`ChainedAlloc.SelfReadGoesWrong`).
- The write analysis does not look into do-while loops, declare blocks, constant declarations and static
  variables, at a nested by-reference loop over what the variable holds, among the operands of a target
  such as `$a[$v++] = 1`, in the expression that names a method or the class of a `new`, at a target or
  an output argument written without its dollar, which the parser takes and the runtime binds, or at a
  target that hands the variable on, `($v ?? [])["k"] = 1` (`CopyElision.DoWhileHides` and the lemmas
  beside it).
- A timer that goes off while the deadline is suspended is forgotten on resumption, and a limit set
  meanwhile takes no earlier verdict back (`Deadline.ResumeGivesBack`, `Deadline.SuspensionLoses`). A
  limit that runs out in a statement which then sets it to zero leaves its ended context to the next
  program (`Deadline.EndedContextStays`).
- The limit is tested in front of every statement list and statement, not in front of a loop condition:
  one that sets a limit takes back a limit that ran out in the body (`Deadline.ConditionTakesBack`).

## Model

| member | source | states |
|---|---|---|
| `Expressions.PrintThenParse` | parser/expr.go:31-457 | Printing a tree the parser answered and parsing the tokens in any stream gives the same tree and stops behind it, if and only if members and casts are spelled apart and the next token does not continue the tree |
| `Expressions.ParseThenPrint` | formatter/print_expr.go:10-114 | A parse reads at least one token and stays in front of the end. Where keywords are spelled as the printer does, printing its result gives back exactly the tokens read if and only if they hold no `@`, no short ternary, no comma in front of `)`, no method name in braces and no braces around a name; printing never gives one of those back |
| `Expressions.FormatTwice` | formatter/print_expr.go:10-114 | Formatting a plain tree, reading it and formatting it again gives the same tokens |
| `Expressions.PrintIsInjective` | formatter/print_expr.go:10-114 | Two different plain trees never print alike |
| `Expressions.ConstantMemberLost` | formatter/print_expr.go:48-55 | For every constant, a property named by it in braces prints as one named by a variable |
| `Expressions.DynamicMethodLost` | parser/expr.go:398-416 | For every expression but a variable, a method named by it in braces is parsed and prints without them |
| `Expressions.SilencedConstantLost` | parser/expr.go:243-297 | For every cast type, a silenced constant of that name in parentheses prints as a cast |
| `RoundTrip.RtExpr` | parser/expr.go:31-457 | A plain tree of the grammar's shape, printed anywhere, is parsed as itself |
| `Sound.SoundExpr` | parser/expr.go:31-457 | Every tree parseExpr answers has the shape of its level, and the token behind it is one the parse could not have gone on with |
| `Reading.ReadExpr` | parser/expr.go:31-457 | Every tree parseExpr answers is faithful to the tokens read: none invented, all given back where the printer leaves nothing out |
| `Printed.PrintTidy` | formatter/print_expr.go:10-114 | No printed tree holds `@`, a short ternary or a trailing comma |
| `Braces.PrintSnug` | formatter/print_expr.go:48-70 | No printed tree that lost no braces holds braces around a name or braces in front of an argument list |
| `Braces.NameAlone` | formatter/print_expr.go:10-114 | Only a variable or a constant, in parentheses or not, prints as one |
| `Grouping.ChainGroups` | parser/expr.go:16-346 | A chain of operands and infix operators, however long, is parsed as exactly the tree that splits it at the operator applied last: the last of the loosest ones, of `??` the first, `or` loosest and `* / %` tightest of the tiers written out as sets, and `**` takes all of `instanceof` and `**` behind it |
| `Grouping.TwoOperators` | parser/expr.go:16-346 | `a o1 b o2 c` groups to the right exactly where o2 is in a tighter tier than o1, both are `??`, or o1 is `**` and o2 `**` or `instanceof` |
| `Vocabulary.Ends` | parser/expr.go:31-457 | An operand is the whole expression exactly in front of a token that is no infix operator, no `?`, `->`, `[` or `(`, and no assignment or step behind what may be written to |
| `Vocabulary.InFront` | parser/expr.go:243-277 | `!` `-` `+` `~` are prefix operators of everything, `++` and `--` of what may be written to and an error in front of all else, `@` leaves no trace, and no other token is one |
| `Vocabulary.BeginsWith` | parser/expr.go:243-510 | An expression begins with a variable, a word, a number, a string, `(` or one of those operators |
| `Vocabulary.CastWords` | parser/expr.go:236-255 | `(word)` in front of an operand is a cast exactly for the ten type words |
| `Vocabulary.Writes` | parser/expr.go:82-133 | An operator between two operands writes the first exactly if it is one of the fourteen and the first is a variable, a name, an element, an append or a property in any parentheses; `??=` takes no append |
| `Vocabulary.WordAlone` | parser/expr.go:514-672 | A word alone is a literal in its three spellings, starts a construct outside the fragment, or is a constant, and which is told by the word |
| `Vocabulary.StaticWord` | parser/expr.go:514-529 | `static` in front of a word starts a closure exactly for `function`, `fn` and `func`, and is a constant in front of any other that joins nothing |
| `Vocabulary.WordCalls` | parser/expr.go:514-630 | A word in front of arguments calls the function of that name exactly if it is no literal and starts no construct |
| `Vocabulary.WordJoins` | parser/expr.go:41-77 | A word between two operands joins them in any spelling of `or`, `xor` and `and`, and as `instanceof` in lower case; any other word is left behind the first |
| `Vocabulary.ShortTernary` | parser/expr.go:163-187 | `a ?: b` is read as the ternary that tests a and answers it |
| `Vocabulary.TrailingComma` | parser/expr.go:903-927 | A comma behind the last argument changes nothing |
| `Parser.Scratch.Take` | parser/alloc.go:72-82 | Taking returns what was pushed since the mark, in order, and leaves what was below it |
| `Parser.Scratch.Drop` | parser/alloc.go:86-90 | Dropping leaves what was below the mark |
| `Parser.Parser.Next` | parser/parser.go:137-143 | The cursor moves on by one token and never past the end |
| `Parser.Parser.ParseExpr` | parser/expr.go:31-37 | The cursor parser answers what the grammar does, ends where it does and leaves the shared stack as it was, at every depth of nesting |
| `Parser.Parser.ParseLogical` | parser/expr.go:59-77 | The same of the word operators and the loop over their levels |
| `Parser.Parser.ParseAssign` | parser/expr.go:82-108 | The same of assignment, which binds to the right |
| `Parser.Parser.ParseCoalesce` | parser/expr.go:135-161 | The same of `??` and the assignment folded onto its right operand |
| `Parser.Parser.ParseTernary` | parser/expr.go:163-187 | The same of full and short ternaries |
| `Parser.Parser.ParseBinary` | parser/expr.go:189-234 | The same of precedence climbing |
| `Parser.Parser.BinaryRight` | parser/expr.go:208-230 | The same of a right operand and the assignment folded onto it |
| `Parser.Parser.ParseUnary` | parser/expr.go:243-297 | The same of prefix operators, casts and `@` |
| `Parser.Parser.ParseInstanceOf` | parser/expr.go:306-326 | The same of `instanceof` |
| `Parser.Parser.ParsePow` | parser/expr.go:332-346 | The same of `**`, whose right operand may be a prefix operator |
| `Parser.Parser.ParsePostfix` | parser/expr.go:350-457 | The same of chains of members, subscripts, calls and steps |
| `Parser.Parser.PostfixStep` | parser/expr.go:356-450 | The same of one link of a chain |
| `Parser.Parser.ParsePrimary` | parser/expr.go:459-510 | The same of atoms and parentheses |
| `Parser.Parser.ParseIdent` | parser/expr.go:514-568 | The same of keyword literals, calls and constants |
| `Parser.Parser.ParseArgs` | parser/expr.go:903-927 | An argument list collects its own arguments above its mark and leaves the stack of the lists around it untouched, also when it fails |
| `OrderedMap.SetGet` | model/array.go:106-128 | After a write the key holds the value and every other key what it held |
| `OrderedMap.DeleteGet` | model/array.go:165-187 | After a removal the key holds nothing and every other key what it held |
| `OrderedMap.SetKeeps` | model/array.go:106-128 | A write keeps keys distinct and integer keys below the next index |
| `OrderedMap.PopKeeps` | model/array.go:197-212 | A pop keeps them too, though it may hand the index out again |
| `Hybrid.PromoteSame` | model/array.go:84-103 | Promotion changes the form and nothing else |
| `Hybrid.SetRefines` | model/array.go:106-128 | A write gives the entries PHP's gives, and its next index if and only if the key is not 2^63-1 and no stale list is extended |
| `Hybrid.AppendRefines` | model/array.go:131-146 | An append is PHP's if and only if the list is not stale and the index not the last |
| `Hybrid.StaleAppend` | model/array.go:131-146 | A stale list hands out the removed element's key where PHP skips it |
| `Hybrid.DeleteRefines` | model/array.go:165-187 | A removal is PHP's in every state |
| `Hybrid.DeleteStales` | model/array.go:165-187 | A list is stale after a removal exactly when its last element went, or it was stale and the key was not there |
| `Hybrid.GetRefines` | model/array.go:149-158 | A lookup is PHP's |
| `Hybrid.KeysRefines` | model/array.go:224-233 | The keys come in PHP's order |
| `Hybrid.PopRefines` | model/array.go:197-212 | A pop answers and leaves the entries PHP's does, and its next index unless the smallest key is popped |
| `Hybrid.ResetRefines` | model/array.go:60-70 | A reset leaves a new array in either form |
| `ArrayRuns.StepRefines` | model/array.go:60-250 | Any step in any state shows what the ordered map shows, and leaves what it leaves exactly where the step is safe |
| `ArrayRuns.RunRefines` | model/array.go:60-250 | Any run of safe steps shows and leaves what the ordered map does |
| `ArrayRuns.FormsAgree` | model/array.go:84-103 | No run of safe steps on a list can be told from the same run on the hash map it promotes itself to |
| `ArrayRuns.TameRunSafe` | model/array.go:60-250 | A run is safe that deletes no last element of a list and stays off the ends of the integers |
| `ArrayRuns.StepKeepsBelow` | model/array.go:106-212 | No step, the removal of a last element included, lets an integer key reach the next index, as long as 2^63-1 is neither written nor next |
| `ArrayRuns.AppendIsNew` | model/array.go:131-212 | An append adds one entry at the end under a new key, and a pop then answers that entry and restores the rest |
| `ArrayRuns.RunKeepsBelow` | model/array.go:106-212 | Nor does any run |
| `ArrayRuns.AppendIsAlwaysNew` | model/array.go:131-212 | So in every state a new array can get into an append overwrites nothing and a pop undoes it |
| `ArrayRuns.EndIsReused` | model/array.go:171-173 | For every list, deleting the last element and appending reuses its key, where PHP goes on behind it |
| `ArrayRuns.ClearIsNotReset` | model/array.go:302-307 | A cleared and a reset array show the same through any run that writes no integer key, and append the same entry behind it; a first integer key written there gives different next indexes exactly below -1 |
| `ArrayRuns.LargestForgets` | model/array.go:125-127 | After key 2^63-1 an append overwrites what key 0 holds |
| `ArrayOrder.SetOrder` | model/array.go:106-128 | A key written again keeps its place, a new one goes to the end |
| `ArrayOrder.DeleteOrder` | model/array.go:165-187 | The keys around a removed one keep their order |
| `ArrayOrder.AppendOrder` | model/array.go:131-146 | An append adds one entry at the end under the next index, up to 2^63-1 included, and nothing behind that |
| `ArrayOrder.NextIsBehindLargest` | model/array.go:20-33 | Over every run that neither pops nor empties a new array the next index is one behind the largest integer key that ever stood in it, negative ones included, and none exactly where none ever did |
| `Arrays.Array.Reset` | model/array.go:60-70 | The fields become those of the empty form |
| `Arrays.Array.Promote` | model/array.go:84-103 | The loop builds the promoted form in the fields |
| `Arrays.Array.Set` | model/array.go:106-128 | The fields become what a write gives |
| `Arrays.Array.Append` | model/array.go:131-146 | The fields become what an append gives |
| `Arrays.Array.Get` | model/array.go:149-158 | Answers what PHP's array holds there |
| `Arrays.Array.Delete` | model/array.go:165-187 | The fields become what a removal gives, which is PHP's |
| `Arrays.Array.Pop` | model/array.go:197-212 | The fields become what a pop gives and the last entry is answered |
| `Arrays.Array.Keys` | model/array.go:224-233 | Answers the keys in PHP's order |
| `Arrays.Array.Range` | model/array.go:236-250 | Hands the entries over in order until the callback stops |
| `Arrays.Array.ReplaceList` | model/array.go:287-298 | The array becomes the dense list of the values, in order under the keys from 0, with their count for its next index |
| `Arrays.Array.Clear` | model/array.go:302-307 | The fields become those of a cleared array |
| `PoolSafety.Kept` | runner/pool.go:56-165 | Every step of every interleaving keeps the whole invariant |
| `PoolSafety.NeverPanics` | runner/pool.go:110-165 | After any run no send goes to the closed queue and nothing is closed twice; the stop arm of the select is never taken |
| `PoolSafety.RunsOnce` | runner/pool.go:75-91 | The runs accepted are the runs started and then the queue, each once, each on one worker, each job returning at most once |
| `PoolSafety.CloseDrains` | runner/pool.go:156-165 | When a Close has returned the queue is empty, every worker gone and every accepted run has run |
| `PoolSafety.NewPoolIs` | runner/pool.go:56-73 | A new pool has the workers and the queue asked for, or its defaults, all idle and empty |
| `PoolAnswers.TrueIsOwn` | runner/pool.go:110-153 | Where a channel is lent again only after its run was seen to finish or never accepted, true from Submit is the signal of that very job, which has returned |
| `PoolAnswers.NeverBlocks` | runner/pool.go:77-89 | Then no worker ever waits to hand over a signal |
| `PoolAnswers.LentTwice` | runner/pool.go:144-152 | In every pool, a channel lent again earlier lets its caller hear true before its job has run |
| `PoolRefusals.RefusedWhy` | runner/pool.go:129-142 | After any run of a new pool a call is refused only where its own context ended in front of the queue or it found the pool closed |
| `PoolRefusals.FalseWhy` | runner/pool.go:129-152 | Where Submit answered false its context ended, in front of the queue or while the job ran, or it found the pool closed |
| `PoolRefusals.AllHeard` | runner/pool.go:110-153 | On a pool nobody closes, where the call's context does not end and channels are lent one call at a time, every Submit that came back heard true and its job has returned |
| `PoolRefusals.NobodyShutOut` | runner/pool.go:110-165 | A call may begin, its context may end wherever it waits and closing may begin at any time, and a call in front of a queue with room can send its run |
| `PoolProgress.NoStuck` | runner/pool.go:110-165 | While any call has not returned some step can be taken, full queue and pending Close included |
| `PoolProgress.Uses` | runner/pool.go:75-165 | Every step but a new call uses up what is left to do |
| `PoolProgress.CallsReturn` | runner/pool.go:56-165 | From any reachable state a run without new calls is bounded and ends with every Submit and every Close returned |
| `Literals.EscapeHidesNothing` | parser/lexer.go:447-518 | The bytes an escape takes behind its second are neither quotes nor backslashes |
| `Literals.DecodeIsSkip` | parser/lexer.go:363-425 | Decoding escapes and skipping two bytes at each end a literal at the same place |
| `Literals.ScannersAgree` | parser/tokenizer.go:485-554 | Every literal the lexer accepts ends where the tokenizer ends it, by any of its paths, and both agree whether it embeds an expression |
| `Literals.RejectedWhen` | parser/lexer.go:363-425 | The lexer rejects a literal exactly where nothing closes it or an embedded expression is malformed |
| `Literals.PartsTile` | parser/interp.go:60-128 | The pieces of a literal are not empty and cover its body |
| `Literals.NothingEmbedded` | parser/interp.go:60-128 | A literal that embeds nothing ends where its escapes decode to |
| `Braced.BraceCloses` | parser/interp.go:173-197 | An embedded expression ends at a brace exactly if the source splits up to there into whole strings and single bytes that are no quotes over which the braces close for the first time, and is unclosed exactly where no split closes them |
| `Pieces.EscapeIs` | parser/lexer.go:447-518 | How many bytes each escape takes: up to two hex digits, a whole `\u{...}` of a code point, up to three octal digits, or one byte |
| `Pieces.SimpleIs` | parser/interp.go:133-171 | What is read at a dollar is the one variable that stands there, with its subscript or property, and nothing exactly where no name follows |
| `Pieces.PiecesAre` | parser/interp.go:60-128 | Every variable and embedded expression of a literal is a piece of its own, and only the rest is text |
| `Lossless.KeptIsLossless` | parser/tokenizer.go:280-283 | Where every byte is kept the texts of all tokens are the source |
| `Lossless.LosslessWhen` | parser/tokenizer.go:295-581 | For an ASCII source the texts are the source if and only if no literal, at any depth of braces, spells a variable `${name}` or `$name[]`, and shorter otherwise |
| `Lossless.PlainlyKeeps` | parser/tokenizer.go:295-581 | A source without `${`, `[]` and bytes from 0x80 on is kept |
| `TokenShapes.StepIs` | parser/tokenizer.go:369-408 | At anything but a quote one token is read, of the kind its first bytes say and as long as they go on |
| `TokenShapes.NumberIs` | parser/lexer.go:297-351 | A number is read as far as any number reaches, and is a float exactly if it is spelled as one |
| `TokenShapes.LongestSign` | parser/tokenizer.go:583-592 | Of the operators that stand at an offset the longest is taken |
| `TokenShapes.HtmlIs` | parser/tokenizer.go:337-367 | Outside PHP everything up to the first opening tag is text, and the tag enters PHP |
| `TokenShapes.SubscriptIs` | parser/tokenizer.go:560-573 | The token of a subscript is told by its first byte, and a sign is a token of its own |
| `TokenShapes.EmbeddedIs` | parser/tokenizer.go:521-554 | An embedded variable is followed by its property, or by its subscript in brackets |
| `TokenShapes.Alphabet` | parser/lexer.go:601-607 | The digits and the bytes names are spelled with |
| `Scanner.DecodeEscape` | parser/lexer.go:447-518 | The branches and digit loops take as many bytes as the escape has |
| `Scanner.HexRun` | parser/lexer.go:521-531 | The loop counts the hex digits up to the limit |
| `Scanner.OctalRun` | parser/lexer.go:534-540 | The loop counts the octal digits up to the limit |
| `Scanner.SkipQuoted` | parser/interp.go:295-307 | The loop ends behind the quote that skipping two bytes at each backslash finds |
| `Scanner.ScanCurly` | parser/interp.go:177-197 | The loop finds the brace that closes, past nested braces and literals |
| `Scanner.ScanDollarBrace` | parser/interp.go:321-345 | Answers the piece of `${...}` or its error |
| `Scanner.ScanSimple` | parser/interp.go:133-171 | Answers the piece of a variable with one subscript or property |
| `Scanner.ScanInterp` | parser/interp.go:60-128 | The loop answers the pieces and whether one of them embeds an expression |
| `Scanner.LexString` | parser/lexer.go:363-425 | The fast, the slow and the interpolated path together answer the literal |
| `Tokenizer.PhpTokenizer.Run` | parser/tokenizer.go:295-307 | The loop over the two modes appends exactly the tokens of the rest of the source and ends at its end |
| `Tokenizer.PhpTokenizer.ScanInlineHTML` | parser/tokenizer.go:337-367 | One step outside PHP |
| `Tokenizer.PhpTokenizer.ScanPHP` | parser/tokenizer.go:369-408 | The steps inside PHP, at least one of them |
| `Tokenizer.PhpTokenizer.ScanBlockComment` | parser/tokenizer.go:435-444 | A comment ends behind its mark or with the source |
| `Tokenizer.PhpTokenizer.ScanNumber` | parser/tokenizer.go:471-483 | One token of the number |
| `Tokenizer.PhpTokenizer.ScanString` | parser/tokenizer.go:485-515 | One token, or the tokens of the pieces, and the place behind the literal |
| `Tokenizer.PhpTokenizer.EmitInterp` | parser/tokenizer.go:521-554 | The tokens of the pieces between two quotes, through nested PHP |
| `Tokenizer.PhpTokenizer.EmitSubscript` | parser/tokenizer.go:560-573 | The tokens of a simple subscript, none for an empty one |
| `Tokenizer.PhpTokenizer.ScanOperator` | parser/tokenizer.go:583-600 | The first operator of the table that stands here |
| `Tokenizer.TokenGetAll` | parser/tokenizer.go:280-283 | All tokens of a file |
| `Tokenizer.FindNumberEnd` | parser/lexer.go:297-351 | The branches and loops find the end of the number and whether it is a float |
| `Interfaces.ContractOf` | model/interfaces.go:130-163 | Ends on circular declarations and answers, without duplicates, exactly the methods of the interfaces in reach of the name |
| `Interfaces.Collector.Collect` | model/interfaces.go:139-163 | Visits exactly what is in reach and was not visited, and takes each method once |
| `Interfaces.CheckInterfaces` | model/interfaces.go:63-99 | Reports exactly the methods a class lacks of the interfaces in reach of those it names, each under an interface that declares it; reports nothing exactly where every class has them all |
| `Interfaces.InterfaceNames` | model/interfaces.go:193-218 | Answers, each once, exactly the folded names in reach of those the class implements |
| `Interfaces.Walker.Walk` | model/interfaces.go:193-218 | Visits exactly what is in reach and was not seen |
| `Interfaces.NamesAreContracts` | model/interfaces.go:63-218 | What a class has to declare is what the interfaces it answers to declare |
| `Interfaces.ClosedHolds` | model/interfaces.go:139-163 | A set closed under extends holds everything in reach of what it holds |
| `Interfaces.DeclaredMethods` | model/interfaces.go:169-184 | The methods of the class and the functions declared under its name |
| `Interfaces.ClassesAre` | model/interfaces.go:63-79 | The classes checked are those declared, each as often and in the order of the program |
| `Interfaces.IndexedIs` | model/interfaces.go:104-117 | Every declared interface is indexed under its folded name, and of several of one name the last |
| `Names.LowerIs` | model/interfaces.go:101-117 | Names fold alike exactly if they differ in the case of ASCII letters alone |
| `IncludeCache.Cache.constructor` | runner/include_cache.go:61-69 | An empty cache of the given capacity or the default |
| `IncludeCache.Cache.Set` | runner/include_cache.go:128-149 | The program is cached and every other one stays as it was, but for one that is evicted exactly where the cache is full and the path new; the version moves on |
| `IncludeCache.Cache.Clear` | runner/include_cache.go:72-80 | Nothing is cached and the version moves on |
| `IncludeCache.Cache.Snapshot` | runner/include_cache.go:97-104 | The programs after all writes, and their version |
| `IncludeCache.SameVersion` | runner/include_cache.go:107-114 | A version still stands exactly where nothing was written, for less than a whole round of the counter |
| `IncludeCache.VersionComesBack` | runner/include_cache.go:107-114 | After a whole round of writes it stands again |
| `Symbols.MatchSymbols` | runner/lookup.go:278-297 | The exact matches, or else the names ending in the symbol behind a separator |
| `Symbols.SymbolTable.Index` | runner/lookup.go:223-234 | The maps go on to list every name under its full spelling and under every chain of segments at its end |
| `Symbols.IndexIsScan` | runner/lookup.go:223-234 | What the index lists for a symbol in full, or else by its end, is what the scan of its names gives, unless only a name behind a leading separator matches |
| `Symbols.Runtime.SymbolIndex` | runner/lookup.go:188-219 | The index describes the programs cached now, and is the kept one exactly while nothing was written |
| `Symbols.LookupAfter` | runner/lookup.go:188-219 | Through any writes, evictions and clears a lookup works on an index of the programs cached then |
| `Symbols.BuildTable` | runner/lookup.go:198-217 | The loops build an index of exactly the functions the programs declare |
| `Resolve.Resolver.ResolveSymbol` | runner/lookup.go:96-158 | A resolved function is the only one the symbol matches in the order tree in full, declared in full, tree by its end, declared by its end, and is declared afterwards; no match, several matches, several declarations and a refused file are each told apart, and none but the last changes anything |
| `Resolve.ChosenIsScan` | runner/lookup.go:86-115 | The passes together match what one scan of the tree and the declared functions matches, if and only if the declared ones add no match of the kind the tree answers with and the tree answers with no name behind a leading separator |
| `Resolve.TrimmedIs` | runner/lookup.go:96-100 | The name looked for is the symbol without the space at both ends and then without one separator in front |
| `Resolve.Resolver.Candidates` | runner/lookup.go:102-114 | The passes list what the symbol matches, each name once, and stop at a function declared in full |
| `Resolve.Resolver.DeclaredUserFunc` | runner/lookup.go:242-252 | The spelling a function is declared under is found exactly where some declared name equals it whatever its case |
| `Resolve.Resolver.Install` | runner/lookup.go:130-157 | A function the tree declares in one place is declared with all others of its file exactly where the file keeps its contracts and none of its functions has a name already taken; with several declarations the files are those that hold one |
| `Resolve.Resolver.Hoist` | runner/runner.go:195-222 | Hoisting declares every function of a program if and only if none has a taken name, in any case, and no two share one; either way no two declared names differ in case alone |
| `Power.PhpPow` | runner/operators.go:368-394 | The power is an integer if and only if the exponent is not negative and it fits 64 bits, and then exact |
| `Power.SquarePushesOut` | runner/operators.go:378-392 | A square that does not fit is never followed by a power that does |
| `GoWidth.WidthRanges` | model/gowidth.go:39-50 | The smallest and the largest number of each width |
| `GoWidth.ArithWraps` | runner/operators_gowidth.go:115-166 | Sums, differences and products in the carrier are the mathematical ones reduced to the width |
| `GoWidth.BitwiseWraps` | runner/operators_gowidth.go:45-73 | So are the bitwise operators on two's complement |
| `GoWidth.BitwiseBits` | runner/operators_gowidth.go:43-60 | Every bit of the width is set in the result of `&` exactly where both operands have it, of `|` where one has it, and of `^` where they differ |
| `GoWidth.NegateWraps` | runner/operators_gowidth.go:225-244 | So are negation, complement and steps |
| `GoWidth.ShiftLeftWraps` | runner/operators_gowidth.go:201-206 | A left shift multiplies by a power of two and reduces, for any count that is not negative |
| `GoWidth.ShiftRightDivides` | runner/operators_gowidth.go:210-221 | A right shift divides by one, rounding down |
| `GoWidth.HugeCountFails` | runner/operators_gowidth.go:58-68 | A typed count fails as negative exactly where it is negative or 2^63 and more |
| `GoWidth.DivisionTruncates` | runner/operators_gowidth.go:115-166 | Quotients and remainders of one width are Go's truncated ones, wrap for the smallest by -1 only, and fail for zero only |
| `GoWidth.ReduceIsUnique` | model/gowidth.go:188-216 | A width holds one value with given low bits |
| `GoWidth.Narrowed` | model/gowidth.go:188-216 | Narrowing a carrier with the low bits of a number gives what the number reduces to |
| `GoWidth.ConvertedFirst` | runner/operators_gowidth.go:77-92 | Converting a plain operand first, on either side, changes no sum, difference, product or bitwise result, and no left shift of it |
| `GoWidth.QuotientNotConverted` | runner/operators_gowidth.go:115-140 | It changes the quotient of 100 in eight bits by 300 |
| `PlainOperand.ReadAsConverted` | runner/operators_gowidth.go:94-102 | A plain operand is read as what it converts to exactly for a number of the width, and at 64 bits always |
| `PlainOperand.Divides` | runner/operators_gowidth.go:115-166 | Quotient and remainder of any operands are the truncated ones of what is read, reduced to the width |
| `PlainOperand.Parts` | runner/operators_gowidth.go:115-166 | Quotient and remainder make up the dividend, the remainder is smaller than the divisor and on the dividend's side of zero |
| `PlainOperand.PlainDivisor` | runner/operators_gowidth.go:127-140 | Dividing by a plain number agrees with dividing by its conversion if and only if the number is of the width, the width has 64 bits or the dividend is smaller than the conversion; remainders agree for one pair more |
| `PlainOperand.DivisorConvertsToZero` | runner/operators_gowidth.go:127-140 | A divisor other than 0 that converts to 0 gives the quotient 0, and division by zero only after a conversion |
| `PlainOperand.PlainDividend` | runner/operators_gowidth.go:127-140 | Of a plain dividend, remainders agree if and only if the divisor goes into what the conversion takes off, quotients if and only if it goes into the rounds it takes off, both on one side of zero or without a remainder |
| `PlainOperand.PlainShiftedRight` | runner/operators_gowidth.go:210-221 | A plain number shifted right agrees with its conversion if and only if every bit of it from the width on that ends up within the width is the conversion's sign; up to the width that is where the power of two goes into those rounds, and from 64 on where both stand on one side of zero |
| `Route.ServeMuxKeepsNames` | model/route.go:147-175 | Re-parsing the ServeMux rendering gives the names and rest flags in order, without patterns |
| `Route.ChiDropsRest` | model/route.go:147-175 | Re-parsing the chi rendering gives the parameters that are not rest ones, unchanged |
| `Route.RenderTwice` | model/route.go:147-175 | Rendering twice is rendering once, for every path |
| `RouteGroups.Accepted` | model/route.go:46-118 | A path is accepted exactly if it is text and well-formed groups, no name twice |
| `RouteGroups.Refused` | model/route.go:46-118 | A path is refused with an error exactly if that is what is wrong with the first group that is not in order |
| `RouteGroups.RenderedGroups` | model/route.go:147-175 | The chi rendering is the path with every rest group replaced by `*`, the ServeMux rendering the path with every group that has a pattern replaced by its bare name, and the parameters are those the groups declare |
| `Route.ClosingBrace` | model/route.go:122-135 | The loop finds the brace that closes, past nested ones |
| `Route.ParseRoutePath` | model/route.go:46-76 | The loop answers the parameters in order, or the first error |
| `Route.RenderRoutePath` | model/route.go:147-175 | The loop renders every group and copies the rest, and what is not closed to the end |
| `Deadline.ExecKeeps` | runner/runner.go:228-249 | After every statement, however nested, the armed flag says whether anything can stop the run, and every statement that ran started in a state that let it |
| `Deadline.RanOut` | runner/runtime_deadline.go:154-167 | Once a limit ran out no statement starts, whether or not a disconnect is ignored |
| `Deadline.FiringStops` | runner/runtime_deadline.go:133-150 | A limit that goes off stops the next statement, whatever the settings |
| `Deadline.ActsRunOut` | runner/runtime_deadline.go:133-150 | A limit counts as run out after any acts exactly where the timer went off behind the last limit set and that was positive, or where none was set and the running one went off |
| `Deadline.ExecThreads` | runner/runner.go:228-249 | Nothing but the statements and loop conditions that ran moves the limit, through lists, loops, tries and requests |
| `Deadline.FiredIsLast` | runner/runner.go:228-249 | For every run, behind a statement or loop condition in which a limit runs out, at any depth, no statement starts unless a loop condition in between sets a limit; where none does the limit still counts as run out at the end |
| `Deadline.ConditionRunsOut` | runner/runner.go:228-236 | A limit that runs out while a loop condition is evaluated stops the loop there, whatever its body, an empty one included |
| `Deadline.ConditionTakesBack` | runner/runner_control.go:119-152 | A loop condition that sets a limit takes back one that ran out in the body, and the body starts again exactly where the ended context is not watched or a disconnect is ignored |
| `Deadline.NothingResumes` | runner/runner.go:228-249 | Nothing appended to a list whose run lost its limit or was stopped ever runs |
| `Deadline.StopSays` | runner/runtime_deadline.go:154-167 | A run is stopped only in a state no statement may start in, and the reason says whether the limit ran out |
| `Deadline.OnlyALimitTakesBack` | runner/runtime_deadline.go:35-41 | Only a new limit takes one back that ran out |
| `Deadline.NoCatchAbsorbs` | runner/runner_control.go:191-204 | Behind a try body that was stopped, or in which a limit ran out though it ended or threw by itself, neither catch nor finally runs anything, and the try is stopped |
| `Deadline.StopsTheList` | runner/runner.go:228-249 | A list that was stopped stays as it was whatever is appended to it |
| `Deadline.TryEnds` | runner/runner_control.go:191-240 | A failure comes out of a try unless a catch takes it, and a finally that ends by itself changes neither |
| `Deadline.LimitSet` | runner/runtime_deadline.go:25-41 | Zero or less sets no limit, and a positive one is what was asked for up to a hundred years |
| `Deadline.RequestGate` | runner/runtime_request_state.go:9-26 | Inside a request the client whose end stops statements is the request's own, whatever the script ignored |
| `Deadline.ExecStays` | runner/runtime_request_state.go:9-32 | However requests nest and end, the connection behind a statement list is the one in front of it |
| `Deadline.RequestRestores` | runner/runtime_request_state.go:9-32 | A request gives back connection and abort setting and keeps the limit its handler left |
| `Deadline.ScriptGoesOn` | stdlib/ps/http/tracker.go:82-88 | A handler that is stopped or fails ends its request alone: the script goes on behind it exactly as its own limit and connection allow |
| `Deadline.LimitOutlivesRequest` | runner/runtime_request_state.go:29-32 | Behind a request the limit, its timer and its verdict are those its handler's last statement left, or the script's own where none ran |
| `Deadline.ResumeGivesBack` | runner/runtime_deadline.go:187-200 | Whatever runs during a suspension, resuming gives back the connection and the old verdict, keeps the rest, and stops at once exactly where the old limit had run out and something is still watched |
| `Deadline.SuspensionLoses` | runner/runtime_deadline.go:187-200 | For any acts during a suspension, the verdict lost on resuming is exactly that of a limit that ran out in them, and resuming restores everything exactly where they left the limit, the abort setting and the contexts alone |
| `Deadline.ResetIsFresh` | runner/runtime_deadline.go:206-229 | A reset runtime has no limit and its host's connection again |
| `Deadline.ResetLeavesEnded` | runner/runtime_deadline.go:206-229 | It keeps an ended context exactly where the limit that ended it was taken back |
| `Deadline.NextProgramEnded` | runner/runtime_deadline.go:206-229 | After any run of a new program the next one starts on an ended context exactly where a limit ran out in some statement or loop condition, at any depth, and no limit is in force at the end |
| `Deadline.EndedContextStays` | runner/runtime_deadline.go:206-229 | That state is reached by every positive limit that runs out before it is set to zero |
| `DeadlineRuntime.Runtime.constructor` | runner/runtime_deadline.go:115-128 | A runtime with its host's context is one that was reset |
| `DeadlineRuntime.Runtime.SetTimeLimit` | runner/runtime_deadline.go:35-41 | The fields become those of the machine after a limit is set, armed flag included |
| `DeadlineRuntime.Runtime.BindContext` | runner/runtime_deadline.go:115-128 | The fields become those of a bound context |
| `DeadlineRuntime.Runtime.ArmTimer` | runner/runtime_deadline.go:133-150 | The fields become those of an armed timer |
| `DeadlineRuntime.Runtime.CheckDeadline` | runner/runtime_deadline.go:154-167 | A limit that ran out is reported always; a lost client or host only where none did and aborts are not ignored; nothing exactly where the loop lets a statement start |
| `DeadlineRuntime.Runtime.RefreshDeadlineArmed` | runner/runtime_deadline.go:178-180 | The flag the statement loop reads says whether anything can stop the run |
| `DeadlineRuntime.Runtime.SuspendDeadline` | runner/runtime_deadline.go:187-200 | Nothing that happened stops a statement, a limit still running may, and only that is watched |
| `DeadlineRuntime.Runtime.ResumeDeadline` | runner/runtime_deadline.go:187-200 | What had stopped the run stops it again where anything is watched, and the limit set meanwhile stays |
| `DeadlineRuntime.Runtime.ResetLimits` | runner/runtime_deadline.go:206-229 | The fields become those of a reset |
| `DeadlineRuntime.Runtime.ReleaseDeadline` | runner/runtime_deadline.go:233-239 | No limit can run out any more, and only the connection is still watched |
| `DeadlineRuntime.Runtime.BeginRequest` | runner/runtime_request_state.go:9-26 | The limit stays, a lost request client stops statements although aborts were ignored before, and nothing else begins to |
| `DeadlineRuntime.Runtime.EndRequest` | runner/runtime_request_state.go:29-32 | Connection and abort setting are those from before, the limit is the one the request left, and the loop decides as before where neither the limit nor a context moved |
| `ChainedAlloc.LowerChainedAlloc` | parser/parser.go:1624-1661 | The loops answer one assignment for each name, innermost first, for exactly the chains of plain assignments that end in a repeatable literal |
| `ChainShape.LoweredIs` | parser/parser.go:1624-1661 | A statement is split exactly if it assigns with `=` an array literal that may run again to two targets or more, in any parentheses, and the split is one assignment of that literal to each, the innermost first |
| `ChainShape.RepeatableIs` | parser/parser.go:1663-1716 | An expression may run again exactly if no part of it, at any depth, assigns, steps a variable or calls |
| `ChainedAlloc.RepeatableEval` | parser/parser.go:1663-1716 | A repeatable expression leaves every name and every array as it was and answers PHP's value |
| `ChainedAlloc.LoweringKeepsMeaning` | parser/parser.go:1602-1661 | Where the literal reads none of the inner names, the split leaves PHP's values and gives every name a new array of its own |
| `ChainedAlloc.MeaningKeptExactly` | parser/parser.go:1650-1661 | For positional literals of names and parts that read no inner name, the split means what PHP means if and only if the literal reads no inner name, in every state |
| `ChainedAlloc.SelfReadGoesWrong` | parser/parser.go:1653-1660 | `$a = $b = array($b)` is split and comes out wrong in every state |
| `ChainedAlloc.UnsplitShares` | parser/parser.go:1606-1612 | Unsplit, all names would share one array |
| `CopyElision.RootName` | model/copy.go:57-73 | The loop answers the name at the root of an lvalue, and none for anything else |
| `CopyElision.NoCopyNeeded` | model/copy.go:45-226 | Where AssignsTo says no and nothing it overlooks is there, no run of the body, whatever its operations answer and wherever it fails, stores through the loop variable or rebinds it |
| `ElisionSites.CopiesFor` | model/copy.go:45-226 | A loop copies its elements exactly if its target is rooted in no name or some place the analysis looks at writes that name: a step, an assignment, a list target, an output argument, an include, a nested loop's target, an unset or a catch |
| `CopyElision.EvalKeeps` | model/copy.go:161-226 | The same of one expression, whatever its operations answer |
| `CopyElision.ExecOneKeeps` | model/copy.go:84-136 | The same of one statement, loops, fall-through, catches and failures included |
| `SureWrites.EvalRose` | runner/runner_assign.go:17-212 | No evaluation takes a store back, and one that comes to its end has made every store that stands in no operand that may be left out, the operands of its targets included |
| `SureWrites.ExecWrites` | runner/runner.go:228-320 | Where no handler lets failures pass, a statement list that comes through has made every store that stands in it outside branches and loops |
| `SureWrites.ForTurn` | runner/runner_control.go:119-152 | A for loop whose condition holds keeps what its body and its step do, and ends where the body breaks |
| `SureWrites.DoTurn` | runner/runner_control.go:155-178 | A do-while loop runs its body before its condition and goes on exactly while that holds |
| `SureWrites.ForeachTurn` | runner/runner_control.go:14-117 | A foreach loop that found an element stores into its targets, keeps what its body does and, by reference, stores into its source |
| `CopyElision.DeclareHides` | model/copy.go:84-136 | A declare block runs its body and is not looked into |
| `CopyElision.DoWhileHides` | model/copy.go:84-136 | So does a do-while loop |
| `CopyElision.StaticHides` | model/copy.go:84-136 | A static variable rebinds its name unseen |
| `CopyElision.ConstDeclHides` | model/copy.go:84-136 | A constant declaration runs its value unseen |
| `CopyElision.ClassNameHides` | model/copy.go:199-200 | So does a `new` the expression that names its class |
| `CopyElision.ReferenceHides` | model/copy.go:98-103 | A nested by-reference loop over the variable stores into it unseen |
| `CopyElision.ConstantHides` | model/copy.go:57-73 | A store to the variable's name spelled as a constant binds the variable unseen |
| `CopyElision.ArgumentHides` | model/copy.go:218-226 | An output argument spelled as a constant binds the variable unseen |
| `CopyElision.HandedOnHides` | model/copy.go:57-73 | A store into `($x ?? [])` lands in what the variable holds unseen |
| `CopyElision.OperandHides` | model/copy.go:86-87 | A write among the operands of a target is unseen |

## Left out

- Expressions: closures, `new`, static `::` access, qualified and magic names, `include`, `list()`, array literals, by-reference `&` and float or interpolated literals; the grammar answers "not modelled" where the parser would read one.
- Expressions work on tokens: the formatter glues prefix signs in text, so `- -$x` prints as `--$x`. Integer literals are kept by value, not by spelling.
- String literals with a carriage return, which the formatter quotes anew, print as they are spelled here. Keywords in another spelling are respelled; which of those stand where they are kept, as in `$o->TRUE`, is not told apart.
- Statements, comments, blank lines and line numbers of the parser and of the formatter.
- Array: `Map`, `Int64List` and `ToArray`, the capacity a reset keeps for reuse, and callbacks that change the array while it is walked.
- Pool: the runtimes behind the workers and their outputs, jobs that submit to their own pool, jobs that do not end, and the memory model of Go. A context may end at any step.
- Literals: line numbers, the decoded text, keyword and operator token ids, and Unicode beyond bytes.
- Interfaces and symbols: case folding beyond ASCII, nil receivers, the lock around each cache method, the scan that fills an empty cache, space around a symbol beyond ASCII, and the names host bindings go by in other areas. Whether a file keeps its interface contracts is asked of the caller, a method of an unknown class counts as such a failure, and the record of hoisted programs is left out, whose functions are all declared. What a refused file declared up to the refusal stays declared, as in the source. The order of interface reports, and that a method demanded by two named interfaces is reported for each.
- Power and widths: float results, `math.Pow`, float widths and `**` on a width. `MulInt` stands for the overflow-checked product, which is not part of this model.
- Route: the texts of errors.
- Deadline: real time, so that a timer goes off in one step; loop conditions that fail, memory limits, exit, error handlers that carry on, and the flows of break and return, and what a host does with the error a request records.
- ChainedAlloc: targets other than plain names in the meaning of a split (the rewrite itself takes any), strings, properties, interpolation, casts, division and errors in literals, and arrays written in place.
- ChainedAlloc.LoweringKeepsMeaning: one way for literals with keys or with inner names inside larger items, where what is read need not show; the exact condition is that of MeaningKeptExactly. Of later writes it says only that no two names share an array.
- CopyElision: values are what an arbitrary world answers, so a store through another name that shares an array is not seen, nor is one through what a call, a closure, an operator or an array literal hands on, nor what a call does to an array it is given. `isset`, `empty` and class constants have no operands here. The fuel of a run bounds how often its loops go round, so that a run may stop anywhere.
- CopyElision.NoCopyNeeded: asks for the absence of everything overlooked, whether or not it can be reached.
- HTTP, superglobals, configuration, telemetry, the bytecode engine, reflection and host bindings.
