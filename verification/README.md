# Verified model of recipes, market store, rendezvous plane and wire forms

The project models four parts of the system and proves properties of them for all inputs, runs and
interleavings.

- **The recipe language.** Tokenizer and parser (`RecipeLexer`, `RecipeQuoting`), the IF/ELSE/END
  balance check (`RecipeControlFlow`), `${path}` expansion (`RecipeExpand`), the flat interpreter with
  its stack of branch frames (`RecipeRuntime`), a recursive evaluator over the block tree that says
  what a recipe means (`RecipeMeaning`), its laws in terms of words and of what the host is asked
  (`RecipeLaws`), and `include` resolution (`RecipeInclude`).
- **The market.** Version order and the listing sort (`MarketSemver`), the choice of the latest version
  (`MarketLatest`), the replay cache of signed requests (`MarketNonce`), the publish store with its three
  tables (`MarketStore`), what metadata an asset shows (`MarketMetadata`), and what a reader sees of it, read
  off the operations alone (`MarketListing`).
- **The rendezvous plane.** The node registry with its counters, liveness and address learning
  (`RendezvousRegistry`), the control-connection table under interleaved handlers
  (`RendezvousControl`), the health rate limiter (`RendezvousLimiter`), and the reconnecting client
  under interleaved callers, senders, readers and redials (`TunnelClient`).
- **Wire forms.** Length-prefixed frames (`SignalFrames`), the bytes hashed for register and ping
  signatures (`TunnelDigest`), and credential and access messages (`TunnelCredential`).

`Text`, `Bytes` and `RecipeSyntax` hold the shared vocabulary.

Code that updates state in place is a class or a loop proved equal to a function; the lemmas are about
that function. For instance `Tokenizer` (class) is `Stepped` and `Flushed`, `Runtime.Run` is `RunFlat`,
`SqlStore.PutAsset` is `Put`. An oracle the code consults (a signature check, the network, the order in
which a database returns rows, a map's iteration order) is a parameter or an arbitrary choice, so the
theorems hold whatever it answers.

## Where the code departs from what one would expect

The code is modelled as it stands. For each departure the lemma at a concrete input or shape is named, and
the one that says, for all inputs, when the expectation holds or what holds instead.

- With keep-going, the flat interpreter agrees with the tree if and only if no IF condition fails to
  evaluate (`KeepGoingMeansTree`); the smallest recipe on which they differ is `KeepGoingCounterexample`.
  IF conditions without a reference that are one word or compare two never fail, and fail otherwise
  (`SafeConditionIff`), so recipes with only such conditions agree (`SafeRecipeMeansTree`).
- The market's version order cycles on mixed strings (`SemverCycle`). On three versions it is a strict weak
  order if and only if nothing goes around where they first differ (`StraightIff`), and single components
  go around if and only if one that is no number comes between two numbers that text order reverses
  (`HeadCycleIff`). The listing is in full descending order, however the rows are read, if and only if
  all triples are of that kind (`SortSortsIff`).
- The order also ties versions such as `1.0` and `1.00`. The latest version does not depend on the order of
  the rows if and only if some version exceeds all others (`OrderIndependentIff`; `RowOrderDecidesTies` is
  the case of two rows), and so is the head of the listing settled (`HeadIndependentIff`). The empty
  version, which the scan takes for none and the server refuses in a push, counts for the listing only.
  Cycles and ties below the top do no harm.
- An asset can show the license of another version than its latest one (`LicenseOfAnother`). Every run that
  leaves given versions shows the latest one's metadata if and only if some version exceeds all others or
  there are at most two (`MetadataIff`).
- A signed request can be accepted twice (`ReplayInput`), because the clock is read before the cache's lock
  is taken: readings can reach the cache out of order even if the clock runs steadily. For any readings, a
  request in order is accepted if and only if every accepted request with its nonce has been swept, by a
  call with a reading past that request's expiry (`AcceptedExactly`), and a repetition is accepted if and
  only if such a call came between (`ReplayedIff`). With readings in order there is no replay
  (`NoReplay`).
- For the same reason the health limiter can allow an address three times its limit within a second
  (`ThreeInOneSecond`). For any readings, each epoch (the time for which the limiter keeps one window)
  allows exactly the smaller of calls and limit (`GrantedIsMin`), and a second at most the limit for each
  epoch in which its calls arrive (`AtMostLimitPerEpoch`); with readings in order these are two
  (`AtMostTwiceTheLimit`).
- On dotted integers the market's order refines the CLI's if and only if neither version continues the
  other with a part whose first component other than 0 is negative (`RefinesUnlessClash`); `1` and `1.-1`
  do not (`ClashAtMinusOne`), while versions without negative components always do
  (`SemverRefinesCompare`).
- A variable can be read back after it is set, except if and only if it is called `env` (`VarReadsBack`).
- A credential or access message is accepted by its own parser if and only if the name has no colon
  (`ParsesBack`).
- A capture in front of an include parses (`CapturedIncludeParses`) and makes no difference to the
  resolved recipe (`IncludeDropsCapture`): the variable is never set.
- A field of an object can be read if and only if it is not called `length`, which the synthetic field
  shadows (`ObjectFieldReadable`).

## Model

| member | source | states |
|---|---|---|
| RecipeControlFlow.ValidateControlFlow | pkg/recipe/parser.go:606-638 | the stack loop gives the check's exact error, and accepts a list if and only if the block grammar generates it |
| RecipeControlFlow.AcceptsIffWellNested | pkg/recipe/parser.go:606-638 | accepted exactly when some tree of commands and `IF (ELSE IF)* ELSE? END` blocks flattens to the list, at any depth |
| RecipeControlFlow.TreeUnique | pkg/recipe/parser.go:606-638 | an accepted list has only one such tree, so its meaning is unambiguous |
| RecipeControlFlow.ReportsOutsideIf | pkg/recipe/parser.go:606-638 | after a complete block, a marker without IF is the error, at its own line |
| RecipeControlFlow.ReportsAfterElse | pkg/recipe/parser.go:606-638 | a second ELSE, or an ELSE IF behind an ELSE, is the error, at its own line |
| RecipeControlFlow.ReportsNotClosed | pkg/recipe/parser.go:606-638 | a list that ends inside an IF is reported at that IF |
| RecipeControlFlow.ReportsInnermost | pkg/recipe/parser.go:606-638 | of two open IFs the inner one is reported |
| RecipeLexer.Tokenizer.constructor | pkg/recipe/parser.go:403-414 | nothing read yet |
| RecipeLexer.Tokenizer.Emit | pkg/recipe/parser.go:416-445 | a terminator turns the argument run into a statement, a marker or the first segment error, and empties the run |
| RecipeLexer.Tokenizer.FlushTok | pkg/recipe/parser.go:450-471 | a finished token becomes an argument; only an unquoted BEGIN or END terminates |
| RecipeLexer.Tokenizer.StartTok | pkg/recipe/parser.go:472-479 | the first token of a statement fixes its line |
| RecipeLexer.Tokenizer.Char | pkg/recipe/parser.go:484-509 | one character of a line, in or outside quotes |
| RecipeLexer.ParseStatements | pkg/recipe/parser.go:403-541 | the nested loops over lines and characters are the recursive tokenizer followed by the balance check, with the same first error |
| RecipeLexer.ParsedIsWellFormed | pkg/recipe/parser.go:403-586 | whatever is parsed is well-formed, well nested and carries its file's name |
| RecipeQuoting.LinesAreText | pkg/recipe/parser.go:481-526 | reading the lines of a text is reading the text, quoted newlines and comments included |
| RecipeQuoting.ReadQuote | pkg/recipe/parser.go:486-508 | a quoted word adds exactly that word, whatever characters it has, the empty word and BEGIN/END included |
| RecipeQuoting.ReadBackBelow | pkg/recipe/parser.go:403-541 | below any header lines, every well-formed list is parsed back from its text, each statement on the line where it was written, or the first error of its block structure is reported |
| RecipeQuoting.ReadBack | pkg/recipe/parser.go:403-541 | round trip: below any header lines, every well-formed, well-nested list is parsed back |
| RecipeQuoting.FirstErrorReported | pkg/recipe/parser.go:416-586 | after any well-formed statements, the first faulty run of words is the error, of its kind and on the line where it starts, whatever follows |
| RecipeQuoting.UnterminatedReported | pkg/recipe/parser.go:526-536 | a text that ends inside quotes, or before a terminator, is reported on the line where the statement starts |
| RecipeQuoting.ReadWord | pkg/recipe/parser.go:484-509 | a word is its bare, single-quoted and double-quoted pieces side by side, quotes gone |
| RecipeQuoting.ReadComment | pkg/recipe/parser.go:481-526 | a comment is nothing, up to its newline |
| RecipeQuoting.CommandLineParses | pkg/recipe/parser.go:403-541 | below any header, a command as people write it (indented, words in pieces, spaced by blanks, a semicolon, a comment) parses to its words |
| RecipeQuoting.ParserRange | pkg/recipe/parser.go:403-586 | a list is the parse of some body if and only if it is well-formed and well nested: the parser's exact range |
| RecipeQuoting.CaptureLineParses | pkg/recipe/parser.go:546-558 | a hand-written `name := command "argument";` is parsed to that captured command |
| RecipeExpand.SplitFirstIdent | pkg/recipe/expand.go:179-201 | splits off the longest leading identifier; fails exactly when there is none |
| RecipeExpand.RunSplitFirstIdent | pkg/recipe/expand.go:179-201 | the scanning loop does that |
| RecipeExpand.RunEvalPath | pkg/recipe/expand.go:86-175 | the walking loop is the recursive walk, with the same error in every failing case |
| RecipeExpand.PathMeansChain | pkg/recipe/expand.go:86-175 | every printed chain of fields and indices evaluates as the structured accessor on the nested value does, failures and the synthetic `length` included |
| RecipeExpand.WalkIsRead | pkg/recipe/expand.go:110-175 | on every text and value, walking is reading the accesses off the text alone and applying the structured accessor; the first failure of either kind is reported |
| RecipeExpand.PathIsRead | pkg/recipe/expand.go:86-175 | the same for whole paths: variable, accesses, failures |
| RecipeExpand.ReadPrinted | pkg/recipe/expand.go:110-175 | a printed chain reads as itself |
| RecipeExpand.ReadIsPrintable | pkg/recipe/expand.go:110-175 | whatever a text reads as can be printed and reads the same again |
| RecipeExpand.NameSelects | pkg/recipe/expand.go:113-116 | a name alone is the variable's value, or unknown |
| RecipeExpand.IndexSelects | pkg/recipe/expand.go:152-168 | below any path: an index selects the element at that position from 0, of an array and nothing else, in range and nowhere else |
| RecipeExpand.FieldSelects | pkg/recipe/expand.go:119-151 | below any path: a field of an object, the length of an array or string, and the error in every other case |
| RecipeExpand.ElementReadable | pkg/recipe/expand.go:152-168 | the elements and the length of an array in a variable |
| RecipeExpand.PathTrimmed | pkg/recipe/expand.go:86-95 | space around a path does not matter |
| RecipeExpand.EnvReadable | pkg/recipe/expand.go:97-112 | `env.NAME` is the environment variable, whatever memory holds; anything behind it is an error |
| RecipeExpand.EnvAlone | pkg/recipe/expand.go:97-104 | `env` without a name is an error |
| RecipeExpand.AccessErrors | pkg/recipe/expand.go:117-175 | the four ways in which a text fails to spell an access, each with its error |
| RecipeExpand.ValuePrinted | pkg/recipe/expand.go:211-237 | how each kind of value is printed by a reference to it |
| RecipeExpand.ObjectFieldReadable | pkg/recipe/expand.go:121-150 | a field of an object evaluates to its value if and only if it is not called `length` |
| RecipeExpand.RunExpandToken | pkg/recipe/expand.go:36-61 | the index loop is left-to-right substitution |
| RecipeExpand.ShortcutIsSubstitution | pkg/recipe/expand.go:37-39 | the early return for tokens without a reference agrees with the loop |
| RecipeExpand.ExpandConcat | pkg/recipe/expand.go:36-61 | expanding `a` followed by `b` is expanding `a`, then `b`, unless the seam makes a new reference or `a` leaves one open |
| RecipeExpand.ExpandReference | pkg/recipe/expand.go:36-61 | one reference becomes its printed value verbatim, even a value that looks like a reference |
| RecipeExpand.ExpansionIsOnePass | pkg/recipe/expand.go:36-61 | a token is its literals and the values of its references, in order, up to the first failure; values are never rescanned |
| RecipeExpand.TokenHasPieces | pkg/recipe/expand.go:36-61 | every token whose references are closed has such a reading |
| RecipeExpand.ExpandArgv | pkg/recipe/expand.go:64-74 | argument by argument, lengths kept |
| RecipeRuntime.Runtime.constructor | pkg/recipe/runtime.go:36-49 | an empty memory |
| RecipeRuntime.Runtime.EvalCond | pkg/recipe/runtime.go:249-260 | the condition's verdict or its error, with the position |
| RecipeRuntime.Runtime.ControlStep | pkg/recipe/runtime.go:199-244 | the branch stack after a marker; a condition in an inactive context is not evaluated |
| RecipeRuntime.Runtime.VarStatement | pkg/recipe/runtime.go:571-585 | sets exactly the named variable, or says what is wrong and changes nothing |
| RecipeRuntime.Runtime.Capture | pkg/recipe/runtime.go:405-489 | output to variable: empty is null, otherwise JSON, otherwise an error and no change of memory |
| RecipeRuntime.Runtime.Read | pkg/recipe/runtime.go:506-526 | one input line to the captured variable, if there is one |
| RecipeRuntime.RunSplitMessage | pkg/recipe/runtime.go:654-669 | the loop finds the first comma |
| RecipeRuntime.MessageSplits | pkg/recipe/runtime.go:654-669 | the message follows the first comma, alone or at the end of a word; no comma, no message; a leading comma is an empty operand |
| RecipeRuntime.RunRequire | pkg/recipe/runtime.go:629-643 | an assertion passes, fails with its message or its own text, or is malformed |
| RecipeRuntime.Runtime.ExecStatement | pkg/recipe/runtime.go:280-381 | what every statement form does, which are refused, and which cannot be captured |
| RecipeRuntime.Runtime.Run | pkg/recipe/runtime.go:80-172 | memory, world, log and report of the loop are those of the flat machine; a dry run changes nothing |
| RecipeRuntime.ReportMeans | pkg/recipe/runtime.go:168-172 | success is reported exactly when nothing failed |
| RecipeLaws.EqualityVerdict | pkg/recipe/runtime.go:674-693 | `a == b` holds exactly for equal words, `a != b` exactly for different ones |
| RecipeLaws.WordVerdict | pkg/recipe/runtime.go:697-703 | one word holds unless it is one of seven, in any letter case, space aside |
| RecipeLaws.ExpandedVerdict | pkg/recipe/runtime.go:249-260 | with references the expanded words decide; every other shape is its own error |
| RecipeLaws.RequireEquality | pkg/recipe/runtime.go:629-643 | `require a == b` passes exactly for equal words, and fails with its own text or the message behind the comma |
| RecipeLaws.FirstArgumentError | pkg/recipe/expand.go:64-74 | the first argument that does not expand is the error |
| RecipeLaws.FirstTrueBranchRuns | pkg/recipe/runtime.go:199-244 | of any number of branches the first whose condition holds runs, after the tests before it, and no other; else the ELSE, or nothing |
| RecipeLaws.IfElseRuns | pkg/recipe/runtime.go:101-244 | the flat run of IF a == b … ELSE … END logs the test and runs the one branch as it would run alone |
| RecipeLaws.Asks | pkg/recipe/runtime.go:280-381 | what each statement asks of the host: one command, one capture, one line, or nothing |
| RecipeLaws.HostSeesExternalOnly | pkg/recipe/runtime.go:280-381 | over every run, the host is never asked for another recipe, a market install or a statement of the language |
| RecipeLaws.CommandReports | pkg/recipe/runtime.go:280-381 | a command succeeds exactly when the host says so |
| RecipeLaws.CaptureReadsBack | pkg/recipe/runtime.go:405-489 | captured output is read back as nothing or as its JSON value; otherwise an error, and nothing is set |
| RecipeLaws.LineReadsBack | pkg/recipe/runtime.go:506-526 | a line that was read is read back from its variable |
| RecipeLaws.QuietStatements | pkg/recipe/runtime.go:280-381 | the statements that change nothing, and what they report |
| RecipeLaws.MalformedStatements | pkg/recipe/runtime.go:280-381 | the malformed forms of `var` and `func` |
| RecipeLaws.ForceAdded | pkg/recipe/runtime.go:66-75 | `-force` goes to the end of a pull of an app, skill or model without it, and nowhere else |
| RecipeLaws.ErrorsNameStatements | pkg/recipe/runtime.go:101-172 | every error of every run names the line and file of a statement of the recipe |
| RecipeLaws.CommandsRunInOrder | pkg/recipe/runtime.go:101-172 | plain commands run in order, each once: all with keep-going, else up to the first that fails |
| RecipeRuntime.ExecFrame | pkg/recipe/runtime.go:280-381 | a statement changes memory at most at its capture or the variable it sets, and forgets nothing |
| RecipeRuntime.VarReadsBack | pkg/recipe/runtime.go:571-585 | after `var name = words`, `${name}` is the words joined; except for `env`, exactly |
| RecipeMeaning.EvalGrows | pkg/recipe/runtime.go:101-172 | evaluation only adds failures, and never a marker without its IF |
| RecipeMeaning.SkipBlock | pkg/recipe/runtime.go:184-244 | a block in an inactive branch runs nothing, evaluates nothing and leaves the stack alone |
| RecipeMeaning.RunBlock | pkg/recipe/runtime.go:101-244 | under any active stack the flat run over a block reaches the tree's result and the same stack |
| RecipeMeaning.RunMeansTree | pkg/recipe/runtime.go:101-244 | without keep-going: same commands, same conditions evaluated, same memory and world, same first error as the tree; the stack ends empty; the three "without IF" errors cannot occur |
| RecipeMeaning.KeepGoingBalance | pkg/recipe/runtime.go:104-114 | with keep-going: open frames plus failed IFs equal nesting depth plus dangling ENDs, from any point to the end |
| RecipeMeaning.KeepGoingMeansTree | pkg/recipe/runtime.go:104-114 | with keep-going: flat run and tree agree if and only if no IF condition fails to evaluate |
| RecipeMeaning.KeepGoingCounterexample | pkg/recipe/runtime.go:199-211 | the smallest recipe on which they differ: a dangling END is reported |
| RecipeMeaning.SafeConditionIff | pkg/recipe/runtime.go:249-260 | a condition without references evaluates, in any memory, if and only if it is one word or compares two with == or != |
| RecipeMeaning.SafeRecipeMeansTree | pkg/recipe/runtime.go:101-244 | a recipe all of whose IF conditions are such means its tree, with keep-going or without |
| RecipeInclude.ResolveIncludes | pkg/recipe/parser.go:283-321 | the loop with the shared chain is recursive resolution, terminates, and leaves the chain as it found it, errors included |
| RecipeInclude.ResolvesIff | pkg/recipe/parser.go:283-321 | succeeds if and only if every include has one path and every walk along includes stays on loadable files and meets none twice |
| RecipeInclude.ResolvesIffAcyclic | pkg/recipe/parser.go:283-321 | when everything reachable is loadable: succeeds if and only if the reachable include graph is acyclic |
| RecipeInclude.NoIncludesLeft | pkg/recipe/parser.go:283-321 | the result contains no include statement |
| RecipeInclude.FileReadsBack | pkg/recipe/parser.go:97-130 | what a file holds below its header is read back from it |
| RecipeInclude.ResolvesTo | pkg/recipe/parser.go:283-321 | an include becomes the statements written in its file, between those before and after |
| RecipeInclude.FirstFailureReported | pkg/recipe/parser.go:283-321 | the first failing include is the error: its kind, its place and its path |
| RecipeInclude.ResolveIsInline | pkg/recipe/parser.go:283-321 | resolving a list is replacing each include in its tree by the included file's tree |
| RecipeInclude.ResolvedIsWellNested | pkg/recipe/parser.go:283-321 | the inlined list is well nested although only single files were validated |
| RecipeInclude.IncludeMeansRunningTheFile | pkg/recipe/parser.go:283-321 | inlining preserves meaning: an include is the included recipe evaluated at that point |
| RecipeInclude.RunResolved | pkg/recipe/parser.go:283-321 | the flat run of the inlined list is the evaluation of the inlined tree: always without keep-going, and with it if and only if no IF condition fails to evaluate |
| RecipeInclude.IncludeDropsCapture | pkg/recipe/parser.go:283-321 | resolution is the same with the captures in front of includes removed |
| RecipeInclude.CapturedIncludeParses | pkg/recipe/parser.go:546-558 | such a line parses to a captured include, for every name and file |
| MarketSemver.RunSemverLess | pkg/market/sqlstore.go:630-653 | the index loop is the recursive order on split versions |
| MarketSemver.SemverAsymmetric | pkg/market/sqlstore.go:630-653 | asymmetric on all strings |
| MarketSemver.SemverCycle | pkg/market/sqlstore.go:640-650 | 9 < 10 < 1a < 9 |
| MarketSemver.FirstComponentDecides | pkg/market/sqlstore.go:630-653 | on any strings the first component that differs decides, as numbers if both are, as text otherwise |
| MarketSemver.ContinuationIsAbove | pkg/market/sqlstore.go:630-653 | a version is below every continuation of it |
| Text.FirstDifferenceDecides | pkg/market/sqlstore.go:646-650 | text order: the first differing character decides, and a prefix comes first |
| MarketSemver.StraightIff | pkg/market/sqlstore.go:630-653 | on any three versions: a strict weak order if and only if nothing goes around where they first differ |
| MarketSemver.HeadCycleIff | pkg/market/sqlstore.go:640-650 | three components go around if and only if one that is no number comes between two numbers that text order reverses |
| MarketSemver.StraightTransitive | pkg/market/sqlstore.go:630-653 | there, being below is transitive and so is not being below |
| MarketSemver.UniformStrictWeakOrder | pkg/market/sqlstore.go:630-653 | in particular where no position of the versions mixes numbers with other words |
| MarketSemver.DottedOrder | pkg/market/sqlstore.go:630-653 | on dotted integers it is the lexicographic order of the components |
| MarketSemver.DottedStrictWeakOrder | pkg/market/sqlstore.go:630-653 | on dotted integers it is a strict weak order whose ties are exactly equal components |
| MarketSemver.RunCompareSemver | pkg/recipe/parser.go:180-204 | the loop is the zero-padded comparison, with conversion errors ignored as the code ignores them |
| MarketSemver.CompareIsOrder | pkg/recipe/parser.go:180-215 | the CLI's comparison is antisymmetric and transitive on all strings, and 0 exactly when the zero-padded components agree |
| MarketSemver.FirstNumberDecides | pkg/recipe/parser.go:180-204 | the first component that differs decides the CLI's comparison |
| MarketSemver.LetterIgnored | pkg/recipe/parser.go:206-208 | a leading `v` does not matter to it |
| MarketSemver.LaxInRange | pkg/recipe/parser.go:206-215 | a machine integer counts as itself |
| MarketSemver.LaxOverflow | pkg/recipe/parser.go:206-215 | digits past 64 bits count as the largest or smallest integer, whatever follows |
| MarketSemver.LaxGarbage | pkg/recipe/parser.go:206-215 | anything else counts as 0 |
| MarketSemver.RefinesUnlessClash | pkg/recipe/parser.go:180-215 | on dotted integers: (CLI-smaller implies market-smaller implies not CLI-greater) if and only if neither version continues the other with a part whose first component other than 0 is negative |
| MarketSemver.SemverRefinesCompare | pkg/recipe/parser.go:180-215 | in particular without negative components |
| MarketSemver.ClashAtMinusOne | pkg/recipe/parser.go:180-215 | the market puts 1.-1 above 1, the CLI below |
| MarketSemver.SwapDown | pkg/market/sqlstore.go:655-661 | the inner loop inserts one element in place and moves no other |
| MarketSemver.SortVersionsDesc | pkg/market/sqlstore.go:655-661 | the in-place sort is the functional insertion sort |
| MarketSemver.SortPermutes | pkg/market/sqlstore.go:655-661 | the result is a permutation |
| MarketSemver.SortHasNoInversion | pkg/market/sqlstore.go:655-661 | for any strings, no version is directly followed by a larger one |
| MarketSemver.SortSortsIff | pkg/market/sqlstore.go:655-661 | every order of the rows comes out in full descending order if and only if nothing goes around among any three of them |
| MarketSemver.SortSortsStraight | pkg/market/sqlstore.go:655-661 | in particular for the rows as they are |
| MarketSemver.SortSortsDotted | pkg/market/sqlstore.go:655-661 | dotted integers in particular |
| MarketLatest.TiesKeepOrder | pkg/market/sqlstore.go:655-661 | of two rows neither of which is above the other, the one read first is listed first |
| MarketNonce.NonceCache.UseOnce | pkg/market/auth_write.go:35-49 | sweeps exactly the expired nonces, in any map order, and records an unspent one |
| MarketNonce.NonceCache.VerifyWrite | pkg/market/auth_write.go:54-97 | accepts a request in order whose nonce is unspent, and touches the cache only then |
| MarketNonce.AcceptedExactly | pkg/market/auth_write.go:54-97 | over any run, whatever the clock readings: a request in order is answered with its signer in lower case if and only if every accepted request with its nonce has been swept by a call with a reading past its expiry, and with nothing otherwise |
| MarketNonce.AnswersSigner | pkg/market/auth_write.go:88-96 | whoever a request is accepted for has signed it |
| MarketNonce.FreshRequest | pkg/market/auth_write.go:54-97 | the first request with its nonce: accepted exactly if complete and no further from the reading than the window, on either side |
| MarketNonce.BadTimestamp | pkg/market/auth_write.go:70-80 | a timestamp that is missing or no integer is never accepted |
| MarketNonce.ReplayedIff | pkg/market/auth_write.go:54-97 | a repeated request is accepted again if and only if such a call came between |
| MarketNonce.ReplayNeedsLateReading | pkg/market/auth_write.go:54-97 | a replay shows that clock readings reached the cache out of order |
| MarketNonce.ReplayInput | pkg/market/auth_write.go:54-97 | the smallest run in which one signed request is accepted twice |
| MarketNonce.AcceptedIff | pkg/market/auth_write.go:78-95 | with readings in order: a request in order is accepted if and only if no accepted request with its nonce could itself still pass the window |
| MarketNonce.NoReplay | pkg/market/auth_write.go:78-95 | with readings in order no pair of nonce and timestamp is accepted twice; a reused nonce needs a later timestamp |
| MarketNonce.ExpiriesBounded | pkg/market/auth_write.go:35-49 | after a sweep every cached expiry is at least now, and with readings in order at most now plus twice the window |
| MarketStore.SqlStore.constructor | pkg/market/sqlstore.go:73-165 | three empty tables |
| MarketStore.SqlStore.AuthorID | pkg/market/sqlstore.go:170-190 | the author row of an address, whatever its letter case, created once |
| MarketStore.SqlStore.Lookup | pkg/market/sqlstore.go:597-608 | finds an asset by type, author address and name |
| MarketStore.SqlStore.RefreshLatest | pkg/market/sqlstore.go:465-494 | the scan over all rows, in any order, and which fields of the asset it rewrites |
| MarketStore.SqlStore.PutAsset | pkg/market/sqlstore.go:416-460 | the three tables after a push, or unchanged versions when the version exists |
| MarketStore.SqlStore.SetVisibilityOf | pkg/market/sqlstore.go:496-507 | one field of one row, or not found |
| MarketStore.SqlStore.SetPriceOf | pkg/market/sqlstore.go:509-535 | price and token of one row; an absent token equals an empty one |
| MarketStore.SqlStore.SetMetaOf | pkg/market/sqlstore.go:537-563 | tags and summary of one row, each only if given |
| MarketStore.SqlStore.Remove | pkg/market/sqlstore.go:565-585 | the asset and all its versions, and nothing else |
| MarketStore.SqlStore.CountDownload | pkg/market/sqlstore.go:587-594 | one more download of one asset |
| MarketStore.SqlStore.ListVersions | pkg/market/sqlstore.go:353-380 | each of the asset's versions once, with its hash, without inversion, whatever order the rows are read in |
| MarketLatest.ScanFindsLatest | pkg/market/sqlstore.go:465-484 | if some version exceeds all others, the scan finds it, in any row order and for any strings |
| MarketLatest.OrderIndependentIff | pkg/market/sqlstore.go:465-484 | all row orders give one latest version if and only if there is none to pick or one exceeds all others |
| MarketLatest.RowOrderDecidesTies | pkg/market/sqlstore.go:465-484 | of two rows the order decides if and only if they are distinct, not empty and neither is above the other; then the one read first stays |
| MarketLatest.DottedHaveMaximum | pkg/market/sqlstore.go:465-484 | dotted versions with pairwise different components always have a maximum |
| MarketLatest.HeadIndependentIff | pkg/market/sqlstore.go:353-380 | all row orders give listings with one head if and only if some version exceeds all others |
| MarketLatest.SortEnumerates | pkg/market/sqlstore.go:353-380 | a sorted listing has each version once, as the rows did |
| MarketStore.StepKeepsSound | pkg/market/sqlstore.go:416-594 | every operation keeps ids unique, rows owned and every asset row true to its latest version |
| MarketStore.RunIsSound | pkg/market/sqlstore.go:416-594 | over every serial run: the latest version is stored, and while some version exceeds all others it is that one; then, and while there are at most two versions, license and minimum CLI version are its push's, tags and summary too unless edited since; no version row outlives its asset |
| MarketMetadata.MetadataIff | pkg/market/sqlstore.go:465-494 | every run that leaves given versions shows the latest one's metadata if and only if some version exceeds all others or there are at most two |
| MarketMetadata.ShowsAnother | pkg/market/sqlstore.go:465-494 | for any other versions, a run that shows another version's |
| MarketMetadata.LicenseOfAnother | pkg/market/sqlstore.go:465-494 | the smallest: after pushes of 10, 9 and 1a the latest is 9 and the license that of 10 |
| MarketStore.LatestHeadsList | pkg/market/sqlstore.go:353-380 | if some version exceeds all others, the latest version heads every such listing |
| MarketStore.VersionsImmutable | pkg/market/sqlstore.go:416-585 | a published body and hash never change, whatever is done, until the asset is deleted; its id is never reused |
| MarketStore.PushReadsBack | pkg/market/sqlstore.go:382-460 | a pushed recipe is read back by its version; a repeated push changes no table |
| MarketListing.ListingRule | pkg/market/sqlstore.go:382-608 | over every serial run, from the operations alone: an asset exists exactly when pushed and not deleted since; private until set; free until priced; downloads counted; each version with the body and hash of its first push |
| MarketListing.RecipeRead | pkg/market/sqlstore.go:382-410 | what a reader gets: that body and hash with the visibility set last, of the latest version if none is named, or nothing |
| MarketListing.LatestReadable | pkg/market/sqlstore.go:382-410 | the latest version of a listed asset can always be read |
| MarketListing.PushReports | pkg/market/sqlstore.go:416-460 | a push reports that the version exists exactly when it is listed, and otherwise the asset's row |
| MarketStore.OthersUntouched | pkg/market/sqlstore.go:416-594 | every operation leaves all other assets and their versions as they were |
| MarketStore.ChangeReported | pkg/market/sqlstore.go:496-594 | "changed" is reported exactly when a table changed; a missing asset changes nothing; repeating a setting reports no change |
| RendezvousRegistry.NodeKeyStable | pkg/rendezvous/session.go:85-90 | a key is a fixed point |
| RendezvousRegistry.NodeKeyForm | pkg/rendezvous/session.go:85-90 | the role before the first colon in upper case, the rest in lower case |
| RendezvousRegistry.SameNodeIffSameLetters | pkg/rendezvous/session.go:85-90 | two ids have one key if and only if they differ in letter case only |
| RendezvousRegistry.Server.Adjust | pkg/rendezvous/server.go:367-379 | one bucket moves, and the public count only with a public station |
| RendezvousRegistry.RoleNames | pkg/rendezvous/server.go:351-361 | which role names, in any letter case, are counted in which bucket |
| RendezvousRegistry.OneNodeCounted | pkg/rendezvous/server.go:351-379 | what one node adds to each of the four counters |
| RendezvousRegistry.RegistersIff | pkg/rendezvous/control_tcp.go:207-238 | a first registration makes an entry exactly when bound to its connection and, for a full sync, signed and admitted |
| RendezvousRegistry.Server.RegisterFrame | pkg/rendezvous/control_tcp.go:207-323 | entry and counters after a register frame, accepted or rejected |
| RendezvousRegistry.Server.Refresh | pkg/rendezvous/control_tcp.go:411-421 | a service event refreshes a known node's liveness |
| RendezvousRegistry.Server.PingFrame | pkg/rendezvous/control_tcp.go:354-374 | refreshes a known node; asks an unknown one to register, exactly then |
| RendezvousRegistry.Server.PunchPacket | pkg/rendezvous/punch_udp.go:92-124 | the learned address, when the source fits the control connection |
| RendezvousRegistry.Server.PurgeTick | pkg/rendezvous/server.go:401-414 | drops exactly the stale entries, in any map order, and subtracts exactly their count |
| RendezvousRegistry.StepKeepsExact | pkg/rendezvous/control_tcp.go:239-323 | every step keeps the counters equal to a scan |
| RendezvousRegistry.CountersExact | pkg/rendezvous/server.go:351-414 | in every reachable state the four counters equal a scan, and every entry's id is its normalised key |
| RendezvousRegistry.LivenessRule | pkg/rendezvous/server.go:401-414 | over every run: a node is registered exactly while its last sign of life, read off the history alone, has survived every purge |
| RendezvousRegistry.AddressRule | pkg/rendezvous/control_tcp.go:239-323 | over every run, from the history alone: the last registered address, failing that the last accepted punch, failing that the creating connection; the last role; the last auth mode given; when the entry was made |
| RendezvousRegistry.PunchOnlyMovesAddress | pkg/rendezvous/punch_udp.go:92-124 | a punch creates nothing, extends no liveness and overrides no registered address |
| RendezvousRegistry.PunchLearned | pkg/rendezvous/punch_udp.go:92-124 | a punch is learned exactly if it comes from the control connection's IP, where one is known |
| RendezvousControl.ConnTable.Swap | pkg/rendezvous/control_tcp.go:105-109 | keeps the map equal to the table of all steps so far, and names the replaced connection its handler must close |
| RendezvousControl.ConnTable.CompareAndDelete | pkg/rendezvous/control_tcp.go:110 | keeps the map equal to the table after the handler's cleanup |
| RendezvousControl.ConnTable.Load | pkg/rendezvous/control_tcp.go:708-712 | finds the connection of the latest hello, unless it has cleaned up |
| RendezvousControl.TableIsLatestHello | pkg/rendezvous/control_tcp.go:104-110 | in every interleaving: the table maps a key to a connection if and only if it made the latest hello for the key and has not cleaned up |
| RendezvousControl.SupersededCleanupIsHarmless | pkg/rendezvous/control_tcp.go:110 | the late cleanup of a superseded handler removes nothing |
| RendezvousControl.SupersededIsClosed | pkg/rendezvous/control_tcp.go:105-109 | a superseded connection is closed, or some handler is still to close it |
| RendezvousControl.PushReachesLatest | pkg/rendezvous/control_tcp.go:708-718 | in every interleaving a push goes to the latest hello's connection, or to none exactly if there is none or it has cleaned up |
| RendezvousLimiter.HealthRateLimiter.Check | pkg/rendezvous/server.go:1046-1056 | window, hits and verdict of one call |
| RendezvousLimiter.TruncateIsSecond | pkg/rendezvous/server.go:1047 | a window is one full second |
| RendezvousLimiter.HitsAreMade | pkg/rendezvous/server.go:1031-1056 | whatever the clock readings: the map counts exactly the calls of the current epoch, and holds only addresses seen in it |
| RendezvousLimiter.GrantedIsMin | pkg/rendezvous/server.go:1046-1056 | whatever the readings: per epoch an address is allowed exactly the smaller of its calls and the limit |
| RendezvousLimiter.AtMostLimitPerEpoch | pkg/rendezvous/server.go:1046-1056 | whatever the readings: a second sees at most the limit for each epoch in which its calls arrive |
| RendezvousLimiter.ThreeInOneSecond | pkg/rendezvous/server.go:1046-1056 | readings out of order that give an address three times its limit in one second |
| RendezvousLimiter.EpochIsSecond | pkg/rendezvous/server.go:1046-1056 | with readings in order the epoch is the second of the last reading |
| RendezvousLimiter.AtMostTwiceTheLimit | pkg/rendezvous/server.go:1046-1056 | with readings in order no second, wherever it starts, sees more than twice the limit |
| SignalFrames.Conn.Send | pkg/signal/proto.go:51-68 | header and body are appended, or an error and nothing is |
| SignalFrames.Conn.ReadFull | pkg/signal/proto.go:71-92 | takes as many bytes as asked for, or all there are |
| SignalFrames.Conn.Receive | pkg/signal/proto.go:71-92 | one frame off the stream, or the exact error |
| SignalFrames.SentIff | pkg/signal/proto.go:51-68 | a message is sent exactly if it encodes to at most 2^20 bytes |
| SignalFrames.RefusedFrames | pkg/signal/proto.go:71-92 | what a receiver refuses, each with its error |
| SignalFrames.StreamReadsBack | pkg/signal/proto.go:51-92 | what was sent is received, in order, and the bytes after it are untouched |
| SignalFrames.TruncatedStream | pkg/tunnel/isannd_client.go:42-84 | cut anywhere: exactly the whole frames before the cut, then an error; a clean end only between frames |
| TunnelDigest.Hash.AppendField | pkg/tunnel/session.go:86-92 | tag, length, value |
| TunnelDigest.RegisterDigestInput | pkg/tunnel/session.go:84-106 | the writes in order make the tagged, length-prefixed fields and the timestamp |
| TunnelDigest.PingDigestInput | pkg/tunnel/session.go:115-127 | likewise for a ping: role and timestamp |
| TunnelDigest.FieldSplits | pkg/tunnel/session.go:86-92 | a field and what follows it can be told apart |
| TunnelDigest.RegisterLayout | pkg/tunnel/session.go:84-106 | where each tag, length and value of a register stands, byte by byte |
| TunnelDigest.PingLayout | pkg/tunnel/session.go:115-127 | likewise for a ping |
| TunnelDigest.StampBits | pkg/tunnel/session.go:100-103 | a timestamp is its 64 bits, most significant first, a negative one as two's complement |
| Bytes.BigEndian | pkg/signal/proto.go:51-68 | a length is written most significant byte first |
| TunnelDigest.RegisterBytesInjective | pkg/tunnel/session.go:84-106 | the hashed bytes determine all seven inputs |
| TunnelDigest.PingBytesInjective | pkg/tunnel/session.go:115-127 | the hashed bytes determine role and timestamp |
| TunnelDigest.RegisterIsNoPing | pkg/tunnel/session.go:84-127 | no register's bytes are a ping's |
| TunnelCredential.ParsesBack | pkg/tunnel/rendezvous.go:18-42 | for every name: a message parses back to the trimmed, lowercased name and both times if the name has no colon, and to nothing if it has |
| TunnelCredential.MessageTexts | pkg/tunnel/rendezvous.go:18-21 | the signed texts of an example, character by character |
| TunnelCredential.CredentialParsesBack | pkg/tunnel/access.go:58-88 | the same for the credential and the access message, colon or not |
| TunnelCredential.MessageInjective | pkg/tunnel/rendezvous.go:18-42 | for all names: messages are equal if and only if the names agree up to letter case and the times are equal |
| TunnelCredential.NoMessageServesBoth | pkg/tunnel/access.go:66-88 | no string is accepted by both parsers |
| TunnelClient.OneIdentityPerClient | pkg/tunnel/isannd_client.go:166-325 | in every interleaving: each connection starts with hello, all hellos carry one id, every later frame that id or none |
| TunnelClient.IdentityNeverChanges | pkg/tunnel/isannd_client.go:166-325 | once set, the id stays for the rest of every run |
| TunnelClient.NothingInvented | pkg/tunnel/isannd_client.go:304-325 | in every interleaving every frame behind a hello is a message that some caller asked to send |
| TunnelClient.WritesOnly | pkg/tunnel/isannd_client.go:188-325 | a successful write puts exactly its message on its connection, a hello the identity, and no other step writes |
| TunnelClient.ConnectAlone | pkg/tunnel/isannd_client.go:166-229 | undisturbed, connecting leaves one connection with one hello, published and current |
| TunnelClient.SendAlone | pkg/tunnel/isannd_client.go:278-325 | undisturbed, a send on a fresh client adopts the identity, dials, says hello and delivers the message |
| TunnelClient.Refusals | pkg/tunnel/isannd_client.go:166-191 | a closed client, another identity, a dial under way: nothing is done |
| TunnelClient.OldFailureSparesNewer | pkg/tunnel/isannd_client.go:267-274 | a failure noticed on one connection never clears or closes another |
| TunnelClient.CurrentDroppedIff | pkg/tunnel/isannd_client.go:188-435 | in every interleaving the current connection stops being current if and only if its own failure was noticed, a redial puts it aside, or the client closes |
| TunnelClient.PublishedIsCurrentOrClosed | pkg/tunnel/isannd_client.go:188-274 | in every interleaving: a published connection is the current one, closed, or held by a thread about to close it |
| TunnelClient.NoConnectionLeaks | pkg/tunnel/isannd_client.go:188-274 | every opened connection is current, closed, being set up or being closed |
| TunnelClient.DialsAndWritesAreExclusive | pkg/tunnel/isannd_client.go:188-325 | two threads never dial at once, never send at once, and never write on one connection at once, hello included |
| Text.Numerals | pkg/recipe/expand.go:154-158 | a sign and leading zeros of an integer are read over |
| Text.NoNumeral | pkg/recipe/expand.go:154-158 | nothing else is an integer |
| Text.TrimSpaceIs | pkg/recipe/expand.go:154 | trimming takes off all the space on both sides and nothing else |
| Text.CaseOfLetters | pkg/rendezvous/session.go:85-90 | letters change case, everything else stays |
| RecipeSyntax.NameCharacters | pkg/recipe/parser.go:662-678 | which characters a variable name may have |

## Left out

- Text is ASCII: case folding, trimming and string lengths follow the code on ASCII characters only.
- Reading a file's header: line-ending normalisation, the pragma, doc strings and the `requires:` block
  appear in `RecipeInclude.File` as their outcome (an error, a flag, the line where the body starts).
- Path canonicalisation and the directory of an include are the parameter `locate` of `FileSystem`.
- What a command does, captured output, standard input, JSON decoding, durations, the environment and
  the printed form of fractions, arrays and objects are parameters of the interpreter.
- Trace and plan output, echo's text, sleeping, timing, and the choice between in-process and forked
  execution.
- RecipeExpand.RunExpandToken: a float that is whole and in range prints as an integer, but rounding in
  the conversion between floats and integers is not modelled (fractional numbers are reals).
- MarketSemver.RefinesUnlessClash: dotted integers only; the leading `v` that the CLI tolerates turns the
  first component into a word for the market, and the two orders are not compared there.
- Timestamps, author handles, listing filters and paging of the store: columns and queries without
  influence on the modelled fields.
- MarketStore.RunIsSound: serial, completed calls only; a push is not one transaction in the code, so
  concurrent or crashing pushes are not covered.
- MarketNonce.NonceCache.VerifyWrite: the development switch that skips authentication, and the HTTP
  error texts; a signature is the address it recovers to, if any.
- RendezvousRegistry.Server.RegisterFrame: fields without influence on counters, liveness or addresses
  (certificate hash, version, hardware, services, local address); signature and admission checks are
  booleans, and non-full-sync registers skip them as in the code.
- RendezvousRegistry.Server.Refresh: per-service rows and metric rows that the same frames patch.
- The acknowledgement's cadence and hole-punch policy, connect brokering with its candidates, status
  thresholds, session cache and REST views.
- SignalFrames.Conn.Send: the JSON codec is a parameter that may fail; the codec's copy in the client
  differs in error texts only and is the same model.
- Hashing and signature recovery are opaque.
- Base64 and JSON wrapping of access tokens.
- TunnelClient.OneIdentityPerClient: a failed or partial write leaves no frame, and the role sent beside
  the id is not modelled.
- Nothing is claimed about sends after `Close` or about liveness of threads waiting for a lock.
