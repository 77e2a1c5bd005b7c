# Proofs about awk, pmake and m4

A model in Dafny of the parts of three programs whose behaviour is hardest to see from one
function, with proofs of what they promise and of where they do not keep it. Expressions and
recursion are functions; loops, tables and fields that change in place are methods of classes,
each proved to compute a function that specifies it. `dafny verify dfyconfig.toml` checks
everything.

- **awk's regular expressions** (`Regex*.dfy`). The parser, against a grammar of patterns as they
  are written and the words that characters and brackets stand for; the position automaton built with
  `first`, `follow` and `cfoll`, the table of 32 states that `cgoto` fills while matching and
  flushes when it is full, and `match`, `pmatch`, `nematch` and `gsub` on top of it. The answers
  are proved to be those of the language of the expression on `^` text `$` (leftmost longest, as
  in section 9.1 of the XBD volume of POSIX.1; anchors as in section 9.4.9), on every call that
  follows no wrong entry of the table, which is exactly when all states visited are the true
  ones. Line 825 of `awk/b.c` can write such an entry, and concrete searches go wrong by it.
- **pmake's parallel scheduler** (`Make*.dfy`): marking, the queue of ready nodes, ordering
  edges, dropped and re-queued nodes, the bounded job table with jobs that fail, stop, are held
  and resumed, as steps of a run over a fixed graph. Safety holds over all runs; when a run is
  complete, and that all schedules agree, is decided by the graph.
- **pmake's depth-first mode** (`Compat*.dfy`), on the same graphs: it ends on every graph, runs
  commands at most once and children first, and arrives at the parallel scheduler's results
  exactly if no node is treated differently by the two rules for a single node.
- **Suffix search** (`Suff*.dfy`): the shortest chain of transformation rules, found with a work
  queue and no set of visited suffixes; which of several is found, and exactly when the search ends.
- **m4's expressions** (`M4*.dfy`): ten levels of recursive descent over a cursor that is moved
  back by up to two characters, against expression trees and the integers they denote; both directions.
- **Conditionals of makefiles** (`Cond*.dfy`): the parser with one push-back slot, what it accepts
  of all sequences of symbols, and the compressed stack of nested conditionals against a full
  stack and against whole documents.
- **awk's record and fields** (`Awk*.dfy`): `$0` and `$1`, ... brought up to date only when they are
  looked at, against bringing them up to date at every write; what the fields of a record are.
- **Glob patterns and `%`** (`StrMatch.dfy`, `StrStars.dfy`).

Where the code and its comments or intent differ, the model follows the code:

- `first` returns 0 for a nullable tree; the comment at `awk/b.c:376` says the opposite.
- `concat` does not take `^` as the beginning of a factor, so `a^b` is a syntax error.
- `cgoto` writes its entry into row `s` after a flush has freed that state (`awk/b.c:825`). The
  entry is wrong only for `s == 2`, and only until the next `makeinit`. The theorems about answers
  ask that no wrong entry is followed (`MatchTopClean`, `PTopClean`, `GsubClean`), which a caller
  can work out from the table and the text; `MatchTopTrueIff`, `PTopTrueIff` and `GsubTrueIff` show
  that this is so exactly if every state visited has the true positions. What misleads is
  spelled out in RegexLoop; RegexFits has the expressions that never do. (An answer can be right
  by chance on a wrong way.) After a restart `initstat` stays at state 2 (`awk/b.c:518`), and `^`
  may be lost for later calls of `pmatch` and `nematch`; `SeesHat` says when. RegexStale and
  RegexWrong have an expression and texts for each of these failures, and RegexTrials methods that
  build the automata and make the calls.
- Where jobs are not exported, `-j` sets both limits and .NOTPARALLEL only lowers `maxJobs`, so that
  no job is ever held because of `maxLocal`. With the limits of a REMOTE build, a job that was held,
  started and stopped is to be started from scratch once more (JOB_RESTART is never cleared), but
  its command file is closed and gone: the child dies at `bsdmake/job.c:1233`, where the model takes
  reading through a null pointer for its failure. Commands are given to a shell at most once.
- A node without commands to run stays UNMADE in the parallel scheduler (`bsdmake/job.c:1850-1860`)
  and holds back its successors for ever. With `maxLocal` 0 (`-j 0` and .NOTPARALLEL) a stopped job
  is never resumed, and the main loop goes on without an end.
- The depth-first mode never looks at the file of a .JOIN node that is up to date, so its time stays 0;
  in the parallel mode it has been looked at in `Make_ExpandUse` (`bsdmake/make.c:924`).
- The second parent of an aborted node is not told (`bsdmake/compat.c:573`, the default case).
- `SuffFindThem` keeps no set of visited suffixes. The search for a name ends exactly if another
  candidate exists, a chain returns to the name itself, or no cycle of rules is reached; its method
  takes a limit.
- `&&`, `||` and `?:` of m4 evaluate all their operands; `|`, `&` and `=` are accepted as well.
  A character constant takes up to four characters, not one, and a number behind a backslash is
  decimal unless it begins with 0.
- The comment at `bsdmake/cond.c:107` says that the parser returns `Err` on every error; what it
  does instead is `CondForms.AcceptedIff`.
- A bracket of awk that lists nothing, as `[b-a]`, matches the empty string (`first` takes every empty
  class for `()`), and a NUL in it, perhaps one that `\777` in a range comes by, ends it.
- Two or more stars at the end of a glob pattern want at least one character; `StrStars.WrongIff`
  says on which strings that is wrong.

Characters are codes 0 to 255 in the regular expressions. NUL ends a text and stands for `$`,
HAT (256) is read once before it. Files are oracles: `stat` is the time found when a node is
examined, `after` the one found when its commands are done. What children processes do, and in
which order, is arbitrary. A few methods carry ghost parameters for the specification of the
state they start from.

## Model

| member | source | states |
|---|---|---|
| RegexTree.NullableIsEmptyWord | awk/b.c:375-415 | An expression is nullable (where `first` returns 0) exactly if the empty word is in its language |
| RegexPositions.FirstComplete | awk/b.c:375-415 | Every non-empty word of an expression in its context begins with one of the positions that `first` collects, and goes on from it |
| RegexPositions.FirstSound | awk/b.c:375-415 | A continuation from a position that `first` collects is a word of the expression followed by a word of its context |
| RegexPositions.FollowComplete | awk/b.c:417-446 | A non-empty word of what may follow a subtree begins at one of the positions that `follow` collects from the parents |
| RegexPositions.FollowSound | awk/b.c:417-446 | And only at those: a continuation from a position of `follow` is a word of what may follow |
| RegexAutomaton.StartAcceptsLanguage | awk/b.c:119-147 | The position automaton started at the first positions of the expression accepts exactly its language |
| RegexAutomaton.NumberKeepsLang | awk/b.c:181-203 | Numbering the leaves does not change the language |
| RegexStart.HatStartLanguage | awk/b.c:149-179 | With HAT possibly read before, it accepts also the words that only lack a leading HAT |
| RegexStart.FloatingAccepts | awk/b.c:119-147 | With the leading ALL leaf it accepts the texts that end in a word of the expression |
| RegexMatch.AutomatonRecognises | awk/b.c:119-147 | The three start sets of an automaton recognise the language, the language behind HAT, and the texts that end in a word |
| RegexBuild.FirstPosIsFirstLocs | awk/b.c:375-415 | The positions that the walk of `first` marks are the first positions of the tree |
| RegexBuild.FollowPosIsFollowLocs | awk/b.c:417-446 | The positions that the walk of `follow` marks are those that may follow in the context |
| RegexBuild.Compiler.Penter | awk/b.c:181-203 | The leaves are numbered from left to right and stored, the tree keeping its shape |
| RegexBuild.Compiler.First | awk/b.c:375-415 | Marks exactly the first positions in `setvec`, keeps `setcnt` the number of marks, and returns false exactly for a nullable tree |
| RegexBuild.Compiler.Follow | awk/b.c:417-446 | Marks exactly the positions that may follow, going up through the parents |
| RegexBuild.Compiler.Cfoll | awk/b.c:334-373 | Every leaf gets a row with the descending list of the positions that may follow it |
| RegexBuild.Compile | awk/b.c:119-147 | The rows that are built are the position automaton of the expression wrapped in ALL and FINAL |
| RegexBuild.CompileRecognises | awk/b.c:119-147 | The rows built for any expression recognise its language |
| RegexBuild.NewFa | awk/b.c:119-147 | A new automaton has a sound table whose start state is that of `makeinit` |
| RegexBuild.Mkdfa | awk/b.c:119-147 | From a tree to an automaton ready for `match`, or for `pmatch` and `nematch` |
| RegexMachine.DescendingIsListing | awk/b.c:789-808 | The sorted list the program keeps stands for the set of positions: equal lists, equal sets |
| RegexMachine.StepListIsStep | awk/b.c:763-788 | Collecting the follow lists of the leaves that take the character gives the successor set |
| RegexMachine.Fa.Successors | awk/b.c:760-795 | `setvec` and the descending copy of it hold exactly the successor positions of a state |
| RegexMachine.Fa.PreviousState | awk/b.c:796-808 | The first live state with the same position list, or 0 |
| RegexMachine.Fa.NewState | awk/b.c:810-832 | A new state, after a flush of states 2 and up if there are 32 |
| RegexMachine.Fa.Cgoto | awk/b.c:745-833 | Refines the subset step on the table, the entry written into row `s` after a flush included |
| RegexMachine.Fa.Makeinit | awk/b.c:149-179 | Refines the rebuilding of state 2 and of the state after HAT, anchored or not |
| RegexMachine.Fa.Match | awk/b.c:456-473 | Refines the search; on a clean call it returns whether the text contains a word of the expression |
| RegexMachine.Fa.Pmatch | awk/b.c:475-525 | Refines the search for the leftmost longest match, with `patbeg` and `patlen` |
| RegexMachine.Fa.Nematch | awk/b.c:527-576 | Refines the search for the leftmost longest match that is not empty |
| RegexTable.CGotoReturnsNext | awk/b.c:745-833 | The state that `cgoto` returns has exactly the successor positions, flush or no flush |
| RegexTable.CGotoSoundIff | awk/b.c:745-833 | `cgoto` keeps the table sound (every entry right, live states distinct, `out` right) exactly if it does not write a stale entry, which line 825 does when state 2 of a full table has a new successor that is not its own |
| RegexRun.MakeInitFloating | awk/b.c:149-179 | What `makeinit` leaves for `match`, whatever the table was before |
| RegexRun.MakeInitAnchored | awk/b.c:149-179 | What it leaves for `pmatch` and `nematch`: the start positions are saved in state 0 |
| RegexMatch.LookKeeps | awk/b.c:464-471 | A step of a matching loop keeps the states consistent even when it writes a stale entry, which then stands only while a flush is pending |
| RegexMatch.MatchTopKeeps | awk/b.c:456-473 | Every call of `match` leaves a table from which the next call can start |
| RegexMatch.MatchTopTrueIff | awk/b.c:456-473 | Every state that a call of `match` visits has the positions the automaton has there exactly if no step of the call follows an entry that leads elsewhere |
| RegexMatch.MatchCleanIfNoStale | awk/b.c:810-832 | From a sound table only a stale entry that the search has written itself can mislead it |
| RegexLoop.MatchTopLoopsIff | awk/b.c:810-832 | That is so exactly if, since the last flush of the call, state 2 has not read again the symbol on which that flush made it, the new state being no successor of itself |
| RegexMatch.MatchTopRight | awk/b.c:456-473 | `match` succeeds exactly if HAT text NUL contains a word of the expression, whenever no step of the call follows a wrong entry |
| RegexMatch.MatchRightIfShort | awk/b.c:456-473 | So it is right on every text shorter than the number of free states |
| RegexFits.MatchesFit | awk/b.c:745-833 | If no more than 31 position sets are reached, every call of `match` in any sequence of calls is answered rightly |
| RegexFits.FreshFloatingFits | awk/b.c:119-147 | A new automaton for `match` begins with such position sets, and no flush is pending |
| RegexStale.MatchCanBeWrong | awk/b.c:810-832 | The condition is needed: with thirty a or bb as expression, a search of 29 a makes the next search miss the text bb |
| RegexScan.RestartReady | awk/b.c:508-522 | The restart after a flush yields a sound table with the plain start in state 2 |
| RegexScan.PTopKeeps | awk/b.c:475-576 | Every call of `pmatch` and `nematch` leaves a usable table; a `^` is seen by the next call exactly if a flush is pending or the start state was not the plain one |
| RegexScan.PTopTrueIff | awk/b.c:475-576 | Every state that a call of `pmatch` or `nematch` visits, in all its scans, has the positions the automaton has there exactly if no step follows a wrong entry |
| RegexLoop.PTopLoopsIff | awk/b.c:475-576 | The same condition for `pmatch` and `nematch`, scan by scan |
| RegexScan.PTopRight | awk/b.c:475-576 | `pmatch` finds the leftmost longest match, `nematch` the leftmost longest one that is not empty, and each fails exactly if there is none, whenever no step follows a wrong entry |
| RegexScan.NotFoundLength | awk/run.c:578-583 | When nothing is found `patlen` is -1, which `match` makes RSTART 0 and RLENGTH -1 of |
| RegexScan.HatIsLost | awk/b.c:508-522 | How line 518 loses `^`: after a flush and restart in one call and a call without a flush, nothing matches only at the beginning any more |
| RegexWrong.HatCanBeLost | awk/b.c:508-522 | This happens: a new automaton for thirty a or `^b` does not find b any more after `pmatch` on 29 a and on the empty text |
| RegexWrong.PmatchCanBeWrong | awk/b.c:810-832 | By line 825 a new automaton for 29 a or bb finds nothing in bb after `pmatch` on 29 a |
| RegexWrong.GsubCanBeWrong | awk/run.c:1768-1835 | After a flush in its first search `gsub` for 29 a or `^b` replaces twice in the text of 29 a and b, where the walk replaces once: `^` matches in the middle |
| RegexTrials.MatchBb | awk/b.c:810-832 | The method that builds the automaton and makes the calls of MatchCanBeWrong returns false for bb |
| RegexTrials.SearchBb | awk/b.c:810-832 | The method that makes those of PmatchCanBeWrong |
| RegexTrials.SearchB | awk/b.c:508-522 | The method that makes those of HatCanBeLost |
| RegexTrials.ReplaceTwice | awk/run.c:1768-1835 | The method that makes the call of GsubCanBeWrong counts two replacements, with any replacement |
| RegexFront.HexStr | awk/b.c:230-248 | The value of the hexadecimal digits and the position behind them |
| RegexFront.QuotedChar | awk/b.c:250-282 | The loop reads the same character as the specification, octal and hexadecimal included |
| RegexFront.ClassBody | awk/b.c:707-741 | Collects the text of a bracket expression, or fails at the end of the pattern |
| RegexFront.CclEnter | awk/b.c:284-327 | Expands the ranges and escapes of a bracket expression into its members |
| RegexFront.AddClassRange | awk/b.c:298-316 | Appends the characters of a range, ascending; a descending range leaves its two ends out |
| RegexFront.Parser.Relex | awk/b.c:681-743 | The next token and the rest of the pattern |
| RegexFront.Parser.ParsePrimary | awk/b.c:598-644 | Refines the nonterminal, its syntax errors included |
| RegexFront.Parser.ParseConcat | awk/b.c:646-653 | Refines the nonterminal: `^` does not begin another factor |
| RegexFront.Parser.ParseAlt | awk/b.c:655-662 | Refines the nonterminal |
| RegexFront.Parser.ParseUnary | awk/b.c:664-676 | Refines the nonterminal |
| RegexFront.ReparseText | awk/b.c:578-591 | The parser on a whole pattern is the specification of it |
| RegexFront.MakeDfa | awk/b.c:119-147 | From the text of a pattern to an automaton that recognises the language of its tree |
| RegexPrint.ParsePrint | awk/b.c:578-743 | Round trip: every tree whose `^` stand where the grammar takes them, written with the parentheses it needs, is read back as itself |
| RegexPrint.ParsePrintParse | awk/b.c:578-743 | What the parser returns for any pattern can be written out and read again as the same tree |
| RegexPrint.HatInsideFails | awk/b.c:646-653 | A pattern with `^` behind it is a syntax error, whatever follows |
| RegexErrors.NoOperand | awk/b.c:599-644 | An operator, a bar or the end where an operand should begin is an illegal primary |
| RegexErrors.TrailingFails | awk/b.c:578-591 | A closing parenthesis behind a pattern is a syntax error |
| RegexErrors.UnclosedFails | awk/b.c:628-642 | So is a parenthesis that is not closed where a pattern ends |
| RegexErrors.ClassFails | awk/b.c:720-741 | A bracket without its end is reported as such, or as one with a newline in it |
| RegexErrors.InsideFails | awk/b.c:628-642 | An error behind an opening parenthesis is the error of the whole operand |
| RegexErrors.BarFails | awk/b.c:655-662 | And one behind a pattern and a bar is that of the pattern |
| RegexErrors.NextFails | awk/b.c:646-653 | And so is one in an operand behind a concatenation |
| RegexErrors.WholeFails | awk/b.c:578-591 | An error in a whole pattern is the error that is reported |
| RegexErrors.OperandThenPattern | awk/b.c:593-597 | An error in the first operand is that of the pattern |
| RegexErrors.NothingFails | awk/b.c:584-586 | The empty pattern is an error of its own |
| RegexErrors.BackslashFails | awk/b.c:699-701 | So is a backslash at the end of the pattern, where the program steps over the terminator |
| RegexWritten.ReparseIff | awk/b.c:578-743 | The parser accepts exactly the texts of the grammar of patterns, written with literal characters, escapes, numbers and brackets in any spelling, and reads each as the tree it stands for |
| RegexWritten.LeavesMean | awk/b.c:599-629 | In words: a spelled character stands for itself, a period for any character, `^` for HAT, `$` for NUL, `()` for the empty word |
| RegexWritten.BracketMeans | awk/b.c:284-327 | Of the words of characters a bracket stands for the single ones that its characters and ranges list, a negated one for the others; one that lists nothing stands for the empty word |
| RegexSpell.QuotedReads | awk/b.c:230-282 | An escape is read as the character it spells: a control character behind t, n, r, f or b, the value of up to two hexadecimal or three octal digits, any other character itself |
| RegexSpell.QuotedSplits | awk/b.c:230-282 | And whatever stands behind a backslash is such a spelling |
| RegexClass.ClassListed | awk/b.c:284-327 | The members of a class are, in order, what its items list: a character, or every character from the lower to the upper end of a range, which is none if it runs backwards |
| RegexClass.ListedIff | awk/b.c:284-327 | A character is a member exactly if an item lists it and no NUL (or a range beyond 255, which comes by one) stands in front of that item |
| RegexClass.ClassReads | awk/b.c:720-741 | The text of a class goes up to the first bracket that is not its first character and not behind a backslash |
| RegexGsub.GsubTrueIff | awk/run.c:1768-1835 | Every state that the searches of one `gsub` visit has the positions the automaton has there, `^` being read in front of the text only, exactly if no step follows a wrong entry and no flush is pending between two searches, or `^` leads nowhere new at the beginning |
| RegexGsub.GsubRight | awk/run.c:1768-1835 | On such a call `gsub` outputs the left-to-right replacement of the non-overlapping leftmost longest matches, no empty one directly behind another match, and counts them |
| RegexWalk.WalkChooses | awk/run.c:1768-1835 | That walk replaces matches that do not overlap, each the longest one where it begins, and leaves no other match but empty ones directly behind another; the rest of the text is as it was |
| RegexWalk.ChosenOnce | awk/run.c:1768-1835 | There is only one such choice of matches |
| RegexFits.CallsFit | awk/b.c:745-833 | If no more than 31 position sets are reached, every call of `pmatch`, `nematch` and `gsub` in any sequence of such calls is answered rightly |
| RegexFits.FreshFits | awk/b.c:119-147 | A new automaton for `pmatch` begins with such position sets |
| RegexFits.SmallFits | awk/b.c:119-147 | As it is for every expression of at most two characters |
| RegexGsub.GsubLoopWalks | awk/run.c:1773-1829 | The loop of `gsub` over any search that answers rightly is the walk over the positions of the text |
| RegexRun.NoHatPlainStart | awk/b.c:149-179 | Without `^` in the expression the state after HAT is the plain start |
| RegexGsub.PlainStartIgnoresHat | awk/run.c:1768-1772 | And then it does not matter for any match whether a later round sees HAT |
| RegexGsub.SubstituteLiteral | awk/run.c:1845-1869 | A replacement without `&` and backslash is copied as it is |
| RegexReplace.SubstituteStands | awk/run.c:1805-1869 | What a replacement stands for, piece by piece: `&` behind no or an even number of backslashes is the text matched, one backslash fewer in front of it; behind an odd number it is itself, with two fewer (one if there is one); all else is as it is |
| RegexReplace.PiecesOf | awk/run.c:1805-1869 | Every replacement is written in such pieces |
| RegexGsub.CopyReplacement | awk/run.c:1805-1817 | Copies a replacement, `&` standing for the match |
| RegexGsub.CopyBackslash | awk/run.c:1845-1869 | One to three backslashes in front of `&` are read as `backsub` reads them |
| RegexGsub.Gsub | awk/run.c:1745-1843 | The loops over the automaton compute the specification of `gsub` |
| RegexGsub.GsubRound | awk/run.c:1773-1825 | One round: an empty match copies a character, another one is replaced, and the remaining text shrinks |
| MakeTables.NodeTable.ExpandUse | bsdmake/make.c:876-941 | Marks exactly the targets and what they depend on, counts them in `numNodes`, and queues each leaf once |
| MakeTables.NodeTable.UpdateParents | bsdmake/make.c:467-612 | Refines `Make_Update`: re-stat, tell the parents, wake the successors |
| MakeTables.NodeTable.SendParent | bsdmake/make.c:547-575 | One child less to wait for; the parent is stamped, and queued when it waits for none |
| MakeTables.NodeTable.SendSuccessors | bsdmake/make.c:576-590 | A successor that held itself back and is ready is queued again, unless it is queued |
| MakeTables.NodeTable.TimeStamp | bsdmake/make.c:124-132 | The parent is as young as its youngest child |
| MakeTables.NodeTable.IsOutOfDate | bsdmake/make.c:162-284 | Computes the rule for being out of date |
| MakeTables.NodeTable.PassNode | bsdmake/make.c:778-779 | The node counts as processed and its file is looked at |
| MakeTables.NodeTable.PredecessorPending | bsdmake/make.c:754-776 | True exactly if a marked predecessor is still UNMADE |
| MakeTables.JobTable.JobExec | bsdmake/job.c:1300-1340 | The parent closes the command file, if it is open, and the job enters the table, which is full at `maxJobs` |
| MakeTables.JobTable.Leave | bsdmake/job.c:2267-2288 | A job leaves the table, which is not full any more |
| MakeTables.JobTable.CheckAborting | bsdmake/job.c:988-1007 | After an error without -k no more jobs are started, and the program ends with the last one |
| MakeProgram.Maker.MakeStartJobs | bsdmake/make.c:741-807 | Starts what can be started; the state afterwards is that of a run, and the loop ends |
| MakeProgram.Maker.ExamineOne | bsdmake/make.c:745-805 | Refines one round: drop a blocked node, start a job, or settle a node that is up to date |
| MakeProgram.Maker.JobStart | bsdmake/job.c:1831-1956 | Refines the start of a job: no commands, held, or executed |
| MakeProgram.Maker.JobFinish | bsdmake/job.c:749-1007 | Refines the end, failure, stopping and continuing of a job |
| MakeProgram.Maker.JobRestart | bsdmake/job.c:1411-1645 | Refines the resuming of a stopped job, its start from scratch (with its command file the first time, without it after that), or its return to the front of the list |
| MakeProgram.Maker.JobRestartJobs | bsdmake/job.c:3133-3143 | Refines the loop, which ends although a job can be put back |
| MakeProgram.Maker.JobCatchChildren | bsdmake/job.c:2227-2292 | Any batch of reports is a sequence of steps of a run |
| MakeProgram.Maker.JobEmpty | bsdmake/job.c:2549-2572 | Refines the question whether the table is empty, which starts jobs that are held |
| MakeProgram.Maker.MakeRun | bsdmake/make.c:965-1015 | The whole program is a run from the expanded graph; if it comes to rest without errors, `numNodes` is 0 exactly if there is no cycle and no silent predecessor |
| MakeStart.ExpandedSafe | bsdmake/make.c:876-941 | The state in which every run begins satisfies the invariants |
| MakeUpdate.FinishKeeps | bsdmake/make.c:467-612 | Telling parents and successors that a node is done keeps all node invariants |
| MakeExamine.DropKeeps | bsdmake/make.c:754-776 | Dropping a blocked node from the queue keeps them: its predecessor will queue it again |
| MakeExamine.PassKeeps | bsdmake/make.c:745-779 | So does passing examination, which a node does after all its children and marked predecessors |
| MakeRuns.RestartJobsKeeps | bsdmake/job.c:3133-3143 | Restarting jobs loses and duplicates none and stays within `maxJobs` |
| MakeSteps.CatchKeeps | bsdmake/job.c:2227-2292 | Every report about a child keeps all invariants |
| MakeSteps.ExamineKeeps | bsdmake/make.c:745-805 | Every round of examination keeps them |
| MakeResults.RunSafety | bsdmake/make.c:547-590 | At any time in any run, failing jobs included: `unmade` is the number of children not yet passed through `Make_Update`; a node is examined at most once, after all its children and when its marked predecessors have left UNMADE; every unfinished job is in exactly one list, `nJobs` is the length of the table and at most `maxJobs`, and the table is full when they are equal |
| MakeResults.NumNodesCounts | bsdmake/make.c:99-102 | `numNodes` is the number of marked nodes not yet examined |
| MakeResults.CompleteIff | bsdmake/make.c:1000-1013 | A run that comes to rest without errors has processed every marked node exactly if the graph has no cycle and no marked predecessor is done but UNMADE |
| MakeResults.OutcomeHolds | bsdmake/make.c:467-612 | A node that is done has the result of the rule applied to the results of its children, whatever jobs ran beside it |
| MakeDated.DatedIff | bsdmake/make.c:162-284 | At any time in any run a done node is up to date exactly if: a .JOIN node has no child, .EXEC ones aside, that was made; another is not forced or .EXEC, its file is as young as every child that counts, and if no child has a time it exists and has no `::`; the times of both kinds are stated |
| MakeErrors.ErrorsIff | bsdmake/job.c:988-1007 | At any time in any run nothing more is started exactly if there has been an error without -k, and the program ends only then and when no job runs any more |
| MakeErrors.IdleSettled | bsdmake/job.c:2404-2424 | Every run begins so |
| MakeErrors.AbortingLooksAway | bsdmake/make.c:741-807 | Then no node is examined any more |
| MakeErrors.EndsIff | bsdmake/job.c:2540-2566 | The main loop is over exactly if no job runs and none waits to go on, or the program is giving up |
| MakeErrors.ReportIff | bsdmake/job.c:749-1007 | The end of a job makes its node unless the program is giving up; its failure changes no node and is counted; a stop is kept for later |
| MakeOrder.LookTakesFirst | bsdmake/make.c:741-807 | When there is room the first node of the queue is taken; it is examined, or, held back by a predecessor, just leaves the queue |
| MakeOrder.UpdateQueues | bsdmake/make.c:467-612 | A node that is done puts its parents behind the queue, then its successors, each in the order of the links |
| MakeOrder.RunMoves | bsdmake/make.c:741-807 | Over any run nodes are examined in the order in which they came to the queue |
| MakeOrder.RestartJobsInOrder | bsdmake/job.c:3132-3143 | Jobs that were held or stopped run again in their order; the first one that cannot keeps its place |
| MakeResults.SchedulesAgree | bsdmake/make.c:965-1015 | Two runs with any limits and reports agree on every node both have done |
| MakeResults.CompleteByGraph | bsdmake/job.c:1850-1860 | On a graph without cycles the run is complete exactly if no marked predecessor is out of date without commands to run, which the graph and its files decide before the run |
| MakeOnce.OnceAlways | bsdmake/job.c:1300-1340 | With any limits, in every run of every graph, the commands of a node are given to a shell at most once |
| MakeOnce.LostIff | bsdmake/job.c:1501-1567 | Some run holds a job (JOB_RESTART), and some run forks a child whose command file is closed already, exactly if `maxLocal` is below `maxJobs` and not 0, which only a REMOTE build can set |
| MakeOnce.LostFails | bsdmake/job.c:1223-1235 | A child without a command file dies before it is a shell: whatever is reported of it, its node has failed |
| MakeOnce.LimitsHoldNothing | bsdmake/main.c:285-290 | With the limits that `-j` and .NOTPARALLEL set, no job is ever held, no child lacks its commands, and none are given twice; `maxLocal` is 0 then exactly for `-j 0` with .NOTPARALLEL |
| MakeLaunch.PollProgress | bsdmake/job.c:2549-2572 | Asking an idle table with stopped jobs gets one going exactly if `maxLocal` is not 0 (it is 0 for `-j 0` with .NOTPARALLEL) |
| MakeOnce.HeldJobIsLost | bsdmake/job.c:1501-1567 | The run for `maxLocal` below `maxJobs`: JOB_RESTART is never cleared, so that a job that was held, started and stopped is started from scratch, and JobExec closed its file the first time |
| CompatNodes.CompatMake | bsdmake/compat.c:366-579 | The depth-first recursion as a function that ends on every finite graph, cyclic ones included: the number of UNMADE nodes never grows |
| CompatNodes.LeftSet | bsdmake/compat.c:379-390 | A node that is entered is one UNMADE node less |
| CompatSafety.CompatGoes | bsdmake/compat.c:366-579 | One call keeps what is final, starts only nodes that were UNMADE, and lets the parent go on only if the child is done and nothing went wrong |
| CompatSafety.RunSafely | bsdmake/compat.c:366-579 | On every graph, with any failures: the commands of a node are started at most once, when each child is MADE, UPTODATE or ABORTED, and none has failed or been aborted since the node was entered; some child has not been made then exactly if one was ABORTED when the node was entered |
| CompatSafety.GivenUpChildrenAreIgnored | bsdmake/compat.c:546-577 | A node whose children were all aborted before it is entered, and which is out of date, has its commands run |
| CompatSafety.MadeInSpiteOfFailure | bsdmake/compat.c:546-577 | With -k this happens: the second parent of an aborted node is made although the node was not |
| CompatErrors.ErrorsIff | bsdmake/compat.c:537-545 | A make stops early exactly if commands have failed without -k, and runs nothing after them |
| CompatErrors.FinishReports | bsdmake/compat.c:391-541 | A node whose commands fail is left in error; with -k its parent is not to be made any more |
| CompatOutcome.MakesAll | bsdmake/compat.c:366-579 | Without cycles and failures all targets and everything below them get done, each with the result of the rule applied to the results of its children |
| CompatOutcome.RulesAgree | bsdmake/compat.c:523-534 | The rule differs from that of the parallel scheduler exactly on nodes out of date without commands, or left older than their youngest child, and on .JOIN nodes up to date that have a file |
| CompatOutcome.ModesAgreeIff | bsdmake/compat.c:523-534 | The two ways of making have the same result on all nodes exactly if no node is one of those |
| MakeDated.DatedHereIff | bsdmake/compat.c:366-541 | The same in a depth-first make without failures; a node that was remade is as young as its file, or the present, and as its youngest child that counts |
| CompatOutcome.MakesAgree | bsdmake/compat.c:366-579 | Then any parallel run and a depth-first make leave every node both have done in the same state |
| CompatProgram.Compat.CompatMake | bsdmake/compat.c:366-579 | The recursion on the shared fields computes the specification |
| CompatProgram.Compat.IsOODate | bsdmake/make.c:162-284 | Decides, and stamps all parents of a node that is up to date |
| CompatProgram.Compat.FinishNode | bsdmake/compat.c:391-541 | What becomes of a node whose children have been made |
| CompatProgram.Compat.AgainNode | bsdmake/compat.c:542-577 | What a node that was reached before tells the parent, a cycle included |
| CompatProgram.Compat.CompatRun | bsdmake/compat.c:656-668 | The loop over the targets |
| SuffSearch.SuffAddLevel | bsdmake/suff.c:1166-1176 | Appends a candidate for every suffix the parent can be made from, and the bare prefix for the null suffix |
| SuffSearch.SuffFindThem | bsdmake/suff.c:1259-1309 | The work queue returns the first candidate that exists in breadth-first order, or gives up when the queue is empty |
| SuffSearch.FoundIsShortest | bsdmake/suff.c:1259-1309 | The candidate exists and ends a chain of transformation rules from a target; no existing candidate ends a shorter one |
| SuffSearch.NotFoundIsComplete | bsdmake/suff.c:1259-1309 | When the search gives up, no chain at all leads to an existing candidate |
| SuffOrder.FoundIsLeast | bsdmake/suff.c:1175-1309 | Of the existing candidates at the ends of shortest chains the one is found whose chain comes first: by where it starts in the list, then rule by rule by their order, the bare prefix before the one with the suffix |
| SuffOrder.SourceIsLeast | bsdmake/suff.c:1954-2041 | So it is for the sources of a name, whose chains start at its targets and have at least one rule |
| SuffOrder.TargetsInOrder | bsdmake/suff.c:1954-2002 | The targets of a name stand in the order of the list of suffixes |
| SuffEnds.LevelsEndIff | bsdmake/suff.c:1259-1309 | The levels of the search run out, after as many as there are suffixes at most, exactly if no candidate leads into a cycle |
| SuffEnds.SearchEndsIff | bsdmake/suff.c:1259-1309 | From any candidates, the search ends exactly if the candidate at the end of some chain exists or no cycle is reached: there is no visited set |
| SuffEnds.NameEndsIff | bsdmake/suff.c:1259-1309 | The search for a name, which is a node itself, ends exactly if some other candidate exists, or a chain of rules returns to the name, or no cycle is reached |
| SuffEnds.BackIff | bsdmake/suff.c:1096-1151 | A chain is back at the name exactly if its last suffix is what the name has behind the prefix, or the name is the bare prefix |
| SuffEnds.TripleNeverEnds | bsdmake/suff.c:1259-1309 | With rules from .c to .o, .y to .c and .c to .y and nothing but the node foo.o the search for foo.o does not end |
| SuffEnds.PairEnds | bsdmake/suff.c:1259-1309 | With rules from .c to .o and .o to .c the search for foo.o ends, at the latest at foo.o |
| SuffEnds.ApartEnds | bsdmake/suff.c:1259-1309 | A cycle of rules that the target does not lead to does no harm |
| SuffSearch.LevelIsChains | bsdmake/suff.c:1096-1151 | The candidates of a level are exactly the ends of chains of that many rules |
| SuffSearch.TargetsSplitName | bsdmake/suff.c:1954-2002 | The targets to start from are exactly the ways to split the name into a prefix and a known suffix |
| SuffSearch.PathTarget | bsdmake/suff.c:2059-2066 | Following the parents of the candidate leads to the target it started from |
| SuffSearch.ChainFromStarts | bsdmake/suff.c:1987-2041 | The search begins with the candidates one rule away from the targets |
| SuffSearch.PathOfName | bsdmake/suff.c:1954-2066 | A path for a name leads up to one of its targets, as many rules away as the candidate is deep; the file is the prefix of that target with the suffix of the source, or bare |
| M4Eval.Word | m4/expr.c:309-353 | Arithmetic wraps around at 32 bits: the result is an int |
| M4Grammar.Reads | m4/expr.c:143-572 | For every level: in front of text that does not go on with an operator of that level or a higher one, the nonterminal reads exactly the expression and leaves the cursor behind it |
| M4Grammar.Spine | m4/expr.c:187-202 | The loops associate to the left: the value of the left operand is what the loop goes on with |
| M4Grammar.ExprIsMeaning | m4/expr.c:143-159 | `expr` returns the value of every expression of the grammar, with any white space and spelling of the operators |
| M4Values.ExprDenotes | m4/expr.c:143-515 | `expr` yields a number exactly for the texts of expressions that denote it, in terms of the integers: sums, differences and products modulo 2^32, quotients that round to zero with their rests, shifts by a product of twos, powers as products of factors, negation and complement modulo 2^32, truth values, digits by their weights |
| M4Values.MeaningIs | m4/expr.c:187-515 | An expression denotes its value and nothing else, and nothing if a division or a shift in it is not defined |
| M4Values.ApplyIs | m4/expr.c:187-353 | Every binary operator, given by its spelling, has exactly the result that is defined for its operands |
| M4Values.CharactersAre | m4/expr.c:493-572 | White space is what lies between the codes 1 and 32; the digits of the two bases |
| M4Errors.Trailing | m4/expr.c:143-159 | Behind an expression only white space may follow; anything else is ill formed |
| M4Errors.MissingColon | m4/expr.c:164-182 | A question mark without its colon is a bad query |
| M4Errors.MissingClose | m4/expr.c:412-427 | A parenthesis that is not closed is a bad factor |
| M4Errors.NoOperand | m4/expr.c:493-515 | Where an operand should begin anything else is a bad constant |
| M4Errors.BadQuotes | m4/expr.c:433-487 | An empty character constant, or one of more than four characters, is illegal; one without an end is read past the buffer |
| M4Chars.ReadsItems | m4/expr.c:443-486 | A character constant of one to four characters, escapes and numbers among them, has the value of its bytes, the first one lowest, and is left behind its closing quote |
| M4Chars.QuotedSplit | m4/expr.c:443-486 | And whatever is read as a constant without an error is one |
| M4Accepts.ParseCovers | m4/expr.c:143-572 | Whatever a nonterminal reads without an error is the text of an expression of its level, with that value |
| M4Accepts.ExprIff | m4/expr.c:143-159 | `expr` yields a value without an error exactly for the texts of expressions whose divisions and shifts are defined, and the value is theirs |
| M4Program.Evaluator.Skipws | m4/expr.c:564-572 | Returns the first character that is not white space, the cursor one behind it |
| M4Program.Evaluator.Query | m4/expr.c:164-182 | Refines the nonterminal: both branches are evaluated |
| M4Program.Evaluator.Lor | m4/expr.c:186-202 | Refines the nonterminal, `|` and `||` alike |
| M4Program.Evaluator.Land | m4/expr.c:206-222 | Refines the nonterminal |
| M4Program.Evaluator.Not | m4/expr.c:226-241 | Refines the nonterminal: `!=` is not a negation, and two characters are put back |
| M4Program.Evaluator.Eqrel | m4/expr.c:246-279 | Refines the nonterminal |
| M4Program.Evaluator.Geteqrel | m4/expr.c:520-559 | Reads a comparison, or nothing, looking up to two characters ahead, one of them behind the end |
| M4Program.Evaluator.Shift | m4/expr.c:284-303 | Refines the nonterminal |
| M4Program.Evaluator.Primary | m4/expr.c:308-325 | Refines the nonterminal |
| M4Program.Evaluator.Term | m4/expr.c:330-353 | Refines the nonterminal |
| M4Program.Evaluator.Exp | m4/expr.c:358-382 | Refines the nonterminal, which associates to the right |
| M4Program.Product | m4/expr.c:372-377 | The loop of the power operator |
| M4Program.Evaluator.Unary | m4/expr.c:387-407 | Refines the nonterminal |
| M4Program.Evaluator.Factor | m4/expr.c:412-427 | Refines the nonterminal |
| M4Program.Evaluator.Characters | m4/expr.c:433-487 | The loop over up to four characters and the one that puts their bytes together compute the specification of character constants |
| M4Program.Evaluator.OneCharacter | m4/expr.c:449-481 | One character, an escape, or a number behind a backslash, octal only behind a 0 |
| M4Program.FromBytes | m4/expr.c:484-487 | The loop from the last byte down to the first |
| M4Program.Evaluator.Num | m4/expr.c:493-515 | Octal digits behind a 0, decimal ones otherwise; an error without digits |
| M4Program.Evaluator.Expr | m4/expr.c:143-159 | The program computes the evaluator on every buffer |
| CondGrammar.ReadsT | bsdmake/cond.c:925-958 | A term in front of anything: its truth value, the stream exactly behind it |
| CondGrammar.ReadsF | bsdmake/cond.c:974-1006 | A factor: its truth value, the stream at the symbol behind it |
| CondGrammar.ReadsE | bsdmake/cond.c:1021-1053 | In front of anything but an operator: the truth value, and the same symbols consumed whether the expression is evaluated or skipped |
| CondGrammar.ConditionMeans | bsdmake/cond.c:1073-1115 | A condition of the grammar is accepted with its truth value |
| CondGrammar.StrayOperandIsAccepted | bsdmake/cond.c:925-958 | Against the comment at line 107, a condition that begins with an operator or a closing parenthesis, behind any number of `!`, is accepted with the value the caller started from |
| CondForms.ReadsForm | bsdmake/cond.c:925-1053 | Every form, well formed or not (strays, errors, open parentheses, text that ends early), is read up to its end with its outcome |
| CondForms.FindForm | bsdmake/cond.c:925-1053 | Every sequence of symbols begins with a form |
| CondForms.AcceptedIff | bsdmake/cond.c:1073-1115 | `Cond_EvalExpression` accepts a sequence of symbols as true or false exactly if it is a form with that truth value, errors in skipped operands included, or begins with one whose outcome is a stray operator or parenthesis, and the value is the one the caller started from |
| CondForms.RegularIsGrammar | bsdmake/cond.c:925-1053 | The forms without anything irregular are the conditions of the grammar, with their values |
| CondNest.StepStands | bsdmake/cond.c:1140-1278 | `condStack`, `skipIfLevel` and `skipLine` go on standing for the full stack of nested conditionals, with its verdicts, on any line; it gives up exactly at a 31st conditional inside 30 that are read |
| CondNest.VerdictIsActive | bsdmake/cond.c:1140-1278 | The verdict tells whether the lines that follow are read |
| CondDocument.ReadIsStack | bsdmake/parse.c:2365-2403 | On every sequence of lines, well nested or not, the reader keeps what the full stack keeps |
| CondDocument.ReadDoc | bsdmake/cond.c:1140-1278 | Of every well-nested document exactly the lines are kept all of whose chains are in their first branch with a true condition, and the state is as before |
| CondDocument.SkipDoc | bsdmake/cond.c:1233-1240 | Skipped text leaves no trace, whatever it is and however deeply it is nested |
| CondDocument.MakefileKept | bsdmake/cond.c:1140-1278 | A whole makefile with well-formed conditions is kept as meant exactly if no more than 30 chains that are read stand inside each other |
| CondProgram.Parser.CondPushBack | bsdmake/cond.c:164-169 | The one slot is filled only when it is empty |
| CondProgram.Parser.CondToken | bsdmake/cond.c:488-905 | The next token, from the slot or the text |
| CondProgram.Parser.CondT | bsdmake/cond.c:925-958 | Refines the nonterminal |
| CondProgram.Parser.CondF | bsdmake/cond.c:974-1006 | Refines the nonterminal |
| CondProgram.Parser.CondE | bsdmake/cond.c:1021-1053 | Refines the nonterminal |
| CondProgram.Parser.Evaluate | bsdmake/cond.c:1073-1115 | Refines `Cond_EvalExpression` |
| CondProgram.FindForm | bsdmake/cond.c:1192-1196 | The first form of the table that the line begins with |
| CondLines.KindIs | bsdmake/cond.c:1151-1216 | Which line is which directive: by the longest of the words if, ifdef, ifndef, ifmake, ifnmake, these behind el, else and endif that the text behind the blanks begins with |
| CondProgram.Conditionals.CondEval | bsdmake/cond.c:1140-1278 | A line of text, with its condition, does to the array and flags what the specification says |
| CondProgram.Conditionals.CondEndif | bsdmake/cond.c:1162-1183 | Refines `.endif` |
| AwkFields.ResplitBySeparator | awk/lib.c:309-325 | With one character as FS and OFS a record put together from fields splits into them again exactly if no field holds the separator or a newline, and there is not just one empty field |
| AwkFields.ResplitByBlanks | awk/lib.c:276-294 | With blanks, exactly if every field is a word |
| AwkSplit.BlanksSplit | awk/lib.c:276-294 | With FS a blank the fields are the words between gaps of blanks, tabs and newlines |
| AwkSplit.SeparatorSplits | awk/lib.c:309-325 | With another character they are the pieces between its occurrences and newlines, and none for an empty record |
| AwkSplit.LettersSplit | awk/lib.c:295-308 | With FS empty they are the characters |
| AwkSplit.ExpressionSplits | awk/lib.c:274-275 | With more than one character for FS the regular expression cuts the record; an empty one has no fields |
| AwkSplit.WriteSeen | awk/tran.c:274-375 | What a program sees of `$i` right behind a write of a text, a number or both, and of a new record |
| AwkSplit.BlanksPieces | awk/lib.c:276-294 | Every record is made of words and gaps |
| AwkSplit.SeparatorCells | awk/lib.c:309-325 | Every record is made of such pieces |
| AwkSplit.FieldWritten | awk/lib.c:361-473 | A field that is written is read back, the others stay, those passed over are empty, and `$0` is put together from all of them |
| AwkSplit.RecordWritten | awk/lib.c:252-345 | A record that is written is read back, and its fields are those of its text |
| AwkSplit.JoinMore | awk/lib.c:446-460 | One field more is one OFS and its text more |
| AwkRecord.Record.Fldbld | awk/lib.c:252-345 | Brings the fields up to date without changing what a program sees |
| AwkRecord.Record.SplitBlanks | awk/lib.c:276-294 | The cells hold the words of the record |
| AwkRecord.Record.SplitLetters | awk/lib.c:295-308 | The cells hold the characters |
| AwkRecord.Record.SplitChunks | awk/lib.c:309-325 | The cells hold the pieces between separators |
| AwkRecord.Record.Cleanfld | awk/lib.c:347-359 | Empties the cells of a range and no others |
| AwkRecord.Record.Newfld | awk/lib.c:361-368 | Pads the fields with empty ones and sets NF |
| AwkRecord.Record.Growfldtab | awk/lib.c:379-390 | More cells, the old ones unchanged |
| AwkRecord.Record.Fieldadr | awk/lib.c:370-377 | A cell for any field number; NF stays |
| AwkRecord.Record.JoinFields | awk/lib.c:446-460 | The fields with OFS between them |
| AwkRecord.Record.Recbld | awk/lib.c:439-473 | Brings `$0` up to date without changing what a program sees |
| AwkRecord.Record.Getsval | awk/tran.c:351-375 | The text of `$0` or of a field, as if everything were up to date |
| AwkRecord.Record.Getfval | awk/tran.c:334-349 | The number of it |
| AwkRecord.Record.Setsval | awk/tran.c:306-332 | As if a write split or put together the record at once |
| AwkRecord.Record.Setfval | awk/tran.c:274-294 | The same for a number |
| AwkRecord.Record.PutBoth | awk/run.c:1065-1069 | The same for a value with a text and a number |
| AwkRecord.Record.Getnf | awk/run.c:427-432 | The number of fields |
| AwkRecord.Record.Getrec | awk/lib.c:144-153 | A new record replaces everything |
| AwkRecord.Record.Refer | awk/run.c:141-157 | A reference brings its own side up to date, so that fields are good when they are written |
| AwkRecord.Record.PerformAll | awk/lib.c:252-473 | Lazy refines eager: any sequence of reads and writes of `$0`, `$i` and reads of NF, and new records, shows what splitting or putting together at every write would show |
| StrMatch.MatchMeans | bsdmake/str.c:281-369 | The matcher accepts a string exactly if it has the meaning of the pattern, two or more stars at the end of the pattern being read as `?*` |
| StrMatch.MatchRight | bsdmake/str.c:281-369 | So it is right about every pattern of the grammar that does not end in two stars |
| StrStars.WrongIff | bsdmake/str.c:281-369 | On a pattern that does it is wrong about exactly the strings that the pieces in front of the stars take as a whole and of which they take no proper beginning |
| StrStars.RightlyIff | bsdmake/str.c:281-369 | A pattern is matched rightly on all strings exactly if it does not end in two stars or has a bracket that lists nothing |
| StrStars.TwoStarsWantMore | bsdmake/str.c:281-369 | `a**` means a, but does not match it |
| StrMatch.MembersRead | bsdmake/str.c:326-349 | A bracket accepts exactly the characters it lists, ranges in either direction, and is left behind its end |
| StrMatch.OpenBracket | bsdmake/str.c:326-349 | A bracket that is not closed takes no character that it does not list, and behind one that it lists the pattern is read past its end |
| StrMatch.SubstitutedIs | bsdmake/str.c:446-467 | The text takes the place of the first `%`, or goes in front where there is none |
| StrMatch.StrMatchLoop | bsdmake/str.c:281-369 | The loop with its recursion at stars computes the specification |
| StrMatch.BracketLoop | bsdmake/str.c:326-346 | The loop over the members of a bracket |
| StrMatch.SysvMatch | bsdmake/str.c:386-432 | What a match finds, put back into the pattern, rebuilds the word; if nothing is found, no text makes the word |
| StrMatch.FindTail | bsdmake/str.c:421-431 | The loop over the tails of the word |
| StrMatch.SysvSubst | bsdmake/str.c:446-467 | The pattern with a text in the place of its `%`, or in front |

## Left out

- The cache of automata in `makedfa`, buffer growth (`adjbuf`, `overflo`, `maxsetvec`), `freetr` and `freefa`: memory only.
- Whether `char` is signed: codes above 127 are taken as they are when `char` is unsigned.
- A pattern that ends in a backslash: `quoted` steps over the terminator, and the model reports an error.
- `sub`, `split` and splitting by a regular expression (`refldbld`), which is a function parameter of the field model: loops like that of `gsub` over the same searches.
- RegexMatch.MatchTopRight: states the answer on calls that follow no wrong entry, because RegexStale.MatchCanBeWrong shows that it can fail otherwise; that it fails on every other call is not so.
- RegexScan.PTopRight: likewise, because of RegexWrong.PmatchCanBeWrong.
- RegexGsub.GsubRight: likewise, and asks that no flush is pending between the searches of one `gsub` unless `^` leads nowhere new at the beginning, because of RegexWrong.GsubCanBeWrong.
- Negative limits (`-j` with a number below 0). Remote jobs, children continued from outside (`bsdmake/job.c:2255-2262`), `.BEGIN`, `.END`, `.INTERRUPT` and interrupts, the modes -n, -t and -q, saved commands, and the path of -B in `JobFinish`: `compatMake` is off in the scheduler.
- `.USE`, `.MADE`, archive and library nodes; the graph is the one that `Suff_FindDeps` has completed.
- The exit on "don't know how to make", messages, and the printing of cycles.
- CompatNodes.CompatMake: `Suff_FindDeps`, variables and the exit status of single commands are not modelled; a node's commands succeed or fail as a whole.
- `SuffFindCmds`, `SuffApplyTransform` and archive members; the counters `children` and `refCount`, which serve to free memory.
- SuffSearch.SuffFindThem: `SuffSuffIsSuffix` is taken as an ending test on the name; the C code reads in front of a name shorter than the suffix.
- M4Eval.Evaluate: shifts by a count outside 0 to 31 and divisions by zero, which C does not define, are errors, and so is a character constant that is not closed, for which the program reads behind its buffer. Overflow of an int wraps around, and `char` is unsigned.
- The atoms of conditions (`defined`, `make`, `exists`, `empty`, `target`, comparisons): each is one symbol with a value when it is evaluated and one when it is not. Lines after a 31st nested conditional, which is a fatal error.
- AwkRecord.Record.Setsval: assignments to NF, which do not rebuild `$0`; the strings and numbers of other variables; whether a cell is also flagged as a number, which only comparisons look at.
- `Str_Match` can read past the end of a pattern whose bracket is not closed; the model returns `Overrun` there (StrMatch.OpenBracket says when). Patterns with `]` at the end of a range, or a minus behind a single character of a bracket, are outside the grammar of StrMatch.MatchMeans.
- bsdmake/hash.c: an ordinary chained table that doubles its buckets; its properties would be those of any map.
- Multi-byte text, floating point rounding (numbers are reals), I/O, the other built-ins of m4, awk's grammar and statements, makefile parsing.
