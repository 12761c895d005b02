# Verified model of the build scripts and the OpenCL binding

This project models the parts of the Mesa tree that carry real state and loops outside the drivers,
and proves what they keep over whole files, whole runs and every interleaving:

- **the source-list compiler** (`scons/source_list.py`, `parse_source_list` in `scons/custom.py`): a
  small Make-subset interpreter. `SourceList` holds its value-level meaning and the parser object;
  `Expansion` the `$(NAME)` expander; `Assignments` what each kind of line does, by its text; `Folding`
  line continuation; `SourceRuns` what holds over runs;
  `WordLists` the interpreter on word lists that it refines, and `PlainLists` its special case where
  references stand alone; `RoundTrip` printing and re-parsing; `SourceFiles` the step from symbol table
  to source paths, `Presets` what whole files yield, and `Paths` what happens to the components of a path;
- **ownership in the OpenCL C++ binding** (`include/CL/cl.hpp`): reference counting (`RefCounts`),
  the fixed-capacity vector and its iterator (`FixedVector`), the buffer-owning string (`OwnedString`);
- **the perf event parser** (`bin/perf-annotate-jit.py`): the event grammar (`PerfScript`), the parser
  object and the listing it prints (`PerfParser`);
- **four smaller pieces**: the spawn lock (`SpawnLock`), the symlink chain (`SymlinkChain`), pkg-config
  flag keys (`PkgFlags`), the `lrint` fallback (`Rounding`).

Objects whose methods update fields are classes; each method is proved against a function on values,
and the theorems are about those functions. Raised exceptions are outcome values. Reading a file,
the pkg-config answers, the allocator, the OpenCL driver, the call-line regular expression and the
map and assembly files are parameters.

## What the proofs found

- Every error-free or failing parse means the same as parsing the file with its continued lines joined
  beforehand; nothing but the symbol table passes from one file to the next.
- On every file the string-based parser computes exactly what an interpreter on lists of words computes,
  where a value is its words and whether it begins and ends with a space; glued references such as
  `-I$(top_srcdir)/include` join the words that touch. Where references stand alone, plain lists of
  words are enough.
- `startswith(top_builddir + '/src')` also matches siblings: `/b/src_gen/a.c` becomes `/b_gen/a.c`. The
  component `src` is dropped as a whole exactly when nothing or a slash follows it.
- The docstring of `source_list.py` lists `=`, `+=` and `:=`; the code also accepts `?=`, and `=`
  expands its right-hand side at once. The model follows the code. A whitespace-only line and a
  trailing `$` raise an index error.
- A printed symbol table parses back to itself if and only if every name and every value is clean and
  free of line breaks. For instance, the value `a`, line break, `b` does not come back.
- Guarded assignment makes every retain and release safe; the bare `Wrapper::operator=` faults exactly
  on self-assignment of the only reference. References are lost exactly when a raw write hits a
  non-null wrapper and when `createKernels` abandons its array.
- Assigning a `cl::string` abandons the buffer it owned; the model counts these buffers exactly.
- `it++` on a `cl::vector` iterator does not move it. A loop from begin() to end() overflows the signed
  index exactly for vectors of more than 2^31-1 elements.
- The perf parser resynchronises at every blank line, but in events of three or more frames it can
  take a deeper frame for a leaf; the exact condition is proved, and so is which files parse at all:
  frames taken for headers may be anything, and behind a hit no map entry is needed. All samples are shown on the listing of
  the module sampled last, whatever module they came from.
- A versioned library name leads to the fully versioned file if and only if no version part it has
  dropped contains a slash and no later source is installed under a name on the way.
- What is merged for a usable module is always what was stored for it exactly for names with an
  upper-case letter that are neither `HAVE` nor start with `HAVE_`. Upper case and "not HAVE" alone are
  not enough: checking `X_Y` puts `HAVE_X_Y` into the environment, which is merged as flag `Y` of a
  module called `HAVE_X`. Names of that kind, and no others, can also hide a module that was found.
- The `lrint` fallback rounds to nearest-even exactly from -1/2 upwards and at the half-way points
  below whose next integer up is even.

## Model

| member | source | states |
|---|---|---|
| SourceList.SourceListParser.constructor | scons/source_list.py:15-23 | a new parser has an empty table, no file, line 1 and no pending continuation |
| SourceList.SourceListParser.Reset | scons/source_list.py:19-23 | only the table survives a reset |
| SourceList.SourceListParser.ExpandValue | scons/source_list.py:42-56 | the cursor loop terminates and yields the left-to-right substitution of the tokenised text, or the error of the first token that fails |
| Expansion.NextDereferenceMeans | scons/source_list.py:28-40 | the search finds the first `$` at or after the cursor and the first `)` behind its `(`; it fails with the index error, the non-variable error or the unterminated error exactly as that first `$` is last, not followed by `(`, or never closed; no `$` gives -1 |
| Expansion.ExpandTurn | scons/source_list.py:46-54 | one turn of the loop copies the text before the next `$` and then accounts for exactly one reference, error or end |
| Expansion.TokenizeLossless | scons/source_list.py:28-56 | tokenising loses nothing: the tokens render to the text and are of the canonical form |
| Expansion.TokenizeRender | scons/source_list.py:28-56 | every canonical token list is the tokenisation of its rendering, so tokenisation is the unique reading of a value |
| Expansion.TokenizeConcat | scons/source_list.py:28-56 | behind well-formed text, tokenisation continues with the tokens of what follows |
| Expansion.ExpandConcat | scons/source_list.py:42-56 | expand(a+b) is expand(a) followed by expand(b) whenever a is well formed, errors included |
| Expansion.SubstituteSucceeds | scons/source_list.py:42-56 | expansion succeeds if and only if every token is plain or refers to a defined name |
| Expansion.ExpandDollarFree | scons/source_list.py:42-56 | over a `$`-free table an expanded value is `$`-free: values are not rescanned |
| Expansion.ExpandIdentity | scons/source_list.py:42-56 | text without `$` expands to itself in every table |
| SourceList.SourceListParser.Define | scons/source_list.py:58-82 | a definition line performs its assignment (overwrite, append with one space, or default), or raises and leaves the table as it was; what the operators written on the line mean is stated in `Assignments` |
| Assignments.AssignLine | scons/source_list.py:58-77 | a line `name := text` or `name = text`, however indented without a tab, puts the expanded text under the name, whatever was there |
| Assignments.AppendLine | scons/source_list.py:78-79 | a line `name += text` appends one blank and the expanded text, and raises the key error with nothing changed if the name is unknown |
| Assignments.DefaultLine | scons/source_list.py:80-82 | a line `name ?= text` assigns the expanded text to an unknown name and leaves a known one alone |
| Assignments.UnexpandableLine | scons/source_list.py:74-82 | a text that does not expand raises its error under every operator, before the name matters |
| Assignments.NoDefinition | scons/source_list.py:60-69 | a line without `=` raises, and so does one that begins with `=` |
| Assignments.OtherLines | scons/source_list.py:100-110 | an empty line and a comment do nothing, white space alone raises the index error, anything else behind a tab is a recipe and raises |
| Assignments.OneLineFile | scons/source_list.py:112-127 | parsing a file of one line, with or without a line end, is executing that line, with the state and the line number reported |
| Assignments.OperatorFiles | scons/source_list.py:58-127 | for every table, clean name and clean value, what parsing the file `name = value`, `name := value`, `name += value` or `name ?= value` leaves |
| SourceList.SourceListParser.Execute | scons/source_list.py:100-110 | a completed line is skipped, raises or performs its definition exactly as the value-level step; a raising line leaves the table alone |
| SourceList.SourceListParser.ParseLine | scons/source_list.py:84-110 | one physical line extends the buffer, or completes it and executes the line, exactly as the value-level step; a raising line changes neither table nor line number |
| SourceList.SourceListParser.Parse | scons/source_list.py:112-127 | a new file is run line by line from a reset state; the same file is skipped; a failure resets everything but the table and reports the logical line |
| SourceList.SourceListParser.AddSymbol | scons/source_list.py:129-130 | one table entry is set and nothing else changes |
| Folding.FoldingPreservesMeaning | scons/source_list.py:84-127 | for every list of lines: same executed definitions, table, line number and error as for the file whose continued groups are joined; the buffer is empty or ends in a space |
| Folding.FoldedFileMeansTheSame | scons/source_list.py:112-127 | the same for a file given as text: rewriting it without continuations changes neither outcome nor state, except that no unfinished group is left over |
| Folding.ContinuedLines | scons/source_list.py:86-98 | written out for two and three lines: the white space around a backslash becomes one blank |
| Folding.RunUnfinished | scons/source_list.py:86-93 | an unfinished group at the end of a file only fills the buffer |
| Folding.StepError | scons/source_list.py:95-110 | a raising line executes nothing and clears the buffer |
| SourceRuns.SessionFolding | scons/source_list.py:19-23 | over any sequence of parses and added symbols, joining the continued lines of every file leaves the final state unchanged: no continuation leaks into the next file |
| SourceRuns.RunReplays | scons/source_list.py:76-82 | the table after a run, failing or not, is the replay of the executed definitions, and every append found its variable defined |
| SourceRuns.ReplayWords | scons/source_list.py:76-82 | the words of a variable are the words of its contributions since its last overwriting assignment, in order; a variable is defined if and only if it has one |
| SourceRuns.RunWords | scons/source_list.py:76-127 | the same for a run over physical lines |
| SourceRuns.CallsFullyExpanded | scons/source_list.py:42-130 | if every added symbol is `$`-free, every value in every reachable state is `$`-free and expands to itself |
| SourceRuns.FailureIsAtomic | scons/source_list.py:119-125 | a failing run is an error-free run of some prefix followed by one line that raises and changes nothing |
| SourceRuns.FailedParse | scons/source_list.py:119-125 | after a failed parse the table is that of the lines before the failing one, and no file counts as parsed |
| SourceRuns.SecondParse | scons/source_list.py:114-127 | after success parsing the same file again is a no-op; after failure it starts afresh |
| Text.WordsAcrossSpace | scons/custom.py:272 | a space between two texts separates their words and adds none |
| Text.WordsUnwords | scons/custom.py:272 | splitting recovers any list of words from its spaced form |
| Text.SplitUnlines | scons/source_list.py:116 | splitting a text into lines undoes joining them |
| Text.SplitUnterminated | scons/source_list.py:116 | a last line without a line end is kept |
| Text.BreakEndsLine | scons/source_list.py:116 | a line feed, a return, and the two together each end exactly one line |
| Text.SpaceCharacters | scons/custom.py:272 | the six characters that count as white space |
| WordLists.ViewConcat | scons/custom.py:272 | words with the two border flags are a homomorphism of concatenation: the last word of one text and the first of the next merge exactly when no space lies between |
| WordLists.ExpansionCommutes | scons/source_list.py:42-56 | for every text and table, the words and borders of an expanded value, or its error, are those of joining, token by token, the views of its characters and of the values referred to |
| WordLists.PhysicalLinesCommute | scons/source_list.py:84-127 | for any view of the table on which single definitions agree with an assignment rule, parsing a file agrees with the interpreter that applies the rule to its joined lines, error included |
| WordLists.ParserRefinesWordLists | scons/source_list.py:58-127 | on every file the parser's table, seen as words with borders, and its error are those of an interpreter that works on such values and on joined lines only |
| PlainLists.StandaloneExpansion | scons/source_list.py:42-56 | when references stand alone as words, splitting an expanded value gives the same words, or the same error, as replacing each reference by its list |
| PlainLists.ListLikeFiles | scons/source_list.py:58-127 | for files whose references stand alone the parser refines the same interpreter on plain lists of words, without borders |
| RoundTrip.PrintedStep | scons/source_list.py:58-110 | a printed `name := value` line with a clean name and a `$`-free, unbroken value assigns exactly that value without its leading spaces, in any table |
| RoundTrip.RoundTripIff | scons/source_list.py:112-127 | the same for the file that holds one printed definition |
| RoundTrip.BreakDoesNotComeBack | scons/source_list.py:112-127 | a value with a line break that is clean otherwise does not come back |
| RoundTrip.TableRoundTrip | scons/source_list.py:112-127 | printing a clean one-line table in any order and parsing the file into a new parser gives exactly that table, without an error |
| RoundTrip.TableRoundTripIff | scons/source_list.py:112-127 | for every table printed in any order, parsing the file into a new parser gives the table back if and only if every name and value is clean and on one line |
| SourceFiles.ConvertValue | scons/custom.py:271-286 | the loop over the words of a value keeps order, relocates build outputs, shortens local paths and drops headers |
| SourceFiles.ConvertSymbols | scons/custom.py:269-288 | one list per requested symbol; the first unknown symbol raises |
| SourceFiles.Concatenate | scons/custom.py:291-296 | the lists of the names are concatenated in the order asked |
| SourceFiles.ParseSourceList | scons/custom.py:239-298 | the whole function: parse errors and unknown names are passed on, no names (or an empty one) gives all lists, names give one list |
| SourceFiles.SourcesOf | scons/custom.py:271-286 | the result holds no header, and exactly the relocated words that are not headers |
| SourceFiles.PositionsIncrease | scons/custom.py:271-286 | the places of the kept words increase strictly and are exactly the places of words that do not relocate to a header |
| SourceFiles.SourcesInOrder | scons/custom.py:271-286 | the result is the relocated words of those places, one for one: order and repetitions are kept |
| SourceFiles.CollectConcat | scons/custom.py:291-296 | asking for two lists of names is asking for each and concatenating, the first failure deciding |
| SourceFiles.FlatAgreesWithPerSymbol | scons/custom.py:288-298 | the flat result agrees with the per-symbol dictionary |
| SourceFiles.SourcesAreContributions | scons/custom.py:239-298 | end to end, the sources of a variable are those of the definitions that contributed to it since its last overwriting assignment, in file order |
| SourceFiles.SourcesFromWordLists | scons/custom.py:239-298 | for every file and for no names, one name or several, the whole function is the word-list interpreter followed by the path rules, errors included |
| Presets.PresetSymbols | scons/custom.py:243-257 | `$(top_srcdir)` stands for the source directory and `$(top_builddir)` for the build directory, with forward slashes, in front of any text: the sources of a one-line file that uses them, for every clean name |
| Presets.FewNames | scons/custom.py:259-266 | no names, an empty name and an empty list ask for the same; one name is a list of one |
| Presets.SeveralNames | scons/custom.py:259-298 | several names give the lists of the per-symbol result one after the other, or the key error of the first that is not there; a parse error is the same for all |
| Presets.RelocateElsewhere | scons/custom.py:275-282 | a path not below the build directory's `src` is made relative to the current directory if it is below that, and stays as it is otherwise |
| Presets.HeaderIff | scons/custom.py:283-285 | exactly the names ending in `.h`, `.hpp` or `.inl` are headers |
| Presets.OneSource | scons/custom.py:239-298 | end to end, for a file with one path: the path, relative to the current directory if below it, or nothing for a header |
| SourceFiles.BuildOutputsMove | scons/custom.py:275-282 | a path that starts with the build directory and `/src` loses exactly those four characters, and then the current directory |
| SourceFiles.SiblingIsRenamed | scons/custom.py:275-279 | a file below the sibling directory `src_gen` of the build directory's `src` gets a different directory name |
| Paths.DropsSrcComponentIff | scons/custom.py:275-278 | the path with `/src` stripped is the original without its component `src` if and only if what follows `/src` is empty or starts with a slash |
| Paths.RelocateDropsSrcIff | scons/custom.py:275-282 | the same for the relocated word, whose components are preceded by those of the current directory where it was made relative to it |
| RefCounts.Session.CopyConstruct | include/CL/cl.hpp:1106-1110 | a copy holds and retains the handle of its source and keeps the accounting |
| RefCounts.Session.AssignFrom | include/CL/cl.hpp:1112-1118 | guarded assignment leaves the target with the handle of the source, one reference less for what it held and one more for what it got, releasing and retaining live handles only, also when both wrappers share one |
| RefCounts.Session.Destruct | include/CL/cl.hpp:1101-1104 | a destroyed wrapper is gone and gives back exactly its reference |
| RefCounts.Session.EnqueueInto | include/CL/cl.hpp:2612-2629 | a successful enqueue stores its handle straight into the event wrapper and loses the reference the wrapper held; a failing one leaves wrapper and counts alone |
| RefCounts.Session.GetInfoInto | include/CL/cl.hpp:760-775 | a queried handle is stored and retained and a reference the wrapper held is lost; a failing query changes nothing and a null answer retains nothing |
| RefCounts.Session.CreateKernelsInto | include/CL/cl.hpp:2521-2538 | the vector gets retained copies and the abandoned array loses one reference per kernel; a failure of either call changes nothing |
| RefCounts.BaseAssignFaultsIff | include/CL/cl.hpp:1112-1118 | the bare assignment releases or retains a dead handle if and only if a wrapper holding the only reference is assigned to itself |
| RefCounts.SelfAssignmentFaults | include/CL/cl.hpp:1112-1118 | the failing case is reachable from program start |
| RefCounts.SharedCount | include/CL/cl.hpp:1112-1118 | two wrappers with the same handle force its count to two or more |
| RefCounts.StepMeans | include/CL/cl.hpp:1089-1135 | every operation that does not fault does to the wrappers what it would do to plain values (copy, assignment, overwriting, removal), and changes the driver's counts by exactly the references taken and given up |
| RefCounts.RunMeans | include/CL/cl.hpp:1089-1135 | over every run the wrappers hold what plain values would |
| RefCounts.StepBalanced | include/CL/cl.hpp:1089-1135 | every operation of the derived classes is fault-free and keeps count = holders + lost, losing only what a raw write overwrites or createKernels abandons |
| RefCounts.RunBalanced | include/CL/cl.hpp:1089-1135 | the same over every run |
| RefCounts.ProgramAccounting | include/CL/cl.hpp:1089-1135 | from program start no run faults, the wrappers hold what plain values would, every handle held is alive, and when all wrappers are gone exactly the lost references remain |
| RefCounts.InvokeLosesNothing | include/CL/cl.hpp:3396-3409 | a kernel functor call, whether its enqueue succeeds or fails, loses no reference and has the effect of constructing one event with the new handle or with none |
| FixedVector.Vector.constructor | include/CL/cl.hpp:440-443 | a new vector is the empty sequence although its size field holds 2^32-1 |
| FixedVector.Vector.Fill | include/CL/cl.hpp:487-494 | the fill constructor keeps the copies that fit |
| FixedVector.Vector.ClearAll | include/CL/cl.hpp:452-456 | clearing gives the empty sequence |
| FixedVector.Vector.PushBackElement | include/CL/cl.hpp:458-465 | an element is appended, or ignored when the vector is full |
| FixedVector.Vector.PopBackElement | include/CL/cl.hpp:467-476 | the last element goes; an empty vector stays empty |
| FixedVector.Vector.StoreElement | include/CL/cl.hpp:543-546 | a write through `operator[]` below the capacity changes exactly that element, or nothing visible behind the end |
| FixedVector.Vector.Assign | include/CL/cl.hpp:553-561 | a range replaces the contents as far as it fits |
| FixedVector.Vector.CopyFrom | include/CL/cl.hpp:496-510 | assignment copies the sequence, also onto itself, and leaves the source alone |
| FixedVector.Vector.Equals | include/CL/cl.hpp:512-523 | comparison is equality of sequences |
| FixedVector.Vector.Perform | include/CL/cl.hpp:432-561 | after any sequence of operations, assignments and element writes included, the vector is the bounded sequence, its empty flag and wrapped size agreeing |
| FixedVector.PushAllTakes | include/CL/cl.hpp:553-561 | pushing a range keeps its first elements up to the capacity |
| FixedVector.PopUndoesPush | include/CL/cl.hpp:458-476 | popping undoes a push if and only if the vector was not full |
| FixedVector.Vector.Begin | include/CL/cl.hpp:583-594 | the iterator holds a snapshot and index 0, or -1 for an empty vector |
| FixedVector.Vector.End | include/CL/cl.hpp:596-606 | the index is the size converted to a signed int, or -1 for an empty vector |
| FixedVector.Iterator.Equals | include/CL/cl.hpp:608-613 | iterators are equal when snapshot, index and initialised flag are |
| FixedVector.Iterator.PostIncrement | include/CL/cl.hpp:625-628 | the postfix form adds its dummy argument, which is 0 |
| FixedVector.Vector.Collect | include/CL/cl.hpp:583-628 | the loop from begin() by prefix increment until end() ends and visits the elements in order, for the empty vector too; the index overflows if and only if there are more than 2^31-1 elements, once 2^31 of them were visited |
| FixedVector.PrefixReachesEnd | include/CL/cl.hpp:583-623 | prefix increments meet end() after exactly size() turns and at no other time |
| FixedVector.PostfixReachesEndIff | include/CL/cl.hpp:625-628 | any number of postfix increments from begin() meets end() if and only if the vector is empty |
| OwnedString.Strings.ConstructFrom | include/CL/cl.hpp:341-353 | the string owns a new buffer with its bytes and a terminator, or nothing if the allocation fails |
| OwnedString.Strings.AssignFrom | include/CL/cl.hpp:368-390 | assignment gives the target its own copy, or nothing for an empty source or a failed allocation, reading allocated memory only |
| OwnedString.Strings.ConstructFromCString | include/CL/cl.hpp:355-366 | the string owns a copy up to the first NUL |
| OwnedString.Strings.CopyConstruct | include/CL/cl.hpp:392-395 | copy construction through assignment is safe although the fields are unset |
| OwnedString.Strings.Destruct | include/CL/cl.hpp:397-402 | the owned buffer, if any, is allocated and is freed |
| OwnedString.Strings.Size | include/CL/cl.hpp:404-405 | size() is the length of the text |
| OwnedString.Strings.CStr | include/CL/cl.hpp:407-407 | c_str() shows the text up to its first NUL, hence the whole text if and only if it has none |
| OwnedString.StepCorrect | include/CL/cl.hpp:331-408 | every operation is safe, keeps buffers exclusively owned, acts on the texts as on plain values, and drops exactly the buffer of an assigned-to string |
| OwnedString.ProgramStrings | include/CL/cl.hpp:331-408 | over every run: no fault, the texts are those plain values would have, and allocated minus freed is owned plus dropped |
| PerfParser.Parser.ReadLine | bin/perf-annotate-jit.py:138-143 | comment lines are skipped, the end of the file is recognised |
| PerfParser.Parser.Consume | bin/perf-annotate-jit.py:77-81 | the lookahead is returned and the remaining lines lose their first |
| PerfParser.Parser.ParseCall | bin/perf-annotate-jit.py:197-228 | one line is consumed; only a first call of the requested symbol with a known start is recorded |
| PerfParser.Parser.ParseCallChain | bin/perf-annotate-jit.py:184-193 | the loop consumes what the event grammar says and keeps the dictionary equal to the recorded samples |
| PerfParser.Parser.ParseEvent | bin/perf-annotate-jit.py:173-182 | a blank header is an assertion failure; otherwise one call chain is parsed |
| PerfParser.Parser.ParseAll | bin/perf-annotate-jit.py:145-150 | on any file the main loop ends with the samples or the error of the event grammar |
| PerfParser.Parser.Report | bin/perf-annotate-jit.py:152-169 | each row shows the samples of an address listed for the first time; the total counts the samples at listed addresses; the final check passes if and only if all recorded addresses are listed, and then the total is the number of samples |
| PerfParser.Annotate | bin/perf-annotate-jit.py:145-171 | the script succeeds if and only if the trace parses, a sample was recorded and every recorded address is listed; it lists the module of the last sample, each row shows the samples of its address, the total is the number of samples, and that is the number from the listed module if and only if all come from it |
| PerfParser.AnnotateBlocks | bin/perf-annotate-jit.py:145-228 | on events with comments anywhere, the total of a successful run is the number of events whose leaf is the symbol if and only if no event has a deeper frame mistaken for a leaf; then the row of an address listed first shows the number of events whose leaf is a call of the symbol at that distance from its start |
| PerfParser.AllFromOneIff | bin/perf-annotate-jit.py:210-228 | the samples from one module are all samples if and only if every sample names it |
| PerfScript.Event | bin/perf-annotate-jit.py:173-182 | a parsed event always consumes at least its header, so the main loop ends |
| PerfScript.CallMeans | bin/perf-annotate-jit.py:197-226 | a matched line is a hit if and only if it names the requested symbol, by its digits if it has no name, and the symbol's start is known; the offset plus the start is the address, and the module is the line's |
| PerfScript.LeafHistogram | bin/perf-annotate-jit.py:184-226 | how often an offset is recorded for leaves is the number of events whose leaf is a call of the symbol at that distance from its start |
| PerfScript.OneEvent | bin/perf-annotate-jit.py:173-193 | one event fails on what it reads, or uses its block up to the blank line, or leaves a shorter block starting at one of its frames |
| PerfScript.BlocksParse | bin/perf-annotate-jit.py:145-193 | on blocks of any lines and any depth, each block is parsed exactly to its blank line, and the samples or the first error are those of the blocks in order |
| PerfScript.BlocksThen | bin/perf-annotate-jit.py:145-193 | behind blocks that end in blank lines parsing goes on with what follows |
| PerfScript.SecondBlankFails | bin/perf-annotate-jit.py:173-182 | a second blank line between events is an assertion failure |
| PerfScript.FileParses | bin/perf-annotate-jit.py:138-193 | the same for every file that is such blocks with comment lines anywhere in between |
| PerfScript.RenderedFileParses | bin/perf-annotate-jit.py:138-193 | the same for the plain rendering of the blocks, of which no line is taken for a comment |
| PerfScript.BlockParsesIff | bin/perf-annotate-jit.py:184-228 | a block parses if and only if each frame read as a leaf is a call, is in the map file if it is the symbol, and is then followed by a call or nothing |
| PerfScript.FileParsesIff | bin/perf-annotate-jit.py:138-228 | a file of events with comments anywhere parses if and only if that holds of every block |
| PerfScript.UnmappedFrame | bin/perf-annotate-jit.py:197-228 | a frame of the symbol missing from the map file is harmless behind a hit and fails as a leaf |
| PerfScript.MalformedFrame | bin/perf-annotate-jit.py:184-204 | a line that is no call fails as a leaf and behind a hit, and not where it is taken for a header |
| PerfScript.HistogramAdds | bin/perf-annotate-jit.py:145-228 | a file parses if and only if its parts do, and its histogram of offsets is then the sum of theirs |
| PerfScript.LeafOnlyIff | bin/perf-annotate-jit.py:184-228 | an event counts as its leaf says if and only if no frame at every second place from the third (after a leaf hit, the fourth) is the symbol; always for at most two frames |
| PerfScript.FileCountsLeavesIff | bin/perf-annotate-jit.py:145-228 | a file's sample count is its number of leaf hits if and only if that holds of every event |
| PerfScript.DeepFrameCounted | bin/perf-annotate-jit.py:184-204 | a three-frame event whose outermost frame is the symbol is counted although its leaf is another, whatever lies in between |
| SpawnLock.MutualExclusion | scons/fixes.py:11-23 | in every interleaving at most one thread is inside the original spawn, which never waits there, and no waiting, returned or failed call holds the lock |
| SpawnLock.SpawnsAreSerial | scons/fixes.py:12-19 | entries into and exits from the original spawn alternate and match |
| SpawnLock.CallsDoNotInterfere | scons/fixes.py:11-23 | the state of a call after any interleaving is what its own actions alone produce |
| SpawnLock.ResultOfCall | scons/fixes.py:11-23 | in every interleaving a call has returned v if and only if its own actions are acquire, spawn, release and, in waiting mode, a wait whose status divided by 256 is v, the spawn having given v otherwise; it has raised if and only if its spawn or its wait raised, after releasing; only the waiting mode is changed for the original function |
| SpawnLock.HolderCanStep | scons/fixes.py:12-19 | whoever holds the lock has an enabled step |
| SpawnLock.StuckOnlyWhenDone | scons/fixes.py:11-23 | a state without enabled steps has every call finished and the lock free |
| SpawnLock.EveryCallCompletes | scons/fixes.py:11-23 | n calls take at most 4n steps, and a run that cannot go on has completed them all |
| SymlinkChain.InstallSharedLibrary | scons/gallium.py:71-82 | the nested loops emit, for the first source, the versioned copy and one link per dropped part, and for the others a plain copy |
| SymlinkChain.ChainDistinct | scons/gallium.py:70-81 | the names of a chain are pairwise distinct |
| SymlinkChain.ChainAt | scons/gallium.py:70-81 | entry k carries the version without its last k parts and links to entry k-1 |
| SymlinkChain.LinkPointsBackIff | scons/gallium.py:47-52 | a link, read in its own directory, names the file before it if and only if the dropped part has no slash |
| SymlinkChain.InstalledResolvesIff | scons/gallium.py:47-82 | with all sources installed, a name of the first source's chain leads to its fully versioned copy if and only if there is no version, or no part it has dropped contains a slash and no later source takes a name on the way |
| SymlinkChain.InstalledResolves | scons/gallium.py:47-82 | without such an obstruction it does so in exactly as many hops as parts were dropped |
| SymlinkChain.InstalledStuck | scons/gallium.py:47-82 | behind an obstruction no number of hops leads there |
| SymlinkChain.LaterSourceTakesName | scons/gallium.py:71-82 | with sources `l` and `l.1` and version 1 the name `l` does not lead to the copy of `l` |
| SymlinkChain.ChainResolves | scons/gallium.py:47-82 | a name that has dropped only slash-free parts resolves to the fully versioned file in exactly as many hops as parts were dropped |
| SymlinkChain.ChainResolvesIff | scons/gallium.py:47-82 | for one source alone a name leads to the fully versioned file in some number of hops if and only if no part it has dropped contains a slash |
| SymlinkChain.ChainStuck | scons/gallium.py:47-82 | a name that has dropped a slashed part resolves to nothing, in any number of hops |
| SymlinkChain.SlashBreaksChain | scons/gallium.py:47-52 | with the single version part `a/b` the link dangles in any number of hops |
| SymlinkChain.InstalledCount | scons/gallium.py:71-82 | len(sources) plus the number of version parts entries are emitted, none for no sources |
| PkgFlags.CheckModules | scons/custom.py:165-207 | a check leaves both availability keys saying whether the module was found, one prefixed key per reported flag, and everything else as it was, in any order of the flags; a flag name with an underscore raises, with the module marked unavailable and only flags without underscore stored |
| PkgFlags.CollectFlags | scons/custom.py:224-229 | the loop over the whole dictionary finds exactly the keys that decode as flags of the module |
| PkgFlags.UseModules | scons/custom.py:209-231 | flags are merged module by module up to the first unknown or unavailable one, which raises; an empty value under the availability key counts as unavailable |
| PkgFlags.UsableIff | scons/custom.py:165-222 | after any checks of names that are not HAVE and do not begin with HAVE_, a module is usable if and only if the last check of its name found it; otherwise using it raises, as unknown if it was never checked and as unavailable if it was |
| PkgFlags.CanHideIff | scons/custom.py:168-222 | the excluded names, and no others, can hide a module that was found |
| PkgFlags.UseYieldsStored | scons/custom.py:185-229 | for a clean name a use yields exactly the flags stored for it, whatever else was checked |
| PkgFlags.ServedIff | scons/custom.py:185-231 | what a usable module has merged is what its checks stored, for every sequence of checks, if and only if the name has an upper-case letter, is not HAVE and does not start with HAVE_ |
| PkgFlags.IntruderIsMerged | scons/custom.py:168-231 | for every other name there are two checks after which the module is usable, nothing was stored for it, and yet a flag with the value true is merged |
| Rounding.Lrint | include/c99_math.h:52-63 | for every argument the result is the nearest integer with ties to even plus 0, 1 or, at unhandled half-way points, 2; so it is nearest-even if and only if the argument is at least -1/2 or half-way with an even integer above it, and lies within three halves of the argument; `lrintf`, `llrint` and `llrintf` are the same code |
| Rounding.LrintDetermined | include/c99_math.h:52-102 | this determines the result for every argument |
| Rounding.NearestEvenUnique | include/c99_math.h:52-63 | nearest with ties to even determines the result |
| Rounding.MinusOneBecomesZero | include/c99_math.h:52-63 | -1 is rounded to 0 |

## Left out

- The drivers, compilers and state trackers under `src/`, and the API and constant headers.
- The rest of the SCons set-up: tool detection, flag lists, code generation.
- The branch of `install_shared_library` for `.dll` targets, which only asks SCons which sources to copy.
- The forwarding methods of `CommandQueue`, `Buffer` and `Image`, except what they do to an event out-parameter.
- References OpenCL objects hold on each other inside the driver; handles are independent.
- `Device` and `Platform` wrappers, whose retain and release do nothing.
- `cl::vector` of wrappers, whose `memcpy` copies bypass retain; elements are plain values compared by `==`.
- `std::vector::assign` in createKernels is destroying the old elements and then copying the new ones.
- What a signed overflow of the iterator index does; `Collect` reports when it happens.
- `os.path.join` with an absolute source name; an entry installed later simply replaces one of the same name.
- Line ends and the line counter of the perf parser; its lines are given without their line ends.
- What `MergeFlags` does with the flags; `UseModules` returns the sets handed to it.
- Opening the map file and the search for the function in the assembly file, which may not end.
- Floating-point rounding of `d + 0.5` and the range of `long`; `Rounding` is over the reals.
