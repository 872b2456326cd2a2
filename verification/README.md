# Verified models of the dispatcher's formats, locks and budgets

The dispatcher hands work to worker processes in git worktrees. Most of its code
starts processes and moves records about; what can go subtly wrong sits in small
text formats, graph walks, one lock and a few budgets. This project models those
parts in Dafny and proves what they promise, on all inputs.

- **Patches** (`CQuoting`, `PatchPrinter`, `PatchReader`, `PatchRoundTrip`, `PatchSet`).
  The composers print byte-exact unified patches ("Diff -u or -U Output Format" in the
  POSIX.1-2008 `diff` utility) with git's `diff --git` lines and quoted names. A reader
  written against that format, not against the composers, takes them apart again and
  applies them.
- **Raw git layout** (`RawLayout`, `NormPaths`, `GitDirs`, `BreadthFirst`, `ObjectStores`,
  `RefChain`). The file system is a finite map. Alternates are a breadth-first walk,
  symbolic references a chain cut off after five hops.
- **Evidence and scope** (`Utf8`, `DiffText`, `Glob`, `Scope`, `Porcelain`). Truncation of
  UTF-8 text (section 3 of RFC 3629), glob patterns and what they denote, the scope
  decision, and the record parser of `git worktree list --porcelain`.
- **Repository lock** (`Locks`, `LockSafety`, `RepositoryLocks`). Many instances in many
  processes, interleaved step by step over the kernel's tables, with crashes; and the lock
  object itself with its `_fd` field.
- **Lifecycle profiles** (`Lifecycle`, `LifecycleProjection`, `Preflight`). Selection, the
  lattice check, projection, composition and the preflight over every reachable phase.
- **Tasks and budgets** (`TaskStates`, `ResumeCalls`, `RunBudget`, `PromptBlocks`,
  `WorkerPrompt`). Traces of any length through the transition table, the calls of several
  processes on one task, the longest run a budget admits, and the longest prompt the
  configured caps admit.
- **Helpers** (`Padding`, `MutationRegistry`, `GateClaims`, over `Text`, `Substrings`,
  `Subsequences`, `Sorting`, `Common`).

Conventions. Byte strings are strings of characters below 256; texts whose length matters in
bytes are kept as their UTF-8 bytes. SHA-256 is an injective constructor. Loops and fields
of the original are loops and fields here, each method proved against a function, and the
properties are lemmas about that function.

Where code and documentation part, the model follows the code:

- `compose_modify` prints an empty file as one empty line, so an empty side of a
  modification cannot be applied; the exact condition is `PatchRoundTrip.ModifyRoundTrip`.
- `_pad_to` is called idempotent; it is, unless the body ends in the marker less its last
  newline (`Padding.HistoryIndependentIff`).
- `validate_registry` counts anchors in newline-translated text, `execute_mutations` replaces
  in the raw text; on files with carriage returns the two differ
  (`MutationRegistry.MutantDiffersIff`).
- The check "the preamble sits immediately before the first projected block" says this only
  together with the check of the section order (`GateClaims.TogetherImmediate`).
- A pattern is said to match whole paths; Python's dollar sign and dot treat newlines
  specially (`Glob.MatcherAgreesIff`).

Three things a reader of single functions would not see. A resume that fails before its
worker exists leaves the task in RESUME_REQUESTED, as tests/integration/test_resume_gate7_security.py
expects (lines 49 to 53); the table of `models.py` knows ways on from there, and the calls take
one only when a review that has given its lock back records its failure late
(`ResumeCalls.AbandonedStays`, `ResumeCalls.ReviewLosesRequest`). The cap therefore bounds the
requests up to the ones lost so, and the runs while no such failure writes an older record back
(`ResumeCalls.FreshCallsAreCapped`, `ResumeCalls.LateSaveTakesBack`). And the load-time sum of
the context caps counts neither the separators nor the lifecycle text (`config.py` calls its
last term a reserve and leaves the decision to measuring the final prompt);
`WorkerPrompt.WholeReserveIff` says when the sum is enough.

`dafny verify dfyconfig.toml` checks the whole project.

## Model

| member | source | states |
|---|---|---|
| CQuoting.CQuote | probes/z5/probe4_apply_check.py:14-25 | the byte loop with its quote-needed flag yields the quoted form, for every byte string |
| CQuoting.CQuoteRoundTrip | probes/z5/probe4_apply_check.py:14-25 | a decoder chosen by the first character gives back every byte string, quoted or not |
| CQuoting.CQuoteInjective | probes/z5/probe4_apply_check.py:14-25 | two paths never share a quoted form |
| CQuoting.CQuoteClean | probes/z5/probe4_apply_check.py:14-25 | the output holds no newline, no tab, no other byte below 0x20 and none from 0x80 up |
| CQuoting.HdrPathRoundTrip | probes/z5/probe4_apply_check.py:27-33 | a header token with the prefix inside the quotes decodes to prefix plus path |
| CQuoting.HdrPathClean | probes/z5/probe4_apply_check.py:27-33 | such a token is as clean as the quoted path |
| CQuoting.RawHdrPathRoundTripIff | probes/z5/probe4_apply_check.py:27-33 | with quoting switched off the token still decodes exactly when the path does not start with a quote character |
| PatchPrinter.ComposeNewFile | probes/z5/probe4_apply_check.py:35-59 | the loops print the section of the specification for both styles of empty file, with and without quoting |
| PatchPrinter.ComposeModify | probes/z5/probe4_apply_check.py:61-83 | the loops print the single whole-file hunk with its no-newline markers |
| PatchPrinter.ComposeNew | probes/z5/probe4b_apply_real.py:24-40 | the same with the optional tab after the name |
| PatchPrinter.EmptyForms | probes/z5/probe4_apply_check.py:35-59 | of an empty file one form stops after the mode, the explicit one goes on with both names and an empty range |
| PatchPrinter.ContentForms | probes/z5/probe4b_apply_real.py:24-40 | of a file with content the tab comes right behind the new name, and is all that tells the forms apart |
| PatchRoundTrip.PatchRoundTrip | probes/z5/probe4_apply_check.py:35-83 | any concatenation of sections reads back, by an independent reader that trusts only the range counts, as the list it was made from, whatever the content lines look like |
| PatchRoundTrip.NewFileRoundTrip | probes/z5/probe4_apply_check.py:35-59 | reading and applying a new-file patch yields path, mode and content, for every content including the empty one and missing final newlines |
| PatchRoundTrip.ModifyRoundTrip | probes/z5/probe4_apply_check.py:61-83 | applied to old the patch gives new if and only if old is not empty; reversed, new gives old if and only if new is not empty |
| PatchRoundTrip.RawSectionIff | probes/z5/probe4_apply_check.py:27-83 | with quoting switched off a section reads back if and only if the path does not start with a quote, holds no newline, and holds no tab unless the section has no name lines |
| PatchRoundTrip.ConcatFileLines | probes/z5/probe4_apply_check.py:46-58 | the lines a section stands for concatenate to the content |
| PatchSet.ComposeAll | probes/z5/probe4_apply_check.py:204-211 | the sorted and joined sections |
| PatchSet.SortedPatchRoundTrip | probes/z5/probe4_apply_check.py:204-211 | the sorted patch reads back as all changes in raw-byte order, and for distinct paths its bytes do not depend on the order given |
| Sorting.SortByCanonical | probes/z5/probe4_apply_check.py:210 | sorting by distinct keys forgets the order of the input |
| NormPaths.NormIdempotent | probes/z7/rawadmin.py:57 | normalising a path twice is normalising it once, for every path, so the seen keys of the walk are canonical |
| NormPaths.LeadingSlashes | probes/z7/rawadmin.py:57 | of the slashes a path starts with two are kept, and more are one |
| GitDirs.NormAbsolute | probes/z7/rawadmin.py:57 | a rooted path of components, climbs and components loses one component for every climb and gains the rest |
| GitDirs.RefusedIff | probes/z7/rawadmin.py:38-54 | the three refusals of resolve_dotgit, each if and only if: nothing there, no prefix, only white space on the line |
| GitDirs.DirectoryIsOwn | probes/z7/rawadmin.py:40-42 | a worktree whose .git is a directory is resolved to that directory |
| GitDirs.GitFileRoundTrip | probes/z7/rawadmin.py:38-57 | a gitfile leads where its first line points, trailing white space and further lines aside: an absolute value stands, a relative one starts from the worktree |
| GitDirs.CommonDirRoundTrip | probes/z7/rawadmin.py:59-67 | the same for commondir from the administrative directory, which is its own shared one without the file |
| GitDirs.LinkedCommonDir | probes/z7/rawadmin.py:59-67 | with the value git writes, commondir leads from a linked worktree to the shared directory two levels up |
| ObjectStores.ResolveObjectStores | probes/z7/rawadmin.py:70-101 | terminates on every file system; primary store first, no store twice, exactly the reflexive-transitive closure, every other entry listed by a file of an earlier one, entries at non-decreasing true hop distance, in the order of first mention |
| ObjectStores.SuccessorsVia | probes/z7/rawadmin.py:85-100 | every listed store records the very file that lists it |
| ObjectStores.AlternatesRoundTrip | probes/z7/rawadmin.py:92-100 | a written alternates file with remarks and blank lines lists exactly the stores written into it, in order, with the file that lists them |
| ObjectStores.AlternatesLead | probes/z7/rawadmin.py:85-100 | a store leads to exactly the places written into its two files, in order, ordinary ones first: an absolute one as it stands, a relative one from that store, climbs and all; an absent file lists nothing |
| ObjectStores.PrimaryStore | probes/z7/rawadmin.py:75-76 | the primary store is the objects directory below the shared one |
| BreadthFirst.DistanceMinimal | probes/z7/rawadmin.py:70-101 | the hop distance used above is a minimum and unique |
| BreadthFirst.WalkComplete | probes/z7/rawadmin.py:76-101 | when the queue is empty the visited stores are the closure, breadth first |
| RefChain.ResolveRef | probes/z7/rawadmin.py:104-126 | the recursive resolver with its packed-refs loop computes the bounded chain |
| RefChain.ScanPacked | probes/z7/rawadmin.py:117-125 | the loop over packed-refs, with its skips and its decoding errors |
| RefChain.BoundedRefinesChain | probes/z7/rawadmin.py:104-115 | every chain ends or is endless; bounded resolution gives the value of the whole chain when it ends within five hops, and nothing for a longer or an endless one |
| RefChain.FoundIff | probes/z7/rawadmin.py:104-115 | a value is returned if and only if the chain ends with it within five hops |
| RefChain.EndlessIffRepeats | probes/z7/rawadmin.py:104-115 | in a finite file system a chain is endless if and only if some name comes back |
| RefChain.PackedIrrelevant | probes/z7/rawadmin.py:111-126 | with a loose file behind every name reached, packed-refs may hold anything or be missing |
| RefChain.PackedDecides | probes/z7/rawadmin.py:116-126 | without a loose file behind the last name, packed-refs alone decides |
| RefChain.PackedRoundTrip | probes/z7/rawadmin.py:117-125 | a lookup in a written packed-refs file, with headers, peeled and stray lines, finds the first entry of the name, unless an entry before it is not UTF-8 |
| RefChain.LooseThenPacked | probes/z7/rawadmin.py:107-125 | a private name is looked up in the own directory, any other in the shared one; an object name there, white space aside, is the value, a symbolic line is one hop, and without a file the first packed entry decides |
| RefChain.SymbolicFile | probes/z7/rawadmin.py:112-114 | a first line that starts with ref: is one hop to the name behind it, white space aside, or a decoding error |
| RefChain.ObjectFile | probes/z7/rawadmin.py:112-115 | any other first line is the value, with replacement characters for bytes beyond ASCII |
| RefChain.HeadOfBranch | probes/z7/rawadmin.py:107-125 | HEAD is read in the own directory and its branch in the shared one: the loose object name there wins, else packed-refs |
| RefChain.SharedNamesAgree | probes/z7/rawadmin.py:107-110 | worktrees of one repository agree on every name none of whose chain is private to a worktree |
| Utf8.DecodeEncode | src/sol_claude_dispatcher/git.py:888-892 | decoding, strict or ignoring errors, undoes UTF-8 encoding |
| Utf8.DecodableIff | probes/z7/rawadmin.py:114 | the strict decoder accepts exactly the encodings of texts without surrogates |
| DiffText.TruncationIsLongestPrefix | src/sol_claude_dispatcher/git.py:886-894 | the kept text is the longest code-point prefix whose encoding fits, at most three bytes short; truncated exactly when the full encoding is larger; the size recorded is the full one |
| DiffText.TruncationWithSurrogates | src/sol_claude_dispatcher/git.py:886-894 | lone surrogates survive an untruncated text and are question marks in a truncated one |
| Glob.TranslateGlob | src/sol_claude_dispatcher/git.py:1035-1052 | the index loop computes the translation |
| Glob.MatchIsMeaning | src/sol_claude_dispatcher/git.py:1028-1056 | for every pattern and path without newline, the generated regex matches exactly when the path can be cut into pieces the pattern elements stand for |
| Glob.MatcherAgreesIff | src/sol_claude_dispatcher/git.py:1028-1056 | on a path all patterns mean what they say if and only if it holds no newline |
| Glob.NewlineSlipsThrough | src/sol_claude_dispatcher/git.py:1052-1056 | a concrete pattern and path where the dollar sign accepts a final newline |
| Glob.LongRunsMatchAlike | src/sol_claude_dispatcher/git.py:1039-1042 | any run of two or more stars, anywhere in a pattern, matches the same paths as two |
| Glob.TranslateAppendIff | src/sol_claude_dispatcher/git.py:1037-1051 | translation distributes over concatenation if and only if no odd trailing star run meets a leading star |
| Scope.PathLinesLackNewlines | src/sol_claude_dispatcher/git.py:867-869 | listed paths are non-empty and hold no newline |
| Scope.ListingRoundTrip | src/sol_claude_dispatcher/git.py:867-869 | a listing with every path on a line of its own reads back as its paths |
| Scope.MergePaths | src/sol_claude_dispatcher/git.py:873-876 | the merge loop keeps first occurrences |
| Common.FirstSeenSpec | src/sol_claude_dispatcher/git.py:873-876 | keeping first occurrences yields every element once, ordered by first occurrence |
| Scope.CheckScope | src/sol_claude_dispatcher/git.py:1059-1080 | the loop computes the scope decision |
| Scope.VerdictSplits | src/sol_claude_dispatcher/git.py:1059-1080 | paths split, counted with repetition, into forbidden, out of scope and accepted, forbidden winning; valid exactly when all are accepted |
| Scope.VerdictOfListings | src/sol_claude_dispatcher/git.py:867-876 | from two printed listings: valid exactly when every tracked and every untracked path is accepted, and forbidden are exactly the listed paths a forbidden pattern matches |
| Scope.VerdictIgnoresOrder | src/sol_claude_dispatcher/git.py:1059-1080 | order and repetition of the paths do not matter |
| Scope.ForbiddingIsMonotone | src/sol_claude_dispatcher/git.py:1059-1080 | more forbidden patterns never make an invalid decision valid |
| Scope.AllowingIsMonotone | src/sol_claude_dispatcher/git.py:1059-1080 | more allowed patterns never make a valid decision invalid, if there was one before |
| Scope.AcceptedMeans | src/sol_claude_dispatcher/git.py:1055-1074 | acceptance of a newline-free path in terms of what the patterns denote |
| Porcelain.WorktreeRecords | src/sol_claude_dispatcher/git.py:618-640 | the pass with its mutable current record computes the parse |
| Porcelain.StrayLines | src/sol_claude_dispatcher/git.py:630-639 | white space ends a record, and what follows is dropped until a line opens one |
| Porcelain.ParsedHavePaths | src/sol_claude_dispatcher/git.py:630-640 | every record parsed from any text has a path, so the later lookup cannot fail |
| Porcelain.PorcelainRoundTrip | src/sol_claude_dispatcher/git.py:618-640 | parsing undoes printing, record by record, for every list of worktrees whose paths and values hold no newline |
| Porcelain.RecordMeaning | src/sol_claude_dispatcher/git.py:635-639 | a record holds the stripped path and, of every other key, the last value printed in its own block |
| Porcelain.PathRecoveredIff | src/sol_claude_dispatcher/git.py:637 | the printed path is recovered if and only if strip leaves it alone |
| Porcelain.NewlineIsAttribute | src/sol_claude_dispatcher/git.py:630-639 | the rest of a path after a newline is read as an attribute of the record |
| Porcelain.PathComesBackIff | src/sol_claude_dispatcher/git.py:630-639 | for every path, with or without newlines: it comes back from its printed record if and only if it holds no newline and strip leaves it alone |
| Porcelain.ResolveWorktree | src/sol_claude_dispatcher/git.py:643-684 | the search over parsed records |
| Porcelain.FinalComponentIs | src/sol_claude_dispatcher/git.py:661 | the name of a path is its last component, whatever slashes and dots follow |
| Porcelain.ResolvePrinted | src/sol_claude_dispatcher/git.py:643-684 | on a printed list the first worktree with the name answers from its own attributes: its own 40-hex HEAD or a refusal, never a neighbour's; none is reported exactly when no worktree has the name |
| Locks.StepKeeps | src/sol_claude_dispatcher/locks.py:98-167 | each step of constructing, opening, taking, failing, releasing, closing or crashing keeps the invariant |
| Locks.EveryRunKeeps | src/sol_claude_dispatcher/locks.py:98-167 | so does every interleaved run from the start |
| LockSafety.MutualExclusion | src/sol_claude_dispatcher/locks.py:98-167 | on every run two instances of one lock path are never both in possession, and a set _fd names a description that holds the exclusive lock |
| LockSafety.NothingLeaks | src/sol_claude_dispatcher/locks.py:112-128 | on every run the open descriptors are exactly those of instances inside a call or holding |
| LockSafety.BusyIsReal | src/sol_claude_dispatcher/locks.py:114-128 | a would-block refusal means another instance of the same lock has it or is closing |
| LockSafety.FreeIsTaken | src/sol_claude_dispatcher/locks.py:114-120 | with nobody against it an opened instance can take the lock |
| LockSafety.CrashFrees | src/sol_claude_dispatcher/locks.py:98-167 | the end of a process gives its locks back, so a waiting instance can go on |
| LockSafety.BusyRestores | src/sol_claude_dispatcher/locks.py:109-128 | open, refusal and close leave the whole state as it was |
| LockSafety.ReleaseUndoesAcquire | src/sol_claude_dispatcher/locks.py:98-167 | release undoes acquire, even when the explicit unlock fails; only the lock file name stays |
| LockSafety.AliasesShare | src/sol_claude_dispatcher/locks.py:55-96 | on every run two instances share a lock if and only if their spellings resolved to one root and to one locks directory, each at its construction; then they are never both in possession |
| LockSafety.SpellingsShare | src/sol_claude_dispatcher/locks.py:55-96 | on every run, if the links lead two spellings to their roots and directories, the instances share a lock exactly when those are equal, and then are never both in possession |
| LockSafety.ErrorRestores | src/sol_claude_dispatcher/locks.py:106-138 | any other error of the lock call leaves at most the name of the lock file behind |
| LockSafety.PathSettled | src/sol_claude_dispatcher/locks.py:85-96 | the lock path of an instance is settled at construction, however links move later |
| LockSafety.NamesStay | src/sol_claude_dispatcher/locks.py:151-167 | no step takes the name of a lock file away |
| LockSafety.UnlinkBreaksExclusion | src/sol_claude_dispatcher/locks.py:151-156 | were the file unlinked in a reachable state, two instances could hold one lock: a concrete run |
| LockSafety.DirectoriesDoNotExclude | src/sol_claude_dispatcher/locks.py:94-96 | two locks directories do not exclude each other on one root: a concrete reachable state |
| RepositoryLocks.RepositoryLock.constructor | src/sol_claude_dispatcher/locks.py:85-92 | wherever the links lead the root and the locks directory, the lock path is that of those two, resolved once |
| RepositoryLocks.RepositoryLock.Acquire | src/sol_claude_dispatcher/locks.py:98-138 | non-blocking acquire on the _fd field: idempotent when held; busy exactly when the lock is taken or flock fails otherwise, and then no descriptor is left; otherwise the kernel state after open and take |
| RepositoryLocks.RepositoryLock.Release | src/sol_claude_dispatcher/locks.py:151-167 | release clears _fd, closes exactly that descriptor and frees the lock, whether or not the unlock succeeds; idempotent |
| RepositoryLocks.FlockWithTimeout | src/sol_claude_dispatcher/locks.py:140-149 | the retry loop succeeds if and only if an attempt succeeds with all before it refused ahead of the deadline; a refusal is reported only at or after the deadline |
| Lifecycle.Validate | src/sol_claude_dispatcher/lifecycle.py:499-559 | a manifest is accepted if and only if it meets every condition (distinct artifact ids of lines 414-418 included), and a refusal names one it breaks |
| Lifecycle.AcceptedIsUnique | src/sol_claude_dispatcher/lifecycle.py:499-516 | with an accepted manifest nothing is selected twice, an id names one artifact, and the id of a profile tells its phase |
| Lifecycle.ValidateReferences | src/sol_claude_dispatcher/lifecycle.py:506-516 | accepted exactly when no profile names an unknown artifact for any input |
| Lifecycle.ValidateLattice | src/sol_claude_dispatcher/lifecycle.py:518-559 | the three nested loops accept exactly when validation-only is within correction and review is empty, for every kind, complexity and risk |
| Lifecycle.SelectedMeans | src/sol_claude_dispatcher/lifecycle.py:479-496 | an artifact is selected exactly when the manifest has it and some selector of the profile names it |
| Lifecycle.SelectedInOrder | src/sol_claude_dispatcher/lifecycle.py:492-496 | the selection follows the order of the manifest |
| Lifecycle.ValidationIsSubsequence | src/sol_claude_dispatcher/lifecycle.py:521-547 | what validation-only carries is what correction carries with some left out, in order |
| Lifecycle.ReviewNamesNothing | src/sol_claude_dispatcher/lifecycle.py:548-559 | the review profile of an accepted manifest names no artifact in any selector |
| LifecycleProjection.Project | src/sol_claude_dispatcher/lifecycle.py:696-788 | the loops, remembering verified sources, compute what checking every source afresh computes, errors included |
| LifecycleProjection.ProjectionCarries | src/sol_claude_dispatcher/lifecycle.py:711-788 | a projection holds, for each selected artifact in turn, the inert text of its reviewed file, two newlines apart, and the distinct source ids in first-seen order |
| LifecycleProjection.ProjectsIff | src/sol_claude_dispatcher/lifecycle.py:714-773 | projecting succeeds if and only if every selected artifact and its sources are as reviewed |
| LifecycleProjection.RefusalNamesFirst | src/sol_claude_dispatcher/lifecycle.py:714-773 | a refusal is about the first selected artifact that is not as reviewed and names the first check it fails |
| LifecycleProjection.VerifySources | src/sol_claude_dispatcher/lifecycle.py:716-736 | the inner loop: each distinct source read once, each source id kept once in first-seen order |
| LifecycleProjection.ProjectedIsReviewed | src/sol_claude_dispatcher/lifecycle.py:714-773 | nothing is projected unless its bytes, length, sources and deny patterns are as reviewed |
| LifecycleProjection.ManifestPinsProjection | src/sol_claude_dispatcher/lifecycle.py:714-788 | two source trees that both project under one manifest project the same |
| LifecycleProjection.ValidationProjects | src/sol_claude_dispatcher/lifecycle.py:521-547 | with an accepted manifest, where correction projects so does validation-only, to a text no longer |
| LifecycleProjection.ReviewProjectsNothing | src/sol_claude_dispatcher/lifecycle.py:548-559 | a review projection always succeeds and is empty |
| LifecycleProjection.ComposeInStages | src/sol_claude_dispatcher/lifecycle.py:791-795 | composing in stages is composing at once, and empty blocks leave no trace |
| LifecycleProjection.ComposeLength | src/sol_claude_dispatcher/lifecycle.py:791-795 | the composed length: all blocks plus one separator between non-empty neighbours |
| LifecycleProjection.ComposeMonotone | src/sol_claude_dispatcher/lifecycle.py:791-795 | a shorter block never lengthens a composition, even by disappearing |
| Preflight.Evaluate | src/sol_claude_dispatcher/lifecycle.py:835-943 | one measured row for every reachable phase, or an error about these inputs, scalar arguments included |
| Preflight.FinalPromptIs | src/sol_claude_dispatcher/lifecycle.py:882-910 | what is measured is the authored text, the projection and the guidance in this order, empty ones left out, and its exact length |
| Preflight.PreflightLifecycle | src/sol_claude_dispatcher/lifecycle.py:946-977 | returns if and only if the inputs are valid and every reachable phase fits; a refusal is about the first reachable phase that does not, by guidance, review, transport precedence |
| Preflight.AllowedRunsFit | src/sol_claude_dispatcher/lifecycle.py:798-832 | after a returned preflight every run the cap allows finds (for_phase, lines 190-194) a feasible row for its phase, measuring exactly the prompt of that phase within the ceiling; a resume without cap finds none |
| Preflight.FeasibilityIsMonotone | src/sol_claude_dispatcher/lifecycle.py:882-910 | with an accepted manifest and equal surroundings, where correction fits so does validation-only |
| Preflight.NeverBlamesValidation | src/sol_claude_dispatcher/lifecycle.py:951-954 | so preflight never refuses on account of validation-only |
| TaskStates.RunsAreRequested | src/sol_claude_dispatcher/models.py:269-310 | on every trace runs never exceed routings plus requested resumes, and there is at most one routing |
| TaskStates.ResumeBetweenRuns | src/sol_claude_dispatcher/models.py:258-261 | any two runs are separated by a requested resume, right before the later one |
| TaskStates.TerminalMeansDone | src/sol_claude_dispatcher/models.py:250 | of the table: the terminal states are exactly those without successors; reaching one ends a trace, and every trace can be continued to REVIEW_COMPLETE |
| TaskStates.RunsAreCapped | src/sol_claude_dispatcher/sessions.py:92-172 | with the cap and the session consulted at each request, resume_count counts the runs beyond the dispatch and never passes the cap: at most 1 + cap runs |
| TaskStates.FirstRunIsDispatched | src/sol_claude_dispatcher/sessions.py:115-156 | with the cap and the stored session consulted at every request, the first run of a task is the one it was routed to, and every request comes after it |
| TaskStates.RequestsAccounted | src/sol_claude_dispatcher/models.py:296 | every requested resume is a run, was lost to FAILED, or is pending |
| TaskStates.RequestsAreCapped | src/sol_claude_dispatcher/sessions.py:92-172 | the requests exceed the cap by the lost ones at most; with none lost they are at most the cap, and exactly the resumes run and the one pending |
| TaskStates.LaunchedLosesNone | src/sol_claude_dispatcher/models.py:296 | none is lost if and only if RESUME_REQUESTED is left for RUNNING alone |
| ResumeCalls.HistoryIsTrace | src/sol_claude_dispatcher/server.py:1812-2057 | however dispatch, resume and review calls interleave, fail late and crash, the stored history follows the table |
| ResumeCalls.RequestsLostOnlySo | src/sol_claude_dispatcher/server.py:4296-4335 | on runs without an overtaken late failure the lost requests are exactly the failures of children whose RUNNING could not be stored and the late failures of reviews; the requests are left for RUNNING alone if and only if there were none |
| ResumeCalls.ReviewLosesRequest | src/sol_claude_dispatcher/server.py:2366-2369 | a waiting task with any history can lose a request to a review that gave its lock back before its failure was recorded, with every child stored and nothing stale or overtaken |
| ResumeCalls.LateSaveTakesBack | src/sol_claude_dispatcher/server.py:4333-4335 | the late failure of a review saves the record it has read, so RUNNING and the count of a resume in between are gone while its child lives |
| ResumeCalls.AbandonedStays | src/sol_claude_dispatcher/server.py:4298-4313 | a request whose call ended without a child, with no review and no late failure under way, stays RESUME_REQUESTED on every later run of calls, resume count included |
| ResumeCalls.FreshCallsAreCapped | src/sol_claude_dispatcher/server.py:1812-2010 | if no count moves between a plan and its lock and no late failure is overtaken, interleaved calls keep to 1 + cap runs, and to cap requests and one more for every lost one |
| ResumeCalls.CapIsReached | src/sol_claude_dispatcher/server.py:1812-2010 | for every number up to the cap some run, with fresh plans and nothing lost or overtaken, makes as many resumes and one more run |
| ResumeCalls.UnstoredLosesRequest | src/sol_claude_dispatcher/server.py:2003-2010 | a waiting task loses a request when the child of its resume cannot be stored as running and fails |
| RunBudget.AcceptedRunsFit | src/sol_claude_dispatcher/config.py:788-824 | for an accepted configuration required_tool_timeout_seconds never raises, and every run of every envelope within the budget ends in that time |
| RunBudget.RunFitsTimeout | src/sol_claude_dispatcher/config.py:206-249 | the worst case by the number of commands: ten seconds less for each command below 32 |
| RunBudget.CeilingIsExact | src/sol_claude_dispatcher/config.py:236-249 | a budget keeps all runs within 10,800 seconds if and only if it does not exceed 8,955 |
| RunBudget.ValidateIff | src/sol_claude_dispatcher/config.py:632-720 | loading refuses for three reasons and no other: the contexts exceed the argument, some run within the budget exceeds the transport, or some worker alone exceeds the budget |
| RunBudget.RequiredIff | src/sol_claude_dispatcher/config.py:812-824 | the tool timeout asked for is 1,845 seconds more than the budget, and only an unsafe budget has none |
| RunBudget.ExcessMeans | src/sol_claude_dispatcher/validation.py:619-636 | the worker time counted is the longest the envelope and the configuration both allow, unless a resume brings its own; the excess is the least extension of the budget that carries the call |
| PromptBlocks.SortMovesNothing | src/sol_claude_dispatcher/worker_context.py:412-495 | the blocks are built in section order already, so the final sort is the identity |
| PromptBlocks.SectionsInOrder | src/sol_claude_dispatcher/worker_context.py:105-117 | the emitted sections are a subsequence of SECTION_ORDER, and the preamble stands immediately before the projected ones whenever there are any |
| WorkerPrompt.SkillsWeigh | src/sol_claude_dispatcher/skills.py:945-947 | core and contextual skills together are as long as what the skill cap measures, with the separator between them counted |
| WorkerPrompt.PromptSays | src/sol_claude_dispatcher/worker_context.py:403-510 | what the system prompt says, in order: policy, preamble, core skills, other skills, root guidance, other guidance, clause, each present exactly under its condition |
| WorkerPrompt.SkillSays | src/sol_claude_dispatcher/skills.py:648-663 | a skill is rendered between its two delimiters, its supporting files between theirs, bodies without the newlines at their ends |
| WorkerPrompt.GuidanceWeighs | src/sol_claude_dispatcher/project_guidance.py:1488-1493 | the guidance blocks are as long as what the guidance cap measures, with no separator counted |
| WorkerPrompt.PromptLength | src/sol_claude_dispatcher/worker_context.py:226-232 | the exact length of the system prompt in terms of what the caps measure and the separators they do not |
| WorkerPrompt.FinalLength | src/sol_claude_dispatcher/server.py:1645-1649 | the lifecycle text adds itself and, beside a non-empty prompt, one separator |
| WorkerPrompt.TaskPromptIsApart | src/sol_claude_dispatcher/worker_context.py:226-232 | the system prompt does not depend on the task prompt, in which the measured context and the sent one differ |
| WorkerPrompt.MeasuredIsSent | src/sol_claude_dispatcher/server.py:1618-1649 | after a returned preflight what is sent, the context of a review alone or a context with the lifecycle text of its phase, has the size in the row of its phase and keeps to the ceiling |
| WorkerPrompt.LongestBounds | src/sol_claude_dispatcher/worker_context.py:403-510 | no prompt within its caps is longer than the sum of the caps and the uncounted separators |
| WorkerPrompt.LongestReached | src/sol_claude_dispatcher/worker_context.py:403-510 | and a prompt from reviewed parts is as long |
| WorkerPrompt.PromptsFitIff | src/sol_claude_dispatcher/config.py:633-677 | all prompts within given caps fit the argument if and only if that longest one does |
| WorkerPrompt.AcceptedPromptsFit | src/sol_claude_dispatcher/config.py:633-677 | an accepted configuration carries every prompt whose policy, preamble and lifecycle text stay six separators below the reserve |
| WorkerPrompt.WholeReserveIff | src/sol_claude_dispatcher/config.py:655-660 | with the whole reserve used, an accepted configuration carries every prompt if and only if the caps leave room for the separators and the lifecycle text |
| Padding.TextFile.PadTo | scripts/gate/manifests.py:47-56 | the file afterwards holds the padded content |
| Padding.PaddedSize | scripts/gate/manifests.py:47-56 | the body comes first, the target is reached, and the overshoot stays below one filler past the larger of target and body with marker |
| Padding.RecoveredIff | scripts/gate/manifests.py:47-56 | the body comes back if and only if nothing was padded or it does not end in the marker less its last newline |
| Padding.HistoryIndependentIff | scripts/gate/manifests.py:47-56 | under exactly that condition every later padding gives what padding the first content would have given |
| Padding.PaddingIsIdempotent | scripts/gate/manifests.py:47-56 | padding twice is padding once |
| Padding.StemIsLost | scripts/gate/manifests.py:47-56 | a concrete body that is lost |
| MutationRegistry.Validate | scripts/mutation/run_mutations.py:87-136 | accepts if and only if all conditions on schema, rows, killers, mapping and anchors hold, and a refusal names one that does not |
| MutationRegistry.AcceptedBuys | scripts/mutation/run_mutations.py:87-136 | in an accepted registry implemented invariants and rows correspond one to one, ids are unique, every mutation has a row, and every row a mutation, accepted killers and one that is no matrix node |
| MutationRegistry.TargetMeans | scripts/mutation/run_mutations.py:280-291 | a target is a file of the tree below the sources or the tests, named without a step up and without a backslash |
| MutationRegistry.MatrixMeans | scripts/mutation/run_mutations.py:361-364 | a node is one of the matrix exactly when one of three words occurs in it, whatever its case |
| MutationRegistry.CheckMutation | scripts/mutation/run_mutations.py:127-136 | one declaration: canonical target, anchor counted exactly once, different replacement |
| MutationRegistry.KillerMeans | scripts/mutation/run_mutations.py:294-325 | a killer is accepted exactly when it names, on one line, a test function, at most one class deep, that a module under tests defines |
| MutationRegistry.OwnerMap | scripts/mutation/run_mutations.py:147-151 | the nested comprehension with overwriting |
| MutationRegistry.OwnersAreTotal | scripts/mutation/run_mutations.py:147-151 | of an accepted registry: total on the declared mutations, nothing overwritten, each owned by the one invariant naming it, every invariant owning something |
| MutationRegistry.ExecuteMutations | scripts/mutation/run_mutations.py:152-208 | one result for every mutation in id order, with its owner, exit codes and output digest of a run on a copy with that mutation alone |
| MutationRegistry.OutcomeMeans | scripts/mutation/run_mutations.py:155-200 | the killers are run on a copy with the leftmost anchor of one file replaced; the mutation is caught exactly when they fail, and then the first is named; the whole suite is run only when asked for |
| MutationRegistry.OrderIsCanonical | scripts/mutation/run_mutations.py:153 | ascending distinct ids, every mutation once, whatever the order of declaration |
| MutationRegistry.MutantDiffersIff | scripts/mutation/run_mutations.py:159-162 | the mutant differs from the file if and only if the anchor occurs in the raw bytes, and then only at the leftmost anchor; without carriage returns it does occur, once |
| MutationRegistry.CarriageReturnsDefeatAnchors | scripts/mutation/run_mutations.py:129-162 | a family of accepted mutations that replace nothing: validation translates newlines, the run does not |
| Substrings.ReplaceChanges | scripts/mutation/run_mutations.py:162 | replacing the first occurrence changes a text exactly when there is one and the replacement is another text |
| GateClaims.IsSubsequence | scripts/gate/claims.py:361-363 | greedy consumption of the iterator accepts if and only if a strictly increasing embedding exists |
| GateClaims.TogetherImmediate | scripts/gate/claims.py:366-377 | with the check of the order, the preamble check holds if and only if the preamble stands immediately before the first projected section |
| GateClaims.CheckAloneIsWeaker | scripts/gate/claims.py:366-377 | by itself the check accepts sections where it does not |
| GateClaims.MaxSingleArgvBytes | scripts/gate/claims.py:473-491 | the bisection stops at a step from accepted to refused or at an end of its range |
| GateClaims.StopIsLargest | scripts/gate/claims.py:473-491 | where acceptance is a cap such a stop is the largest accepted size |

## Left out

- Git subprocesses, their environment and exit codes: git's output is input text.
- `_fold_untracked`, `git diff --check`, worktree heads and the other collectors around the modelled parts of `collect_diff_evidence`.
- Line separators of `str.splitlines` other than the newline, in porcelain output, path listings and the registry.
- Symbolic links, and different spellings of one file name, in the file system of `rawadmin.py` and of the mutation targets; `inventory` and `resolve`, which only report and hash.
- Patch features the composers never print: context lines, several hunks, renames, deletions, binary patches.
- Concurrent calls on one `RepositoryLock` instance, interrupts that are not `OSError`, and the holder line written into the lock file.
- RepositoryLocks.RepositoryLock.Acquire: covers the non-blocking call; in the step model a blocking one is an instance that stays opened until `Take` is enabled, a timed one is `FlockWithTimeout`.
- RepositoryLocks.FlockWithTimeout: the sleep between attempts is part of the clock readings; that some reading reaches the deadline is a precondition.
- LifecycleProjection.Project: the extraction of inert text from a projection file is a parameter, since the list of dynamic markers is in a module of its own; a file that changes between two reads of one projection is not modelled.
- The manifest loader's shape checks on JSON fields.
- Preflight.Evaluate: a row's three flags that verification succeeded, which are constants, and its refusal text are not recorded.
- WorkerPrompt.PromptLength: how skills and guidance are selected and verified is not modelled, only what is composed of them; the prompt of a review is one without skills.
- TaskStates.RunsAreCapped: takes the count at a request as the count at the run that follows; how the two come apart is the subject of `ResumeCalls`.
- ResumeCalls.FreshCallsAreCapped: the count is read before the repository lock is taken, and that it has not moved by then is a condition; so is that no late failure is overtaken. The order check on the git journal of a run, which stops some stale plans, is not modelled.
- ResumeCalls.HistoryIsTrace: a transition under the lock is one step; a late failure saved between its load and its save, and so overwritten at once, is in the model one whose call ends before it saves.
- LockSafety.AliasesShare: a locks directory is resolved at construction, although the file is opened through its spelling; links to it that move afterwards are not modelled.
- Of `resume_plan`, the checks of the instruction, the model and the worktree; everything else in `sessions.py`, `server.py` and `state.py`.
- Padding.TextFile.PadTo: files that are not UTF-8, which the original refuses to read, are not told apart; a filler must not be empty, since with an empty one the original does not terminate on a larger target.
- MutationRegistry.Validate: whether the text of a test module defines the named function exactly once is a parameter, since it needs Python's parser.
- MutationRegistry.ExecuteMutations: takes a registry that passed validation, as the caller's does; what a test run ends with is a parameter, and the copying of the repository is not modelled.
- Parsing of the mutation registry files, the report writer and the command line.
- Field validators, TOML loading, derived paths and model names in `config.py`: single-branch checks.
- The router, the error classes, the activation scripts and the live gate harness: each claim there is one branch, a table or a subprocess.
