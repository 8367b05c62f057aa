# gitstage: a model of the line-staging engine

gitstage is a terminal tool that lets a user stage single lines of a
working-tree change into the git index. The model covers its engine.

- **Diff parser** (`Diff`). This is the line scanner of `parseDiff`. It turns
  unified-diff text into hunks. Each hunk holds header ranges and classified
  body lines.
- **Patch reconstructor** (`Patch`). It rewrites one file's hunks into a patch
  that holds only the lines the user selected. Unselected additions are
  dropped. Unselected removals become context. Each hunk header is recounted.
- **Git glue** (`Git`). This covers four things:
  - the porcelain status classification;
  - the multiset matching that marks lines already in the index;
  - the hunk synthesised for an untracked file;
  - the per-file decision between reset, add, add-intent and apply-cached.
  Each git command is an abstract `Action` value.
- **Navigation state machine** (`App`). The cursor moves over the flattened
  rows of the current file's hunks. Scrolling keeps the cursor visible.
  Keys switch files and toggle a single line or a whole hunk.
- **Width helpers** (`Render`). These measure and cut byte strings that
  contain ANSI escape sequences.

The supporting modules are:

- `Text`: prefixes, splitting, joining, fields and decimal numbers, as the Go
  standard library does them.
- `Types`: lines, hunks and files.

The `*_examples` modules replay the fixtures of the Go unit tests as lemmas.

The state of the Go program is mutated in place. Here it becomes immutable
values, and every mutating method is a function from the old state to the
new one. A display row of the Go code holds a pointer into the hunk it
shows. Here it holds a hunk index and a line index, resolved against
`files[fileIdx]`.

## Model

| member | source | states |
|---|---|---|
| Diff.ParseRange | gitstage/diff.go:96-104 | With no comma the whole text is the start and the count is 1. Otherwise the text splits at the first comma into start and count. |
| Diff.ParseHunkHeader | gitstage/diff.go:75-93 | A header line gives a hunk with no body lines and non-negative ranges. A line with no "@@" gives the all-zero hunk. |
| Diff.ParseRangeText | gitstage/diff.go:96-104 | Reading a printed range gives back its start. The count is given back when it was printed, and 1 when it was omitted. |
| Diff.HeaderRanges | gitstage/diff.go:75-93 | For any range texts without spaces or '@', the '-' field sets the old range and the '+' field the new range, each as parseRange reads it, and the text after the closing "@@" is ignored. |
| Diff.ParseHeaderOf | gitstage/diff.go:75-93 | A header "@@ -a[,b] +c[,d] @@" followed by any section text parses to (a, b or 1, c, d or 1). |
| Diff.HeaderRoundTrip | gitstage/diff.go:75-93 | Parsing the header the patch writer prints gives back the four numbers it was printed from, whatever text follows the header. |
| Diff.HeaderExampleFull | gitstage/diff_test.go:28-49 | "@@ -1,5 +1,7 @@" parses to (1,5,1,7). |
| Diff.HeaderExampleNoCount | gitstage/diff_test.go:28-49 | "@@ -1 +1,2 @@" parses to (1,1,1,2): a missing count is 1. |
| Diff.HeaderExampleNewFile | gitstage/diff_test.go:28-49 | "@@ -0,0 +1,3 @@" parses to (0,0,1,3). |
| Diff.HeaderExampleTrailer | gitstage/diff_test.go:28-49 | A function name after the closing "@@" does not change the ranges. |
| Diff.ParseDiff | gitstage/diff.go:9-72 | Parsing gives exactly one hunk per "@@" line. Every hunk has non-negative ranges. Every line in it is unstaged, classified by its first character, and has no newline and no marker. |
| Diff.RunAppend | gitstage/diff.go:16-65 | Scanning is a left fold: scanning a+b is scanning b from the state after a. |
| Diff.RunCount | gitstage/diff.go:32-40 | Each "@@" line closes the open hunk and opens exactly one new hunk. |
| Diff.RunParsed | gitstage/diff.go:42-64 | Scanning keeps every hunk, finished or open, in parsed form. |
| Diff.ScannedUnlines | gitstage/diff.go:15-19 | Splitting text written as newline-terminated lines gives back those lines. The empty piece after the final newline is dropped. |
| Diff.ScannedMarkers | gitstage/diff.go:15-19 | Dropping the trailing empty piece never removes a hunk marker. |
| Diff.FileHeaderDiscarded | gitstage/diff.go:22-29 | A "diff --git" line closes the open hunk. The scanner then enters the file-header state, and lines up to the next "@@" are skipped. |
| Diff.HeaderSkipped | gitstage/diff.go:42-44 | In the file-header state, non-marker lines leave the scanner unchanged. |
| Diff.BodyAppended | gitstage/diff.go:46-64 | Inside a hunk, body lines are classified and appended in order. "\ No newline" lines are dropped. |
| Diff.FinalNewlineIgnored | gitstage/diff.go:17-19 | A trailing newline does not change the parse. |
| Patch.Demote | gitstage/patch.go:72-77 | A demoted removal keeps its text and length, with its first character replaced by a space. |
| Patch.RebuildCounts | gitstage/patch.go:56-83 | The rebuilt body keeps every line except the unselected additions. The old-side count leaves out the selected additions. The new-side count leaves out the selected removals. |
| Patch.StagedLineEmitted | gitstage/patch.go:45-54 | A hunk with a selected line rebuilds to a non-empty body. The empty-body return is never reached then. |
| Patch.GenerateHunkPatch | gitstage/patch.go:43-97 | A hunk's patch is empty exactly when none of its lines is selected. Otherwise it ends in a newline. |
| Patch.HunkPatchesEmpty | gitstage/patch.go:35-37 | The list of hunk patches is empty exactly when no hunk has a selected line. |
| Patch.PatchEmpty | gitstage/patch.go:9-40 | A file's patch is empty exactly when no hunk has a selected line. |
| Patch.RebuildReadsBack | gitstage/patch.go:56-90 | The rebuilt body consists of well-formed lines. Read back, its old-side and new-side line counts equal the recounted header numbers. It has the selected additions, the selected removals, and the context lines plus the demoted removals. |
| Patch.PartialHunkConsistent | gitstage/patch.go:43-97 | The hunk a patch describes is consistent: its header counts match its body. |
| Patch.ConcatPatches | gitstage/patch.go:35-37 | Concatenating the hunk patches gives the newline-joined patch lines. |
| Patch.PatchText | gitstage/patch.go:19-39 | A non-empty file patch is the file header lines followed by each selected hunk's header and body. |
| Patch.FileHeaderShape | gitstage/patch.go:26-33 | The file header begins with a "diff --git" line, has at least two lines, and none of its lines is a hunk marker. |
| Patch.PatchStructure | gitstage/patch.go:9-40 | Split into lines, a non-empty file patch is the file header followed by the patch lines. |
| Patch.ReadBackHunk | gitstage/patch.go:43-97 | Parsing one hunk's patch lines gives the hunk the patch describes. |
| Patch.ReadBackHunks | gitstage/patch.go:35-37 | Parsing the patch lines of several hunks gives the described hunks of those with a selected line, in order. |
| Patch.PatchRoundTrip | gitstage/patch.go:9-97 | Parsing a file's patch gives exactly the hunks with a selected line, each with recounted header and rebuilt body. |
| Patch.AllStagedRebuild | gitstage/patch.go:56-90 | With every change selected, the body is the hunk unchanged and the counts are its own old-side and new-side sizes. |
| Patch.AllStagedKeepsHeader | gitstage/patch.go:43-97 | A consistent, fully selected hunk is written with its original header and lines. |
| PatchExamples.AllStagedExample | gitstage/patch_test.go:8-47 | The fully staged fixture gives the exact expected patch text. |
| PatchExamples.PartialStagingExample | gitstage/patch_test.go:49-93 | Partial staging drops the unselected addition, demotes the unselected removal, and gives the header "@@ -1,4 +1,4 @@". |
| PatchExamples.NothingStagedExample | gitstage/patch_test.go:95-114 | Nothing selected gives the empty patch. |
| PatchExamples.UntrackedExample | gitstage/patch_test.go:116-154 | An untracked file's patch has the new-file header block and the "@@ -0,0 +1,N @@" hunk. |
| PatchExamples.LineCountExample | gitstage/patch_test.go:156-186 | The counts recomputed in the test's mixed hunk match the expected header. |
| Git.CountsMeaning | gitstage/git.go:241-253 | The staged count is at most the total. It is zero exactly when no line is staged, and equals the total exactly when every change is staged. |
| Git.CountStaged | gitstage/git.go:241-253 | The loop returns the number of staged changes and the number of changes over all hunks. |
| Git.FlattenHasStaged | gitstage/git.go:241-253 | The file has a staged line exactly when some hunk does. |
| Git.StageableKeys | gitstage/git.go:108-115 | The multiset built from the cached diff holds one entry per addition or removal. |
| Git.MarkLinesShape | gitstage/git.go:117-129 | The walk changes only staged flags, and only on additions and removals. It never unstages a line. It consumes only entries the multiset held. |
| Git.MarkGreedy | gitstage/git.go:117-129 | A change ends staged exactly when it was staged or its copies earlier in the walk have not used up its key's count. |
| Git.MarkCounts | gitstage/git.go:117-129 | Each key's count drops by the number of matches. At most that many lines become staged, and exactly that many when none was staged before. |
| Git.MarkAppend | gitstage/git.go:118-119 | Walking hunk after hunk is the same as walking their concatenated lines with one shared multiset. |
| Git.MarkHunksFlatten | gitstage/git.go:118-129 | Marking hunk by hunk equals marking the flattened line list. |
| Git.MarkPreStaged | gitstage/git.go:102-130 | Marking keeps every hunk's header and number of lines. |
| Git.MarkPreStagedMeaning | gitstage/git.go:102-130 | Over the whole diff, a line is marked exactly when an unused cached copy of it remains. Per key, the number marked is the minimum of the cached and full counts. |
| GitExamples.PreStagingExample | gitstage/app_test.go:218-250 | With "+added1" and "-removed1" cached, exactly those two lines are marked. |
| GitExamples.StageableCountsExample | gitstage/patch_test.go:188-215 | The test's two hunks give three staged changes out of four. |
| Git.AddedLines | gitstage/git.go:156-162 | Each file line becomes an unstaged addition with a "+" prefix. |
| Git.SynthesizeHunks | gitstage/git.go:139-164 | An untracked file gives at most one hunk. |
| Git.ScannedEmpty | gitstage/git.go:139-147 | Splitting yields no lines exactly for empty data. |
| Git.SynthesizedMeaning | gitstage/git.go:139-164 | There is no hunk exactly for empty data. Otherwise the one hunk is consistent, well formed and unstaged, with one addition per line of the file. |
| Git.SynthesizeUnlines | gitstage/git.go:149-164 | Newline-terminated lines give the hunk (0,0,1,N) with N additions. |
| Git.PorcelainStatus | gitstage/git.go:47-58 | "??" is untracked. Otherwise a D in either column is deleted. Otherwise M in either column, or A in the first, is modified. Anything else is not recognised. |
| Git.DiscoverFromFresh | gitstage/git.go:36-65 | Discovered files have no hunks, are untouched, and have distinct paths not already seen. |
| Git.DiscoverFromMeaning | gitstage/git.go:36-65 | A file is discovered exactly when its path's first status line classifies to its status. |
| Git.DiscoverMeaning | gitstage/git.go:26-68 | The same holds over the whole porcelain output. |
| GitExamples.PorcelainExample | gitstage/git.go:36-65 | A listing with a rename, a repeated path and short lines gives exactly the three recognised files, in order. |
| Git.ApplyTracked | gitstage/git.go:255-270 | A tracked file is always reset first. |
| Git.ApplyUntracked | gitstage/git.go:272-287 | An untracked file with nothing staged gets no action. Otherwise it begins with intent-to-add. |
| Git.FileActionsMeaning | gitstage/git.go:255-287 | Nothing staged gives only the reset, or nothing for an untracked file. Everything staged gives a whole-file add. A partial selection applies the non-empty generated patch to the index. |
| Git.AppliedPatchMeaning | gitstage/git.go:265-269 | A patch applied to the index parses back to exactly the selected partial hunks. |
| Git.ApplyStagingTouched | gitstage/git.go:219-239 | Untouched files produce no action. Every reset or add names a touched file. |
| App.HunkRows | gitstage/app.go:26-42 | A hunk shows as its header row followed by one row per line, in order. |
| App.BuildDisplayLines | gitstage/app.go:20-44 | Rebuilding replaces only the rows. Every row names an existing hunk and line of the current file. |
| App.DisplayLayout | gitstage/app.go:20-44 | The rows are laid out hunk by hunk. Hunk j's header is at its offset, and its lines follow it in order. |
| App.NextStageable | gitstage/app.go:47-60 | The search returns the first addition or removal row at or after the start, or reports that there is none. |
| App.FirstNonHeaderLine | gitstage/app.go:63-70 | The result is the first non-header row, or 0 when there is none. |
| App.FirstStageableLine | gitstage/app.go:47-60 | The result is the first addition or removal row. Failing that it is the first line row, else 0. |
| App.ContentHeight | gitstage/app.go:73-84 | The visible height is the terminal height minus two, and at least one. |
| App.AdjustScroll | gitstage/app.go:73-84 | Only the scroll changes. The cursor ends visible. A visible cursor leaves the state unchanged. Otherwise the scroll moves the least distance that shows the cursor. |
| App.MoveDown | gitstage/app.go:87-95 | The cursor goes to the next line row below, skipping headers, with the cursor kept visible. With no line row below, nothing changes. |
| App.MoveUp | gitstage/app.go:98-106 | The cursor goes to the nearest line row above, with the cursor kept visible. With none, nothing changes. |
| App.SetStaged | gitstage/app.go:131-152 | Setting one line's flag changes only that flag. |
| App.Touch | gitstage/app.go:144 | Marking the file touched changes only its touched flag. |
| App.ToggleLine | gitstage/app.go:131-152 | On a context or header row nothing happens. Otherwise the line's flag flips, the file is touched, and the cursor goes to the next addition or removal with scroll adjusted, or stays put when there is none. |
| App.SkeletonDisplay | gitstage/app.go:20-44 | The rows depend only on the hunk shapes, not on staged flags. |
| App.SkeletonRows | gitstage/app.go:131-183 | Changing staged flags keeps every row resolvable and every row's stageability. |
| App.SetShown | gitstage/app.go:170-180 | Only the hunk's shown additions and removals take the new value. Every other line is unchanged. |
| App.ToggleHunk | gitstage/app.go:155-183 | Outside the rows nothing happens. Otherwise only staged flags change and the file is touched. |
| App.AnyUnstagedBuilt | gitstage/app.go:162-168 | When the rows are current, the scan for an unstaged change in the cursor's hunk sees exactly the hunk's unstaged changes. |
| App.ToggleHunkMeaning | gitstage/app.go:155-183 | The cursor's hunk is fully staged when any change was unstaged, and fully unstaged otherwise. The file is touched. |
| App.StageAllTwice | gitstage/app.go:162-180 | Toggling an unstaged hunk twice restores its lines. |
| App.ToggleHunkTwice | gitstage/app.go:155-183 | From a fully unstaged hunk, two hunk toggles leave only the touched flag changed. |
| App.Select | gitstage/app.go:109-128 | Switching files rebuilds the rows and puts the cursor on the first stageable row, with the smallest valid scroll. |
| App.NextFile | gitstage/app.go:109-117 | At the last file nothing changes. Otherwise the next file is selected with rows rebuilt, the width and height kept, the cursor on its first stageable row, and the smallest scroll offset that shows the cursor. |
| App.PrevFile | gitstage/app.go:120-128 | At the first file nothing changes. Otherwise the previous file is selected the same way: rows rebuilt, width and height kept, cursor on the first stageable row, smallest scroll that shows it. |
| App.Init | gitstage/app.go:244-253 | Start-up selects file 0 with the cursor on the first stageable row, and the state invariant holds. |
| App.SelectOnLine | gitstage/app.go:109-128 | After a file switch the cursor is on a line row whenever the file has one. |
| App.StepKeepsInv | gitstage/app.go:272-287 | Every navigation key keeps the rows current, the cursor in range and visible. It keeps the cursor on a line row while one exists. |
| AppExamples.TestStateExample | gitstage/app_test.go:56-92 | The fixture gives the expected eight rows, with the cursor on the first addition. |
| AppExamples.MoveDownExample | gitstage/app_test.go:94-107 | Down moves the cursor from row 1 to 2 to 3. |
| AppExamples.MoveUpExample | gitstage/app_test.go:109-122 | Up moves the cursor from row 3 to 2 to 1. |
| AppExamples.MoveDownSkipsHeaderExample | gitstage/app_test.go:124-133 | Down from the last line of a hunk skips the next header. |
| AppExamples.ToggleLineExample | gitstage/app_test.go:135-155 | Toggling the first addition stages it, touches the file, and advances the cursor. |
| AppExamples.ToggleContextExample | gitstage/app_test.go:157-166 | Toggling a context line changes nothing. |
| AppExamples.ToggleHunkExample | gitstage/app_test.go:168-191 | The hunk toggle stages both changes of the first hunk. |
| AppExamples.ToggleHunkTwiceExample | gitstage/app_test.go:168-191 | A second hunk toggle unstages them again. |
| AppExamples.NextFileExample | gitstage/app_test.go:193-205 | The file switch moves to the second file with its three rows. |
| AppExamples.PrevFileExample | gitstage/app_test.go:207-216 | Switching back returns to the first file. |
| Render.ConcatWidth | gitstage/render.go:295-316 | Width adds up over concatenation when no escape is open at the join. |
| Render.PlainWidth | gitstage/render.go:295-316 | Text with no ESC byte leaves no escape open. When every byte starts a character, its width is its length. |
| Render.SequenceWidth | gitstage/render.go:295-316 | A complete escape sequence has width 0. |
| Render.VisibleLen | gitstage/render.go:295-316 | The loop counts exactly the character starts outside escape sequences. |
| Render.TruncateVisible | gitstage/render.go:319-351 | A non-positive limit gives the empty string. A string within the limit is unchanged. Otherwise the result is cut before the first shown character past the limit and ends with the reset code. The width is the limit or the original width, whichever is smaller. |
| Render.PadRight | gitstage/render.go:286-292 | A string already as wide as the target is unchanged. Otherwise exactly the missing number of spaces is appended. |
| Render.PadRightWidth | gitstage/render.go:286-292 | Padding a string with no open escape gives the larger of the target and its own width. |
| RenderExamples.VisibleLenExamples | gitstage/render_test.go:7-65 | The widths of the test strings, including coloured, escape-only and UTF-8 text, are the expected ones. |
| RenderExamples.TruncateExamples | gitstage/render_test.go:27-47 | Truncation keeps the expected visible widths for each test case. |

## Left out

- Process execution, file reading, the terminal, raw mode, the alternate screen, resize signals and key decoding are left out. Every git command becomes an abstract `Action`, and a file's bytes become a parameter.
- `run`'s event loop is left out. `App.Step` models only its key dispatch, and `App.Init` models its start-up sequence. Enter, Esc and q end the program and are not modelled.
- The full-screen composition (`render`, `renderFileListRow`, `renderDiffRow`) is left out. It only formats text. Its width helpers are modelled.
- Errors returned by git commands are not modelled. The action lists describe the plan when every command succeeds.
- Diff.ParseRange: `strconv.Atoi` is modelled as a decimal digit parse that yields 0 on any other input. Signs and overflow are not modelled, because git never prints them in hunk headers.
- Patch.GenerateHunkPatch: requires that each unselected removal is non-empty, because the Go code slices its first character off and would panic on an empty line. The parser never produces one.
- App.MoveUp: requires the cursor to be at most the number of rows, because the Go code would index out of range otherwise. Every reachable state meets this (`App.StepKeepsInv`).
- App.ToggleLine: requires every row to resolve to a hunk and line of the current file. The Go rows hold pointers that always do.
- App.ToggleHunk: requires the same. It sets the touched flag whenever the cursor is on a row, even when the hunk has no stageable line, as the code does.
- App.HunkRows: a header row stores no text. Its text is `App.HunkTitle` of the hunk it names, so it cannot disagree with the hunk.
- Git.ApplyTracked: the contract states only the leading reset. The whole plan is stated by `Git.FileActionsMeaning`.
- Diff, Patch, Git and App read strings as sequences of Unicode characters, while the Go code indexes bytes. The two readings agree on valid UTF-8 hunk headers and on porcelain lines whose first three bytes are ASCII, which is what git prints. They differ elsewhere: Go's `len(line) < 3` and `line[3:]` count bytes, and the white-space test `Text.IsSpace` that splits hunk headers accepts U+0085 and U+00A0, which `strings.Fields` does not treat as space when they appear as single bytes.
- App.AppState: the file index, cursor and scroll offset are natural numbers, so the Go code's `LineIdx < 0` guards have no counterpart. No reachable state of the Go program makes them negative.
- Render: strings are byte sequences. A character start is any byte outside 0x80-0xBF, as `utf8.RuneStart` defines it. The escape state follows the code: it begins at ESC and ends at the next ASCII letter.
