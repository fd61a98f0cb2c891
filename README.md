# Email-to-automation pipeline, modelled in Dafny

The pipeline moves each unit of work through a set of directories. The
prefix of a file's name says which stage the work is in.

1. **Intake** (`mailfetcher.py`) classifies fetched e-mails by subject. For
   each classified message it picks a body part and cuts the content
   between two markers. It then writes the message to
   `<tag>_<YYYYMMDD>_<NNN>.txt` in the mails directory, where `NNN` is the
   next free ordinal for that category and day.
2. **Prompt stage** (`promptwriter.py`) selects the fetched files whose
   names start with a category prefix. It asks a language model for a robot
   command and composes the command with a constant append line. It
   archives the original as `processed_<name>` and writes
   `processed_<stem>_robot_command.txt` to the prompts directory.
3. **Automation stage** (`robot_desktop_automator.py`) takes every pending
   prompt file, meaning a name that starts with `processed_` and ends with
   `.txt`. It hands the command to a desktop robot and records the outcome
   in the name:
   - `empty_robot_command_…` for an empty command, kept in place;
   - `completed_…` when the robot succeeds, moved to the completed
     directory;
   - `failed_robot_command_…` when the robot fails, kept in place.

The file system is a value, a map from directory path to a map from file
name to contents (`filesystem.dfy`). `shutil.move`, `open(…,'w')`,
`os.makedirs` and `os.listdir` are functions on that value.

Each external call is an input to the model:
- the IMAP session becomes a sequence of messages;
- the regex engine becomes a matcher function;
- the language model's answer becomes text or "raised";
- the robot's run becomes success or failure;
- each read, move and write either succeeds or raises.

All loops that update counters or files are methods. Each method is proved
equal to a fold over a step function, and the properties are proved as
lemmas about those folds.

Files:
- `wrappers.dfy`: `Option`.
- `strings.dfy`: the Python `str` operations the code uses: `find`,
  `strip`, `startswith`, `endswith`, `replace(…, 1)`, `int()` on digits and
  `%03d`.
- `filesystem.dfy`: directories, moves, writes and listings.
- `mailfetcher.dfy`: the intake stage (module `MailFetcher`).
- `promptwriter.dfy`: the prompt stage (module `PromptWriter`).
- `robot_desktop_automator.dfy`: the automation stage (module
  `RobotAutomator`).
- `pipeline.dfy`: how the stages hand over to each other, and what the
  shipped configuration does.

Where the code and its own docstrings disagree, the model follows the
code: the success rename is `completed_`, not `completed_robot_command_`.

The allocator's length check (`len(prefix) + 6`, mailfetcher.py:38) agrees
with its comment but not with the names that line 174 writes, which have
seven characters after the prefix (`NNN.txt`). This is the second row of
"## Findings". The allocator as written is modelled with the `+6` check
(`MailFetcher.AS_WRITTEN_SUFFIX_LEN`), and lemmas show that it never parses
an ordinal. The intake loop `MailFetcher.FetchEmails` uses the corrected
check of seven characters (`MailFetcher.SUFFIX_LEN`).

The prompt stage's category prefixes are a parameter. The shipped
`'agency 1'`/`'agency 2'` appear as `Pipeline.SHIPPED_PREFIXES`.

## Model

| member | source | states |
|---|---|---|
| Strings.Find | mailfetcher.py:59 | `find` returns -1 or an index at or after the start where the pattern occurs |
| Strings.FindLeast | mailfetcher.py:65 | the index `find` returns is the first occurrence at or after the start; -1 means none at or after the start |
| Strings.FindFromZero | mailfetcher.py:59-60 | `find` from 0 returns -1 exactly when the pattern does not occur |
| Strings.FindFirst | mailfetcher.py:65 | a search from `start` returns the first occurrence at or after `start` |
| Strings.FindEmpty | mailfetcher.py:65 | the empty pattern is found where the search starts |
| Strings.ReplaceFirstOfPrefix | robot_desktop_automator.py:121 | `replace(target, r, 1)` on a string starting with `target` swaps that prefix for `r` |
| Strings.StripSpec | mailfetcher.py:68 | `strip()` yields the slice after the leading whitespace, with only whitespace before and after it and neither end whitespace |
| Strings.StripEmpty | robot_desktop_automator.py:114-116 | a string strips to empty exactly when it is all whitespace |
| Strings.ParseIntRoundTrip | mailfetcher.py:46 | a digit string without a leading zero (or a single digit) is `str` of the number `int()` reads from it |
| Strings.DecimalRoundTrip | mailfetcher.py:174 | the decimal digits of a number parse back to the number |
| Strings.Pad3RoundTrip | mailfetcher.py:174 | below 1000, `%03d` has three digits and `int()` reads back the number |
| Strings.Pad3Length | mailfetcher.py:174 | `%03d` is exactly three characters long exactly below 1000 |
| FileSystem.MakeDirs | mailfetcher.py:85 | the directory exists afterwards, existing directories are unchanged, and a new one is empty |
| FileSystem.WriteFile | mailfetcher.py:177-181 | the file holds the content afterwards; no other file or directory changes |
| FileSystem.Move | promptwriter.py:60 | the file leaves its old name, its contents appear under the new name, and nothing else changes |
| MailFetcher.StripOfSliceOccurs | mailfetcher.py:68-70 | the stripped slice is itself a substring of the text |
| MailFetcher.ExtractWithoutStartMarker | mailfetcher.py:59-61 | without the start marker the text comes back unchanged, unstripped |
| MailFetcher.ExtractedIsStrippedSubstring | mailfetcher.py:63-70 | once the start marker occurs, the result is a substring of the text with no whitespace at either end |
| MailFetcher.ExtractWithoutEndMarker | mailfetcher.py:59-68 | with the first start marker at `start` and no end marker after it, the result is the rest of the text, stripped |
| MailFetcher.ExtractBetweenMarkers | mailfetcher.py:59-70 | with the first start marker at `start` and the first end marker after it at `end`, the result is the stripped text between them |
| MailFetcher.ExtractWithEmptyMarkers | mailfetcher.py:59-70 | empty markers extract `""` from any text |
| MailFetcher.FirstMatchWins | mailfetcher.py:120-124 | the first rule, in list order, whose pattern matches decides the tag, whatever later rules say |
| MailFetcher.NoRuleMatches | mailfetcher.py:120-127 | there is no tag exactly when no rule matches |
| MailFetcher.ClassifySubject | mailfetcher.py:120-124 | the classifier loop returns the tag of the first matching rule |
| MailFetcher.PlainPartWins | mailfetcher.py:145-156 | the first non-attachment `text/plain` part is the body |
| MailFetcher.HtmlPartFallback | mailfetcher.py:157-161 | without a plain part, the first non-attachment, non-empty `text/html` part is the body |
| MailFetcher.EmptyBodyFallback | mailfetcher.py:143-161 | with neither, the body is `""` |
| MailFetcher.AttachmentIgnored | mailfetcher.py:149 | taking out an attachment part never changes the body |
| MailFetcher.SelectBody | mailfetcher.py:143-161 | the part walk returns the preferred body: plain, else non-empty HTML, else `""` |
| MailFetcher.MaxOrdinal | mailfetcher.py:36-50 | the result bounds every ordinal read from a listed name and is 0 or one of them |
| MailFetcher.GetNextDailySequence | mailfetcher.py:29-52 | the result is at least 1 and above every parsed ordinal; it is 1 or one more than a parsed ordinal, in any listing order |
| MailFetcher.AsWrittenNothingParses | mailfetcher.py:38-46 | with the `+6` length check, the three-character slice ends in `.` and never parses |
| MailFetcher.AsWrittenSequenceAlwaysOne | mailfetcher.py:38-52 | with the `+6` check, the allocator returns 1 for every directory |
| MailFetcher.FileNameParsesBack | mailfetcher.py:174 | below 1000, the allocator with the 7-character check reads back from a written name exactly its ordinal |
| MailFetcher.AllocatedNameIsFresh | mailfetcher.py:174-178 | the allocated name is not yet in the directory |
| MailFetcher.SequenceAfterWrite | mailfetcher.py:29-52 | once the file with ordinal n is written, the next allocation for that tag and day is n + 1 |
| MailFetcher.AsWrittenSameDayCollides | mailfetcher.py:174-178 | with the `+6` check, the second message of a day is given the first one's name |
| MailFetcher.HandleMessage | mailfetcher.py:112-191 | one pass of the loop body yields exactly the intake step for that message |
| MailFetcher.FetchEmails | mailfetcher.py:111-187 | the loop, with the allocator repaired, yields the files, saved paths and read-marks of the intake fold |
| MailFetcher.FetchEmailsAsWritten | mailfetcher.py:34 | as written, the run ends at the first classified message with nothing saved or marked; it aborts exactly when some message is classified |
| MailFetcher.IntakeRunFrame | mailfetcher.py:111-187 | only the output directory changes, and no file in it is removed |
| MailFetcher.IntakeRunSaved | mailfetcher.py:177-184 | one path is saved per classified message whose write succeeds, and each saved path exists afterwards |
| MailFetcher.IntakeRunMarkCount | mailfetcher.py:184-187 | with mark_as_read there is one read-mark per saved path; without it, none is marked |
| MailFetcher.IntakeRunMarked | mailfetcher.py:184-187 | earlier marks stay; each new mark is for a later message than the last, one that was classified and whose write succeeded |
| MailFetcher.IntakeStepWritesFreshFile | mailfetcher.py:174-181 | a classified message with a successful write adds exactly one new file, with its header and content, and overwrites none |
| MailFetcher.IntakeRunNothingClassified | mailfetcher.py:126-127 | if no message is classified, nothing is written, saved or marked |
| PromptWriter.SelectEmailFiles | promptwriter.py:87 | a name is selected exactly when it starts with a category prefix and ends with `.txt`; a listing without repetitions gives a selection without repetitions |
| PromptWriter.SelectionOfConcat | promptwriter.py:87 | the listing's order is kept: selecting from two listings in turn is selecting from their concatenation |
| PromptWriter.SelectionOfOne | promptwriter.py:87 | a single name is kept exactly when it starts with a category prefix and ends with `.txt` |
| PromptWriter.NoneSelectable | promptwriter.py:87-91 | a listing without a selectable name selects nothing |
| PromptWriter.ArchivedEndsWithTxt | promptwriter.py:57 | the archive name ends with `.txt` exactly when the original does |
| PromptWriter.ArchivedStartsWith | promptwriter.py:57 | the archive name starts with `p` exactly when `p` is a prefix of `processed_` or extends it by a prefix of the original |
| PromptWriter.ArchivedSelectedIff | promptwriter.py:87 | the archived form of a name is selected again if and only if a category prefix overlaps `processed_` as above |
| PromptWriter.ArchivedNeverReselected | promptwriter.py:87 | with no prefix overlapping `processed_`, no archived name is selected on a later run |
| PromptWriter.LastDot | promptwriter.py:55 | the index of the last `.` or -1 |
| PromptWriter.SplitExt | promptwriter.py:55 | `splitext` parts concatenate back to the name; the extension starts at the last dot that has a non-dot before it, and is empty exactly when no dot has one |
| PromptWriter.SplitExtTxt | promptwriter.py:102 | a `.txt` name splits into its stem and `.txt` |
| PromptWriter.ArchiveName | promptwriter.py:54-57 | the archive name is `processed_` followed by the original name |
| PromptWriter.PromptFileName | promptwriter.py:102-103 | the prompt file name starts with `processed_` and ends with `.txt` |
| PromptWriter.PromptFileNameOfTxt | promptwriter.py:102-103 | for a `.txt` name, the prompt file is `processed_` + stem + `_robot_command.txt` |
| PromptWriter.GenerateOutcome | promptwriter.py:15-70 | the call fails and leaves the files alone, or it succeeds: the original is archived and the output is `strip(answer) + "\n" + append line` |
| PromptWriter.GeneratedOutputNonEmpty | promptwriter.py:100 | a successful call's output is never empty, so the caller treats it as success |
| PromptWriter.EmptyAnswerFails | promptwriter.py:47-66 | an answer that strips to empty is a failure and moves nothing |
| PromptWriter.MissingAppendLineFails | promptwriter.py:52 | an unset append line makes the call fail with nothing moved |
| PromptWriter.ProcessAllEmailsForPrompts | promptwriter.py:72-119 | a missing mails directory gives (0, 0) and no change; otherwise the result is the prompt fold over the selected files |
| PromptWriter.HandleEmailFile | promptwriter.py:96-116 | one pass of the loop body yields exactly the prompt step for that file |
| PromptWriter.PromptRunCounts | promptwriter.py:95-116 | each selected file adds one to exactly one counter, and neither counter decreases |
| PromptWriter.ProcessedPlusFailedIsSelected | promptwriter.py:95-119 | processed + failed is the number of selected files |
| PromptWriter.NothingSelected | promptwriter.py:89-91 | with nothing selected, the stage ensures the prompts directory and returns (0, 0) |
| PromptWriter.PromptRunFrame | promptwriter.py:95-116 | only the mails and prompts directories change |
| PromptWriter.PromptStepSucceeds | promptwriter.py:100-110 | a full success archives the original with its contents, writes the composed prompt file and counts one success |
| PromptWriter.PromptWriteFailureLeavesArchived | promptwriter.py:101-113 | a prompt-file write that raises after archiving counts a failure; the original stays archived with no prompt file |
| PromptWriter.PromptStepGenerationFails | promptwriter.py:114-116 | a failed generation counts a failure and changes no file |
| RobotAutomator.PendingPromptFiles | robot_desktop_automator.py:102 | a name is pending exactly when it starts with `processed_` and ends with `.txt`; the listing's distinctness is kept |
| RobotAutomator.DiscoveryOrderIndependent | robot_desktop_automator.py:102 | any two listings of the same directory give the same pending files, each once, so discovering twice gives the same set |
| RobotAutomator.RewrittenNameNotPending | robot_desktop_automator.py:121-136 | each of the three rewrites replaces the leading `processed_`; the result still ends with `.txt`, is no longer pending and differs from the original |
| RobotAutomator.RobotRun | robot_desktop_automator.py:110-141 | the loop keeps the set of directories and yields one disposition per file |
| RobotAutomator.CountsAddUp | robot_desktop_automator.py:110-141 | counting each file once, processed + failed is the number of files |
| RobotAutomator.AsWrittenCountsOvershoot | robot_desktop_automator.py:116-140 | as written, processed + failed is the number of files plus the number of in-place renames that raised |
| RobotAutomator.HandlePromptFileAsWritten | robot_desktop_automator.py:111-141 | the loop body as written: the new files and the counter increments, including 2 failures for a rename that raised |
| RobotAutomator.HandlePromptFile | robot_desktop_automator.py:111-141 | the loop body counting each failure once |
| RobotAutomator.ProcessAllPendingRobotPromptsAsWritten | robot_desktop_automator.py:91-144 | a missing prompts directory gives (0, 0) and no change; otherwise the files and counts are those of the fold with the as-written counting |
| RobotAutomator.ProcessAllPendingRobotPrompts | robot_desktop_automator.py:91-144 | the same loop with each failure counted once |
| RobotAutomator.EmptyCommandRenamed | robot_desktop_automator.py:116-123 | an empty command renames the file in place to `empty_robot_command_…`, keeping its contents |
| RobotAutomator.CompletedMovesToCompletedDir | robot_desktop_automator.py:126-131 | a robot success moves the file to the completed directory as `completed_…` |
| RobotAutomator.FailedRenamedInPlace | robot_desktop_automator.py:132-137 | a robot failure renames the file in place to `failed_robot_command_…` |
| RobotAutomator.RaisedLeavesFileInPlace | robot_desktop_automator.py:139-141 | an exception leaves every file as it was; otherwise the pending name is gone |
| RobotAutomator.StepPending | robot_desktop_automator.py:112-141 | one step removes the file from the pending names unless it raised, and adds no pending name |
| RobotAutomator.PendingAfterRun | robot_desktop_automator.py:110-141 | after a run, the pending names are the original ones minus every file whose step did not raise |
| RobotAutomator.RediscoveryAfterCleanRun | robot_desktop_automator.py:102-141 | after a run over all pending files in which nothing raised, discovery finds no pending file |
| RobotAutomator.RobotRunFrame | robot_desktop_automator.py:110-141 | only the prompts and completed directories change |
| RobotAutomator.AsWrittenDoubleCount | robot_desktop_automator.py:132-140 | one pending file, a failing robot and a rename that raises give counts adding up to 2 as written, and 1 when repaired |
| RobotAutomator.ProcessedPlusFailedIsPending | robot_desktop_automator.py:91-144 | when repaired, processed + failed is the number of pending files in the directory |
| RobotAutomator.AsWrittenSumExceedsPending | robot_desktop_automator.py:116-140 | as written, the sum exceeds the pending count by the renames that raised |
| RobotAutomator.NoPendingNothingDone | robot_desktop_automator.py:104-106 | no pending file: no disposition and no change |
| Pipeline.ShippedRulesClassifyAsTag2 | mailfetcher.py:11-14 | with the shipped patterns, every stripped subject is `tag2`: the `" "` pattern never matches, and the empty one always does |
| Pipeline.ShippedContentIsHeaderOnly | mailfetcher.py:17-26 | with the shipped empty markers, a fetched file holds only its subject and date lines |
| Pipeline.ShippedPrefixesSelectNoFetchedFile | promptwriter.py:87 | the prefixes `agency 1`/`agency 2` never select a fetched file of either shipped category |
| Pipeline.FetchedFileSelectedByItsTag | promptwriter.py:87 | with the tag among the category prefixes, that category's fetched files are selected |
| Pipeline.ShippedIntakeAddsNothingSelectable | mailfetcher.py:174 | a shipped intake run adds no name the shipped prompt stage selects |
| Pipeline.ShippedPipelineStalls | promptwriter.py:87-91 | as shipped, the prompt stage selects nothing from the intake's output |
| Pipeline.PromptFileIsPending | promptwriter.py:103 | every prompt file is pending for the automation stage |
| Pipeline.ArchivedFileLooksPending | promptwriter.py:57 | an archived name has the pending shape, so the mails and prompts directories must differ |

## Left out

- The IMAP session (connect, login, folder select, search, fetch, `set_flags`). These are network calls. The loop gets the messages already in INTERNALDATE order, and "marked read" is recorded as a message's position. The model assumes `set_flags` never raises.
- The early `return []` when the search finds nothing. It equals running the loop on no messages.
- Date parsing with `strptime` and the `datetime.now()` fallback. These are library and clock code. Each message carries its `YYYYMMDD` day as an input.
- Charset decoding and the latin-1 fallback. This is codec code. Each part's payload is already a decoded string.
- `re.match`. The regex engine is a matcher function given as input. Only the shipped-configuration lemmas fix it, to literal prefix matching, which is what `re.match` does on the two shipped patterns.
- `Strings.ParseInt`: models `int()` only on strings of ASCII digits. It does not model signs, surrounding whitespace, underscores or non-ASCII digits. The slice at mailfetcher.py:44 is three characters from a name the allocator already filtered.
- `MailFetcher.AllocatedNameIsFresh`, `MailFetcher.SequenceAfterWrite`, `MailFetcher.IntakeStepWritesFreshFile`: proved only while the ordinal stays below 1000. From 1000 on, `%03d` writes four digits, the length check rejects the name, and the allocator can hand out an existing name again.
- The language model (the Gemini configuration, prompt template and `generate_content`). Its answer for each file is an input: a text, or an exception.
- The desktop automation (`click_image_on_screen`, `type_text_into_active_field`, `automate_robot_with_command`, the sleeps and retries, the clipboard). This is UI code. Its outcome for each file is a Boolean input. An exception inside the automation is not modelled separately; it would count as a failure and leave the file pending.
- `main_workflow.py`. It only calls the three phases in turn, inside try/except, plus window handling and `sys.exit`.
- The `__main__` blocks. They are tests by hand, one of which names an undefined variable.
- The order of `os.listdir`. Listings are any sequence that holds every name once (`FileSystem.IsListingOf`). The allocator iterates over the directory's set of names, and the properties hold for every order.
- Console output (`print`).
- Concurrency and races between processes. The code does not address them.
- Partial writes. A write either completes or raises and leaves the directory unchanged, including the `with open` at mailfetcher.py:178 and promptwriter.py:106.
- Names with directory separators. `PromptWriter.SplitExt` models `os.path.splitext` on a bare file name, which is all `os.listdir` returns.
- The environment variables. Directory names and `CONSTANT_APPEND_LINE` are configuration parameters, the latter `None` when unset.
- `RobotAutomator.RobotStep`: a move into a missing completed directory raises, because `COMPLETED_PROMPTS_DIR` is never created. The model takes only this cause from the directory's absence. Every other move failure comes from the per-file input.

## Findings

| source | as written | input that shows it | evidently intended | confidence | as-written member | corrected member |
|---|---|---|---|---|---|---|
| mailfetcher.py:34 | the prefix uses `today_str_for_filename`, which is never defined; the NameError from the first classified message reaches the outer handler at line 194, and the run returns with nothing saved | any message whose subject is classified | `date_for_filename`, computed on line 31 | not executed | MailFetcher.FetchEmailsAsWritten | MailFetcher.FetchEmails |
| mailfetcher.py:38 | the length check is `len(prefix) + 6`, but names have 7 characters after the prefix (`NNN.txt`); the 3-character slice always ends in `.`, no name parses, and the allocator always returns 1 | a directory holding `tag2_20240101_001.txt`: the next allocation for `tag2` on that day is 1 again, so the second message of the day overwrites the first | `len(prefix) + 7` (`MailFetcher.SUFFIX_LEN`) | not executed | MailFetcher.AsWrittenSameDayCollides | MailFetcher.SequenceAfterWrite |
| robot_desktop_automator.py:118 | `failed_count` is raised before the in-place `shutil.move` (lines 122 and 137). When that move raises, the handler at line 140 raises it again, so one file counts as two failures | one pending file `processed_a.txt` holding `go`, a failing robot, and a rename that raises: processed + failed = 2 | count each failure once, after the move, as the success path does | not executed | RobotAutomator.AsWrittenDoubleCount | RobotAutomator.ProcessedPlusFailedIsPending |
