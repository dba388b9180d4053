# slurm-job-tunnel, modelled in Dafny

slurm-job-tunnel opens an SSH tunnel to a compute node of a SLURM
cluster. It submits a batch job that starts an SSH server on the node and
reads the job's output file until the job prints its port and node. It
then writes SSH client configuration entries for the node, and for a local
port forward, so that an IDE can connect. When the job's time runs out, or
on Ctrl+C, it cancels the job and removes what it wrote. The repository
holds two versions of this orchestration:

- `slurm_job_tunnel/run_tunnel.py`, the packaged tool (module `RunTunnel`,
  file `run_tunnel.dfy`);
- `job_tunnel.py`, an older stand-alone script that also fills in the batch
  script template and starts and stops the VS Code IDE (module
  `JobTunnelScript`, file `job_tunnel.dfy`).

Both are mixed code: pure text processing around objects whose fields are
assigned step by step. The model keeps that shape.

- **Python semantics.** The string and integer operations the code relies
  on are written out with the edge cases the code can meet, in `py_text.dfy`
  (module `PyText`): `str.strip`, `str.split()`, `str.split(sep)`,
  `sep.join`, `in`, `str.replace` (including the empty target),
  `str.splitlines` and `int()`. The fixed-width `datetime` parsing and
  printing, and `time.sleep`, are in `date_time.dfy` (module
  `PyDateTime`). `Option`, `Result` and the Python exceptions the code
  raises are in `wrappers.dfy`.
- **Objects with state.** Each `JobTunnel` and the `LocalTunnel` is a
  `class` with the source's fields. Their methods say how each field
  changes and which fields stay the same.
- **The outside world.**
  - Every command run over SSH is an oracle: the method takes the
    command's stdout as a parameter.
  - Every action on the outside world is returned in an effect log, in
    order: a command run, a job cancelled, a configuration entry written
    or removed, a process terminated, the local thread stopped and
    joined.
  - Reading the job's output file until a deadline (or, in the script,
    forever) is a sequence of snapshots: the contents seen by each read.
- **Loops.** Each loop in the source is a `method` with a `while` loop.
  Its contract ties it to a specification function, and the properties
  the code promises are proved about that function as lemmas:
  - the two polling loops of `watch_output_for_text`, and the line scans
    inside them;
  - the template substitution;
  - the pid collection;
  - the kill loop.

## Model

| member | source | states |
|---|---|---|
| `RunTunnel.JobIdOfLastToken` | slurm_job_tunnel/run_tunnel.py:90 | the job id is `int` of the last whitespace-separated token, whether or not the output is stripped first; no token is an `IndexError`, and a token that is not an integer is a `ValueError` |
| `RunTunnel.JobIdOfSubmission` | slurm_job_tunnel/run_tunnel.py:88-90 | whatever text comes before it, a number that ends the submission output after a whitespace character is the id, and trailing whitespace does not matter |
| `RunTunnel.JobIdOf` | slurm_job_tunnel/run_tunnel.py:90 | the id fails only with `IndexError` or `ValueError`, and a returned id is `int` of the last token |
| `RunTunnel.JobTunnel.constructor` | slurm_job_tunnel/run_tunnel.py:71-81 | a new job tunnel keeps its command, output path and login entry, and has no id, port, node, termination time or job handle |
| `RunTunnel.JobTunnel.SubmitSlurmJob` | slurm_job_tunnel/run_tunnel.py:86-92 | runs the submission command on the login host, and returns the parsed id or the parse error. On success it sets `job_id` and `job` to a handle with that id on that host. On failure neither is set. Port, node and termination time never change |
| `RunTunnel.JobTunnel.SetJob` | slurm_job_tunnel/run_tunnel.py:90-91 | the id and the handle are assigned only when the id parsed, and the other fields are untouched |
| `RunTunnel.JobTunnel.CancelSlurmJob` | slurm_job_tunnel/run_tunnel.py:94-95 | cancels through the job handle; before submission the handle is `None` and the call raises `AttributeError` with no effect |
| `RunTunnel.JobTunnel.IsRunning` | slurm_job_tunnel/run_tunnel.py:101-103 | fails with `AttributeError` exactly when there is no job handle; otherwise it is what the handle reports |
| `RunTunnel.Matching` | slurm_job_tunnel/run_tunnel.py:113-114 | the watch texts found in a line are exactly those the line contains, so there are no more of them than there are watch texts |
| `RunTunnel.FirstComplete` | slurm_job_tunnel/run_tunnel.py:112-117 | the first line count at which the number of hits equals the number of watch texts, or none |
| `RunTunnel.Poll` | slurm_job_tunnel/run_tunnel.py:111-117 | a successful poll returns exactly as many entries as there are watch texts |
| `RunTunnel.PollOnce` | slurm_job_tunnel/run_tunnel.py:111-117 | the nested scan loops of one poll compute `Poll` |
| `RunTunnel.AppendHits` | slurm_job_tunnel/run_tunnel.py:113-115 | the inner loop appends the line once for every watch text it contains, in watch order |
| `RunTunnel.LineHitsStep` | slurm_job_tunnel/run_tunnel.py:113-115 | testing one more watch text against a line appends the line once if it contains that text, and nothing otherwise |
| `RunTunnel.HitsStep` | slurm_job_tunnel/run_tunnel.py:112-115 | scanning one more line appends that line's hits to the list |
| `RunTunnel.PollAt` | slurm_job_tunnel/run_tunnel.py:116-117 | the poll returns the hits after `k` lines when the count is complete after `k` lines and at no earlier line |
| `RunTunnel.HitsMembers` | slurm_job_tunnel/run_tunnel.py:112-115 | every hit is a line of the snapshot that contains at least one watch text |
| `RunTunnel.HitsGrow` | slurm_job_tunnel/run_tunnel.py:112-115 | scanning further only appends: the hits of a shorter prefix are a prefix of the hits of a longer one |
| `RunTunnel.PollSound` | slurm_job_tunnel/run_tunnel.py:111-117 | a successful poll holds as many entries as there are watch texts, each a line of the snapshot containing a watch text; they are the first hits of the whole snapshot, in file order |
| `RunTunnel.PollOvershoot` | slurm_job_tunnel/run_tunnel.py:112-117 | a line that takes the count from below the number of watch texts to above it makes the poll fail, whatever follows |
| `RunTunnel.PollWithoutWatchTexts` | slurm_job_tunnel/run_tunnel.py:112-117 | with no watch texts, a poll succeeds with an empty list when the snapshot has a line, and fails on an empty snapshot |
| `RunTunnel.FirstSuccessfulPoll` | slurm_job_tunnel/run_tunnel.py:109-117 | the first snapshot whose poll succeeds; every earlier poll failed, and none means every poll failed |
| `RunTunnel.WatchOutcome` | slurm_job_tunnel/run_tunnel.py:109-119 | the watch raises `TimeoutError` exactly when every poll before the deadline failed; otherwise it returns the first successful poll's list |
| `RunTunnel.Watch` | slurm_job_tunnel/run_tunnel.py:109-119 | the watch fails only with the `TimeoutError` naming the watch texts, and returns as many lines as there are watch texts |
| `RunTunnel.PollsMade` | slurm_job_tunnel/run_tunnel.py:109-110 | the output file is read at most once per snapshot, and at least once if some poll succeeds |
| `RunTunnel.WatchSkipsFailedPoll` | slurm_job_tunnel/run_tunnel.py:111 | nothing carries over between polls: a failed poll can be dropped without changing the outcome |
| `RunTunnel.FirstSuccessfulPollAt` | slurm_job_tunnel/run_tunnel.py:109-117 | the first successful poll is the one at `k` when every earlier poll failed and poll `k` succeeded |
| `RunTunnel.JobTunnel.WatchOutputForText` | slurm_job_tunnel/run_tunnel.py:105-119 | the polling loop returns `Watch` of the snapshots. It runs one `cat` of the output file per poll made |
| `RunTunnel.FirstIndexWith` | slurm_job_tunnel/run_tunnel.py:129 | the index of the first line holding the marker, from a starting index; none when no line holds it |
| `RunTunnel.FirstWith` | slurm_job_tunnel/run_tunnel.py:129-135 | `next(...)` raises `StopIteration` exactly when no line contains the marker; otherwise it is the first line that does |
| `RunTunnel.FieldAfter` | slurm_job_tunnel/run_tunnel.py:129-135 | a missing marker is a `StopIteration`, and otherwise the field is `split(sep)[1]` of the first line with the marker |
| `RunTunnel.InfoOf` | slurm_job_tunnel/run_tunnel.py:129-139 | when all three fields are assigned, the termination time is a valid datetime |
| `RunTunnel.Converted` | slurm_job_tunnel/run_tunnel.py:137-139 | converts the port with `int()`, then the timestamp. The port and node are assigned before the timestamp is parsed. When all three are assigned, the time is valid |
| `RunTunnel.MarkerLineHasEquals` | slurm_job_tunnel/run_tunnel.py:129-130 | a line with the `PORT=` or `NODE=` marker contains `=`, so `split("=")[1]` cannot fail on it |
| `RunTunnel.InfoWithoutMarker` | slurm_job_tunnel/run_tunnel.py:129-135 | if any of the three markers is missing from the watch result, reading the info raises `StopIteration` before any field is assigned |
| `RunTunnel.FieldAfterEquals` | slurm_job_tunnel/run_tunnel.py:129-130 | reading the port or node field can fail only with `StopIteration` |
| `RunTunnel.FirstWithAt` | slurm_job_tunnel/run_tunnel.py:129 | the first line with the marker is the one at `i` when no earlier line has it |
| `RunTunnel.PortLine` | slurm_job_tunnel/run_tunnel.py:126-129 | the line `PORT=<n>` holds only the port marker, and its field after `=` is the printed number |
| `RunTunnel.NodeLine` | slurm_job_tunnel/run_tunnel.py:126-130 | the line `NODE=<name>` holds only the node marker, and its field after `=` is the name |
| `RunTunnel.CloseLine` | slurm_job_tunnel/run_tunnel.py:126-135 | the closing line holds only the close marker, and its field after `at: ` is the printed timestamp |
| `RunTunnel.CloseLineField` | slurm_job_tunnel/run_tunnel.py:131-132 | the text after the close marker is the field `split("at: ")[1]` |
| `RunTunnel.InfoOfTunnelLines` | slurm_job_tunnel/run_tunnel.py:129-141 | the port, node and closing lines the job prints are read back as the port, node and closing time they were printed from |
| `RunTunnel.FieldsOfTunnelLines` | slurm_job_tunnel/run_tunnel.py:129-135 | each of the three printed lines yields the text it was printed from |
| `RunTunnel.ThreeFields` | slurm_job_tunnel/run_tunnel.py:129-135 | three lines holding the markers in order yield their own fields |
| `RunTunnel.FieldOfLine` | slurm_job_tunnel/run_tunnel.py:129-135 | the field read after a marker comes from the first line that holds the marker |
| `RunTunnel.ConvertedTunnelValues` | slurm_job_tunnel/run_tunnel.py:137-139 | the printed port and closing time convert back to the values they were printed from |
| `RunTunnel.MatchingMarkers` | slurm_job_tunnel/run_tunnel.py:113-114 | the markers a line contains, in watch order |
| `RunTunnel.HitsOfSingleHits` | slurm_job_tunnel/run_tunnel.py:112-115 | when every line holds exactly one watch text, the hits are the lines themselves |
| `RunTunnel.PollOfSingleHits` | slurm_job_tunnel/run_tunnel.py:111-117 | when each of the first `n` lines holds exactly one of the `n` watch texts, the poll returns those lines, whatever follows them |
| `RunTunnel.DuplicatePortHits` | slurm_job_tunnel/run_tunnel.py:113-115 | each of the lines `PORT=<a>`, `PORT=<b>`, `NODE=<name>` holds exactly one marker |
| `RunTunnel.DuplicatePortLine` | slurm_job_tunnel/run_tunnel.py:116-135 | two port lines before the node line complete the poll with three hits and no close marker. The following `next(...)` then raises `StopIteration` |
| `RunTunnel.OutputReadsStep` | slurm_job_tunnel/run_tunnel.py:110 | one more poll appends one more `cat` of the output file |
| `RunTunnel.TunnelInfoStep` | slurm_job_tunnel/run_tunnel.py:121-141 | a job that is not running (or has no handle) raises before any field changes. A stopped job raises `ValueError("Job is not running")` |
| `RunTunnel.JobTunnel.GetTunnelInfo` | slurm_job_tunnel/run_tunnel.py:121-141 | the result, and the new port, node and termination time, are as `TunnelInfoStep` says. The output is read only for a running job. The id and the handle never change |
| `RunTunnel.JobTunnel.Assign` | slurm_job_tunnel/run_tunnel.py:137-141 | assigns the port and node, then the termination time, as far as the conversions got, and returns the triple only when all three were assigned |
| `RunTunnel.EntriesDistinct` | slurm_job_tunnel/run_tunnel.py:329-335 | `TunnelEntryFor` and `LocalEntryFor`: the `-job` entry points at the node through the login host. The `-port-forward` entry points at `localhost`. The three hosts differ |
| `RunTunnel.LocalCleanup` | slurm_job_tunnel/run_tunnel.py:235-243 | raises `ValueError` with no effect when the entry was never set. Otherwise it first removes the entry, and stops and joins the thread exactly when the thread is alive |
| `RunTunnel.LocalTunnel.constructor` | slurm_job_tunnel/run_tunnel.py:144-154 | a new local tunnel has no port, thread or entry, is not created, and has no stop request |
| `RunTunnel.LocalTunnel.Port` | slurm_job_tunnel/run_tunnel.py:156-161 | raises `ValueError("Local tunnel port is not set")` exactly while the port is unset |
| `RunTunnel.LocalTunnel.Thread` | slurm_job_tunnel/run_tunnel.py:163-168 | raises `ValueError("Local tunnel thread is not set")` exactly while the thread is unset |
| `RunTunnel.LocalTunnel.IsRunning` | slurm_job_tunnel/run_tunnel.py:196-197 | the tunnel is running exactly when its `thread` property does not raise and the thread is alive |
| `RunTunnel.LocalTunnel.LocalTunnelEntry` | slurm_job_tunnel/run_tunnel.py:170-175 | raises `ValueError("Local tunnel entry is not set")` exactly while the entry is unset |
| `RunTunnel.LocalTunnel.Create` | slurm_job_tunnel/run_tunnel.py:184-193 | sets the free port and a live thread. It spawns `ForwardCommand` and writes `LocalEntryFor`, the `-port-forward` entry for `localhost`. Afterwards every accessor succeeds |
| `RunTunnel.LocalTunnel.Cleanup` | slurm_job_tunnel/run_tunnel.py:235-243 | does what `LocalCleanup` says; a live thread is asked to stop and is finished afterwards, and a dead one is left alone |
| `RunTunnel.CleanupPlan` | slurm_job_tunnel/run_tunnel.py:246-267 | cancellation comes first whenever a job tunnel is passed, and a missing handle raises with no effect. The tunnel entry is removed when both the configuration and the entry are given. Only the local tunnel's entry is removed otherwise. The thread is stopped only if a live local tunnel is given. The call exits with 0 exactly when `exit` holds and nothing raised |
| `RunTunnel.Cleanup` | slurm_job_tunnel/run_tunnel.py:246-267 | the teardown run step by step does what `CleanupPlan` says of the job handle and the local tunnel. The local tunnel's thread is stopped and finished exactly when cancellation did not raise and a live tunnel with an entry was given; otherwise its stop flag and thread are unchanged. Its port, entry and created flag never change |
| `RunTunnel.FirstInterrupt` | slurm_job_tunnel/run_tunnel.py:300-307 | before `tunnel_entry` is bound, the first handler raises `NameError` and cancels nothing. Afterwards it cancels the job, removes the tunnel entry and exits |
| `RunTunnel.SecondInterrupt` | slurm_job_tunnel/run_tunnel.py:361-369 | cancels the job, then removes the tunnel entry and the local entry, stops a live thread, and exits with 0 |
| `RunTunnel.LastIndexOf` | slurm_job_tunnel/run_tunnel.py:272 | the index of the last occurrence of a character, or -1 |
| `RunTunnel.Extension` | slurm_job_tunnel/run_tunnel.py:272 | the extension is empty or a suffix of the path that starts with `.`, holds no other `.` and no `/` |
| `RunTunnel.ExtensionOfScript` | slurm_job_tunnel/run_tunnel.py:272 | the extension of `<stem>.<name>` is `.<name>` |
| `RunTunnel.OutputPathOfScript` | slurm_job_tunnel/run_tunnel.py:272-273 | `OutputPath`: for a script `<stem>.<name>` whose stem does not contain the extension, the output path is `<stem>.out` |
| `RunTunnel.OutputPathWithoutExtension` | slurm_job_tunnel/run_tunnel.py:272-273 | without an extension, `.out` is put before every character and at the end |
| `RunTunnel.ExportList` | slurm_job_tunnel/run_tunnel.py:279-286 | the export list is two entries: `SIF_BIND_PATH=<path>`, or an empty entry exactly when no bind path is configured, then `SIF_IMAGE=<image>` |
| `PyDateTime.SleepOnlyBeforeClosing` | slurm_job_tunnel/run_tunnel.py:379 | `SleepSeconds`: the countdown sleeps for the closing time minus now minus 60 seconds. It sleeps only while the clock is more than a minute before the closing time, and otherwise raises `ValueError` |
| `PyDateTime.Sleep` | slurm_job_tunnel/run_tunnel.py:379 | a sleep succeeds exactly for a non-negative length |
| `PyDateTime.ParseTimestamp` | slurm_job_tunnel/run_tunnel.py:139 | a parsed timestamp has the fixed shape and is a valid datetime |
| `PyDateTime.ParseOfFormat` | slurm_job_tunnel/run_tunnel.py:139 | parsing a datetime printed by `Format` from the year 1000 on gives it back |
| `PyDateTime.FormatOfParse` | slurm_job_tunnel/run_tunnel.py:326 | printing a parsed timestamp gives the text back |
| `PyDateTime.FormatChars` | slurm_job_tunnel/run_tunnel.py:326 | a printed timestamp holds only digits, `-`, space and `:` |
| `PyDateTime.SecondsOrder` | slurm_job_tunnel/run_tunnel.py:379 | the ordering of datetimes agrees with the ordering of their second counts, so the difference has the right sign |
| `PyDateTime.SecondsGrow` | slurm_job_tunnel/run_tunnel.py:379 | a later datetime is more seconds from the epoch |
| `PyDateTime.DaysInMonth` | slurm_job_tunnel/run_tunnel.py:139 | every month has 28 to 31 days |
| `PyDateTime.DayOfYearBound` | slurm_job_tunnel/run_tunnel.py:379 | the day of the year lies within the year |
| `PyDateTime.Pad2` | slurm_job_tunnel/run_tunnel.py:326 | a two-digit field is two decimal digits |
| `PyText.LastTokenOf` | slurm_job_tunnel/run_tunnel.py:90 | `s.strip().split()[-1]` fails with `IndexError` exactly when `s` has no token; otherwise it is the last token of `s` |
| `PyText.LastTokenOfWord` | job_tunnel.py:93 | a word that ends the text after a whitespace character is the last token |
| `PyText.StripIff` | job_tunnel.py:111 | a string strips to a word exactly when it is that word padded with whitespace |
| `PyText.StripPadded` | job_tunnel.py:111 | stripping a padded word gives the word back |
| `PyText.StripNotPadded` | job_tunnel.py:111 | a string that does not strip to a word is not that word padded |
| `PyText.StripEnds` | job_tunnel.py:111 | a stripped string is empty or starts and ends with a non-space |
| `PyText.StripLeft` | job_tunnel.py:111 | `lstrip` removes exactly the leading whitespace |
| `PyText.StripRight` | job_tunnel.py:111 | `rstrip` removes exactly the trailing whitespace |
| `PyText.Tokens` | slurm_job_tunnel/run_tunnel.py:90 | `split()` yields non-empty tokens without whitespace |
| `PyText.TokensOfStrip` | slurm_job_tunnel/run_tunnel.py:90 | stripping before `split()` changes nothing |
| `PyText.TokensAroundSpace` | slurm_job_tunnel/run_tunnel.py:90 | a whitespace character separates the tokens on its two sides |
| `PyText.TokensOfWord` | slurm_job_tunnel/run_tunnel.py:90 | a word followed by whitespace is a single token |
| `PyText.Find` | slurm_job_tunnel/run_tunnel.py:273 | the lowest index at which the pattern occurs, or none when it occurs nowhere |
| `PyText.ContainsIff` | slurm_job_tunnel/run_tunnel.py:114 | `pat in s` holds exactly when `pat` occurs at some index of `s` |
| `PyText.SplitOn` | slurm_job_tunnel/run_tunnel.py:129 | `split(sep)` has one piece exactly when `sep` is absent; the first piece ends where `sep` first occurs, and no piece contains `sep` |
| `PyText.JoinSplitOn` | slurm_job_tunnel/run_tunnel.py:129 | joining the pieces of a split with the separator gives the string back |
| `PyText.SecondField` | slurm_job_tunnel/run_tunnel.py:129-132 | `split(sep)[1]` succeeds exactly when `sep` occurs; the field follows the first occurrence and runs to the next |
| `PyText.SecondFieldAt` | job_tunnel.py:135 | the field after a first occurrence at `i` is the rest when it has no further occurrence |
| `PyText.SecondFieldOfChar` | job_tunnel.py:135-137 | `(a + c + b).split(c)[1] == b` when neither part contains `c` |
| `PyText.InterleaveLength` | slurm_job_tunnel/run_tunnel.py:273 | replacing the empty string inserts the replacement once per character and once at the end |
| `PyText.ReplaceAbsent` | job_tunnel.py:78-80 | with no occurrence of the target, nothing is replaced |
| `PyText.ReplaceDottedSuffix` | slurm_job_tunnel/run_tunnel.py:273 | replacing the suffix `.<name>` of `<stem>.<name>`, when the stem does not contain it, replaces only that suffix |
| `PyText.ReplaceRemoves` | job_tunnel.py:146-151 | after a replacement with a non-empty text that shares no character with the target, the target no longer occurs |
| `PyText.ReplaceKeeps` | job_tunnel.py:146-151 | an occurrence of a pattern that no occurrence of the target overlaps is still there after the replacement |
| `PyText.OccurrencesApart` | job_tunnel.py:146-151 | occurrences of two patterns cannot overlap when neither pattern's last character is in the other, or when the target neither starts inside the pattern nor lies within it |
| `PyText.ReplaceKeepsApart` | job_tunnel.py:146-151 | a pattern present before a replacement whose target cannot overlap it is present after it |
| `PyText.ReplaceDropsChar` | job_tunnel.py:77-79 | replacing a one-character target by nothing removes every copy of that character |
| `PyText.ReplaceAvoidsChar` | job_tunnel.py:79-80 | a replacement whose text and input lack a character cannot bring it in |
| `PyText.SplitLines` | slurm_job_tunnel/run_tunnel.py:112 | no line of `splitlines()` contains a line break |
| `PyText.SplitLinesOfTerminated` | job_tunnel.py:126 | reading back a file written line by line gives the same lines |
| `PyText.ParseIntPadded` | slurm_job_tunnel/run_tunnel.py:90 | `int()` ignores surrounding whitespace: `int(w1 + str(i) + w2) == i` |
| `PyText.ParseIntOfString` | slurm_job_tunnel/run_tunnel.py:137 | `int(str(i)) == i` |
| `PyText.ParseInt` | slurm_job_tunnel/run_tunnel.py:137 | an accepted integer literal starts, after stripping, with a digit or a sign |
| `PyText.IntToStringEnds` | job_tunnel.py:147 | `str(i)` is not empty and has no surrounding whitespace |
| `JobTunnelScript.OutputPathOfRelativeScript` | job_tunnel.py:77-80 | `OutputPathFor`: a relative script path `<stem>.sbatch` that does not mention the home directory gives `<stem>.out` |
| `JobTunnelScript.OutputPathOfScriptUnderHome` | job_tunnel.py:77-80 | a script path under the home directory loses the home prefix, then `.sbatch` becomes `.out` |
| `JobTunnelScript.OutputPathWithRootHome` | job_tunnel.py:77-80 | when the home directory is `/`, the output path `OutputPathFor` gives holds no slash at all |
| `JobTunnelScript.HomeJoin` | job_tunnel.py:88 | `os.path.join("~", path)` ends with the path; it is the path itself exactly when the path is absolute, and otherwise the path after `~/` |
| `JobTunnelScript.JobTunnel.constructor` | job_tunnel.py:62-81 | a new job keeps its parameters and has no id, port or node. Its start time is the clock reading, and its output path is the derived one |
| `JobTunnelScript.JobTunnel.StartSlurmJob` | job_tunnel.py:83-93 | runs `SubmitCommand`, `sbatch` with the time, the output path and the script path under `~`. The id is the last token of the stripped stdout, kept as a string. A missing token raises `IndexError` and leaves the id unset. Nothing else changes |
| `JobTunnelScript.JobTunnel.SetJobId` | job_tunnel.py:93 | the id is assigned only when a token was found |
| `JobTunnelScript.JobStatus` | job_tunnel.py:100-112 | the status is the stripped `squeue` output: empty, or starting and ending with a non-space |
| `JobTunnelScript.JobRunningIff` | job_tunnel.py:114-116 | `JobRunning`: the job is running exactly when `squeue` printed `RUNNING` padded with whitespace |
| `JobTunnelScript.CancellableAfterStrip` | job_tunnel.py:95-96 | a padded PENDING, RUNNING or STOPPED status is cancellable. Output that is only whitespace is not |
| `JobTunnelScript.JobTunnel.CancelSlurmJob` | job_tunnel.py:95-98 | always queries the status first, then issues exactly one `scancel` of the id exactly when the status is PENDING, RUNNING or STOPPED |
| `JobTunnelScript.FirstLineWith` | job_tunnel.py:126-128 | the index of the first line containing the text, or none when no line contains it |
| `JobTunnelScript.FirstLineAt` | job_tunnel.py:126-128 | the first line with the text is the one at `j` when no earlier line has it |
| `JobTunnelScript.ScanLines` | job_tunnel.py:126-128 | the line loop of one poll finds the first line containing the text |
| `JobTunnelScript.FirstSnapshotWith` | job_tunnel.py:119-128 | the first snapshot with a matching line; every earlier snapshot has none |
| `JobTunnelScript.FirstSnapshotAt` | job_tunnel.py:119-128 | the first snapshot with a match is the one at `k` when no earlier one has a match |
| `JobTunnelScript.ReadsFor` | job_tunnel.py:119-125 | the output file is read at most once per snapshot |
| `JobTunnelScript.WatchForFirstLine` | job_tunnel.py:118-129 | `WatchFor`: the returned line contains the watch text. It is the first such line of its snapshot, and no earlier snapshot had one. The loop keeps polling exactly when no snapshot has such a line |
| `JobTunnelScript.OutputReadsStep` | job_tunnel.py:120-121 | one more poll appends one more `cat` of the output file |
| `JobTunnelScript.JobTunnel.WatchOutputForText` | job_tunnel.py:118-129 | the polling loop returns what `WatchFor` says, and reads the file once per poll made |
| `JobTunnelScript.TunnelInfoLines` | job_tunnel.py:134-137 | the port and node lines the job prints carry their markers, and the field after `=` is the printed value |
| `JobTunnelScript.TunnelInfoOutcome` | job_tunnel.py:131-140 | `TunnelInfoPlan` raises `ValueError` after the status query exactly when the job is not running. It returns exactly when both markers are found, each value being the text between the first and second `=` of its line |
| `JobTunnelScript.JobTunnel.GetTunnelInfo` | job_tunnel.py:131-140 | does what `TunnelInfoPlan` says. Port and node are assigned together, only when it returns. The other fields never change |
| `JobTunnelScript.JobTunnel.SetPortAndNode` | job_tunnel.py:138-139 | assigns port and node, and nothing else |
| `JobTunnelScript.SubstituteAllLines` | job_tunnel.py:145-153 | the substituted template has as many lines as the template, each `SubstituteLine` of its own line |
| `JobTunnelScript.PlaceholderSubstituted` | job_tunnel.py:146-153 | the placeholder that is replaced leaves no trace: CPUS_PER_TASK always, MEM and REMOTE_SIF_PATH when the value is non-empty and shares no character with the placeholder. A line without a placeholder is unchanged |
| `JobTunnelScript.LaterPlaceholdersKept` | job_tunnel.py:146-151 | only the first placeholder present, in the order CPUS_PER_TASK, MEM, REMOTE_SIF_PATH, is replaced: a later placeholder on the same line is still there afterwards, whatever the values |
| `JobTunnelScript.FileLinesOfText` | job_tunnel.py:144-145 | reading back a file whose lines each end with a line break, after which a last piece may follow without one, yields one line per written line, each with its break, then that last piece as it is |
| `PyText.FileLines` | job_tunnel.py:144-145 | iterating over a text file never yields an empty line |
| `JobTunnelScript.JoinReadLines` | job_tunnel.py:155-156 | joining lines that kept their line breaks with `"\n"` doubles every break between them |
| `JobTunnelScript.JobTunnel.CreateJobScript` | job_tunnel.py:142-156 | one output line per line the template file yields, each substituted on its own, written joined with `"\n"` |
| `JobTunnelScript.CodePids` | job_tunnel.py:179-193 | the pids of exactly the processes whose joined command line mentions `/code` (`IsCodeCommand`). An unreadable (`None`) command line raises `TypeError` |
| `JobTunnelScript.GetCodePids` | job_tunnel.py:179-193 | the collection loop computes `CodePids` |
| `JobTunnelScript.KillList` | job_tunnel.py:198-200 | exactly the code pids not in the keep-list (not `Kept`) |
| `JobTunnelScript.KillAllWithoutKeepList` | job_tunnel.py:199 | without a keep-list, or with an empty one, every code pid is terminated, in order |
| `JobTunnelScript.KillListStep` | job_tunnel.py:198-202 | looking at one more code pid appends its termination unless it is kept |
| `JobTunnelScript.KillPlan` | job_tunnel.py:196-212 | raises exactly when the pids cannot be collected, and then terminates nothing. Every termination is of a code pid not in the keep-list |
| `JobTunnelScript.KillCodeProcesses` | job_tunnel.py:196-212 | the kill loop does what `KillPlan` says |
| `JobTunnelScript.CleanupPlan` | job_tunnel.py:215-232 | cancellation comes first. Processes are killed only when earlier code pids were recorded, and an escaping `TypeError` stops the teardown. The tunnel entry is removed last, and only when both the configuration and the entry are given |
| `JobTunnelScript.Cleanup` | job_tunnel.py:215-232 | the teardown run step by step does what `CleanupPlan` says |
| `JobTunnelScript.CleanupAfterFirstLaunch` | job_tunnel.py:296-300 | when no code process ran before the IDE was started, the recorded list is empty and nothing is terminated |
| `JobTunnelScript.CleanupTerminatesNewProcesses` | job_tunnel.py:225-226 | with earlier code pids recorded, exactly the code processes that are not among them are asked to terminate |

## How the code differs from its description

The model follows the code where it differs from the documented
behaviour:

- **`get_tunnel_info` in `run_tunnel.py`.** It assigns `port` and `node`
  before `strptime` parses the closing time. A malformed timestamp
  therefore leaves the port and node set and the termination time unset.
  They are not all set together.
- **Counting hits.** The poll counts hits, not distinct markers. Two
  `PORT=` lines followed by `NODE=` complete the count without the close
  marker, and the subsequent `next(...)` raises `StopIteration`: neither
  port wins (`RunTunnel.DuplicatePortLine`). A line holding two
  markers counts twice. A line that pushes the count past the target
  makes that poll fail (`RunTunnel.PollOvershoot`).
- **Negative sleep.** Once less than a minute is left before the closing
  time, the sleep length is negative and `time.sleep` raises `ValueError`.
  It does not proceed at once.
- **The first SIGINT handler** refers to `tunnel_entry`, which is bound
  only after the tunnel information is read. Until then the handler
  raises `NameError` and nothing is cancelled.
- **`cleanup` in `run_tunnel.py`.** A `JobTunnel` is always truthy, so
  cancellation is attempted even before submission. The `None` job handle
  then raises `AttributeError`, and the later steps do not run. The local
  tunnel's cleanup raises `ValueError` when its entry was never set.
- **The output path in `run_tunnel.py`.** For a script path without an
  extension, `replace("", ".out")` inserts `.out` before every character
  and at the end.
- **The output path in `job_tunnel.py`.** The home directory is removed
  wherever it occurs, not only as a prefix.
- **`create_job_script`.** It keeps each line's line break and joins the
  lines with another `"\n"`, so the written script has blank lines
  between the template's lines.
- **`get_code_pids`.** A process whose command line cannot be read gives
  `" ".join(None)`, a `TypeError` that the handler does not catch. It
  escapes `kill_code_processes` and `cleanup`.
- **`prev_code_pids`.** An empty list, as when no code process ran
  before the IDE was started, means no process is killed at all.
- **`watch_output_for_text` in `job_tunnel.py`** has no timeout. When the
  snapshots run out without a match, the model reports that it is still
  polling.

## Left out

- Running commands over SSH, `subprocess`, `rsync` and `execute_on_host` are oracles: the model takes their stdout as a parameter and logs the command.
- `SlurmJob`, `SSHConfig` and `SSHConfigEntry` come from the slurm_job_util library, which is not part of this model. Status, cancellation and configuration updates and removals are uninterpreted effects. The truthiness of an `SSHConfig` is a boolean parameter.
- Threads, `threading.Event`, the pexpect child and its host-key prompt, binding a socket to find a free port, and installing SIGINT handlers are left out: they are about concurrency and signals. The free port is a parameter of `RunTunnel.LocalTunnel.Create`, and the thread is a two-state value.
- The tkinter pop-ups, logging, `show_tunnel_ready_info` and `show_time_limit_warning` are left out: they only produce output.
- psutil's process enumeration, `terminate` and `wait_procs` are left out, and so are the exceptions they raise and the code swallows. The processes are a parameter, and a termination is an effect.
- The clock is left out. Deadlines and the endless loop of `job_tunnel.py` are bounded by the given snapshots, `wait_time` sleeps are left out, and the script's own `(time - 1) * 60` and `60` second sleeps are left out.
- The queue-wait loops `while not job_tunnel.is_running` and `while not job_tunnel.job_running` are not modelled: they only sleep until the oracle reports a running job.
- `run_tunnel` and `main` themselves are not modelled as procedures. Their pure derivations are: the output path, the export list, the tunnel and local entries, and the sleep duration. `job_tunnel.py`'s `sync_job_script`, `setup_slurm_job` and `is_code_installed` are I/O only.
- `slurm_job_tunnel/main.py`, `setup.py` and `slurm_job_tunnel/tunnel_config.py` are not part of this model: they handle argument parsing, packaging and a record of defaults.
- `RunTunnel.JobTunnel.WatchOutputForText`: the `TimeoutError` message is built from the watch texts each in single quotes, which matches `repr` only for texts without quotes or backslashes.
- `PyDateTime.ParseTimestamp`: accepts only the zero-padded fixed-width form `YYYY-MM-DD HH:MM:SS`, which is what the job prints. `strptime` also accepts shorter fields, which the model rejects.
- `PyDateTime.SleepOnlyBeforeClosing`: time is whole seconds. Microseconds and the floating-point `total_seconds()` are left out.
- `PyText.ParseInt`: accepts ASCII digits with an optional sign and surrounding whitespace. Underscores between digits and non-ASCII digits, which `int()` also accepts, are left out.
- `JobTunnelScript.JobTunnel.CreateJobScript`: the template is given as the text of the file after newline translation, and writing the file is the returned text.
- `PyText.FileLines`: the text is taken after the newline translation of text mode; `\r\n` and `\r` in the file itself are not modelled.
- `RunTunnel.JobIdOf`: the `ValueError` message puts the token in single quotes in full. CPython quotes it with `repr` and truncates it to 200 characters, which differs for tokens holding quotes or backslashes and for longer tokens.
- `PyDateTime.ParseTimestamp`: the `ValueError` message is `time data does not match format '%Y-%m-%d %H:%M:%S'` without the data. `strptime` includes the data with `repr`, and a day beyond the end of its month is reported by the `datetime` constructor with a message of its own.
