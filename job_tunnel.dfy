/**
 * The stand-alone script `job_tunnel.py`: it fills in the batch script
 * template, submits it, waits for the job to print its port and node,
 * and on exit cancels the job, terminates the IDE processes it started
 * and removes the SSH configuration entry.
 *
 * As in `RunTunnel`, a command run over ssh is an oracle whose stdout is a
 * parameter, and what the script does to the outside world is returned as
 * an effect log. Reading the job's output file in an endless loop becomes
 * a sequence of snapshots: when they run out without a match the loop is
 * still polling.
 */
module JobTunnelScript {
  import opened Wrappers
  import opened PyText
  import RunTunnel

  /** An entry of the SSH client configuration (`SSHEntry`). */
  datatype SshEntry = SshEntry(host: String, node: String, port: String, user: String, proxy: String)

  /** What psutil reports of a process: its pid and its command line, which
      is `None` when the process could not be inspected. */
  datatype ProcInfo = ProcInfo(pid: int, cmdline: Option<seq<String>>)

  /** The externally visible actions, in the order they happen. */
  datatype Effect =
    | Ssh(host: String, command: String)  // a command run on the remote host
    | Terminate(pid: int)                 // a local process asked to terminate
    | RemoveEntry(host: String)           // an entry removed from the SSH config

  /** How `get_tunnel_info` ends: with the port and node, with an
      exception, or still polling when the snapshots ran out. */
  datatype InfoOutcome = Returned(port: String, node: String) | Raised(error: PyError) | Polling

  // ---------------------------------------------------------------------
  // Derived strings

  /** `remote_path.replace(home, "").replace(".sbatch", ".out")`. */
  function OutputPathFor(remotePath: String, home: String): String {
    Replace(Replace(remotePath, home, ""), ".sbatch", ".out")
  }

  /** A relative script path `<stem>.sbatch` that does not mention the
      home directory gets the output path `<stem>.out`. */
  lemma {:induction false} OutputPathOfRelativeScript(stem: String, home: String)
    requires home != [] && !Contains(stem + ".sbatch", home)
    requires !Contains(stem, ".sbatch")
    ensures OutputPathFor(stem + ".sbatch", home) == stem + ".out"
  {
    ReplaceAbsent(stem + ".sbatch", home, "");
    assert "." + "sbatch" == ".sbatch";
    assert stem + "." + "sbatch" == stem + ".sbatch";
    ReplaceDottedSuffix(stem, "sbatch", ".out");
  }

  /** A script path under the home directory loses the home prefix, so
      `<home><stem>.sbatch` gets the output path `<stem>.out`. */
  lemma {:induction false} OutputPathOfScriptUnderHome(home: String, stem: String)
    requires home != [] && !Contains(stem + ".sbatch", home)
    requires !Contains(stem, ".sbatch")
    ensures OutputPathFor(home + stem + ".sbatch", home) == stem + ".out"
  {
    var script := stem + ".sbatch";
    var path := home + script;
    assert path[..|home|] == home;
    assert OccursAt(path, home, 0);
    assert Find(path, home) == Some(0);
    ReplaceStep(path, home, "", 0);
    assert path[|home|..] == script;
    ReplaceAbsent(script, home, "");
    assert Replace(path, home, "") == script;
    OutputPathOfRelativeScript(stem, home);
    assert home + stem + ".sbatch" == path;
  }

  /** With the home directory at the root, `~` expands to `/` and the
      first replacement deletes every slash: the output path holds none,
      whatever directory the script lies in. */
  lemma OutputPathWithRootHome(remotePath: String)
    ensures '/' !in OutputPathFor(remotePath, "/")
  {
    ReplaceDropsChar(remotePath, '/');
    ReplaceAvoidsChar(Replace(remotePath, "/", ""), ".sbatch", ".out", '/');
  }

  /** `os.path.join("~", path)`: an absolute path replaces `~`. */
  function HomeJoin(path: String): (r: String)
    ensures |path| <= |r| && r[|r| - |path|..] == path
    ensures r == path <==> path != [] && path[0] == '/'
    ensures r != path ==> |r| == |path| + 2 && r[..2] == "~/"
  {
    if path != [] && path[0] == '/' then path else "~/" + path
  }

  /** The `sbatch` command line that submits the script. */
  function SubmitCommand(time: int, outputPath: String, remotePath: String): String {
    "sbatch --time=" + IntToString(time) + " --output=" + outputPath + " " + HomeJoin(remotePath)
  }

  /** The id as an f-string shows it: `None` before submission. */
  function JobIdText(jobId: Option<String>): String {
    if jobId.Some? then jobId.value else "None"
  }

  /** The `squeue` query behind `job_status`. */
  function StatusQuery(host: String, jobId: Option<String>): Effect {
    Ssh(host, "squeue -j " + JobIdText(jobId) + " -h -o %T")
  }

  // ---------------------------------------------------------------------
  // Job status

  /** `job_status`: the stripped output of `squeue`. */
  function JobStatus(stdout: String): (r: String)
    ensures r == [] || (!IsSpace(r[0]) && !IsSpace(r[|r| - 1]))
  {
    StripEnds(stdout);
    Strip(stdout)
  }

  /** `job_running`. */
  predicate JobRunning(stdout: String) {
    JobStatus(stdout) == "RUNNING"
  }

  /** The job runs exactly when `squeue` printed `RUNNING` and otherwise
      only whitespace. */
  lemma JobRunningIff(stdout: String)
    ensures JobRunning(stdout) <==>
      exists w1, w2 :: AllSpace(w1) && AllSpace(w2) && stdout == w1 + "RUNNING" + w2
  {
    var t := "RUNNING";
    assert t != [] && !IsSpace(t[0]) && !IsSpace(t[|t| - 1]);
    StripIff(stdout, t);
  }

  /** The states in which `cancel_slurm_job` cancels the job. */
  const CancellableStates: seq<String> := ["PENDING", "RUNNING", "STOPPED"]

  /** A padded cancellable state is recognised after stripping, and empty
      output is not a cancellable state. */
  lemma CancellableAfterStrip(w1: String, state: String, w2: String)
    requires AllSpace(w1) && AllSpace(w2) && state in CancellableStates
    ensures JobStatus(w1 + state + w2) in CancellableStates
    ensures JobStatus(w1 + w2) !in CancellableStates
  {
    assert state == "PENDING" || state == "RUNNING" || state == "STOPPED";
    assert !IsSpace(state[0]) && !IsSpace(state[|state| - 1]);
    StripPadded(w1, state, w2);
    var w := w1 + w2;
    forall k | 0 <= k < |w|
      ensures IsSpace(w[k])
    {
      if k < |w1| { assert w[k] == w1[k]; } else { assert w[k] == w2[k - |w1|]; }
    }
    assert Strip(w) == [];
  }

  // ---------------------------------------------------------------------
  // The output scan

  /** The index of the first of `lines` that contains `text`. */
  function FirstLineWith(lines: seq<String>, text: String): (r: Option<nat>)
    ensures r.Some? ==> r.value < |lines| && Contains(lines[r.value], text)
    ensures r.Some? ==> forall j :: 0 <= j < r.value ==> !Contains(lines[j], text)
    ensures r.None? ==> forall j :: 0 <= j < |lines| ==> !Contains(lines[j], text)
    decreases |lines|
  {
    if lines == [] then None
    else if Contains(lines[0], text) then Some(0)
    else
      match FirstLineWith(lines[1..], text)
      case None => None
      case Some(j) => Some(j + 1)
  }

  /** The first line with `text` is the one at `j` when no earlier line
      has it. */
  lemma {:induction false} FirstLineAt(lines: seq<String>, text: String, j: nat)
    requires j < |lines| && Contains(lines[j], text)
    requires forall i :: 0 <= i < j ==> !Contains(lines[i], text)
    ensures FirstLineWith(lines, text) == Some(j)
  {
    var r := FirstLineWith(lines, text);
    assert r.Some?;
    assert !(r.value < j) && !(j < r.value);
  }

  /** The `for line in output.splitlines()` loop of one poll: the index of
      the first line containing `text`. */
  method ScanLines(lines: seq<String>, text: String) returns (r: Option<nat>)
    ensures r == FirstLineWith(lines, text)
  {
    var j := 0;
    while j < |lines|
      invariant 0 <= j <= |lines|
      invariant forall i :: 0 <= i < j ==> !Contains(lines[i], text)
    {
      if Contains(lines[j], text) {
        FirstLineAt(lines, text, j);
        return Some(j);
      }
      j := j + 1;
    }
    return None;
  }

  /** The first matching line of each snapshot. */
  function LineScans(snapshots: seq<String>, text: String): (r: seq<Option<nat>>)
    ensures |r| == |snapshots|
    ensures forall k :: 0 <= k < |snapshots| ==> r[k] == FirstLineWith(SplitLines(snapshots[k]), text)
  {
    seq(|snapshots|, k requires 0 <= k < |snapshots| => FirstLineWith(SplitLines(snapshots[k]), text))
  }

  /** The index of the first snapshot one of whose lines contains `text`. */
  function FirstSnapshotWith(snapshots: seq<String>, text: String): (r: Option<nat>)
    ensures r.Some? ==> r.value < |snapshots|
    ensures r.Some? ==> FirstLineWith(SplitLines(snapshots[r.value]), text).Some?
    ensures r.Some? ==> forall k :: 0 <= k < r.value ==> FirstLineWith(SplitLines(snapshots[k]), text).None?
    ensures r.None? ==> forall k :: 0 <= k < |snapshots| ==> FirstLineWith(SplitLines(snapshots[k]), text).None?
  {
    FirstSome(LineScans(snapshots, text), 0)
  }

  /** The first snapshot with a matching line is the one at `k` when no
      earlier snapshot has one. */
  lemma {:induction false} FirstSnapshotAt(snapshots: seq<String>, text: String, k: nat)
    requires k < |snapshots| && FirstLineWith(SplitLines(snapshots[k]), text).Some?
    requires forall i :: 0 <= i < k ==> FirstLineWith(SplitLines(snapshots[i]), text).None?
    ensures FirstSnapshotWith(snapshots, text) == Some(k)
  {
    var r := FirstSnapshotWith(snapshots, text);
    assert r.Some?;
    assert !(r.value < k) && !(k < r.value);
  }

  /** What `watch_output_for_text` returns over these snapshots: the first
      matching line of the first snapshot that has one; `None` when the
      loop is still polling after the last snapshot. */
  function WatchFor(snapshots: seq<String>, text: String): Option<String> {
    match FirstSnapshotWith(snapshots, text)
    case None => None
    case Some(k) =>
      var lines := SplitLines(snapshots[k]);
      Some(lines[FirstLineWith(lines, text).value])
  }

  /** The number of times the output file is read. */
  function ReadsFor(snapshots: seq<String>, text: String): (n: nat)
    ensures n <= |snapshots|
  {
    match FirstSnapshotWith(snapshots, text)
    case None => |snapshots|
    case Some(k) => k + 1
  }

  /** The returned line contains the watch text, it is the first such line
      of its snapshot, and no earlier snapshot had one; the loop goes on
      polling exactly when no snapshot has such a line. */
  lemma WatchForFirstLine(snapshots: seq<String>, text: String)
    ensures WatchFor(snapshots, text).Some? ==> Contains(WatchFor(snapshots, text).value, text)
    ensures WatchFor(snapshots, text).Some? ==>
      exists k, j :: 0 <= k < |snapshots| && 0 <= j < |SplitLines(snapshots[k])|
        && SplitLines(snapshots[k])[j] == WatchFor(snapshots, text).value
        && (forall j' :: 0 <= j' < j ==> !Contains(SplitLines(snapshots[k])[j'], text))
        && (forall k', j' :: 0 <= k' < k && 0 <= j' < |SplitLines(snapshots[k'])| ==>
              !Contains(SplitLines(snapshots[k'])[j'], text))
    ensures WatchFor(snapshots, text).None? <==>
      forall k, j :: 0 <= k < |snapshots| && 0 <= j < |SplitLines(snapshots[k])| ==>
        !Contains(SplitLines(snapshots[k])[j], text)
  {
    match FirstSnapshotWith(snapshots, text)
    case None =>
    case Some(k) =>
      var j := FirstLineWith(SplitLines(snapshots[k]), text).value;
      assert SplitLines(snapshots[k])[j] == WatchFor(snapshots, text).value;
  }

  /** One read of the output file per poll. */
  function OutputReads(host: String, output: String, n: nat): seq<Effect> {
    seq(n, _ => Ssh(host, "cat " + output))
  }

  /** One more poll appends one more read. */
  lemma {:induction false} OutputReadsStep(host: String, output: String, n: nat)
    ensures OutputReads(host, output, n + 1) == OutputReads(host, output, n) + [Ssh(host, "cat " + output)]
  {
    var a, b := OutputReads(host, output, n + 1), OutputReads(host, output, n) + [Ssh(host, "cat " + output)];
    assert |a| == |b|;
    forall i | 0 <= i < |a|
      ensures a[i] == b[i]
    {
    }
  }

  /** The port and node lines the job prints: the field after `=` is the
      value printed, as long as the value holds no `=`. */
  lemma TunnelInfoLines(port: String, node: String)
    requires '=' !in port && '=' !in node
    ensures Contains(RunTunnel.PortMarker + port, RunTunnel.PortMarker)
    ensures Contains(RunTunnel.NodeMarker + node, RunTunnel.NodeMarker)
    ensures SecondField(RunTunnel.PortMarker + port, "=") == Success(port)
    ensures SecondField(RunTunnel.NodeMarker + node, "=") == Success(node)
  {
    ContainsInfix([], RunTunnel.PortMarker, port);
    ContainsInfix([], RunTunnel.NodeMarker, node);
    assert [] + RunTunnel.PortMarker + port == "PORT" + ['='] + port;
    assert [] + RunTunnel.NodeMarker + node == "NODE" + ['='] + node;
    SecondFieldOfChar("PORT", '=', port);
    SecondFieldOfChar("NODE", '=', node);
  }

  /** What `get_tunnel_info` returns and does, given the status query it
      makes, the host and output file it reads, the status output and the
      snapshots seen while watching for each marker. */
  function TunnelInfoPlan(query: Effect, host: String, output: String, statusStdout: String,
                          portSnapshots: seq<String>, nodeSnapshots: seq<String>): (r: (InfoOutcome, seq<Effect>))
  {
    if !JobRunning(statusStdout) then (Raised(ValueError("Job is not running")), [query])
    else
      var portReads := [query] + OutputReads(host, output, ReadsFor(portSnapshots, RunTunnel.PortMarker));
      match WatchFor(portSnapshots, RunTunnel.PortMarker)
      case None => (Polling, portReads)
      case Some(portLine) =>
        match SecondField(portLine, "=")
        case Failure(e) => (Raised(e), portReads)
        case Success(port) =>
          var nodeReads := portReads + OutputReads(host, output, ReadsFor(nodeSnapshots, RunTunnel.NodeMarker));
          match WatchFor(nodeSnapshots, RunTunnel.NodeMarker)
          case None => (Polling, nodeReads)
          case Some(nodeLine) =>
            match SecondField(nodeLine, "=")
            case Failure(e) => (Raised(e), nodeReads)
            case Success(node) => (Returned(port, node), nodeReads)
  }

  /** Only a job that is not running makes `get_tunnel_info` raise: the
      lines it waits for contain `=`. Otherwise it returns exactly when
      both markers are found, each value being the text after the first
      `=` of its line, up to the next `=`; the output is read while
      waiting for the node only once the port is known. */
  lemma TunnelInfoOutcome(query: Effect, host: String, output: String, statusStdout: String,
                          portSnapshots: seq<String>, nodeSnapshots: seq<String>)
    ensures var r := TunnelInfoPlan(query, host, output, statusStdout, portSnapshots, nodeSnapshots);
      (r.0.Raised? <==> !JobRunning(statusStdout))
      && (r.0.Raised? ==> r.0.error == ValueError("Job is not running") && r.1 == [query])
      && (r.0.Returned? <==> JobRunning(statusStdout) && WatchFor(portSnapshots, RunTunnel.PortMarker).Some?
                             && WatchFor(nodeSnapshots, RunTunnel.NodeMarker).Some?)
      && (r.0.Returned? ==> !Contains(r.0.port, "=") && !Contains(r.0.node, "=")
                            && SecondField(WatchFor(portSnapshots, RunTunnel.PortMarker).value, "=") == Success(r.0.port)
                            && SecondField(WatchFor(nodeSnapshots, RunTunnel.NodeMarker).value, "=") == Success(r.0.node))
      && (JobRunning(statusStdout) && WatchFor(portSnapshots, RunTunnel.PortMarker).None? ==>
            r.1 == [query] + OutputReads(host, output, |portSnapshots|))
  {
    WatchForFirstLine(portSnapshots, RunTunnel.PortMarker);
    WatchForFirstLine(nodeSnapshots, RunTunnel.NodeMarker);
    var portLine := WatchFor(portSnapshots, RunTunnel.PortMarker);
    var nodeLine := WatchFor(nodeSnapshots, RunTunnel.NodeMarker);
    if portLine.Some? {
      RunTunnel.MarkerLineHasEquals(portLine.value, RunTunnel.PortMarker);
    }
    if nodeLine.Some? {
      RunTunnel.MarkerLineHasEquals(nodeLine.value, RunTunnel.NodeMarker);
    }
  }

  // ---------------------------------------------------------------------
  // The batch script template

  const CpusPlaceholder: String := "CPUS_PER_TASK"
  const MemPlaceholder: String := "MEM"
  const SifPlaceholder: String := "REMOTE_SIF_PATH"

  /** The substitution made in one template line: only the first
      placeholder present, in the order CPUS_PER_TASK, MEM,
      REMOTE_SIF_PATH, is replaced. */
  function SubstituteLine(line: String, cpus: int, mem: String, sifPath: String): String {
    if Contains(line, CpusPlaceholder) then Replace(line, CpusPlaceholder, IntToString(cpus))
    else if Contains(line, MemPlaceholder) then Replace(line, MemPlaceholder, mem)
    else if Contains(line, SifPlaceholder) then Replace(line, SifPlaceholder, sifPath)
    else line
  }

  /** The substitution applied to every line of the template. */
  function SubstituteAll(template: seq<String>, cpus: int, mem: String, sifPath: String): seq<String>
    decreases |template|
  {
    if template == [] then []
    else
      var init := template[..|template| - 1];
      SubstituteAll(init, cpus, mem, sifPath) + [SubstituteLine(template[|template| - 1], cpus, mem, sifPath)]
  }

  /** Line by line, the substituted template holds the substitution of
      the template line at the same position. */
  lemma {:induction false} SubstituteAllLines(template: seq<String>, cpus: int, mem: String, sifPath: String)
    ensures |SubstituteAll(template, cpus, mem, sifPath)| == |template|
    ensures forall i :: 0 <= i < |template| ==>
      SubstituteAll(template, cpus, mem, sifPath)[i] == SubstituteLine(template[i], cpus, mem, sifPath)
    decreases |template|
  {
    if template != [] {
      var init := template[..|template| - 1];
      SubstituteAllLines(init, cpus, mem, sifPath);
      var r, ri := SubstituteAll(template, cpus, mem, sifPath), SubstituteAll(init, cpus, mem, sifPath);
      forall i | 0 <= i < |template| - 1
        ensures r[i] == SubstituteLine(template[i], cpus, mem, sifPath)
      {
        assert r[i] == ri[i] && init[i] == template[i];
      }
    }
  }

  /** The placeholder that is substituted leaves no trace: always for the
      CPU count, and for the memory and image path when the value is not
      empty and shares no character with the placeholder. */
  lemma PlaceholderSubstituted(line: String, cpus: int, mem: String, sifPath: String)
    ensures Contains(line, CpusPlaceholder) ==>
      !Contains(SubstituteLine(line, cpus, mem, sifPath), CpusPlaceholder)
    ensures (!Contains(line, CpusPlaceholder) && Contains(line, MemPlaceholder)
             && mem != [] && (forall c :: c in mem ==> c !in MemPlaceholder)) ==>
      !Contains(SubstituteLine(line, cpus, mem, sifPath), MemPlaceholder)
    ensures (!Contains(line, CpusPlaceholder) && !Contains(line, MemPlaceholder) && Contains(line, SifPlaceholder)
             && sifPath != [] && (forall c :: c in sifPath ==> c !in SifPlaceholder)) ==>
      !Contains(SubstituteLine(line, cpus, mem, sifPath), SifPlaceholder)
    ensures (!Contains(line, CpusPlaceholder) && !Contains(line, MemPlaceholder)
             && !Contains(line, SifPlaceholder)) ==> SubstituteLine(line, cpus, mem, sifPath) == line
  {
    var digits := IntToString(cpus);
    IntToStringChars(cpus);
    assert digits != [] by { assert Decimal(if cpus < 0 then -cpus else cpus) != []; }
    ReplaceRemoves(line, CpusPlaceholder, digits);
    if mem != [] && (forall c :: c in mem ==> c !in MemPlaceholder) {
      ReplaceRemoves(line, MemPlaceholder, mem);
    }
    if sifPath != [] && (forall c :: c in sifPath ==> c !in SifPlaceholder) {
      ReplaceRemoves(line, SifPlaceholder, sifPath);
    }
  }

  /** The placeholders after the substituted one in the order survive it
      untouched, so a line holding two of them keeps the later one for
      nobody to replace. */
  lemma LaterPlaceholdersKept(line: String, cpus: int, mem: String, sifPath: String)
    ensures Contains(line, CpusPlaceholder) && Contains(line, MemPlaceholder) ==>
      Contains(SubstituteLine(line, cpus, mem, sifPath), MemPlaceholder)
    ensures Contains(line, CpusPlaceholder) && Contains(line, SifPlaceholder) ==>
      Contains(SubstituteLine(line, cpus, mem, sifPath), SifPlaceholder)
    ensures !Contains(line, CpusPlaceholder) && Contains(line, MemPlaceholder) && Contains(line, SifPlaceholder) ==>
      Contains(SubstituteLine(line, cpus, mem, sifPath), SifPlaceholder)
  {
    if Contains(line, CpusPlaceholder) && Contains(line, MemPlaceholder) {
      assert 'M' !in CpusPlaceholder && 'K' !in MemPlaceholder;
      ReplaceKeepsApart(line, CpusPlaceholder, IntToString(cpus), MemPlaceholder);
    }
    if Contains(line, CpusPlaceholder) && Contains(line, SifPlaceholder) {
      assert 'H' !in CpusPlaceholder && 'K' !in SifPlaceholder;
      ReplaceKeepsApart(line, CpusPlaceholder, IntToString(cpus), SifPlaceholder);
    }
    if !Contains(line, CpusPlaceholder) && Contains(line, MemPlaceholder) && Contains(line, SifPlaceholder) {
      assert 'H' !in MemPlaceholder && 'R' !in MemPlaceholder;
      SifPlaceholderAvoidsMem();
      ReplaceKeepsApart(line, MemPlaceholder, mem, SifPlaceholder);
    }
  }

  /** The image path placeholder does not contain the memory one, though
      it holds both of its letters. */
  lemma SifPlaceholderAvoidsMem()
    ensures !Contains(SifPlaceholder, MemPlaceholder)
  {
    forall i | 0 <= i && i + |MemPlaceholder| <= |SifPlaceholder|
      ensures !OccursAt(SifPlaceholder, MemPlaceholder, i)
    {
      assert SifPlaceholder[i..i + 3][0] == SifPlaceholder[i];
      assert SifPlaceholder[i..i + 3][2] == SifPlaceholder[i + 2];
    }
    ContainsIff(SifPlaceholder, MemPlaceholder);
  }

  /** The lines, each with its line break. */
  function ReadLines(lines: seq<String>): (r: seq<String>)
    ensures |r| == |lines|
  {
    seq(|lines|, i requires 0 <= i < |lines| => lines[i] + "\n")
  }

  /** Reading back a file made of `lines`, each ended by `\n`, and a last
      piece `last` without one yields each line with its line break, one
      per written line, then `last` as it is when it is not empty. */
  lemma {:induction false} FileLinesOfText(lines: seq<String>, last: String)
    requires forall k :: 0 <= k < |lines| ==> '\n' !in lines[k]
    requires '\n' !in last
    ensures FileLines(Terminated(lines) + last) == ReadLines(lines) + (if last == [] then [] else [last])
    decreases |lines|
  {
    if lines == [] {
      assert Terminated(lines) + last == last;
      if last != [] {
        MissingChar(last, "\n", '\n');
      }
    } else {
      var l, rest := lines[0], Terminated(lines[1..]) + last;
      var text := Terminated(lines) + last;
      assert text == l + "\n" + rest by {
        assert Terminated(lines) == l + "\n" + Terminated(lines[1..]);
      }
      FindLineBreak(l, rest);
      assert text[..|l| + 1] == l + "\n";
      assert text[|l| + 1..] == rest;
      FileLinesOfText(lines[1..], last);
      assert ReadLines(lines) == [l + "\n"] + ReadLines(lines[1..]);
    }
  }

  /** Writing lines that kept their line breaks joined by `"\n"` doubles
      every line break between them. */
  lemma {:induction false} JoinReadLines(lines: seq<String>)
    requires lines != []
    ensures Join(ReadLines(lines), "\n") == Join(lines, "\n\n") + "\n"
    decreases |lines|
  {
    if |lines| > 1 {
      JoinReadLines(lines[1..]);
      assert ReadLines(lines)[1..] == ReadLines(lines[1..]);
      assert ReadLines(lines)[0] == lines[0] + "\n";
    }
  }

  // ---------------------------------------------------------------------
  // The job

  class JobTunnel {
    const time: int
    const remoteHost: String
    const cpus: int
    const mem: String
    const remotePath: String
    const remoteSifPath: String
    var jobId: Option<String>
    var localStartTime: Option<int>
    var port: Option<String>
    var node: Option<String>
    var remoteOutputPath: String

    /** The dataclass constructor followed by `__post_init__`, given the
        home directory and the current time in whole seconds. */
    constructor(time: int, remoteHost: String, cpus: int, mem: String, remotePath: String,
                remoteSifPath: String, home: String, now: int)
      ensures this.time == time && this.remoteHost == remoteHost && this.cpus == cpus
      ensures this.mem == mem && this.remotePath == remotePath && this.remoteSifPath == remoteSifPath
      ensures jobId == None && port == None && node == None
      ensures localStartTime == Some(now)
      ensures remoteOutputPath == OutputPathFor(remotePath, home)
    {
      this.time := time;
      this.remoteHost := remoteHost;
      this.cpus := cpus;
      this.mem := mem;
      this.remotePath := remotePath;
      this.remoteSifPath := remoteSifPath;
      jobId := None;
      port := None;
      node := None;
      remoteOutputPath := OutputPathFor(remotePath, home);
      localStartTime := Some(now);
    }


    /** `start_slurm_job`, given the stdout of `sbatch`: the id is the last
        token, kept as a string, and an `IndexError` leaves it unset. */
    method StartSlurmJob(stdout: String) returns (r: Result<String, PyError>, effects: seq<Effect>)
      modifies this
      ensures effects == [Ssh(remoteHost, SubmitCommand(time, old(remoteOutputPath), remotePath))]
      ensures r == LastToken(stdout)
      ensures r.Success? ==> jobId == Some(r.value)
      ensures r.Failure? ==> jobId == old(jobId)
      ensures port == old(port) && node == old(node) && localStartTime == old(localStartTime)
      ensures remoteOutputPath == old(remoteOutputPath)
    {
      effects := [Ssh(remoteHost, SubmitCommand(time, remoteOutputPath, remotePath))];
      r := LastToken(stdout);
      SetJobId(r);
    }

    /** Records the id; a missing one changes nothing. */
    method SetJobId(r: Result<String, PyError>)
      modifies this
      ensures r.Success? ==> jobId == Some(r.value)
      ensures r.Failure? ==> jobId == old(jobId)
      ensures port == old(port) && node == old(node) && localStartTime == old(localStartTime)
      ensures remoteOutputPath == old(remoteOutputPath)
    {
      if r.Success? {
        jobId := Some(r.value);
      }
    }

    /** `cancel_slurm_job`, given the stdout of `squeue`: the status is
        always queried, and one `scancel` follows exactly when the status
        is cancellable. */
    function CancelSlurmJob(statusStdout: String): (effects: seq<Effect>)
      reads this
      ensures 1 <= |effects| <= 2 && effects[0] == StatusQuery(remoteHost, jobId)
      ensures |effects| == 2 <==> JobStatus(statusStdout) in CancellableStates
      ensures |effects| == 2 ==> effects[1] == Ssh(remoteHost, "scancel " + JobIdText(jobId))
    {
      [StatusQuery(remoteHost, jobId)]
        + if JobStatus(statusStdout) in CancellableStates then [Ssh(remoteHost, "scancel " + JobIdText(jobId))] else []
    }

    /** `watch_output_for_text`, over the successive contents of the
        output file. */
    method WatchOutputForText(watchText: String, snapshots: seq<String>) returns (r: Option<String>, effects: seq<Effect>)
      ensures r == WatchFor(snapshots, watchText)
      ensures effects == OutputReads(remoteHost, remoteOutputPath, ReadsFor(snapshots, watchText))
    {
      effects := [];
      var k := 0;
      while k < |snapshots|
        invariant 0 <= k <= |snapshots|
        invariant forall i :: 0 <= i < k ==> FirstLineWith(SplitLines(snapshots[i]), watchText).None?
        invariant effects == OutputReads(remoteHost, remoteOutputPath, k)
      {
        OutputReadsStep(remoteHost, remoteOutputPath, k);
        effects := effects + [Ssh(remoteHost, "cat " + remoteOutputPath)];
        var lines := SplitLines(snapshots[k]);
        var j := ScanLines(lines, watchText);
        if j.Some? {
          FirstSnapshotAt(snapshots, watchText, k);
          r := Some(lines[j.value]);
          return;
        }
        k := k + 1;
      }
      r := None;
    }

    /** `get_tunnel_info`, given the status output and the snapshots read
        while watching for the port and then for the node: port and node
        are assigned together, once both are known. */
    method GetTunnelInfo(statusStdout: String, portSnapshots: seq<String>, nodeSnapshots: seq<String>)
      returns (r: InfoOutcome, effects: seq<Effect>)
      modifies this
      ensures (r, effects) ==
        TunnelInfoPlan(StatusQuery(remoteHost, old(jobId)), remoteHost, old(remoteOutputPath), statusStdout, portSnapshots, nodeSnapshots)
      ensures r.Returned? ==> port == Some(r.port) && node == Some(r.node)
      ensures !r.Returned? ==> port == old(port) && node == old(node)
      ensures jobId == old(jobId) && localStartTime == old(localStartTime)
      ensures remoteOutputPath == old(remoteOutputPath)
    {
      effects := [StatusQuery(remoteHost, jobId)];
      if !JobRunning(statusStdout) {
        return Raised(ValueError("Job is not running")), effects;
      }
      var portLine, portReads := WatchOutputForText(RunTunnel.PortMarker, portSnapshots);
      effects := effects + portReads;
      if portLine.None? {
        return Polling, effects;
      }
      var portField := SecondField(portLine.value, "=");
      if portField.Failure? {
        return Raised(portField.error), effects;
      }
      var nodeLine, nodeReads := WatchOutputForText(RunTunnel.NodeMarker, nodeSnapshots);
      effects := effects + nodeReads;
      if nodeLine.None? {
        return Polling, effects;
      }
      var nodeField := SecondField(nodeLine.value, "=");
      if nodeField.Failure? {
        return Raised(nodeField.error), effects;
      }
      r := Returned(portField.value, nodeField.value);
      SetPortAndNode(portField.value, nodeField.value);
    }

    /** Assigns the port and the node together. */
    method SetPortAndNode(portValue: String, nodeValue: String)
      modifies this
      ensures port == Some(portValue) && node == Some(nodeValue)
      ensures jobId == old(jobId) && localStartTime == old(localStartTime)
      ensures remoteOutputPath == old(remoteOutputPath)
    {
      port := Some(portValue);
      node := Some(nodeValue);
    }

    /** `create_job_script`, given the text of the template file: one
        output line per line the file yields, written joined by `"\n"`. */
    method CreateJobScript(templateText: String) returns (lines: seq<String>, script: String)
      ensures |lines| == |FileLines(templateText)|
      ensures forall i :: 0 <= i < |lines| ==>
        lines[i] == SubstituteLine(FileLines(templateText)[i], cpus, mem, remoteSifPath)
      ensures script == Join(lines, "\n")
    {
      var template := FileLines(templateText);
      lines := [];
      var i := 0;
      while i < |template|
        invariant 0 <= i <= |template|
        invariant lines == SubstituteAll(template[..i], cpus, mem, remoteSifPath)
      {
        assert template[..i + 1][..i] == template[..i];
        lines := lines + [SubstituteLine(template[i], cpus, mem, remoteSifPath)];
        i := i + 1;
      }
      assert template[..i] == template;
      SubstituteAllLines(template, cpus, mem, remoteSifPath);
      script := Join(lines, "\n");
    }
  }

  // ---------------------------------------------------------------------
  // The IDE processes

  /** A command line that mentions `/code`, once its words are joined. */
  predicate IsCodeCommand(cmdline: seq<String>) {
    Contains(Join(cmdline, " "), "/code")
  }

  /** The message of `" ".join(None)`. */
  const JoinNoneError: PyError := TypeError("can only join an iterable")

  /** `get_code_pids` over the processes in iteration order: the pids of
      the code processes, or the `TypeError` of the first process whose
      command line could not be read. */
  function CodePids(procs: seq<ProcInfo>): (r: Result<seq<int>, PyError>)
    ensures r.Failure? <==> exists i :: 0 <= i < |procs| && procs[i].cmdline.None?
    ensures r.Failure? ==> r.error == JoinNoneError
    ensures r.Success? ==> forall x :: x in r.value <==>
      exists i :: 0 <= i < |procs| && procs[i].pid == x && IsCodeCommand(procs[i].cmdline.value)
    decreases |procs|
  {
    if procs == [] then Success([])
    else
      var init := procs[..|procs| - 1];
      var last := procs[|procs| - 1];
      match CodePids(init)
      case Failure(e) => Failure(e)
      case Success(pids) =>
        if last.cmdline.None? then Failure(JoinNoneError)
        else if IsCodeCommand(last.cmdline.value) then Success(pids + [last.pid])
        else Success(pids)
  }

  /** `get_code_pids`. */
  method GetCodePids(procs: seq<ProcInfo>) returns (r: Result<seq<int>, PyError>)
    ensures r == CodePids(procs)
  {
    var codePids := [];
    var i := 0;
    while i < |procs|
      invariant 0 <= i <= |procs|
      invariant CodePids(procs[..i]) == Success(codePids)
    {
      assert procs[..i + 1][..i] == procs[..i];
      var cmdline := procs[i].cmdline;
      if cmdline.None? {
        assert CodePids(procs[..i + 1]).Failure?;
        assert procs[..i + 1][i] == procs[i];
        return Failure(JoinNoneError);
      }
      if IsCodeCommand(cmdline.value) {
        codePids := codePids + [procs[i].pid];
      }
      i := i + 1;
    }
    assert procs[..i] == procs;
    return Success(codePids);
  }

  /** `dont_kill_pids and pid in dont_kill_pids`. */
  predicate Kept(pid: int, dontKill: Option<seq<int>>) {
    dontKill.Some? && dontKill.value != [] && pid in dontKill.value
  }

  /** The code pids that `kill_code_processes` terminates, in order. */
  function KillList(pids: seq<int>, dontKill: Option<seq<int>>): (r: seq<int>)
    ensures |r| <= |pids|
    ensures forall x :: x in r <==> x in pids && !(dontKill.Some? && x in dontKill.value)
    decreases |pids|
  {
    if pids == [] then []
    else
      var last := pids[|pids| - 1];
      KillList(pids[..|pids| - 1], dontKill) + (if Kept(last, dontKill) then [] else [last])
  }

  /** Without a keep-list, or with an empty one, every code pid is
      terminated. */
  lemma {:induction false} KillAllWithoutKeepList(pids: seq<int>, dontKill: Option<seq<int>>)
    requires dontKill.None? || dontKill.value == []
    ensures KillList(pids, dontKill) == pids
    decreases |pids|
  {
    if pids != [] {
      KillAllWithoutKeepList(pids[..|pids| - 1], dontKill);
      assert pids[..|pids| - 1] + [pids[|pids| - 1]] == pids;
    }
  }

  function Terminations(pids: seq<int>): seq<Effect> {
    seq(|pids|, i requires 0 <= i < |pids| => Terminate(pids[i]))
  }

  /** Looking at one more code pid appends its termination unless it is
      kept. */
  lemma {:induction false} KillListStep(pids: seq<int>, dontKill: Option<seq<int>>, i: nat)
    requires i < |pids|
    ensures Terminations(KillList(pids[..i + 1], dontKill))
      == Terminations(KillList(pids[..i], dontKill)) + (if Kept(pids[i], dontKill) then [] else [Terminate(pids[i])])
  {
    var before := KillList(pids[..i], dontKill);
    assert pids[..i + 1][..i] == pids[..i];
    assert KillList(pids[..i + 1], dontKill) == before + (if Kept(pids[i], dontKill) then [] else [pids[i]]);
    var a, b := Terminations(KillList(pids[..i + 1], dontKill)),
      Terminations(before) + (if Kept(pids[i], dontKill) then [] else [Terminate(pids[i])]);
    assert |a| == |b|;
    forall k | 0 <= k < |a|
      ensures a[k] == b[k]
    {
      if k < |before| {
        assert b[k] == Terminate(before[k]);
      }
    }
  }

  /** What `kill_code_processes` does: the exception that escaped, if any,
      and the processes asked to terminate. */
  function KillPlan(procs: seq<ProcInfo>, dontKill: Option<seq<int>>): (r: (Option<PyError>, seq<Effect>))
    ensures r.0.Some? <==> CodePids(procs).Failure?
    ensures r.0.Some? ==> r.1 == []
    ensures forall e :: e in r.1 ==>
      e.Terminate? && CodePids(procs).Success? && e.pid in CodePids(procs).value
      && !(dontKill.Some? && e.pid in dontKill.value)
  {
    match CodePids(procs)
    case Failure(e) => (Some(e), [])
    case Success(pids) => (None, Terminations(KillList(pids, dontKill)))
  }

  /** `kill_code_processes`. */
  method KillCodeProcesses(procs: seq<ProcInfo>, dontKill: Option<seq<int>>) returns (raised: Option<PyError>, effects: seq<Effect>)
    ensures (raised, effects) == KillPlan(procs, dontKill)
  {
    var codePids := GetCodePids(procs);
    if codePids.Failure? {
      return Some(codePids.error), [];
    }
    var pids := codePids.value;
    effects := [];
    var i := 0;
    while i < |pids|
      invariant 0 <= i <= |pids|
      invariant effects == Terminations(KillList(pids[..i], dontKill))
    {
      KillListStep(pids, dontKill, i);
      if !Kept(pids[i], dontKill) {
        effects := effects + [Terminate(pids[i])];
      }
      i := i + 1;
    }
    assert pids[..i] == pids;
    raised := None;
  }

  // ---------------------------------------------------------------------
  // Teardown

  /** `cleanup`, once the job's cancellation effects are known: cancel,
      then terminate the new IDE processes when earlier ones were recorded,
      then remove the tunnel entry when both the configuration and the
      entry are given. */
  function CleanupPlan(cancel: seq<Effect>, prevCodePids: Option<seq<int>>, procs: seq<ProcInfo>,
                       sshConfig: bool, tunnelEntry: Option<SshEntry>): (r: (Option<PyError>, seq<Effect>))
    ensures cancel <= r.1
    ensures prevCodePids.None? || prevCodePids.value == [] ==>
      r.0.None? && forall e :: e in r.1[|cancel|..] ==> !e.Terminate?
    ensures r.0.Some? ==> r.0 == Some(JoinNoneError) && r.1 == cancel
    ensures r.0.None? && sshConfig && tunnelEntry.Some? ==>
      r.1 != [] && r.1[|r.1| - 1] == RemoveEntry(tunnelEntry.value.host)
    ensures !(sshConfig && tunnelEntry.Some?) ==> forall e :: e in r.1[|cancel|..] ==> !e.RemoveEntry?
  {
    var kill := if prevCodePids.Some? && prevCodePids.value != [] then KillPlan(procs, prevCodePids) else (None, []);
    if kill.0.Some? then (kill.0, cancel)
    else
      var removal := if sshConfig && tunnelEntry.Some? then [RemoveEntry(tunnelEntry.value.host)] else [];
      assert (cancel + kill.1 + removal)[|cancel|..] == kill.1 + removal;
      (None, cancel + kill.1 + removal)
  }

  /** `cleanup`. A job tunnel, being a dataclass instance, is always
      truthy; the SSH configuration is passed as whether one was given. */
  method Cleanup(jobTunnel: JobTunnel?, statusStdout: String, sshConfig: bool, tunnelEntry: Option<SshEntry>,
                 prevCodePids: Option<seq<int>>, procs: seq<ProcInfo>) returns (raised: Option<PyError>, effects: seq<Effect>)
    ensures (raised, effects) ==
      CleanupPlan(if jobTunnel == null then [] else jobTunnel.CancelSlurmJob(statusStdout),
                  prevCodePids, procs, sshConfig, tunnelEntry)
  {
    var cancel := [];
    if jobTunnel != null {
      cancel := jobTunnel.CancelSlurmJob(statusStdout);
    }
    var killed := [];
    raised := None;
    if prevCodePids.Some? && prevCodePids.value != [] {
      raised, killed := KillCodeProcesses(procs, prevCodePids);
      if raised.Some? {
        return raised, cancel;
      }
    }
    var removal := [];
    if sshConfig && tunnelEntry.Some? {
      removal := [RemoveEntry(tunnelEntry.value.host)];
    }
    effects := cancel + killed + removal;
  }

  /** The IDE is never terminated when no code process ran before it was
      started: `prev_code_pids` is then an empty list. */
  lemma CleanupAfterFirstLaunch(cancel: seq<Effect>, procs: seq<ProcInfo>, sshConfig: bool, tunnelEntry: Option<SshEntry>)
    ensures var r := CleanupPlan(cancel, Some([]), procs, sshConfig, tunnelEntry);
      r.0.None? && r.1 == cancel + (if sshConfig && tunnelEntry.Some? then [RemoveEntry(tunnelEntry.value.host)] else [])
  {
  }

  /** With earlier code processes recorded, exactly the new ones are asked
      to terminate. */
  lemma {:induction false} CleanupTerminatesNewProcesses(cancel: seq<Effect>, prev: seq<int>, procs: seq<ProcInfo>,
                                                        sshConfig: bool, tunnelEntry: Option<SshEntry>, pid: int)
    requires prev != [] && CodePids(procs).Success?
    ensures var r := CleanupPlan(cancel, Some(prev), procs, sshConfig, tunnelEntry);
      r.0.None? && (Terminate(pid) in r.1[|cancel|..] <==> pid in CodePids(procs).value && pid !in prev)
  {
    var pids := CodePids(procs).value;
    var killed := Terminations(KillList(pids, Some(prev)));
    var removal := if sshConfig && tunnelEntry.Some? then [RemoveEntry(tunnelEntry.value.host)] else [];
    var r := CleanupPlan(cancel, Some(prev), procs, sshConfig, tunnelEntry);
    assert r.1[|cancel|..] == killed + removal;
    if pid in KillList(pids, Some(prev)) {
      var i :| 0 <= i < |KillList(pids, Some(prev))| && KillList(pids, Some(prev))[i] == pid;
      assert killed[i] == Terminate(pid);
    }
  }
}
