/**
 * The tunnel orchestration of `slurm_job_tunnel/run_tunnel.py`: submitting
 * the tunnel job, scanning its output for the tunnel markers, deriving the
 * SSH configuration entries and the output path, and tearing everything
 * down again.
 *
 * Nothing here talks to a cluster. A command run on the login node is an
 * oracle: the method that runs it takes the command's stdout as a parameter
 * and reports the command in an effect log. Reading the job's output file
 * until a deadline becomes a sequence of snapshots, one per read made
 * before the deadline passed.
 */
module RunTunnel {
  import opened Wrappers
  import opened PyText
  import opened PyDateTime

  /** An entry of the SSH client configuration (`SSHConfigEntry`). */
  datatype SshEntry = SshEntry(host: String, hostname: String, port: int, user: String, proxy: Option<String>)

  /** The handle on a submitted job (`SlurmJob`): its id and the login host. */
  datatype SlurmJob = SlurmJob(jobId: int, host: String)

  /** The externally visible actions, in the order they happen. */
  datatype Effect =
    | Execute(host: String, command: String)  // a command run on the login node
    | Spawn(command: String)                  // a local ssh process
    | Cancel(job: SlurmJob)                   // the job handle's `cancel()`
    | UpdateEntry(entry: SshEntry)            // an entry written to the SSH config
    | RemoveEntry(host: String)               // an entry removed from the SSH config
    | SetStop                                 // the local tunnel's stop event is set
    | JoinThread                              // the local tunnel's thread is joined

  // ---------------------------------------------------------------------
  // The job id in the submission output

  /** `int(stdout.strip().split()[-1])`: the last whitespace-separated
      token of the submission output, as an integer. The `ValueError`
      message puts the token in single quotes, without the escaping and
      the 200-character cut of `repr`. */
  function JobIdOf(stdout: String): (r: Result<int, PyError>)
    ensures r.Failure? ==> r.error.IndexError? || r.error.ValueError?
    ensures r.Success? ==> LastToken(stdout).Success? && ParseInt(LastToken(stdout).value) == Some(r.value)
  {
    var last := LastToken(stdout);
    if last.Failure? then Failure(last.error)
    else if ParseInt(last.value).Some? then Success(ParseInt(last.value).value)
    else Failure(ValueError("invalid literal for int() with base 10: '" + last.value + "'"))
  }

  /** The id is the last token of the output, stripping or not: an
      `IndexError` when there is no token, a `ValueError` when the last
      one is not a number. */
  lemma {:induction false} JobIdOfLastToken(stdout: String)
    ensures var r := JobIdOf(stdout);
      (Tokens(stdout) == [] <==> r == Failure(IndexError("list index out of range")))
      && (r.Success? <==> Tokens(stdout) != [] && ParseInt(Tokens(stdout)[|Tokens(stdout)| - 1]).Some?)
      && (r.Success? ==> Some(r.value) == ParseInt(Tokens(stdout)[|Tokens(stdout)| - 1]))
      && (r.Failure? && Tokens(stdout) != [] ==> r.error.ValueError?)
  {
    LastTokenOf(stdout);
  }

  /** Whatever precedes it, a number that ends the output after a space
      (as in `Submitted batch job 4242`) is the job id. */
  lemma {:induction false} JobIdOfSubmission(prefix: String, c: char, n: int, w: String)
    requires IsSpace(c) && AllSpace(w)
    ensures JobIdOf(prefix + [c] + IntToString(n) + w) == Success(n)
  {
    var d := IntToString(n);
    IntToStringChars(n);
    assert d != [] by { assert Decimal(if n < 0 then -n else n) != []; }
    forall k | 0 <= k < |d| ensures !IsSpace(d[k]) {
      assert d[k] in d;
    }
    LastTokenOfWord(prefix, c, d, w);
    ParseIntOfString(n);
  }

  // ---------------------------------------------------------------------
  // One poll of the job output

  /** The watch texts that occur in `line`, in watch order. */
  function Matching(line: String, watchTexts: seq<String>): (r: seq<String>)
    ensures |r| <= |watchTexts|
    ensures forall w :: w in r ==> w in watchTexts && Contains(line, w)
    ensures forall w :: w in watchTexts && Contains(line, w) ==> w in r
    decreases |watchTexts|
  {
    if watchTexts == [] then []
    else
      var last := watchTexts[|watchTexts| - 1];
      Matching(line, watchTexts[..|watchTexts| - 1]) + (if Contains(line, last) then [last] else [])
  }

  /** The hits of one line: the line once for every watch text it contains. */
  function LineHits(line: String, watchTexts: seq<String>): seq<String> {
    seq(|Matching(line, watchTexts)|, _ => line)
  }

  /** The hit list after scanning `lines` in file order. */
  function Hits(lines: seq<String>, watchTexts: seq<String>): seq<String>
    decreases |lines|
  {
    if lines == [] then []
    else Hits(lines[..|lines| - 1], watchTexts) + LineHits(lines[|lines| - 1], watchTexts)
  }

  /** After its first `k` lines the poll holds as many hits as there are
      watch texts. */
  predicate CompleteAfter(lines: seq<String>, watchTexts: seq<String>, k: nat)
    requires k <= |lines|
  {
    |Hits(lines[..k], watchTexts)| == |watchTexts|
  }

  /** The first line count `k`, from `from` on, after which the poll is
      complete. */
  function FirstComplete(lines: seq<String>, watchTexts: seq<String>, from: nat): (r: Option<nat>)
    ensures r.Some? ==> from <= r.value <= |lines| && CompleteAfter(lines, watchTexts, r.value)
    ensures r.Some? ==> forall k :: from <= k < r.value ==> !CompleteAfter(lines, watchTexts, k)
    ensures r.None? ==> forall k :: from <= k <= |lines| ==> !CompleteAfter(lines, watchTexts, k)
  {
    FirstSome(Completions(lines, watchTexts), from)
  }

  /** For every line count, the hit list when the poll is complete there. */
  function Completions(lines: seq<String>, watchTexts: seq<String>): (r: seq<Option<seq<String>>>)
    ensures |r| == |lines| + 1
    ensures forall k :: 0 <= k <= |lines| ==> (r[k].Some? <==> CompleteAfter(lines, watchTexts, k))
  {
    seq(|lines| + 1, k requires 0 <= k <= |lines| =>
      if CompleteAfter(lines, watchTexts, k) then Some(Hits(lines[..k], watchTexts)) else None)
  }

  /** One read of the output: the hit list at the first line after which
      the hit count equals the number of watch texts, or `None` when the
      count never equals it. The count is checked after every line,
      never before the first. */
  function Poll(lines: seq<String>, watchTexts: seq<String>): (r: Option<seq<String>>)
    ensures r.Some? ==> |r.value| == |watchTexts|
  {
    match FirstComplete(lines, watchTexts, 1)
    case None => None
    case Some(k) => Some(Hits(lines[..k], watchTexts))
  }

  /** The scan of one snapshot, as the nested loops of the source do it:
      each line is tested against every watch text and appended once per
      text it contains, and the count is compared after each line. */
  method PollOnce(lines: seq<String>, watchTexts: seq<String>) returns (r: Option<seq<String>>)
    ensures r == Poll(lines, watchTexts)
  {
    var found: seq<String> := [];
    var i := 0;
    while i < |lines|
      invariant 0 <= i <= |lines|
      invariant found == Hits(lines[..i], watchTexts)
      invariant forall k :: 1 <= k <= i ==> !CompleteAfter(lines, watchTexts, k)
    {
      found := AppendHits(found, lines[i], watchTexts);
      HitsStep(lines, watchTexts, i);
      i := i + 1;
      if |found| == |watchTexts| {
        PollAt(lines, watchTexts, i);
        return Some(found);
      }
    }
    return None;
  }

  /** The inner loop over the watch texts: the line is appended once for
      every watch text it contains. */
  method AppendHits(found: seq<String>, line: String, watchTexts: seq<String>) returns (r: seq<String>)
    ensures r == found + LineHits(line, watchTexts)
  {
    r := found;
    var t := 0;
    while t < |watchTexts|
      invariant 0 <= t <= |watchTexts|
      invariant r == found + LineHits(line, watchTexts[..t])
    {
      LineHitsStep(line, watchTexts, t);
      if Contains(line, watchTexts[t]) {
        r := r + [line];
      }
      t := t + 1;
    }
    assert watchTexts[..t] == watchTexts;
  }

  /** Testing one more watch text against a line appends the line once
      more when the line contains it. */
  lemma {:induction false} LineHitsStep(line: String, watchTexts: seq<String>, t: nat)
    requires t < |watchTexts|
    ensures LineHits(line, watchTexts[..t + 1])
      == LineHits(line, watchTexts[..t]) + (if Contains(line, watchTexts[t]) then [line] else [])
  {
    var longer := watchTexts[..t + 1];
    assert longer[..t] == watchTexts[..t];
    assert Matching(line, longer)
      == Matching(line, watchTexts[..t]) + (if Contains(line, watchTexts[t]) then [watchTexts[t]] else []);
    var a, b := LineHits(line, longer), LineHits(line, watchTexts[..t]) + (if Contains(line, watchTexts[t]) then [line] else []);
    assert |a| == |b|;
    forall k | 0 <= k < |a|
      ensures a[k] == b[k]
    {
      assert a[k] == line;
    }
  }

  /** Scanning one more line appends that line's hits. */
  lemma {:induction false} HitsStep(lines: seq<String>, watchTexts: seq<String>, i: nat)
    requires i < |lines|
    ensures Hits(lines[..i + 1], watchTexts) == Hits(lines[..i], watchTexts) + LineHits(lines[i], watchTexts)
  {
    assert lines[..i + 1][..i] == lines[..i];
  }

  /** The poll returns the hits after `k` lines when the count first
      matches there. */
  lemma {:induction false} PollAt(lines: seq<String>, watchTexts: seq<String>, k: nat)
    requires 1 <= k <= |lines| && CompleteAfter(lines, watchTexts, k)
    requires forall j :: 1 <= j < k ==> !CompleteAfter(lines, watchTexts, j)
    ensures Poll(lines, watchTexts) == Some(Hits(lines[..k], watchTexts))
  {
    var r := FirstComplete(lines, watchTexts, 1);
    assert r.Some?;
    assert !(r.value < k) && !(k < r.value);
  }

  /** Every hit is a line of the scan that contains at least one watch text. */
  lemma {:induction false} HitsMembers(lines: seq<String>, watchTexts: seq<String>)
    ensures forall x :: x in Hits(lines, watchTexts) ==> x in lines && Matching(x, watchTexts) != []
    decreases |lines|
  {
    if lines != [] {
      var init := lines[..|lines| - 1];
      HitsMembers(init, watchTexts);
      forall x | x in Hits(lines, watchTexts)
        ensures x in lines && Matching(x, watchTexts) != []
      {
        if x in Hits(init, watchTexts) {
          assert x in init;
        } else {
          assert x in LineHits(lines[|lines| - 1], watchTexts);
        }
      }
    }
  }

  /** Scanning further only appends: the hits of a shorter prefix are a
      prefix of the hits of a longer one, so hits stay in file order and
      the count never decreases. */
  lemma {:induction false} HitsGrow(lines: seq<String>, watchTexts: seq<String>, j: nat, k: nat)
    requires j <= k <= |lines|
    ensures Hits(lines[..j], watchTexts) <= Hits(lines[..k], watchTexts)
    decreases k - j
  {
    if j < k {
      HitsGrow(lines, watchTexts, j, k - 1);
      assert lines[..k][..k - 1] == lines[..k - 1];
    }
  }

  /** A successful poll holds as many entries as there are watch texts,
      each a line of the snapshot containing some watch text: they are the
      first hits of the whole snapshot, in file order. */
  lemma {:induction false} PollSound(lines: seq<String>, watchTexts: seq<String>)
    requires Poll(lines, watchTexts).Some?
    ensures var r := Poll(lines, watchTexts).value;
      |r| == |watchTexts| && r <= Hits(lines, watchTexts) &&
      forall x :: x in r ==> x in lines && exists w :: w in watchTexts && Contains(x, w)
  {
    var k := FirstComplete(lines, watchTexts, 1).value;
    HitsGrow(lines, watchTexts, k, |lines|);
    assert lines[..|lines|] == lines;
    HitsMembers(lines[..k], watchTexts);
    forall x | x in Hits(lines[..k], watchTexts)
      ensures x in lines && exists w :: w in watchTexts && Contains(x, w)
    {
      var m := Matching(x, watchTexts);
      assert m[0] in m;
    }
  }

  /** A line that carries the count from below the number of watch texts
      to above it makes the whole poll fail: the count is compared for
      equality only, and it never comes back down. */
  lemma {:induction false} PollOvershoot(lines: seq<String>, watchTexts: seq<String>, k: nat)
    requires 1 <= k <= |lines|
    requires |Hits(lines[..k - 1], watchTexts)| < |watchTexts| < |Hits(lines[..k], watchTexts)|
    ensures Poll(lines, watchTexts) == None
  {
    forall j | 1 <= j <= |lines|
      ensures !CompleteAfter(lines, watchTexts, j)
    {
      if j < k {
        HitsGrow(lines, watchTexts, j, k - 1);
      } else {
        HitsGrow(lines, watchTexts, k, j);
      }
    }
  }

  /** With no watch texts a poll succeeds with an empty list on the first
      line, and fails only on an empty snapshot. */
  lemma {:induction false} PollWithoutWatchTexts(lines: seq<String>)
    ensures Poll(lines, []) == if lines == [] then None else Some([])
  {
    if lines != [] {
      assert lines[..1][..0] == [];
      assert CompleteAfter(lines, [], 1);
    }
  }

  // ---------------------------------------------------------------------
  // Polling until the deadline

  /** The poll of one snapshot of the output file, split into lines. */
  function PollOf(snapshot: String, watchTexts: seq<String>): Option<seq<String>> {
    Poll(SplitLines(snapshot), watchTexts)
  }

  /** The poll of each snapshot, in order. */
  function Polls(snapshots: seq<String>, watchTexts: seq<String>): (r: seq<Option<seq<String>>>)
    ensures |r| == |snapshots|
    ensures forall i :: 0 <= i < |snapshots| ==> r[i] == PollOf(snapshots[i], watchTexts)
  {
    seq(|snapshots|, i requires 0 <= i < |snapshots| => PollOf(snapshots[i], watchTexts))
  }

  /** The first snapshot, from index `from` on, whose poll succeeds. */
  function FirstSuccessfulPoll(snapshots: seq<String>, watchTexts: seq<String>, from: nat): (r: Option<nat>)
    ensures r.Some? ==> from <= r.value < |snapshots| && PollOf(snapshots[r.value], watchTexts).Some?
    ensures r.Some? ==> forall i :: from <= i < r.value ==> PollOf(snapshots[i], watchTexts).None?
    ensures r.None? ==> forall i :: from <= i < |snapshots| ==> PollOf(snapshots[i], watchTexts).None?
  {
    FirstSome(Polls(snapshots, watchTexts), from)
  }

  /** The items of a list, each in single quotes, separated by `, `: the
      `repr` of a list of strings without quotes or backslashes. */
  function Quoted(texts: seq<String>): String
    decreases |texts|
  {
    if texts == [] then []
    else if |texts| == 1 then "'" + texts[0] + "'"
    else "'" + texts[0] + "', " + Quoted(texts[1..])
  }

  /** The message of the `TimeoutError`: every watch text, not just the
      missing ones. */
  function TimeoutMessage(watchTexts: seq<String>): String {
    "Timed out waiting for [" + Quoted(watchTexts) + "]"
  }

  /** `watch_output_for_text` over the snapshots read before the deadline:
      the result of the first successful poll, or a `TimeoutError`. Each
      poll starts from an empty hit list. */
  function Watch(snapshots: seq<String>, watchTexts: seq<String>): (r: Result<seq<String>, PyError>)
    ensures r.Failure? ==> r.error == TimeoutError(TimeoutMessage(watchTexts))
    ensures r.Success? ==> |r.value| == |watchTexts|
  {
    match FirstSuccessfulPoll(snapshots, watchTexts, 0)
    case None => Failure(TimeoutError(TimeoutMessage(watchTexts)))
    case Some(i) => Success(PollOf(snapshots[i], watchTexts).value)
  }

  /** The watch fails with a `TimeoutError` exactly when every poll before
      the deadline fails, and otherwise returns the result of the first
      successful poll. */
  lemma {:induction false} WatchOutcome(snapshots: seq<String>, watchTexts: seq<String>)
    ensures var r := Watch(snapshots, watchTexts);
      (r.Failure? <==> forall i :: 0 <= i < |snapshots| ==> PollOf(snapshots[i], watchTexts).None?)
      && (r.Failure? ==> r.error == TimeoutError(TimeoutMessage(watchTexts)))
      && (r.Success? ==> exists i :: (0 <= i < |snapshots| && PollOf(snapshots[i], watchTexts) == Some(r.value)
        && forall j :: 0 <= j < i ==> PollOf(snapshots[j], watchTexts).None?))
  {
    var first := FirstSuccessfulPoll(snapshots, watchTexts, 0);
    if first.Some? {
      assert PollOf(snapshots[first.value], watchTexts) == Some(Watch(snapshots, watchTexts).value);
    }
  }

  /** The number of reads of the output file: up to the first successful
      poll, or all of them. */
  function PollsMade(snapshots: seq<String>, watchTexts: seq<String>): (n: nat)
    ensures n <= |snapshots|
    ensures FirstSuccessfulPoll(snapshots, watchTexts, 0).Some? ==> n >= 1
  {
    match FirstSuccessfulPoll(snapshots, watchTexts, 0)
    case None => |snapshots|
    case Some(i) => i + 1
  }

  /** Nothing carries over between polls: a failed read can be dropped
      without changing the outcome. */
  lemma {:induction false} WatchSkipsFailedPoll(snapshot: String, rest: seq<String>, watchTexts: seq<String>)
    requires PollOf(snapshot, watchTexts).None?
    ensures Watch([snapshot] + rest, watchTexts) == Watch(rest, watchTexts)
  {
    var all := [snapshot] + rest;
    match FirstSuccessfulPoll(rest, watchTexts, 0)
    case None =>
      forall i | 0 <= i < |all|
        ensures PollOf(all[i], watchTexts).None?
      {
        if i > 0 {
          assert all[i] == rest[i - 1];
        }
      }
      assert FirstSuccessfulPoll(all, watchTexts, 0).None?;
    case Some(k) =>
      assert all[k + 1] == rest[k];
      forall i | 0 <= i < k + 1
        ensures PollOf(all[i], watchTexts).None?
      {
        if i > 0 {
          assert all[i] == rest[i - 1];
        }
      }
      FirstSuccessfulPollAt(all, watchTexts, k + 1);
  }

  /** The first successful poll is the one at `k` when every earlier poll
      failed. */
  lemma {:induction false} FirstSuccessfulPollAt(snapshots: seq<String>, watchTexts: seq<String>, k: nat)
    requires k < |snapshots| && PollOf(snapshots[k], watchTexts).Some?
    requires forall i :: 0 <= i < k ==> PollOf(snapshots[i], watchTexts).None?
    ensures FirstSuccessfulPoll(snapshots, watchTexts, 0) == Some(k)
  {
    var r := FirstSuccessfulPoll(snapshots, watchTexts, 0);
    assert r.Some?;
    assert !(r.value < k) && !(k < r.value);
  }

  // ---------------------------------------------------------------------
  // Reading the tunnel information

  const PortMarker: String := "PORT="
  const NodeMarker: String := "NODE="
  const CloseMarker: String := "This tunnel will close at: "

  /** The three markers `get_tunnel_info` waits for. */
  const TunnelMarkers: seq<String> := [PortMarker, NodeMarker, CloseMarker]

  /** The index of the first line, from `from` on, that contains `marker`. */
  function FirstIndexWith(lines: seq<String>, marker: String, from: nat): (r: Option<nat>)
    ensures r.Some? ==> from <= r.value < |lines| && Contains(lines[r.value], marker)
    ensures r.Some? ==> forall i :: from <= i < r.value ==> !Contains(lines[i], marker)
    ensures r.None? ==> forall i :: from <= i < |lines| ==> !Contains(lines[i], marker)
    decreases |lines| - from
  {
    if from >= |lines| then None
    else if Contains(lines[from], marker) then Some(from)
    else FirstIndexWith(lines, marker, from + 1)
  }

  /** `next(line for line in lines if marker in line)`: the first line
      containing `marker`, or `StopIteration`. */
  function FirstWith(lines: seq<String>, marker: String): (r: Result<String, PyError>)
    ensures r.Failure? <==> forall i :: 0 <= i < |lines| ==> !Contains(lines[i], marker)
    ensures r.Failure? ==> r.error == StopIteration
    ensures r.Success? ==> Contains(r.value, marker) && exists i :: (0 <= i < |lines| && lines[i] == r.value
      && forall j :: 0 <= j < i ==> !Contains(lines[j], marker))
  {
    match FirstIndexWith(lines, marker, 0)
    case None => Failure(StopIteration)
    case Some(i) => Success(lines[i])
  }

  /** What `get_tunnel_info` does after the watch: which fields it assigns
      and what it raises. `port` and `node` are assigned before the
      timestamp is parsed, so a bad timestamp leaves them set. */
  datatype InfoStep =
    | Unchanged(error: PyError)
    | PortAndNode(port: int, node: String, error: PyError)
    | Assigned(port: int, node: String, termination: DateTime)
  {
    /** What `get_tunnel_info` returns or raises. */
    function Returned(): Result<(int, String, DateTime), PyError> {
      if Assigned? then Success((port, node, termination)) else Failure(error)
    }

    /** The `port` field afterwards. */
    function PortAfter(before: Option<int>): Option<int> {
      if Unchanged? then before else Some(port)
    }

    /** The `node` field afterwards. */
    function NodeAfter(before: Option<String>): Option<String> {
      if Unchanged? then before else Some(node)
    }

    /** The `termination_time` field afterwards. */
    function TerminationAfter(before: Option<DateTime>): Option<DateTime> {
      if Assigned? then Some(termination) else before
    }
  }

  /** `next(line for line in lines if marker in line).split(sep)[1]`:
      the field after `sep` in the first line containing `marker`. */
  function FieldAfter(lines: seq<String>, marker: String, sep: String): (r: Result<String, PyError>)
    requires sep != []
    ensures (forall i :: 0 <= i < |lines| ==> !Contains(lines[i], marker)) ==> r == Failure(StopIteration)
  {
    match FirstWith(lines, marker)
    case Failure(e) => Failure(e)
    case Success(line) => SecondField(line, sep)
  }

  /** The fields read from the lines of a successful watch, in the order
      the source evaluates them: the three `next` calls with their
      splits, then `int`, then `strptime`. */
  function InfoOf(found: seq<String>): (r: InfoStep)
    ensures r.Assigned? ==> Valid(r.termination)
  {
    match FieldAfter(found, PortMarker, "=")
    case Failure(e) => Unchanged(e)
    case Success(portText) =>
      match FieldAfter(found, NodeMarker, "=")
      case Failure(e) => Unchanged(e)
      case Success(node) =>
        match FieldAfter(found, CloseMarker, "at: ")
        case Failure(e) => Unchanged(e)
        case Success(closeText) => Converted(portText, node, closeText)
  }

  /** `int(port)`, then `strptime` of the closing time; the port and node
      are assigned between the two. */
  function Converted(portText: String, node: String, closeText: String): (r: InfoStep)
    ensures r.Assigned? ==> Valid(r.termination)
  {
    match ParseInt(portText)
    case None => Unchanged(ValueError("invalid literal for int() with base 10: '" + portText + "'"))
    case Some(port) =>
      match ParseTimestamp(closeText)
      case Failure(e) => PortAndNode(port, node, e)
      case Success(t) => Assigned(port, node, t)
  }

  /** A line containing a marker that ends in `=` contains `=`, so
      `split("=")[1]` on it cannot fail. */
  lemma {:induction false} MarkerLineHasEquals(line: String, marker: String)
    requires marker == PortMarker || marker == NodeMarker
    requires Contains(line, marker)
    ensures Contains(line, "=")
  {
    var i := Find(line, marker).value;
    assert |marker| == 5 && marker[4] == '=';
    assert line[i..i + 5][4] == line[i + 4];
    assert line[i + 4..i + 5] == [line[i + 4]] == "=";
    assert OccursAt(line, "=", i + 4);
    ContainsIff(line, "=");
  }

  /** A missing marker stops the reading with `StopIteration` before any
      field is assigned. */
  lemma {:induction false} InfoWithoutMarker(found: seq<String>, marker: String)
    requires marker in TunnelMarkers
    requires forall i :: 0 <= i < |found| ==> !Contains(found[i], marker)
    ensures InfoOf(found) == Unchanged(StopIteration)
  {
    FieldAfterEquals(found, PortMarker);
    FieldAfterEquals(found, NodeMarker);
    var port, node := FieldAfter(found, PortMarker, "="), FieldAfter(found, NodeMarker, "=");
    if port.Failure? {
      assert InfoOf(found) == Unchanged(port.error);
    } else if node.Failure? {
      assert InfoOf(found) == Unchanged(node.error);
    } else {
      assert marker == CloseMarker;
      assert InfoOf(found) == Unchanged(FieldAfter(found, CloseMarker, "at: ").error);
    }
  }

  /** The field after `=` of the first port or node line can only be
      missing because there is no such line. */
  lemma {:induction false} FieldAfterEquals(lines: seq<String>, marker: String)
    requires marker == PortMarker || marker == NodeMarker
    ensures FieldAfter(lines, marker, "=").Failure? ==> FieldAfter(lines, marker, "=") == Failure(StopIteration)
  {
    var line := FirstWith(lines, marker);
    if line.Success? {
      MarkerLineHasEquals(line.value, marker);
    }
  }

  /** The first line containing `marker` is the one at `i` when no line
      before it contains the marker. */
  lemma {:induction false} FirstWithAt(lines: seq<String>, marker: String, i: nat)
    requires i < |lines| && Contains(lines[i], marker)
    requires forall j :: 0 <= j < i ==> !Contains(lines[j], marker)
    ensures FirstWith(lines, marker) == Success(lines[i])
  {
    var k := FirstIndexWith(lines, marker, 0);
    assert k == Some(i);
  }

  /** The port line `PORT=<n>` carries only the port marker, and its
      field after `=` is the number. */
  lemma {:induction false} PortLine(port: int)
    ensures var line := PortMarker + IntToString(port);
      Contains(line, PortMarker) && !Contains(line, NodeMarker) && !Contains(line, CloseMarker)
      && SecondField(line, "=") == Success(IntToString(port))
  {
    var digits := IntToString(port);
    var line := PortMarker + digits;
    IntToStringChars(port);
    ContainsInfix([], PortMarker, digits);
    assert [] + PortMarker + digits == line == "PORT" + ['='] + digits;
    SecondFieldOfChar("PORT", '=', digits);
    MissingChar(line, NodeMarker, 'N');
    MissingChar(line, CloseMarker, 'h');
  }

  /** The node line `NODE=<name>`, for a name without `=` or `:`, carries
      only the node marker, and its field after `=` is the name. */
  lemma {:induction false} NodeLine(node: String)
    requires '=' !in node && ':' !in node
    ensures var line := NodeMarker + node;
      Contains(line, NodeMarker) && !Contains(line, PortMarker) && !Contains(line, CloseMarker)
      && SecondField(line, "=") == Success(node)
  {
    var line := NodeMarker + node;
    ContainsInfix([], NodeMarker, node);
    assert [] + NodeMarker + node == line == "NODE" + ['='] + node;
    SecondFieldOfChar("NODE", '=', node);
    MissingChar(line, CloseMarker, ':');
    forall i | 0 <= i && i + 5 <= |line|
      ensures !OccursAt(line, PortMarker, i)
    {
      assert line[i..i + 5][0] == line[i] && line[i..i + 5][4] == line[i + 4];
      if i > 0 {
        assert line[i + 4] == node[i - 1] && node[i - 1] in node;
      }
    }
    ContainsIff(line, PortMarker);
  }

  /** The closing line carries only the close marker, and its field after
      `at: ` is the formatted time. */
  lemma {:induction false} CloseLine(closing: DateTime)
    requires Valid(closing)
    ensures var line := CloseMarker + Format(closing);
      Contains(line, CloseMarker) && !Contains(line, PortMarker) && !Contains(line, NodeMarker)
      && SecondField(line, "at: ") == Success(Format(closing))
  {
    var stamp := Format(closing);
    var line := CloseMarker + stamp;
    FormatChars(closing);
    ContainsInfix([], CloseMarker, stamp);
    assert [] + CloseMarker + stamp == line;
    MissingChar(line, PortMarker, '=');
    MissingChar(line, NodeMarker, '=');
    CloseLineField(stamp);
  }

  /** The text after the close marker in a line that starts with it, when
      that text has no `a`: `split("at: ")[1]` returns all of it. */
  lemma {:induction false} CloseLineField(x: String)
    requires 'a' !in x
    ensures SecondField(CloseMarker + x, "at: ") == Success(x)
  {
    var s := CloseMarker + x;
    var head := "This tunnel will close at";
    assert CloseMarker == head + ": ";
    assert s[23..27] == "at: ";
    forall j | 0 <= j < 23
      ensures !OccursAt(s, "at: ", j)
    {
      assert ':' !in head;
      assert s[j + 2] == head[j + 2] != ':';
      assert s[j..j + 4][2] == s[j + 2];
    }
    assert s[27..] == x;
    MissingChar(x, "at: ", 'a');
    SecondFieldAt(s, "at: ", 23);
  }

  /** The port, node and closing lines the job script prints are read back
      as the port, node and closing time they were printed from. */
  lemma {:induction false} InfoOfTunnelLines(port: int, node: String, closing: DateTime)
    requires '=' !in node && ':' !in node
    requires Valid(closing) && closing.year >= 1000
    ensures InfoOf([PortMarker + IntToString(port), NodeMarker + node, CloseMarker + Format(closing)])
      == Assigned(port, node, closing)
  {
    var found := [PortMarker + IntToString(port), NodeMarker + node, CloseMarker + Format(closing)];
    FieldsOfTunnelLines(port, node, closing);
    ConvertedTunnelValues(port, node, closing);
  }

  /** Each of the three lines yields the text it was printed from. */
  lemma {:induction false} FieldsOfTunnelLines(port: int, node: String, closing: DateTime)
    requires '=' !in node && ':' !in node
    requires Valid(closing)
    ensures var found := [PortMarker + IntToString(port), NodeMarker + node, CloseMarker + Format(closing)];
      FieldAfter(found, PortMarker, "=") == Success(IntToString(port))
      && FieldAfter(found, NodeMarker, "=") == Success(node)
      && FieldAfter(found, CloseMarker, "at: ") == Success(Format(closing))
  {
    var found := [PortMarker + IntToString(port), NodeMarker + node, CloseMarker + Format(closing)];
    PortLine(port);
    NodeLine(node);
    CloseLine(closing);
    ThreeFields(found, IntToString(port), node, Format(closing));
  }

  /** Three lines holding the port, node and close markers in that order,
      each only its own among the earlier markers, yield their fields. */
  lemma {:induction false} ThreeFields(found: seq<String>, portText: String, node: String, closeText: String)
    requires |found| == 3
    requires Contains(found[0], PortMarker) && SecondField(found[0], "=") == Success(portText)
    requires !Contains(found[0], NodeMarker) && Contains(found[1], NodeMarker)
    requires SecondField(found[1], "=") == Success(node)
    requires !Contains(found[0], CloseMarker) && !Contains(found[1], CloseMarker) && Contains(found[2], CloseMarker)
    requires SecondField(found[2], "at: ") == Success(closeText)
    ensures FieldAfter(found, PortMarker, "=") == Success(portText)
    ensures FieldAfter(found, NodeMarker, "=") == Success(node)
    ensures FieldAfter(found, CloseMarker, "at: ") == Success(closeText)
  {
    FieldOfLine(found, PortMarker, "=", 0, portText);
    forall j | 0 <= j < 1
      ensures !Contains(found[j], NodeMarker)
    {
      assert j == 0;
    }
    FieldOfLine(found, NodeMarker, "=", 1, node);
    forall j | 0 <= j < 2
      ensures !Contains(found[j], CloseMarker)
    {
      assert j == 0 || j == 1;
    }
    FieldOfLine(found, CloseMarker, "at: ", 2, closeText);
  }

  /** The field read after `marker` comes from the first line holding it. */
  lemma {:induction false} FieldOfLine(lines: seq<String>, marker: String, sep: String, i: nat, field: String)
    requires sep != []
    requires i < |lines| && Contains(lines[i], marker)
    requires forall j :: 0 <= j < i ==> !Contains(lines[j], marker)
    requires SecondField(lines[i], sep) == Success(field)
    ensures FieldAfter(lines, marker, sep) == Success(field)
  {
    FirstWithAt(lines, marker, i);
  }

  /** The printed port and closing time convert back to the values. */
  lemma {:induction false} ConvertedTunnelValues(port: int, node: String, closing: DateTime)
    requires Valid(closing) && closing.year >= 1000
    ensures Converted(IntToString(port), node, Format(closing)) == Assigned(port, node, closing)
  {
    ParseIntOfString(port);
    ParseOfFormat(closing);
  }

  /** The markers a line contains, in watch order. */
  lemma {:induction false} MatchingMarkers(line: String)
    ensures Matching(line, TunnelMarkers) ==
      (if Contains(line, PortMarker) then [PortMarker] else [])
      + (if Contains(line, NodeMarker) then [NodeMarker] else [])
      + (if Contains(line, CloseMarker) then [CloseMarker] else [])
  {
    var one := [PortMarker];
    var two := [PortMarker, NodeMarker];
    assert one[..0] == [] && two[..1] == one && TunnelMarkers[..2] == two;
    assert Matching(line, one) == (if Contains(line, PortMarker) then [PortMarker] else []);
    assert Matching(line, two) == Matching(line, one) + (if Contains(line, NodeMarker) then [NodeMarker] else []);
  }

  /** When every line holds exactly one watch text, the hits are the lines
      themselves. */
  lemma {:induction false} HitsOfSingleHits(lines: seq<String>, watchTexts: seq<String>)
    requires forall i :: 0 <= i < |lines| ==> |Matching(lines[i], watchTexts)| == 1
    ensures Hits(lines, watchTexts) == lines
    decreases |lines|
  {
    if lines != [] {
      var init := lines[..|lines| - 1];
      HitsOfSingleHits(init, watchTexts);
      assert LineHits(lines[|lines| - 1], watchTexts) == [lines[|lines| - 1]];
      assert init + [lines[|lines| - 1]] == lines;
    }
  }

  /** When the first lines of a snapshot each hold exactly one watch
      text, the poll returns as soon as there are as many of them as watch
      texts, whichever texts they hold: two lines with the same marker
      count as two. */
  lemma {:induction false} PollOfSingleHits(lines: seq<String>, rest: seq<String>, watchTexts: seq<String>)
    requires |lines| == |watchTexts| >= 1
    requires forall i :: 0 <= i < |lines| ==> |Matching(lines[i], watchTexts)| == 1
    ensures Poll(lines + rest, watchTexts) == Some(lines)
  {
    var all := lines + rest;
    forall k | 1 <= k <= |lines|
      ensures Hits(all[..k], watchTexts) == all[..k]
      ensures CompleteAfter(all, watchTexts, k) <==> k == |lines|
    {
      assert all[..k] == lines[..k];
      HitsOfSingleHits(all[..k], watchTexts);
    }
    assert all[..|lines|] == lines;
    assert FirstComplete(all, watchTexts, 1) == Some(|lines|);
  }

  /** Each of the lines `PORT=<a>`, `PORT=<b>`, `NODE=<name>` holds exactly
      one marker. */
  lemma {:induction false} DuplicatePortHits(first: int, second: int, node: String)
    requires '=' !in node && ':' !in node
    ensures var lines := [PortMarker + IntToString(first), PortMarker + IntToString(second), NodeMarker + node];
      forall i :: 0 <= i < |lines| ==> |Matching(lines[i], TunnelMarkers)| == 1
  {
    var lines := [PortMarker + IntToString(first), PortMarker + IntToString(second), NodeMarker + node];
    forall i | 0 <= i < |lines|
      ensures |Matching(lines[i], TunnelMarkers)| == 1
    {
      MatchingMarkers(lines[i]);
      if i == 0 {
        PortLine(first);
      } else if i == 1 {
        PortLine(second);
      } else {
        NodeLine(node);
      }
    }
  }

  /** Two port lines before the node line complete the poll with three
      hits and no closing line, and reading the tunnel information from
      that poll then fails with `StopIteration`: neither port wins. */
  lemma {:induction false} DuplicatePortLine(first: int, second: int, node: String, rest: seq<String>)
    requires '=' !in node && ':' !in node
    ensures var lines := [PortMarker + IntToString(first), PortMarker + IntToString(second), NodeMarker + node];
      Poll(lines + rest, TunnelMarkers) == Some(lines) && InfoOf(lines) == Unchanged(StopIteration)
  {
    var lines := [PortMarker + IntToString(first), PortMarker + IntToString(second), NodeMarker + node];
    DuplicatePortHits(first, second, node);
    PollOfSingleHits(lines, rest, TunnelMarkers);
    forall i | 0 <= i < |lines|
      ensures !Contains(lines[i], CloseMarker)
    {
      if i == 0 {
        PortLine(first);
      } else if i == 1 {
        PortLine(second);
      } else {
        NodeLine(node);
      }
    }
    InfoWithoutMarker(lines, CloseMarker);
  }

  // ---------------------------------------------------------------------
  // The job tunnel

  /** The `AttributeError` of an attribute looked up on `None`. */
  function NoneAttribute(name: String): PyError {
    AttributeError("'NoneType' object has no attribute '" + name + "'")
  }

  /** The reads of the output file, one `cat` per poll. */
  function OutputReads(host: String, output: String, n: nat): seq<Effect> {
    seq(n, _ => Execute(host, "cat " + output))
  }

  /** One more poll appends one more read. */
  lemma {:induction false} OutputReadsStep(host: String, output: String, n: nat)
    ensures OutputReads(host, output, n + 1) == OutputReads(host, output, n) + [Execute(host, "cat " + output)]
  {
    var a, b := OutputReads(host, output, n + 1), OutputReads(host, output, n) + [Execute(host, "cat " + output)];
    assert |a| == |b|;
    forall i | 0 <= i < |a|
      ensures a[i] == b[i]
    {
    }
  }

  /** What `get_tunnel_info` does, given what `is_running` gave and the
      snapshots of the output file read before the deadline. */
  function TunnelInfoStep(running: Result<bool, PyError>, snapshots: seq<String>): (r: InfoStep)
    ensures running != Success(true) ==> r.Unchanged?
    ensures running == Success(false) ==> r == Unchanged(ValueError("Job is not running"))
  {
    match running
    case Failure(e) => Unchanged(e)
    case Success(isRunning) =>
      if !isRunning then Unchanged(ValueError("Job is not running"))
      else
        match Watch(snapshots, TunnelMarkers)
        case Failure(e) => Unchanged(e)
        case Success(found) => InfoOf(found)
  }

  /** The tunnel job on the cluster (`JobTunnel`). `command` and `output`
      are the submission command and the output path of the job's
      `SBatchCommand`, `host` the login node's configuration entry. */
  class JobTunnel {
    const command: String
    const output: String
    const host: SshEntry
    var jobId: Option<int>
    var port: Option<int>
    var node: Option<String>
    var terminationTime: Option<DateTime>
    var job: Option<SlurmJob>

    constructor(command: String, output: String, host: SshEntry)
      ensures this.command == command && this.output == output && this.host == host
      ensures jobId == None && port == None && node == None && terminationTime == None && job == None
    {
      this.command := command;
      this.output := output;
      this.host := host;
      jobId := None;
      port := None;
      node := None;
      terminationTime := None;
      job := None;
    }

    /** `submit_slurm_job`, given the stdout of the submission command:
        the id and the job handle are set only when the id parses. */
    method SubmitSlurmJob(stdout: String) returns (r: Result<int, PyError>, effects: seq<Effect>)
      modifies this
      ensures effects == [Execute(host.host, command)]
      ensures r == JobIdOf(stdout)
      ensures r.Success? ==> jobId == Some(r.value) && job == Some(SlurmJob(r.value, host.host))
      ensures r.Failure? ==> jobId == old(jobId) && job == old(job)
      ensures port == old(port) && node == old(node) && terminationTime == old(terminationTime)
    {
      effects := [Execute(host.host, command)];
      r := JobIdOf(stdout);
      SetJob(r);
    }

    /** Records the parsed id and the job handle; a failed parse changes
        nothing. */
    method SetJob(r: Result<int, PyError>)
      modifies this
      ensures r.Success? ==> jobId == Some(r.value) && job == Some(SlurmJob(r.value, host.host))
      ensures r.Failure? ==> jobId == old(jobId) && job == old(job)
      ensures port == old(port) && node == old(node) && terminationTime == old(terminationTime)
    {
      if r.Success? {
        jobId := Some(r.value);
        job := Some(SlurmJob(r.value, host.host));
      }
    }

    /** `cancel_slurm_job`: cancels through the job handle, which is still
        `None` before submission. */
    method CancelSlurmJob() returns (raised: Option<PyError>, effects: seq<Effect>)
      ensures job.None? ==> raised == Some(NoneAttribute("cancel")) && effects == []
      ensures job.Some? ==> raised == None && effects == [Cancel(job.value)]
    {
      if job.None? {
        return Some(NoneAttribute("cancel")), [];
      }
      return None, [Cancel(job.value)];
    }

    /** `is_running`, given what the job handle reports. */
    function IsRunning(reported: bool): (r: Result<bool, PyError>)
      reads this
      ensures r.Failure? <==> job.None?
      ensures r.Failure? ==> r.error == NoneAttribute("is_running")
      ensures r.Success? ==> r.value == reported
    {
      if job.None? then Failure(NoneAttribute("is_running")) else Success(reported)
    }

    /** `watch_output_for_text` over the snapshots read before the
        deadline: one `cat` of the output file per poll until a poll
        succeeds. */
    method WatchOutputForText(watchTexts: seq<String>, snapshots: seq<String>)
      returns (r: Result<seq<String>, PyError>, effects: seq<Effect>)
      ensures r == Watch(snapshots, watchTexts)
      ensures effects == OutputReads(host.host, output, PollsMade(snapshots, watchTexts))
    {
      effects := [];
      var i := 0;
      while i < |snapshots|
        invariant 0 <= i <= |snapshots|
        invariant effects == OutputReads(host.host, output, i)
        invariant forall j :: 0 <= j < i ==> PollOf(snapshots[j], watchTexts).None?
      {
        OutputReadsStep(host.host, output, i);
        effects := effects + [Execute(host.host, "cat " + output)];
        var found := PollOnce(SplitLines(snapshots[i]), watchTexts);
        if found.Some? {
          FirstSuccessfulPollAt(snapshots, watchTexts, i);
          return Success(found.value), effects;
        }
        i := i + 1;
      }
      return Failure(TimeoutError(TimeoutMessage(watchTexts))), effects;
    }

    /** `get_tunnel_info`, given what the job handle reports and the
        snapshots of the output file. The fields change as
        `TunnelInfoStep` says: not at all when it raises before the
        assignments, port and node alone when the timestamp is bad. */
    method GetTunnelInfo(reported: bool, snapshots: seq<String>)
      returns (r: Result<(int, String, DateTime), PyError>, effects: seq<Effect>)
      modifies this
      ensures var step := TunnelInfoStep(old(IsRunning(reported)), snapshots);
        r == step.Returned() && port == step.PortAfter(old(port)) && node == step.NodeAfter(old(node))
        && terminationTime == step.TerminationAfter(old(terminationTime))
      ensures effects ==
        if old(IsRunning(reported)) == Success(true)
        then OutputReads(host.host, output, PollsMade(snapshots, TunnelMarkers))
        else []
      ensures jobId == old(jobId) && job == old(job)
    {
      var running := IsRunning(reported);
      if running.Failure? {
        return Failure(running.error), [];
      }
      if !running.value {
        return Failure(ValueError("Job is not running")), [];
      }
      var found;
      found, effects := WatchOutputForText(TunnelMarkers, snapshots);
      if found.Failure? {
        return Failure(found.error), effects;
      }
      r := Assign(InfoOf(found.value));
    }

    /** The assignments at the end of `get_tunnel_info`. */
    method Assign(step: InfoStep) returns (r: Result<(int, String, DateTime), PyError>)
      modifies this
      ensures r == step.Returned() && port == step.PortAfter(old(port)) && node == step.NodeAfter(old(node))
        && terminationTime == step.TerminationAfter(old(terminationTime))
      ensures jobId == old(jobId) && job == old(job)
    {
      match step
      case Unchanged(e) =>
        r := Failure(e);
      case PortAndNode(p, n, e) =>
        port := Some(p);
        node := Some(n);
        r := Failure(e);
      case Assigned(p, n, t) =>
        port := Some(p);
        node := Some(n);
        terminationTime := Some(t);
        r := Success((p, n, t));
    }
  }

  // ---------------------------------------------------------------------
  // The local port forward

  /** The state of the local tunnel's worker thread. */
  datatype ThreadState = Alive | Finished

  /** The `-job` entry for the compute node, reached through the login
      node. */
  function TunnelEntryFor(login: SshEntry, node: String, port: int): SshEntry {
    SshEntry(login.host + "-job", node, port, login.user, Some(login.host))
  }

  /** The `-port-forward` entry for the local end of the forward. */
  function LocalEntryFor(remote: SshEntry, localPort: int): SshEntry {
    SshEntry(remote.host + "-port-forward", "localhost", localPort, remote.user, None)
  }

  /** The ssh command that forwards the local port to the remote entry. */
  function ForwardCommand(localPort: int, remote: SshEntry): String {
    "ssh -N -L " + IntToString(localPort) + ":localhost:" + IntToString(remote.port) + " " + remote.host
  }

  /** The configuration entries the tunnel writes: the `-job` entry for
      the node, proxied through the login node, and the `-port-forward`
      entry on `localhost`. Their hosts differ from each other and from the
      login node's, so removing one never removes another. */
  lemma EntriesDistinct(login: SshEntry, node: String, port: int, localPort: int)
    ensures var tunnel := TunnelEntryFor(login, node, port);
      var local := LocalEntryFor(tunnel, localPort);
      tunnel.host == login.host + "-job" && tunnel.proxy == Some(login.host)
      && tunnel.hostname == node && tunnel.port == port && tunnel.user == login.user
      && local.host == login.host + "-job-port-forward" && local.hostname == "localhost"
      && local.port == localPort && local.user == login.user
      && login.host != tunnel.host && tunnel.host != local.host && login.host != local.host
  {
  }

  /** What `LocalTunnel.cleanup` needs to know of a local tunnel. */
  datatype LocalState = LocalState(entry: Option<SshEntry>, running: bool)

  /** `LocalTunnel.cleanup`: remove the entry (raising when it was never
      set), then stop and join the thread only if it is alive. */
  function LocalCleanup(state: LocalState): (r: (Option<PyError>, seq<Effect>))
    ensures state.entry.None? ==> r == (Some(ValueError("Local tunnel entry is not set")), [])
    ensures state.entry.Some? ==> r.0.None? && |r.1| >= 1 && r.1[0] == RemoveEntry(state.entry.value.host)
    ensures SetStop in r.1 <==> state.entry.Some? && state.running
    ensures JoinThread in r.1 <==> state.entry.Some? && state.running
  {
    match state.entry
    case None => (Some(ValueError("Local tunnel entry is not set")), [])
    case Some(entry) =>
      (None, [RemoveEntry(entry.host)] + (if state.running then [SetStop, JoinThread] else []))
  }

  /** The local end of the tunnel (`LocalTunnel`): a worker thread that
      runs the ssh port forward and writes its configuration entry. */
  class LocalTunnel {
    const remoteEntry: SshEntry
    var localPort: Option<int>
    var thread: Option<ThreadState>
    var stopRequested: bool
    var created: bool
    var localEntry: Option<SshEntry>

    /** Once created, the tunnel has its port, its thread and the entry
        for that port. */
    predicate Valid()
      reads this
    {
      created ==> localPort.Some? && thread.Some? && localEntry == Some(LocalEntryFor(remoteEntry, localPort.value))
    }

    constructor(remoteEntry: SshEntry)
      ensures this.remoteEntry == remoteEntry && Valid()
      ensures localPort == None && thread == None && localEntry == None
      ensures !stopRequested && !created
    {
      this.remoteEntry := remoteEntry;
      localPort := None;
      thread := None;
      stopRequested := false;
      created := false;
      localEntry := None;
    }

    /** The `port` property. */
    function Port(): (r: Result<int, PyError>)
      reads this
      ensures r.Failure? <==> localPort.None?
      ensures r.Failure? ==> r.error == ValueError("Local tunnel port is not set")
      ensures r.Success? ==> r.value == localPort.value
    {
      if localPort.None? then Failure(ValueError("Local tunnel port is not set")) else Success(localPort.value)
    }

    /** The `thread` property. */
    function Thread(): (r: Result<ThreadState, PyError>)
      reads this
      ensures r.Failure? <==> thread.None?
      ensures r.Failure? ==> r.error == ValueError("Local tunnel thread is not set")
      ensures r.Success? ==> r.value == thread.value
    {
      if thread.None? then Failure(ValueError("Local tunnel thread is not set")) else Success(thread.value)
    }

    /** The `local_tunnel_entry` property. */
    function LocalTunnelEntry(): (r: Result<SshEntry, PyError>)
      reads this
      ensures r.Failure? <==> localEntry.None?
      ensures r.Failure? ==> r.error == ValueError("Local tunnel entry is not set")
      ensures r.Success? ==> r.value == localEntry.value
    {
      if localEntry.None? then Failure(ValueError("Local tunnel entry is not set")) else Success(localEntry.value)
    }

    /** `is_running`: the thread exists and is alive. */
    predicate IsRunning()
      reads this
      ensures IsRunning() <==> Thread().Success? && Thread().value == Alive
    {
      thread == Some(Alive)
    }

    /** What cleanup needs to know of this tunnel. */
    function State(): LocalState
      reads this
    {
      LocalState(localEntry, IsRunning())
    }

    /** `create` with `freePort` the port the operating system handed out:
        the thread starts the forward, writes the `-port-forward` entry
        and marks the tunnel created, and `create` returns once it has.
        Afterwards every accessor succeeds. */
    method Create(freePort: int) returns (effects: seq<Effect>)
      modifies this
      ensures localPort == Some(freePort) && thread == Some(Alive) && created
      ensures localEntry == Some(LocalEntryFor(remoteEntry, freePort))
      ensures stopRequested == old(stopRequested)
      ensures effects == [Spawn(ForwardCommand(freePort, remoteEntry)), UpdateEntry(LocalEntryFor(remoteEntry, freePort))]
      ensures Valid() && Port() == Success(freePort) && Thread() == Success(Alive)
      ensures LocalTunnelEntry() == Success(LocalEntryFor(remoteEntry, freePort))
    {
      localPort := Some(freePort);
      thread := Some(Alive);
      var entry := LocalEntryFor(remoteEntry, freePort);
      localEntry := Some(entry);
      created := true;
      effects := [Spawn(ForwardCommand(freePort, remoteEntry)), UpdateEntry(entry)];
    }

    /** `cleanup`: as `LocalCleanup` says; stopping and joining a live
        thread leaves it finished. */
    method Cleanup() returns (raised: Option<PyError>, effects: seq<Effect>)
      modifies this
      ensures (raised, effects) == LocalCleanup(old(State()))
      ensures old(IsRunning()) && old(localEntry).Some? ==> stopRequested && thread == Some(Finished)
      ensures !(old(IsRunning()) && old(localEntry).Some?) ==>
        stopRequested == old(stopRequested) && thread == old(thread)
      ensures localPort == old(localPort) && localEntry == old(localEntry) && created == old(created)
    {
      var entry := LocalTunnelEntry();
      if entry.Failure? {
        return Some(entry.error), [];
      }
      effects := [RemoveEntry(entry.value.host)];
      raised := None;
      if !IsRunning() {
        assert effects + [] == effects;
        return;
      }
      stopRequested := true;
      effects := effects + [SetStop];
      thread := Some(Finished);
      effects := effects + [JoinThread];
      assert effects == [RemoveEntry(entry.value.host)] + [SetStop, JoinThread];
    }
  }

  // ---------------------------------------------------------------------
  // Teardown

  /** How a call ends. */
  datatype Outcome = Returned | Raised(error: PyError) | Exited(code: int)

  /** The module-level `cleanup`. `job` is `None` when no job tunnel is
      passed and otherwise its job handle; a `JobTunnel` is always truthy,
      so cancellation is attempted whenever one is passed. */
  function CleanupPlan(job: Option<Option<SlurmJob>>, sshConfig: bool, tunnelEntry: Option<SshEntry>,
                       local: Option<LocalState>, exit: bool): (r: (Outcome, seq<Effect>))
    ensures job.Some? && job.value.Some? ==> |r.1| >= 1 && r.1[0] == Cancel(job.value.value)
    ensures job == Some(None) ==> r == (Raised(NoneAttribute("cancel")), [])
    ensures r.0 == Exited(0) <==> exit && job != Some(None) && (local.None? || local.value.entry.Some?)
    ensures r.0 == Returned <==> !exit && job != Some(None) && (local.None? || local.value.entry.Some?)
    ensures job != Some(None) && sshConfig && tunnelEntry.Some? ==> RemoveEntry(tunnelEntry.value.host) in r.1
    ensures !(sshConfig && tunnelEntry.Some?) ==> forall e :: e in r.1 && e.RemoveEntry? ==>
      local.Some? && local.value.entry.Some? && e.host == local.value.entry.value.host
    ensures SetStop in r.1 ==> local.Some? && local.value.running
  {
    if job == Some(None) then (Raised(NoneAttribute("cancel")), [])
    else
      var cancel := if job.Some? then [Cancel(job.value.value)] else [];
      var remove := if sshConfig && tunnelEntry.Some? then [RemoveEntry(tunnelEntry.value.host)] else [];
      match local
      case None => (if exit then Exited(0) else Returned, cancel + remove)
      case Some(state) =>
        var (raised, localEffects) := LocalCleanup(state);
        if raised.Some? then (Raised(raised.value), cancel + remove + localEffects)
        else (if exit then Exited(0) else Returned, cancel + remove + localEffects)
  }

  /** The module-level `cleanup` run step by step. */
  method Cleanup(jobTunnel: JobTunnel?, sshConfig: bool, tunnelEntry: Option<SshEntry>,
                 localTunnel: LocalTunnel?, exit: bool) returns (outcome: Outcome, effects: seq<Effect>)
    modifies localTunnel
    ensures (outcome, effects) == CleanupPlan(
      if jobTunnel == null then None else Some(jobTunnel.job), sshConfig, tunnelEntry,
      if localTunnel == null then None else Some(old(localTunnel.State())), exit)
    ensures localTunnel != null ==>
      localTunnel.localPort == old(localTunnel.localPort) && localTunnel.localEntry == old(localTunnel.localEntry)
      && localTunnel.created == old(localTunnel.created)
    ensures localTunnel != null ==>
      var stops := (jobTunnel == null || jobTunnel.job.Some?)
        && old(localTunnel.IsRunning()) && old(localTunnel.localEntry).Some?;
      (stops ==> localTunnel.stopRequested && localTunnel.thread == Some(Finished))
      && (!stops ==> localTunnel.stopRequested == old(localTunnel.stopRequested)
                     && localTunnel.thread == old(localTunnel.thread))
  {
    ghost var local := if localTunnel == null then None else Some(localTunnel.State());
    var cancelled: seq<Effect> := [];
    if jobTunnel != null {
      var raised;
      raised, cancelled := jobTunnel.CancelSlurmJob();
      if raised.Some? {
        return Raised(raised.value), cancelled;
      }
    }
    var removed := if sshConfig && tunnelEntry.Some? then [RemoveEntry(tunnelEntry.value.host)] else [];
    effects := cancelled + removed;
    if localTunnel != null {
      var raised, cleaned := localTunnel.Cleanup();
      assert (raised, cleaned) == LocalCleanup(local.value);
      effects := effects + cleaned;
      if raised.Some? {
        return Raised(raised.value), effects;
      }
    }
    outcome := if exit then Exited(0) else Returned;
  }

  /** The `NameError` of reading `tunnel_entry` in the first handler
      before `run_tunnel` has bound it. */
  const UnboundTunnelEntry: PyError :=
    NameError("cannot access free variable 'tunnel_entry' where it is not associated with a value in enclosing scope")

  /** The first SIGINT handler, installed before submission. It passes
      `tunnel_entry` to `cleanup`, and until the entry is built that name
      is unbound: the handler raises before `cleanup` runs, so nothing is
      cancelled. */
  function FirstInterrupt(job: Option<SlurmJob>, tunnelEntry: Option<SshEntry>): (r: (Outcome, seq<Effect>))
    ensures tunnelEntry.None? ==> r == (Raised(UnboundTunnelEntry), [])
    ensures tunnelEntry.Some? && job.Some? ==>
      r.0 == Exited(0) && r.1 == [Cancel(job.value), RemoveEntry(tunnelEntry.value.host)]
    ensures tunnelEntry.Some? && job.None? ==> r == (Raised(NoneAttribute("cancel")), [])
  {
    if tunnelEntry.None? then (Raised(UnboundTunnelEntry), [])
    else CleanupPlan(Some(job), true, tunnelEntry, None, true)
  }

  /** The second SIGINT handler, and equally the final `cleanup` when the
      tunnel's time is up: everything is passed and the program exits. */
  function SecondInterrupt(job: Option<SlurmJob>, tunnelEntry: SshEntry, local: LocalState): (r: (Outcome, seq<Effect>))
    ensures job.Some? && local.entry.Some? ==>
      r.0 == Exited(0) && r.1 == [Cancel(job.value), RemoveEntry(tunnelEntry.host), RemoveEntry(local.entry.value.host)]
        + (if local.running then [SetStop, JoinThread] else [])
  {
    CleanupPlan(Some(job), true, Some(tunnelEntry), Some(local), true)
  }

  // ---------------------------------------------------------------------
  // Values derived in `run_tunnel`

  /** The index of the last `c` in `s`, or -1. */
  function LastIndexOf(s: String, c: char): (i: int)
    ensures -1 <= i < |s|
    ensures i >= 0 ==> s[i] == c
    ensures forall j :: i < j < |s| ==> s[j] != c
    decreases |s|
  {
    if s == [] then -1
    else if s[|s| - 1] == c then |s| - 1
    else LastIndexOf(s[..|s| - 1], c)
  }

  /** `os.path.splitext(path)[1]` on POSIX: from the last `.` after the
      last `/`, unless only dots precede it in the final component. */
  function Extension(path: String): (ext: String)
    ensures ext == [] || (ext[0] == '.' && |ext| <= |path| && path[|path| - |ext|..] == ext)
    ensures '/' !in ext && (ext == [] || '.' !in ext[1..])
  {
    var slash := LastIndexOf(path, '/');
    var dot := LastIndexOf(path, '.');
    if dot > slash && exists j :: slash < j < dot && path[j] != '.' then path[dot..] else []
  }

  /** The job's output path: the script path with every occurrence of its
      extension replaced by `.out`. */
  function OutputPath(scriptPath: String): String {
    Replace(scriptPath, Extension(scriptPath), ".out")
  }

  /** The extension of `<stem>.<name>`, for a stem that does not end the
      directory part or consist of dots, is `.<name>`. */
  lemma {:induction false} ExtensionOfScript(stem: String, name: String)
    requires name != [] && '.' !in name && '/' !in name
    requires stem != [] && stem[|stem| - 1] != '/' && stem[|stem| - 1] != '.'
    ensures Extension(stem + "." + name) == "." + name
  {
    var ext := "." + name;
    var path := stem + ext;
    assert path == stem + "." + name;
    forall j | |stem| < j < |path|
      ensures path[j] != '.' && path[j] != '/'
    {
      assert path[j] == name[j - |stem| - 1] && name[j - |stem| - 1] in name;
    }
    var slash := LastIndexOf(path, '/');
    var dot := LastIndexOf(path, '.');
    assert path[|stem|] == '.' && path[|stem| - 1] != '/';
    assert dot == |stem|;
    assert slash < |stem| - 1;
    assert path[|stem| - 1] != '.';
    assert path[dot..] == ext;
  }

  /** For a script named `<stem>.<name>` whose stem does not contain the
      extension, the output path is `<stem>.out`. */
  lemma {:induction false} OutputPathOfScript(stem: String, name: String)
    requires name != [] && '.' !in name && '/' !in name
    requires stem != [] && stem[|stem| - 1] != '/' && stem[|stem| - 1] != '.'
    requires !Contains(stem, "." + name)
    ensures OutputPath(stem + "." + name) == stem + ".out"
  {
    ExtensionOfScript(stem, name);
    ReplaceDottedSuffix(stem, name, ".out");
  }

  /** A script path without an extension: `replace("", ".out")` puts
      `.out` before every character and at the end. */
  lemma {:induction false} OutputPathWithoutExtension(scriptPath: String)
    requires Extension(scriptPath) == []
    ensures OutputPath(scriptPath) == Interleave(scriptPath, ".out")
    ensures |OutputPath(scriptPath)| == 5 * |scriptPath| + 4
  {
    InterleaveLength(scriptPath, ".out");
  }

  /** The `export` list of the submission: the bind path, or an empty
      entry when none is configured (`None` or empty), then the image. */
  function ExportList(bindPath: Option<String>, sifPath: String): (r: seq<String>)
    ensures |r| == 2 && r[1] == "SIF_IMAGE=" + sifPath
    ensures r[0] == [] <==> bindPath.None? || bindPath.value == []
    ensures r[0] != [] ==> r[0] == "SIF_BIND_PATH=" + bindPath.value
  {
    [if bindPath.Some? && bindPath.value != [] then "SIF_BIND_PATH=" + bindPath.value else "",
     "SIF_IMAGE=" + sifPath]
  }
}
