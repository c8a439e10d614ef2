/** The interactive session of the file-transfer client: the state it keeps
    between commands (`psionDir`, `localDir`, `prompt`, `hash` with the
    progress callback `cab`, and `continueRunning`) and the handlers that
    change it. Every call into the device link (`dircount`, `dir`,
    `copyFromPsion`, `copyToPsion`, `devlist`, `devinfo`) is a parameter:
    a function from the request to the result code the link reports. */
module Session {
  import opened Common
  import Glob
  import Paths
  import Sattr
  import Processes
  import Tokenizer

  /** The progress callback handed to the copy calls. */
  datatype Callback = CheckAbortNoHash | CheckAbortHash

  function CallbackFor(hash: bool): Callback {
    if hash then CheckAbortHash else CheckAbortNoHash
  }

  /** What one call of a progress callback does: whether the copy goes on,
      and whether a `#` is printed. */
  function CheckAbort(cab: Callback, continueRunning: bool): (r: (bool, bool))
    ensures r.0 == continueRunning
    ensures r.1 <==> cab == CheckAbortHash && continueRunning
  {
    match cab
    case CheckAbortNoHash => (continueRunning, false)
    case CheckAbortHash => (continueRunning, continueRunning)
  }

  /** Command words as the tokenizer delivers them: never empty, never
      holding the terminator. */
  predicate WordsOk(args: seq<seq<char>>) {
    forall i :: 0 <= i < |args| ==> args[i] != [] && '\0' !in args[i]
  }

  // ---------------------------------------------------------------------------
  // `cd`

  /** The directory `cd <arg>` asks the device about: for `..` the parent
      of `dir`, otherwise the argument taken relative to `dir` unless it is
      absolute; in both cases with a trailing separator. */
  function CdCandidate(dir: seq<char>, arg: seq<char>): seq<char>
    requires dir != [] && arg != []
  {
    if StrEq(arg, "..") then Paths.WithTrailing(Paths.Parent(dir), '\\') else Paths.CdTarget(dir, arg)
  }

  lemma CdCandidateShape(dir: seq<char>, arg: seq<char>)
    requires dir != [] && arg != [] && '\0' !in dir && '\0' !in arg
    ensures CdCandidate(dir, arg) != [] && '\0' !in CdCandidate(dir, arg)
    ensures EndsWithSep(CdCandidate(dir, arg))
    ensures '\0' !in Paths.BackslashedAll(CdCandidate(dir, arg))
    ensures Paths.BackslashedAll(CdCandidate(dir, arg)) != []
    ensures Paths.BackslashedAll(CdCandidate(dir, arg))[|CdCandidate(dir, arg)| - 1] == '\\'
  {
    var c := CdCandidate(dir, arg);
    if StrEq(arg, "..") {
      Paths.ParentShape(dir);
      Paths.WithTrailingMeaning(Paths.Parent(dir), '\\');
      assert forall k :: 0 <= k < |c| ==> c[k] in dir || c[k] == '\\';
    } else {
      Paths.CdTargetMeaning(dir, arg);
      assert forall k :: 0 <= k < |c| ==> c[k] in dir || c[k] in arg || c[k] == '\\';
    }
    Paths.BackslashedMeaning(c);
    assert forall k :: 0 <= k < |c| ==> Paths.BackslashedAll(c)[k] == c[k] || Paths.BackslashedAll(c)[k] == '\\';
  }

  /** `cd ..` below a drive root `X:\` stays on the drive: the candidate is
      a prefix of the directory of at least three characters ending with a
      separator, and at the root itself it is the root again. */
  lemma CdUpStaysOnDrive(dir: seq<char>)
    requires |dir| >= 3 && IsSep(dir[2])
    ensures var c := CdCandidate(dir, "..");
      c == Paths.Parent(dir) && 3 <= |c| && c == dir[..|c|] && EndsWithSep(c)
    ensures |dir| == 3 ==> CdCandidate(dir, "..") == dir
  {
    Paths.ParentShape(dir);
    var r := Paths.Parent(dir);
    if |r| == 3 {
      assert r[2] == dir[2];
    }
    if |dir| == 3 {
      Paths.ParentAtRoot(dir);
    }
  }

  /** Repeating `cd ..` at a root `X:\` that is already in the committed form
      changes nothing. */
  lemma CdUpAtRootIdempotent(dir: seq<char>)
    requires |dir| == 3 && dir[2] == '\\' && '/' !in dir
    ensures Paths.BackslashedAll(CdCandidate(dir, "..")) == dir
  {
    CdUpStaysOnDrive(dir);
    assert forall k :: 0 <= k < 3 ==> Paths.BackslashedAll(dir)[k] == dir[k];
  }

  // ---------------------------------------------------------------------------
  // Transfer timing

  /** A `struct timeval`: seconds and microseconds. */
  datatype TimeVal = TimeVal(sec: int, usec: int)

  predicate Normal(t: TimeVal) {
    0 <= t.usec < 1000000
  }

  /** A time in whole hundredths of a second, the microseconds truncated. */
  function Centis(t: TimeVal): int {
    100 * t.sec + t.usec / 10000
  }

  /** The seconds and hundredths the transfer message shows: the hundredths
      are subtracted and a negative result borrows a second. */
  function Elapsed(start: TimeVal, end: TimeVal): (r: (int, int))
    requires Normal(start) && Normal(end)
    ensures 0 <= r.1 <= 99
    ensures 100 * r.0 + r.1 == Centis(end) - Centis(start)
    ensures r.0 == (Centis(end) - Centis(start)) / 100 && r.1 == (Centis(end) - Centis(start)) % 100
  {
    var dsec := end.sec - start.sec;
    var dhse := end.usec / 10000 - start.usec / 10000;
    if dhse < 0 then (dsec - 1, 100 + dhse) else (dsec, dhse)
  }

  /** From 10 s 900000 us to 11 s 200000 us is 0 s and 30 hundredths. */
  lemma ElapsedExample()
    ensures Elapsed(TimeVal(10, 900000), TimeVal(11, 200000)) == (0, 30)
  {
  }

  // ---------------------------------------------------------------------------
  // Batch transfers (`mget`, `mput`)

  /** A directory entry as `dir` lists it: the name and the attribute word. */
  datatype RemoteEntry = RemoteEntry(name: seq<char>, attr: nat)

  /** A local directory entry: its name, whether `stat` succeeded on it and
      whether it is a regular file. */
  datatype LocalEntry = LocalEntry(name: seq<char>, statOk: bool, regular: bool)

  /** `mget` offers entries that are not directories (attribute bit 0x10)
      and whose names the pattern matches. */
  predicate MgetEligible(e: RemoteEntry, pattern: seq<char>) {
    (e.attr / 0x10) % 2 == 0 && Glob.Matches(e.name, pattern)
  }

  /** `mput` offers names the pattern matches that `stat` shows to be
      regular files. */
  predicate MputEligible(e: LocalEntry, pattern: seq<char>) {
    Glob.Matches(e.name, pattern) && e.statOk && e.regular
  }

  /** An entry as the batch sees it: its name, whether it is offered, and
      whether its copy would succeed. */
  datatype Item = Item(name: seq<char>, eligible: bool, ok: bool)

  function MgetItems(entries: seq<RemoteEntry>, pattern: seq<char>, psionDir: seq<char>, localDir: seq<char>,
                     copyFromPsion: (seq<char>, seq<char>) -> int): (r: seq<Item>)
    ensures |r| == |entries|
  {
    seq(|entries|, i requires 0 <= i < |entries| =>
      Item(entries[i].name, MgetEligible(entries[i], pattern),
           copyFromPsion(psionDir + entries[i].name, localDir + entries[i].name) == 0))
  }

  function MputItems(entries: seq<LocalEntry>, pattern: seq<char>, psionDir: seq<char>, localDir: seq<char>,
                     copyToPsion: (seq<char>, seq<char>) -> int): (r: seq<Item>)
    ensures |r| == |entries|
  {
    seq(|entries|, i requires 0 <= i < |entries| =>
      Item(entries[i].name, MputEligible(entries[i], pattern),
           copyToPsion(localDir + entries[i].name, psionDir + entries[i].name) == 0))
  }

  /** The only answers the y/n question accepts. */
  predicate Accepted(a: seq<char>) {
    a == "y" || a == "n"
  }

  /** The line that ends the y/n question when the lines from `pos` on are
      read one by one; None when the input runs out first. */
  function Ask(answers: seq<seq<char>>, pos: nat): (r: Option<nat>)
    ensures r.Some? ==> pos <= r.value < |answers| && Accepted(answers[r.value])
    decreases |answers| - pos
  {
    if pos >= |answers| then None
    else if Accepted(answers[pos]) then Some(pos)
    else Ask(answers, pos + 1)
  }

  lemma {:induction false} AskMeaning(answers: seq<seq<char>>, pos: nat)
    ensures Ask(answers, pos).Some? ==> forall k :: pos <= k < Ask(answers, pos).value ==> !Accepted(answers[k])
    ensures Ask(answers, pos).None? ==> forall k :: pos <= k < |answers| ==> !Accepted(answers[k])
    decreases |answers| - pos
  {
    if pos < |answers| && !Accepted(answers[pos]) {
      AskMeaning(answers, pos + 1);
    }
  }

  /** The batch's progress: how many answer lines were read, the names whose
      copy was attempted (`copied`; when `failed` holds, its last name is the
      copy that failed), whether a copy failed, and whether the input ran out
      in the middle of a question (the source then asks forever). */
  datatype BatchState = BatchState(used: nat, copied: seq<seq<char>>, failed: bool, stuck: bool)

  predicate Stopped(st: BatchState) {
    st.failed || st.stuck
  }

  /** A copy is started: the name is listed whether or not it succeeds. */
  function Attempt(st: BatchState, it: Item): BatchState {
    st.(copied := st.copied + [it.name], failed := !it.ok)
  }

  /** One entry: nothing after a stop or for an entry not offered; otherwise
      the answer (an automatic `y` when prompting is off) and, unless it is
      `n`, the copy. */
  function BatchStep(st: BatchState, it: Item, prompt: bool, answers: seq<seq<char>>): BatchState {
    if Stopped(st) || !it.eligible then st
    else if !prompt then Attempt(st, it)
    else match Ask(answers, st.used)
      case None => st.(used := |answers|, stuck := true)
      case Some(j) => if answers[j] == "n" then st.(used := j + 1) else Attempt(st.(used := j + 1), it)
  }

  function BatchRun(items: seq<Item>, prompt: bool, answers: seq<seq<char>>): BatchState
    decreases |items|
  {
    if items == [] then BatchState(0, [], false, false)
    else BatchStep(BatchRun(items[..|items| - 1], prompt, answers), items[|items| - 1], prompt, answers)
  }

  /** One more entry is one more step. */
  lemma BatchRunSnoc(items: seq<Item>, i: nat, prompt: bool, answers: seq<seq<char>>)
    requires i < |items|
    ensures BatchRun(items[..i + 1], prompt, answers) == BatchStep(BatchRun(items[..i], prompt, answers), items[i], prompt, answers)
  {
    assert items[..i + 1][..i] == items[..i];
  }

  /** A step over an offered entry, told by the outcome of the question. */
  lemma StepByAnswer(st: BatchState, it: Item, prompt: bool, answers: seq<seq<char>>,
                     used: nat, go: bool, stuck: bool)
    requires !Stopped(st) && it.eligible
    requires !prompt ==> used == st.used && go && !stuck
    requires prompt && Ask(answers, st.used).None? ==> used == |answers| && !go && stuck
    requires prompt && Ask(answers, st.used).Some? ==>
      used == Ask(answers, st.used).value + 1 && !stuck && (go <==> answers[used - 1] != "n")
    ensures BatchStep(st, it, prompt, answers) ==
      if stuck then st.(used := used, stuck := true)
      else if go then Attempt(st.(used := used), it)
      else st.(used := used)
  {
  }

  /** Once a copy has failed (or the input has run out) no later entry is
      looked at. */
  lemma {:induction false} BatchStopsForGood(xs: seq<Item>, ys: seq<Item>, prompt: bool, answers: seq<seq<char>>)
    requires Stopped(BatchRun(xs, prompt, answers))
    ensures BatchRun(xs + ys, prompt, answers) == BatchRun(xs, prompt, answers)
    decreases |ys|
  {
    if ys == [] {
      assert xs + ys == xs;
    } else {
      var ys' := ys[..|ys| - 1];
      BatchStopsForGood(xs, ys', prompt, answers);
      assert (xs + ys)[..|xs + ys| - 1] == xs + ys';
      assert BatchRun(xs + ys, prompt, answers)
        == BatchStep(BatchRun(xs + ys', prompt, answers), (xs + ys)[|xs + ys| - 1], prompt, answers);
    }
  }

  /** A batch never reads more answer lines than there are. */
  lemma {:induction false} BatchUsedBound(items: seq<Item>, prompt: bool, answers: seq<seq<char>>)
    ensures BatchRun(items, prompt, answers).used <= |answers|
    decreases |items|
  {
    if items != [] {
      BatchUsedBound(items[..|items| - 1], prompt, answers);
    }
  }

  function Last<T>(xs: seq<T>): T
    requires xs != []
  {
    xs[|xs| - 1]
  }

  /** The names of the offered entries, in order. */
  function EligibleNames(items: seq<Item>): seq<seq<char>>
    decreases |items|
  {
    if items == [] then []
    else
      var last := items[|items| - 1];
      EligibleNames(items[..|items| - 1]) + (if last.eligible then [last.name] else [])
  }

  /** Every name whose copy was attempted is the name of an offered entry,
      and a failure is the last copy attempted. */
  lemma {:induction false} BatchCopiesOffered(items: seq<Item>, prompt: bool, answers: seq<seq<char>>)
    ensures forall n :: n in BatchRun(items, prompt, answers).copied ==>
      exists i :: 0 <= i < |items| && items[i].eligible && items[i].name == n
    ensures BatchRun(items, prompt, answers).failed ==>
      (BatchRun(items, prompt, answers).copied != []
      && exists i :: 0 <= i < |items| && items[i].eligible && !items[i].ok
           && items[i].name == Last(BatchRun(items, prompt, answers).copied))
    decreases |items|
  {
    if items != [] {
      var front := items[..|items| - 1];
      var last := |items| - 1;
      BatchCopiesOffered(front, prompt, answers);
      var pre := BatchRun(front, prompt, answers);
      var st := BatchRun(items, prompt, answers);
      assert forall i :: 0 <= i < |front| ==> items[i] == front[i];
      if st != pre {
        assert st.copied == pre.copied || st.copied == pre.copied + [items[last].name];
        forall n | n in st.copied
          ensures exists i :: 0 <= i < |items| && items[i].eligible && items[i].name == n
        {
          if n in pre.copied {
            var i :| 0 <= i < |front| && front[i].eligible && front[i].name == n;
            assert items[i] == front[i];
          } else {
            assert items[last].eligible && items[last].name == n;
          }
        }
        if st.failed {
          assert !pre.failed && st.copied == pre.copied + [items[last].name];
          assert items[last].eligible && !items[last].ok;
        }
      } else if st.failed {
        var i :| 0 <= i < |front| && front[i].eligible && !front[i].ok && front[i].name == Last(pre.copied);
        assert items[i] == front[i];
      }
    }
  }

  /** With prompting off no answer is read, and when every copy succeeds
      every offered entry is copied, in order. */
  lemma {:induction false} BatchWithoutPrompt(items: seq<Item>, answers: seq<seq<char>>)
    requires forall i :: 0 <= i < |items| && items[i].eligible ==> items[i].ok
    ensures BatchRun(items, false, answers) == BatchState(0, EligibleNames(items), false, false)
    decreases |items|
  {
    if items != [] {
      BatchWithoutPrompt(items[..|items| - 1], answers);
    }
  }

  /** With prompting on, a copy is started exactly for the entries answered
      `y`; an `n` only uses up the answer, and the end of input stalls the
      batch. The question ends only on a line that is exactly `y` or `n`, so
      no other answer (a `l`, say) ever reaches the copy. */
  lemma BatchAnswer(st: BatchState, it: Item, answers: seq<seq<char>>)
    requires !Stopped(st) && it.eligible
    ensures var j := Ask(answers, st.used);
      j.Some? ==> (answers[j.value] == "y" <==> BatchStep(st, it, true, answers).copied == st.copied + [it.name])
    ensures var j := Ask(answers, st.used);
      j.Some? && answers[j.value] == "n" ==> BatchStep(st, it, true, answers) == st.(used := j.value + 1)
    ensures Ask(answers, st.used).None? ==> BatchStep(st, it, true, answers) == st.(used := |answers|, stuck := true)
    ensures var j := Ask(answers, st.used);
      j.Some? ==> answers[j.value] != [] && answers[j.value][0] != 'l'
  {
    var j := Ask(answers, st.used);
    if j.Some? && answers[j.value] != "y" {
      assert answers[j.value] == "n";
      assert |BatchStep(st, it, true, answers).copied| == |st.copied|;
    }
  }

  /** The entries `mget` offers are exactly the non-directories whose names
      the pattern's glob meaning accepts. */
  lemma MgetOffers(entries: seq<RemoteEntry>, pattern: seq<char>, psionDir: seq<char>, localDir: seq<char>,
                   copyFromPsion: (seq<char>, seq<char>) -> int)
    ensures forall i :: 0 <= i < |entries| ==>
      (MgetItems(entries, pattern, psionDir, localDir, copyFromPsion)[i].eligible <==>
        (entries[i].attr / 0x10) % 2 == 0 && Glob.Glob(entries[i].name, pattern))
  {
    var items := MgetItems(entries, pattern, psionDir, localDir, copyFromPsion);
    forall i | 0 <= i < |entries|
      ensures items[i].eligible <==> (entries[i].attr / 0x10) % 2 == 0 && Glob.Glob(entries[i].name, pattern)
    {
      Glob.MatchesIsGlob(entries[i].name, pattern);
      assert items[i].eligible == MgetEligible(entries[i], pattern);
    }
  }

  /** The entries `mput` offers are exactly the regular files whose names
      the pattern's glob meaning accepts. */
  lemma MputOffers(entries: seq<LocalEntry>, pattern: seq<char>, psionDir: seq<char>, localDir: seq<char>,
                   copyToPsion: (seq<char>, seq<char>) -> int)
    ensures forall i :: 0 <= i < |entries| ==>
      (MputItems(entries, pattern, psionDir, localDir, copyToPsion)[i].eligible <==>
        entries[i].statOk && entries[i].regular && Glob.Glob(entries[i].name, pattern))
  {
    var items := MputItems(entries, pattern, psionDir, localDir, copyToPsion);
    forall i | 0 <= i < |entries|
      ensures items[i].eligible <==> entries[i].statOk && entries[i].regular && Glob.Glob(entries[i].name, pattern)
    {
      Glob.MatchesIsGlob(entries[i].name, pattern);
      assert items[i].eligible == MputEligible(entries[i], pattern);
    }
  }

  /** The y/n question: lines are read until one is exactly `y` or `n`;
      -1 when the input runs out. */
  method AskLoop(answers: seq<seq<char>>, pos: nat) returns (j: int)
    ensures j >= -1
    ensures j == -1 <==> Ask(answers, pos).None?
    ensures j >= 0 ==> Ask(answers, pos) == Some(j)
  {
    var k := pos;
    while k < |answers| && !(answers[k] == "y" || answers[k] == "n")
      invariant pos <= k
      invariant Ask(answers, k) == Ask(answers, pos)
      decreases |answers| - k
    {
      k := k + 1;
    }
    j := if k < |answers| then k else -1;
  }

  /** The question for one offered entry: with prompting off the answer is
      `y` without reading; otherwise lines are read until a `y` or `n`.
      `go` says whether the copy is started. */
  method Answer(prompt: bool, answers: seq<seq<char>>, used0: nat) returns (used: nat, go: bool, stuck: bool)
    ensures !prompt ==> used == used0 && go && !stuck
    ensures prompt && Ask(answers, used0).None? ==> used == |answers| && !go && stuck
    ensures prompt && Ask(answers, used0).Some? ==>
      used == Ask(answers, used0).value + 1 && !stuck && (go <==> answers[used - 1] != "n")
  {
    used, go, stuck := used0, true, false;
    if prompt {
      var j := AskLoop(answers, used0);
      if j == -1 {
        used, go, stuck := |answers|, false, true;
      } else {
        used, go := j + 1, answers[j] != "n";
      }
    }
  }

  // ---------------------------------------------------------------------------
  // The AUTO default drive

  /** `bits` shifted right `i` times. */
  function Shifted(bits: nat, i: nat): nat {
    if i == 0 then bits else Shifted(bits, i - 1) / 2
  }

  predicate BitSet(bits: nat, i: nat) {
    Shifted(bits, i) % 2 == 1
  }

  /** The first drive number from `i` on below 26 whose bit is set and for
      which `devinfo` answers; -1 when there is none. */
  function LowestDrive(bits: nat, devinfo: nat -> bool, i: nat): (r: int)
    ensures r == -1 || i <= r < 26
    decreases 26 - i
  {
    if i >= 26 then -1
    else if BitSet(bits, i) && devinfo(i) then i
    else LowestDrive(bits, devinfo, i + 1)
  }

  lemma {:induction false} LowestDriveMeaning(bits: nat, devinfo: nat -> bool, i: nat)
    ensures var r := LowestDrive(bits, devinfo, i);
      (r >= 0 ==> BitSet(bits, r) && devinfo(r))
      && (forall k :: i <= k < 26 && (r == -1 || k < r) ==> !(BitSet(bits, k) && devinfo(k)))
    decreases 26 - i
  {
    if i < 26 && !(BitSet(bits, i) && devinfo(i)) {
      LowestDriveMeaning(bits, devinfo, i + 1);
    }
  }

  /** The source's scan: test the low bit, ask `devinfo`, shift. */
  method ScanDrives(devbits: nat, devinfo: nat -> bool) returns (drive: int)
    ensures drive == LowestDrive(devbits, devinfo, 0)
  {
    var bits := devbits;
    var i := 0;
    while i < 26
      invariant 0 <= i <= 26
      invariant bits == Shifted(devbits, i)
      invariant LowestDrive(devbits, devinfo, i) == LowestDrive(devbits, devinfo, 0)
    {
      if bits % 2 == 1 && devinfo(i) {
        return i;
      }
      bits := bits / 2;
      i := i + 1;
    }
    return -1;
  }

  /** The default drive at start-up: the configured name, or under `AUTO`
      the letter of the lowest drive that is present and answers, followed
      by a colon. None is the fatal "no default drive" exit; `devlist` is
      None when that call failed. */
  method DefaultDrive(configured: seq<char>, devlist: Option<nat>, devinfo: nat -> bool)
    returns (defDrive: Option<seq<char>>)
    ensures !StrEq(configured, "AUTO") ==> defDrive == Some(configured)
    ensures StrEq(configured, "AUTO") && devlist.None? ==> defDrive == None
    ensures StrEq(configured, "AUTO") && devlist.Some? ==>
      (var d := LowestDrive(devlist.value, devinfo, 0);
       defDrive == (if d == -1 then None else Some([('A' as int + d) as char, ':'])))
  {
    if !StrEq(configured, "AUTO") {
      return Some(configured);
    }
    if devlist.None? {
      return None;
    }
    var d := ScanDrives(devlist.value, devinfo);
    if d == -1 {
      return None;
    }
    return Some([('A' as int + d) as char, ':']);
  }

  // ---------------------------------------------------------------------------
  // The session's state

  class Session {
    var psionDir: seq<char>
    var localDir: seq<char>
    var prompt: bool
    var hash: bool
    var cab: Callback
    var continueRunning: bool
    const defDrive: seq<char>
    const baseDir: seq<char>

    /** The directory a bare `cd` returns to. */
    function Home(): seq<char>
      reads this
    {
      defDrive + baseDir
    }

    ghost predicate Valid()
      reads this
    {
      Home() != [] && '\0' !in Home()
      && psionDir != [] && '\0' !in psionDir
      && cab == CallbackFor(hash)
    }

    /** Start-up: the device directory is the default drive followed by the
        base directory, prompting is on, hash marks are off and the session
        runs. */
    constructor(defDrive: seq<char>, baseDir: seq<char>, localDir: seq<char>)
      requires defDrive + baseDir != [] && '\0' !in defDrive + baseDir
      ensures Valid()
      ensures this.defDrive == defDrive && this.baseDir == baseDir && this.localDir == localDir
      ensures psionDir == defDrive + baseDir
      ensures prompt && !hash && continueRunning
    {
      this.defDrive := defDrive;
      this.baseDir := baseDir;
      this.localDir := localDir;
      psionDir := defDrive + baseDir;
      prompt := true;
      hash := false;
      cab := CheckAbortNoHash;
      continueRunning := true;
    }

    /** `prompt`: flips prompting and nothing else. */
    method TogglePrompt()
      requires Valid()
      modifies this
      ensures Valid()
      ensures prompt == !old(prompt)
      ensures hash == old(hash) && cab == old(cab) && psionDir == old(psionDir)
      ensures localDir == old(localDir) && continueRunning == old(continueRunning)
    {
      prompt := !prompt;
    }

    /** `hash`: flips hash marks, and the callback follows. */
    method ToggleHash()
      requires Valid()
      modifies this
      ensures Valid()
      ensures hash == !old(hash) && cab == CallbackFor(hash)
      ensures prompt == old(prompt) && psionDir == old(psionDir)
      ensures localDir == old(localDir) && continueRunning == old(continueRunning)
    {
      hash := !hash;
      cab := if hash then CheckAbortHash else CheckAbortNoHash;
    }

    /** The interrupt handler: the running operation is to stop. */
    method Interrupt()
      modifies this
      ensures !continueRunning
      ensures psionDir == old(psionDir) && localDir == old(localDir)
      ensures prompt == old(prompt) && hash == old(hash) && cab == old(cab)
    {
      continueRunning := false;
    }

    /** `lcd` with `args` the words after the command: none makes the local
        directory the process's working directory `cwd`; otherwise `chdir`
        answers the new working directory, or None when the change fails and
        the local directory is kept. A `/` follows the new directory. */
    method Lcd(args: seq<seq<char>>, cwd: seq<char>, chdir: seq<char> -> Option<seq<char>>)
      requires Valid()
      modifies this
      ensures Valid()
      ensures args == [] ==> localDir == cwd + ['/']
      ensures args != [] && chdir(args[0]).Some? ==> localDir == chdir(args[0]).value + ['/']
      ensures args != [] && chdir(args[0]).None? ==> localDir == old(localDir)
      ensures psionDir == old(psionDir) && prompt == old(prompt) && hash == old(hash)
      ensures cab == old(cab) && continueRunning == old(continueRunning)
    {
      if |args| == 0 {
        localDir := cwd + ['/'];
      } else {
        var r := chdir(args[0]);
        if r.Some? {
          localDir := r.value + ['/'];
        }
      }
    }

    /** `cd` with `args` the words after the command: none resets to the
        base directory; otherwise the candidate directory is committed,
        with every `/` turned into `\`, exactly when `dircount` on it
        reports 0, and the directory is kept on any other result. */
    method Cd(args: seq<seq<char>>, dircount: seq<char> -> int) returns (tried: Option<seq<char>>)
      requires Valid() && WordsOk(args)
      modifies this
      ensures Valid()
      ensures args == [] ==> tried == None && psionDir == Home()
      ensures args != [] ==> tried == Some(CdCandidate(old(psionDir), args[0]))
      ensures args != [] ==>
        psionDir == (if dircount(tried.value) == 0 then Paths.BackslashedAll(tried.value) else old(psionDir))
      ensures localDir == old(localDir) && prompt == old(prompt) && hash == old(hash)
      ensures cab == old(cab) && continueRunning == old(continueRunning)
    {
      if |args| == 0 {
        psionDir := defDrive + baseDir;
        return None;
      }
      var f1;
      if StrEq(args[0], "..") {
        f1 := Paths.CdUp(psionDir);
        f1 := Paths.WithTrailing(f1, '\\');
      } else {
        f1 := Paths.CdTarget(psionDir, args[0]);
      }
      tried := Some(f1);
      CdCandidateShape(psionDir, args[0]);
      if dircount(f1) == 0 {
        var buf := new char[|f1|](k requires 0 <= k < |f1| => f1[k]);
        Paths.MapSlashes(buf);
        assert buf[..] == Paths.BackslashedAll(f1);
        psionDir := buf[..];
      }
    }

    /** `get` (`args` the words after the command, at least one): copies the
        device file named by the first word into the local directory under
        the second word, or the first when there is no second. A failed copy
        sets `continueRunning` again; a finished one reports the elapsed
        time measured between `stime` and `etime`. */
    method Get(args: seq<seq<char>>, copyFromPsion: (seq<char>, seq<char>) -> int, stime: TimeVal, etime: TimeVal)
      returns (f1: seq<char>, f2: seq<char>, elapsed: Option<(int, int)>)
      requires |args| >= 1 && Normal(stime) && Normal(etime)
      modifies this
      ensures f1 == psionDir + args[0]
      ensures f2 == localDir + (if |args| == 1 then args[0] else args[1])
      ensures copyFromPsion(f1, f2) != 0 ==> continueRunning && elapsed == None
      ensures copyFromPsion(f1, f2) == 0 ==>
        continueRunning == old(continueRunning) && elapsed == Some(Elapsed(stime, etime))
      ensures psionDir == old(psionDir) && localDir == old(localDir)
      ensures prompt == old(prompt) && hash == old(hash) && cab == old(cab)
    {
      f1 := psionDir + args[0];
      f2 := localDir + (if |args| == 1 then args[0] else args[1]);
      var res := copyFromPsion(f1, f2);
      if res != 0 {
        continueRunning := true;
        elapsed := None;
      } else {
        elapsed := Some(Elapsed(stime, etime));
      }
    }

    /** `put`: the mirror image of `get`, from the local directory to the
        device directory. */
    method Put(args: seq<seq<char>>, copyToPsion: (seq<char>, seq<char>) -> int, stime: TimeVal, etime: TimeVal)
      returns (f1: seq<char>, f2: seq<char>, elapsed: Option<(int, int)>)
      requires |args| >= 1 && Normal(stime) && Normal(etime)
      modifies this
      ensures f1 == localDir + args[0]
      ensures f2 == psionDir + (if |args| == 1 then args[0] else args[1])
      ensures copyToPsion(f1, f2) != 0 ==> continueRunning && elapsed == None
      ensures copyToPsion(f1, f2) == 0 ==>
        continueRunning == old(continueRunning) && elapsed == Some(Elapsed(stime, etime))
      ensures psionDir == old(psionDir) && localDir == old(localDir)
      ensures prompt == old(prompt) && hash == old(hash) && cab == old(cab)
    {
      f1 := localDir + args[0];
      f2 := psionDir + (if |args| == 1 then args[0] else args[1]);
      var res := copyToPsion(f1, f2);
      if res != 0 {
        continueRunning := true;
        elapsed := None;
      } else {
        elapsed := Some(Elapsed(stime, etime));
      }
    }

    /** `mget <pattern>`: `listing` is what `dir` returned for the device
        directory (None when it failed), `answers` the lines typed at the
        questions. The batch follows `BatchRun`; a failed copy sets
        `continueRunning` again. */
    method Mget(pattern: seq<char>, listing: Option<seq<RemoteEntry>>, answers: seq<seq<char>>,
                copyFromPsion: (seq<char>, seq<char>) -> int)
      returns (copied: seq<seq<char>>, used: nat, stuck: bool)
      modifies this
      ensures listing.None? ==> copied == [] && used == 0 && !stuck && continueRunning == old(continueRunning)
      ensures listing.Some? ==>
        var st := BatchRun(MgetItems(listing.value, pattern, psionDir, localDir, copyFromPsion), prompt, answers);
        copied == st.copied && used == st.used && stuck == st.stuck
        && continueRunning == (st.failed || old(continueRunning))
      ensures psionDir == old(psionDir) && localDir == old(localDir)
      ensures prompt == old(prompt) && hash == old(hash) && cab == old(cab)
    {
      copied, used, stuck := [], 0, false;
      if listing.None? {
        return;
      }
      var entries := listing.value;
      ghost var items := MgetItems(entries, pattern, psionDir, localDir, copyFromPsion);
      var failed := false;
      var i := 0;
      while i < |entries| && !failed && !stuck
        invariant 0 <= i <= |entries|
        invariant BatchRun(items[..i], prompt, answers) == BatchState(used, copied, failed, stuck)
        invariant continueRunning == (failed || old(continueRunning))
        invariant psionDir == old(psionDir) && localDir == old(localDir)
        invariant prompt == old(prompt) && hash == old(hash) && cab == old(cab)
      {
        BatchRunSnoc(items, i, prompt, answers);
        var e := entries[i];
        var offered := false;
        if (e.attr / 0x10) % 2 == 0 {
          offered := Glob.Wildmat(e.name, 0, pattern, 0);
        }
        assert items[i] == Item(e.name, offered, copyFromPsion(psionDir + e.name, localDir + e.name) == 0);
        if offered {
          var go;
          used, go, stuck := Answer(prompt, answers, used);
          StepByAnswer(BatchRun(items[..i], prompt, answers), items[i], prompt, answers, used, go, stuck);
          if go {
            copied := copied + [e.name];
            var res := copyFromPsion(psionDir + e.name, localDir + e.name);
            if res != 0 {
              continueRunning := true;
              failed := true;
            }
          }
        }
        i := i + 1;
      }
      if i < |entries| {
        BatchStopsForGood(items[..i], items[i..], prompt, answers);
        assert items[..i] + items[i..] == items;
      } else {
        assert items[..i] == items;
      }
    }

    /** `mput <pattern>`: `listing` is the local directory as `readdir` and
        `stat` see it (None when it cannot be opened). */
    method Mput(pattern: seq<char>, listing: Option<seq<LocalEntry>>, answers: seq<seq<char>>,
                copyToPsion: (seq<char>, seq<char>) -> int)
      returns (copied: seq<seq<char>>, used: nat, stuck: bool)
      modifies this
      ensures listing.None? ==> copied == [] && used == 0 && !stuck && continueRunning == old(continueRunning)
      ensures listing.Some? ==>
        var st := BatchRun(MputItems(listing.value, pattern, psionDir, localDir, copyToPsion), prompt, answers);
        copied == st.copied && used == st.used && stuck == st.stuck
        && continueRunning == (st.failed || old(continueRunning))
      ensures psionDir == old(psionDir) && localDir == old(localDir)
      ensures prompt == old(prompt) && hash == old(hash) && cab == old(cab)
    {
      copied, used, stuck := [], 0, false;
      if listing.None? {
        return;
      }
      var entries := listing.value;
      ghost var items := MputItems(entries, pattern, psionDir, localDir, copyToPsion);
      var failed := false;
      var i := 0;
      while i < |entries| && !failed && !stuck
        invariant 0 <= i <= |entries|
        invariant BatchRun(items[..i], prompt, answers) == BatchState(used, copied, failed, stuck)
        invariant continueRunning == (failed || old(continueRunning))
        invariant psionDir == old(psionDir) && localDir == old(localDir)
        invariant prompt == old(prompt) && hash == old(hash) && cab == old(cab)
      {
        BatchRunSnoc(items, i, prompt, answers);
        var e := entries[i];
        var offered := Glob.Wildmat(e.name, 0, pattern, 0);
        assert items[i] == Item(e.name, offered && e.statOk && e.regular,
                                copyToPsion(localDir + e.name, psionDir + e.name) == 0);
        if offered && e.statOk && e.regular {
          var go;
          used, go, stuck := Answer(prompt, answers, used);
          StepByAnswer(BatchRun(items[..i], prompt, answers), items[i], prompt, answers, used, go, stuck);
          if go {
            copied := copied + [e.name];
            var res := copyToPsion(localDir + e.name, psionDir + e.name);
            if res != 0 {
              continueRunning := true;
              failed := true;
            }
          }
        }
        i := i + 1;
      }
      if i < |entries| {
        BatchStopsForGood(items[..i], items[i..], prompt, answers);
        assert items[..i] + items[i..] == items;
      } else {
        assert items[..i] == items;
      }
    }

    /** `run <program> <args...>`: the program path (relative to the device
        directory unless it names a drive) and the argument text. */
    method Run(args: seq<seq<char>>) returns (cmdbuf: seq<char>, argbuf: seq<char>)
      requires |args| >= 1 && args[0] != []
      ensures |args[0]| >= 2 && args[0][1] == ':' ==> cmdbuf == args[0]
      ensures !(|args[0]| >= 2 && args[0][1] == ':') ==> cmdbuf == psionDir + args[0]
      ensures argbuf == Tokenizer.JoinWords(args[1..])
    {
      argbuf := Processes.ArgBuf(args[1..]);
      cmdbuf := Processes.ProgramPath(psionDir, args[0]);
    }
  }

  // ---------------------------------------------------------------------------
  // Command words outside the interactive loop

  /** A slot of the ten-entry `argv` array: a word, or a null pointer. */
  type Slot = Option<seq<char>>

  /** One-shot mode as written: the argument count is the count of the
      program's own arguments including the program name, capped at ten, and
      slot `i` is `xargv[i + 1]`, which is the null pointer for `i + 1 ==
      |xargv|`. */
  function OnceArgsAsWritten(xargv: seq<seq<char>>): (r: (nat, seq<Slot>))
    requires |xargv| > 1
    ensures r.0 == Min(|xargv|, 10) && |r.1| == r.0
  {
    var argc := if |xargv| < 10 then |xargv| else 10;
    (argc, seq(argc, i requires 0 <= i < argc => if i + 1 < |xargv| then Some(xargv[i + 1]) else None))
  }

  /** With fewer than ten words, the last slot the handlers may use is the
      null pointer: `plpftp get a.txt` reaches `get` with `argc == 3`, which
      takes the local name from the null third slot. */
  lemma OnceArgsLastSlotIsNull(xargv: seq<seq<char>>)
    requires 1 < |xargv| <= 10
    ensures OnceArgsAsWritten(xargv).1[OnceArgsAsWritten(xargv).0 - 1] == None
    ensures OnceArgsAsWritten(["plpftp", "get", "a.txt"]) == (3, [Some("get"), Some("a.txt"), None])
  {
    var x: seq<seq<char>> := ["plpftp", "get", "a.txt"];
    var r := OnceArgsAsWritten(x);
    assert x[1] == "get" && x[2] == "a.txt";
    assert r.0 == 3 && |r.1| == 3;
    assert r.1[0] == Some("get") && r.1[1] == Some("a.txt") && r.1[2] == None;
    assert r.1 == [Some("get"), Some("a.txt"), None];
  }

  /** One-shot mode corrected: the words after the program name, at most
      ten, each in its slot. */
  method OnceArgs(xargv: seq<seq<char>>) returns (argc: nat, argv: seq<Slot>)
    requires |xargv| > 1
    ensures argc == Min(|xargv| - 1, 10) && |argv| == argc
    ensures forall i :: 0 <= i < argc ==> argv[i] == Some(xargv[i + 1])
  {
    argc := if |xargv| - 1 < 10 then |xargv| - 1 else 10;
    argv := [];
    var i := 0;
    while i < argc
      invariant 0 <= i <= argc
      invariant |argv| == i
      invariant forall k :: 0 <= k < i ==> argv[k] == Some(xargv[k + 1])
    {
      argv := argv + [Some(xargv[i + 1])];
      i := i + 1;
    }
  }

  /** The read loop as written: lines are read until one is not empty, and
      the end of input reads as `bye`. */
  function ReadAsWritten(lines: seq<seq<char>>): (r: seq<char>)
    ensures r != [] && (r == "bye" || r in lines)
    ensures (forall i :: 0 <= i < |lines| ==> lines[i] == []) ==> r == "bye"
    ensures forall k :: 0 <= k < |lines| && lines[k] != [] && (forall j :: 0 <= j < k ==> lines[j] == []) ==> r == lines[k]
    decreases |lines|
  {
    if lines == [] then "bye" else if lines[0] != [] then lines[0] else ReadAsWritten(lines[1..])
  }

  /** A line of blanks is taken, and it has no word, so the dispatcher's
      `argv[0]` is left over from the previous command. */
  lemma BlankLineReachesDispatch()
    ensures ReadAsWritten([" "]) == " " && |Tokenizer.Scan(ReadAsWritten([" "])).argv| == 0
  {
    Tokenizer.BlankLineHasNoWords();
  }

  /** The read loop corrected: lines without a word are skipped, so the
      command always has a first word. */
  method ReadCommand(lines: seq<seq<char>>) returns (line: seq<char>, used: nat)
    ensures used <= |lines|
    ensures |Tokenizer.Scan(line).argv| >= 1
    ensures used < |lines| ==> line == lines[used]
    ensures forall k :: 0 <= k < used ==> |Tokenizer.Scan(lines[k]).argv| == 0
    ensures used == |lines| ==> line == "bye"
  {
    used := 0;
    while used < |lines| && |Tokenizer.Scan(lines[used]).argv| == 0
      invariant used <= |lines|
      invariant forall k :: 0 <= k < used ==> |Tokenizer.Scan(lines[k]).argv| == 0
    {
      used := used + 1;
    }
    if used < |lines| {
      line := lines[used];
    } else {
      line := "bye";
      Tokenizer.NoWordsIffNoOrdinary(line);
      assert Tokenizer.Ordinary(line[0]);
    }
  }

  /** `sattr` as written: the guard asks for two words, the flag word is
      slot 1, and the file is taken from slot 2, which this command did
      not fill. Gives the file and the two masks, or None where the slot
      holds no text. */
  function SattrAsWritten(psionDir: seq<char>, argc: nat, argv: seq<Slot>)
    : (r: Option<(seq<char>, set<Sattr.Attr>, set<Sattr.Attr>)>)
    requires argc == 2 && |argv| == 10 && argv[0].Some? && argv[1].Some?
    ensures r.Some? <==> argv[argc].Some?
  {
    match argv[2]
    case None => None
    case Some(file) =>
      var fl := Sattr.FlagsOf(argv[1].value);
      Some((psionDir + file, fl.setMask, fl.clearMask))
  }

  /** The static line buffer after the next line is read into it and split:
      the split line, its terminating NUL, and past that whatever the buffer
      held before. */
  function Reread(before: seq<char>, split: seq<char>): (b: seq<char>)
    ensures |b| > |split| && b[..|split|] == split && b[|split|] == '\0'
    ensures |before| > |split| + 1 ==> |b| == |before| && b[|split| + 1..] == before[|split| + 1..]
  {
    split + ['\0'] + (if |before| > |split| + 1 then before[|split| + 1..] else [])
  }

  /** `sattr +r` names no file, yet passes the guard. Slot 2 still holds the
      offset of the third word of the last line that had one, and the file
      is the text at that offset in the reused line buffer. After
      `ren a.txt old.txt` (third word at 10) that text is still `old.txt`;
      after `ren a b` (third word at 6) the new line has overwritten it and
      it is `+r` itself. A slot holding no text gives no file. */
  lemma SattrReadsStaleSlot(psionDir: seq<char>)
    ensures var buf := Reread("ren\0a.txt\0old.txt\0", "sattr\0+r");
      Tokenizer.TokenAt(buf, 10) == "old.txt" &&
      SattrAsWritten(psionDir, 2, [Some("sattr"), Some("+r"), Some(Tokenizer.TokenAt(buf, 10)), None, None, None, None, None, None, None])
        == Some((psionDir + "old.txt", {Sattr.ReadOnly}, {}))
    ensures var buf := Reread("ren\0a\0b\0", "sattr\0+r");
      Tokenizer.TokenAt(buf, 6) == "+r" &&
      SattrAsWritten(psionDir, 2, [Some("sattr"), Some("+r"), Some(Tokenizer.TokenAt(buf, 6)), None, None, None, None, None, None, None])
        == Some((psionDir + "+r", {Sattr.ReadOnly}, {}))
    ensures var argv := [Some("sattr"), Some("+r"), None, None, None, None, None, None, None, None];
      SattrAsWritten(psionDir, 2, argv) == None
  {
    var w := "+r";
    assert w[..1] == "+" && w[..1][..0] == [];
    assert Sattr.FlagsOf(w) == Sattr.FlagState(false, {Sattr.ReadOnly}, {});
    StaleThirdWord();
    OverwrittenThirdWord();
  }

  /** Over `ren a.txt old.txt`, the old third word's offset still holds
      `old.txt` once `sattr +r` is read. */
  lemma StaleThirdWord()
    ensures Tokenizer.TokenAt(Reread("ren\0a.txt\0old.txt\0", "sattr\0+r"), 10) == "old.txt"
  {
    var buf := Reread("ren\0a.txt\0old.txt\0", "sattr\0+r");
    assert buf == "sattr\0+r\0\0" + ("old.txt" + ['\0'] + []);
    Tokenizer.TokenAtShift("sattr\0+r\0\0", "old.txt" + ['\0'] + [], 0);
    Tokenizer.TokenAtWhole("old.txt", []);
  }

  /** Over `ren a b`, the old third word's offset now holds `+r`. */
  lemma OverwrittenThirdWord()
    ensures Tokenizer.TokenAt(Reread("ren\0a\0b\0", "sattr\0+r"), 6) == "+r"
  {
    var buf := Reread("ren\0a\0b\0", "sattr\0+r");
    assert buf == "sattr\0" + ("+r" + ['\0'] + []);
    Tokenizer.TokenAtShift("sattr\0", "+r" + ['\0'] + [], 0);
    Tokenizer.TokenAtWhole("+r", []);
  }

  /** `sattr <flags> <file>` corrected: three words, the flag word parsed
      into disjoint masks and the file taken from the third word. */
  method SattrCommand(psionDir: seq<char>, args: seq<seq<char>>)
    returns (file: seq<char>, setMask: set<Sattr.Attr>, clearMask: set<Sattr.Attr>)
    requires |args| == 2
    ensures file == psionDir + args[1]
    ensures setMask == Sattr.FlagsOf(args[0]).setMask && clearMask == Sattr.FlagsOf(args[0]).clearMask
    ensures setMask !! clearMask
    ensures forall a :: Sattr.AttrMeaning(args[0], a)
  {
    file := psionDir + args[1];
    setMask, clearMask := Sattr.ParseFlags(args[0]);
    Sattr.FlagsMeaning(args[0]);
  }
}
