/** The command loop of `ftp::session`: a line is read and split into words,
    the first word and the word count choose a handler, the handler runs
    against the session state, and the loop goes on until `bye` or `quit`
    (the end of input reads as `bye`). */
module Dispatch {
  import opened Common
  import Tokenizer
  import Paths
  import Sattr
  import Processes
  import Session

  /** What the first word and the word count select; every handler has a
      case, even those the model does not follow further. */
  datatype Command =
    | Help | PromptToggle | HashToggle | Pwd
    | Rename(from: seq<char>, to: seq<char>)
    | Touch(name: seq<char>) | Test(name: seq<char>) | GetAttr(name: seq<char>) | GetTime(name: seq<char>)
    | SetAttr(flags: seq<char>, name: seq<char>)
    | DirCount | Devs | List
    | LocalCd(args: seq<seq<char>>) | RemoteCd(args: seq<seq<char>>)
    | Get(args: seq<seq<char>>) | Mget(pattern: seq<char>)
    | Put(args: seq<seq<char>>) | Mput(pattern: seq<char>)
    | Remove(name: seq<char>) | MakeDir(name: seq<char>) | RemoveDir(name: seq<char>)
    | Shell(cmd: seq<char>)
    | ConfigOpen | ConfigRead
    | Run(args: seq<seq<char>>) | MachInfo
    | RunRestore(file: seq<char>) | KillSave(file: seq<char>)
    | Kill(args: seq<seq<char>>) | Ps
    | Quit | SyntaxError

  /** The command names the dispatcher knows, and `!` for the host shell. */
  datatype Keyword =
    | KHelp | KPrompt | KHash | KPwd | KRen | KTouch | KTest | KGattr | KGtime | KSattr
    | KDircnt | KDevs | KLs | KLcd | KCd | KGet | KMget | KPut | KMput | KDel | KMkdir | KRmdir
    | KBang | KConfigOpen | KConfigRead | KRun | KMachinfo | KRunrestore | KKillsave | KKill | KPs
    | KBye | KOther

  /** The name a first word spells, looked up by its first character and
      then compared in full (the source compares the whole word against
      each name in turn; the names are pairwise distinct and none starts
      with `!`, so the grouping selects the same name). `ls` and `dir`,
      `del` and `rm`, `bye` and `quit` are synonyms. */
  function KeywordOf(w: seq<char>): (k: Keyword)
    ensures k == KBang <==> w != [] && w[0] == '!'
    ensures k == KBye <==> w == "bye" || w == "quit"
  {
    if w == [] then KOther
    else match w[0]
      case '!' => KBang
      case 'b' => if w == "bye" then KBye else KOther
      case 'c' => if w == "cd" then KCd else KOther
      case 'd' =>
        if w == "dircnt" then KDircnt else if w == "devs" then KDevs
        else if w == "dir" then KLs else if w == "del" then KDel else KOther
      case 'g' =>
        if w == "gattr" then KGattr else if w == "gtime" then KGtime
        else if w == "get" then KGet else KOther
      case 'h' => if w == "help" then KHelp else if w == "hash" then KHash else KOther
      case 'k' => if w == "killsave" then KKillsave else if w == "kill" then KKill else KOther
      case 'l' => if w == "ls" then KLs else if w == "lcd" then KLcd else KOther
      case 'm' =>
        if w == "mget" then KMget else if w == "mput" then KMput
        else if w == "mkdir" then KMkdir else if w == "machinfo" then KMachinfo else KOther
      case 'p' =>
        if w == "prompt" then KPrompt else if w == "pwd" then KPwd
        else if w == "put" then KPut else if w == "ps" then KPs else KOther
      case 'q' => if w == "quit" then KBye else KOther
      case 'r' =>
        if w == "ren" then KRen else if w == "rm" then KDel else if w == "rmdir" then KRmdir
        else if w == "run" then KRun else if w == "runrestore" then KRunrestore else KOther
      case 's' => if w == "sattr" then KSattr else KOther
      case 't' => if w == "touch" then KTouch else if w == "test" then KTest else KOther
      case 'x' => if w == "x" then KConfigOpen else KOther
      case 'y' => if w == "y" then KConfigRead else KOther
      case _ => KOther
  }

  /** The spellings of each name, as the dispatcher compares them word for
      word (`KBang` is told by its first character alone). */
  predicate Spells(k: Keyword, w: seq<char>) {
    match k
    case KHelp => w == "help"
    case KPrompt => w == "prompt"
    case KHash => w == "hash"
    case KPwd => w == "pwd"
    case KRen => w == "ren"
    case KTouch => w == "touch"
    case KTest => w == "test"
    case KGattr => w == "gattr"
    case KGtime => w == "gtime"
    case KSattr => w == "sattr"
    case KDircnt => w == "dircnt"
    case KDevs => w == "devs"
    case KLs => w == "ls" || w == "dir"
    case KLcd => w == "lcd"
    case KCd => w == "cd"
    case KGet => w == "get"
    case KMget => w == "mget"
    case KPut => w == "put"
    case KMput => w == "mput"
    case KDel => w == "del" || w == "rm"
    case KMkdir => w == "mkdir"
    case KRmdir => w == "rmdir"
    case KBang => false
    case KConfigOpen => w == "x"
    case KConfigRead => w == "y"
    case KRun => w == "run"
    case KMachinfo => w == "machinfo"
    case KRunrestore => w == "runrestore"
    case KKillsave => w == "killsave"
    case KKill => w == "kill"
    case KPs => w == "ps"
    case KBye => w == "bye" || w == "quit"
    case KOther => false
  }

  /** Every spelling of a name is looked up as that name. */
  lemma SpellingFound(w: seq<char>, k: Keyword)
    requires Spells(k, w)
    ensures KeywordOf(w) == k
  {
    match k {
      case KHelp => case KPrompt => case KHash => case KPwd => case KRen => case KTouch =>
      case KTest => case KGattr => case KGtime => case KSattr => case KDircnt =>
      case KDevs => case KLs => case KLcd => case KCd => case KGet => case KMget =>
      case KPut => case KMput => case KDel => case KMkdir => case KRmdir => case KBang =>
      case KConfigOpen => case KConfigRead => case KRun => case KMachinfo => case KRunrestore =>
      case KKillsave => case KKill => case KPs => case KBye => case KOther =>
    }
  }

  /** The lookup by first character agrees with comparing the whole word
      against every name: a word is looked up as a name exactly when it is
      one of that name's spellings, and as no name exactly when it spells
      none and does not start with `!`. */
  lemma KeywordOfMeaning(w: seq<char>, k: Keyword)
    requires k != KBang && k != KOther
    ensures KeywordOf(w) == k <==> Spells(k, w)
    ensures KeywordOf(w) == KOther ==> !Spells(k, w)
  {
    if Spells(k, w) {
      SpellingFound(w, k);
    }
    FoundIsSpelling(w);
  }

  /** A name found is found by one of its spellings. */
  lemma FoundIsSpelling(w: seq<char>)
    ensures KeywordOf(w) != KBang && KeywordOf(w) != KOther ==> Spells(KeywordOf(w), w)
  {
    if w != [] {
      match w[0] {
        case 'b' => case 'c' => case 'd' => case 'g' => case 'h' => case 'k' => case 'l' =>
        case 'm' => case 'p' => case 'q' => case 'r' => case 's' => case 't' => case 'x' =>
        case 'y' => case _ =>
      }
    }
  }

  /** The handler named by the first word, under its word-count guard; a
      failed guard ends in the syntax error. `sattr` asks for three words
      here (see `Session.SattrAsWritten` for the guard as written). */
  function Route(words: seq<seq<char>>): (c: Command)
    requires words != []
    ensures c.Get? || c.Put? || c.Run? || c.Kill? ==> |words| >= 2 && c.args == words[1..]
    ensures c.LocalCd? || c.RemoteCd? ==> c.args == words[1..]
    ensures c.SetAttr? ==> |words| == 3 && c.flags == words[1] && c.name == words[2]
    ensures c.Rename? ==> |words| == 3 && c.from == words[1] && c.to == words[2]
    ensures c.Mget? || c.Mput? ==> |words| == 2 && c.pattern == words[1]
    ensures c.Touch? || c.Test? || c.GetAttr? || c.GetTime? || c.Remove? || c.MakeDir? || c.RemoveDir? ==>
      |words| == 2 && c.name == words[1]
  {
    var argc := |words|;
    match KeywordOf(words[0])
    case KHelp => Help
    case KPrompt => PromptToggle
    case KHash => HashToggle
    case KPwd => Pwd
    case KRen => if argc == 3 then Rename(words[1], words[2]) else SyntaxError
    case KTouch => if argc == 2 then Touch(words[1]) else SyntaxError
    case KTest => if argc == 2 then Test(words[1]) else SyntaxError
    case KGattr => if argc == 2 then GetAttr(words[1]) else SyntaxError
    case KGtime => if argc == 2 then GetTime(words[1]) else SyntaxError
    case KSattr => if argc == 3 then SetAttr(words[1], words[2]) else SyntaxError
    case KDircnt => DirCount
    case KDevs => Devs
    case KLs => List
    case KLcd => LocalCd(words[1..])
    case KCd => RemoteCd(words[1..])
    case KGet => if argc > 1 then Get(words[1..]) else SyntaxError
    case KMget => if argc == 2 then Mget(words[1]) else SyntaxError
    case KPut => if argc >= 2 then Put(words[1..]) else SyntaxError
    case KMput => if argc == 2 then Mput(words[1]) else SyntaxError
    case KDel => if argc == 2 then Remove(words[1]) else SyntaxError
    case KMkdir => if argc == 2 then MakeDir(words[1]) else SyntaxError
    case KRmdir => if argc == 2 then RemoveDir(words[1]) else SyntaxError
    case KBang => Shell(ShellText(words))
    case KConfigOpen => ConfigOpen
    case KConfigRead => ConfigRead
    case KRun => if argc >= 2 then Run(words[1..]) else SyntaxError
    case KMachinfo => MachInfo
    case KRunrestore => if argc == 2 then RunRestore(words[1]) else SyntaxError
    case KKillsave => if argc == 2 then KillSave(words[1]) else SyntaxError
    case KKill => if argc >= 2 then Kill(words[1..]) else SyntaxError
    case KPs => Ps
    case KBye => Quit
    case KOther => SyntaxError
  }

  /** The text handed to the host shell by `!`: the first word without its
      `!`, then every further word after a space. */
  function ShellText(words: seq<seq<char>>): seq<char>
    requires words != [] && words[0] != []
  {
    Tokenizer.JoinWords([words[0][1..]] + words[1..])
  }

  /** What the tokenizer delivers meets what the handlers index. */
  lemma RouteReady(words: seq<seq<char>>)
    requires words != [] && Session.WordsOk(words)
    ensures Ready(Route(words))
  {
    var c := Route(words);
    if c.RemoteCd? || c.Run? {
      assert forall i :: 0 <= i < |c.args| ==> c.args[i] == words[i + 1];
    }
  }

  /** The loop stops on `bye` and `quit` and on nothing else the user types. */
  lemma RouteQuit(words: seq<seq<char>>)
    requires words != []
    ensures Route(words).Quit? <==> words[0] == "bye" || words[0] == "quit"
  {
  }

  /** The commands that take no argument words: each is selected by its
      name alone, whatever follows. */
  lemma RouteSelectsPlain(words: seq<seq<char>>)
    requires words != []
    ensures Route(words).Help? <==> words[0] == "help"
    ensures Route(words).PromptToggle? <==> words[0] == "prompt"
    ensures Route(words).HashToggle? <==> words[0] == "hash"
    ensures Route(words).Pwd? <==> words[0] == "pwd"
  {
    var w := words[0];
    KeywordOfMeaning(w, KHelp);
    KeywordOfMeaning(w, KPrompt);
    KeywordOfMeaning(w, KHash);
    KeywordOfMeaning(w, KPwd);
  }

  /** The same for the listings. */
  lemma RouteSelectsListings(words: seq<seq<char>>)
    requires words != []
    ensures Route(words).DirCount? <==> words[0] == "dircnt"
    ensures Route(words).Devs? <==> words[0] == "devs"
    ensures Route(words).List? <==> words[0] == "ls" || words[0] == "dir"
  {
    var w := words[0];
    KeywordOfMeaning(w, KDircnt);
    KeywordOfMeaning(w, KDevs);
    KeywordOfMeaning(w, KLs);
  }

  /** The same for the machine and process queries. */
  lemma RouteSelectsQueries(words: seq<seq<char>>)
    requires words != []
    ensures Route(words).MachInfo? <==> words[0] == "machinfo"
    ensures Route(words).Ps? <==> words[0] == "ps"
  {
    var w := words[0];
    KeywordOfMeaning(w, KMachinfo);
    KeywordOfMeaning(w, KPs);
  }

  /** The same for the two configuration commands. */
  lemma RouteSelectsConfig(words: seq<seq<char>>)
    requires words != []
    ensures Route(words).ConfigOpen? <==> words[0] == "x"
    ensures Route(words).ConfigRead? <==> words[0] == "y"
  {
    var w := words[0];
    KeywordOfMeaning(w, KConfigOpen);
    KeywordOfMeaning(w, KConfigRead);
  }

  /** The commands that query or touch one device file: each is selected
      by its name with exactly one file word, or two for `ren`. */
  lemma RouteSelectsFiles(words: seq<seq<char>>)
    requires words != []
    ensures Route(words).Rename? <==> words[0] == "ren" && |words| == 3
    ensures Route(words).Touch? <==> words[0] == "touch" && |words| == 2
    ensures Route(words).Test? <==> words[0] == "test" && |words| == 2
    ensures Route(words).GetAttr? <==> words[0] == "gattr" && |words| == 2
    ensures Route(words).GetTime? <==> words[0] == "gtime" && |words| == 2
  {
    var w := words[0];
    KeywordOfMeaning(w, KRen);
    KeywordOfMeaning(w, KTouch);
    KeywordOfMeaning(w, KTest);
    KeywordOfMeaning(w, KGattr);
    KeywordOfMeaning(w, KGtime);
  }

  /** The same for the removals: of a file and of a directory. */
  lemma RouteSelectsRemovals(words: seq<seq<char>>)
    requires words != []
    ensures Route(words).Remove? <==> (words[0] == "del" || words[0] == "rm") && |words| == 2
    ensures Route(words).RemoveDir? <==> words[0] == "rmdir" && |words| == 2
  {
    var w := words[0];
    KeywordOfMeaning(w, KDel);
    KeywordOfMeaning(w, KRmdir);
  }

  /** The same for `mkdir` and `sattr`, which takes its flag word and its
      file. */
  lemma RouteSelectsChanges(words: seq<seq<char>>)
    requires words != []
    ensures Route(words).MakeDir? <==> words[0] == "mkdir" && |words| == 2
    ensures Route(words).SetAttr? <==> words[0] == "sattr" && |words| == 3
  {
    var w := words[0];
    KeywordOfMeaning(w, KMkdir);
    KeywordOfMeaning(w, KSattr);
  }

  /** The directory changes: `cd` and `lcd`, with any words. */
  lemma RouteSelectsDirs(words: seq<seq<char>>)
    requires words != []
    ensures Route(words).LocalCd? <==> words[0] == "lcd"
    ensures Route(words).RemoteCd? <==> words[0] == "cd"
  {
    var w := words[0];
    KeywordOfMeaning(w, KLcd);
    KeywordOfMeaning(w, KCd);
  }

  /** The single transfers: `get` and `put` with at least one word. */
  lemma RouteSelectsTransfers(words: seq<seq<char>>)
    requires words != []
    ensures Route(words).Get? <==> words[0] == "get" && |words| >= 2
    ensures Route(words).Put? <==> words[0] == "put" && |words| >= 2
  {
    var w := words[0];
    KeywordOfMeaning(w, KGet);
    KeywordOfMeaning(w, KPut);
  }

  /** The batch transfers: `mget` and `mput` with exactly one pattern. */
  lemma RouteSelectsBatches(words: seq<seq<char>>)
    requires words != []
    ensures Route(words).Mget? <==> words[0] == "mget" && |words| == 2
    ensures Route(words).Mput? <==> words[0] == "mput" && |words| == 2
  {
    var w := words[0];
    KeywordOfMeaning(w, KMget);
    KeywordOfMeaning(w, KMput);
  }

  /** The process commands: `run` and `kill` with at least one word. */
  lemma RouteSelectsPrograms(words: seq<seq<char>>)
    requires words != []
    ensures Route(words).Run? <==> words[0] == "run" && |words| >= 2
    ensures Route(words).Kill? <==> words[0] == "kill" && |words| >= 2
  {
    var w := words[0];
    KeywordOfMeaning(w, KRun);
    KeywordOfMeaning(w, KKill);
  }

  /** `runrestore` and `killsave`, with exactly one file. */
  lemma RouteSelectsSaves(words: seq<seq<char>>)
    requires words != []
    ensures Route(words).RunRestore? <==> words[0] == "runrestore" && |words| == 2
    ensures Route(words).KillSave? <==> words[0] == "killsave" && |words| == 2
  {
    var w := words[0];
    KeywordOfMeaning(w, KRunrestore);
    KeywordOfMeaning(w, KKillsave);
  }

  /** A first word that spells no name and does not start with `!` is a
      syntax error. */
  lemma RouteUnknown(words: seq<seq<char>>)
    requires words != []
    requires forall k :: !Spells(k, words[0])
    requires words[0] == [] || words[0][0] != '!'
    ensures Route(words).SyntaxError?
  {
    FoundIsSpelling(words[0]);
  }

  /** A first word starting with `!` always runs the host shell, whatever
      follows: no command name starts with `!`. */
  lemma RouteShell(words: seq<seq<char>>)
    requires words != [] && words[0] != [] && words[0][0] == '!'
    ensures Route(words) == Shell(ShellText(words))
  {
    var w := words[0];
    assert w[0] == '!';
  }

  /** Word counts a handler does not accept fall through to the syntax
      error; `sattr` needs its file word. */
  lemma GetNeedsAFile()
    ensures Route(["get"]).SyntaxError?
  {
  }

  lemma MgetTakesOnePattern()
    ensures Route(["mget", "a", "b"]).SyntaxError?
  {
  }

  lemma SattrNeedsAFile()
    ensures Route(["sattr", "+r"]).SyntaxError?
    ensures Route(["sattr", "+r", "f"]) == SetAttr("+r", "f")
  {
  }

  lemma BareCdGoesHome()
    ensures Route(["cd"]) == RemoteCd([])
  {
  }

  lemma KillAllRoutes()
    ensures Route(["kill", "all"]) == Kill(["all"])
  {
  }

  lemma ShellExample()
    ensures Route(["!ls", "-l"]) == Shell("ls -l")
  {
    var ws := ["!ls", "-l"];
    RouteShell(ws);
    assert ws[1..] == ["-l"];
    assert ws[0][1..] == "ls";
    assert [ws[0][1..]] + ws[1..] == ["ls", "-l"];
    assert Tokenizer.JoinWords(["ls", "-l"]) == Tokenizer.JoinWords(["ls"]) + [' '] + "-l";
  }

  // ---------------------------------------------------------------------------
  // One command

  /** The device link as the handlers use it: each call is a function from
      its request to its result. */
  datatype Link = Link(
    dircount: seq<char> -> int,
    dir: seq<char> -> Option<seq<Session.RemoteEntry>>,
    copyFromPsion: (seq<char>, seq<char>) -> int,
    copyToPsion: (seq<char>, seq<char>) -> int,
    procs: seq<Processes.Proc>)

  /** The host side: the working directory, `chdir` (the new working
      directory, or None), and the local directory listing `mput` reads. */
  datatype Host = Host(
    cwd: seq<char>,
    chdir: seq<char> -> Option<seq<char>>,
    listing: seq<char> -> Option<seq<Session.LocalEntry>>)

  /** What a handler hands to the outside world. */
  datatype Outcome =
    | Nothing
    | Request(path: seq<char>)
    | RenameRequest(src: seq<char>, dst: seq<char>)
    | CdTried(tried: Option<seq<char>>)
    | Transfer(src: seq<char>, dst: seq<char>, elapsed: Option<(int, int)>)
    | Batch(copied: seq<seq<char>>, stuck: bool)
    | AttrRequest(file: seq<char>, setMask: set<Sattr.Attr>, clearMask: set<Sattr.Attr>)
    | Stopped(handles: seq<seq<char>>, anykilled: bool)
    | Launch(cmdbuf: seq<char>, argbuf: seq<char>)
    | ShellRequest(cmd: seq<char>)

  predicate Transfers(c: Command) {
    c.Get? || c.Put? || c.Mget? || c.Mput?
  }

  /** The argument words a handler indexes are there, and the words `cd`
      tries are well formed: what the dispatcher's guards and the tokenizer
      ensure. */
  predicate Ready(c: Command) {
    && (c.Get? || c.Put? || c.Run? || c.Kill? ==> c.args != [])
    && (c.Run? ==> c.args[0] != [])
    && (c.RemoteCd? ==> Session.WordsOk(c.args))
  }

  /** The commands whose handlers change the session: the toggles, the two
      `cd`s and the transfers. */
  predicate Changes(c: Command) {
    c.PromptToggle? || c.HashToggle? || c.LocalCd? || c.RemoteCd? || Transfers(c)
  }

  /** The part of the session the handlers read and change. */
  datatype View = View(psionDir: seq<char>, localDir: seq<char>, prompt: bool, hash: bool,
                       running: bool, home: seq<char>)

  function ViewOf(s: Session.Session): View
    reads s
  {
    View(s.psionDir, s.localDir, s.prompt, s.hash, s.continueRunning, s.Home())
  }

  /** The local directory after `lcd` with the words `args`. */
  function LcdDir(localDir: seq<char>, args: seq<seq<char>>, host: Host): seq<char> {
    if args == [] then host.cwd + ['/']
    else match host.chdir(args[0])
      case None => localDir
      case Some(d) => d + ['/']
  }

  /** What running `cmd` does: from the session `v` to the session `w`, with
      the outcome `out`, having read `consumed` of the `answers`. */
  ghost predicate Effect(cmd: Command, link: Link, host: Host, answers: seq<seq<char>>,
                         stime: Session.TimeVal, etime: Session.TimeVal,
                         v: View, w: View, out: Outcome, consumed: nat)
    requires Ready(cmd) && v.psionDir != []
    requires Session.Normal(stime) && Session.Normal(etime)
  {
    match cmd
    case PromptToggle => w == v.(prompt := !v.prompt) && out == Nothing && consumed == 0
    case HashToggle => w == v.(hash := !v.hash) && out == Nothing && consumed == 0
    case LocalCd(args) => w == v.(localDir := LcdDir(v.localDir, args, host)) && out == Nothing && consumed == 0
    case RemoteCd(args) =>
      && consumed == 0
      && if args == [] then out == CdTried(None) && w == v.(psionDir := v.home)
         else
           var tried := Session.CdCandidate(v.psionDir, args[0]);
           && out == CdTried(Some(tried))
           && w == v.(psionDir := if link.dircount(tried) == 0 then Paths.BackslashedAll(tried) else v.psionDir)
    case Get(args) =>
      var f1 := v.psionDir + args[0];
      var f2 := v.localDir + (if |args| == 1 then args[0] else args[1]);
      var ok := link.copyFromPsion(f1, f2) == 0;
      && out == Transfer(f1, f2, if ok then Some(Session.Elapsed(stime, etime)) else None)
      && w == v.(running := v.running || !ok) && consumed == 0
    case Put(args) =>
      var f1 := v.localDir + args[0];
      var f2 := v.psionDir + (if |args| == 1 then args[0] else args[1]);
      var ok := link.copyToPsion(f1, f2) == 0;
      && out == Transfer(f1, f2, if ok then Some(Session.Elapsed(stime, etime)) else None)
      && w == v.(running := v.running || !ok) && consumed == 0
    case Mget(pattern) =>
      (match link.dir(v.psionDir)
       case None => out == Batch([], false) && w == v && consumed == 0
       case Some(entries) =>
         var st := Session.BatchRun(Session.MgetItems(entries, pattern, v.psionDir, v.localDir, link.copyFromPsion),
                                    v.prompt, answers);
         out == Batch(st.copied, st.stuck) && consumed == st.used && w == v.(running := st.failed || v.running))
    case Mput(pattern) =>
      (match host.listing(v.localDir)
       case None => out == Batch([], false) && w == v && consumed == 0
       case Some(entries) =>
         var st := Session.BatchRun(Session.MputItems(entries, pattern, v.psionDir, v.localDir, link.copyToPsion),
                                    v.prompt, answers);
         out == Batch(st.copied, st.stuck) && consumed == st.used && w == v.(running := st.failed || v.running))
    case _ => out == Reply(v.psionDir, cmd, link.procs) && w == v && consumed == 0
  }

  /** What a command may change: only `cd` the device directory, only `lcd`
      the local one, only the toggles their flags; only a transfer sets
      `continueRunning`, and nothing clears it; only the batches read
      answers, and never more than there are. */
  lemma EffectFrames(cmd: Command, link: Link, host: Host, answers: seq<seq<char>>,
                     stime: Session.TimeVal, etime: Session.TimeVal,
                     v: View, w: View, out: Outcome, consumed: nat)
    requires Ready(cmd) && v.psionDir != []
    requires Session.Normal(stime) && Session.Normal(etime)
    requires Effect(cmd, link, host, answers, stime, etime, v, w, out, consumed)
    ensures consumed <= |answers| && (!(cmd.Mget? || cmd.Mput?) ==> consumed == 0)
    ensures !cmd.RemoteCd? ==> w.psionDir == v.psionDir
    ensures !cmd.LocalCd? ==> w.localDir == v.localDir
    ensures w.prompt == (if cmd.PromptToggle? then !v.prompt else v.prompt)
    ensures w.hash == (if cmd.HashToggle? then !v.hash else v.hash)
    ensures w.running == (v.running || (Transfers(cmd) && w.running))
    ensures w.home == v.home
  {
    if IsBatch(cmd) {
      EffectConsumed(cmd, link, host, answers, stime, etime, v, w, out, consumed);
    }
  }

  /** A batch reads no more answers than there are. */
  lemma EffectConsumed(cmd: Command, link: Link, host: Host, answers: seq<seq<char>>,
                       stime: Session.TimeVal, etime: Session.TimeVal,
                       v: View, w: View, out: Outcome, consumed: nat)
    requires Ready(cmd) && v.psionDir != [] && IsBatch(cmd)
    requires Session.Normal(stime) && Session.Normal(etime)
    requires Effect(cmd, link, host, answers, stime, etime, v, w, out, consumed)
    ensures consumed <= |answers|
  {
    if cmd.Mget? {
      if link.dir(v.psionDir).Some? {
        Session.BatchUsedBound(Session.MgetItems(link.dir(v.psionDir).value, cmd.pattern, v.psionDir, v.localDir,
                                                 link.copyFromPsion), v.prompt, answers);
      }
    } else {
      if host.listing(v.localDir).Some? {
        Session.BatchUsedBound(Session.MputItems(host.listing(v.localDir).value, cmd.pattern, v.psionDir, v.localDir,
                                                 link.copyToPsion), v.prompt, answers);
      }
    }
  }

  /** Runs the handler of `cmd`. `answers` are the input lines
      after the command line, read by the y/n questions of `mget` and
      `mput`; `consumed` says how many were read. `stime` and `etime` are
      the clock readings around a single transfer. */
  method Execute(s: Session.Session, cmd: Command, link: Link, host: Host,
                 answers: seq<seq<char>>, stime: Session.TimeVal, etime: Session.TimeVal)
    returns (out: Outcome, consumed: nat)
    requires s.Valid() && Ready(cmd)
    requires Session.Normal(stime) && Session.Normal(etime)
    modifies s
    ensures s.Valid()
    ensures Effect(cmd, link, host, answers, stime, etime, old(ViewOf(s)), ViewOf(s), out, consumed)
  {
    if Changes(cmd) {
      out, consumed := Handle(s, cmd, link, host, answers, stime, etime);
    } else {
      out := Answer(s, cmd, link.procs);
      consumed := 0;
    }
  }

  /** The handlers that change the session. */
  method Handle(s: Session.Session, cmd: Command, link: Link, host: Host,
                answers: seq<seq<char>>, stime: Session.TimeVal, etime: Session.TimeVal)
    returns (out: Outcome, consumed: nat)
    requires s.Valid() && Ready(cmd) && Changes(cmd)
    requires Session.Normal(stime) && Session.Normal(etime)
    modifies s
    ensures s.Valid()
    ensures Effect(cmd, link, host, answers, stime, etime, old(ViewOf(s)), ViewOf(s), out, consumed)
  {
    if Transfers(cmd) {
      out, consumed := HandleTransfer(s, cmd, link, host, answers, stime, etime);
    } else {
      out := HandleSettings(s, cmd, link, host);
      consumed := 0;
    }
  }

  /** The toggles and the two `cd`s. */
  method HandleSettings(s: Session.Session, cmd: Command, link: Link, host: Host) returns (out: Outcome)
    requires s.Valid() && Ready(cmd) && Changes(cmd) && !Transfers(cmd)
    modifies s
    ensures s.Valid()
    ensures forall stime, etime, answers | Session.Normal(stime) && Session.Normal(etime) ::
      Effect(cmd, link, host, answers, stime, etime, old(ViewOf(s)), ViewOf(s), out, 0)
  {
    out := Nothing;
    match cmd {
      case PromptToggle =>
        s.TogglePrompt();
      case HashToggle =>
        s.ToggleHash();
      case LocalCd(args) =>
        s.Lcd(args, host.cwd, host.chdir);
      case RemoteCd(args) =>
        var tried := s.Cd(args, link.dircount);
        out := CdTried(tried);
    }
  }

  /** The four transfers. */
  method HandleTransfer(s: Session.Session, cmd: Command, link: Link, host: Host,
                        answers: seq<seq<char>>, stime: Session.TimeVal, etime: Session.TimeVal)
    returns (out: Outcome, consumed: nat)
    requires s.Valid() && Ready(cmd) && Transfers(cmd)
    requires Session.Normal(stime) && Session.Normal(etime)
    modifies s
    ensures s.Valid()
    ensures Effect(cmd, link, host, answers, stime, etime, old(ViewOf(s)), ViewOf(s), out, consumed)
  {
    if IsBatch(cmd) {
      out, consumed := HandleBatch(s, cmd, link, host, answers);
    } else {
      out := HandleCopy(s, cmd, link, stime, etime);
      consumed := 0;
    }
  }

  /** `get` and `put`. */
  method HandleCopy(s: Session.Session, cmd: Command, link: Link,
                    stime: Session.TimeVal, etime: Session.TimeVal) returns (out: Outcome)
    requires s.Valid() && Ready(cmd) && (cmd.Get? || cmd.Put?)
    requires Session.Normal(stime) && Session.Normal(etime)
    modifies s
    ensures s.Valid()
    ensures forall host: Host, answers | true ::
      Effect(cmd, link, host, answers, stime, etime, old(ViewOf(s)), ViewOf(s), out, 0)
  {
    if cmd.Get? {
      var f1, f2, elapsed := s.Get(cmd.args, link.copyFromPsion, stime, etime);
      out := Transfer(f1, f2, elapsed);
    } else {
      var f1, f2, elapsed := s.Put(cmd.args, link.copyToPsion, stime, etime);
      out := Transfer(f1, f2, elapsed);
    }
  }

  /** `mget` and `mput`. */
  method HandleBatch(s: Session.Session, cmd: Command, link: Link, host: Host, answers: seq<seq<char>>)
    returns (out: Outcome, consumed: nat)
    requires s.Valid() && Ready(cmd) && IsBatch(cmd)
    modifies s
    ensures s.Valid()
    ensures forall stime, etime | Session.Normal(stime) && Session.Normal(etime) ::
      Effect(cmd, link, host, answers, stime, etime, old(ViewOf(s)), ViewOf(s), out, consumed)
  {
    if cmd.Mget? {
      var copied, used, stuck := s.Mget(cmd.pattern, link.dir(s.psionDir), answers, link.copyFromPsion);
      out, consumed := Batch(copied, stuck), used;
    } else {
      var entries := host.listing(s.localDir);
      var copied, used, stuck := s.Mput(cmd.pattern, entries, answers, link.copyToPsion);
      out, consumed := Batch(copied, stuck), used;
    }
  }

  /** The commands that name one file under the device directory. */
  predicate Names(c: Command) {
    c.Touch? || c.Test? || c.GetAttr? || c.GetTime? || c.Remove? || c.MakeDir? || c.RemoveDir?
  }

  /** What a handler that leaves the session alone hands on: a file under
      the device directory, masks, a program path, handles or shell text. */
  function Reply(psionDir: seq<char>, cmd: Command, procs: seq<Processes.Proc>): (o: Outcome)
    requires Ready(cmd)
    ensures o.Request? ==> psionDir <= o.path
    ensures o.RenameRequest? ==> psionDir <= o.src && psionDir <= o.dst
    ensures o.AttrRequest? ==> psionDir <= o.file && o.setMask !! o.clearMask
    ensures cmd.Run? ==> o.Launch? && (o.cmdbuf == cmd.args[0] || o.cmdbuf == psionDir + cmd.args[0])
    ensures o.Stopped? ==> (o.anykilled <==> o.handles != [])
    ensures Changes(cmd) ==> o == Nothing
  {
    if Names(cmd) then Request(psionDir + cmd.name)
    else if cmd.Rename? then RenameRequest(psionDir + cmd.from, psionDir + cmd.to)
    else if cmd.SetAttr? then AttrOf(psionDir, cmd.flags, cmd.name)
    else if cmd.Run? then LaunchOf(psionDir, cmd.args)
    else if cmd.Kill? then
      var stopped := Processes.KillFrom(cmd.args, procs);
      Stopped(stopped, stopped != [])
    else if cmd.Shell? then ShellRequest(cmd.cmd)
    else Nothing
  }

  /** What `sattr` hands on: the file under the device directory and the
      two masks of the flag word. */
  function AttrOf(psionDir: seq<char>, flags: seq<char>, name: seq<char>): (o: Outcome)
    ensures o.AttrRequest? && psionDir <= o.file && o.setMask !! o.clearMask
  {
    Sattr.FlagsMeaning(flags);
    AttrRequest(psionDir + name, Sattr.FlagsOf(flags).setMask, Sattr.FlagsOf(flags).clearMask)
  }

  /** What `run` hands to the launcher: the program path and the joined
      arguments. */
  function LaunchOf(psionDir: seq<char>, args: seq<seq<char>>): (o: Outcome)
    requires args != [] && args[0] != []
    ensures o.Launch? && (o.cmdbuf == args[0] || o.cmdbuf == psionDir + args[0])
  {
    Launch(Processes.ProgramPath(psionDir, args[0]), Tokenizer.JoinWords(args[1..]))
  }

  /** The handlers that leave the session alone, run against its device
      directory. */
  method Answer(s: Session.Session, cmd: Command, procs: seq<Processes.Proc>) returns (out: Outcome)
    requires s.Valid() && Ready(cmd)
    ensures out == Reply(s.psionDir, cmd, procs)
  {
    if cmd.SetAttr? {
      var file, setMask, clearMask := Session.SattrCommand(s.psionDir, [cmd.flags, cmd.name]);
      out := AttrRequest(file, setMask, clearMask);
    } else if cmd.Run? {
      var cmdbuf, argbuf := s.Run(cmd.args);
      out := Launch(cmdbuf, argbuf);
    } else if cmd.Kill? {
      var stopped, anykilled := Processes.Kill(cmd.args, procs);
      out := Stopped(stopped, anykilled);
    } else {
      out := Reply(s.psionDir, cmd, procs);
    }
  }

  // ---------------------------------------------------------------------------
  // The loop

  /** The words of a command line, with at most ten kept as the `argv`
      array can hold. */
  function CommandWords(line: seq<char>): (ws: seq<seq<char>>)
    ensures |ws| == Min(|Tokenizer.Scan(line).argv|, Tokenizer.MaxArgs)
  {
    Tokenizer.ScanStarts(line);
    var all := Tokenizer.Words(Tokenizer.Scan(line));
    all[..Min(|all|, Tokenizer.MaxArgs)]
  }

  /** The words of a line without NUL are not empty and hold no NUL. */
  lemma CommandWordsOk(line: seq<char>)
    requires '\0' !in line
    ensures Session.WordsOk(CommandWords(line))
  {
    var st := Tokenizer.Scan(line);
    Tokenizer.ScanStarts(line);
    Tokenizer.ScanOut(line);
    var ws := CommandWords(line);
    forall i | 0 <= i < |ws|
      ensures ws[i] != [] && '\0' !in ws[i]
    {
      var k := st.argv[i];
      assert Tokenizer.WordStart(line, k);
      assert |st.out| == |line|;
      assert st.out[k] == line[k];
      assert line[k] != '\0' by { assert line[k] in line; }
      assert ws[i] == Tokenizer.TokenAt(st.out, k);
    }
  }

  /** `bye` read as a line is the single word `bye`. */
  lemma ByeLine()
    ensures CommandWords("bye") == ["bye"]
  {
    Tokenizer.JoinRoundTrip(["bye"]);
    assert Tokenizer.JoinWords(["bye"]) == "bye";
  }

  /** The line at index `i`; past the last line, the `bye` the end of input
      reads as. */
  function LineAt(lines: seq<seq<char>>, i: nat): seq<char> {
    if i < |lines| then lines[i] else "bye"
  }

  /** No line from index `lo` up to `hi` holds a word. */
  predicate Wordless(lines: seq<seq<char>>, lo: nat, hi: nat) {
    forall k :: lo <= k < hi && k < |lines| ==> |Tokenizer.Scan(lines[k]).argv| == 0
  }

  /** The command `c` is the one read from the line at index `i`. */
  predicate ReadAt(lines: seq<seq<char>>, i: nat, c: Command) {
    CommandWords(LineAt(lines, i)) != [] && c == Route(CommandWords(LineAt(lines, i)))
  }

  predicate IsBatch(c: Command) {
    c.Mget? || c.Mput?
  }

  /** `cmds` were read in order from the lines at the increasing indices
      `ats`; the lines skipped hold no word unless a batch read them as
      answers, and only the last command quits. */
  predicate Trace(lines: seq<seq<char>>, cmds: seq<Command>, ats: seq<nat>) {
    && |ats| == |cmds|
    && (forall i :: 0 <= i < |cmds| ==> ats[i] <= |lines| && ReadAt(lines, ats[i], cmds[i]))
    && (forall i :: 0 <= i < |cmds| - 1 ==> ats[i] < ats[i + 1] && !cmds[i].Quit?)
    && (cmds != [] ==> Wordless(lines, 0, ats[0]))
    && (forall i :: 0 <= i < |cmds| - 1 && !IsBatch(cmds[i]) ==> Wordless(lines, ats[i] + 1, ats[i + 1]))
  }

  /** The loop has read the trace `cmds` at `ats` and goes on at line `pos`:
      right after the last command, or further on after a batch. */
  predicate Progress(lines: seq<seq<char>>, cmds: seq<Command>, ats: seq<nat>, pos: nat) {
    && pos <= |lines|
    && Trace(lines, cmds, ats)
    && (cmds == [] ==> pos == 0)
    && (cmds != [] ==> ats[|cmds| - 1] < pos && !cmds[|cmds| - 1].Quit?)
    && (cmds != [] && !IsBatch(cmds[|cmds| - 1]) ==> pos == ats[|cmds| - 1] + 1)
  }

  /** A command read at `at`, with no word from `pos` on before it, grows
      the trace; unless it quits, the loop goes on at `next`. */
  lemma ProgressStep(lines: seq<seq<char>>, cmds: seq<Command>, ats: seq<nat>, pos: nat,
                     cmd: Command, at: nat, next: nat)
    requires Progress(lines, cmds, ats, pos)
    requires pos <= at <= |lines| && Wordless(lines, pos, at) && ReadAt(lines, at, cmd)
    requires !cmd.Quit? ==> at < next <= |lines| && (!IsBatch(cmd) ==> next == at + 1)
    ensures Trace(lines, cmds + [cmd], ats + [at])
    ensures !cmd.Quit? ==> Progress(lines, cmds + [cmd], ats + [at], next)
  {
    TraceSnoc(lines, cmds, ats, pos, cmd, at);
    var cs, xs := cmds + [cmd], ats + [at];
    assert cs[|cs| - 1] == cmd && xs[|cs| - 1] == at;
  }

  /** A trace grows by the next command read. */
  lemma TraceSnoc(lines: seq<seq<char>>, cmds: seq<Command>, ats: seq<nat>, pos: nat, cmd: Command, at: nat)
    requires Trace(lines, cmds, ats)
    requires pos <= at <= |lines| && ReadAt(lines, at, cmd) && Wordless(lines, pos, at)
    requires cmds == [] ==> pos == 0
    requires cmds != [] ==> ats[|cmds| - 1] < pos && !cmds[|cmds| - 1].Quit?
    requires cmds != [] && !IsBatch(cmds[|cmds| - 1]) ==> pos == ats[|cmds| - 1] + 1
    ensures Trace(lines, cmds + [cmd], ats + [at])
  {
    SnocReads(lines, cmds, ats, cmd, at);
    SnocOrder(cmds, ats, pos, cmd, at);
    SnocGaps(lines, cmds, ats, pos, cmd, at);
  }

  /** The indices of a grown trace still increase, and only its new last
      command may quit. */
  lemma SnocOrder(cmds: seq<Command>, ats: seq<nat>, pos: nat, cmd: Command, at: nat)
    requires |ats| == |cmds| && pos <= at
    requires forall i :: 0 <= i < |cmds| - 1 ==> ats[i] < ats[i + 1] && !cmds[i].Quit?
    requires cmds != [] ==> ats[|cmds| - 1] < pos && !cmds[|cmds| - 1].Quit?
    ensures forall i :: 0 <= i < |cmds| ==> (ats + [at])[i] < (ats + [at])[i + 1] && !(cmds + [cmd])[i].Quit?
  {
    var cs, xs := cmds + [cmd], ats + [at];
    forall i | 0 <= i < |cmds|
      ensures xs[i] < xs[i + 1] && !cs[i].Quit?
    {
      if i < |cmds| - 1 {
        assert cs[i] == cmds[i] && xs[i] == ats[i] && xs[i + 1] == ats[i + 1];
      } else {
        assert cs[i] == cmds[i] && xs[i] == ats[i] && xs[i + 1] == at;
      }
    }
  }

  /** The gaps of a grown trace after a command that is no batch hold no word. */
  lemma SnocGaps(lines: seq<seq<char>>, cmds: seq<Command>, ats: seq<nat>, pos: nat, cmd: Command, at: nat)
    requires |ats| == |cmds| && Wordless(lines, pos, at)
    requires forall i :: 0 <= i < |cmds| - 1 && !IsBatch(cmds[i]) ==> Wordless(lines, ats[i] + 1, ats[i + 1])
    requires cmds != [] && !IsBatch(cmds[|cmds| - 1]) ==> pos == ats[|cmds| - 1] + 1
    ensures forall i :: 0 <= i < |cmds| && !IsBatch((cmds + [cmd])[i]) ==>
      Wordless(lines, (ats + [at])[i] + 1, (ats + [at])[i + 1])
  {
    var cs, xs := cmds + [cmd], ats + [at];
    forall i | 0 <= i < |cmds| && !IsBatch(cs[i])
      ensures Wordless(lines, xs[i] + 1, xs[i + 1])
    {
      if i < |cmds| - 1 {
        assert cs[i] == cmds[i] && xs[i] == ats[i] && xs[i + 1] == ats[i + 1];
      } else {
        assert cs[i] == cmds[i] && xs[i] == ats[i] && xs[i + 1] == at;
      }
    }
  }

  /** Every command of a grown trace is read from its line. */
  lemma SnocReads(lines: seq<seq<char>>, cmds: seq<Command>, ats: seq<nat>, cmd: Command, at: nat)
    requires |ats| == |cmds| && at <= |lines| && ReadAt(lines, at, cmd)
    requires forall i :: 0 <= i < |cmds| ==> ats[i] <= |lines| && ReadAt(lines, ats[i], cmds[i])
    ensures forall i :: 0 <= i < |cmds| + 1 ==>
      (ats + [at])[i] <= |lines| && ReadAt(lines, (ats + [at])[i], (cmds + [cmd])[i])
  {
    var cs, xs := cmds + [cmd], ats + [at];
    forall i | 0 <= i < |cs|
      ensures xs[i] <= |lines| && ReadAt(lines, xs[i], cs[i])
    {
      if i < |cmds| {
        assert cs[i] == cmds[i] && xs[i] == ats[i];
      } else {
        assert cs[i] == cmd && xs[i] == at;
      }
    }
  }

  /** A command read from `lines[pos..]` is read from `lines`, `pos` lines on. */
  lemma Shifted(lines: seq<seq<char>>, pos: nat, a: nat, c: Command)
    requires pos <= |lines|
    requires Wordless(lines[pos..], 0, a) && ReadAt(lines[pos..], a, c)
    ensures Wordless(lines, pos, pos + a) && ReadAt(lines, pos + a, c)
  {
    assert LineAt(lines[pos..], a) == LineAt(lines, pos + a);
    {
      forall k | pos <= k < pos + a && k < |lines|
        ensures |Tokenizer.Scan(lines[k]).argv| == 0
      {
        assert lines[k] == lines[pos..][k - pos];
      }
    }
  }

  /** Reads the next command line (`at`, or `|lines|` for the end of input,
      which reads as `bye`) and executes it; `taken` counts the lines used
      up, a batch's answers included. */
  method Next(s: Session.Session, lines: seq<seq<char>>, link: Link, host: Host,
              stime: Session.TimeVal, etime: Session.TimeVal)
    returns (cmd: Command, out: Outcome, at: nat, taken: nat)
    requires s.Valid() && s.continueRunning
    requires forall i :: 0 <= i < |lines| ==> '\0' !in lines[i]
    requires Session.Normal(stime) && Session.Normal(etime)
    modifies s
    ensures s.Valid() && s.continueRunning
    ensures at <= |lines| && Wordless(lines, 0, at)
    ensures ReadAt(lines, at, cmd)
    ensures at == |lines| ==> cmd == Quit && taken == at
    ensures at < |lines| ==> at < taken <= |lines|
    ensures at < |lines| && !IsBatch(cmd) ==> taken == at + 1
    ensures !cmd.RemoteCd? ==> s.psionDir == old(s.psionDir)
    ensures !cmd.PromptToggle? ==> s.prompt == old(s.prompt)
    ensures Ready(cmd) && old(s.psionDir) != []
    ensures Effect(cmd, link, host, lines[Min(at + 1, |lines|)..], stime, etime, old(ViewOf(s)), ViewOf(s),
                   out, taken - Min(at + 1, |lines|))
  {
    var line, used := Session.ReadCommand(lines);
    if used == |lines| {
      ByeLine();
    } else {
      assert line == lines[used];
    }
    at := used;
    var words := CommandWords(line);
    CommandWordsOk(line);
    cmd := Route(words);
    RouteReady(words);
    if used == |lines| {
      RouteQuit(words);
    }
    var next := Min(at + 1, |lines|);
    ghost var v := ViewOf(s);
    var consumed;
    out, consumed := Execute(s, cmd, link, host, lines[next..], stime, etime);
    EffectFrames(cmd, link, host, lines[next..], stime, etime, v, ViewOf(s), out, consumed);
    taken := next + consumed;
    assert taken - next == consumed;
  }

  /** One turn of the loop as the loop sees it: the command read from
      `lines[pos..]` and the lines that turn uses up, placed in the whole
      input. */
  method Turn(s: Session.Session, lines: seq<seq<char>>, pos: nat, link: Link, host: Host,
              stime: Session.TimeVal, etime: Session.TimeVal)
    returns (cmd: Command, at: nat, next: nat)
    requires pos <= |lines| && s.Valid() && s.continueRunning
    requires forall i :: 0 <= i < |lines| ==> '\0' !in lines[i]
    requires Session.Normal(stime) && Session.Normal(etime)
    modifies s
    ensures s.Valid() && s.continueRunning
    ensures pos <= at <= |lines| && Wordless(lines, pos, at) && ReadAt(lines, at, cmd)
    ensures !cmd.Quit? ==> at < next <= |lines| && (!IsBatch(cmd) ==> next == at + 1)
    ensures !cmd.RemoteCd? ==> s.psionDir == old(s.psionDir)
    ensures !cmd.PromptToggle? ==> s.prompt == old(s.prompt)
  {
    var out, a, taken;
    cmd, out, a, taken := Next(s, lines[pos..], link, host, stime, etime);
    Shifted(lines, pos, a, cmd);
    at, next := pos + a, pos + taken;
  }

  /** The session loop: commands are read and executed until `bye` or
      `quit`, `clock` giving two readings per command. Returns the commands
      with the indices of their lines, as `Trace` describes. */
  method Loop(s: Session.Session, lines: seq<seq<char>>, link: Link, host: Host, clock: nat -> Session.TimeVal)
    returns (cmds: seq<Command>, ats: seq<nat>)
    requires s.Valid() && s.continueRunning
    requires forall i :: 0 <= i < |lines| ==> '\0' !in lines[i]
    requires forall n: nat :: Session.Normal(clock(n))
    modifies s
    ensures s.Valid() && s.continueRunning
    ensures Trace(lines, cmds, ats)
    ensures cmds != [] && cmds[|cmds| - 1].Quit?
    ensures NoneIs(cmds, RemoteCdCmd) ==> s.psionDir == old(s.psionDir)
    ensures NoneIs(cmds, PromptCmd) ==> s.prompt == old(s.prompt)
  {
    cmds, ats := [], [];
    var pos := 0;
    while true
      invariant s.Valid() && s.continueRunning
      invariant Progress(lines, cmds, ats, pos)
      invariant NoneIs(cmds, RemoteCdCmd) ==> s.psionDir == old(s.psionDir)
      invariant NoneIs(cmds, PromptCmd) ==> s.prompt == old(s.prompt)
      decreases |lines| - pos
    {
      var cmd, at, next := Turn(s, lines, pos, link, host, clock(2 * |cmds|), clock(2 * |cmds| + 1));
      ProgressStep(lines, cmds, ats, pos, cmd, at, next);
      NoneIsSnoc(cmds, cmd, RemoteCdCmd);
      NoneIsSnoc(cmds, cmd, PromptCmd);
      cmds, ats := cmds + [cmd], ats + [at];
      if cmd.Quit? {
        return;
      }
      pos := next;
    }
  }

  predicate RemoteCdCmd(c: Command) { c.RemoteCd? }
  predicate PromptCmd(c: Command) { c.PromptToggle? }

  /** No command of `cs` satisfies `p`. */
  predicate NoneIs(cs: seq<Command>, p: Command -> bool) {
    forall i :: 0 <= i < |cs| ==> !p(cs[i])
  }

  lemma NoneIsSnoc(cs: seq<Command>, c: Command, p: Command -> bool)
    ensures NoneIs(cs + [c], p) <==> NoneIs(cs, p) && !p(c)
  {
    if NoneIs(cs + [c], p) {
      forall i | 0 <= i < |cs| ensures !p(cs[i]) { assert cs[i] == (cs + [c])[i]; }
      assert (cs + [c])[|cs|] == c;
    }
  }
}
