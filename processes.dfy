/** The remote-process commands of the session: `kill` (which processes a
    list of arguments stops) and `run` (the program path and the argument
    text handed to the device). */
module Processes {
  import opened Common
  import Tokenizer

  // ---------------------------------------------------------------------------
  // `%d` as `sscanf` reads it

  predicate IsSpace(c: char) {
    c == ' ' || c == '\t' || c == '\n' || c == '\r' || c == '\U{0B}' || c == '\U{0C}'
  }

  predicate IsDigit(c: char) {
    '0' <= c <= '9'
  }

  function SkipSpace(s: seq<char>): seq<char>
  {
    if s != [] && IsSpace(s[0]) then SkipSpace(s[1..]) else s
  }

  /** The number of leading digits. */
  function DigitRun(s: seq<char>): (n: nat)
    ensures n <= |s|
    ensures forall k :: 0 <= k < n ==> IsDigit(s[k])
    ensures n < |s| ==> !IsDigit(s[n])
  {
    if s != [] && IsDigit(s[0]) then 1 + DigitRun(s[1..]) else 0
  }

  /** After an optional sign, a run of at least one digit. */
  function Unsigned(s: seq<char>): Option<nat> {
    var n := DigitRun(s);
    if n == 0 then None else Some(DigitsValue(s[..n]))
  }

  /** What `%d` stores: leading white space skipped, an optional sign, then
      the longest run of digits; None when no digit follows (nothing is
      stored). */
  function ScanInt(s: seq<char>): Option<int> {
    var t := SkipSpace(s);
    if t != [] && t[0] == '-' then
      match Unsigned(t[1..]) case None => None case Some(v) => Some(-(v as int))
    else if t != [] && t[0] == '+' then
      match Unsigned(t[1..]) case None => None case Some(v) => Some(v as int)
    else
      match Unsigned(t) case None => None case Some(v) => Some(v as int)
  }

  lemma DigitRunIs(s: seq<char>, n: nat)
    requires n <= |s| && forall k :: 0 <= k < n ==> IsDigit(s[k])
    requires n == |s| || !IsDigit(s[n])
    ensures DigitRun(s) == n
  {
  }

  lemma UnsignedOfDigits(t: seq<char>)
    requires t != [] && forall k :: 0 <= k < |t| ==> '0' <= t[k] <= '9'
    ensures Unsigned(t) == Some(DigitsValue(t))
  {
    DigitRunIs(t, |t|);
    assert t[..|t|] == t;
  }

  /** Text starting with a digit reads as its leading number. */
  lemma ScanIntOfDigits(t: seq<char>, v: nat)
    requires t != [] && IsDigit(t[0]) && Unsigned(t) == Some(v)
    ensures ScanInt(t) == Some(v as int)
  {
    assert SkipSpace(t) == t;
  }

  /** A minus sign before such text negates the number. */
  lemma ScanIntOfNegDigits(t: seq<char>, v: nat)
    requires t != [] && IsDigit(t[0]) && Unsigned(t) == Some(v)
    ensures ScanInt(['-'] + t) == Some(-(v as int))
  {
    var m := ['-'] + t;
    assert !IsSpace(m[0]);
    assert SkipSpace(m) == m;
    assert m[1..] == t;
  }

  /** The decimal text of a number, with or without a minus sign, reads back
      as that number. */
  lemma ScanIntOfDecimal(n: nat)
    ensures ScanInt(DecimalText(n)) == Some(n as int)
    ensures ScanInt(['-'] + DecimalText(n)) == Some(-(n as int))
  {
    var t := DecimalText(n);
    UnsignedOfDigits(t);
    DecimalRoundTrip(n);
    ScanIntOfDigits(t, n);
    ScanIntOfNegDigits(t, n);
  }

  // ---------------------------------------------------------------------------
  // `kill`

  /** One process as `queryDrive` reports it: a record with the pid and the
      program name, followed by a record with its arguments. */
  datatype Proc = Proc(pid: nat, name: seq<char>, args: seq<char>)

  /** The handle `stopProgram` is given: `name.$pid`. */
  function Handle(p: Proc): seq<char> {
    p.name + ['.', '$'] + DecimalText(p.pid)
  }

  /** The handle ends with the pid in decimal, so the pid reads back from it. */
  lemma HandleNamesPid(p: Proc)
    ensures Handle(p)[..|p.name|] == p.name
    ensures ScanInt(Handle(p)[|p.name| + 2..]) == Some(p.pid as int)
  {
    assert Handle(p)[|p.name| + 2..] == DecimalText(p.pid);
    ScanIntOfDecimal(p.pid);
  }

  /** `kpid` for an argument: -1 for `all`, otherwise what `%d` reads; None
      when nothing is read. */
  function Kpid(arg: seq<char>): Option<int> {
    if StrEq(arg, "all") then Some(-1) else ScanInt(arg)
  }

  predicate Hits(kpid: Option<int>, pid: nat) {
    kpid.Some? && (kpid.value == -1 || kpid.value == pid)
  }

  /** The handles stopped for one argument, in the order of the list. */
  function Selected(kpid: Option<int>, procs: seq<Proc>): (r: seq<seq<char>>)
    ensures |r| <= |procs|
    decreases |procs|
  {
    if procs == [] then []
    else
      var last := procs[|procs| - 1];
      Selected(kpid, procs[..|procs| - 1]) + (if Hits(kpid, last.pid) then [Handle(last)] else [])
  }

  /** Each argument's `kpid`. */
  function Kpids(args: seq<seq<char>>): (ks: seq<Option<int>>)
    ensures |ks| == |args|
    ensures forall i :: 0 <= i < |args| ==> ks[i] == Kpid(args[i])
  {
    seq(|args|, i requires 0 <= i < |args| => Kpid(args[i]))
  }

  /** The handles stopped for a list of `kpid` values in order; after a -1
      the rest are not looked at. */
  function KillWith(ks: seq<Option<int>>, procs: seq<Proc>): seq<seq<char>>
    decreases |ks|
  {
    if ks == [] then []
    else Selected(ks[0], procs) + (if ks[0] == Some(-1) then [] else KillWith(ks[1..], procs))
  }

  function KillFrom(args: seq<seq<char>>, procs: seq<Proc>): seq<seq<char>> {
    KillWith(Kpids(args), procs)
  }

  /** The handler: `args` are `argv[1..argc]`, `procs` what `queryDrive`
      returned. Gives the handles passed to `stopProgram`, in order, and
      `anykilled`. */
  method Kill(args: seq<seq<char>>, procs: seq<Proc>) returns (stopped: seq<seq<char>>, anykilled: bool)
    ensures stopped == KillFrom(args, procs)
    ensures anykilled <==> stopped != []
  {
    ghost var ks := Kpids(args);
    stopped := [];
    anykilled := false;
    var i := 0;
    while i < |args|
      invariant 0 <= i <= |args|
      invariant stopped + KillWith(ks[i..], procs) == KillWith(ks, procs)
      invariant anykilled <==> stopped != []
    {
      var all;
      stopped, anykilled, all := KillArg(args, ks, i, procs, stopped, anykilled);
      if all {
        return;
      }
      i := i + 1;
    }
  }

  /** One argument of the outer loop: its `kpid` and the inner pass. */
  method KillArg(args: seq<seq<char>>, ghost ks: seq<Option<int>>, i: nat, procs: seq<Proc>,
                 stopped0: seq<seq<char>>, anykilled0: bool)
    returns (stopped: seq<seq<char>>, anykilled: bool, all: bool)
    requires ks == Kpids(args) && i < |args|
    requires anykilled0 <==> stopped0 != []
    ensures anykilled <==> stopped != []
    ensures all ==> stopped == stopped0 + KillWith(ks[i..], procs)
    ensures !all ==> stopped + KillWith(ks[i + 1..], procs) == stopped0 + KillWith(ks[i..], procs)
  {
    var kpid := Kpid(args[i]);
    var these;
    these, anykilled := StopMatching(kpid, procs, anykilled0);
    KillWithStep(ks, i, procs);
    all := kpid == Some(-1);
    if !all {
      assert stopped0 + (these + KillWith(ks[i + 1..], procs)) == (stopped0 + these) + KillWith(ks[i + 1..], procs);
    } else {
      assert these + [] == these;
    }
    stopped := stopped0 + these;
  }

  lemma KillWithStep(ks: seq<Option<int>>, i: nat, procs: seq<Proc>)
    requires i < |ks|
    ensures KillWith(ks[i..], procs) == Selected(ks[i], procs)
      + (if ks[i] == Some(-1) then [] else KillWith(ks[i + 1..], procs))
  {
    assert ks[i..][0] == ks[i];
    assert ks[i..][1..] == ks[i + 1..];
  }

  /** The inner loop: one pass over the list for one argument. */
  method StopMatching(kpid: Option<int>, procs: seq<Proc>, anykilled0: bool) returns (these: seq<seq<char>>, anykilled: bool)
    ensures these == Selected(kpid, procs)
    ensures anykilled <==> anykilled0 || these != []
  {
    anykilled := anykilled0;
    these := [];
    var j := 0;
    while j < |procs|
      invariant 0 <= j <= |procs|
      invariant these == Selected(kpid, procs[..j])
      invariant anykilled <==> anykilled0 || these != []
    {
      assert procs[..j + 1][..j] == procs[..j];
      var p := procs[j];
      if kpid.Some? && (kpid.value == -1 || kpid.value == p.pid) {
        these := these + [Handle(p)];
        anykilled := true;
      }
      j := j + 1;
    }
    assert procs[..|procs|] == procs;
  }

  /** A handle is stopped for one argument exactly when it is the handle of a
      listed process the argument selects. */
  lemma {:induction false} SelectedMeaning(kpid: Option<int>, procs: seq<Proc>, h: seq<char>)
    ensures h in Selected(kpid, procs) <==> exists q :: 0 <= q < |procs| && Hits(kpid, procs[q].pid) && h == Handle(procs[q])
    decreases |procs|
  {
    if procs != [] {
      var front := procs[..|procs| - 1];
      SelectedMeaning(kpid, front, h);
      if exists q :: 0 <= q < |procs| && Hits(kpid, procs[q].pid) && h == Handle(procs[q]) {
        var q :| 0 <= q < |procs| && Hits(kpid, procs[q].pid) && h == Handle(procs[q]);
        if q < |front| {
          assert front[q] == procs[q];
        }
      }
      if h in Selected(kpid, front) {
        var q :| 0 <= q < |front| && Hits(kpid, front[q].pid) && h == Handle(front[q]);
        assert procs[q] == front[q];
      }
    }
  }

  /** The arguments that are looked at: those up to and including the first
      that means "all". */
  predicate Considered(ks: seq<Option<int>>, j: nat)
    requires j < |ks|
  {
    forall i :: 0 <= i < j ==> ks[i] != Some(-1)
  }

  lemma {:induction false} KillWithMeaning(ks: seq<Option<int>>, procs: seq<Proc>, h: seq<char>)
    ensures h in KillWith(ks, procs) <==>
      exists j, q :: 0 <= j < |ks| && 0 <= q < |procs| && Considered(ks, j)
        && Hits(ks[j], procs[q].pid) && h == Handle(procs[q])
    decreases |ks|
  {
    if ks == [] {
      return;
    }
    SelectedMeaning(ks[0], procs, h);
    if ks[0] != Some(-1) {
      KillWithMeaning(ks[1..], procs, h);
      if h in KillWith(ks[1..], procs) {
        var j, q :| 0 <= j < |ks[1..]| && 0 <= q < |procs| && Considered(ks[1..], j)
          && Hits(ks[1..][j], procs[q].pid) && h == Handle(procs[q]);
        assert Considered(ks, j + 1);
      }
    }
    if exists j, q :: 0 <= j < |ks| && 0 <= q < |procs| && Considered(ks, j)
        && Hits(ks[j], procs[q].pid) && h == Handle(procs[q]) {
      var j, q :| 0 <= j < |ks| && 0 <= q < |procs| && Considered(ks, j)
        && Hits(ks[j], procs[q].pid) && h == Handle(procs[q]);
      if j > 0 {
        assert ks[0] != Some(-1);
        assert ks[1..][j - 1] == ks[j];
        assert Considered(ks[1..], j - 1);
      }
    }
  }

  /** A handle is stopped exactly when an argument before or at the first
      `all` selects its process. */
  lemma KillMeaning(args: seq<seq<char>>, procs: seq<Proc>, h: seq<char>)
    ensures h in KillFrom(args, procs) <==>
      exists j, q :: 0 <= j < |args| && 0 <= q < |procs| && Considered(Kpids(args), j)
        && Hits(Kpid(args[j]), procs[q].pid) && h == Handle(procs[q])
  {
    KillWithMeaning(Kpids(args), procs, h);
  }

  /** `kill all` stops every listed process, and the arguments after it are
      not looked at. */
  lemma KillAll(rest: seq<seq<char>>, procs: seq<Proc>)
    ensures KillFrom([['a', 'l', 'l']] + rest, procs) == Selected(Some(-1), procs)
    ensures forall q :: 0 <= q < |procs| ==> Handle(procs[q]) in Selected(Some(-1), procs)
  {
    assert Kpids([['a', 'l', 'l']] + rest)[0] == Some(-1);
    forall q | 0 <= q < |procs|
      ensures Handle(procs[q]) in Selected(Some(-1), procs)
    {
      SelectedMeaning(Some(-1), procs, Handle(procs[q]));
    }
  }

  /** `-1` is read as "all" too. */
  lemma MinusOneMeansAll()
    ensures Kpid("-1") == Some(-1)
  {
    ScanIntOfDecimal(1);
    assert DecimalText(1) == "1";
    assert "-1" == ['-'] + DecimalText(1);
  }

  /** An argument that is not a number (`x`, say) selects nothing: the
      arguments after it stop what they would stop without it. */
  lemma NonNumberSelectsNothing(arg: seq<char>, rest: seq<seq<char>>, procs: seq<Proc>)
    requires Kpid(arg).None?
    ensures Kpid("x") == None
    ensures KillFrom([arg] + rest, procs) == KillFrom(rest, procs)
    ensures KillFrom([arg], procs) == []
  {
    EmptySelection(procs);
    assert Kpids([arg] + rest)[1..] == Kpids(rest);
    var ks := Kpids([arg]);
    assert ks == [None] && ks[1..] == [];
    assert KillWith(ks[1..], procs) == [];
  }

  lemma {:induction false} EmptySelection(procs: seq<Proc>)
    ensures Selected(None, procs) == []
    decreases |procs|
  {
    if procs != [] {
      EmptySelection(procs[..|procs| - 1]);
    }
  }

  // ---------------------------------------------------------------------------
  // `run`

  /** The program path: relative to the current directory unless the
      argument has a drive colon in its second position. */
  function ProgramPath(psionDir: seq<char>, prog: seq<char>): (r: seq<char>)
    requires prog != []
    ensures r == prog || r == psionDir + prog
  {
    if |prog| >= 2 && prog[1] == ':' then prog else psionDir + prog
  }

  /** The path ends with the program name; a drive-letter name is kept as
      it is, any other is put under the directory, so the path names a
      drive whenever the directory does. */
  lemma ProgramPathShape(psionDir: seq<char>, prog: seq<char>)
    requires prog != []
    ensures var r := ProgramPath(psionDir, prog);
      && |r| >= |prog| && r[|r| - |prog|..] == prog
      && (|prog| >= 2 && prog[1] == ':' ==> |r| == |prog|)
      && (!(|prog| >= 2 && prog[1] == ':') ==> |r| == |psionDir| + |prog| && psionDir <= r)
      && (|psionDir| >= 2 && psionDir[1] == ':' ==> r[1] == ':')
  {
  }

  /** The argument text: `argv[2..argc]` with single spaces between. */
  method ArgBuf(rest: seq<seq<char>>) returns (argbuf: seq<char>)
    ensures argbuf == Tokenizer.JoinWords(rest)
  {
    argbuf := [];
    var i := 0;
    while i < |rest|
      invariant 0 <= i <= |rest|
      invariant argbuf == Tokenizer.JoinWords(rest[..i])
    {
      assert rest[..i + 1][..i] == rest[..i];
      if i > 0 {
        argbuf := argbuf + [' '] + rest[i];
      } else {
        argbuf := rest[i];
      }
      i := i + 1;
    }
    assert rest[..|rest|] == rest;
  }

  /** The argument text splits back into the arguments when each is a plain
      word, so the device sees the words the user typed. */
  lemma ArgBufRoundTrip(rest: seq<seq<char>>)
    requires forall i :: 0 <= i < |rest| ==> Tokenizer.Plain(rest[i])
    ensures Tokenizer.StartsInside(Tokenizer.Scan(Tokenizer.JoinWords(rest)))
    ensures Tokenizer.Words(Tokenizer.Scan(Tokenizer.JoinWords(rest))) == rest
  {
    Tokenizer.JoinRoundTrip(rest);
  }
}
