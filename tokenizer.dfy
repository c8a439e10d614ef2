/** `ftp::getCommand`'s splitting of an input line into words, done in place:
    separators and closing quotes are overwritten with NUL and `argv` receives
    the offsets where the words start. */
module Tokenizer {

  /** The number of slots of the session's `argv` array. */
  const MaxArgs: nat := 10

  predicate IsBlank(c: char) {
    c == ' ' || c == '\t'
  }

  /** A character that is neither a separator nor a quote. */
  predicate Ordinary(c: char) {
    !IsBlank(c) && c != '"'
  }

  /** The scanner's variables after a prefix of the line: `ws` (the last
      separator was outside quotes and no word has started since), `quote`
      (inside a quoted region), the word offsets so far, and the buffer
      prefix as rewritten. */
  datatype ScanState = ScanState(ws: bool, quote: bool, argv: seq<nat>, out: seq<char>)

  const Init := ScanState(true, false, [], [])

  /** One character, at position `|st.out|`. */
  function Step(st: ScanState, c: char): (r: ScanState)
    ensures |r.out| == |st.out| + 1
  {
    if IsBlank(c) then
      if st.quote then st.(out := st.out + [c])
      else st.(ws := true, out := st.out + ['\0'])
    else if c == '"' then
      // a quote toggles; the one that closes a region is overwritten
      st.(quote := !st.quote, out := st.out + [if st.quote then '\0' else c])
    else
      ScanState(false, st.quote, if st.ws then st.argv + [|st.out|] else st.argv, st.out + [c])
  }

  /** The scanner run over `xs` starting from `st`. */
  function RunFrom(st: ScanState, xs: seq<char>): (r: ScanState)
    ensures |r.out| == |st.out| + |xs|
    decreases |xs|
  {
    if xs == [] then st else Step(RunFrom(st, xs[..|xs| - 1]), xs[|xs| - 1])
  }

  function Scan(line: seq<char>): ScanState {
    RunFrom(Init, line)
  }

  /** The characters from offset `k` up to the next NUL. */
  function TokenAt(b: seq<char>, k: nat): (r: seq<char>)
    requires k <= |b|
    ensures '\0' !in r
    decreases |b| - k
  {
    if k == |b| || b[k] == '\0' then [] else [b[k]] + TokenAt(b, k + 1)
  }

  predicate StartsInside(st: ScanState) {
    forall i :: 0 <= i < |st.argv| ==> st.argv[i] < |st.out|
  }

  /** The words a scan yields, in order: `argv[0]`, ..., `argv[argc - 1]`. */
  function Words(st: ScanState): (r: seq<seq<char>>)
    requires StartsInside(st)
    ensures |r| == |st.argv|
  {
    seq(|st.argv|, i requires 0 <= i < |st.argv| => TokenAt(st.out, st.argv[i]))
  }

  // ---------------------------------------------------------------------------
  // The in-place loop

  /** `getCommand` after a line has been read into `buf`: returns the word
      offsets (`argc` is their number). There is no bound against `MaxArgs`. */
  method GetCommand(buf: array<char>) returns (argv: seq<nat>)
    requires forall k :: 0 <= k < buf.Length ==> buf[k] != '\0'
    modifies buf
    ensures buf[..] == Scan(old(buf[..])).out
    ensures argv == Scan(old(buf[..])).argv
  {
    ghost var line := buf[..];
    var ws, quote := true, false;
    argv := [];
    var k := 0;
    while k < buf.Length
      invariant 0 <= k <= buf.Length
      invariant forall i :: k <= i < buf.Length ==> buf[i] == line[i]
      invariant ScanState(ws, quote, argv, buf[..k]) == Scan(line[..k])
    {
      var c := buf[k];
      ghost var pre := buf[..k];
      assert line[..k + 1] == line[..k] + [c];
      assert line[..k + 1][..k] == line[..k];
      if c == ' ' || c == '\t' {
        if !quote {
          ws := true;
          buf[k] := '\0';
        }
      } else if c == '"' {
        quote := !quote;
        if !quote {
          buf[k] := '\0';
        }
      } else {
        if ws {
          argv := argv + [k];
        }
        ws := false;
      }
      assert buf[..k + 1] == pre + [buf[k]] by {
        assert forall i :: 0 <= i < k ==> buf[i] == pre[i];
      }
      k := k + 1;
    }
    assert line[..buf.Length] == line;
  }

  /** The same loop with the bound the `argv` array needs: word starts past
      the tenth are not recorded. */
  method GetCommandCapped(buf: array<char>) returns (argv: seq<nat>)
    requires forall k :: 0 <= k < buf.Length ==> buf[k] != '\0'
    modifies buf
    ensures buf[..] == Scan(old(buf[..])).out
    ensures argv == Capped(Scan(old(buf[..])).argv)
  {
    ghost var line := buf[..];
    var ws, quote := true, false;
    argv := [];
    var k := 0;
    ghost var full: seq<nat> := [];
    while k < buf.Length
      invariant 0 <= k <= buf.Length
      invariant forall i :: k <= i < buf.Length ==> buf[i] == line[i]
      invariant ScanState(ws, quote, full, buf[..k]) == Scan(line[..k])
      invariant argv == Capped(full)
    {
      var c := buf[k];
      ghost var pre := buf[..k];
      assert line[..k + 1] == line[..k] + [c];
      assert line[..k + 1][..k] == line[..k];
      if c == ' ' || c == '\t' {
        if !quote {
          ws := true;
          buf[k] := '\0';
        }
      } else if c == '"' {
        quote := !quote;
        if !quote {
          buf[k] := '\0';
        }
      } else {
        if ws {
          if |argv| < MaxArgs {
            argv := argv + [k];
          }
          full := full + [k];
        }
        ws := false;
      }
      assert buf[..k + 1] == pre + [buf[k]] by {
        assert forall i :: 0 <= i < k ==> buf[i] == pre[i];
      }
      k := k + 1;
    }
    assert line[..buf.Length] == line;
  }

  /** The offsets an `argv` of ten slots can hold: the first ten, all of
      them when there are no more. */
  function Capped(a: seq<nat>): (r: seq<nat>)
    ensures |r| <= MaxArgs && r <= a
    ensures |a| <= MaxArgs ==> r == a
    ensures |a| > MaxArgs ==> |r| == MaxArgs
  {
    if |a| <= MaxArgs then a else a[..MaxArgs]
  }

  // ---------------------------------------------------------------------------
  // What the scan computes

  /** Quote characters in `xs`; an odd count means a quoted region is open. */
  function QuoteCount(xs: seq<char>): nat
    decreases |xs|
  {
    if xs == [] then 0 else QuoteCount(xs[..|xs| - 1]) + (if xs[|xs| - 1] == '"' then 1 else 0)
  }

  /** A separator at `b` that is outside quotes. */
  predicate OpenBlank(line: seq<char>, b: nat)
    requires b < |line|
  {
    IsBlank(line[b]) && QuoteCount(line[..b]) % 2 == 0
  }

  /** `ws` after `n` characters: every ordinary character before `n` is
      followed, still before `n`, by a separator outside quotes. */
  predicate AfterSeparator(line: seq<char>, n: nat)
    requires n <= |line|
  {
    forall m :: 0 <= m < n && Ordinary(line[m]) ==> exists b :: m < b < n && OpenBlank(line, b)
  }

  /** Words start at an ordinary character right after a separator, the line
      start, or quotes that follow one of those. */
  predicate WordStart(line: seq<char>, k: nat)
    requires k < |line|
  {
    Ordinary(line[k]) && AfterSeparator(line, k)
  }

  lemma ScanSnoc(xs: seq<char>, c: char)
    ensures Scan(xs + [c]) == Step(Scan(xs), c)
  {
    assert (xs + [c])[..|xs|] == xs;
  }

  /** `quote` is the parity of the quote characters seen. */
  lemma {:induction false} ScanQuote(line: seq<char>)
    ensures Scan(line).quote <==> QuoteCount(line) % 2 == 1
    decreases |line|
  {
    if line != [] {
      var pre := line[..|line| - 1];
      ScanQuote(pre);
      assert pre + [line[|line| - 1]] == line;
      ScanSnoc(pre, line[|line| - 1]);
    }
  }

  /** The scanner only ever appends to the buffer and to the word offsets. */
  lemma {:induction false} RunFromExtends(st: ScanState, xs: seq<char>)
    ensures RunFrom(st, xs).out[..|st.out|] == st.out
    ensures |st.argv| <= |RunFrom(st, xs).argv| && RunFrom(st, xs).argv[..|st.argv|] == st.argv
    decreases |xs|
  {
    if xs != [] {
      var xs' := xs[..|xs| - 1];
      RunFromExtends(st, xs');
      var mid := RunFrom(st, xs');
      var r := Step(mid, xs[|xs| - 1]);
      assert r.out[..|mid.out|] == mid.out;
      assert r.out[..|st.out|] == r.out[..|mid.out|][..|st.out|];
      assert r.argv[..|mid.argv|] == mid.argv;
      assert r.argv[..|st.argv|] == r.argv[..|mid.argv|][..|st.argv|];
    }
  }

  lemma ScanPrefix(line: seq<char>, m: nat)
    requires m <= |line|
    ensures Scan(line).out[..m] == Scan(line[..m]).out
    ensures |Scan(line[..m]).argv| <= |Scan(line).argv|
    ensures Scan(line).argv[..|Scan(line[..m]).argv|] == Scan(line[..m]).argv
  {
    assert line[..m] + line[m..] == line;
    RunFromAppend(Init, line[..m], line[m..]);
    RunFromExtends(Scan(line[..m]), line[m..]);
  }

  /** A position is overwritten with NUL exactly when it holds a separator
      outside quotes or a quote that closes a region. */
  lemma ScanOut(line: seq<char>)
    ensures forall k :: 0 <= k < |line| ==>
      Scan(line).out[k] == (if OpenBlank(line, k) || (line[k] == '"' && QuoteCount(line[..k]) % 2 == 1) then '\0' else line[k])
  {
    forall k | 0 <= k < |line|
      ensures Scan(line).out[k] == (if OpenBlank(line, k) || (line[k] == '"' && QuoteCount(line[..k]) % 2 == 1) then '\0' else line[k])
    {
      ScanPrefix(line, k + 1);
      assert line[..k + 1] == line[..k] + [line[k]];
      ScanSnoc(line[..k], line[k]);
      ScanQuote(line[..k]);
      assert Scan(line).out[k] == Scan(line[..k + 1]).out[k];
    }
  }

  lemma AfterSeparatorPrefix(line: seq<char>, n: nat)
    requires n <= |line|
    ensures AfterSeparator(line, n) == AfterSeparator(line[..n], n)
  {
    var pre := line[..n];
    forall b | 0 <= b < n
      ensures OpenBlank(line, b) == OpenBlank(pre, b)
    {
      assert pre[..b] == line[..b];
    }
    if AfterSeparator(line, n) {
      forall m | 0 <= m < n && Ordinary(pre[m])
        ensures exists b :: m < b < n && OpenBlank(pre, b)
      {
        var b :| m < b < n && OpenBlank(line, b);
        assert OpenBlank(pre, b);
      }
    }
    if AfterSeparator(pre, n) {
      forall m | 0 <= m < n && Ordinary(line[m])
        ensures exists b :: m < b < n && OpenBlank(line, b)
      {
        var b :| m < b < n && OpenBlank(pre, b);
        assert OpenBlank(line, b);
      }
    }
  }

  /** `ws` holds exactly when every ordinary character seen is followed by a
      separator outside quotes. */
  lemma {:induction false} ScanWs(line: seq<char>)
    ensures Scan(line).ws <==> AfterSeparator(line, |line|)
    decreases |line|
  {
    if line == [] {
      return;
    }
    var n := |line| - 1;
    var pre := line[..n];
    var c := line[n];
    ScanWs(pre);
    ScanQuote(pre);
    AfterSeparatorPrefix(line, n);
    assert pre + [c] == line;
    ScanSnoc(pre, c);
    assert line[..n] == pre;
    var st := Scan(pre);
    if IsBlank(c) && !st.quote {
      assert OpenBlank(line, n);
      forall m | 0 <= m < |line| && Ordinary(line[m])
        ensures exists b :: m < b < |line| && OpenBlank(line, b)
      {
        assert m < n;
      }
    } else if Ordinary(c) {
      assert Ordinary(line[n]);
    } else {
      assert !OpenBlank(line, n);
      if AfterSeparator(line, n) {
        forall m | 0 <= m < |line| && Ordinary(line[m])
          ensures exists b :: m < b < |line| && OpenBlank(line, b)
        {
          var b :| m < b < n && OpenBlank(line, b);
        }
      }
      if AfterSeparator(line, |line|) {
        forall m | 0 <= m < n && Ordinary(line[m])
          ensures exists b :: m < b < n && OpenBlank(line, b)
        {
          var b :| m < b < |line| && OpenBlank(line, b);
          assert b != n;
        }
      }
    }
  }

  lemma WordStartPrefix(line: seq<char>, n: nat, a: nat)
    requires a < n <= |line|
    ensures WordStart(line, a) == WordStart(line[..n], a)
  {
    AfterSeparatorPrefix(line, a);
    AfterSeparatorPrefix(line[..n], a);
    assert line[..n][..a] == line[..a];
  }

  /** The offsets are, in increasing order, exactly the word starts. */
  lemma {:induction false} ScanStarts(line: seq<char>)
    ensures StartsInside(Scan(line))
    ensures forall i :: 0 <= i < |Scan(line).argv| ==> WordStart(line, Scan(line).argv[i])
    ensures forall k :: 0 <= k < |line| && WordStart(line, k) ==> k in Scan(line).argv
    ensures forall i, i' :: 0 <= i < i' < |Scan(line).argv| ==> Scan(line).argv[i] < Scan(line).argv[i']
    decreases |line|
  {
    if line == [] {
      return;
    }
    var n := |line| - 1;
    var pre := line[..n];
    var c := line[n];
    ScanStarts(pre);
    ScanWs(pre);
    AfterSeparatorPrefix(line, n);
    assert pre + [c] == line;
    ScanSnoc(pre, c);
    var st := Scan(pre);
    var a := Scan(line).argv;
    assert a == st.argv || (a == st.argv + [n] && WordStart(line, n));
    assert a == st.argv + [n] <==> WordStart(line, n);
    forall i | 0 <= i < |st.argv|
      ensures WordStart(line, st.argv[i])
    {
      WordStartPrefix(line, n, st.argv[i]);
    }
    forall k | 0 <= k < n && WordStart(line, k)
      ensures k in st.argv
    {
      WordStartPrefix(line, n, k);
    }
  }

  // Round trips: words joined by single spaces, and a quoted word

  /** A word that survives the scanner unchanged: non-empty, ordinary
      characters only. */
  predicate Plain(w: seq<char>) {
    w != [] && forall k :: 0 <= k < |w| ==> Ordinary(w[k]) && w[k] != '\0'
  }

  /** Words joined with single spaces. */
  function JoinWords(ws: seq<seq<char>>): seq<char>
    decreases |ws|
  {
    if ws == [] then []
    else if |ws| == 1 then ws[0]
    else JoinWords(ws[..|ws| - 1]) + [' '] + ws[|ws| - 1]
  }

  lemma {:induction false} RunFromAppend(st: ScanState, a: seq<char>, b: seq<char>)
    ensures RunFrom(st, a + b) == RunFrom(RunFrom(st, a), b)
    decreases |b|
  {
    if b == [] {
      assert a + b == a;
    } else {
      var b' := b[..|b| - 1];
      assert (a + b)[..|a + b| - 1] == a + b';
      RunFromAppend(st, a, b');
    }
  }

  function Shift(a: seq<nat>, d: nat): (r: seq<nat>)
    ensures |r| == |a|
  {
    seq(|a|, i requires 0 <= i < |a| => a[i] + d)
  }

  /** Scanning from a state just after an unquoted separator is scanning from
      the start, with offsets moved along. */
  lemma {:induction false} RunFromFresh(argv: seq<nat>, out: seq<char>, xs: seq<char>)
    ensures var r := RunFrom(ScanState(true, false, argv, out), xs);
            var f := Scan(xs);
            r == ScanState(f.ws, f.quote, argv + Shift(f.argv, |out|), out + f.out)
    decreases |xs|
  {
    if xs == [] {
      assert Shift([], |out|) == [];
    } else {
      var xs' := xs[..|xs| - 1];
      RunFromFresh(argv, out, xs');
      var f' := Scan(xs');
      assert |f'.out| == |xs'|;
      var c := xs[|xs| - 1];
      if Ordinary(c) && f'.ws {
        assert Shift(f'.argv + [|f'.out|], |out|) == Shift(f'.argv, |out|) + [|out| + |f'.out|];
      }
    }
  }

  /** A plain word alone: one word at offset 0, the buffer unchanged. */
  lemma {:induction false} ScanPlain(w: seq<char>)
    requires Plain(w)
    ensures Scan(w) == ScanState(false, false, [0], w)
    decreases |w|
  {
    if |w| == 1 {
      assert [] + [w[0]] == w;
      ScanSnoc([], w[0]);
    } else {
      var w' := w[..|w| - 1];
      ScanPlain(w');
      assert w' + [w[|w| - 1]] == w;
      ScanSnoc(w', w[|w| - 1]);
    }
  }

  /** Inside an open quote with a word started, characters other than `"` are
      kept and start nothing. */
  lemma {:induction false} RunFromQuoted(argv: seq<nat>, out: seq<char>, xs: seq<char>)
    requires '"' !in xs
    ensures RunFrom(ScanState(false, true, argv, out), xs) == ScanState(false, true, argv, out + xs)
    decreases |xs|
  {
    if xs != [] {
      RunFromQuoted(argv, out, xs[..|xs| - 1]);
      assert out + xs[..|xs| - 1] + [xs[|xs| - 1]] == out + xs;
    }
  }

  lemma {:induction false} TokenAtWhole(w: seq<char>, rest: seq<char>)
    requires '\0' !in w
    ensures TokenAt(w + ['\0'] + rest, 0) == w
    ensures TokenAt(w, 0) == w
    decreases |w|
  {
    if w != [] {
      TokenAtShift([w[0]], w[1..] + ['\0'] + rest, 0);
      assert w + ['\0'] + rest == [w[0]] + (w[1..] + ['\0'] + rest);
      TokenAtShift([w[0]], w[1..], 0);
      assert w == [w[0]] + w[1..];
      TokenAtWhole(w[1..], rest);
    }
  }

  /** A token does not look before its start. */
  lemma {:induction false} TokenAtShift(a: seq<char>, b: seq<char>, k: nat)
    requires k <= |b|
    ensures TokenAt(a + b, |a| + k) == TokenAt(b, k)
    decreases |b| - k
  {
    if k < |b| {
      TokenAtShift(a, b, k + 1);
    }
  }

  /** A token that ends at a NUL does not look past it. */
  lemma {:induction false} TokenAtCut(a: seq<char>, b: seq<char>, k: nat)
    requires k <= |a|
    ensures TokenAt(a + ['\0'] + b, k) == TokenAt(a, k)
    decreases |a| - k
  {
    if k < |a| {
      TokenAtCut(a, b, k + 1);
    }
  }

  /** After a line that ends outside quotes, a space and a plain word add
      that word. */
  lemma JoinStep(j: seq<char>, w: seq<char>)
    requires !Scan(j).quote && Plain(w)
    ensures Scan(j + [' '] + w) == ScanState(false, false, Scan(j).argv + [|j| + 1], Scan(j).out + ['\0'] + w)
  {
    var st := Scan(j);
    ScanSnoc(j, ' ');
    RunFromAppend(Init, j + [' '], w);
    RunFromFresh(st.argv, st.out + ['\0'], w);
    ScanPlain(w);
    assert Shift([0], |st.out| + 1) == [|j| + 1];
  }

  lemma WordsSnoc(st: ScanState, w: seq<char>)
    requires StartsInside(st) && w != [] && '\0' !in w
    ensures var r := ScanState(false, false, st.argv + [|st.out| + 1], st.out + ['\0'] + w);
            StartsInside(r) && Words(r) == Words(st) + [w]
  {
    var r := ScanState(false, false, st.argv + [|st.out| + 1], st.out + ['\0'] + w);
    assert StartsInside(r);
    forall i | 0 <= i < |r.argv|
      ensures Words(r)[i] == (Words(st) + [w])[i]
    {
      if i < |st.argv| {
        TokenAtCut(st.out, w, st.argv[i]);
      } else {
        TokenAtShift(st.out + ['\0'], w, 0);
        TokenAtWhole(w, []);
      }
    }
  }

  /** Joining plain words with single spaces and scanning the result gives the
      words back, with the number of words as `argc`. */
  lemma {:induction false} JoinRoundTrip(ws: seq<seq<char>>)
    requires forall i :: 0 <= i < |ws| ==> Plain(ws[i])
    ensures !Scan(JoinWords(ws)).quote
    ensures StartsInside(Scan(JoinWords(ws)))
    ensures Words(Scan(JoinWords(ws))) == ws
    decreases |ws|
  {
    if ws == [] {
      return;
    }
    if |ws| == 1 {
      ScanPlain(ws[0]);
      TokenAtWhole(ws[0], []);
      return;
    }
    var front := ws[..|ws| - 1];
    var w := ws[|ws| - 1];
    JoinRoundTrip(front);
    var j := JoinWords(front);
    assert JoinWords(ws) == j + [' '] + w;
    JoinStep(j, w);
    assert |Scan(j).out| == |j|;
    WordsSnoc(Scan(j), w);
    assert front + [w] == ws;
  }

  /** Scanning an opening quote and a word without quotes: one word start,
      the characters kept, still inside the quotes. */
  lemma QuotedPrefix(w: seq<char>)
    requires w != [] && Ordinary(w[0]) && '"' !in w
    ensures Scan(['"'] + w) == ScanState(false, true, [1], ['"'] + w)
  {
    QuotedStart(w[0]);
    RunFromAppend(Init, ['"', w[0]], w[1..]);
    RunFromQuoted([1], ['"', w[0]], w[1..]);
    assert ['"', w[0]] + w[1..] == ['"'] + w;
  }

  /** An opening quote and an ordinary character: a word starts at 1. */
  lemma QuotedStart(c: char)
    requires Ordinary(c)
    ensures Scan(['"', c]) == ScanState(false, true, [1], ['"', c])
  {
    ScanSnoc([], '"');
    assert [] + ['"'] == ['"'];
    assert Scan(['"']) == ScanState(true, true, [], ['"']);
    ScanSnoc(['"'], c);
    assert ['"'] + [c] == ['"', c];
  }

  /** A word in double quotes keeps its separators and loses both quotes. */
  lemma QuotedRoundTrip(w: seq<char>)
    requires w != [] && Ordinary(w[0])
    requires '"' !in w && '\0' !in w
    ensures var st := Scan(['"'] + w + ['"']);
            StartsInside(st) && Words(st) == [w]
  {
    QuotedPrefix(w);
    ScanSnoc(['"'] + w, '"');
    var out := ['"'] + w + ['\0'];
    assert Scan(['"'] + w + ['"']) == ScanState(false, false, [1], out);
    assert out == ['"'] + (w + ['\0']);
    TokenAtShift(['"'], w + ['\0'], 0);
    TokenAtWhole(w, []);
    assert w + ['\0'] + [] == w + ['\0'];
    assert TokenAt(out, 1) == w;
  }

  lemma {:induction false} FirstWordStart(line: seq<char>, k: nat)
    requires k < |line| && Ordinary(line[k])
    ensures exists j :: 0 <= j <= k && WordStart(line, j)
    decreases k
  {
    if AfterSeparator(line, k) {
      assert WordStart(line, k);
    } else {
      var m :| 0 <= m < k && Ordinary(line[m]) && !(exists b :: m < b < k && OpenBlank(line, b));
      FirstWordStart(line, m);
    }
  }

  /** A line has no words exactly when it holds only separators and quotes. */
  lemma NoWordsIffNoOrdinary(line: seq<char>)
    ensures |Scan(line).argv| == 0 <==> forall k :: 0 <= k < |line| ==> !Ordinary(line[k])
  {
    ScanStarts(line);
    if exists k :: 0 <= k < |line| && Ordinary(line[k]) {
      var k :| 0 <= k < |line| && Ordinary(line[k]);
      FirstWordStart(line, k);
      var j :| 0 <= j <= k && WordStart(line, j);
      assert j in Scan(line).argv;
    }
    if |Scan(line).argv| > 0 {
      assert WordStart(line, Scan(line).argv[0]);
      assert Ordinary(line[Scan(line).argv[0]]);
    }
  }

  /** A line of one blank is not empty, so it is handed to the scanner, and
      it yields no words: `argc` is 0. */
  lemma BlankLineHasNoWords()
    ensures |[' ']| > 0 && |Scan([' ']).argv| == 0
  {
    NoWordsIffNoOrdinary([' ']);
  }

  /** The source's `argv` has ten slots and nothing stops an eleventh word. */
  lemma ElevenWordsOverflow()
    ensures |Scan(JoinWords(["a", "b", "c", "d", "e", "f", "g", "h", "i", "j", "k"])).argv| == 11 > MaxArgs
  {
    var ws := ["a", "b", "c", "d", "e", "f", "g", "h", "i", "j", "k"];
    JoinRoundTrip(ws);
  }
}
