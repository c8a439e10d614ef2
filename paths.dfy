/** Directory arithmetic on device paths: the `cd ..` step of the session's
    `cd` command, the trailing-separator rule, the rewriting of `/` to `\`
    before a directory is committed, and `ftp::cd`, which resolves a
    relative path segment by segment. */
module Paths {
  import opened Common

  /** The largest index below `hi` holding a separator, or -1. */
  function LastSepBelow(d: seq<char>, hi: int): (r: int)
    requires hi <= |d|
    ensures -1 <= r < hi || (hi <= 0 && r == -1)
    ensures r >= 0 ==> IsSep(d[r])
    ensures forall j :: r < j < hi ==> !IsSep(d[j])
    decreases hi
  {
    if hi <= 0 then -1 else if IsSep(d[hi - 1]) then hi - 1 else LastSepBelow(d, hi - 1)
  }

  lemma {:induction false} LastSepBelowIs(d: seq<char>, hi: int, q: int)
    requires 0 <= q < hi <= |d| && IsSep(d[q])
    requires forall j :: q < j < hi ==> !IsSep(d[j])
    ensures LastSepBelow(d, hi) == q
    decreases hi
  {
    if hi - 1 != q {
      LastSepBelowIs(d, hi - 1, q);
    }
  }

  // ---------------------------------------------------------------------------
  // `cd ..` in the session

  /** The directory `cd ..` moves to from `d`: `d` cut after its last
      separator that lies before the final character, unless that would leave
      fewer than three characters (the drive and its root separator), in which
      case the first three characters of `d`. */
  function Parent(d: seq<char>): seq<char>
    requires |d| >= 1
  {
    var q := LastSepBelow(d, |d| - 1);
    if q >= 2 then d[..q + 1] else d[..Min(3, |d|)]
  }

  /** The source's steps: the last character is overwritten with the
      terminator, a pointer walks back to a separator or to the start, the
      string is cut after it, and a result shorter than three characters is
      replaced by the first three characters of the directory. */
  method CdUp(d: seq<char>) returns (f1: seq<char>)
    requires |d| >= 1 && '\0' !in d
    ensures f1 == Parent(d)
  {
    var buf := d[..|d| - 1] + ['\0'];
    var p := |d| - 1;
    while p > 0 && buf[p] != '/' && buf[p] != '\\'
      invariant 0 <= p <= |d| - 1
      invariant forall j :: p < j < |d| - 1 ==> !IsSep(d[j])
      decreases p
    {
      p := p - 1;
    }
    f1 := UntilNul(buf[..p + 1]);
    if p < |d| - 1 {
      assert buf[..p + 1] == d[..p + 1];
    }
    if |f1| < 3 {
      f1 := d[..Min(3, |d|)];
    }
  }

  /** `cd ..` never adds characters, keeps at least the first three, and
      returns a prefix of the directory; a result longer than three
      characters ends with a separator. */
  lemma ParentShape(d: seq<char>)
    requires |d| >= 1
    ensures var r := Parent(d);
            Min(3, |d|) <= |r| <= |d| && r == d[..|r|]
            && (|r| > 3 ==> EndsWithSep(r))
            && (|d| > 3 ==> |r| < |d|)
  {
  }

  /** Entering a subdirectory and then `cd ..` gives back the directory. */
  lemma ParentOfChild(dir: seq<char>, seg: seq<char>, sep: char)
    requires |dir| >= 3 && EndsWithSep(dir) && IsSep(sep)
    requires seg != [] && forall k :: 0 <= k < |seg| ==> !IsSep(seg[k])
    ensures Parent(dir + seg + [sep]) == dir
    ensures Parent(dir + seg) == dir
  {
    var d := dir + seg + [sep];
    assert forall j :: |dir| <= j < |d| - 1 ==> d[j] == seg[j - |dir|];
    LastSepBelowIs(d, |d| - 1, |dir| - 1);
    assert d[..|dir|] == dir;
    var e := dir + seg;
    assert forall j :: |dir| <= j < |e| - 1 ==> e[j] == seg[j - |dir|];
    LastSepBelowIs(e, |e| - 1, |dir| - 1);
    assert e[..|dir|] == dir;
  }

  /** At a drive's root (three characters or fewer) `cd ..` stays put. */
  lemma ParentAtRoot(d: seq<char>)
    requires 1 <= |d| <= 3
    ensures Parent(d) == d
  {
  }

  // ---------------------------------------------------------------------------
  // Committing a directory

  /** A path with a separator appended unless it already ends with one. */
  function WithTrailing(f: seq<char>, sep: char): (r: seq<char>)
    requires f != [] && IsSep(sep)
  {
    if IsSep(f[|f| - 1]) then f else f + [sep]
  }

  lemma WithTrailingMeaning(f: seq<char>, sep: char)
    requires f != [] && IsSep(sep)
    ensures EndsWithSep(WithTrailing(f, sep))
    ensures WithTrailing(f, sep)[..|f|] == f
    ensures |WithTrailing(f, sep)| == |f| + (if EndsWithSep(f) then 0 else 1)
    ensures WithTrailing(WithTrailing(f, sep), sep) == WithTrailing(f, sep)
  {
  }

  /** The directory `cd <arg>` tries: relative to the current directory
      unless `arg` starts with a separator or has a drive colon in its second
      position, with a `\` added when it does not end with a separator. */
  function CdTarget(psionDir: seq<char>, arg: seq<char>): (f1: seq<char>)
    requires psionDir != [] && arg != []
  {
    var f := if !IsSep(arg[0]) && (|arg| < 2 || arg[1] != ':') then psionDir + arg else arg;
    WithTrailing(f, '\\')
  }

  lemma CdTargetMeaning(psionDir: seq<char>, arg: seq<char>)
    requires psionDir != [] && arg != []
    ensures EndsWithSep(CdTarget(psionDir, arg))
    ensures IsSep(arg[0]) || (|arg| >= 2 && arg[1] == ':') ==> CdTarget(psionDir, arg)[..|arg|] == arg
    ensures !IsSep(arg[0]) && (|arg| < 2 || arg[1] != ':') ==>
      CdTarget(psionDir, arg)[..|psionDir| + |arg|] == psionDir + arg
  {
    var f := if !IsSep(arg[0]) && (|arg| < 2 || arg[1] != ':') then psionDir + arg else arg;
    WithTrailingMeaning(f, '\\');
  }

  function Backslashed(c: char): char {
    if c == '/' then '\\' else c
  }

  /** Every `/` in the buffer becomes `\`. */
  method MapSlashes(f1: array<char>)
    modifies f1
    ensures forall k :: 0 <= k < f1.Length ==> f1[k] == Backslashed(old(f1[k]))
    ensures forall k :: 0 <= k < f1.Length ==> f1[k] != '/'
  {
    var p := 0;
    while p < f1.Length
      invariant 0 <= p <= f1.Length
      invariant forall k :: 0 <= k < p ==> f1[k] == Backslashed(old(f1[k]))
      invariant forall k :: p <= k < f1.Length ==> f1[k] == old(f1[k])
    {
      if f1[p] == '/' {
        f1[p] := '\\';
      }
      p := p + 1;
    }
  }

  function BackslashedAll(s: seq<char>): (r: seq<char>)
    ensures |r| == |s|
  {
    seq(|s|, k requires 0 <= k < |s| => Backslashed(s[k]))
  }

  /** The rewriting keeps separators where they are, leaves nothing else
      changed, and is idempotent. */
  lemma BackslashedMeaning(s: seq<char>)
    ensures forall k :: 0 <= k < |s| ==> (IsSep(BackslashedAll(s)[k]) <==> IsSep(s[k]))
    ensures forall k :: 0 <= k < |s| && !IsSep(s[k]) ==> BackslashedAll(s)[k] == s[k]
    ensures '/' !in BackslashedAll(s)
    ensures BackslashedAll(BackslashedAll(s)) == BackslashedAll(s)
  {
  }

  // ---------------------------------------------------------------------------
  // `ftp::cd`: resolving a path against a starting directory

  /** `ftp::cd`'s absolute test: a leading separator or a drive colon. */
  predicate IsAbsolute(cdto: seq<char>) {
    |cdto| > 0 && (IsSep(cdto[0]) || (|cdto| >= 2 && cdto[1] == ':'))
  }

  /** `..` applied to `d`: cut after the last separator before the final
      character; with none, `d` is unchanged. */
  function Up(d: seq<char>): seq<char> {
    var i := LastSepBelow(d, |d| - 1);
    if |d| >= 2 && i >= 0 then d[..i + 1] else d
  }

  /** Any other segment is appended with a `/`. */
  function Down(d: seq<char>, bit: seq<char>): seq<char> {
    d + bit + ['/']
  }

  function Apply(d: seq<char>, bit: seq<char>): seq<char> {
    if bit == ['.', '.'] then Up(d) else Down(d, bit)
  }

  /** The length of the segment at the front of `rest`. */
  function SegLen(rest: seq<char>): (j: nat)
    ensures j <= |rest|
    ensures forall k :: 0 <= k < j ==> !IsSep(rest[k])
    ensures j < |rest| ==> IsSep(rest[j])
  {
    if rest == [] || IsSep(rest[0]) then 0 else 1 + SegLen(rest[1..])
  }

  /** What is left after the front segment and its separator. */
  function AfterSeg(rest: seq<char>): (r: seq<char>)
    requires rest != []
    ensures |r| < |rest|
  {
    var j := SegLen(rest);
    if j < |rest| then rest[j + 1..] else rest[j..]
  }

  /** Segment-by-segment resolution of `rest` from `d`. */
  function Walk(d: seq<char>, rest: seq<char>): seq<char>
    decreases |rest|
  {
    if rest == [] then d else Walk(Apply(d, rest[..SegLen(rest)]), AfterSeg(rest))
  }

  /** The result of `ftp::cd`, or None when `cdto` is empty and the
      destination is not written. */
  function Resolve(source: seq<char>, cdto: seq<char>): Option<seq<char>> {
    if cdto == [] then None
    else if IsAbsolute(cdto) then Some(WithTrailing(cdto, '/'))
    else Some(Walk(source, cdto))
  }

  /** The `..` loop: `i` walks down from two before the end. */
  method CutUp(start: seq<char>) returns (dest: seq<char>)
    ensures dest == Up(start)
  {
    dest := start;
    var i := |dest| - 2;
    while i >= 0
      invariant -1 <= i <= |dest| - 2 || (i == |dest| - 2 && i < -1)
      invariant forall j :: i < j < |dest| - 1 ==> !IsSep(dest[j])
      decreases i
    {
      if dest[i] == '/' || dest[i] == '\\' {
        dest := dest[..i + 1];
        assert dest == Up(start);
        return;
      }
      i := i - 1;
    }
  }

  /** `ftp::cd` with its loops: the absolute case copies `cdto`, otherwise
      each segment is cut out and applied to the running directory. */
  method CdResolve(source: seq<char>, cdto: seq<char>) returns (dest: Option<seq<char>>)
    ensures dest == Resolve(source, cdto)
  {
    if cdto == [] {
      return None;
    }
    if cdto[0] == '/' || cdto[0] == '\\' || (|cdto| >= 2 && cdto[1] == ':') {
      var d := cdto;
      var cc := d[|d| - 1];
      if cc != '/' && cc != '\\' {
        d := d + ['/'];
      }
      return Some(d);
    }
    var d := WalkLoop(source, cdto);
    return Some(d);
  }

  /** The relative case: the segments applied one at a time. */
  method WalkLoop(source: seq<char>, cdto: seq<char>) returns (start: seq<char>)
    ensures start == Walk(source, cdto)
  {
    start := source;
    var pos := 0;
    while pos < |cdto|
      invariant 0 <= pos <= |cdto|
      invariant Walk(start, cdto[pos..]) == Walk(source, cdto)
      decreases |cdto| - pos
    {
      start, pos := Advance(start, cdto, pos);
    }
  }

  /** One turn of the segment loop: cut out the segment at `pos`, step past
      it and its separator, and apply it to the running directory. */
  method Advance(start: seq<char>, cdto: seq<char>, pos: nat) returns (dest: seq<char>, next: nat)
    requires pos < |cdto|
    ensures pos < next <= |cdto|
    ensures Walk(dest, cdto[next..]) == Walk(start, cdto[pos..])
  {
    var j := SegmentAt(cdto, pos);
    var bit := cdto[pos..pos + j];
    next := pos + j;
    if next < |cdto| {
      next := next + 1;
    }
    dest := ApplyStep(start, bit);
    WalkAdvance(start, dest, cdto, pos, j, next);
  }

  /** One turn of the segment loop: the segment at `pos` is applied and the
      walk goes on after it and its separator. */
  lemma WalkAdvance(d: seq<char>, dest: seq<char>, cdto: seq<char>, pos: nat, j: nat, next: nat)
    requires pos < |cdto| && pos + j <= |cdto| && j == SegLen(cdto[pos..])
    requires next == (if pos + j < |cdto| then pos + j + 1 else pos + j)
    requires dest == Apply(d, cdto[pos..pos + j])
    ensures Walk(d, cdto[pos..]) == Walk(dest, cdto[next..])
  {
    var rest := cdto[pos..];
    assert rest[..j] == cdto[pos..pos + j];
    assert AfterSeg(rest) == cdto[next..] by {
      if pos + j < |cdto| {
        assert rest[j + 1..] == cdto[pos + j + 1..];
      } else {
        assert rest[j..] == cdto[pos + j..];
      }
    }
    WalkStep(d, rest);
  }

  /** The inner loop copying one segment: its length. */
  method SegmentAt(cdto: seq<char>, pos: nat) returns (j: nat)
    requires pos < |cdto|
    ensures pos + j <= |cdto| && j == SegLen(cdto[pos..])
  {
    j := 0;
    while pos + j < |cdto| && cdto[pos + j] != '/' && cdto[pos + j] != '\\'
      invariant pos + j <= |cdto|
      invariant forall k :: pos <= k < pos + j ==> !IsSep(cdto[k])
      decreases |cdto| - pos - j
    {
      j := j + 1;
    }
    SegLenIs(cdto[pos..], j);
  }

  method ApplyStep(start: seq<char>, bit: seq<char>) returns (dest: seq<char>)
    ensures dest == Apply(start, bit)
  {
    if bit == ['.', '.'] {
      dest := CutUp(start);
    } else {
      dest := start + bit + ['/'];
    }
  }

  lemma WalkStep(d: seq<char>, rest: seq<char>)
    requires rest != []
    ensures Walk(d, rest) == Walk(Apply(d, rest[..SegLen(rest)]), AfterSeg(rest))
  {
  }

  lemma SegLenIs(rest: seq<char>, j: nat)
    requires j <= |rest|
    requires forall k :: 0 <= k < j ==> !IsSep(rest[k])
    requires j == |rest| || IsSep(rest[j])
    ensures SegLen(rest) == j
  {
  }

  /** `..` right after descending into a segment returns to the start. */
  lemma UpDown(d: seq<char>, bit: seq<char>)
    requires EndsWithSep(d)
    requires forall k :: 0 <= k < |bit| ==> !IsSep(bit[k])
    ensures Up(Down(d, bit)) == d
  {
    var e := Down(d, bit);
    assert forall j :: |d| <= j < |e| - 1 ==> e[j] == bit[j - |d|];
    LastSepBelowIs(e, |e| - 1, |d| - 1);
    assert e[..|d|] == d;
  }

  /** Resolving `seg/..` from a directory that ends with a separator leaves it
      unchanged. */
  lemma WalkDownUp(d: seq<char>, seg: seq<char>)
    requires EndsWithSep(d)
    requires seg != ['.', '.'] && forall k :: 0 <= k < |seg| ==> !IsSep(seg[k])
    ensures Walk(d, seg + ['/', '.', '.']) == d
  {
    var rest := seg + ['/', '.', '.'];
    SegLenIs(rest, |seg|);
    assert rest[..|seg|] == seg;
    assert AfterSeg(rest) == ['.', '.'];
    SegLenIs(['.', '.'], 2);
    assert ['.', '.'][..2] == ['.', '.'];
    UpDown(d, seg);
  }

  /** A resolved directory ends with a separator whenever the start does. */
  lemma {:induction false} WalkKeepsTrailing(d: seq<char>, rest: seq<char>)
    requires EndsWithSep(d)
    ensures EndsWithSep(Walk(d, rest))
    decreases |rest|
  {
    if rest != [] {
      var bit := rest[..SegLen(rest)];
      var d' := Apply(d, bit);
      assert EndsWithSep(d');
      WalkKeepsTrailing(d', AfterSeg(rest));
    }
  }

  lemma ResolveMeaning(source: seq<char>, cdto: seq<char>)
    ensures Resolve(source, cdto).None? <==> cdto == []
    ensures IsAbsolute(cdto) ==> Resolve(source, cdto) == Some(WithTrailing(cdto, '/'))
    ensures cdto != [] && (IsAbsolute(cdto) || EndsWithSep(source)) ==> EndsWithSep(Resolve(source, cdto).value)
  {
    if cdto != [] {
      if IsAbsolute(cdto) {
        WithTrailingMeaning(cdto, '/');
      } else if EndsWithSep(source) {
        WalkKeepsTrailing(source, cdto);
      }
    }
  }
}
