/** The wildcard matcher `Wildmat`/`Star` that `mget` and `mput` use to
    select file names.

    Positions stand for the C pointers: `i` walks the candidate `s`, `j` the
    pattern `p`, and position `|s|` (or `|p|`) is where the terminating NUL
    sits. Wherever the C code would read past a terminator the model fails
    closed and reports no match. */
module Glob {
  import opened Common

  // ---------------------------------------------------------------------------
  // The matcher as written

  /** Outcome of the scan of a bracket class: whether the candidate character
      was matched and where the closing `]` is, or no `]` before the end. */
  datatype ClassScan = Closed(matched: bool, close: nat) | Unterminated

  /** The inner loop of the `[` case: items start at `k`; `last` is the
      previous item's character (NUL before the first item), which is the low
      end of a `-` range. */
  function ScanClass(c: char, p: seq<char>, k: nat, last: char, matched: bool): (r: ClassScan)
    ensures r.Closed? ==> k <= r.close < |p| && p[r.close] == ']'
    decreases |p| - k
  {
    if k >= |p| then Unterminated
    else if p[k] == ']' then Closed(matched, k)
    else if p[k] == '-' then
      // the range's high end is the next character, whatever it is;
      // when that is the terminator the loop steps past it
      if k + 1 == |p| then Unterminated
      else ScanClass(c, p, k + 2, p[k + 1], matched || (last <= c && c <= p[k + 1]))
    else ScanClass(c, p, k + 1, p[k], matched || c == p[k])
  }

  /** Index of the first class item after `[` at `j`, skipping a `^`. */
  function ClassStart(p: seq<char>, j: nat): nat {
    if j + 1 < |p| && p[j + 1] == '^' then j + 2 else j + 1
  }

  predicate Reversed(p: seq<char>, j: nat) {
    j + 1 < |p| && p[j + 1] == '^'
  }

  /** `Wildmat(s + i, p + j)`. */
  function Match(s: seq<char>, i: nat, p: seq<char>, j: nat): bool
    requires i <= |s| && j <= |p|
    decreases |p| - j, 0, 0
  {
    if j == |p| then i == |s|
    else if p[j] == '\\' then
      // literal match with the following character; a trailing `\` fails
      j + 1 < |p| && i < |s| && s[i] == p[j + 1] && Match(s, i + 1, p, j + 2)
    else if p[j] == '?' then
      i < |s| && Match(s, i + 1, p, j + 1)
    else if p[j] == '*' then
      j + 1 == |p| || StarFrom(s, i, p, j + 1)
    else if p[j] == '[' then
      i < |s| &&
      match ScanClass(s[i], p, ClassStart(p, j), '\0', false)
      case Unterminated => false
      case Closed(m, close) => m != Reversed(p, j) && Match(s, i + 1, p, close + 1)
    else
      i < |s| && s[i] == p[j] && Match(s, i + 1, p, j + 1)
  }

  /** `Star(s + i, p + j)`: tries the rest of the pattern at `i`, `i + 1`, ...,
      and gives up when the next candidate position is the terminator. */
  function StarFrom(s: seq<char>, i: nat, p: seq<char>, j: nat): bool
    requires i <= |s| && j < |p|
    decreases |p| - j, 1, |s| - i
  {
    Match(s, i, p, j) || (i + 1 < |s| && StarFrom(s, i + 1, p, j))
  }

  /** Whether file name `name` matches `pattern`. */
  function Matches(name: seq<char>, pattern: seq<char>): bool {
    Match(name, 0, pattern, 0)
  }

  /** The C `Wildmat`: a loop over the pattern that hands the rest of the
      pattern to `Star` at an interior `*`. */
  method Wildmat(s: seq<char>, i0: nat, p: seq<char>, j0: nat) returns (r: bool)
    requires i0 <= |s| && j0 <= |p|
    ensures r == Match(s, i0, p, j0)
    decreases |p| - j0, 0
  {
    var i: nat, j: nat := i0, j0;
    while j < |p|
      invariant i <= |s| && j0 <= j <= |p|
      invariant Match(s, i, p, j) == Match(s, i0, p, j0)
      decreases |p| - j
    {
      var pc := p[j];
      if pc == '\\' {
        if j + 1 == |p| || i == |s| || s[i] != p[j + 1] {
          return false;
        }
        i, j := i + 1, j + 2;
      } else if pc == '?' {
        if i == |s| {
          return false;
        }
        i, j := i + 1, j + 1;
      } else if pc == '*' {
        if j + 1 == |p| {
          return true;
        }
        r := Star(s, i, p, j + 1);
        return;
      } else if pc == '[' {
        if i == |s| {
          return false;
        }
        var reverse := j + 1 < |p| && p[j + 1] == '^';
        var k := if reverse then j + 2 else j + 1;
        var last, matched := '\0', false;
        while k < |p| && p[k] != ']'
          invariant i < |s| && j < k <= |p|
          invariant ScanClass(s[i], p, k, last, matched) == ScanClass(s[i], p, ClassStart(p, j), '\0', false)
          decreases |p| - k
        {
          if p[k] == '-' {
            if k + 1 == |p| {
              return false;
            }
            if last <= s[i] && s[i] <= p[k + 1] {
              matched := true;
            }
            last, k := p[k + 1], k + 2;
          } else {
            if s[i] == p[k] {
              matched := true;
            }
            last, k := p[k], k + 1;
          }
        }
        if k == |p| || matched == reverse {
          return false;
        }
        i, j := i + 1, k + 1;
      } else {
        if i == |s| || s[i] != pc {
          return false;
        }
        i, j := i + 1, j + 1;
      }
    }
    r := i == |s|;
  }

  /** The C `Star`. */
  method Star(s: seq<char>, i0: nat, p: seq<char>, j: nat) returns (r: bool)
    requires i0 <= |s| && j < |p|
    ensures r == StarFrom(s, i0, p, j)
    decreases |p| - j, 1
  {
    var i: nat := i0;
    while true
      invariant i0 <= i <= |s|
      invariant StarFrom(s, i, p, j) == StarFrom(s, i0, p, j)
      decreases |s| - i
    {
      var m := Wildmat(s, i, p, j);
      if m {
        return true;
      }
      if i + 1 >= |s| {
        return false;
      }
      i := i + 1;
    }
  }

  // ---------------------------------------------------------------------------
  // What a pattern means: a list of tokens and the set of names they accept

  datatype ClassItem = Single(c: char) | Range(lo: char, hi: char)

  datatype Token =
    | Literal(c: char)                              // a plain or `\`-escaped character
    | AnyOne                                        // `?`
    | AnyRun                                        // `*`
    | Class(negated: bool, items: seq<ClassItem>)   // `[...]` or `[^...]`

  predicate ItemAccepts(item: ClassItem, c: char) {
    match item
    case Single(x) => c == x
    case Range(lo, hi) => lo <= c <= hi
  }

  predicate TokenAccepts(t: Token, c: char) {
    match t
    case Literal(x) => c == x
    case AnyOne => true
    case AnyRun => true
    case Class(negated, items) => (exists q :: 0 <= q < |items| && ItemAccepts(items[q], c)) != negated
  }

  /** The names a token list accepts: a `*` takes any run of characters, every
      other token exactly one character that it accepts. */
  predicate Lang(ts: seq<Token>, w: seq<char>)
    decreases |ts|
  {
    if ts == [] then w == []
    else if ts[0].AnyRun? then exists k :: 0 <= k <= |w| && Lang(ts[1..], w[k..])
    else w != [] && TokenAccepts(ts[0], w[0]) && Lang(ts[1..], w[1..])
  }

  datatype ItemsParse = Items(items: seq<ClassItem>, close: nat) | NoClose

  /** The items of a bracket class from `k` up to its `]`: a `-` makes a range
      from the previous item's character (NUL at the start) to the next one. */
  function ParseItems(p: seq<char>, k: nat, last: char): (r: ItemsParse)
    ensures r.Items? ==> k <= r.close < |p| && p[r.close] == ']'
    decreases |p| - k
  {
    if k >= |p| then NoClose
    else if p[k] == ']' then Items([], k)
    else if p[k] == '-' then
      if k + 1 == |p| then NoClose
      else match ParseItems(p, k + 2, p[k + 1])
        case NoClose => NoClose
        case Items(rest, close) => Items([Range(last, p[k + 1])] + rest, close)
    else match ParseItems(p, k + 1, p[k])
      case NoClose => NoClose
      case Items(rest, close) => Items([Single(p[k])] + rest, close)
  }

  function Prepend(t: Token, o: Option<seq<Token>>): Option<seq<Token>> {
    match o
    case None => None
    case Some(ts) => Some([t] + ts)
  }

  /** The tokens of `p` from `j`; `None` for a malformed pattern (a trailing
      `\`, or a class without its `]`). */
  function ParseFrom(p: seq<char>, j: nat): Option<seq<Token>>
    decreases |p| - j
  {
    if j >= |p| then Some([])
    else if p[j] == '\\' then
      if j + 1 == |p| then None else Prepend(Literal(p[j + 1]), ParseFrom(p, j + 2))
    else if p[j] == '?' then Prepend(AnyOne, ParseFrom(p, j + 1))
    else if p[j] == '*' then Prepend(AnyRun, ParseFrom(p, j + 1))
    else if p[j] == '[' then
      match ParseItems(p, ClassStart(p, j), '\0')
      case NoClose => None
      case Items(items, close) => Prepend(Class(Reversed(p, j), items), ParseFrom(p, close + 1))
    else Prepend(Literal(p[j]), ParseFrom(p, j + 1))
  }

  /** The reference meaning of a glob: well formed, and its tokens accept the name. */
  predicate Glob(name: seq<char>, pattern: seq<char>) {
    ParseFrom(pattern, 0).Some? && Lang(ParseFrom(pattern, 0).value, name)
  }

  // ---------------------------------------------------------------------------
  // The matcher computes the meaning

  /** The class scan reports the `]` the item parser finds and matches exactly
      when some item accepts the character. */
  lemma {:induction false} ScanClassMeaning(c: char, p: seq<char>, k: nat, last: char, matched: bool)
    ensures ParseItems(p, k, last).NoClose? <==> ScanClass(c, p, k, last, matched).Unterminated?
    ensures ParseItems(p, k, last).Items? ==>
      var items := ParseItems(p, k, last).items;
      ScanClass(c, p, k, last, matched) ==
        Closed(matched || exists q :: 0 <= q < |items| && ItemAccepts(items[q], c), ParseItems(p, k, last).close)
    decreases |p| - k
  {
    if k >= |p| || p[k] == ']' {
    } else if p[k] == '-' {
      if k + 1 < |p| {
        var m' := matched || (last <= c && c <= p[k + 1]);
        ScanClassMeaning(c, p, k + 2, p[k + 1], m');
        var r := ParseItems(p, k + 2, p[k + 1]);
        if r.Items? {
          var items := [Range(last, p[k + 1])] + r.items;
          assert items[0] == Range(last, p[k + 1]);
          assert forall q :: 0 <= q < |r.items| ==> items[q + 1] == r.items[q];
          assert (exists q :: 0 <= q < |items| && ItemAccepts(items[q], c)) ==
            ((last <= c && c <= p[k + 1]) || exists q :: 0 <= q < |r.items| && ItemAccepts(r.items[q], c)) by {
            if q :| 0 <= q < |items| && ItemAccepts(items[q], c) {
              if q > 0 {
                assert ItemAccepts(r.items[q - 1], c);
              }
            }
          }
        }
      }
    } else {
      var m' := matched || c == p[k];
      ScanClassMeaning(c, p, k + 1, p[k], m');
      var r := ParseItems(p, k + 1, p[k]);
      if r.Items? {
        var items := [Single(p[k])] + r.items;
        assert items[0] == Single(p[k]);
        assert forall q :: 0 <= q < |r.items| ==> items[q + 1] == r.items[q];
        assert (exists q :: 0 <= q < |items| && ItemAccepts(items[q], c)) ==
          (c == p[k] || exists q :: 0 <= q < |r.items| && ItemAccepts(r.items[q], c)) by {
          if q :| 0 <= q < |items| && ItemAccepts(items[q], c) {
            if q > 0 {
              assert ItemAccepts(r.items[q - 1], c);
            }
          }
        }
      }
    }
  }

  /** Only a run of `*` matches at the terminator, and then it matches at every
      earlier position too. */
  lemma {:induction false} MatchAtEndAnywhere(s: seq<char>, p: seq<char>, j: nat, k: nat)
    requires j < |p| && k <= |s|
    requires Match(s, |s|, p, j)
    ensures Match(s, k, p, j)
    decreases |p| - j
  {
    assert p[j] == '*';
    if j + 1 < |p| {
      assert Match(s, |s|, p, j + 1);
      MatchAtEndAnywhere(s, p, j + 1, k);
    }
  }

  /** `Star` succeeds exactly when the rest of the pattern matches at some
      position from `i` to the end of the candidate. The C loop never tries the
      terminator position after a longer candidate; by MatchAtEndAnywhere that
      loses no match. */
  lemma {:induction false} StarFromExists(s: seq<char>, i: nat, p: seq<char>, j: nat)
    requires i <= |s| && j < |p|
    ensures StarFrom(s, i, p, j) <==> exists k :: i <= k <= |s| && Match(s, k, p, j)
    decreases |s| - i
  {
    if i + 1 < |s| {
      StarFromExists(s, i + 1, p, j);
    }
    if StarFrom(s, i, p, j) {
      if Match(s, i, p, j) {
        assert i <= i <= |s| && Match(s, i, p, j);
      } else {
        var k :| i + 1 <= k <= |s| && Match(s, k, p, j);
        assert i <= k <= |s| && Match(s, k, p, j);
      }
    }
    if exists k :: i <= k <= |s| && Match(s, k, p, j) {
      var k :| i <= k <= |s| && Match(s, k, p, j);
      if k == i {
      } else if i + 1 < |s| {
        assert exists k' :: i + 1 <= k' <= |s| && Match(s, k', p, j);
        assert StarFrom(s, i + 1, p, j);
      } else {
        MatchAtEndAnywhere(s, p, j, i);
      }
      assert StarFrom(s, i, p, j);
    }
    assert StarFrom(s, i, p, j) ==> exists k :: i <= k <= |s| && Match(s, k, p, j);
    assert (exists k :: i <= k <= |s| && Match(s, k, p, j)) ==> StarFrom(s, i, p, j);
  }

  /** The matcher as written accepts exactly the names the pattern's tokens
      describe, and rejects every name for a malformed pattern. */
  lemma {:induction false} MatchMeaning(s: seq<char>, i: nat, p: seq<char>, j: nat)
    requires i <= |s| && j <= |p|
    ensures Match(s, i, p, j) == (ParseFrom(p, j).Some? && Lang(ParseFrom(p, j).value, s[i..]))
    decreases |p| - j, 1
  {
    var w := s[i..];
    if j == |p| {
    } else if p[j] == '\\' {
      if j + 1 < |p| {
        if i < |s| {
          MatchMeaning(s, i + 1, p, j + 2);
          assert w[1..] == s[i + 1..];
        }
        OneTokenStep(Literal(p[j + 1]), ParseFrom(p, j + 2), w);
      }
    } else if p[j] == '?' {
      if i < |s| {
        MatchMeaning(s, i + 1, p, j + 1);
        assert w[1..] == s[i + 1..];
      }
      OneTokenStep(AnyOne, ParseFrom(p, j + 1), w);
    } else if p[j] == '*' {
      StarMeaning(s, i, p, j);
    } else if p[j] == '[' {
      var neg := Reversed(p, j);
      var start := ClassStart(p, j);
      var r := ParseItems(p, start, '\0');
      if i < |s| {
        ScanClassMeaning(s[i], p, start, '\0', false);
        if r.Items? {
          MatchMeaning(s, i + 1, p, r.close + 1);
          assert w[1..] == s[i + 1..];
          OneTokenStep(Class(neg, r.items), ParseFrom(p, r.close + 1), w);
        }
      } else if r.Items? {
        OneTokenStep(Class(neg, r.items), ParseFrom(p, r.close + 1), w);
      }
    } else {
      if i < |s| {
        MatchMeaning(s, i + 1, p, j + 1);
        assert w[1..] == s[i + 1..];
      }
      OneTokenStep(Literal(p[j]), ParseFrom(p, j + 1), w);
    }
  }

  /** The `*` case of MatchMeaning. */
  lemma {:induction false} StarMeaning(s: seq<char>, i: nat, p: seq<char>, j: nat)
    requires i <= |s| && j < |p| && p[j] == '*'
    ensures Match(s, i, p, j) == (ParseFrom(p, j).Some? && Lang(ParseFrom(p, j).value, s[i..]))
    decreases |p| - j, 0
  {
    var w := s[i..];
    var rest := ParseFrom(p, j + 1);
    if j + 1 == |p| {
      assert [AnyRun][1..] == [];
      assert Lang([], w[|w|..]);
      return;
    }
    StarFromExists(s, i, p, j + 1);
    if rest.None? {
      if StarFrom(s, i, p, j + 1) {
        var k :| i <= k <= |s| && Match(s, k, p, j + 1);
        MatchMeaning(s, k, p, j + 1);
        assert false;
      }
      return;
    }
    var ts := [AnyRun] + rest.value;
    assert ts[1..] == rest.value;
    assert ParseFrom(p, j) == Some(ts);
    if Match(s, i, p, j) {
      var k :| i <= k <= |s| && Match(s, k, p, j + 1);
      MatchMeaning(s, k, p, j + 1);
      assert w[k - i..] == s[k..];
      assert Lang(ts[1..], w[k - i..]);
      assert Lang(ts, w);
    }
    if Lang(ts, w) {
      var k' :| 0 <= k' <= |w| && Lang(ts[1..], w[k'..]);
      assert w[k'..] == s[i + k'..];
      MatchMeaning(s, i + k', p, j + 1);
      assert Match(s, i + k', p, j + 1);
      assert Match(s, i, p, j);
    }
  }

  /** Unfolding `Lang` once for a single-character token in front. */
  lemma OneTokenStep(t: Token, rest: Option<seq<Token>>, w: seq<char>)
    requires !t.AnyRun?
    ensures Prepend(t, rest).Some? == rest.Some?
    ensures rest.Some? ==>
      (Lang(Prepend(t, rest).value, w) <==> w != [] && TokenAccepts(t, w[0]) && Lang(rest.value, w[1..]))
  {
    if rest.Some? {
      var ts := [t] + rest.value;
      assert ts[0] == t && ts[1..] == rest.value;
    }
  }

  /** The top-level statement: `Matches` is the glob meaning. */
  lemma MatchesIsGlob(name: seq<char>, pattern: seq<char>)
    ensures Matches(name, pattern) == Glob(name, pattern)
  {
    MatchMeaning(name, 0, pattern, 0);
    assert name[0..] == name;
  }

  /** A malformed pattern (trailing `\` or missing `]`) selects nothing. */
  lemma MalformedSelectsNothing(name: seq<char>, pattern: seq<char>)
    requires ParseFrom(pattern, 0).None?
    ensures !Matches(name, pattern)
  {
    MatchesIsGlob(name, pattern);
  }

  /** One-token patterns: a plain or escaped character matches only itself,
      `?` any single character, a lone `*` everything. */
  lemma SingleTokens(s: seq<char>, c: char)
    ensures c != '\\' && c != '?' && c != '*' && c != '[' ==> (Matches(s, [c]) <==> s == [c])
    ensures Matches(s, ['\\', c]) <==> s == [c]
    ensures Matches(s, "?") <==> |s| == 1
    ensures Matches(s, "*")
    ensures Matches(s, "") <==> s == []
  {
    if s == [] {
    } else {
      var p1, p2 := [c], ['\\', c];
      assert Match(s, 1, p1, 1) <==> |s| == 1;
      assert Match(s, 1, p2, 2) <==> |s| == 1;
      if |s| == 1 && s[0] == c {
        assert s == [c];
      }
    }
  }

  /** Stars: a suffix pattern, case-sensitivity, and the fail-closed case
      where the C `Star` would step past the candidate's terminator. */
  lemma StarExamples()
    ensures Matches("foo.txt", "*.txt")
    ensures !Matches("foo.txt", "*.TXT")
    ensures Matches("", "*")
    ensures !Matches("", "*x")
  {
  }

  /** `?` and bracketed classes, plain and negated. */
  lemma ClassExamples()
    ensures Matches("abc", "a?c")
    ensures Matches("abc", "a[bx]c")
    ensures !Matches("abd", "a[^bx]c")
  {
  }

  /** The empty pattern matches only the empty name; an escaped star
      matches only a star. */
  lemma EscapeExamples()
    ensures !Matches("a", "")
    ensures Matches("a*b", "a\\*b")
    ensures !Matches("axb", "a\\*b")
  {
  }
}
