/** The attribute word of the `sattr` command: a run of `+`, `-` and the
    letters `r`, `h`, `s`, `a` becomes a mask of attributes to set and a mask
    of attributes to clear. */
module Sattr {
  import opened Common

  /** The four attributes the word can name. */
  datatype Attr = ReadOnly | Hidden | System | Archive

  /** The attribute's bit in the device's attribute word. */
  function Bit(a: Attr): nat {
    match a
    case ReadOnly => 0x01
    case Hidden => 0x02
    case System => 0x04
    case Archive => 0x20
  }

  /** A mask as the number handed to the device: the sum (equally, the
      bitwise or) of its attributes' bits. */
  function MaskValue(s: set<Attr>): (v: nat)
    ensures v <= 0x27
  {
    (if ReadOnly in s then 0x01 else 0) + (if Hidden in s then 0x02 else 0)
    + (if System in s then 0x04 else 0) + (if Archive in s then 0x20 else 0)
  }

  lemma PlaceValues(r: nat, h: nat, y: nat, z: nat)
    requires r <= 1 && h <= 1 && y <= 1 && z <= 1
    ensures (r + 2 * h + 4 * y + 32 * z) % 2 == r
    ensures ((r + 2 * h + 4 * y + 32 * z) / 2) % 2 == h
    ensures ((r + 2 * h + 4 * y + 32 * z) / 4) % 2 == y
    ensures ((r + 2 * h + 4 * y + 32 * z) / 32) % 2 == z
  {
  }

  /** An attribute's bit shows in the number exactly when the attribute is
      in the mask, so different masks give different numbers. */
  lemma MaskValueMeaning(s: set<Attr>, t: set<Attr>)
    ensures forall a :: a in s <==> (MaskValue(s) / Bit(a)) % 2 == 1
    ensures MaskValue(s) == MaskValue(t) ==> s == t
  {
    var r := if ReadOnly in s then 1 else 0;
    var h := if Hidden in s then 1 else 0;
    var y := if System in s then 1 else 0;
    var z := if Archive in s then 1 else 0;
    assert MaskValue(s) == r + 2 * h + 4 * y + 32 * z;
    PlaceValues(r, h, y, z);
    var r' := if ReadOnly in t then 1 else 0;
    var h' := if Hidden in t then 1 else 0;
    var y' := if System in t then 1 else 0;
    var z' := if Archive in t then 1 else 0;
    assert MaskValue(t) == r' + 2 * h' + 4 * y' + 32 * z';
    PlaceValues(r', h', y', z');
    if MaskValue(s) == MaskValue(t) {
      assert r == r' && h == h' && y == y' && z == z';
      forall a
        ensures a in s <==> a in t
      {
        match a
        case ReadOnly =>
        case Hidden =>
        case System =>
        case Archive =>
      }
    }
  }

  function LetterAttr(c: char): Option<Attr> {
    if c == 'r' then Some(ReadOnly)
    else if c == 'h' then Some(Hidden)
    else if c == 's' then Some(System)
    else if c == 'a' then Some(Archive)
    else None
  }

  /** The parser's variables: whether letters go to the clear mask (`aidx`
      is 1) and the two masks, `attr[0]` (set) and `attr[1]` (clear). */
  datatype FlagState = FlagState(clearing: bool, setMask: set<Attr>, clearMask: set<Attr>)

  function FlagStep(st: FlagState, c: char): FlagState {
    if c == '+' then st.(clearing := false)
    else if c == '-' then st.(clearing := true)
    else match LetterAttr(c)
      case None => st
      case Some(a) =>
        if st.clearing then FlagState(true, st.setMask - {a}, st.clearMask + {a})
        else FlagState(false, st.setMask + {a}, st.clearMask - {a})
  }

  /** The state after the characters of `p`, left to right. */
  function FlagsOf(p: seq<char>): FlagState
    decreases |p|
  {
    if p == [] then FlagState(false, {}, {}) else FlagStep(FlagsOf(p[..|p| - 1]), p[|p| - 1])
  }

  /** The source's loop over the word, with `attr` as a two-slot array
      indexed by `aidx`. */
  method ParseFlags(p: seq<char>) returns (setMask: set<Attr>, clearMask: set<Attr>)
    ensures setMask == FlagsOf(p).setMask && clearMask == FlagsOf(p).clearMask
  {
    var attr := new set<Attr>[2];
    attr[0], attr[1] := {}, {};
    var aidx := 0;
    var k := 0;
    while k < |p|
      invariant 0 <= k <= |p|
      invariant aidx == 0 || aidx == 1
      invariant FlagsOf(p[..k]) == FlagState(aidx == 1, attr[0], attr[1])
    {
      assert p[..k + 1][..k] == p[..k];
      var c := p[k];
      if c == '+' {
        aidx := 0;
      } else if c == '-' {
        aidx := 1;
      } else {
        match LetterAttr(c)
        case None =>
        case Some(a) =>
          attr[aidx] := attr[aidx] + {a};
          attr[1 - aidx] := attr[1 - aidx] - {a};
      }
      k := k + 1;
    }
    assert p[..|p|] == p;
    setMask, clearMask := attr[0], attr[1];
  }

  // ---------------------------------------------------------------------------
  // What the masks mean

  /** Whether the sign in force after `q` is `-`: the last `+` or `-` in `q`
      is a `-` (a word starts in `+` mode). */
  predicate Clearing(q: seq<char>)
    decreases |q|
  {
    if q == [] then false
    else if q[|q| - 1] == '-' then true
    else if q[|q| - 1] == '+' then false
    else Clearing(q[..|q| - 1])
  }

  /** The last position holding `c`, or -1. */
  function LastIndexOf(p: seq<char>, c: char): (r: int)
    ensures -1 <= r < |p|
    ensures r >= 0 ==> p[r] == c
    ensures forall j :: r < j < |p| ==> p[j] != c
    decreases |p|
  {
    if p == [] then -1 else if p[|p| - 1] == c then |p| - 1 else LastIndexOf(p[..|p| - 1], c)
  }

  function Letter(a: Attr): (c: char)
    ensures LetterAttr(c) == Some(a)
  {
    match a
    case ReadOnly => 'r'
    case Hidden => 'h'
    case System => 's'
    case Archive => 'a'
  }

  /** An attribute is in the set mask exactly when the last occurrence of its
      letter is in `+` mode, in the clear mask exactly when it is in `-`
      mode, and in neither when its letter does not occur. */
  predicate AttrMeaning(p: seq<char>, a: Attr) {
    var i := LastIndexOf(p, Letter(a));
    (a in FlagsOf(p).setMask <==> i >= 0 && !Clearing(p[..i]))
    && (a in FlagsOf(p).clearMask <==> i >= 0 && Clearing(p[..i]))
  }

  /** The parser's mode is the sign in force. */
  lemma {:induction false} ModeIsClearing(p: seq<char>)
    ensures FlagsOf(p).clearing == Clearing(p)
    decreases |p|
  {
    if p != [] {
      ModeIsClearing(p[..|p| - 1]);
    }
  }

  lemma {:induction false} AttrMeaningHolds(p: seq<char>, a: Attr)
    ensures AttrMeaning(p, a)
    decreases |p|
  {
    if p == [] {
      return;
    }
    var n := |p| - 1;
    var pre := p[..n];
    var x := p[n];
    AttrMeaningHolds(pre, a);
    ModeIsClearing(pre);
    assert p[..n] == pre;
    if x != Letter(a) {
      var i := LastIndexOf(pre, Letter(a));
      assert LastIndexOf(p, Letter(a)) == i;
      if i >= 0 {
        assert p[..i] == pre[..i];
      }
    }
  }

  /** What the word asks for: each attribute follows its letter's last
      occurrence, and no attribute is both set and cleared. */
  lemma FlagsMeaning(p: seq<char>)
    ensures forall a :: AttrMeaning(p, a)
    ensures FlagsOf(p).setMask !! FlagsOf(p).clearMask
  {
    forall a
      ensures AttrMeaning(p, a)
    {
      AttrMeaningHolds(p, a);
    }
  }

  /** `+r-h` sets read-only and clears hidden. */
  lemma SetThenClear()
    ensures MaskValue(FlagsOf("+r-h").setMask) == 0x01 && MaskValue(FlagsOf("+r-h").clearMask) == 0x02
  {
    var w := "+r-h";
    assert w[..3] == "+r-" && w[..3][..2] == "+r" && w[..2][..1] == "+" && w[..1][..0] == [];
    assert FlagsOf("+") == FlagState(false, {}, {});
    assert FlagsOf("+r") == FlagState(false, {ReadOnly}, {});
    assert FlagsOf("+r-") == FlagState(true, {ReadOnly}, {});
    assert FlagsOf("+r-h") == FlagState(true, {ReadOnly} - {Hidden}, {} + {Hidden});
    assert {ReadOnly} - {Hidden} == {ReadOnly};
  }

  /** In `-rw+r` the later `+r` overrides the earlier `-r`, and `w` is
      ignored. */
  lemma LaterLetterWins()
    ensures FlagsOf("-rw+r").setMask == {ReadOnly} && FlagsOf("-rw+r").clearMask == {}
  {
    var v := "-rw+r";
    assert v[..4] == "-rw+" && v[..4][..3] == "-rw" && v[..3][..2] == "-r" && v[..2][..1] == "-" && v[..1][..0] == [];
    assert FlagsOf("-") == FlagState(true, {}, {});
    assert FlagsOf("-r") == FlagState(true, {}, {ReadOnly});
    assert FlagsOf("-rw") == FlagState(true, {}, {ReadOnly});
    assert FlagsOf("-rw+") == FlagState(false, {}, {ReadOnly});
    assert FlagsOf("-rw+r") == FlagState(false, {ReadOnly}, {ReadOnly} - {ReadOnly});
    assert {ReadOnly} - {ReadOnly} == {};
  }

  /** Without a sign, the letters set: `ra` sets read-only and archive. */
  lemma SetByDefault()
    ensures MaskValue(FlagsOf("ra").setMask) == 0x21
  {
    var u := "ra";
    assert u[..1] == "r" && u[..1][..0] == [];
    assert FlagsOf("ra").setMask == {ReadOnly, Archive};
  }
}
