/** The directory-entry and drive records the file-transfer client receives
    from the device: `PlpUID`, `PlpDirent` and `PlpDrive`. */
module Dirent {
  import opened Common

  const TwoTo32: nat := 0x1_0000_0000
  const TwoTo64: nat := 0x1_0000_0000_0000_0000

  /** A `uint32_t`. */
  type U32 = x: nat | x < 0x1_0000_0000

  // ---------------------------------------------------------------------------
  // `PlpUID`

  /** The three 32-bit words of a file's UID; the default is all zero. */
  datatype PlpUID = PlpUID(u1: U32, u2: U32, u3: U32)

  const ZeroUID := PlpUID(0, 0, 0)

  /** `operator[]`: a word of the UID; None where its assertion (index 0, 1
      or 2) fails and the program aborts. */
  function UIDWord(uid: PlpUID, idx: int): (r: Option<U32>)
    ensures r.Some? <==> 0 <= idx < 3
  {
    if idx == 0 then Some(uid.u1)
    else if idx == 1 then Some(uid.u2)
    else if idx == 2 then Some(uid.u3)
    else None
  }

  /** `getUID(idx)` as written: indices 0 to 3 go to `operator[]`, any other
      index gives 0. */
  function GetUIDAsWritten(uid: PlpUID, idx: int): (r: Option<U32>)
    ensures 0 <= idx < 3 ==> r == UIDWord(uid, idx) && r.Some?
    ensures idx == 3 ==> r == None
    ensures !(0 <= idx < 4) ==> r == Some(0)
  {
    if 0 <= idx < 4 then UIDWord(uid, idx) else Some(0)
  }

  /** Index 3 passes the range check and then fails the assertion. */
  lemma GetUIDThreeAborts(uid: PlpUID)
    ensures GetUIDAsWritten(uid, 3) == None
    ensures forall idx :: idx != 3 ==> GetUIDAsWritten(uid, idx).Some?
  {
  }

  /** `getUID(idx)` corrected: the range check matches the three words, so
      every index gives a value, a word of the UID inside the range and 0
      outside it. */
  function GetUID(uid: PlpUID, idx: int): (r: U32)
    ensures 0 <= idx < 3 ==> Some(r) == UIDWord(uid, idx)
    ensures !(0 <= idx < 3) ==> r == 0
    ensures idx != 3 ==> Some(r) == GetUIDAsWritten(uid, idx)
  {
    if 0 <= idx < 3 then UIDWord(uid, idx).value else 0
  }

  // ---------------------------------------------------------------------------
  // `PlpDirent`

  /** A `PsiTime` as the entry keeps it: either the device's two time words
      or a host time. Its conversions are not part of this model. */
  datatype PsiTime = FromDevice(hi: U32, lo: U32) | FromHost(t: int)

  class PlpDirent {
    var size: U32
    var attr: U32
    var time: PsiTime
    var uid: PlpUID
    var name: seq<char>
    var attrstr: seq<char>

    /** The default entry: zero size and attributes, empty name, host time 0. */
    constructor Empty()
      ensures size == 0 && attr == 0 && time == FromHost(0) && uid == ZeroUID
      ensures name == [] && attrstr == []
    {
      size, attr, time, uid, name, attrstr := 0, 0, FromHost(0), ZeroUID, [], [];
    }

    /** The copy constructor: every field of `e`. */
    constructor Copy(e: PlpDirent)
      ensures size == e.size && attr == e.attr && time == e.time && uid == e.uid
      ensures name == e.name && attrstr == e.attrstr
    {
      size, attr, time, uid, name, attrstr := e.size, e.attr, e.time, e.uid, e.name, e.attrstr;
    }

    /** The entry built from a directory listing: a zero UID and no
        attribute text. */
    constructor (size: U32, attr: U32, tHi: U32, tLo: U32, name: seq<char>)
      ensures this.size == size && this.attr == attr && time == FromDevice(tHi, tLo)
      ensures uid == ZeroUID && this.name == name && attrstr == []
    {
      this.size, this.attr, time, uid, this.name, attrstr := size, attr, FromDevice(tHi, tLo), ZeroUID, name, [];
    }

    /** `operator=`: every field of `e`, also when `e` is this entry. */
    method Assign(e: PlpDirent)
      modifies this
      ensures size == old(e.size) && attr == old(e.attr) && time == old(e.time) && uid == old(e.uid)
      ensures name == old(e.name) && attrstr == old(e.attrstr)
    {
      size, attr, time, uid, name, attrstr := e.size, e.attr, e.time, e.uid, e.name, e.attrstr;
    }

    method SetName(str: seq<char>)
      modifies this
      ensures name == str
      ensures size == old(size) && attr == old(attr) && time == old(time) && uid == old(uid)
      ensures attrstr == old(attrstr)
    {
      name := str;
    }

    /** `getUID(idx)` on this entry, with the corrected range check. */
    method GetUIDWord(idx: int) returns (r: U32)
      ensures 0 <= idx < 3 ==> Some(r) == UIDWord(uid, idx)
      ensures !(0 <= idx < 3) ==> r == 0
      ensures r == GetUID(uid, idx)
    {
      r := GetUID(uid, idx);
    }
  }

  // ---------------------------------------------------------------------------
  // Sizes from two halves

  /** `(hi << 32) + lo` in 64 bits. */
  function Combine(lo: U32, hi: U32): (v: nat)
    ensures v < TwoTo64
  {
    hi * TwoTo32 + lo
  }

  /** The halves come back out of the value, and every 64-bit value is the
      combination of its halves. */
  lemma CombineHalves(lo: U32, hi: U32, v: nat)
    ensures Combine(lo, hi) % TwoTo32 == lo && Combine(lo, hi) / TwoTo32 == hi
    ensures v < TwoTo64 ==> Combine(v % TwoTo32, v / TwoTo32) == v
  {
  }

  // ---------------------------------------------------------------------------
  // Attribute labels

  /** `appendWithDelim`: a comma first unless the text is still empty. */
  function AppendWithDelim(s1: seq<char>, s2: seq<char>): seq<char> {
    if s1 != [] then s1 + [','] + s2 else s1 + s2
  }

  /** The labels appended one after the other. */
  function Delimited(ls: seq<seq<char>>): seq<char>
    decreases |ls|
  {
    if ls == [] then [] else AppendWithDelim(Delimited(ls[..|ls| - 1]), ls[|ls| - 1])
  }

  /** A label as the tables hold it: not empty and without a comma. */
  predicate Label(l: seq<char>) {
    l != [] && ',' !in l
  }

  /** Every entry of `ls` is a label. */
  predicate AllLabels(ls: seq<seq<char>>) {
    forall i :: 0 <= i < |ls| ==> Label(ls[i])
  }

  /** The comma-separated fields of a text. */
  function Fields(s: seq<char>): (r: seq<seq<char>>)
    ensures |r| >= 1
    decreases |s|
  {
    if s == [] then [[]]
    else
      var f := Fields(s[..|s| - 1]);
      if s[|s| - 1] == ',' then f + [[]] else f[..|f| - 1] + [f[|f| - 1] + [s[|s| - 1]]]
  }

  lemma {:induction false} FieldsAppendPlain(x: seq<char>, b: seq<char>)
    requires ',' !in b
    ensures |Fields(x + b)| == |Fields(x)|
    ensures Fields(x + b) == Fields(x)[..|Fields(x)| - 1] + [Fields(x)[|Fields(x)| - 1] + b]
    decreases |b|
  {
    var f := Fields(x);
    if b == [] {
      assert x + b == x;
      assert f[|f| - 1] + b == f[|f| - 1];
      assert f[..|f| - 1] + [f[|f| - 1]] == f;
    } else {
      var b' := b[..|b| - 1];
      var c := b[|b| - 1];
      FieldsAppendPlain(x, b');
      var g := Fields(x + b');
      assert (x + b)[..|x + b| - 1] == x + b';
      assert (x + b)[|x + b| - 1] == c;
      assert c != ',' by { assert c in b; }
      assert Fields(x + b) == g[..|g| - 1] + [g[|g| - 1] + [c]];
      assert g[..|g| - 1] == f[..|f| - 1];
      assert g[|g| - 1] == f[|f| - 1] + b';
      assert b' + [c] == b;
      assert (f[|f| - 1] + b') + [c] == f[|f| - 1] + b;
    }
  }

  lemma FieldsAfterComma(d: seq<char>)
    ensures Fields(d + [',']) == Fields(d) + [[]]
  {
    assert (d + [','])[..|d|] == d;
  }

  /** The joined labels split back into the labels at the commas, and the
      text is empty exactly when there is no label. */
  lemma {:induction false} DelimitedRoundTrip(ls: seq<seq<char>>)
    requires AllLabels(ls)
    ensures Delimited(ls) == [] <==> ls == []
    ensures ls != [] ==> Fields(Delimited(ls)) == ls
    decreases |ls|
  {
    if ls != [] {
      var front := ls[..|ls| - 1];
      assert AllLabels(front) by {
        forall i | 0 <= i < |front| ensures Label(front[i]) { assert front[i] == ls[i]; }
      }
      DelimitedRoundTrip(front);
      LastLabel(ls);
    }
  }

  /** One more label after the ones already joined. */
  lemma LastLabel(ls: seq<seq<char>>)
    requires ls != [] && Label(ls[|ls| - 1])
    requires ls[..|ls| - 1] != [] ==> Delimited(ls[..|ls| - 1]) != [] && Fields(Delimited(ls[..|ls| - 1])) == ls[..|ls| - 1]
    requires ls[..|ls| - 1] == [] ==> Delimited(ls[..|ls| - 1]) == []
    ensures Delimited(ls) != []
    ensures Fields(Delimited(ls)) == ls
  {
    var front := ls[..|ls| - 1];
    var x := ls[|ls| - 1];
    assert front + [x] == ls;
    var d := Delimited(front);
    assert Delimited(ls) == AppendWithDelim(d, x);
    if front == [] {
      assert Delimited(ls) == [] + x;
      FieldsAppendPlain([], x);
      assert [] + x == x;
      assert ls == [x];
    } else {
      assert Delimited(ls) == (d + [',']) + x;
      FieldsAfterComma(d);
      FieldsAppendPlain(d + [','], x);
      assert [] + x == x;
      assert (front + [[]])[..|front|] == front;
    }
  }

  /** Joined labels neither start nor end with a comma. */
  lemma {:induction false} DelimitedEnds(ls: seq<seq<char>>)
    requires AllLabels(ls)
    ensures ls != [] ==> Delimited(ls) != [] && Delimited(ls)[0] != ',' && Delimited(ls)[|Delimited(ls)| - 1] != ','
    decreases |ls|
  {
    if ls != [] {
      var front := ls[..|ls| - 1];
      assert AllLabels(front) by {
        forall i | 0 <= i < |front| ensures Label(front[i]) { assert front[i] == ls[i]; }
      }
      DelimitedEnds(front);
      DelimitedRoundTrip(front);
      assert ls[|ls| - 1][|ls[|ls| - 1]| - 1] in ls[|ls| - 1];
      if front == [] {
        assert ls[|ls| - 1][0] in ls[|ls| - 1];
      }
    }
  }

  /** Bit `i` of an attribute word (`attr & (1 << i)`). */
  predicate Bit(attr: U32, i: nat) {
    (attr / Pow2(i)) % 2 == 1
  }

  function Pow2(i: nat): (r: nat)
    ensures r >= 1
  {
    if i == 0 then 1 else 2 * Pow2(i - 1)
  }

  /** The labels of the first `n` bits that are set, in bit order. */
  function Chosen(labels: seq<seq<char>>, attr: U32, n: nat): seq<seq<char>>
    requires n <= |labels|
  {
    if n == 0 then [] else Chosen(labels, attr, n - 1) + (if Bit(attr, n - 1) then [labels[n - 1]] else [])
  }

  /** The text for an attribute word: the labels of its set bits, joined. */
  function Describe(labels: seq<seq<char>>, attr: U32): seq<char> {
    Delimited(Chosen(labels, attr, |labels|))
  }

  const DriveLabels: seq<seq<char>> := ["local", "ROM", "redirected", "substituted", "internal", "removable"]
  const MediaLabels: seq<seq<char>> := ["variable size", "dual density", "formattable", "write protected"]

  lemma {:induction false} ChosenMeaning(labels: seq<seq<char>>, attr: U32, n: nat, l: seq<char>)
    requires n <= |labels|
    ensures l in Chosen(labels, attr, n) <==> exists i :: 0 <= i < n && Bit(attr, i) && labels[i] == l
    ensures |Chosen(labels, attr, n)| <= n
  {
    if n > 0 {
      ChosenMeaning(labels, attr, n - 1, l);
    }
  }

  /** The text lists, in table order, the label of each set bit and no
      other, and splits back into those labels. */
  lemma DescribeMeaning(labels: seq<seq<char>>, attr: U32)
    requires forall i :: 0 <= i < |labels| ==> Label(labels[i])
    ensures Describe(labels, attr) == [] <==> forall i :: 0 <= i < |labels| ==> !Bit(attr, i)
    ensures Chosen(labels, attr, |labels|) != [] ==> Fields(Describe(labels, attr)) == Chosen(labels, attr, |labels|)
    ensures forall l :: l in Chosen(labels, attr, |labels|) <==> exists i :: 0 <= i < |labels| && Bit(attr, i) && labels[i] == l
  {
    var ch := Chosen(labels, attr, |labels|);
    forall l
      ensures l in ch <==> exists i :: 0 <= i < |labels| && Bit(attr, i) && labels[i] == l
    {
      ChosenMeaning(labels, attr, |labels|, l);
    }
    forall i | 0 <= i < |ch|
      ensures Label(ch[i])
    {
      assert ch[i] in ch;
    }
    DelimitedRoundTrip(ch);
    if ch != [] {
      assert ch[0] in ch;
    }
    if exists i :: 0 <= i < |labels| && Bit(attr, i) {
      var i :| 0 <= i < |labels| && Bit(attr, i);
      assert labels[i] in ch;
    }
  }

  /** Bits above the table are ignored: two words that agree on the bits
      the table names describe alike. */
  lemma HighBitsIgnored(labels: seq<seq<char>>, a: U32, b: U32)
    requires forall i :: 0 <= i < |labels| ==> (Bit(a, i) <==> Bit(b, i))
    ensures Describe(labels, a) == Describe(labels, b)
  {
    ChosenLow(labels, a, b, |labels|);
  }

  lemma {:induction false} ChosenLow(labels: seq<seq<char>>, a: U32, b: U32, n: nat)
    requires n <= |labels|
    requires forall i :: 0 <= i < n ==> (Bit(a, i) <==> Bit(b, i))
    ensures Chosen(labels, a, n) == Chosen(labels, b, n)
  {
    if n > 0 {
      ChosenLow(labels, a, b, n - 1);
    }
  }

  /** One more bit of the table. */
  lemma ChosenNext(labels: seq<seq<char>>, a: U32, n: nat, p: nat)
    requires n < |labels| && p == Pow2(n)
    ensures Bit(a, n) <==> (a / p) % 2 == 1
    ensures Delimited(Chosen(labels, a, n + 1)) ==
      (if Bit(a, n) then AppendWithDelim(Delimited(Chosen(labels, a, n)), labels[n]) else Delimited(Chosen(labels, a, n)))
  {
    var c := Chosen(labels, a, n);
    if Bit(a, n) {
      assert (c + [labels[n]])[..|c|] == c;
    } else {
      assert c + [] == c;
    }
  }

  /** The example of a drive that is local and redirected. */
  lemma DescribeExample()
    ensures Describe(DriveLabels, 5) == "local,redirected"
    ensures Describe(MediaLabels, 0) == ""
  {
    assert Pow2(1) == 2 && Pow2(2) == 4 && Pow2(3) == 8 && Pow2(4) == 16 && Pow2(5) == 32;
    assert Bit(5, 0) && !Bit(5, 1) && Bit(5, 2) && !Bit(5, 3) && !Bit(5, 4) && !Bit(5, 5);
    var c := Chosen(DriveLabels, 5, 2);
    assert c == ["local"];
    assert Chosen(DriveLabels, 5, 3) == c + ["redirected"];
    assert Chosen(DriveLabels, 5, 6) == ["local", "redirected"];
    assert Delimited(["local"]) == "local";
    assert ["local", "redirected"][..1] == ["local"];
    assert Delimited(["local", "redirected"]) == AppendWithDelim("local", "redirected");
    assert "local" + [','] + "redirected" == "local,redirected";
    assert Chosen(MediaLabels, 0, 4) == [];
  }

  // ---------------------------------------------------------------------------
  // Media types

  const MediaTypes: seq<seq<char>> :=
    ["Not present", "Unknown", "Floppy", "Disk", "CD-ROM", "RAM", "Flash Disk", "ROM", "Remote"]

  /** The nine names are distinct, so the name determines the type. */
  lemma MediaTypesDistinct()
    ensures |MediaTypes| == 9
    ensures forall i, j :: 0 <= i < j < 9 ==> MediaTypes[i] != MediaTypes[j]
  {
  }

  // ---------------------------------------------------------------------------
  // `PlpDrive`

  /** The fields of a drive record, as one value. */
  datatype DriveValue = DriveValue(mediatype: U32, driveattr: U32, mediaattr: U32, uid: U32,
                                   size: nat, space: nat, drivechar: char, name: seq<char>)

  class PlpDrive {
    var mediatype: U32
    var driveattr: U32
    var mediaattr: U32
    var uid: U32
    var size: nat
    var space: nat
    var drivechar: char
    var name: seq<char>

    function Value(): DriveValue
      reads this
    {
      DriveValue(mediatype, driveattr, mediaattr, uid, size, space, drivechar, name)
    }

    /** The copy constructor corrected: every field of `other`. */
    constructor Copy(other: PlpDrive)
      ensures Value() == other.Value()
    {
      mediatype, driveattr, mediaattr, uid := other.mediatype, other.driveattr, other.mediaattr, other.uid;
      size, space, drivechar, name := other.size, other.space, other.drivechar, other.name;
    }

    method SetMediaType(t: U32)
      modifies this
      ensures Value() == old(Value()).(mediatype := t)
    {
      mediatype := t;
    }

    method SetDriveAttribute(a: U32)
      modifies this
      ensures Value() == old(Value()).(driveattr := a)
    {
      driveattr := a;
    }

    method SetMediaAttribute(a: U32)
      modifies this
      ensures Value() == old(Value()).(mediaattr := a)
    {
      mediaattr := a;
    }

    method SetUID(u: U32)
      modifies this
      ensures Value() == old(Value()).(uid := u)
    {
      uid := u;
    }

    /** The size from its low and high 32-bit halves. */
    method SetSize(sizeLo: U32, sizeHi: U32)
      modifies this
      ensures Value() == old(Value()).(size := Combine(sizeLo, sizeHi))
      ensures size < TwoTo64 && size % TwoTo32 == sizeLo && size / TwoTo32 == sizeHi
    {
      size := sizeHi * TwoTo32 + sizeLo;
      CombineHalves(sizeLo, sizeHi, size);
    }

    /** The free space from its low and high 32-bit halves. */
    method SetSpace(spaceLo: U32, spaceHi: U32)
      modifies this
      ensures Value() == old(Value()).(space := Combine(spaceLo, spaceHi))
      ensures space < TwoTo64 && space % TwoTo32 == spaceLo && space / TwoTo32 == spaceHi
    {
      space := spaceHi * TwoTo32 + spaceLo;
      CombineHalves(spaceLo, spaceHi, space);
    }

    method SetName(drive: char, volname: seq<char>)
      modifies this
      ensures Value() == old(Value()).(drivechar := drive, name := volname)
    {
      drivechar := drive;
      name := [];
      name := name + volname;
    }

    /** The media type's name; the table has nine entries and a larger type
        indexes past it. */
    method GetMediaTypeName() returns (ret: seq<char>)
      requires mediatype < 9
      ensures ret == MediaTypes[mediatype]
      ensures forall t :: 0 <= t < 9 && MediaTypes[t] == ret ==> t == mediatype
    {
      MediaTypesDistinct();
      ret := MediaTypes[mediatype];
    }

    /** The drive attribute text, built by successive appends. */
    method GetDriveAttributeText() returns (ret: seq<char>)
      ensures ret == Describe(DriveLabels, driveattr)
    {
      ret := AppendLabels(DriveLabels, driveattr);
    }

    /** The media attribute text, built by successive appends. */
    method GetMediaAttributeText() returns (ret: seq<char>)
      ensures ret == Describe(MediaLabels, mediaattr)
    {
      ret := AppendLabels(MediaLabels, mediaattr);
    }
  }

  /** Tests the bits of `a` from bit 0 upward and appends the label of each
      set bit with `appendWithDelim`. */
  method AppendLabels(labels: seq<seq<char>>, a: U32) returns (ret: seq<char>)
    ensures ret == Describe(labels, a)
  {
    ret := [];
    var p := 1;
    for n := 0 to |labels|
      invariant p == Pow2(n)
      invariant ret == Delimited(Chosen(labels, a, n))
    {
      ChosenNext(labels, a, n, p);
      if (a / p) % 2 == 1 {
        ret := AppendWithDelim(ret, labels[n]);
      }
      p := 2 * p;
    }
  }

  /** The copy constructor as written: it assigns nothing, so the new drive
      holds whatever its storage held (`leftover`) and an empty name. */
  function CopyAsWritten(other: DriveValue, leftover: DriveValue): (r: DriveValue)
    ensures r.name == []
    ensures r.(name := leftover.name) == leftover
  {
    leftover.(name := [])
  }

  /** A copy of a drive with a volume name is not equal to it. */
  lemma CopyLosesFields(other: DriveValue, leftover: DriveValue)
    requires other.name != []
    ensures CopyAsWritten(other, leftover) != other
  {
  }
}
