/**
 The layout bookkeeping of the MDL model-file writer: materials, bounding
 boxes, bones, actions, the vertex-format slot table and its `struct`
 format string, the size of every chunk, the triangle chunk's batch
 offsets and padding, and the file header's size field. Byte values are
 not modelled, only how many bytes go where.
 */
module Mdl {
  import opened Wrappers
  import opened Geometry

  // ---------------------------------------------------------------------
  // Materials
  // ---------------------------------------------------------------------

  const TexturesBase: string := "textures/"

  /** Whether `pat` occurs in `s` starting at index k. */
  predicate OccursAt(s: string, pat: string, k: nat) {
    k + |pat| <= |s| && s[k..k + |pat|] == pat
  }

  /** `str.find` from index k: the first occurrence at or after k, or -1. */
  function FindFrom(s: string, pat: string, k: nat): (i: int)
    requires k <= |s|
    ensures i == -1 || k <= i <= |s| - |pat|
    ensures i == -1 ==> forall j :: k <= j <= |s| ==> !OccursAt(s, pat, j)
    ensures i != -1 ==> OccursAt(s, pat, i) && forall j :: k <= j < i ==> !OccursAt(s, pat, j)
    decreases |s| - k
  {
    if k + |pat| > |s| then -1
    else if OccursAt(s, pat, k) then k
    else if k == |s| then -1
    else FindFrom(s, pat, k + 1)
  }

  /** `str.find`: the first occurrence, or -1 when there is none. */
  function Find(s: string, pat: string): (i: int)
    ensures i == -1 || 0 <= i <= |s| - |pat|
    ensures i == -1 <==> forall j :: 0 <= j <= |s| ==> !OccursAt(s, pat, j)
    ensures i != -1 ==> OccursAt(s, pat, i) && forall j :: 0 <= j < i ==> !OccursAt(s, pat, j)
  {
    FindFrom(s, pat, 0)
  }

  /** Python's `s[k:]` for k >= 0: empty once k passes the end. */
  function SuffixFrom(s: string, k: nat): string {
    if k >= |s| then [] else s[k..]
  }

  /**
   `MDLMaterial`: the path after the first "textures/". When there is none,
   `find` returns -1 and the slice starts at index 8, dropping the first
   eight characters.
   */
  function MaterialPath(filepath: string): (r: string)
    ensures Find(filepath, TexturesBase) == -1 ==> r == SuffixFrom(filepath, |TexturesBase| - 1)
    ensures var i := Find(filepath, TexturesBase);
            i != -1 ==> filepath == filepath[..i] + TexturesBase + r
  {
    var i := Find(filepath, TexturesBase);
    if i == -1 then SuffixFrom(filepath, |TexturesBase| - 1)
    else
      assert OccursAt(filepath, TexturesBase, i);
      assert filepath == filepath[..i] + filepath[i..i + |TexturesBase|] + filepath[i + |TexturesBase|..];
      SuffixFrom(filepath, i + |TexturesBase|)
  }

  /** A path under a textures folder is stored relative to it. */
  lemma MaterialPathRelative(dir: string, name: string)
    requires forall j :: 0 <= j < |dir| ==> !OccursAt(dir + TexturesBase + name, TexturesBase, j)
    ensures MaterialPath(dir + TexturesBase + name) == name
  {
    var s := dir + TexturesBase + name;
    assert s[|dir|..|dir| + |TexturesBase|] == TexturesBase;
    assert OccursAt(s, TexturesBase, |dir|);
    var i := Find(s, TexturesBase);
    assert i == |dir|;
    assert s[i + |TexturesBase|..] == name;
  }

  // ---------------------------------------------------------------------
  // Bounding boxes
  // ---------------------------------------------------------------------

  /** `sys.float_info.max`, the double-precision maximum (a single-precision `Vector` would hold infinity). */
  const FloatMax: real := 179769313486231570000000000000000000000000000000000000000000000000000000000000000000000000000000000000000000000000000000000000000000000000000000000000000000000000000000000000000000000000000000000000000000000000000000000000000000000000000000000000000000000000000000000000000000000000000000000000000000000.0

  predicate Le3(a: Vec3, b: Vec3) {
    a.x <= b.x && a.y <= b.y && a.z <= b.z
  }

  /** Each coordinate of `lo` is FloatMax or a coordinate of some vertex, and likewise for `hi`. */
  ghost predicate Attained(vertices: seq<Vec3>, lo: Vec3, hi: Vec3) {
    && (lo.x == FloatMax || exists j :: 0 <= j < |vertices| && lo.x == vertices[j].x)
    && (lo.y == FloatMax || exists j :: 0 <= j < |vertices| && lo.y == vertices[j].y)
    && (lo.z == FloatMax || exists j :: 0 <= j < |vertices| && lo.z == vertices[j].z)
    && (hi.x == -FloatMax || exists j :: 0 <= j < |vertices| && hi.x == vertices[j].x)
    && (hi.y == -FloatMax || exists j :: 0 <= j < |vertices| && hi.y == vertices[j].y)
    && (hi.z == -FloatMax || exists j :: 0 <= j < |vertices| && hi.z == vertices[j].z)
  }

  /** One vertex of the `MDLAABB` loop: each coordinate lowers the minimum or raises the maximum. */
  function Widen(lo: Vec3, hi: Vec3, v: Vec3): (Vec3, Vec3) {
    (Vec3(if lo.x > v.x then v.x else lo.x, if lo.y > v.y then v.y else lo.y, if lo.z > v.z then v.z else lo.z),
     Vec3(if hi.x < v.x then v.x else hi.x, if hi.y < v.y then v.y else hi.y, if hi.z < v.z then v.z else hi.z))
  }

  /**
   `MDLAABB`: starting from (+max, -max) the box bounds every vertex
   componentwise, and each bound is either the start value or a coordinate
   some vertex actually has.
   */
  method Aabb(vertices: seq<Vec3>) returns (lo: Vec3, hi: Vec3)
    ensures forall j :: 0 <= j < |vertices| ==> Le3(lo, vertices[j]) && Le3(vertices[j], hi)
    ensures |vertices| == 0 ==> lo == Vec3(FloatMax, FloatMax, FloatMax) && hi == Vec3(-FloatMax, -FloatMax, -FloatMax)
    ensures Attained(vertices, lo, hi)
  {
    lo := Vec3(FloatMax, FloatMax, FloatMax);
    hi := Vec3(-FloatMax, -FloatMax, -FloatMax);
    var i := 0;
    while i < |vertices|
      invariant 0 <= i <= |vertices|
      invariant forall j :: 0 <= j < i ==> Le3(lo, vertices[j]) && Le3(vertices[j], hi)
      invariant i == 0 ==> lo == Vec3(FloatMax, FloatMax, FloatMax) && hi == Vec3(-FloatMax, -FloatMax, -FloatMax)
      invariant Attained(vertices[..i], lo, hi)
    {
      var w := Widen(lo, hi, vertices[i]);
      WidenBounds(vertices, i, lo, hi);
      WidenAttained(vertices, i, lo, hi);
      lo, hi := w.0, w.1;
      i := i + 1;
    }
    assert vertices[..i] == vertices;
  }

  /** Widening by vertex i keeps the earlier vertices inside and takes in vertex i. */
  lemma WidenBounds(vertices: seq<Vec3>, i: nat, lo: Vec3, hi: Vec3)
    requires i < |vertices|
    requires forall j :: 0 <= j < i ==> Le3(lo, vertices[j]) && Le3(vertices[j], hi)
    ensures var w := Widen(lo, hi, vertices[i]);
            forall j :: 0 <= j < i + 1 ==> Le3(w.0, vertices[j]) && Le3(vertices[j], w.1)
  {
  }

  /** Widening by vertex i only takes coordinates of the first i + 1 vertices. */
  lemma WidenAttained(vertices: seq<Vec3>, i: nat, lo: Vec3, hi: Vec3)
    requires i < |vertices| && Attained(vertices[..i], lo, hi)
    ensures var w := Widen(lo, hi, vertices[i]); Attained(vertices[..i + 1], w.0, w.1)
  {
    assert forall j :: 0 <= j < i ==> vertices[..i + 1][j] == vertices[..i][j];
    assert vertices[..i + 1][i] == vertices[i];
  }

  // ---------------------------------------------------------------------
  // Bones and actions
  // ---------------------------------------------------------------------

  /** The parent index that means "no parent". */
  const NoParent: nat := 255

  /** `struct.calcsize("14sxB16f")`: 14 + 1 + 1 bytes, then sixteen aligned floats. */
  const BoneSize: nat := 80
  /** `struct.calcsize("8f")` */
  const BoneTransformSize: nat := 32
  /** `struct.calcsize("15sx2I")` */
  const ActionHeaderSize: nat := 24

  datatype Bone = Bone(name: string, parentIndex: nat)

  function HasParent(b: Bone): bool {
    b.parentIndex != NoParent
  }

  /** The parent a bone names, if any. */
  function ParentOf(b: Bone): (r: Option<nat>)
    ensures r.Some? <==> HasParent(b)
    ensures r.Some? ==> r.value == b.parentIndex
  {
    if HasParent(b) then Some(b.parentIndex) else None
  }

  /** How the exporter stores an optional parent in a bone: 255 for none. */
  function BoneWithParent(name: string, parent: Option<nat>): Bone {
    Bone(name, if parent.Some? then parent.value else NoParent)
  }

  /** Storing an optional parent and reading it back is the identity for every index other than 255. */
  lemma BoneParentRoundTrip(name: string, parent: Option<nat>)
    requires parent.Some? ==> parent.value != NoParent
    ensures ParentOf(BoneWithParent(name, parent)) == parent
    ensures HasParent(BoneWithParent(name, parent)) <==> parent.Some?
  {
  }

  datatype ActionTrack = ActionTrack(boneIndex: nat, poseCount: nat)
  datatype Action = Action(name: string, frameCount: nat, tracks: seq<ActionTrack>)

  /** `MDLActionTrack.getSize`: the bone index, then one transform per pose. */
  function TrackSize(t: ActionTrack): nat {
    4 + BoneTransformSize * t.poseCount
  }

  function TracksSize(ts: seq<ActionTrack>): nat {
    if |ts| == 0 then 0 else TracksSize(ts[..|ts| - 1]) + TrackSize(ts[|ts| - 1])
  }

  /** `MDLAction.getSize` */
  function ActionSize(a: Action): nat {
    ActionHeaderSize + TracksSize(a.tracks)
  }

  /**
   `MDLAction.write`: the header, then each track after asserting that it
   carries exactly `frame_count` poses. On success the number of bytes
   written is the action's size; every track then has the same size.
   */
  method WriteAction(a: Action) returns (r: Result<nat>)
    ensures r.Ok? <==> forall j :: 0 <= j < |a.tracks| ==> a.tracks[j].poseCount == a.frameCount
    ensures r.Ok? ==> r.value == ActionSize(a)
    ensures r.Ok? ==> r.value == ActionHeaderSize + |a.tracks| * (4 + BoneTransformSize * a.frameCount)
  {
    var written := ActionHeaderSize;
    var each := 4 + BoneTransformSize * a.frameCount;
    var i := 0;
    while i < |a.tracks|
      invariant 0 <= i <= |a.tracks|
      invariant forall j :: 0 <= j < i ==> a.tracks[j].poseCount == a.frameCount
      invariant written == ActionHeaderSize + TracksSize(a.tracks[..i])
      invariant written == ActionHeaderSize + i * each
    {
      if a.tracks[i].poseCount != a.frameCount {
        return AssertionFailed;
      }
      TracksSnoc(a.tracks, i);
      NextMultiple(i, each);
      written := written + TrackSize(a.tracks[i]);
      i := i + 1;
    }
    assert a.tracks[..i] == a.tracks;
    r := Ok(written);
  }

  /** The tracks up to and including track i are the tracks before it and that track. */
  lemma TracksSnoc(ts: seq<ActionTrack>, i: nat)
    requires i < |ts|
    ensures TracksSize(ts[..i + 1]) == TracksSize(ts[..i]) + TrackSize(ts[i])
  {
    assert ts[..i + 1][..i] == ts[..i];
  }

  lemma NextMultiple(i: nat, k: nat)
    ensures (i + 1) * k == i * k + k
  {
  }

  // ---------------------------------------------------------------------
  // Vertex formats
  // ---------------------------------------------------------------------

  /** `DataType`: the component types, coded 0..3. */
  datatype DataType = Float | UnsignedByte | UnsignedShort | UnsignedInt

  function TypeCode(t: DataType): nat {
    match t
    case Float => 0
    case UnsignedByte => 1
    case UnsignedShort => 2
    case UnsignedInt => 3
  }

  /** `DataTypeFormatChar`: the `struct` code of each component type. */
  function FormatChar(t: DataType): char {
    match t
    case Float => 'f'
    case UnsignedByte => 'B'
    case UnsignedShort => 'H'
    case UnsignedInt => 'I'
  }

  /** The component type a `struct` code stands for, if it is one of the four. */
  function TypeOfChar(c: char): (r: Option<DataType>)
    ensures r.Some? ==> FormatChar(r.value) == c
  {
    if c == 'f' then Some(Float)
    else if c == 'B' then Some(UnsignedByte)
    else if c == 'H' then Some(UnsignedShort)
    else if c == 'I' then Some(UnsignedInt)
    else None
  }

  /** The native size, and alignment, of each component type. */
  function TypeSize(t: DataType): nat {
    match t
    case Float => 4
    case UnsignedByte => 1
    case UnsignedShort => 2
    case UnsignedInt => 4
  }

  /** `VertexAttribType`: the slot of each attribute kind. */
  datatype AttribKind = Position | Normal | Tangent | TexCoord0 | TexCoord1 | Color | BoneIndex | BoneWeight

  const SlotCount: nat := 8

  function Slot(k: AttribKind): (s: nat)
    ensures s < SlotCount
  {
    match k
    case Position => 0
    case Normal => 1
    case Tangent => 2
    case TexCoord0 => 3
    case TexCoord1 => 4
    case Color => 5
    case BoneIndex => 6
    case BoneWeight => 7
  }

  datatype VertexAttrib = VertexAttrib(kind: AttribKind, count: nat, componentType: DataType)

  /** One item of a `struct` format: a repeat count and a type code. */
  datatype FormatItem = FormatItem(count: nat, t: DataType)

  /** `getTuple`: the (count, type code) pair stored in the attribute's slot. */
  function SlotTuple(a: VertexAttrib): (nat, nat) {
    (a.count, TypeCode(a.componentType))
  }

  function ItemOf(a: VertexAttrib): FormatItem {
    FormatItem(a.count, a.componentType)
  }

  function ItemsOf(attribs: seq<VertexAttrib>): (items: seq<FormatItem>)
    ensures |items| == |attribs|
    ensures forall j :: 0 <= j < |attribs| ==> items[j] == ItemOf(attribs[j])
  {
    seq(|attribs|, j requires 0 <= j < |attribs| => ItemOf(attribs[j]))
  }

  /** The slot tuple the format holds for slot s: the last attribute of that kind wins, and (0,0) if none. */
  function LastFor(attribs: seq<VertexAttrib>, s: nat): (nat, nat) {
    if |attribs| == 0 then (0, 0)
    else if Slot(attribs[|attribs| - 1].kind) == s then SlotTuple(attribs[|attribs| - 1])
    else LastFor(attribs[..|attribs| - 1], s)
  }

  datatype VertexFormat = VertexFormat(slots: seq<(nat, nat)>, formatString: string)

  // Decimal counts, as `str(count)` writes them.

  predicate IsDigit(c: char) { '0' <= c <= '9' }

  predicate AllDigits(s: string) { forall i :: 0 <= i < |s| ==> IsDigit(s[i]) }

  function DigitChar(d: nat): (c: char)
    requires d < 10
    ensures IsDigit(c)
  {
    (48 + d) as char
  }

  function DigitValue(c: char): nat
    requires IsDigit(c)
  {
    c as int - 48
  }

  /** `str(n)` for a natural number. */
  function Decimal(n: nat): (s: string)
    ensures |s| >= 1 && AllDigits(s)
    decreases n
  {
    if n < 10 then [DigitChar(n)] else Decimal(n / 10) + [DigitChar(n % 10)]
  }

  /** The number a run of decimal digits denotes. */
  function DigitsValue(s: string): nat
    requires AllDigits(s)
  {
    if |s| == 0 then 0 else DigitsValue(s[..|s| - 1]) * 10 + DigitValue(s[|s| - 1])
  }

  lemma {:induction false} DecimalValue(n: nat)
    ensures DigitsValue(Decimal(n)) == n
    decreases n
  {
    if n >= 10 {
      var s := Decimal(n);
      assert s[..|s| - 1] == Decimal(n / 10);
      DecimalValue(n / 10);
    }
  }

  /** The length of the run of digits `s` starts with. */
  function DigitRun(s: string): (k: nat)
    ensures k <= |s| && AllDigits(s[..k])
    ensures k < |s| ==> !IsDigit(s[k])
  {
    if |s| == 0 || !IsDigit(s[0]) then 0
    else
      var k := 1 + DigitRun(s[1..]);
      assert forall i :: 1 <= i < k ==> s[..k][i] == s[1..][..k - 1][i - 1];
      k
  }

  lemma {:induction false} DigitRunAppend(d: string, rest: string)
    requires AllDigits(d)
    requires |rest| == 0 || !IsDigit(rest[0])
    ensures DigitRun(d + rest) == |d|
    decreases |d|
  {
    if |d| > 0 {
      assert (d + rest)[1..] == d[1..] + rest;
      DigitRunAppend(d[1..], rest);
    }
  }

  /** `getFormatString` of each item, concatenated in order. */
  function Render(items: seq<FormatItem>): string {
    if |items| == 0 then ""
    else Decimal(items[0].count) + [FormatChar(items[0].t)] + Render(items[1..])
  }

  lemma {:induction false} RenderSnoc(items: seq<FormatItem>, x: FormatItem)
    ensures Render(items + [x]) == Render(items) + Decimal(x.count) + [FormatChar(x.t)]
    decreases |items|
  {
    if |items| == 0 {
      assert items + [x] == [x];
    } else {
      assert (items + [x])[1..] == items[1..] + [x];
      RenderSnoc(items[1..], x);
    }
  }

  /**
   The part of `struct`'s format parser the vertex formats use: items of an
   optional decimal count followed by one of the four type codes. A count
   with no code after it, or any other character, is an error.
   */
  function ParseFormat(s: string): Option<seq<FormatItem>>
    decreases |s|
  {
    if |s| == 0 then Some([])
    else
      var k := DigitRun(s);
      if k == |s| then None
      else
        var count := if k == 0 then 1 else DigitsValue(s[..k]);
        match TypeOfChar(s[k])
        case None => None
        case Some(t) =>
          match ParseFormat(s[k + 1..])
          case None => None
          case Some(rest) => Some([FormatItem(count, t)] + rest)
  }

  /** Parsing a rendered format string gives back its items. */
  lemma {:induction false} ParseRender(items: seq<FormatItem>)
    ensures ParseFormat(Render(items)) == Some(items)
    decreases |items|
  {
    if |items| > 0 {
      var d := Decimal(items[0].count);
      var tail := [FormatChar(items[0].t)] + Render(items[1..]);
      var s := Render(items);
      assert s == d + tail;
      assert !IsDigit(tail[0]);
      DigitRunAppend(d, tail);
      assert s[..|d|] == d;
      DecimalValue(items[0].count);
      assert s[|d|] == FormatChar(items[0].t);
      assert s[|d| + 1..] == Render(items[1..]);
      ParseRender(items[1..]);
      assert [items[0]] + items[1..] == items;
    }
  }

  /** `align` rounded up to a multiple of a (a >= 1). */
  function AlignUp(offset: nat, a: nat): (r: nat)
    requires a == 1 || a == 2 || a == 4
    ensures offset <= r < offset + a
    ensures a == 2 ==> r % 2 == 0
    ensures a == 4 ==> r % 4 == 0
    ensures offset % a == 0 ==> r == offset
  {
    if a == 1 then offset
    else if a == 2 then (if offset % 2 == 0 then offset else NextEven(offset); offset + 1)
    else if offset % 4 == 0 then offset
    else NextFour(offset); offset + (4 - offset % 4)
  }

  lemma NextEven(offset: nat)
    requires offset % 2 != 0
    ensures (offset + 1) % 2 == 0
  {
    assert offset == 2 * (offset / 2) + 1;
    assert offset + 1 == 2 * (offset / 2 + 1);
  }

  lemma NextFour(offset: nat)
    requires offset % 4 != 0
    ensures 0 < 4 - offset % 4 < 4 && (offset + (4 - offset % 4)) % 4 == 0
  {
    var q, m := offset / 4, offset % 4;
    assert offset == 4 * q + m;
    assert offset + (4 - m) == 4 * (q + 1);
  }

  /** `struct.calcsize` in native mode from a running offset: each item is aligned to its own size. */
  function CalcFrom(offset: nat, items: seq<FormatItem>): nat
    decreases |items|
  {
    if |items| == 0 then offset
    else
      var size := TypeSize(items[0].t);
      CalcFrom(AlignUp(offset, size) + items[0].count * size, items[1..])
  }

  function CalcSize(items: seq<FormatItem>): nat {
    CalcFrom(0, items)
  }

  /** The bytes of the items themselves, without alignment padding. */
  function Packed(items: seq<FormatItem>): nat
    decreases |items|
  {
    if |items| == 0 then 0 else items[0].count * TypeSize(items[0].t) + Packed(items[1..])
  }

  /**
   Native alignment only pads: the size is at least the packed bytes and at
   most three padding bytes more per item.
   */
  lemma {:induction false} CalcFromBounds(offset: nat, items: seq<FormatItem>)
    ensures offset + Packed(items) <= CalcFrom(offset, items) <= offset + Packed(items) + 3 * |items|
    decreases |items|
  {
    if |items| > 0 {
      var size := TypeSize(items[0].t);
      var bytes := items[0].count * size;
      var next := AlignUp(offset, size) + bytes;
      assert Packed(items) == bytes + Packed(items[1..]);
      CalcFromBounds(next, items[1..]);
    }
  }

  predicate AllFloat(items: seq<FormatItem>) {
    forall j :: 0 <= j < |items| ==> items[j].t == Float
  }

  /** From an aligned offset, an all-float format is not padded at all. */
  lemma {:induction false} CalcFromFloats(offset: nat, items: seq<FormatItem>)
    requires AllFloat(items) && offset % 4 == 0
    ensures CalcFrom(offset, items) == offset + Packed(items)
    decreases |items|
  {
    if |items| > 0 {
      assert items[0].t == Float;
      var bytes := items[0].count * 4;
      FloatsStayAligned(offset, items[0].count);
      assert CalcFrom(offset, items) == CalcFrom(offset + bytes, items[1..]);
      assert AllFloat(items[1..]);
      CalcFromFloats(offset + bytes, items[1..]);
    }
  }

  /** Whole floats after an aligned offset end on an aligned offset. */
  lemma {:induction false} FloatsStayAligned(offset: nat, count: nat)
    requires offset % 4 == 0
    ensures (offset + count * 4) % 4 == 0
  {
    if count > 0 {
      FloatsStayAligned(offset, count - 1);
      assert offset + count * 4 == (offset + (count - 1) * 4) + 4;
    }
  }

  /**
   `MDLVertexFormat(attribs)`: asserts at most 8 attributes, then for each
   attribute in order asserts a non-zero count, appends its format string
   and stores its (count, type) tuple in its kind's slot.
   */
  method NewVertexFormat(attribs: seq<VertexAttrib>) returns (r: Result<VertexFormat>)
    ensures r.Ok? <==> |attribs| <= SlotCount && forall j :: 0 <= j < |attribs| ==> attribs[j].count != 0
    ensures r.Ok? ==> |r.value.slots| == SlotCount
    ensures r.Ok? ==> forall s :: 0 <= s < SlotCount ==> r.value.slots[s] == LastFor(attribs, s)
    ensures r.Ok? ==> r.value.formatString == Render(ItemsOf(attribs))
  {
    var slots: seq<(nat, nat)> := seq(SlotCount, _ => (0, 0));
    if |attribs| > SlotCount {
      return AssertionFailed;
    }
    var fs := "";
    var i := 0;
    while i < |attribs|
      invariant 0 <= i <= |attribs|
      invariant forall j :: 0 <= j < i ==> attribs[j].count != 0
      invariant |slots| == SlotCount
      invariant forall s :: 0 <= s < SlotCount ==> slots[s] == LastFor(attribs[..i], s)
      invariant fs == Render(ItemsOf(attribs[..i]))
    {
      var a := attribs[i];
      if a.count == 0 {
        return AssertionFailed;
      }
      assert attribs[..i + 1][..i] == attribs[..i];
      assert ItemsOf(attribs[..i + 1]) == ItemsOf(attribs[..i]) + [ItemOf(a)];
      RenderSnoc(ItemsOf(attribs[..i]), ItemOf(a));
      fs := fs + Decimal(a.count) + [FormatChar(a.componentType)];
      slots := slots[Slot(a.kind) := SlotTuple(a)];
      i := i + 1;
    }
    assert attribs[..i] == attribs;
    r := Ok(VertexFormat(slots, fs));
  }

  /** `getVertexSize`: `struct.calcsize` of the format string, or an error if it does not parse. */
  function VertexSize(vf: VertexFormat): Option<nat> {
    match ParseFormat(vf.formatString)
    case None => None
    case Some(items) => Some(CalcSize(items))
  }

  /** The vertex size of a format built from attributes is the aligned size of their items. */
  lemma VertexSizeOfAttribs(attribs: seq<VertexAttrib>, vf: VertexFormat)
    requires vf.formatString == Render(ItemsOf(attribs))
    ensures VertexSize(vf) == Some(CalcSize(ItemsOf(attribs)))
    ensures Packed(ItemsOf(attribs)) <= CalcSize(ItemsOf(attribs)) <= Packed(ItemsOf(attribs)) + 3 * |attribs|
  {
    ParseRender(ItemsOf(attribs));
    CalcFromBounds(0, ItemsOf(attribs));
  }

  /** `struct.calcsize("16B")`: the slot table is written as 16 bytes. */
  const VertexFormatSize: nat := 16

  /** The 16 values `write` packs: each slot's count then its type code. */
  function FlattenSlots(slots: seq<(nat, nat)>): (r: seq<nat>)
    ensures |r| == 2 * |slots|
    ensures forall j :: 0 <= j < |slots| ==> r[2 * j] == slots[j].0 && r[2 * j + 1] == slots[j].1
  {
    if |slots| == 0 then []
    else
      var r := [slots[0].0, slots[0].1] + FlattenSlots(slots[1..]);
      assert forall j :: 1 <= j < |slots| ==> r[2 * j] == FlattenSlots(slots[1..])[2 * (j - 1)];
      r
  }

  /** The slot table of a built format fills exactly the 16 bytes `getSize` reports. */
  lemma SlotTableSize(slots: seq<(nat, nat)>)
    requires |slots| == SlotCount
    ensures |FlattenSlots(slots)| == VertexFormatSize
  {
  }

  datatype VertexArray = VertexArray(format: VertexFormat, vertexCount: nat)

  /** `MDLVertexArray.getSize`, for a format whose string parses. */
  function VertexArraySize(va: VertexArray): nat
    requires VertexSize(va.format).Some?
  {
    VertexFormatSize + 4 + VertexSize(va.format).value * va.vertexCount
  }

  /**
   The bytes `MDLVertexArray.write` emits: the 16-byte slot table, the
   4-byte length, then one packed vertex after another, each as long as the
   format's size.
   */
  function VertexArrayWritten(va: VertexArray, n: nat): nat
    requires VertexSize(va.format).Some?
    requires n <= va.vertexCount
    decreases n
  {
    if n == 0 then |FlattenSlots(va.format.slots)| + 4
    else VertexArrayWritten(va, n - 1) + VertexSize(va.format).value
  }

  lemma {:induction false} VertexArrayWriteSize(va: VertexArray, n: nat)
    requires VertexSize(va.format).Some? && |va.format.slots| == SlotCount
    requires n <= va.vertexCount
    ensures VertexArrayWritten(va, n) == VertexFormatSize + 4 + VertexSize(va.format).value * n
    decreases n
  {
    if n > 0 {
      VertexArrayWriteSize(va, n - 1);
    }
  }

  // ---------------------------------------------------------------------
  // Meshes and the triangle chunk
  // ---------------------------------------------------------------------

  datatype TriangleBatch = TriangleBatch(matIndex: int, indices: seq<nat>)
  datatype Mesh = Mesh(vertexArrayIndex: nat, batches: seq<TriangleBatch>)

  /** `MDLMesh(vertex_array_index, batches)` ignores its first argument and stores 0. */
  function NewMesh(vertexArrayIndex: nat, batches: seq<TriangleBatch>): (m: Mesh)
    ensures m.vertexArrayIndex == 0 && m.batches == batches
  {
    Mesh(0, batches)
  }

  /** The batches of all meshes, in mesh order. */
  function AllBatches(meshes: seq<Mesh>): seq<TriangleBatch> {
    if |meshes| == 0 then [] else AllBatches(meshes[..|meshes| - 1]) + meshes[|meshes| - 1].batches
  }

  /** The number of indices in a run of batches. */
  function IndexTotal(bs: seq<TriangleBatch>): nat {
    if |bs| == 0 then 0 else IndexTotal(bs[..|bs| - 1]) + |bs[|bs| - 1].indices|
  }

  lemma {:induction false} IndexTotalAppend(a: seq<TriangleBatch>, b: seq<TriangleBatch>)
    ensures IndexTotal(a + b) == IndexTotal(a) + IndexTotal(b)
    decreases |b|
  {
    if |b| == 0 {
      assert a + b == a;
    } else {
      assert (a + b)[..|a + b| - 1] == a + b[..|b| - 1];
      assert (a + b)[|a + b| - 1] == b[|b| - 1];
      IndexTotalAppend(a, b[..|b| - 1]);
    }
  }

  /** `struct.calcsize("4s2I")`: the chunk type, size and item count. */
  const ChunkHeaderSize: nat := 12

  /** The size `getSize` adds for the batches of one mesh: 12 each plus 2 per index. */
  function BatchBytes(bs: seq<TriangleBatch>): nat {
    if |bs| == 0 then 0 else BatchBytes(bs[..|bs| - 1]) + 12 + 2 * |bs[|bs| - 1].indices|
  }

  /** `MDLTriangleChunk.getSize` before padding: the header, 12 per mesh, then its batches. */
  function TriangleUnpadded(meshes: seq<Mesh>): nat {
    if |meshes| == 0 then ChunkHeaderSize
    else TriangleUnpadded(meshes[..|meshes| - 1]) + 12 + BatchBytes(meshes[|meshes| - 1].batches)
  }

  /** `MDLTriangleChunk.getSize`: two padding bytes when the size is not a multiple of 4. */
  function TriangleChunkSize(meshes: seq<Mesh>): (r: nat)
    ensures var bs := AllBatches(meshes);
            r == ChunkHeaderSize + 12 * |meshes| + 12 * |bs| + 2 * IndexTotal(bs)
                 + (if IndexTotal(bs) % 2 == 1 then 2 else 0)
  {
    TriangleUnpaddedClosed(meshes);
    EvenPadding(3 + 3 * |meshes| + 3 * |AllBatches(meshes)|, IndexTotal(AllBatches(meshes)));
    var size := TriangleUnpadded(meshes);
    if size % 4 != 0 then size + 2 else size
  }

  lemma {:induction false} BatchBytesClosed(bs: seq<TriangleBatch>)
    ensures BatchBytes(bs) == 12 * |bs| + 2 * IndexTotal(bs)
  {
    if |bs| > 0 {
      BatchBytesClosed(bs[..|bs| - 1]);
    }
  }

  lemma {:induction false} TriangleUnpaddedClosed(meshes: seq<Mesh>)
    ensures TriangleUnpadded(meshes)
            == ChunkHeaderSize + 12 * |meshes| + 12 * |AllBatches(meshes)| + 2 * IndexTotal(AllBatches(meshes))
  {
    if |meshes| > 0 {
      var init := meshes[..|meshes| - 1];
      var last := meshes[|meshes| - 1];
      TriangleUnpaddedClosed(init);
      BatchBytesClosed(last.batches);
      IndexTotalAppend(AllBatches(init), last.batches);
    }
  }

  /**
   The padding `getSize` adds is needed exactly when the chunk holds an odd
   number of indices, the same condition `write` uses for its 2 pad bytes;
   the padded size is then a multiple of 4.
   */
  lemma TrianglePadding(meshes: seq<Mesh>)
    ensures TriangleUnpadded(meshes) % 4 != 0 <==> IndexTotal(AllBatches(meshes)) % 2 == 1
    ensures TriangleChunkSize(meshes) % 4 == 0
  {
    TriangleUnpaddedClosed(meshes);
    EvenPadding(3 + 3 * |meshes| + 3 * |AllBatches(meshes)|, IndexTotal(AllBatches(meshes)));
  }

  lemma EvenPadding(k: nat, t: nat)
    ensures (4 * k + 2 * t) % 4 != 0 <==> t % 2 == 1
    ensures (4 * k + 2 * t) % 4 != 0 ==> (4 * k + 2 * t + 2) % 4 == 0
  {
  }

  /** A batch header as `write` packs it: material, first index, index count. */
  datatype BatchHeader = BatchHeader(matIndex: int, start: nat, count: nat)

  /** The header each batch should get: its first index is the number of indices before it. */
  function ExpectedHeaders(bs: seq<TriangleBatch>): (hs: seq<BatchHeader>)
    ensures |hs| == |bs|
  {
    seq(|bs|, j requires 0 <= j < |bs| => BatchHeader(bs[j].matIndex, IndexTotal(bs[..j]), |bs[j].indices|))
  }

  lemma ExpectedHeadersSnoc(bs: seq<TriangleBatch>, b: TriangleBatch)
    ensures ExpectedHeaders(bs + [b]) == ExpectedHeaders(bs) + [BatchHeader(b.matIndex, IndexTotal(bs), |b.indices|)]
  {
    assert (bs + [b])[..|bs|] == bs;
    assert forall j :: 0 <= j < |bs| ==> (bs + [b])[..j] == bs[..j];
  }

  /** The bytes `write` emits after the batch headers: the index count, two per index, and the pad. */
  function IndexDataBytes(total: nat): nat {
    4 + 2 * total + (if total % 2 != 0 then 2 else 0)
  }

  /**
   `MDLTriangleChunk.write`: walks the meshes and their batches, giving
   each batch the running index count as its start, then writes the total
   and the index data. Returns the headers, the trailing count and the
   number of bytes written, which is `getSize` plus the 4-byte count field
   `getSize` leaves out.
   */
  method WriteTriangleChunk(meshes: seq<Mesh>) returns (headers: seq<BatchHeader>, indexCount: nat, written: nat)
    ensures headers == ExpectedHeaders(AllBatches(meshes))
    ensures indexCount == IndexTotal(AllBatches(meshes))
    ensures written == TriangleChunkSize(meshes) + 4
  {
    written := ChunkHeaderSize;
    headers := [];
    var triangleIndex := 0;
    var i := 0;
    while i < |meshes|
      invariant 0 <= i <= |meshes|
      invariant headers == ExpectedHeaders(AllBatches(meshes[..i]))
      invariant triangleIndex == IndexTotal(AllBatches(meshes[..i]))
      invariant written == ChunkHeaderSize + 12 * i + 12 * |AllBatches(meshes[..i])|
    {
      var bs := meshes[i].batches;
      assert meshes[..i + 1][..i] == meshes[..i];
      assert AllBatches(meshes[..i + 1]) == AllBatches(meshes[..i]) + bs;
      headers, triangleIndex := WriteBatchHeaders(AllBatches(meshes[..i]), bs, headers, triangleIndex);
      written := written + 12 + 12 * |bs|;
      i := i + 1;
    }
    assert meshes[..i] == meshes;
    indexCount := triangleIndex;
    written := written + IndexDataBytes(triangleIndex);
    TriangleUnpaddedClosed(meshes);
    TrianglePadding(meshes);
  }

  /**
   The batch loop of one mesh: after the batches `done`, one header per
   batch of `bs`, each starting at the running index count.
   */
  method WriteBatchHeaders(done: seq<TriangleBatch>, bs: seq<TriangleBatch>, headers0: seq<BatchHeader>, start: nat)
    returns (headers: seq<BatchHeader>, triangleIndex: nat)
    requires headers0 == ExpectedHeaders(done) && start == IndexTotal(done)
    ensures headers == ExpectedHeaders(done + bs) && triangleIndex == IndexTotal(done + bs)
  {
    headers, triangleIndex := headers0, start;
    var j := 0;
    assert done + bs[..0] == done;
    while j < |bs|
      invariant 0 <= j <= |bs|
      invariant headers == ExpectedHeaders(done + bs[..j])
      invariant triangleIndex == IndexTotal(done + bs[..j])
    {
      var prefix := done + bs[..j];
      assert done + bs[..j + 1] == prefix + [bs[j]];
      ExpectedHeadersSnoc(prefix, bs[j]);
      assert (prefix + [bs[j]])[..|prefix + [bs[j]]| - 1] == prefix;
      var count := |bs[j].indices|;
      headers := headers + [BatchHeader(bs[j].matIndex, triangleIndex, count)];
      triangleIndex := triangleIndex + count;
      j := j + 1;
    }
    assert bs[..j] == bs;
  }

  // ---------------------------------------------------------------------
  // Chunks and the file header
  // ---------------------------------------------------------------------

  /** `struct.calcsize("1I10f6f")`: mesh index, transform, box. */
  const NodeRecordSize: nat := 68
  /** `63sx`: a material's path. */
  const MaterialRecordSize: nat := 64
  /** `struct.calcsize("4s3I")`: magic, version, file size, chunk count. */
  const FileHeaderSize: nat := 16

  datatype Chunk =
    | NodeChunk(nodeCount: nat)
    | MaterialChunk(materials: seq<string>)
    | SkeletonChunk(bones: seq<Bone>)
    | ActionChunk(actions: seq<Action>)
    | VertexChunk(arrays: seq<VertexArray>)
    | TriangleChunk(meshes: seq<Mesh>)

  /** Every vertex array's format string parses, so `calcsize` can size it. */
  predicate Sizable(c: Chunk) {
    c.VertexChunk? ==> forall j :: 0 <= j < |c.arrays| ==> VertexSize(c.arrays[j].format).Some?
  }

  function ActionsSize(actions: seq<Action>): nat {
    if |actions| == 0 then 0 else ActionsSize(actions[..|actions| - 1]) + ActionSize(actions[|actions| - 1])
  }

  function ArraysSize(arrays: seq<VertexArray>): nat
    requires forall j :: 0 <= j < |arrays| ==> VertexSize(arrays[j].format).Some?
  {
    if |arrays| == 0 then 0 else ArraysSize(arrays[..|arrays| - 1]) + VertexArraySize(arrays[|arrays| - 1])
  }

  /** Each chunk's `getSize`. */
  function ChunkSize(c: Chunk): (r: nat)
    requires Sizable(c)
    ensures r >= ChunkHeaderSize
    ensures c.TriangleChunk? ==> r % 4 == 0
  {
    match c
    case NodeChunk(n) => ChunkHeaderSize + n * NodeRecordSize
    case MaterialChunk(ms) => ChunkHeaderSize + MaterialRecordSize * |ms|
    case SkeletonChunk(bs) => ChunkHeaderSize + BoneSize * |bs|
    case ActionChunk(as_) => ChunkHeaderSize + ActionsSize(as_)
    case VertexChunk(vas) => ChunkHeaderSize + ArraysSize(vas)
    case TriangleChunk(ms) => TriangleChunkSize(ms)
  }

  /**
   The bytes each chunk's `write` emits when its assertions pass: its size,
   except that the triangle chunk also writes the index count `getSize`
   leaves out.
   */
  function ChunkWritten(c: Chunk): nat
    requires Sizable(c)
  {
    match c
    case TriangleChunk(ms) => ChunkSize(c) + 4
    case _ => ChunkSize(c)
  }

  predicate AllSizable(chunks: seq<Chunk>) {
    forall j :: 0 <= j < |chunks| ==> Sizable(chunks[j])
  }

  /** `MDLModel.export`'s `file_size`: the header plus every chunk's `getSize`. */
  function FileSize(chunks: seq<Chunk>): (size: nat)
    requires AllSizable(chunks)
    ensures size >= FileHeaderSize + ChunkHeaderSize * |chunks|
  {
    if |chunks| == 0 then FileHeaderSize
    else FileSize(chunks[..|chunks| - 1]) + ChunkSize(chunks[|chunks| - 1])
  }

  /** The bytes `export` writes: the header, then every chunk's output. */
  function FileWritten(chunks: seq<Chunk>): nat
    requires AllSizable(chunks)
  {
    if |chunks| == 0 then FileHeaderSize
    else FileWritten(chunks[..|chunks| - 1]) + ChunkWritten(chunks[|chunks| - 1])
  }

  function TriangleChunkCount(chunks: seq<Chunk>): nat {
    if |chunks| == 0 then 0
    else TriangleChunkCount(chunks[..|chunks| - 1]) + (if chunks[|chunks| - 1].TriangleChunk? then 1 else 0)
  }

  /**
   The header's `file_size` is the file's length only without triangle
   chunks: each one makes the file 4 bytes longer than the size recorded.
   */
  lemma {:induction false} FileSizeVersusWritten(chunks: seq<Chunk>)
    requires AllSizable(chunks)
    ensures FileWritten(chunks) == FileSize(chunks) + 4 * TriangleChunkCount(chunks)
  {
    if |chunks| > 0 {
      FileSizeVersusWritten(chunks[..|chunks| - 1]);
    }
  }

  /**
   The evidently intended `getSize` of each chunk: the triangle chunk also
   counts the 4-byte index count its `write` emits before the index data.
   */
  function ChunkSizeFixed(c: Chunk): nat
    requires Sizable(c)
  {
    match c
    case TriangleChunk(ms) =>
      var size := TriangleUnpadded(ms) + 4;
      if size % 4 != 0 then size + 2 else size
    case _ => ChunkSize(c)
  }

  /** `file_size` computed from the corrected chunk sizes. */
  function FileSizeFixed(chunks: seq<Chunk>): nat
    requires AllSizable(chunks)
  {
    if |chunks| == 0 then FileHeaderSize
    else FileSizeFixed(chunks[..|chunks| - 1]) + ChunkSizeFixed(chunks[|chunks| - 1])
  }

  /** With the corrected sizes, the header's `file_size` is exactly the number of bytes `export` writes. */
  lemma {:induction false} FixedFileSizeMatches(chunks: seq<Chunk>)
    requires AllSizable(chunks)
    ensures FileWritten(chunks) == FileSizeFixed(chunks)
  {
    if |chunks| > 0 {
      FixedFileSizeMatches(chunks[..|chunks| - 1]);
      var c := chunks[|chunks| - 1];
      if c.TriangleChunk? {
        TrianglePadding(c.meshes);
      }
    }
  }
}
