/**
  The byte codec of world states: full keyframes and deltas against a base state.

  The conversion between doubles and 32-bit floats is a parameter: `bits` is what
  `static_cast<float>` followed by a copy of the bits yields, `value` reads bits back.
 */
module DeltaCodec {
  import opened Collections
  import opened MachineWords
  import opened PongPhysics

  type Bytes = seq<U8>

  datatype F32 = F32(bits: real -> U32, value: U32 -> real) {
    /** A double after being stored as a float. */
    function Round(x: real): real { value(bits(x)) }
  }

  // ------------------------------------------------------------------- integers

  /** `n` bytes of `v`, least significant first. */
  function LittleEndian(v: nat, n: nat): (b: Bytes)
    ensures |b| == n
    decreases n
  {
    if n == 0 then [] else [v % 0x100] + LittleEndian(v / 0x100, n - 1)
  }

  function FromBytes(b: Bytes): nat {
    if b == [] then 0 else b[0] + 0x100 * FromBytes(b[1..])
  }

  function Pow256(n: nat): nat { if n == 0 then 1 else 0x100 * Pow256(n - 1) }

  lemma {:induction false} BytesRoundTrip(v: nat, n: nat)
    requires v < Pow256(n)
    ensures FromBytes(LittleEndian(v, n)) == v
    decreases n
  {
    if n > 0 {
      BytesRoundTrip(v / 0x100, n - 1);
      assert LittleEndian(v, n)[1..] == LittleEndian(v / 0x100, n - 1);
    }
  }

  lemma {:induction false} FromBytesBounded(b: Bytes)
    ensures FromBytes(b) < Pow256(|b|)
  {
    if b != [] { FromBytesBounded(b[1..]); }
  }

  lemma WordWidths()
    ensures Pow256(1) == 0x100 && Pow256(2) == TWO_16 && Pow256(4) == TWO_32
  {
    assert Pow256(3) == 0x100_0000;
  }

  function Signed8(u: U8): int { if u >= 0x80 then u - 0x100 else u }

  /** `static_cast<int8_t>` and back to an unsigned byte. */
  function Unsigned8(x: int): U8 { x % 0x100 }

  function Unsigned16(x: int): U16 { x % TWO_16 }

  // ---------------------------------------------------------- writers and readers

  const WORD: nat := 4
  const DOUBLES: nat := 6
  const HALFWORD: nat := 2

  function U32Bytes(v: U32): (b: Bytes)
    ensures |b| == 4
  {
    LittleEndian(v, WORD)
  }

  function I16Bytes(x: int): (b: Bytes)
    ensures |b| == 2
  {
    LittleEndian(Unsigned16(x), HALFWORD)
  }

  function I8Bytes(x: int): (b: Bytes)
    ensures |b| == 1
  {
    [Unsigned8(x)]
  }

  function F32Bytes(xs: seq<real>, f: F32): (b: Bytes)
    ensures |b| == 4 * |xs|
  {
    if xs == [] then [] else U32Bytes(f.bits(xs[0])) + F32Bytes(xs[1..], f)
  }

  /** The reader's underflow check: `n` more bytes from `offset`. */
  predicate Has(b: Bytes, offset: nat, n: nat) { offset + n <= |b| }

  function ReadU32(b: Bytes, offset: nat): U32
    requires Has(b, offset, 4)
  {
    WordWidths();
    FromBytesBounded(b[offset..offset + 4]);
    FromBytes(b[offset..offset + 4])
  }

  function ReadI16(b: Bytes, offset: nat): int
    requires Has(b, offset, 2)
  {
    WordWidths();
    FromBytesBounded(b[offset..offset + 2]);
    Signed16(FromBytes(b[offset..offset + 2]))
  }

  function ReadI8(b: Bytes, offset: nat): int
    requires Has(b, offset, 1)
  {
    Signed8(b[offset])
  }

  function ReadF32s(b: Bytes, offset: nat, n: nat, f: F32): (xs: seq<real>)
    requires Has(b, offset, 4 * n)
    ensures |xs| == n
    decreases n
  {
    if n == 0 then [] else [f.value(ReadU32(b, offset))] + ReadF32s(b, offset + 4, n - 1, f)
  }

  lemma ReadsU32(pre: Bytes, v: U32, post: Bytes)
    ensures ReadU32(pre + U32Bytes(v) + post, |pre|) == v
  {
    var b := pre + U32Bytes(v) + post;
    assert b[|pre|..|pre| + 4] == U32Bytes(v);
    WordWidths();
    BytesRoundTrip(v, WORD);
  }

  lemma ReadsI16(pre: Bytes, x: int, post: Bytes)
    ensures ReadI16(pre + I16Bytes(x) + post, |pre|) == Signed16(Unsigned16(x))
  {
    var b := pre + I16Bytes(x) + post;
    assert b[|pre|..|pre| + 2] == I16Bytes(x);
    WordWidths();
    BytesRoundTrip(Unsigned16(x), HALFWORD);
  }

  lemma {:induction false} ReadsF32s(pre: Bytes, xs: seq<real>, post: Bytes, f: F32)
    ensures ReadF32s(pre + F32Bytes(xs, f) + post, |pre|, |xs|, f) == Rounded(xs, f)
    decreases |xs|
  {
    if xs != [] {
      var b := pre + F32Bytes(xs, f) + post;
      var head := U32Bytes(f.bits(xs[0]));
      assert b == pre + head + (F32Bytes(xs[1..], f) + post);
      ReadsU32(pre, f.bits(xs[0]), F32Bytes(xs[1..], f) + post);
      assert b == (pre + head) + F32Bytes(xs[1..], f) + post;
      ReadsF32s(pre + head, xs[1..], post, f);
      assert Rounded(xs, f)[1..] == Rounded(xs[1..], f);
      assert Rounded(xs, f) == [f.Round(xs[0])] + Rounded(xs[1..], f);
    }
  }

  function Rounded(xs: seq<real>, f: F32): (r: seq<real>)
    ensures |r| == |xs|
  {
    seq(|xs|, i requires 0 <= i < |xs| => f.Round(xs[i]))
  }

  // --------------------------------------------------------------------- states

  /** The six doubles of a state, in the order they are written. */
  function Motion(s: WorldState): (xs: seq<real>)
    ensures |xs| == 6
  {
    [s.ballX, s.ballY, s.ballVx, s.ballVy, s.leftPaddleY, s.rightPaddleY]
  }

  function FromParts(xs: seq<real>, left: U32, right: U32, tick: nat, leftDir: int, rightDir: int): WorldState
    requires |xs| == 6
  {
    WorldState(xs[0], xs[1], xs[2], xs[3], xs[4], xs[5], left, right, tick, leftDir, rightDir)
  }

  function Minus(xs: seq<real>, ys: seq<real>): (r: seq<real>)
    requires |xs| == |ys|
    ensures |r| == |xs|
  {
    seq(|xs|, i requires 0 <= i < |xs| => xs[i] - ys[i])
  }

  function Plus(xs: seq<real>, ys: seq<real>): (r: seq<real>)
    requires |xs| == |ys|
    ensures |r| == |xs|
  {
    seq(|xs|, i requires 0 <= i < |xs| => xs[i] + ys[i])
  }

  function EncodeKeyframe(s: WorldState, f: F32): Bytes {
    F32Bytes(Motion(s), f) + U32Bytes(s.leftScore) + U32Bytes(s.rightScore)
      + I8Bytes(s.leftDirection) + I8Bytes(s.rightDirection)
  }

  /** `None` is the underflow exception. */
  function DecodeKeyframe(b: Bytes, tick: nat, f: F32): Option<WorldState> {
    if !Has(b, 0, 34) then None
    else Some(FromParts(ReadF32s(b, 0, DOUBLES, f), ReadU32(b, 24), ReadU32(b, 28), tick, ReadI8(b, 32), ReadI8(b, 33)))
  }

  function EncodeDelta(base: WorldState, s: WorldState, f: F32): Bytes {
    F32Bytes(Minus(Motion(s), Motion(base)), f)
      + I16Bytes(s.leftScore - base.leftScore) + I16Bytes(s.rightScore - base.rightScore)
      + I8Bytes(s.leftDirection) + I8Bytes(s.rightDirection)
  }

  function ApplyDelta(base: WorldState, b: Bytes, tick: nat, f: F32): Option<WorldState> {
    if !Has(b, 0, 30) then None
    else Some(Applied(base, ReadF32s(b, 0, DOUBLES, f), ReadI16(b, 24), ReadI16(b, 26), tick,
                      ReadI8(b, 28), ReadI8(b, 29)))
  }

  /** A base moved by these differences and score changes. */
  function Applied(base: WorldState, ds: seq<real>, left: int, right: int, tick: nat, leftDir: int,
                   rightDir: int): WorldState
    requires |ds| == 6
  {
    FromParts(Plus(Motion(base), ds), (base.leftScore + left) % TWO_32, (base.rightScore + right) % TWO_32,
              tick, leftDir, rightDir)
  }

  /** The four codec operations as values, so that what is built on them does not depend on the bytes. */
  datatype Codec = Codec(keyframe: WorldState -> Bytes, delta: (WorldState, WorldState) -> Bytes,
                         readKeyframe: (Bytes, nat) -> Option<WorldState>,
                         applyDelta: (WorldState, Bytes, nat) -> Option<WorldState>)

  function CodecOf(f: F32): Codec {
    Codec((s: WorldState) => EncodeKeyframe(s, f), (base: WorldState, s: WorldState) => EncodeDelta(base, s, f),
          (b: Bytes, tick: nat) => DecodeKeyframe(b, tick, f),
          (base: WorldState, b: Bytes, tick: nat) => ApplyDelta(base, b, tick, f))
  }

  // ----------------------------------------------------------------- round trips

  /** What a keyframe of `s` reads back as. */
  function KeyImage(s: WorldState, tick: nat, f: F32): WorldState {
    FromParts(Rounded(Motion(s), f), s.leftScore, s.rightScore, tick, s.leftDirection, s.rightDirection)
  }

  /** What a delta from `b` to `s` makes of the base `base`. */
  function DeltaImage(b: WorldState, s: WorldState, base: WorldState, tick: nat, f: F32): WorldState {
    Applied(base, Rounded(Minus(Motion(s), Motion(b)), f), Signed16(Unsigned16(s.leftScore - b.leftScore)),
            Signed16(Unsigned16(s.rightScore - b.rightScore)), tick, s.leftDirection, s.rightDirection)
  }

  ghost predicate DirectionsFit(s: WorldState) {
    -0x80 <= s.leftDirection < 0x80 && -0x80 <= s.rightDirection < 0x80
  }

  /** The five fields of an encoding, each found at its offset. */
  lemma Layout(xs: Bytes, l: Bytes, r: Bytes, dl: Bytes, dr: Bytes)
    requires |dl| == |dr| == 1
    ensures var b := xs + l + r + dl + dr;
            && |b| == |xs| + |l| + |r| + 2
            && b == [] + xs + (l + r + dl + dr) && b == xs + l + (r + dl + dr) && b == (xs + l) + r + (dl + dr)
            && b[|xs| + |l| + |r|] == dl[0] && b[|xs| + |l| + |r| + 1] == dr[0]
  {
  }

  lemma Assoc(a: Bytes, b: Bytes, c: Bytes)
    ensures a + (b + c) == a + b + c
  {
  }

  lemma KeyframeReads(xs: seq<real>, l: U32, r: U32, dl: int, dr: int, f: F32)
    ensures var b, n := F32Bytes(xs, f) + U32Bytes(l) + U32Bytes(r) + I8Bytes(dl) + I8Bytes(dr), 4 * |xs|;
            && |b| == n + 10 && ReadF32s(b, 0, |xs|, f) == Rounded(xs, f)
            && ReadU32(b, n) == l && ReadU32(b, n + 4) == r
            && ReadI8(b, n + 8) == Signed8(Unsigned8(dl)) && ReadI8(b, n + 9) == Signed8(Unsigned8(dr))
  {
    var bx, bl, br, b1, b2 := F32Bytes(xs, f), U32Bytes(l), U32Bytes(r), I8Bytes(dl), I8Bytes(dr);
    Layout(bx, bl, br, b1, b2);
    ReadsF32s([], xs, bl + br + b1 + b2, f);
    ReadsU32(bx, l, br + b1 + b2);
    ReadsU32(bx + bl, r, b1 + b2);
  }

  lemma DeltaReads(xs: seq<real>, l: int, r: int, dl: int, dr: int, f: F32)
    ensures var b, n := F32Bytes(xs, f) + I16Bytes(l) + I16Bytes(r) + I8Bytes(dl) + I8Bytes(dr), 4 * |xs|;
            && |b| == n + 6 && ReadF32s(b, 0, |xs|, f) == Rounded(xs, f)
            && ReadI16(b, n) == Signed16(Unsigned16(l)) && ReadI16(b, n + 2) == Signed16(Unsigned16(r))
            && ReadI8(b, n + 4) == Signed8(Unsigned8(dl)) && ReadI8(b, n + 5) == Signed8(Unsigned8(dr))
  {
    var bx, bl, br, b1, b2 := F32Bytes(xs, f), I16Bytes(l), I16Bytes(r), I8Bytes(dl), I8Bytes(dr);
    Layout(bx, bl, br, b1, b2);
    ReadsF32s([], xs, bl + br + b1 + b2, f);
    ReadsI16(bx, l, br + b1 + b2);
    ReadsI16(bx + bl, r, b1 + b2);
  }

  /**
    A keyframe gives back everything but the tick it is labelled with, each double rounded once,
    exactly if the directions fit their bytes.
   */
  lemma KeyframeRoundTrip(s: WorldState, tick: nat, f: F32)
    ensures DecodeKeyframe(EncodeKeyframe(s, f), tick, f) == Some(KeyImage(s, tick, f)) <==> DirectionsFit(s)
  {
    KeyframeReads(Motion(s), s.leftScore, s.rightScore, s.leftDirection, s.rightDirection, f);
    FitsByte(s.leftDirection);
    FitsByte(s.rightDirection);
  }

  /**
    A delta applied to any base gives the sum of that base and the rounded differences, the
    directions, and the score the base would have after the encoded score changes, exactly if
    the directions fit their bytes.
   */
  lemma DeltaRoundTrip(base: WorldState, s: WorldState, base': WorldState, tick: nat, f: F32)
    ensures ApplyDelta(base', EncodeDelta(base, s, f), tick, f) == Some(DeltaImage(base, s, base', tick, f)) <==>
            DirectionsFit(s)
  {
    DeltaReadsBack(base, s, base', tick, f);
    FitsByte(s.leftDirection);
    FitsByte(s.rightDirection);
  }

  lemma DeltaReadsBack(base: WorldState, s: WorldState, base': WorldState, tick: nat, f: F32)
    ensures ApplyDelta(base', EncodeDelta(base, s, f), tick, f)
         == Some(DeltaImage(base, s, base', tick, f).(leftDirection := Signed8(Unsigned8(s.leftDirection)),
                                                      rightDirection := Signed8(Unsigned8(s.rightDirection))))
  {
    var ds, b := Minus(Motion(s), Motion(base)), EncodeDelta(base, s, f);
    DeltaReads(ds, s.leftScore - base.leftScore, s.rightScore - base.rightScore, s.leftDirection, s.rightDirection, f);
    DeltaDecodes(b, base', Rounded(ds, f), Signed16(Unsigned16(s.leftScore - base.leftScore)),
                 Signed16(Unsigned16(s.rightScore - base.rightScore)), tick,
                 Signed8(Unsigned8(s.leftDirection)), Signed8(Unsigned8(s.rightDirection)), f);
  }

  lemma FitsByte(x: int)
    ensures Signed8(Unsigned8(x)) == x <==> -0x80 <= x < 0x80
  {
  }

  lemma DeltaDecodes(b: Bytes, base: WorldState, ds: seq<real>, l: int, r: int, tick: nat, dl: int, dr: int, f: F32)
    requires |b| == 30 && |ds| == 6 && ReadF32s(b, 0, DOUBLES, f) == ds
    requires ReadI16(b, 24) == l && ReadI16(b, 26) == r && ReadI8(b, 28) == dl && ReadI8(b, 29) == dr
    ensures ApplyDelta(base, b, tick, f) == Some(Applied(base, ds, l, r, tick, dl, dr))
  {
  }

  /** A codec whose reading undoes its writing up to float rounding. */
  ghost predicate Implements(c: Codec, f: F32) {
    && (forall s, tick :: DirectionsFit(s) ==> c.readKeyframe(c.keyframe(s), tick) == Some(KeyImage(s, tick, f)))
    && (forall b, s, base, tick :: DirectionsFit(s) ==>
          c.applyDelta(base, c.delta(b, s), tick) == Some(DeltaImage(b, s, base, tick, f)))
  }

  /** The byte codec is such a codec. */
  lemma CodecRoundTrips(f: F32)
    ensures Implements(CodecOf(f), f)
  {
    var c := CodecOf(f);
    forall s, tick: nat | DirectionsFit(s)
      ensures c.readKeyframe(c.keyframe(s), tick) == Some(KeyImage(s, tick, f))
    {
      KeyframeRoundTrip(s, tick, f);
    }
    forall b, s, base, tick: nat | DirectionsFit(s)
      ensures c.applyDelta(base, c.delta(b, s), tick) == Some(DeltaImage(b, s, base, tick, f))
    {
      DeltaRoundTrip(b, s, base, tick, f);
    }
  }

  /**
    Of all score changes the 16-bit field gives back those from -2^15 up to 2^15 - 1, and no
    others, even if the score itself wrapped.
   */
  lemma ScoreDeltaExact(base: U32, score: U32, gained: int)
    requires -0x8000_0000 <= gained < 0x8000_0000 && score == (base + gained) % TWO_32
    ensures (base + Signed16(Unsigned16(score - base))) % TWO_32 == score <==> -0x8000 <= gained < 0x8000
  {
  }

  // ------------------------------------------------------------- the wire, byte by byte

  /** The four bytes from offset `at` hold `v`, least significant first. */
  ghost predicate WordAt(b: Bytes, at: nat, v: U32) {
    && at + 4 <= |b|
    && var b0: int, b1: int, b2: int, b3: int := b[at], b[at + 1], b[at + 2], b[at + 3];
       v == b0 + 0x100 * b1 + 0x1_0000 * b2 + 0x100_0000 * b3
  }

  /** The two bytes from offset `at` hold `x` modulo 2^16, least significant first. */
  ghost predicate HalfwordAt(b: Bytes, at: nat, x: int) {
    && at + 2 <= |b|
    && var low: int, high: int := b[at], b[at + 1];
       x % 0x1_0000 == low + 0x100 * high
  }

  lemma WordBytes(v: U32)
    ensures WordAt(U32Bytes(v), 0, v)
  {
    var v1: nat := v / 0x100;
    var v2: nat := v1 / 0x100;
    var v3: nat := v2 / 0x100;
    assert U32Bytes(v) == [v % 0x100] + LittleEndian(v1, 3);
    assert LittleEndian(v1, 3) == [v1 % 0x100] + LittleEndian(v2, 2);
    assert LittleEndian(v2, 2) == [v2 % 0x100] + LittleEndian(v3, 1);
    assert LittleEndian(v3, 1) == [v3 % 0x100] + LittleEndian(v3 / 0x100, 0);
  }

  lemma HalfwordBytes(x: int)
    ensures HalfwordAt(I16Bytes(x), 0, x)
  {
    var v: nat := Unsigned16(x);
    assert I16Bytes(x) == [v % 0x100] + LittleEndian(v / 0x100, 1);
    assert LittleEndian(v / 0x100, 1) == [v / 0x100 % 0x100] + LittleEndian(v / 0x100 / 0x100, 0);
  }

  lemma WordInside(pre: Bytes, v: U32, post: Bytes)
    ensures WordAt(pre + U32Bytes(v) + post, |pre|, v)
  {
    var b := pre + U32Bytes(v) + post;
    WordBytes(v);
    assert b[|pre|..|pre| + 4] == U32Bytes(v);
    assert forall i :: 0 <= i < 4 ==> b[|pre| + i] == U32Bytes(v)[i];
    assert b[|pre|] == U32Bytes(v)[0] && b[|pre| + 1] == U32Bytes(v)[1];
    assert b[|pre| + 2] == U32Bytes(v)[2] && b[|pre| + 3] == U32Bytes(v)[3];
  }

  lemma HalfwordInside(pre: Bytes, x: int, post: Bytes)
    ensures HalfwordAt(pre + I16Bytes(x) + post, |pre|, x)
  {
    var b := pre + I16Bytes(x) + post;
    HalfwordBytes(x);
    assert b[|pre|] == I16Bytes(x)[0] && b[|pre| + 1] == I16Bytes(x)[1];
  }

  lemma {:induction false} FloatInside(pre: Bytes, xs: seq<real>, post: Bytes, f: F32, i: nat)
    requires i < |xs|
    ensures WordAt(pre + F32Bytes(xs, f) + post, |pre| + 4 * i, f.bits(xs[i]))
    decreases |xs|
  {
    var head, tail := U32Bytes(f.bits(xs[0])), F32Bytes(xs[1..], f);
    assert pre + (head + tail) + post == pre + head + (tail + post);
    if i == 0 {
      WordInside(pre, f.bits(xs[0]), tail + post);
    } else {
      assert pre + head + (tail + post) == (pre + head) + tail + post;
      FloatInside(pre + head, xs[1..], post, f, i - 1);
    }
  }

  /** The floats of six doubles, one after the other from the start. */
  ghost predicate FloatsAt(b: Bytes, f: F32, x0: real, x1: real, x2: real, x3: real, x4: real, x5: real) {
    && WordAt(b, 0, f.bits(x0)) && WordAt(b, 4, f.bits(x1)) && WordAt(b, 8, f.bits(x2))
    && WordAt(b, 12, f.bits(x3)) && WordAt(b, 16, f.bits(x4)) && WordAt(b, 20, f.bits(x5))
  }

  lemma FloatsFirst(xs: seq<real>, post: Bytes, f: F32)
    requires |xs| == 6
    ensures FloatsAt(F32Bytes(xs, f) + post, f, xs[0], xs[1], xs[2], xs[3], xs[4], xs[5])
  {
    assert [] + F32Bytes(xs, f) + post == F32Bytes(xs, f) + post;
    FloatInside([], xs, post, f, 0);
    FloatInside([], xs, post, f, 1);
    FloatInside([], xs, post, f, 2);
    FloatInside([], xs, post, f, 3);
    FloatInside([], xs, post, f, 4);
    FloatInside([], xs, post, f, 5);
  }

  lemma KeyframeParts(xs: seq<real>, l: U32, r: U32, dl: int, dr: int, f: F32)
    requires |xs| == 6
    ensures var b := F32Bytes(xs, f) + U32Bytes(l) + U32Bytes(r) + I8Bytes(dl) + I8Bytes(dr);
            && |b| == 34 && FloatsAt(b, f, xs[0], xs[1], xs[2], xs[3], xs[4], xs[5])
            && WordAt(b, 24, l) && WordAt(b, 28, r) && b[32] == dl % 0x100 && b[33] == dr % 0x100
  {
    var bx, bl, br, b1, b2 := F32Bytes(xs, f), U32Bytes(l), U32Bytes(r), I8Bytes(dl), I8Bytes(dr);
    Layout(bx, bl, br, b1, b2);
    FloatsFirst(xs, bl + br + b1 + b2, f);
    assert bx + (bl + br + b1 + b2) == bx + bl + br + b1 + b2;
    WordInside(bx, l, br + b1 + b2);
    WordInside(bx + bl, r, b1 + b2);
  }

  /** A keyframe's 34 bytes: ball, its velocity and the paddles as floats, the scores, the directions. */
  lemma KeyframeLayout(s: WorldState, f: F32)
    ensures var b := EncodeKeyframe(s, f);
            && |b| == 34 && FloatsAt(b, f, s.ballX, s.ballY, s.ballVx, s.ballVy, s.leftPaddleY, s.rightPaddleY)
            && WordAt(b, 24, s.leftScore) && WordAt(b, 28, s.rightScore)
            && b[32] == s.leftDirection % 0x100 && b[33] == s.rightDirection % 0x100
  {
    KeyframeParts(Motion(s), s.leftScore, s.rightScore, s.leftDirection, s.rightDirection, f);
  }

  lemma Differences(a: WorldState, s: WorldState)
    ensures Minus(Motion(s), Motion(a))
         == [s.ballX - a.ballX, s.ballY - a.ballY, s.ballVx - a.ballVx, s.ballVy - a.ballVy,
             s.leftPaddleY - a.leftPaddleY, s.rightPaddleY - a.rightPaddleY]
  {
  }

  /** Six floats, two halfwords and two bytes, in this order. */
  ghost predicate DeltaWire(b: Bytes, f: F32, xs: seq<real>, l: int, r: int, dl: int, dr: int) {
    && |b| == 30 && |xs| == 6 && FloatsAt(b, f, xs[0], xs[1], xs[2], xs[3], xs[4], xs[5])
    && HalfwordAt(b, 24, l) && HalfwordAt(b, 26, r) && b[28] == dl % 0x100 && b[29] == dr % 0x100
  }

  lemma DeltaParts(b: Bytes, xs: seq<real>, l: int, r: int, dl: int, dr: int, f: F32)
    requires |xs| == 6 && b == F32Bytes(xs, f) + I16Bytes(l) + I16Bytes(r) + I8Bytes(dl) + I8Bytes(dr)
    ensures DeltaWire(b, f, xs, l, r, dl, dr)
  {
    var bx, bl, br, b1, b2 := F32Bytes(xs, f), I16Bytes(l), I16Bytes(r), I8Bytes(dl), I8Bytes(dr);
    Layout(bx, bl, br, b1, b2);
    FloatsFirst(xs, bl + br + b1 + b2, f);
    assert bx + (bl + br + b1 + b2) == bx + bl + br + b1 + b2;
    HalfwordInside(bx, l, br + b1 + b2);
    HalfwordInside(bx + bl, r, b1 + b2);
  }

  /** A delta's 30 bytes: the differences as floats, the score changes in 16 bits each, the directions. */
  lemma DeltaLayout(a: WorldState, s: WorldState, f: F32) returns (xs: seq<real>)
    ensures xs == [s.ballX - a.ballX, s.ballY - a.ballY, s.ballVx - a.ballVx, s.ballVy - a.ballVy,
                   s.leftPaddleY - a.leftPaddleY, s.rightPaddleY - a.rightPaddleY]
    ensures DeltaWire(EncodeDelta(a, s, f), f, xs, s.leftScore - a.leftScore, s.rightScore - a.rightScore,
                      s.leftDirection, s.rightDirection)
  {
    xs := Minus(Motion(s), Motion(a));
    Differences(a, s);
    var l, r := s.leftScore - a.leftScore, s.rightScore - a.rightScore;
    DeltaParts(EncodeDelta(a, s, f), xs, l, r, s.leftDirection, s.rightDirection, f);
  }

  /** What a keyframe reads back as, field by field. */
  lemma KeyImageFields(s: WorldState, tick: nat, f: F32)
    ensures KeyImage(s, tick, f)
         == WorldState(f.Round(s.ballX), f.Round(s.ballY), f.Round(s.ballVx), f.Round(s.ballVy),
                       f.Round(s.leftPaddleY), f.Round(s.rightPaddleY), s.leftScore, s.rightScore, tick,
                       s.leftDirection, s.rightDirection)
  {
  }

  /** What a delta makes of a base, field by field; the scores as far as 16 signed bits reach. */
  lemma DeltaImageFields(b: WorldState, s: WorldState, base: WorldState, tick: nat, f: F32)
    ensures var r := DeltaImage(b, s, base, tick, f);
            && r.ballX == base.ballX + f.Round(s.ballX - b.ballX) && r.ballY == base.ballY + f.Round(s.ballY - b.ballY)
            && r.ballVx == base.ballVx + f.Round(s.ballVx - b.ballVx)
            && r.ballVy == base.ballVy + f.Round(s.ballVy - b.ballVy)
            && r.leftPaddleY == base.leftPaddleY + f.Round(s.leftPaddleY - b.leftPaddleY)
            && r.rightPaddleY == base.rightPaddleY + f.Round(s.rightPaddleY - b.rightPaddleY)
            && r.tick == tick && r.leftDirection == s.leftDirection && r.rightDirection == s.rightDirection
            && (-0x8000 <= s.leftScore - b.leftScore < 0x8000 ==>
                  r.leftScore == (base.leftScore + s.leftScore - b.leftScore) % 0x1_0000_0000)
            && (-0x8000 <= s.rightScore - b.rightScore < 0x8000 ==>
                  r.rightScore == (base.rightScore + s.rightScore - b.rightScore) % 0x1_0000_0000)
  {
  }

  // ------------------------------------------------------- the writers in place

  class ByteWriter {
    var buffer: Bytes

    constructor ()
      ensures buffer == []
    {
      buffer := [];
    }

    method AppendU32(value: U32)
      modifies this
      ensures buffer == old(buffer) + U32Bytes(value)
    {
      var v: nat := value;
      for i := 0 to WORD
        invariant buffer + LittleEndian(v, WORD - i) == old(buffer) + U32Bytes(value)
      {
        Assoc(buffer, [v % 0x100], LittleEndian(v / 0x100, WORD - i - 1));
        buffer := buffer + [v % 0x100];
        v := v / 0x100;
      }
      assert buffer + [] == buffer;
    }

    method AppendI16(value: int)
      modifies this
      ensures buffer == old(buffer) + I16Bytes(value)
    {
      var u := Unsigned16(value);
      buffer := buffer + [u % 0x100];
      buffer := buffer + [(u / 0x100) % 0x100];
      assert LittleEndian(u, 2) == [u % 0x100] + ([(u / 0x100) % 0x100] + LittleEndian(u / 0x100 / 0x100, 0));
    }

    method AppendF32s(xs: seq<real>, f: F32)
      modifies this
      ensures buffer == old(buffer) + F32Bytes(xs, f)
    {
      for i := 0 to |xs|
        invariant buffer + F32Bytes(xs[i..], f) == old(buffer) + F32Bytes(xs, f)
      {
        assert xs[i..][1..] == xs[i + 1..];
        ghost var before := buffer;
        AppendU32(f.bits(xs[i]));
        Assoc(before, U32Bytes(f.bits(xs[i])), F32Bytes(xs[i + 1..], f));
      }
      assert buffer + F32Bytes([], f) == buffer;
    }

    method WriteState(s: WorldState, f: F32)
      requires buffer == []
      modifies this
      ensures buffer == EncodeKeyframe(s, f)
    {
      AppendF32s(Motion(s), f);
      assert [] + F32Bytes(Motion(s), f) == F32Bytes(Motion(s), f);
      AppendU32(s.leftScore);
      AppendU32(s.rightScore);
      buffer := buffer + I8Bytes(s.leftDirection);
      buffer := buffer + I8Bytes(s.rightDirection);
    }

    method WriteDelta(base: WorldState, s: WorldState, f: F32)
      requires buffer == []
      modifies this
      ensures buffer == EncodeDelta(base, s, f)
    {
      ghost var ds := Minus(Motion(s), Motion(base));
      AppendF32s(Minus(Motion(s), Motion(base)), f);
      assert [] + F32Bytes(ds, f) == F32Bytes(ds, f);
      AppendI16(s.leftScore - base.leftScore);
      AppendI16(s.rightScore - base.rightScore);
      buffer := buffer + I8Bytes(s.leftDirection);
      buffer := buffer + I8Bytes(s.rightDirection);
    }
  }

  // ----------------------------------------------------------- a reader in place

  lemma {:induction false} FromBytesAppend(b: Bytes, x: U8)
    ensures FromBytes(b + [x]) == FromBytes(b) + x * Pow256(|b|)
  {
    if b == [] {
      assert ([x])[1..] == [];
      assert b + [x] == [x];
    } else {
      FromBytesAppend(b[1..], x);
      assert (b + [x])[1..] == b[1..] + [x];
    }
  }

  /** Reads four bytes low to high; `None` is the underflow exception, which leaves the offset alone. */
  method ReadWord(b: Bytes, offset: nat) returns (word: Option<U32>, next: nat)
    ensures word == if Has(b, offset, 4) then Some(ReadU32(b, offset)) else None
    ensures next == if word.Some? then offset + 4 else offset
  {
    if offset + 4 > |b| {
      return None, offset;
    }
    var value: nat, weight: nat := 0, 1;
    for i := 0 to 4
      invariant weight == Pow256(i) && value == FromBytes(b[offset..offset + i])
    {
      FromBytesAppend(b[offset..offset + i], b[offset + i]);
      assert b[offset..offset + i + 1] == b[offset..offset + i] + [b[offset + i]];
      value := value + b[offset + i] * weight;
      weight := 0x100 * weight;
    }
    WordWidths();
    FromBytesBounded(b[offset..offset + 4]);
    return Some(value), offset + 4;
  }

  method ReadHalfword(b: Bytes, offset: nat) returns (x: Option<int>, next: nat)
    ensures x == if Has(b, offset, 2) then Some(ReadI16(b, offset)) else None
    ensures next == if x.Some? then offset + 2 else offset
  {
    if offset + 2 > |b| {
      return None, offset;
    }
    var low: nat, high: nat := b[offset], b[offset + 1];
    var value := low + 0x100 * high;
    ghost var two := b[offset..offset + 2];
    assert two[1..][1..] == [] && two[1..][0] == b[offset + 1];
    assert FromBytes(two[1..]) == b[offset + 1];
    return Some(Signed16(value)), offset + 2;
  }

  method ReadByte(b: Bytes, offset: nat) returns (x: Option<int>, next: nat)
    ensures x == if Has(b, offset, 1) then Some(ReadI8(b, offset)) else None
    ensures next == if x.Some? then offset + 1 else offset
  {
    if offset >= |b| {
      return None, offset;
    }
    return Some(Signed8(b[offset])), offset + 1;
  }

  /** Reads `n` floats one after the other, failing at the first that is not there. */
  method ReadDoubles(b: Bytes, offset: nat, n: nat, f: F32) returns (xs: Option<seq<real>>, next: nat)
    requires offset <= |b|
    ensures xs == if Has(b, offset, 4 * n) then Some(ReadF32s(b, offset, n, f)) else None
    ensures xs.Some? ==> next == offset + 4 * n
  {
    var out: seq<real> := [];
    next := offset;
    for i := 0 to n
      invariant next == offset + 4 * i <= |b|
      invariant Has(b, offset, 4 * n) ==> ReadF32s(b, offset, n, f) == out + ReadF32s(b, next, n - i, f)
    {
      var word, after := ReadWord(b, next);
      if word.None? {
        return None, next;
      }
      out, next := out + [f.value(word.value)], after;
    }
    assert out + [] == out;
    return Some(out), next;
  }

  /** The reader of keyframes: any underflow on the way is the exception. */
  method ReadState(b: Bytes, tick: nat, f: F32) returns (r: Option<WorldState>)
    ensures r == DecodeKeyframe(b, tick, f)
  {
    r := None;
    var xs, o1 := ReadDoubles(b, 0, DOUBLES, f);
    if xs.Some? {
      var left, o2 := ReadWord(b, o1);
      var right, o3 := ReadWord(b, o2);
      var leftDir, o4 := ReadByte(b, o3);
      var rightDir, o5 := ReadByte(b, o4);
      if left.Some? && right.Some? && leftDir.Some? && rightDir.Some? {
        r := Some(FromParts(xs.value, left.value, right.value, tick, leftDir.value, rightDir.value));
      }
    }
  }

  /** The reader of deltas, which moves the base by what it reads. */
  method ReadDelta(base: WorldState, b: Bytes, tick: nat, f: F32) returns (r: Option<WorldState>)
    ensures r == ApplyDelta(base, b, tick, f)
  {
    r := None;
    var xs, o1 := ReadDoubles(b, 0, DOUBLES, f);
    if xs.Some? {
      var left, o2 := ReadHalfword(b, o1);
      var right, o3 := ReadHalfword(b, o2);
      var leftDir, o4 := ReadByte(b, o3);
      var rightDir, o5 := ReadByte(b, o4);
      if left.Some? && right.Some? && leftDir.Some? && rightDir.Some? {
        r := Some(Applied(base, xs.value, left.value, right.value, tick, leftDir.value, rightDir.value));
      }
    }
  }
}
