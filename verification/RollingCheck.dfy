// rdx_rolling_check of scripts/build_rdx_update_container.py: a bitwise check that tests bit 31
// after each shift, so that bit 7 of every index byte is shifted out unseen.
module RollingCheck {

  type Byte = bv8

  function Xor(a: bv32, b: bv32): bv32 {
    a ^ b
  }

  function XorByte(a: Byte, b: Byte): Byte {
    a ^ b
  }

  predicate TopSet(w: bv32) {
    w & 0x8000_0000 != 0
  }

  function Up1(w: bv32): bv32 {
    w << 1
  }

  // One turn of the inner loop.
  function Shift(working: bv32): bv32 {
    var shifted := Up1(working);
    if TopSet(shifted) then Xor(shifted, 0x04C1_1DB7) else shifted
  }

  function Shift8(w: bv32): bv32 {
    Shift(Shift(Shift(Shift(Shift(Shift(Shift(Shift(w))))))))
  }

  function Top(value: bv32): Byte {
    (value >> 24) as Byte
  }

  function AtTop(index: Byte): bv32 {
    (index as bv32) << 24
  }

  function Up8(value: bv32): bv32 {
    value << 8
  }

  // What the inner loop makes of an index byte: one of 256 words.
  function Table(index: Byte): bv32 {
    Shift8(AtTop(index))
  }

  // One turn of the outer loop.
  function Step(value: bv32, byte: Byte): bv32 {
    Xor(Table(XorByte(byte, Top(value))), Up8(value))
  }

  function Check(data: seq<Byte>, initial: bv32): bv32
    decreases |data|
  {
    if data == [] then initial else Check(data[1..], Step(initial, data[0]))
  }

  lemma {:induction false} CheckConcat(a: seq<Byte>, b: seq<Byte>, initial: bv32)
    ensures Check(a + b, initial) == Check(b, Check(a, initial))
    decreases |a|
  {
    hide Step;
    if a == [] {
      assert a + b == b;
    } else {
      assert (a + b)[1..] == a[1..] + b;
      CheckConcat(a[1..], b, Step(initial, a[0]));
    }
  }

  lemma CheckOne(byte: Byte, initial: bv32)
    ensures Check([byte], initial) == Step(initial, byte)
  {
    hide Step;
    assert Check([byte][1..], Step(initial, byte)) == Step(initial, byte);
  }

  // rdx_rolling_check
  method ComputeCheck(data: seq<Byte>, initial: bv32) returns (value: bv32)
    ensures value == Check(data, initial)
  {
    hide Step;
    value := initial;
    for i := 0 to |data|
      invariant value == Check(data[..i], initial)
    {
      CheckConcat(data[..i], [data[i]], initial);
      CheckOne(data[i], value);
      assert data[..i + 1] == data[..i] + [data[i]];
      value := CheckByte(value, data[i]);
    }
    assert data[..|data|] == data;
  }

  function Shifts(w: bv32, n: nat): bv32 {
    if n == 0 then w else Shift(Shifts(w, n - 1))
  }

  lemma EightShifts(w: bv32)
    ensures Shifts(w, 8) == Shift8(w)
  {
    hide Shift;
    assert Shifts(w, 1) == Shift(w);
    assert Shifts(w, 2) == Shift(Shifts(w, 1));
    assert Shifts(w, 3) == Shift(Shifts(w, 2));
    assert Shifts(w, 4) == Shift(Shifts(w, 3));
    assert Shifts(w, 5) == Shift(Shifts(w, 4));
    assert Shifts(w, 6) == Shift(Shifts(w, 5));
    assert Shifts(w, 7) == Shift(Shifts(w, 6));
    assert Shifts(w, 8) == Shift(Shifts(w, 7));
  }

  method CheckByte(value: bv32, byte: Byte) returns (next: bv32)
    ensures next == Step(value, byte)
  {
    hide Shift, Shift8, AtTop, Top, Xor, XorByte, Up8;
    var start := AtTop(XorByte(byte, Top(value)));
    var working := start;
    for n := 0 to 8
      invariant working == Shifts(start, n)
    {
      working := Shift(working);
    }
    EightShifts(start);
    next := Xor(working, Up8(value));
  }

  // --- Linearity over GF(2) ---

  lemma XorAssociative(a: bv32, b: bv32, c: bv32)
    ensures Xor(Xor(a, b), c) == Xor(a, Xor(b, c))
  {
  }

  lemma XorCommutative(a: bv32, b: bv32)
    ensures Xor(a, b) == Xor(b, a)
  {
  }

  lemma Exchange(a: bv32, b: bv32, c: bv32, d: bv32)
    ensures Xor(Xor(a, b), Xor(c, d)) == Xor(Xor(a, c), Xor(b, d))
  {
    hide Xor;
    XorAssociative(a, b, Xor(c, d));
    XorAssociative(b, c, d);
    XorCommutative(b, c);
    XorAssociative(c, b, d);
    XorAssociative(a, c, Xor(b, d));
  }

  lemma XorSelf(a: bv32)
    ensures Xor(a, a) == 0 && Xor(a, 0) == a && Xor(0, a) == a
  {
  }

  lemma TopSetLinear(a: bv32, b: bv32)
    ensures TopSet(Xor(a, b)) <==> TopSet(a) != TopSet(b)
  {
  }

  lemma Up1Linear(a: bv32, b: bv32)
    ensures Up1(Xor(a, b)) == Xor(Up1(a), Up1(b))
  {
  }

  function Feedback(shifted: bv32): bv32 {
    if TopSet(shifted) then 0x04C1_1DB7 else 0
  }

  lemma FeedbackLinear(a: bv32, b: bv32)
    ensures Feedback(Xor(a, b)) == Xor(Feedback(a), Feedback(b))
  {
    hide TopSet, Xor;
    TopSetLinear(a, b);
    XorSelf(0x04C1_1DB7);
    XorSelf(0);
  }

  lemma ShiftParts(w: bv32)
    ensures Shift(w) == Xor(Up1(w), Feedback(Up1(w)))
  {
    hide TopSet, Up1, Xor;
    XorSelf(Up1(w));
  }

  lemma ShiftLinear(a: bv32, b: bv32)
    ensures Shift(Xor(a, b)) == Xor(Shift(a), Shift(b))
  {
    hide Shift, Xor, Up1, Feedback;
    ShiftParts(a);
    ShiftParts(b);
    ShiftParts(Xor(a, b));
    Up1Linear(a, b);
    FeedbackLinear(Up1(a), Up1(b));
    Exchange(Up1(a), Feedback(Up1(a)), Up1(b), Feedback(Up1(b)));
  }

  lemma Shift8Linear(a: bv32, b: bv32)
    ensures Shift8(Xor(a, b)) == Xor(Shift8(a), Shift8(b))
  {
    hide Shift, Xor;
    ShiftLinear(a, b);
    var a1, b1 := Shift(a), Shift(b);
    ShiftLinear(a1, b1);
    var a2, b2 := Shift(a1), Shift(b1);
    ShiftLinear(a2, b2);
    var a3, b3 := Shift(a2), Shift(b2);
    ShiftLinear(a3, b3);
    var a4, b4 := Shift(a3), Shift(b3);
    ShiftLinear(a4, b4);
    var a5, b5 := Shift(a4), Shift(b4);
    ShiftLinear(a5, b5);
    var a6, b6 := Shift(a5), Shift(b5);
    ShiftLinear(a6, b6);
    ShiftLinear(Shift(a6), Shift(b6));
  }

  lemma TopLinear(i: Byte, j: Byte)
    ensures AtTop(XorByte(i, j)) == Xor(AtTop(i), AtTop(j))
  {
  }

  lemma TableLinear(i: Byte, j: Byte)
    ensures Table(XorByte(i, j)) == Xor(Table(i), Table(j))
  {
    hide Shift8, AtTop, Xor, XorByte;
    TopLinear(i, j);
    Shift8Linear(AtTop(i), AtTop(j));
  }

  lemma IndexLinear(u: bv32, v: bv32, a: Byte, b: Byte)
    ensures XorByte(XorByte(a, b), Top(Xor(u, v))) == XorByte(XorByte(a, Top(u)), XorByte(b, Top(v)))
  {
  }

  lemma UpLinear(u: bv32, v: bv32)
    ensures Up8(Xor(u, v)) == Xor(Up8(u), Up8(v))
  {
  }

  lemma StepLinear(u: bv32, v: bv32, a: Byte, b: Byte)
    ensures Step(Xor(u, v), XorByte(a, b)) == Xor(Step(u, a), Step(v, b))
  {
    hide Table, Up8, Top, Xor, XorByte;
    IndexLinear(u, v, a, b);
    TableLinear(XorByte(a, Top(u)), XorByte(b, Top(v)));
    UpLinear(u, v);
    Exchange(Table(XorByte(a, Top(u))), Table(XorByte(b, Top(v))), Up8(u), Up8(v));
  }

  function XorBytes(a: seq<Byte>, b: seq<Byte>): (r: seq<Byte>)
    requires |a| == |b|
    ensures |r| == |a|
  {
    seq(|a|, i requires 0 <= i < |a| => XorByte(a[i], b[i]))
  }

  // The check of the exclusive-or of two inputs and seeds is the exclusive-or of their checks.
  lemma {:induction false} CheckLinear(a: seq<Byte>, b: seq<Byte>, u: bv32, v: bv32)
    requires |a| == |b|
    ensures Check(XorBytes(a, b), Xor(u, v)) == Xor(Check(a, u), Check(b, v))
    decreases |a|
  {
    hide Step, Xor, XorByte;
    if a != [] {
      var ab := XorBytes(a, b);
      assert ab[1..] == XorBytes(a[1..], b[1..]);
      StepLinear(u, v, a[0], b[0]);
      CheckLinear(a[1..], b[1..], Step(u, a[0]), Step(v, b[0]));
    }
  }

  // --- The seven low bits ---

  function Low7(b: Byte): Byte {
    b & 0x7F
  }

  predicate SameLow(a: Byte, b: Byte) {
    Low7(a) == Low7(b)
  }

  function Part(index: Byte, bit: Byte, word: bv32): bv32 {
    if index & bit != 0 then word else 0
  }

  // Seven words, one for each low bit of the index.
  function Parts(i: Byte): bv32 {
    Part(i, 1, 0x0982_3B6E) ^ Part(i, 2, 0x1304_76DC) ^ Part(i, 4, 0x2608_EDB8) ^ Part(i, 8, 0x4C11_DB70)
    ^ Part(i, 16, 0x9CE2_AB57) ^ Part(i, 32, 0x39C5_56AE) ^ Part(i, 64, 0x738A_AD5C)
  }

  function Low4(i: Byte): Byte {
    i & 0x0F
  }

  function High4(i: Byte): Byte {
    i & 0xF0
  }

  lemma Nibbles(i: Byte)
    ensures XorByte(Low4(i), High4(i)) == i
    ensures Parts(i) == Xor(Parts(Low4(i)), Parts(High4(i)))
  {
  }

  lemma LowNibble(i: Byte)
    ensures Table(Low4(i)) == Parts(Low4(i))
  {
  }

  lemma HighNibble(i: Byte)
    ensures Table(High4(i)) == Parts(High4(i))
  {
  }

  lemma TableParts(i: Byte)
    ensures Table(i) == Parts(i)
  {
    hide Table, Parts, Low4, High4, Xor, XorByte;
    Nibbles(i);
    LowNibble(i);
    HighNibble(i);
    TableLinear(Low4(i), High4(i));
  }

  lemma PartsDistinct(i: Byte, j: Byte)
    ensures Parts(i) == Parts(j) <==> SameLow(i, j)
  {
  }

  // The table has 128 different entries, each of them twice.
  lemma TableSeesSevenBits(i: Byte, j: Byte)
    ensures Table(i) == Table(j) <==> SameLow(i, j)
  {
    hide Table, Parts;
    TableParts(i);
    TableParts(j);
    PartsDistinct(i, j);
  }

  lemma Low7Linear(a: Byte, b: Byte)
    ensures Low7(XorByte(a, b)) == XorByte(Low7(a), Low7(b))
  {
  }

  lemma XorByteCancel(a: Byte, b: Byte, t: Byte)
    ensures XorByte(a, t) == XorByte(b, t) <==> a == b
  {
  }

  lemma SameIndex(t: Byte, a: Byte, b: Byte)
    ensures SameLow(XorByte(a, t), XorByte(b, t)) <==> SameLow(a, b)
  {
    hide Low7, XorByte;
    Low7Linear(a, t);
    Low7Linear(b, t);
    XorByteCancel(Low7(a), Low7(b), Low7(t));
  }

  lemma XorCancel(a: bv32, b: bv32, c: bv32)
    ensures Xor(a, c) == Xor(b, c) <==> a == b
  {
  }

  // One byte: collisions are exactly those of the seven low bits.
  lemma StepSeesSevenBits(v: bv32, a: Byte, b: Byte)
    ensures Step(v, a) == Step(v, b) <==> SameLow(a, b)
  {
    hide Table, Up8, Top, Xor, XorByte, SameLow;
    TableSeesSevenBits(XorByte(a, Top(v)), XorByte(b, Top(v)));
    SameIndex(Top(v), a, b);
    XorCancel(Table(XorByte(a, Top(v))), Table(XorByte(b, Top(v))), Up8(v));
  }

  predicate AllSameLow(a: seq<Byte>, b: seq<Byte>) {
    |a| == |b| && forall i :: 0 <= i < |a| ==> SameLow(a[i], b[i])
  }

  // Bit 7 of any byte is invisible.
  lemma {:induction false} HighBitsInvisible(a: seq<Byte>, b: seq<Byte>, v: bv32)
    requires AllSameLow(a, b)
    ensures Check(a, v) == Check(b, v)
    decreases |a|
  {
    hide Step, SameLow;
    if a != [] {
      StepSeesSevenBits(v, a[0], b[0]);
      HighBitsInvisible(a[1..], b[1..], Step(v, a[0]));
    }
  }

  // Inputs that differ in the last byte only collide exactly when its seven low bits agree.
  lemma LastByteCollision(data: seq<Byte>, a: Byte, b: Byte, v: bv32)
    ensures Check(data + [a], v) == Check(data + [b], v) <==> SameLow(a, b)
  {
    hide Step, SameLow, Check;
    CheckConcat(data, [a], v);
    CheckConcat(data, [b], v);
    CheckOne(a, Check(data, v));
    CheckOne(b, Check(data, v));
    StepSeesSevenBits(Check(data, v), a, b);
  }

  // --- The trailer: data followed by its own check leaves residue zero ---

  function BigEndian(c: bv32): seq<Byte> {
    [Top(c), Top(Up8(c)), Top(Up8(Up8(c))), Top(Up8(Up8(Up8(c))))]
  }

  lemma TableVanishes(b: Byte)
    ensures Table(XorByte(b, b)) == 0
  {
    hide Table, Xor, XorByte;
    TableLinear(b, b);
    XorSelf(Table(b));
  }

  lemma StepOwnTop(c: bv32)
    ensures Step(c, Top(c)) == Up8(c)
  {
    hide Table, Up8, Top, Xor, XorByte;
    TableVanishes(Top(c));
    XorSelf(Up8(c));
  }

  lemma FourUps(c: bv32)
    ensures Up8(Up8(Up8(Up8(c)))) == 0
  {
  }

  lemma CheckFour(e: seq<Byte>, v: bv32)
    requires |e| == 4
    ensures Check(e, v) == Step(Step(Step(Step(v, e[0]), e[1]), e[2]), e[3])
  {
    hide Step;
    var v1 := Step(v, e[0]);
    var v2 := Step(v1, e[1]);
    var v3 := Step(v2, e[2]);
    assert e[1..][1..] == e[2..] && e[2..][1..] == [e[3]];
    assert Check(e, v) == Check(e[1..], v1) == Check(e[2..], v2) == Check([e[3]], v3);
    CheckOne(e[3], v3);
  }

  lemma OwnCheckVanishes(c: bv32)
    ensures Check(BigEndian(c), c) == 0
  {
    hide Step, Top, Up8, Check;
    CheckFour(BigEndian(c), c);
    StepOwnTop(c);
    StepOwnTop(Up8(c));
    StepOwnTop(Up8(Up8(c)));
    StepOwnTop(Up8(Up8(Up8(c))));
    FourUps(c);
  }

  // One turn of the outer loop with the table written as seven words.
  function PartStep(v: bv32, b: Byte): bv32 {
    Xor(Parts(XorByte(b, Top(v))), Up8(v))
  }

  lemma StepParts(v: bv32, b: Byte)
    ensures Step(v, b) == PartStep(v, b)
  {
    hide Table, Parts, Xor, Up8, Top, XorByte;
    TableParts(XorByte(b, Top(v)));
  }

  function Low(v: bv32, mask: bv32): bv32 {
    v & mask
  }

  // Shifting a state leaves its low byte empty, so an empty low byte shows that nothing was added.
  lemma EmptyLowByte(v: bv32, b: Byte)
    requires Low(PartStep(v, b), 0xFF) == 0
    ensures SameLow(XorByte(b, Top(v)), 0) && PartStep(v, b) == Up8(v)
  {
    hide Parts, Top;
    var i := XorByte(b, Top(v));
    LowByteOfParts(i);
    assert Low(PartStep(v, b), 0xFF) == Low(Parts(i), 0xFF);
    assert Xor(0, Up8(v)) == Up8(v);
  }

  lemma LowByteOfParts(i: Byte)
    ensures Low(Parts(i), 0xFF) == 0 <==> SameLow(i, 0)
    ensures SameLow(i, 0) ==> Parts(i) == 0
  {
  }

  lemma UpLow(v: bv32)
    ensures Up8(v) == 0 ==> Low(v, 0xFF_FFFF) == 0
    ensures Low(Up8(v), 0xFF_FFFF) == 0 ==> Low(v, 0xFFFF) == 0
    ensures Low(Up8(v), 0xFFFF) == 0 ==> Low(v, 0xFF) == 0
  {
  }

  lemma LowShrinks(v: bv32)
    ensures v == 0 || Low(v, 0xFF_FFFF) == 0 || Low(v, 0xFFFF) == 0 ==> Low(v, 0xFF) == 0
  {
  }

  lemma FromZero(b: Byte)
    ensures Up8(0) == 0 && XorByte(b, Top(0)) == b
  {
  }

  // Backwards from a state of zero each state is empty further down; forwards from zero each
  // byte added nothing.
  lemma FourBytesDistinct(a: Byte, b: Byte, c: Byte, d: Byte)
    requires PartStep(PartStep(PartStep(PartStep(0, a), b), c), d) == 0
    ensures SameLow(a, 0) && SameLow(b, 0) && SameLow(c, 0) && SameLow(d, 0)
  {
    hide PartStep, SameLow, Up8, Top, XorByte, Low;
    var v1 := PartStep(0, a);
    var v2 := PartStep(v1, b);
    var v3 := PartStep(v2, c);
    LowShrinks(0);
    EmptyLowByte(v3, d);
    UpLow(v3);
    LowShrinks(v3);
    EmptyLowByte(v2, c);
    UpLow(v2);
    LowShrinks(v2);
    EmptyLowByte(v1, b);
    UpLow(v1);
    EmptyLowByte(0, a);
    FromZero(a);
    FromZero(b);
    FromZero(c);
    FromZero(d);
  }

  lemma FourByteDifference(e: seq<Byte>)
    requires |e| == 4 && Check(e, 0) == 0
    ensures forall i :: 0 <= i < 4 ==> SameLow(e[i], 0)
  {
    hide Step, PartStep, SameLow, Check;
    CheckFour(e, 0);
    var v1 := Step(0, e[0]);
    var v2 := Step(v1, e[1]);
    var v3 := Step(v2, e[2]);
    StepParts(0, e[0]);
    StepParts(v1, e[1]);
    StepParts(v2, e[2]);
    StepParts(v3, e[3]);
    FourBytesDistinct(e[0], e[1], e[2], e[3]);
  }

  lemma XorZeroIff(a: bv32, b: bv32)
    ensures Xor(a, b) == 0 <==> a == b
  {
  }

  lemma Low7Difference(a: Byte, b: Byte)
    ensures SameLow(XorByte(a, b), 0) <==> SameLow(a, b)
  {
  }

  // Two four-byte trailers after the same data give the same check exactly when they agree in
  // the seven low bits of each byte.
  lemma TrailersDistinct(a: seq<Byte>, b: seq<Byte>, v: bv32)
    requires |a| == |b| == 4
    ensures Check(a, v) == Check(b, v) <==> AllSameLow(a, b)
  {
    hide Check, Xor, XorByte, SameLow;
    if AllSameLow(a, b) {
      HighBitsInvisible(a, b, v);
    }
    CheckLinear(a, b, v, v);
    XorSelf(v);
    XorZeroIff(Check(a, v), Check(b, v));
    if Check(a, v) == Check(b, v) {
      FourByteDifference(XorBytes(a, b));
      forall i | 0 <= i < 4 ensures SameLow(a[i], b[i]) {
        assert XorBytes(a, b)[i] == XorByte(a[i], b[i]);
        Low7Difference(a[i], b[i]);
      }
    }
  }

  // A receiver that wants residue zero accepts exactly the big-endian check of the data, up to
  // the invisible bits.
  lemma Residue(data: seq<Byte>, trailer: seq<Byte>, v: bv32)
    requires |trailer| == 4
    ensures Check(data + trailer, v) == 0 <==> AllSameLow(trailer, BigEndian(Check(data, v)))
  {
    hide Check, Xor, XorByte, SameLow, BigEndian;
    var c := Check(data, v);
    CheckConcat(data, trailer, v);
    OwnCheckVanishes(c);
    BigEndianLength(c);
    TrailersDistinct(trailer, BigEndian(c), c);
  }

  lemma BigEndianLength(c: bv32)
    ensures |BigEndian(c)| == 4
  {
  }

  // --- Which changes inside the data are noticed ---

  function Quotient(v: bv32): bv32 {
    v & 0x7F7F_7F7F
  }

  // An even number of bits 2, 4 and 5 of the low byte.
  predicate Even(v: bv32) {
    ((v >> 2) ^ (v >> 4) ^ (v >> 5)) & 1 == 0
  }

  lemma PartStepEven(v: bv32, b: Byte)
    ensures Even(PartStep(v, b))
  {
  }

  lemma PartStepKeepsDifference(v: bv32)
    requires Even(v) && Quotient(v) != 0
    ensures Quotient(PartStep(v, 0)) != 0
  {
  }

  lemma ThreeBytesDistinct(a: Byte, b: Byte, c: Byte)
    requires Quotient(PartStep(PartStep(PartStep(0, a), b), c)) == 0
    ensures SameLow(a, 0) && SameLow(b, 0) && SameLow(c, 0)
  {
  }

  predicate AllZero(z: seq<Byte>) {
    forall i :: 0 <= i < |z| ==> z[i] == 0
  }

  // A difference that shows in the low bits of the state never fades.
  lemma {:induction false} DifferencePersists(z: seq<Byte>, v: bv32)
    requires AllZero(z) && Even(v) && Quotient(v) != 0
    ensures Quotient(Check(z, v)) != 0
    decreases |z|
  {
    hide Step, PartStep, Even, Quotient;
    if z != [] {
      StepParts(v, z[0]);
      PartStepEven(v, 0);
      PartStepKeepsDifference(v);
      DifferencePersists(z[1..], Step(v, z[0]));
    }
  }

  lemma QuotientLinear(a: bv32, b: bv32)
    ensures Quotient(Xor(a, b)) == Xor(Quotient(a), Quotient(b))
  {
  }

  lemma QuotientDifference(a: bv32, b: bv32)
    ensures Quotient(Xor(a, b)) == 0 <==> Quotient(a) == Quotient(b)
  {
    hide Quotient, Xor;
    QuotientLinear(a, b);
    XorZeroIff(Quotient(a), Quotient(b));
  }

  lemma StartAtZero()
    ensures PartStep(0, 0) == 0
  {
  }

  // A nonzero difference of three bytes shows in the low bits of the state.
  lemma ThreeByteDifference(d: seq<Byte>)
    requires |d| == 3 && !AllSameLow(d, [0, 0, 0])
    ensures Even(Check(d, 0)) && Quotient(Check(d, 0)) != 0
  {
    hide Step, PartStep, Even, Quotient, SameLow;
    var v1 := Step(0, d[0]);
    var v2 := Step(v1, d[1]);
    assert d[1..][1..] == [d[2]];
    assert Check(d, 0) == Check(d[1..], v1) == Check([d[2]], v2);
    CheckOne(d[2], v2);
    StepParts(0, d[0]);
    StepParts(v1, d[1]);
    StepParts(v2, d[2]);
    PartStepEven(v2, d[2]);
    if Quotient(Check(d, 0)) == 0 {
      ThreeBytesDistinct(d[0], d[1], d[2]);
      assert false;
    }
  }

  // A shorter difference is a three-byte one, seen from the zero state.
  lemma {:induction false} ShortDifference(d: seq<Byte>)
    requires |d| <= 3 && exists i :: 0 <= i < |d| && !SameLow(d[i], 0)
    ensures Even(Check(d, 0)) && Quotient(Check(d, 0)) != 0
    decreases 3 - |d|
  {
    hide Step, PartStep, Even, Quotient, SameLow;
    if |d| == 3 {
      ThreeByteDifference(d);
    } else {
      var e := [0] + d;
      var i :| 0 <= i < |d| && !SameLow(d[i], 0);
      assert !SameLow(e[i + 1], 0);
      StartAtZero();
      StepParts(0, 0);
      assert e[1..] == d;
      assert Check(e, 0) == Check(d, 0);
      ShortDifference(e);
    }
  }

  // Changing at most three neighbouring bytes is noticed whatever comes before and after,
  // exactly when a visible bit was changed; and then it shows in the low bits of the check.
  lemma ShortBurstsNoticed(before: seq<Byte>, a: seq<Byte>, b: seq<Byte>, after: seq<Byte>, initial: bv32)
    requires |a| == |b| <= 3
    ensures Check(before + a + after, initial) == Check(before + b + after, initial) <==> AllSameLow(a, b)
    ensures var x, y := Check(before + a + after, initial), Check(before + b + after, initial);
            Quotient(x) == Quotient(y) <==> AllSameLow(a, b)
  {
    hide Step, SameLow, Xor, XorByte, Even, Quotient, Check;
    var v := Check(before, initial);
    Splits(before, a, after, initial);
    Splits(before, b, after, initial);
    var u, w := Check(a, v), Check(b, v);
    if AllSameLow(a, b) {
      HighBitsInvisible(a, b, v);
    } else {
      var i :| 0 <= i < |a| && !SameLow(a[i], b[i]);
      var d := XorBytes(a, b);
      assert d[i] == XorByte(a[i], b[i]);
      Low7Difference(a[i], b[i]);
      ShortDifference(d);
      CheckLinear(a, b, v, v);
      XorSelf(v);
      CheckLinear(after, after, u, w);
      SelfXor(after);
      DifferencePersists(XorBytes(after, after), Check(d, 0));
      QuotientDifference(Check(after, u), Check(after, w));
    }
  }

  lemma Splits(before: seq<Byte>, a: seq<Byte>, after: seq<Byte>, initial: bv32)
    ensures Check(before + a + after, initial) == Check(after, Check(a, Check(before, initial)))
  {
    CheckConcat(before + a, after, initial);
    CheckConcat(before, a, initial);
  }

  lemma SelfXor(a: seq<Byte>)
    ensures AllZero(XorBytes(a, a))
  {
    forall i | 0 <= i < |a| ensures XorBytes(a, a)[i] == 0 {
    }
  }

  // Four bytes are too many: this difference disappears one byte later.
  const UNSEEN: seq<Byte> := [0x42, 0x60, 0x0E, 0x5B]

  lemma UnseenVanishes(z: Byte)
    requires z == 0
    ensures PartStep(PartStep(PartStep(PartStep(PartStep(0, 0x42), 0x60), 0x0E), 0x5B), z) == 0
  {
  }

  lemma UnseenDifference()
    ensures Check(UNSEEN + [0], 0) == 0
  {
    hide Step, PartStep;
    CheckConcat(UNSEEN, [0], 0);
    CheckFour(UNSEEN, 0);
    CheckOne(0, Check(UNSEEN, 0));
    var v1 := Step(0, 0x42);
    var v2 := Step(v1, 0x60);
    var v3 := Step(v2, 0x0E);
    var v4 := Step(v3, 0x5B);
    StepParts(0, 0x42);
    StepParts(v1, 0x60);
    StepParts(v2, 0x0E);
    StepParts(v3, 0x5B);
    StepParts(v4, 0);
    UnseenVanishes(0);
  }

  lemma FourByteBurstMissed(before: seq<Byte>, a: seq<Byte>, after: seq<Byte>, initial: bv32)
    requires |a| == 4 && after != []
    ensures Check(before + a + after, initial) == Check(before + XorBytes(a, UNSEEN) + after, initial)
  {
    hide Step, Xor, XorByte, Check;
    var b := XorBytes(a, UNSEEN);
    var v := Check(before, initial);
    Splits(before, a, after, initial);
    Splits(before, b, after, initial);
    var first, rest := after[..1], after[1..];
    assert after == first + rest;
    CheckConcat(first, rest, Check(a, v));
    CheckConcat(first, rest, Check(b, v));
    CheckConcat(a, first, v);
    CheckConcat(b, first, v);
    CheckLinear(a + first, b + first, v, v);
    assert XorBytes(a + first, b + first) == UNSEEN + [0] by {
      forall i | 0 <= i < 5 ensures XorBytes(a + first, b + first)[i] == (UNSEEN + [0])[i] {
        Undo((a + first)[i], if i < 4 then UNSEEN[i] else 0);
      }
    }
    UnseenDifference();
    XorSelf(v);
    XorZeroIff(Check(a + first, v), Check(b + first, v));
  }

  lemma Undo(a: Byte, d: Byte)
    ensures XorByte(a, XorByte(a, d)) == d && XorByte(a, a) == 0
  {
  }

  lemma TrailerBits(c: bv32, d: bv32)
    ensures AllSameLow(BigEndian(c), BigEndian(d)) <==>
              && SameLow(Top(c), Top(d)) && SameLow(Top(Up8(c)), Top(Up8(d)))
              && SameLow(Top(Up8(Up8(c))), Top(Up8(Up8(d)))) && SameLow(Top(Up8(Up8(Up8(c)))), Top(Up8(Up8(Up8(d)))))
  {
    hide SameLow, Top, Up8;
    var a, b := BigEndian(c), BigEndian(d);
    assert AllSameLow(a, b) <==>
             SameLow(a[0], b[0]) && SameLow(a[1], b[1]) && SameLow(a[2], b[2]) && SameLow(a[3], b[3]);
  }

  lemma TopDifference(c: bv32, d: bv32)
    ensures SameLow(Top(c), Top(d)) <==> Low7(Top(Xor(c, d))) == 0
  {
  }

  lemma WordOfBytes(x: bv32)
    ensures Quotient(x) == 0 <==>
              Low7(Top(x)) == 0 && Low7(Top(Up8(x))) == 0 && Low7(Top(Up8(Up8(x)))) == 0
                  && Low7(Top(Up8(Up8(Up8(x))))) == 0
  {
  }

  lemma WordBits(c: bv32, d: bv32)
    ensures Quotient(c) == Quotient(d) <==>
              && SameLow(Top(c), Top(d)) && SameLow(Top(Up8(c)), Top(Up8(d)))
              && SameLow(Top(Up8(Up8(c))), Top(Up8(Up8(d)))) && SameLow(Top(Up8(Up8(Up8(c)))), Top(Up8(Up8(Up8(d)))))
  {
    hide Quotient, Xor, SameLow, Top, Up8, Low7;
    QuotientDifference(c, d);
    WordOfBytes(Xor(c, d));
    UpLinear(c, d);
    UpLinear(Up8(c), Up8(d));
    UpLinear(Up8(Up8(c)), Up8(Up8(d)));
    TopDifference(c, d);
    TopDifference(Up8(c), Up8(d));
    TopDifference(Up8(Up8(c)), Up8(Up8(d)));
    TopDifference(Up8(Up8(Up8(c))), Up8(Up8(Up8(d))));
  }

  // The visible part of a trailer is the low bits of the check.
  lemma TrailerVisible(c: bv32, d: bv32)
    ensures AllSameLow(BigEndian(c), BigEndian(d)) <==> Quotient(c) == Quotient(d)
  {
    hide SameLow, Top, Up8, Quotient, AllSameLow, BigEndian;
    TrailerBits(c, d);
    WordBits(c, d);
  }
}
