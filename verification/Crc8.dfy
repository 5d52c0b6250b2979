/** The 8-bit cyclic redundancy check with the reflected polynomial 0x8C. */
module Crc8 {
  const POLYNOMIAL: bv8 := 0x8C

  /** One bit, lowest first. */
  function Shift(c: bv8): bv8 {
    if c & 0x01 != 0 then (c >> 1) ^ POLYNOMIAL else c >> 1
  }

  function Shifts(c: bv8, n: nat): bv8 {
    if n == 0 then c else Shift(Shifts(c, n - 1))
  }

  function ByteStep(c: bv8): bv8 {
    Shifts(c, 8)
  }

  function Sum(a: bv8, b: bv8): bv8 {
    a ^ b
  }

  /** A check that adds each byte to the value so far and then takes a step; for any addition and step. */
  function Check<T>(initial: T, data: seq<T>, add: (T, T) -> T, step: T -> T): T {
    if data == [] then initial
    else step(add(Check(initial, data[..|data| - 1], add, step), data[|data| - 1]))
  }

  function Crc(initial: bv8, data: seq<bv8>): bv8 {
    Check(initial, data, Sum, ByteStep)
  }

  method CalcCrc8(initial: bv8, data: seq<bv8>) returns (crc: bv8)
    ensures crc == Crc(initial, data)
  {
    crc := initial;
    var i := 0;
    while i < |data|
      invariant i <= |data| && crc == Crc(initial, data[..i])
    {
      assert data[..i + 1][..i] == data[..i];
      ghost var start := crc ^ data[i];
      crc := crc ^ data[i];
      for id := 0 to 8
        invariant crc == Shifts(start, id)
      {
        if crc & 0x01 != 0 {
          crc := (crc >> 1) ^ 0x8C;
        } else {
          crc := crc >> 1;
        }
      }
      i := i + 1;
    }
    assert data[..i] == data;
  }

  // ---------- chaining and linearity ----------

  lemma {:induction false} CheckMore<T>(initial: T, data: seq<T>, last: T, all: seq<T>, add: (T, T) -> T, step: T -> T)
    requires all == data + [last]
    ensures Check(initial, all, add, step) == step(add(Check(initial, data, add, step), last))
  {
  }

  lemma {:induction false} CheckChains<T>(initial: T, a: seq<T>, b: seq<T>, add: (T, T) -> T, step: T -> T)
    ensures Check(initial, a + b, add, step) == Check(Check(initial, a, add, step), b, add, step)
  {
    if b == [] {
      assert a + b == a;
    } else {
      var n := |b| - 1;
      CheckChains(initial, a, b[..n], add, step);
      CheckMore(initial, a + b[..n], b[n], a + b, add, step);
    }
  }

  /** A message may be checked in pieces, each starting from the value of the one before. */
  lemma {:induction false} Chains(initial: bv8, a: seq<bv8>, b: seq<bv8>)
    ensures Crc(initial, a + b) == Crc(Crc(initial, a), b)
  {
    CheckChains(initial, a, b, Sum, ByteStep);
  }

  lemma {:induction false} ShiftLinear(sum: bv8, c: bv8, d: bv8)
    requires sum == c ^ d
    ensures Shift(sum) == Shift(c) ^ Shift(d)
  {
  }

  predicate LinearAt<T(==)>(add: (T, T) -> T, step: T -> T, c: T, d: T) {
    step(add(c, d)) == add(step(c), step(d))
  }

  /** A step taken n times. */
  function Times<T>(step: T -> T, c: T, n: nat): T {
    if n == 0 then c else step(Times(step, c, n - 1))
  }

  lemma {:induction false} TimesLinear<T(!new)>(add: (T, T) -> T, step: T -> T, c: T, d: T, n: nat)
    requires forall p, q :: LinearAt(add, step, p, q)
    ensures Times(step, add(c, d), n) == add(Times(step, c, n), Times(step, d, n))
  {
    if n > 0 {
      TimesLinear(add, step, c, d, n - 1);
      assert LinearAt(add, step, Times(step, c, n - 1), Times(step, d, n - 1));
    }
  }

  lemma {:induction false} TimesIsShifts(c: bv8, n: nat)
    ensures Times(Shift, c, n) == Shifts(c, n)
  {
    if n > 0 {
      TimesIsShifts(c, n - 1);
    }
  }

  /** Element by element. */
  function Sums<T>(a: seq<T>, b: seq<T>, add: (T, T) -> T): (r: seq<T>)
    requires |a| == |b|
    ensures |r| == |a|
  {
    if a == [] then [] else Sums(a[..|a| - 1], b[..|b| - 1], add) + [add(a[|a| - 1], b[|b| - 1])]
  }

  lemma {:induction false} SumsAt<T>(a: seq<T>, b: seq<T>, add: (T, T) -> T, i: nat)
    requires |a| == |b| && i < |a|
    ensures Sums(a, b, add)[i] == add(a[i], b[i])
  {
    if i < |a| - 1 {
      SumsAt(a[..|a| - 1], b[..|b| - 1], add, i);
    }
  }

  predicate AssocAt<T(==)>(add: (T, T) -> T, x: T, y: T, z: T) {
    add(add(x, y), z) == add(x, add(y, z))
  }

  predicate CommAt<T(==)>(add: (T, T) -> T, x: T, y: T) {
    add(x, y) == add(y, x)
  }

  ghost predicate IsLinear<T(!new)>(add: (T, T) -> T, step: T -> T) {
    && (forall x, y, z :: AssocAt(add, x, y, z))
    && (forall x, y :: CommAt(add, x, y))
    && (forall c, d :: LinearAt(add, step, c, d))
  }

  lemma {:induction false} Regroups<T(!new)>(x: T, y: T, a: T, b: T, add: (T, T) -> T, step: T -> T)
    requires IsLinear(add, step)
    ensures add(add(x, y), add(a, b)) == add(add(x, a), add(y, b))
  {
    assert AssocAt(add, x, y, add(a, b)) && AssocAt(add, y, a, b) && CommAt(add, y, a);
    assert AssocAt(add, a, y, b) && AssocAt(add, x, a, add(y, b));
  }

  lemma {:induction false} CheckLinear<T(!new)>(i: T, j: T, a: seq<T>, b: seq<T>, add: (T, T) -> T, step: T -> T)
    requires |a| == |b| && IsLinear(add, step)
    ensures Check(add(i, j), Sums(a, b, add), add, step) == add(Check(i, a, add, step), Check(j, b, add, step))
  {
    if a != [] {
      var n := |a| - 1;
      CheckLinear(i, j, a[..n], b[..n], add, step);
      var p, q := Check(i, a[..n], add, step), Check(j, b[..n], add, step);
      CheckMore(add(i, j), Sums(a[..n], b[..n], add), add(a[n], b[n]), Sums(a, b, add), add, step);
      Regroups(p, q, a[n], b[n], add, step);
      assert LinearAt(add, step, add(p, a[n]), add(q, b[n]));
    }
  }

  lemma {:induction false} XorAssoc(x: bv8, y: bv8, z: bv8)
    ensures (x ^ y) ^ z == x ^ (y ^ z)
  {
  }

  lemma {:induction false} StepOfSum(c: bv8, d: bv8)
    ensures ByteStep(Sum(c, d)) == Sum(ByteStep(c), ByteStep(d))
  {
    forall p, q ensures LinearAt(Sum, Shift, p, q) {
      ShiftLinear(Sum(p, q), p, q);
    }
    TimesLinear(Sum, Shift, c, d, 8);
    TimesIsShifts(c, 8);
    TimesIsShifts(d, 8);
    TimesIsShifts(Sum(c, d), 8);
  }

  lemma {:induction false} CrcIsLinear()
    ensures IsLinear(Sum, ByteStep)
  {
    forall x, y, z ensures AssocAt(Sum, x, y, z) {
      XorAssoc(x, y, z);
    }
    forall x, y ensures CommAt(Sum, x, y) {
    }
    forall c, d ensures LinearAt(Sum, ByteStep, c, d) {
      StepOfSum(c, d);
    }
  }

  /** The bytewise difference of two messages of one length. */
  function Xor(a: seq<bv8>, b: seq<bv8>): (r: seq<bv8>)
    requires |a| == |b|
    ensures |r| == |a|
  {
    Sums(a, b, Sum)
  }

  /** The check of a difference is the difference of the checks. */
  lemma {:induction false} Linear(i: bv8, j: bv8, a: seq<bv8>, b: seq<bv8>)
    requires |a| == |b|
    ensures Crc(i ^ j, Xor(a, b)) == Crc(i, a) ^ Crc(j, b)
  {
    CrcIsLinear();
    CheckLinear(i, j, a, b, Sum, ByteStep);
    assert Sum(i, j) == i ^ j;
  }

  // ---------- what is detected ----------

  lemma {:induction false} ShiftInjective(c: bv8)
    requires Shift(c) == 0
    ensures c == 0
  {
  }

  lemma {:induction false} ShiftsZero(c: bv8, n: nat)
    ensures Shifts(c, n) == 0 <==> c == 0
  {
    if n > 0 {
      ShiftsZero(c, n - 1);
      if Shifts(c, n) == 0 {
        ShiftInjective(Shifts(c, n - 1));
      }
    }
  }

  lemma {:induction false} XorZero(a: bv8, b: bv8)
    ensures a ^ b == 0 <==> a == b
  {
  }

  /** One more byte brings the check to 0 exactly if it is the check so far. */
  lemma {:induction false} LastByte(crc: bv8, last: bv8)
    ensures ByteStep(crc ^ last) == 0 <==> last == crc
  {
    ShiftsZero(crc ^ last, 8);
    XorZero(crc, last);
  }

  /** Of all bytes, exactly a message's own check value brings the check of message and byte to 0. */
  lemma {:induction false} OwnCrcGivesZero(initial: bv8, data: seq<bv8>, last: bv8)
    ensures Crc(initial, data + [last]) == 0 <==> last == Crc(initial, data)
  {
    CheckMore(initial, data, last, data + [last], Sum, ByteStep);
    LastByte(Crc(initial, data), last);
  }

  predicate AllZero(data: seq<bv8>) {
    forall i :: 0 <= i < |data| ==> data[i] == 0
  }

  lemma {:induction false} ZerosKeep(c: bv8, zeros: seq<bv8>)
    requires AllZero(zeros)
    ensures Crc(c, zeros) == 0 <==> c == 0
  {
    if zeros != [] {
      var n := |zeros| - 1;
      ZerosKeep(c, zeros[..n]);
      OwnCrcGivesZero(c, zeros[..n], 0);
      assert zeros[..n] + [0] == zeros;
    }
  }

  /** The bits below bit s. */
  function LowBits(s: nat): bv8
    requires s < 8
  {
    match s
    case 0 => 0x00
    case 1 => 0x01
    case 2 => 0x03
    case 3 => 0x07
    case 4 => 0x0F
    case 5 => 0x1F
    case 6 => 0x3F
    case 7 => 0x7F
  }

  /** The 8 steps written out. */
  function Eight(c: bv8): bv8 {
    Shift(Shift(Shift(Shift(Shift(Shift(Shift(Shift(c))))))))
  }

  lemma {:induction false} EightIsShifts(c: bv8)
    ensures Shifts(c, 8) == Eight(c)
  {
    var c1 := Shift(c);
    assert Shifts(c, 1) == c1;
    var c2 := Shift(c1);
    assert Shifts(c, 2) == c2;
    var c3 := Shift(c2);
    assert Shifts(c, 3) == c3;
    var c4 := Shift(c3);
    assert Shifts(c, 4) == c4;
    var c5 := Shift(c4);
    assert Shifts(c, 5) == c5;
    var c6 := Shift(c5);
    assert Shifts(c, 6) == c6;
    var c7 := Shift(c6);
    assert Shifts(c, 7) == c7;
  }

  /** 8 bits, of which the first 8 - s end one byte and the last s begin the next, do not cancel out. */
  lemma {:induction false} BurstDoesNotCancel(u: bv8, v: bv8, s: nat)
    requires s < 8 && u & LowBits(s) == 0 && v & !LowBits(s) == 0
    requires Eight(u) == v
    ensures u == 0 && v == 0
  {
  }

  lemma {:induction false} OneByte(u: bv8)
    ensures Crc(0, [u]) == Eight(u)
  {
    CheckMore(0, [], u, [u], Sum, ByteStep);
    assert 0 ^ u == u;
    EightIsShifts(u);
  }

  lemma {:induction false} TwoBytesZero(u: bv8, v: bv8)
    ensures Crc(0, [u, v]) == 0 <==> Eight(u) == v
  {
    assert [u, v] == [u] + [v];
    OwnCrcGivesZero(0, [u], v);
    OneByte(u);
  }

  /** The bits set in d are among 8 consecutive ones, counted lowest first: from bit s of byte p on. */
  predicate Burst(d: seq<bv8>, p: nat, s: nat)
    requires p < |d| && s < 8
  {
    && AllZero(d[..p]) && d[p] & LowBits(s) == 0
    && (p + 1 < |d| ==> d[p + 1] & !LowBits(s) == 0 && AllZero(d[p + 2..]))
  }

  lemma {:induction false} AllZeroParts(d: seq<bv8>, p: nat)
    requires p + 1 < |d| && AllZero(d[..p]) && AllZero(d[p + 2..]) && d[p] == 0 && d[p + 1] == 0
    ensures AllZero(d)
  {
  }

  /** A difference within two neighbouring bytes cancels out exactly if the second is what the first leaves behind. */
  lemma {:induction false} TwoBytesCancel(d: seq<bv8>, p: nat)
    requires p + 1 < |d| && AllZero(d[..p]) && AllZero(d[p + 2..])
    ensures Crc(0, d) == 0 <==> Eight(d[p]) == d[p + 1]
  {
    var head, mid, tail := d[..p], [d[p], d[p + 1]], d[p + 2..];
    assert d == head + (mid + tail);
    Chains(0, head, mid + tail);
    ZerosKeep(0, head);
    Chains(0, mid, tail);
    ZerosKeep(Crc(0, mid), tail);
    TwoBytesZero(d[p], d[p + 1]);
  }

  lemma {:induction false} BurstNotZero(d: seq<bv8>, p: nat, s: nat)
    requires p + 1 < |d| && s < 8 && Burst(d, p, s) && !AllZero(d)
    ensures Crc(0, d) != 0
  {
    TwoBytesCancel(d, p);
    if Eight(d[p]) == d[p + 1] {
      BurstDoesNotCancel(d[p], d[p + 1], s);
      AllZeroParts(d, p);
    }
  }

  /** A single byte that differs is always seen, also in a message of one byte. */
  lemma {:induction false} OneByteDetected(initial: bv8, a: seq<bv8>, x: bv8, y: bv8, b: seq<bv8>)
    ensures Crc(initial, a + [x] + b) == Crc(initial, a + [y] + b) <==> x == y
  {
    Chains(initial, a + [x], b);
    Chains(initial, a + [y], b);
    CheckMore(initial, a, x, a + [x], Sum, ByteStep);
    CheckMore(initial, a, y, a + [y], Sum, ByteStep);
    if x != y {
      SumDiffers(x, y, Crc(initial, a));
      ByteStepInjective(Sum(Crc(initial, a), x), Sum(Crc(initial, a), y));
      SameTailKeeps(Crc(initial, a + [x]), Crc(initial, a + [y]), b);
    }
  }

  lemma {:induction false} XorBack(c: bv8, x: bv8)
    ensures (c ^ x) ^ x == c && (x ^ c) ^ x == c
  {
  }

  lemma {:induction false} SumDiffers(c: bv8, d: bv8, x: bv8)
    requires c != d
    ensures Sum(c, x) != Sum(d, x) && Sum(x, c) != Sum(x, d)
  {
    XorBack(c, x);
    XorBack(d, x);
  }

  lemma {:induction false} SumZero(p: bv8, q: bv8)
    ensures Sum(p, q) == 0 <==> p == q
  {
  }

  lemma {:induction false} ByteStepInjective(p: bv8, q: bv8)
    requires p != q
    ensures ByteStep(p) != ByteStep(q)
  {
    StepOfSum(p, q);
    StepZero(Sum(p, q));
    SumZero(p, q);
    SumZero(ByteStep(p), ByteStep(q));
  }

  lemma {:induction false} StepZero(c: bv8)
    ensures ByteStep(c) == 0 <==> c == 0
  {
    ShiftsZero(c, 8);
  }

  predicate StaysDifferent<T(==)>(add: (T, T) -> T, step: T -> T, c: T, d: T, x: T) {
    c != d ==> step(add(c, x)) != step(add(d, x))
  }

  lemma {:induction false} TailKeeps<T(!new)>(c: T, d: T, tail: seq<T>, add: (T, T) -> T, step: T -> T)
    requires c != d && forall p, q, x :: StaysDifferent(add, step, p, q, x)
    ensures Check(c, tail, add, step) != Check(d, tail, add, step)
  {
    if tail != [] {
      var n := |tail| - 1;
      TailKeeps(c, d, tail[..n], add, step);
      assert StaysDifferent(add, step, Check(c, tail[..n], add, step), Check(d, tail[..n], add, step), tail[n]);
    }
  }

  /** Different values so far stay different when the same bytes follow. */
  lemma {:induction false} SameTailKeeps(c: bv8, d: bv8, tail: seq<bv8>)
    requires c != d
    ensures Crc(c, tail) != Crc(d, tail)
  {
    forall p, q, x ensures StaysDifferent(Sum, ByteStep, p, q, x) {
      if p != q {
        SumDiffers(p, q, x);
        ByteStepInjective(Sum(p, x), Sum(q, x));
      }
    }
    TailKeeps(c, d, tail, Sum, ByteStep);
  }

  lemma {:induction false} DiffersSomewhere(a: seq<bv8>, b: seq<bv8>)
    requires |a| == |b|
    ensures a == b <==> AllZero(Xor(a, b))
  {
    forall i | 0 <= i < |a| ensures Xor(a, b)[i] == 0 <==> a[i] == b[i] {
      SumsAt(a, b, Sum, i);
      XorZero(a[i], b[i]);
    }
  }

  /** Two messages of one length have the same check exactly if their difference has the check 0. */
  lemma {:induction false} SameCheck(initial: bv8, a: seq<bv8>, b: seq<bv8>)
    requires |a| == |b|
    ensures Crc(initial, a) == Crc(initial, b) <==> Crc(0, Xor(a, b)) == 0
  {
    Linear(initial, initial, a, b);
    XorZero(initial, initial);
    XorZero(Crc(initial, a), Crc(initial, b));
  }

  /** Two messages of one length that differ only within 8 consecutive bits have different check values. */
  lemma {:induction false} BurstDetected(initial: bv8, a: seq<bv8>, b: seq<bv8>, p: nat, s: nat)
    requires |a| == |b| && p < |a| && s < 8 && a != b && Burst(Xor(a, b), p, s)
    ensures Crc(initial, a) != Crc(initial, b)
  {
    var d := Xor(a, b);
    if p + 1 == |a| {
      SameBefore(a, b, p);
      assert a == a[..p] + [a[p]] + [] && b == a[..p] + [b[p]] + [];
      OneByteDetected(initial, a[..p], a[p], b[p], []);
    } else {
      DiffersSomewhere(a, b);
      BurstNotZero(d, p, s);
      SameCheck(initial, a, b);
    }
  }

  lemma {:induction false} SameBefore(a: seq<bv8>, b: seq<bv8>, p: nat)
    requires |a| == |b| && p < |a| && AllZero(Xor(a, b)[..p])
    ensures a[..p] == b[..p]
  {
    forall i: nat | i < p ensures a[i] == b[i] {
      SumsAt(a, b, Sum, i);
      assert Xor(a, b)[..p][i] == 0;
      XorZero(a[i], b[i]);
    }
  }

  /** The bits set in d are among 9 consecutive ones: from bit s of byte p to bit s of the next byte. */
  predicate NineBits(d: seq<bv8>, p: nat, s: nat)
    requires p + 1 < |d| && s < 8
  {
    && AllZero(d[..p]) && d[p] & LowBits(s) == 0
    && d[p + 1] & !UpTo(s) == 0 && AllZero(d[p + 2..])
  }

  /** The bits up to bit s. */
  function UpTo(s: nat): bv8
    requires s < 8
  {
    if s == 7 then 0xFF else LowBits(s + 1)
  }

  /** The generator with its leading bit, 0x119 lowest bit first, from bit s of one byte to bit s of the next. */
  function Generator(s: nat): (bv8, bv8)
    requires s < 8
  {
    match s
    case 0 => (0x19, 0x01)
    case 1 => (0x32, 0x02)
    case 2 => (0x64, 0x04)
    case 3 => (0xC8, 0x08)
    case 4 => (0x90, 0x11)
    case 5 => (0x20, 0x23)
    case 6 => (0x40, 0x46)
    case 7 => (0x80, 0x8C)
  }

  /** Of the nonzero patterns of 9 bits only the generator cancels out. */
  lemma {:induction false} NineBitsCancel(u: bv8, v: bv8, s: nat)
    requires s < 8 && u & LowBits(s) == 0 && v & !UpTo(s) == 0
    ensures Eight(u) == v <==> (u == 0 && v == 0) || (u, v) == Generator(s)
  {
  }

  /** A difference within 9 consecutive bits is missed exactly if its pattern is the generator. */
  lemma {:induction false} NineBitsMissedExactly(initial: bv8, a: seq<bv8>, b: seq<bv8>, p: nat, s: nat)
    requires |a| == |b| && p + 1 < |a| && s < 8 && NineBits(Xor(a, b), p, s) && a != b
    ensures Crc(initial, a) == Crc(initial, b) <==> (Xor(a, b)[p], Xor(a, b)[p + 1]) == Generator(s)
  {
    var d := Xor(a, b);
    SameCheck(initial, a, b);
    DiffersSomewhere(a, b);
    TwoBytesCancel(d, p);
    NineBitsCancel(d[p], d[p + 1], s);
    if d[p] == 0 && d[p + 1] == 0 {
      AllZeroParts(d, p);
    }
  }
}
