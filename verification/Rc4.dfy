/** The RC4 stream cipher used for permission files. */
module Rc4 {
  import opened Basics

  type index = x: int | 0 <= x < 256

  /** The box before key setup. */
  function Identity(): (r: seq<index>)
    ensures |r| == 256 && forall i :: 0 <= i < |r| ==> r[i] == i
  {
    seq(256, i requires 0 <= i < 256 => i)
  }

  /** The 256 entries of the box, each usable as an index. */
  type Box = s: seq<index> | |s| == 256 witness Identity()

  /** A character of a key as the program computes with it; a char may be signed, and NUL ends the key. */
  type KeyChar = x: int | -128 <= x < 256 && x != 0 witness 1

  function Swap(s: Box, i: nat, j: nat): Box
    requires i < 256 && j < 256
  {
    s[i := s[j]][j := s[i]]
  }

  /** The key repeated to the size of the box. */
  function Repeated(key: seq<KeyChar>): (r: seq<KeyChar>)
    requires key != []
    ensures |r| == 256 && forall a :: 0 <= a < |r| ==> r[a] == key[a % |key|]
  {
    seq(256, a requires 0 <= a < 256 => key[a % |key|])
  }

  /** The box in the middle of key setup, and the running index. */
  datatype Mix = Mix(box: Box, b: index)

  /** One step of key setup; the remainder of a negative sum is negative, and no index into the box. */
  function Mixed(m: Mix, a: nat, k: KeyChar): Option<Mix>
    requires a < 256
  {
    var sum: int := m.b + m.box[a] as int + k;
    if sum < 0 then None else Some(Mix(Swap(m.box, a, sum % 256), sum % 256))
  }

  /** Key setup with the first characters of the repeated key; None if it has indexed outside the box. */
  function Setup(keys: seq<KeyChar>): Option<Mix>
    requires |keys| <= 256
  {
    if keys == [] then Some(Mix(Identity(), 0))
    else
      var a := |keys| - 1;
      var before := Setup(keys[..a]);
      if before.None? then None else Mixed(before.value, a, keys[a])
  }

  /** The key is not empty, and setup stays inside the box. */
  predicate KeyWorks(key: seq<KeyChar>) {
    key != [] && Setup(Repeated(key)).Some?
  }

  /** The generator: the box and its two indices. */
  datatype Generator = Generator(box: Box, i: nat, j: nat)

  predicate InRange(g: Generator) {
    g.i < 256 && g.j < 256
  }

  function Start(key: seq<KeyChar>): (g: Generator)
    requires KeyWorks(key)
    ensures InRange(g)
  {
    Generator(Setup(Repeated(key)).value.box, 0, 0)
  }

  function Step(g: Generator): (r: Generator)
    requires InRange(g)
    ensures InRange(r)
  {
    var i := (g.i + 1) % 256;
    var j := (g.j + g.box[i] as int) % 256;
    Generator(Swap(g.box, i, j), i, j)
  }

  function Output(g: Generator): index
    requires InRange(g)
  {
    g.box[(g.box[g.i] as int + g.box[g.j] as int) % 256]
  }

  function After(key: seq<KeyChar>, n: nat): (g: Generator)
    requires KeyWorks(key)
    ensures InRange(g)
  {
    if n == 0 then Start(key) else Step(After(key, n - 1))
  }

  function Keystream(key: seq<KeyChar>, n: nat): (r: seq<index>)
    requires KeyWorks(key)
    ensures |r| == n
  {
    if n == 0 then [] else Keystream(key, n - 1) + [Output(After(key, n))]
  }

  function XorByte(a: bv8, k: index): bv8 {
    a ^ (k as bv8)
  }

  /** Each element mixed with the key byte at its place. */
  function Combine<T>(data: seq<T>, keys: seq<index>, mix: (T, index) -> T): (r: seq<T>)
    requires |data| == |keys|
    ensures |r| == |data|
  {
    if data == [] then []
    else
      var n := |data| - 1;
      Combine(data[..n], keys[..n], mix) + [mix(data[n], keys[n])]
  }

  function Cipher(key: seq<KeyChar>, data: seq<bv8>): (r: seq<bv8>)
    requires KeyWorks(key)
    ensures |r| == |data|
  {
    Combine(data, Keystream(key, |data|), XorByte)
  }

  // ---------- the program ----------

  method SwapInts(box: array<index>, i: nat, j: nat)
    requires box.Length == 256 && i < 256 && j < 256
    modifies box
    ensures box[..] == Swap(old(box[..]), i, j)
  {
    var temp := box[i];
    box[i] := box[j];
    box[j] := temp;
  }

  ghost predicate Holds(box: array<index>, content: Box)
    reads box
  {
    box.Length == 256 && box[..] == content
  }

  method ExpandKey(key: seq<KeyChar>) returns (keys: array<KeyChar>)
    requires key != []
    ensures fresh(keys) && keys[..] == Repeated(key)
  {
    keys := new KeyChar[256](_ => 1);
    for a := 0 to 256
      invariant forall k :: 0 <= k < a ==> keys[k] == key[k % |key|]
    {
      keys[a] := key[a % |key|];
    }
  }

  method MixOne(box: array<index>, b: index, a: nat, k: KeyChar) returns (ok: bool, b': index)
    requires box.Length == 256 && a < 256
    modifies box
    ensures ok == Mixed(Mix(old(box[..]), b), a, k).Some?
    ensures ok ==> Mixed(Mix(old(box[..]), b), a, k) == Some(Mix(box[..], b'))
  {
    var sum: int := b + box[a] as int + k;
    if sum < 0 {
      return false, b;
    }
    b' := sum % 256;
    SwapInts(box, a, b');
    ok := true;
  }

  method SetUpBox(key: seq<KeyChar>) returns (ok: bool, box: array<index>)
    requires key != []
    ensures ok == KeyWorks(key)
    ensures ok ==> fresh(box) && Holds(box, Setup(Repeated(key)).value.box)
  {
    box := new index[256](a => if a < 256 then a else 0);
    var keys := ExpandKey(key);
    ghost var all := keys[..];
    var b: index := 0;
    ok := true;
    assert all[..0] == [] && box[..] == Identity();
    for a := 0 to 256
      invariant keys[..] == all && box.Length == 256 && fresh(box) && Setup(all[..a]) == Some(Mix(box[..], b))
    {
      assert all[..a + 1][..a] == all[..a];
      ok, b := MixOne(box, b, a, keys[a]);
      if !ok {
        SetupFails(all, a + 1);
        return;
      }
    }
    assert all[..256] == all;
  }

  lemma {:induction false} SetupFails(keys: seq<KeyChar>, a: nat)
    requires a <= |keys| <= 256 && Setup(keys[..a]).None?
    ensures Setup(keys).None?
  {
    if a == |keys| {
      assert keys[..a] == keys;
    } else {
      assert keys[..|keys| - 1][..a] == keys[..a];
      SetupFails(keys[..|keys| - 1], a);
    }
  }

  /**
   * "Refused" is the code -1, "Size" and "Converted" are the code 0 with the size written back. "Faulted": a division
   * by 0 for the empty key, or an index outside the box or outside the output memory.
   */
  datatype Outcome = Refused | Size(written: int) | Converted(written: int) | Faulted

  /** No output memory and an output size of 0 ask for the size only. The output may be the input's own memory. */
  method EncDecrypt(input: array?<bv8>, inSize: int, output: array?<bv8>, outSize: int, writtenGiven: bool,
                    key: seq<KeyChar>)
    returns (outcome: Outcome)
    requires input != null ==> inSize <= input.Length
    modifies output
    ensures outcome.Refused? <==> input == null || inSize <= 0 || !writtenGiven || (output == null && outSize != 0)
    ensures outcome.Size? <==> input != null && inSize > 0 && writtenGiven && output == null && outSize == 0
    ensures outcome.Faulted? <==>
              && input != null && inSize > 0 && writtenGiven && output != null
              && (!KeyWorks(key) || output.Length < inSize)
    ensures outcome.Size? || outcome.Converted? ==> outcome.written == inSize
    ensures output != null && outcome.Refused? ==> output[..] == old(output[..])
    ensures outcome.Converted? ==>
              KeyWorks(key) && output[..] == Cipher(key, old(input[..inSize])) + old(output[inSize..])
  {
    if input == null || 0 >= inSize || !writtenGiven {
      return Refused;
    }
    if output == null && 0 == outSize {
      return Size(inSize);
    }
    if output == null {
      return Refused;
    }
    if |key| == 0 {
      return Faulted;
    }
    var ok := Convert(input, inSize, output, key);
    outcome := if ok then Converted(inSize) else Faulted;
  }

  method NextKeyByte(box: array<index>, i: index, j: index) returns (i': index, j': index, k: index)
    requires box.Length == 256
    modifies box
    ensures Generator(box[..], i', j') == Step(Generator(old(box[..]), i, j))
    ensures k == Output(Generator(box[..], i', j'))
  {
    ghost var g := Generator(box[..], i, j);
    var next: int := i + 1;
    i' := next % 256;
    var sum: int := j + box[i'] as int;
    j' := sum % 256;
    SwapInts(box, i', j');
    assert Generator(box[..], i', j') == Step(g);
    k := box[(box[i'] as int + box[j'] as int) % 256];
  }

  method Convert(input: array<bv8>, inSize: nat, output: array<bv8>, key: seq<KeyChar>) returns (ok: bool)
    requires inSize <= input.Length && key != []
    modifies output
    ensures ok == (KeyWorks(key) && inSize <= output.Length)
    ensures ok ==> output[..] == Cipher(key, old(input[..inSize])) + old(output[inSize..])
  {
    if output.Length < inSize {
      return false;
    }
    var box;
    ok, box := SetUpBox(key);
    if !ok {
      return;
    }
    var i: index, j: index := 0, 0;
    ghost var given, before, keys := input[..inSize], output[..], [];
    AtStart(given, before, XorByte);
    for a := 0 to inSize
      invariant fresh(box) && box.Length == 256
      invariant Generator(box[..], i, j) == After(key, a) && keys == Keystream(key, a)
      invariant PartlyConverted(given, before, keys, XorByte, input[..], output[..])
    {
      var k;
      i, j, k := NextKeyByte(box, i, j);
      ConvertOne(input, output, a, k, given, before, keys);
      keys := keys + [k];
    }
    assert given[..inSize] == given;
  }

  method ConvertOne(input: array<bv8>, output: array<bv8>, a: nat, k: index,
                    ghost given: seq<bv8>, ghost before: seq<bv8>, ghost keys: seq<index>)
    requires PartlyConverted(given, before, keys, XorByte, input[..], output[..]) && |keys| == a < |given|
    modifies output
    ensures PartlyConverted(given, before, keys + [k], XorByte, input[..], output[..])
  {
    ghost var in0, out0 := input[..], output[..];
    output[a] := XorByte(input[a], k);
    ConvertedMore(given, before, keys, XorByte, in0, out0, k, input[..], output[..]);
  }

  /** The first elements have been converted; the rest of the output, and of the input, is as it was. */
  ghost predicate PartlyConverted<T>(given: seq<T>, before: seq<T>, keys: seq<index>, mix: (T, index) -> T,
                               input: seq<T>, output: seq<T>)
  {
    var a := |keys|;
    && a <= |given| <= |before| && |given| <= |input|
    && output == Combine(given[..a], keys, mix) + before[a..]
    && input[a..|given|] == given[a..]
  }

  lemma {:induction false} AtStart<T>(given: seq<T>, before: seq<T>, mix: (T, index) -> T)
    ensures Combine(given[..0], [], mix) + before[0..] == before
  {
  }

  lemma {:induction false} ConvertedMore<T>(given: seq<T>, before: seq<T>, keys: seq<index>, mix: (T, index) -> T,
                         input: seq<T>, output: seq<T>, k: index, input': seq<T>, output': seq<T>)
    requires PartlyConverted(given, before, keys, mix, input, output) && |keys| < |given|
    requires output' == output[|keys| := mix(input[|keys|], k)]
    requires |input'| == |input| && forall n :: |keys| < n < |input| ==> input'[n] == input[n]
    ensures PartlyConverted(given, before, keys + [k], mix, input', output')
  {
    var a := |keys|;
    assert input[a] == input[a..|given|][0] == given[a];
    assert given[..a + 1][..a] == given[..a] && (keys + [k])[..a] == keys;
    assert forall n :: a < n < |given| ==> input'[n] == input[n] == input[a..|given|][n - a];
    assert input'[a + 1..|given|] == given[a + 1..];
  }

  // ---------- which keys work ----------

  lemma {:induction false} PositiveSetup(keys: seq<KeyChar>)
    requires |keys| <= 256 && forall a :: 0 <= a < |keys| ==> keys[a] > 0
    ensures Setup(keys).Some?
  {
    if keys != [] {
      PositiveSetup(keys[..|keys| - 1]);
    }
  }

  /** Every key of characters up to 127 works, and of any characters where a char is unsigned. */
  lemma {:induction false} PositiveKeyWorks(key: seq<KeyChar>)
    requires key != [] && forall i :: 0 <= i < |key| ==> key[i] > 0
    ensures KeyWorks(key)
  {
    PositiveSetup(Repeated(key));
  }

  /** Where a char is signed, no key that begins with a character above 127 works. */
  lemma {:induction false} NegativeStartFails(key: seq<KeyChar>)
    requires key != [] && key[0] < 0
    ensures !KeyWorks(key)
  {
    var keys := Repeated(key);
    var first := keys[..1];
    assert first[..0] == [] && first[0] == key[0];
    SetupFails(keys, 1);
  }

  // ---------- properties ----------

  /** Every value from 0 to 255 is in the box once. */
  predicate Permutation(box: Box) {
    multiset(box) == multiset(Identity())
  }

  lemma {:induction false} SwapPermutes<T>(s: seq<T>, i: nat, j: nat)
    requires i < |s| && j < |s|
    ensures multiset(s[i := s[j]][j := s[i]]) == multiset(s)
  {
  }

  lemma {:induction false} SetupPermutes(keys: seq<KeyChar>)
    requires |keys| <= 256 && Setup(keys).Some?
    ensures Permutation(Setup(keys).value.box)
  {
    if keys != [] {
      var a := |keys| - 1;
      SetupPermutes(keys[..a]);
      MixedPermutes(Setup(keys[..a]).value, a, keys[a], Setup(keys).value);
    }
  }

  lemma {:induction false} MixedPermutes(m: Mix, a: nat, k: KeyChar, next: Mix)
    requires a < 256 && Mixed(m, a, k) == Some(next) && Permutation(m.box)
    ensures Permutation(next.box)
  {
    SwapPermutes(m.box, a, next.b);
  }

  lemma {:induction false} StepPermutes(g: Generator, next: Generator)
    requires InRange(g) && next == Step(g) && Permutation(g.box)
    ensures Permutation(next.box)
  {
    SwapPermutes(g.box, next.i, next.j);
  }

  /** Key setup and output of any length leave the box a permutation, and the indices in range. */
  lemma {:induction false} BoxStaysPermutation(key: seq<KeyChar>, n: nat, g: Generator)
    requires KeyWorks(key) && g == After(key, n)
    ensures Permutation(g.box) && InRange(g)
  {
    if n == 0 {
      SetupPermutes(Repeated(key));
    } else {
      var before := After(key, n - 1);
      BoxStaysPermutation(key, n - 1, before);
      StepPermutes(before, g);
    }
  }

  /** Every value is in the box, at one place only. */
  lemma {:induction false} EveryValueOnce(key: seq<KeyChar>, n: nat, v: index)
    requires KeyWorks(key)
    ensures multiset(After(key, n).box)[v] == 1
  {
    BoxStaysPermutation(key, n, After(key, n));
    CountOnce(Identity(), v);
  }

  lemma {:induction false} CountOnce(s: seq<index>, v: index)
    requires forall i :: 0 <= i < |s| ==> s[i] == i
    ensures multiset(s)[v] == if v < |s| then 1 else 0
  {
    if s != [] {
      var n := |s| - 1;
      CountOnce(s[..n], v);
      assert s == s[..n] + [s[n]];
    }
  }

  predicate UndoneAt<T(==)>(mix: (T, index) -> T, a: T, k: index) {
    mix(mix(a, k), k) == a
  }

  lemma {:induction false} CombineTwice<T(!new)>(data: seq<T>, keys: seq<index>, mix: (T, index) -> T)
    requires |data| == |keys| && forall a: T, k: index :: UndoneAt(mix, a, k)
    ensures Combine(Combine(data, keys, mix), keys, mix) == data
  {
    if data != [] {
      var n := |data| - 1;
      CombineTwice(data[..n], keys[..n], mix);
      assert Combine(data, keys, mix)[..n] == Combine(data[..n], keys[..n], mix);
      assert UndoneAt(mix, data[n], keys[n]);
    }
  }

  lemma {:induction false} XorByteTwice(a: bv8, k: index)
    ensures XorByte(XorByte(a, k), k) == a
  {
  }

  /** Running it twice with the same key gives the input back. */
  lemma {:induction false} TwiceIsIdentity(key: seq<KeyChar>, data: seq<bv8>)
    requires KeyWorks(key)
    ensures Cipher(key, Cipher(key, data)) == data
  {
    forall a: bv8, k: index ensures UndoneAt(XorByte, a, k) {
      XorByteTwice(a, k);
    }
    CombineTwice(data, Keystream(key, |data|), XorByte);
  }

  lemma {:induction false} PrefixOfMore<T>(a: seq<T>, last: T, m: nat)
    requires m <= |a|
    ensures (a + [last])[..m] == a[..m]
  {}

  lemma {:induction false} KeystreamPrefix(key: seq<KeyChar>, m: nat, n: nat, long: seq<index>, short: seq<index>)
    requires KeyWorks(key) && m <= n && long == Keystream(key, n) && short == Keystream(key, m)
    ensures long[..m] == short
  {
    if m < n {
      var before, last := Keystream(key, n - 1), Output(After(key, n));
      KeystreamPrefix(key, m, n - 1, before, short);
      PrefixOfMore(before, last, m);
    }
  }

  lemma {:induction false} CombinePrefix<T>(data: seq<T>, keys: seq<index>, mix: (T, index) -> T, n: nat)
    requires |data| == |keys| && n <= |data|
    ensures Combine(data, keys, mix)[..n] == Combine(data[..n], keys[..n], mix)
  {
    if n == |data| {
      assert data[..n] == data && keys[..n] == keys;
    } else {
      var m := |data| - 1;
      CombinePrefix(data[..m], keys[..m], mix, n);
      assert data[..m][..n] == data[..n] && keys[..m][..n] == keys[..n];
    }
  }

  /** What comes later does not change what came before, so a text may be cut off anywhere. */
  lemma {:induction false} PrefixesAgree(key: seq<KeyChar>, data: seq<bv8>, n: nat)
    requires KeyWorks(key) && n <= |data|
    ensures Cipher(key, data)[..n] == Cipher(key, data[..n])
  {
    KeystreamPrefix(key, n, |data|, Keystream(key, |data|), Keystream(key, n));
    CombinePrefix(data, Keystream(key, |data|), XorByte, n);
  }

  // ---------- what the stream is, read off the box ----------

  /** The box after key setup. */
  function SetBox(key: seq<KeyChar>): Box
    requires KeyWorks(key)
  {
    Setup(Repeated(key)).value.box
  }

  /** Each byte of the output is the input's byte, exclusive or the key stream's at that place. */
  lemma {:induction false} CipherAt(key: seq<KeyChar>, data: seq<bv8>, n: nat)
    requires KeyWorks(key) && n < |data|
    ensures Cipher(key, data)[n] == data[n] ^ (Keystream(key, |data|)[n] as bv8)
  {
    CombineAt(data, Keystream(key, |data|), XorByte, n);
  }

  lemma {:induction false} CombineAt<T>(data: seq<T>, keys: seq<index>, mix: (T, index) -> T, n: nat)
    requires |data| == |keys| && n < |data|
    ensures Combine(data, keys, mix)[n] == mix(data[n], keys[n])
  {
    if n < |data| - 1 {
      CombineAt(data[..|data| - 1], keys[..|data| - 1], mix, n);
    }
  }

  lemma {:induction false} NextRound(i: nat, n: nat)
    requires n > 0 && i == (n - 1) % 256
    ensures (i + 1) % 256 == n % 256
  {}

  lemma {:induction false} StepWalks(g: Generator, next: Generator)
    requires InRange(g) && next == Step(g)
    ensures next.i == (g.i + 1) % 256
  {}

  /** The first index goes round the box. */
  lemma {:induction false} WalksRound(key: seq<KeyChar>, n: nat, g: Generator)
    requires KeyWorks(key) && g == After(key, n)
    ensures g.i == n % 256
  {
    if n > 0 {
      var before := After(key, n - 1);
      WalksRound(key, n - 1, before);
      StepWalks(before, g);
      NextRound(before.i, n);
    }
  }

  lemma {:induction false} StreamIs(key: seq<KeyChar>, m: nat, n: nat)
    requires KeyWorks(key) && 0 < n <= m
    ensures Keystream(key, m)[n - 1] == Output(After(key, n))
  {
    KeystreamPrefix(key, n, m, Keystream(key, m), Keystream(key, n));
    assert Keystream(key, m)[n - 1] == Keystream(key, m)[..n][n - 1];
  }

  /** Byte n of the stream is found in the box after n steps, at the sum of the two entries the step exchanged. */
  lemma {:induction false} StreamAt(key: seq<KeyChar>, m: nat, n: nat)
    requires KeyWorks(key) && 0 < n <= m
    ensures var g := After(key, n);
            Keystream(key, m)[n - 1] == g.box[(g.box[n % 256] as int + g.box[g.j] as int) % 256]
  {
    WalksRound(key, n, After(key, n));
    StreamIs(key, m, n);
  }

  lemma {:induction false} StepOnce(before: Generator, after: Generator, v: index)
    requires InRange(before) && after == Step(before)
    ensures after.j == (before.j + before.box[after.i] as int) % 256
    ensures after.box[after.i] == before.box[after.j] && after.box[after.j] == before.box[after.i]
    ensures v != after.i && v != after.j ==> after.box[v] == before.box[v]
  {}

  /** A step exchanges two entries: at the walking index, and at the other one, which the entry there moves on. */
  lemma {:induction false} StepExchanges(key: seq<KeyChar>, n: nat, before: Generator, after: Generator, v: index)
    requires KeyWorks(key) && n > 0 && before == After(key, n - 1) && after == After(key, n)
    ensures after.j == (before.j + before.box[n % 256] as int) % 256
    ensures after.box[n % 256] == before.box[after.j] && after.box[after.j] == before.box[n % 256]
    ensures v != n % 256 && v != after.j ==> after.box[v] == before.box[v]
  {
    WalksRound(key, n, after);
    StepOnce(before, after, v);
  }

  lemma {:induction false} FirstOutput(b: Box, g: Generator)
    requires g == Step(Generator(b, 0, 0))
    ensures var x: int := b[1];
            var at := (x + b[x] as int) % 256;
            Output(g) == if at == 1 then b[x] else if at == x then b[1] else b[at]
  {
    StepOnce(Generator(b, 0, 0), g, ((b[1] as int + b[b[1]] as int) % 256) as index);
    assert g.i == 1 && g.j == b[1] as int;
  }

  lemma {:induction false} SecondOutput(b: Box, g: Generator, h: Generator)
    requires g == Step(Generator(b, 0, 0)) && h == Step(g) && b[2] == 0 && b[1] != 2
    ensures Output(h) == 0
  {
    var x: int := b[1];
    StepOnce(Generator(b, 0, 0), g, 2);
    assert g.i == 1 && g.j == x && g.box[x] == b[1] && g.box[2] == 0;
    StepOnce(g, h, 2);
    assert h.i == 2 && h.j == x && h.box[2] == b[1] && h.box[x] == 0;
  }

  /**
   * The first byte: with x the entry at 1 of the box after key setup, it is the entry at x plus the entry at x, of that
   * box with places 1 and x exchanged.
   */
  lemma {:induction false} FirstByte(key: seq<KeyChar>, m: nat)
    requires KeyWorks(key) && m > 0
    ensures var b := SetBox(key);
            var x: int := b[1];
            var at := (x + b[x] as int) % 256;
            Keystream(key, m)[0] == if at == 1 then b[x] else if at == x then b[1] else b[at]
  {
    StreamIs(key, m, 1);
    assert After(key, 0) == Generator(SetBox(key), 0, 0);
    FirstOutput(SetBox(key), After(key, 1));
  }

  /** The second byte is 0 if the entry at 2 of the box after key setup is, and the one at 1 is not 2. */
  lemma {:induction false} SecondByteZero(key: seq<KeyChar>, m: nat)
    requires KeyWorks(key) && m > 1
    requires SetBox(key)[2] == 0 && SetBox(key)[1] != 2
    ensures Keystream(key, m)[1] == 0
  {
    StreamIs(key, m, 2);
    assert After(key, 0) == Generator(SetBox(key), 0, 0);
    SecondOutput(SetBox(key), After(key, 1), After(key, 2));
  }

  // ---------- what key setup makes of the key ----------

  lemma {:induction false} AtLeast(x: int, n: nat)
    requires x >= 1
    ensures x * n >= n
  {}

  lemma {:induction false} Apart(p: int, q: int, n: nat)
    ensures p * n - q * n == (p - q) * n
  {}

  lemma {:induction false} Remainder(a: nat, n: nat, q: nat, r: nat)
    requires r < n && a == q * n + r
    ensures a % n == r
  {
    var p := a / n;
    assert a == p * n + a % n;
    Apart(p, q, n);
    Apart(q, p, n);
    if q > p {
      AtLeast(q - p, n);
    } else if q < p {
      AtLeast(p - q, n);
    }
  }

  lemma {:induction false} Doubled(q: nat, n: nat, m: nat)
    requires m == n + n
    ensures q * m == (q + q) * n && (q + q + 1) * n == (q + q) * n + n
  {}

  lemma {:induction false} TwiceRound(a: nat, n: nat, m: nat, q: nat, r: nat)
    requires n > 0 && m == n + n && q == a / m && r == a % m
    ensures r == a % n || r == a % n + n
  {
    Doubled(q, n, m);
    if r < n {
      Remainder(a, n, q + q, r);
    } else {
      Remainder(a, n, q + q + 1, r - n);
    }
  }

  lemma {:induction false} DoubledAt(key: seq<KeyChar>, other: seq<KeyChar>, a: nat)
    requires key != [] && other == key + key
    ensures other[a % |other|] == key[a % |key|]
  {
    TwiceRound(a, |key|, |other|, a / |other|, a % |other|);
  }

  /** The key counts only as the repeated text: written twice, or longer than the box, it is the same key. */
  lemma {:induction false} SameRepeated(key: seq<KeyChar>, other: seq<KeyChar>)
    requires key != []
    requires other == key + key || (|other| > 256 && key == other[..256])
    ensures Repeated(other) == Repeated(key)
  {
    if other == key + key {
      forall a | 0 <= a < 256 ensures other[a % |other|] == key[a % |key|] {
        DoubledAt(key, other, a);
      }
    } else {
      forall a | 0 <= a < 256 ensures other[a % |other|] == key[a % |key|] {
        Remainder(a, |other|, 0, a);
        Remainder(a, |key|, 0, a);
      }
    }
  }

  /** So two such keys give the same output. */
  lemma {:induction false} SameKey(key: seq<KeyChar>, other: seq<KeyChar>, data: seq<bv8>)
    requires KeyWorks(key) && (other == key + key || (|other| > 256 && key == other[..256]))
    ensures KeyWorks(other) && Cipher(other, data) == Cipher(key, data)
  {
    SameRepeated(key, other);
    SameKeystream(key, other, |data|);
  }

  lemma {:induction false} SameKeystream(key: seq<KeyChar>, other: seq<KeyChar>, n: nat)
    requires KeyWorks(key) && KeyWorks(other) && Repeated(other) == Repeated(key)
    ensures After(other, n) == After(key, n) && Keystream(other, n) == Keystream(key, n)
  {
    if n > 0 {
      SameKeystream(key, other, n - 1);
    }
  }

  /** The a-th step of setup exchanges the entry at a with the one at the index that the character moves on. */
  lemma {:induction false} SetupExchanges(keys: seq<KeyChar>, k: KeyChar, v: index)
    requires |keys| < 256 && Setup(keys + [k]).Some?
    ensures Setup(keys).Some?
    ensures var a, before, after := |keys|, Setup(keys).value, Setup(keys + [k]).value;
            && after.b == (before.b as int + before.box[a] as int + k) % 256
            && after.box[a] == before.box[after.b] && after.box[after.b] == before.box[a]
            && (v != a && v != after.b ==> after.box[v] == before.box[v])
  {
    assert (keys + [k])[..|keys|] == keys;
  }

  /** Every character counts: after the same ones, two lead to one state exactly if they differ by a multiple of 256. */
  lemma {:induction false} EveryCharacterMatters(keys: seq<KeyChar>, k: KeyChar, l: KeyChar)
    requires |keys| < 256 && Setup(keys + [k]).Some? && Setup(keys + [l]).Some?
    ensures Setup(keys + [k]) == Setup(keys + [l]) <==> (k - l) % 256 == 0
  {
    SetupExchanges(keys, k, 0);
    SetupExchanges(keys, l, 0);
    var m := Setup(keys).value;
    assert (keys + [k])[..|keys|] == keys && (keys + [l])[..|keys|] == keys;
    SameModulo(m.b as int + m.box[|keys|] as int, k, l);
  }

  lemma {:induction false} SameModulo(sum: nat, k: int, l: int)
    ensures (sum + k) % 256 == (sum + l) % 256 <==> (k - l) % 256 == 0
  {
    var a, b := (sum + k) / 256, (sum + l) / 256;
    assert k - l == (a - b) * 256 + ((sum + k) % 256 - (sum + l) % 256);
  }

  /** Where setup begins: every entry at its own place. */
  lemma {:induction false} SetupBegins(v: index)
    ensures Setup([]) == Some(Mix(Identity(), 0)) && Identity()[v] == v
  {}
}
