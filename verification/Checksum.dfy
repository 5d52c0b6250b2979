/** The 32-bit additive checksum, of a block and of a file read block by block. */
module Checksum {
  import opened Basics

  datatype Code = Success | InvalidParameter | FileOpenFail

  const READ_BUF_SIZE := 4096

  /** Bytes as a number, lowest first; missing ones count as 0. */
  function Value(s: seq<byte>): nat {
    if s == [] then 0 else s[0] as int + 0x100 * Value(s[1..])
  }

  /** All words added up; a last word that is cut short is filled up with zeros. */
  function Total(data: seq<byte>): nat {
    if |data| < 4 then Value(data) else Value(data[..4]) + Total(data[4..])
  }

  function Sum32(data: seq<byte>): uint32 {
    Wrap32(Total(data))
  }

  method CheckSum32(buf: seq<byte>) returns (sum: uint32)
    ensures sum == Sum32(buf)
  {
    var blocks, residue := |buf| / 4, |buf| % 4;
    sum := 0;
    ghost var done := 0;
    assert buf[0..] == buf;
    for id := 0 to blocks
      invariant sum == Wrap32(done) && done + Total(buf[4 * id..]) == Total(buf)
    {
      assert buf[4 * id..][..4] == buf[4 * id..4 * id + 4] && buf[4 * id..][4..] == buf[4 * id + 4..];
      var word := Value(buf[4 * id..4 * id + 4]);
      AddWrapped(done, word);
      sum := Wrap32(sum + word);
      done := done + word;
    }
    if residue != 0 {
      AddWrapped(done, Value(buf[4 * blocks..]));
      sum := Wrap32(sum + Value(buf[4 * blocks..]));
    }
  }

  lemma {:induction false} AddWrapped(x: int, y: int)
    ensures Wrap32(Wrap32(x) + y) == Wrap32(x + y)
  {
  }

  lemma {:induction false} ChunkFirst(rest: seq<byte>, n: nat, aligned: bool, after: seq<byte>)
    requires n <= |rest| && after == rest[n..] && if aligned then n % 4 == 0 else n == |rest|
    ensures Total(rest) == Total(rest[..n]) + Total(after)
  {
    assert rest == rest[..n] + after;
    AlignedTotal(rest[..n], after, aligned);
  }

  method AddChunk(chunk: seq<byte>, sum: uint32, ghost done: nat) returns (sum': uint32, ghost done': nat)
    requires sum == Wrap32(done)
    ensures done' == done + Total(chunk) && sum' == Wrap32(done')
  {
    var more := CheckSum32(chunk);
    AddWrapped(done, Total(chunk));
    AddWrapped(Total(chunk), Wrap32(done));
    sum' := Wrap32(sum + more);
    done' := done + Total(chunk);
  }

  /** "file" is what can be read of the file, or None if it cannot be opened; a read error looks like its end. */
  method CalcFileChecksum32(pathGiven: bool, resultGiven: bool, file: Option<seq<byte>>)
    returns (code: Code, sum: uint32)
    ensures code == if !pathGiven || !resultGiven then InvalidParameter
                    else if file.None? then FileOpenFail else Success
    ensures code == Success ==> sum == Sum32(file.value)
  {
    sum := 0;
    if !pathGiven || !resultGiven {
      return InvalidParameter, 0;
    }
    if file.None? {
      return FileOpenFail, 0;
    }
    var data, at := file.value, 0;
    ghost var done: nat := 0;
    assert data[0..] == data;
    while true
      invariant at <= |data| && (at < |data| ==> at % 4 == 0)
      invariant sum == Wrap32(done) && done + Total(data[at..]) == Total(data)
      decreases |data| - at
    {
      var n := if |data| - at < READ_BUF_SIZE then |data| - at else READ_BUF_SIZE;
      if n == 0 {
        break;
      }
      assert data[at..][..n] == data[at..at + n] && data[at..][n..] == data[at + n..];
      ChunkFirst(data[at..], n, n == READ_BUF_SIZE, data[at + n..]);
      sum, done := AddChunk(data[at..at + n], sum, done);
      at := at + n;
    }
    assert data[at..] == [] && Total([]) == 0;
    code := Success;
  }

  // ---------- in pieces ----------

  /** The sum over the whole is the sum over the two pieces. */
  predicate Splits(a: seq<byte>, b: seq<byte>) {
    Sum32(a + b) == Wrap32(Sum32(a) + Sum32(b))
  }

  lemma {:induction false} AlignedTotal(a: seq<byte>, b: seq<byte>, aligned: bool)
    requires if aligned then |a| % 4 == 0 else b == []
    ensures Total(a + b) == Total(a) + Total(b)
  {
    if b == [] {
      assert a + b == a;
    } else if a == [] {
      assert a + b == b;
    } else {
      AlignedTotal(a[4..], b, true);
      assert (a + b)[..4] == a[..4] && (a + b)[4..] == a[4..] + b;
    }
  }

  lemma {:induction false} AlignedSplits(a: seq<byte>, b: seq<byte>)
    requires |a| % 4 == 0
    ensures Splits(a, b)
  {
    AlignedTotal(a, b, true);
    AddWrapped(Total(a), Total(b));
    AddWrapped(Total(b), Wrap32(Total(a)));
  }

  /** What a byte 1 counts at the n-th place of a word. */
  function Place(n: nat): nat {
    if n == 0 then 1 else 0x100 * Place(n - 1)
  }

  lemma {:induction false} Shifted(c: nat, place: nat)
    ensures 0x100 * (c * place) == c * (0x100 * place)
  {}

  lemma {:induction false} ValueOfMore(s: seq<byte>, c: byte)
    ensures Value(s + [c]) == Value(s) + c * Place(|s|)
  {
    if s == [] {
      assert [] + [c] == [c] && [c][1..] == [];
    } else {
      ValueOfMore(s[1..], c);
      assert (s + [c])[1..] == s[1..] + [c];
      Shifted(c, Place(|s| - 1));
    }
  }

  lemma {:induction false} TotalOfWord(word: seq<byte>)
    requires |word| == 4
    ensures Total(word) == Value(word)
  {
    assert word[..4] == word && word[4..] == [];
  }

  lemma {:induction false} WordFirst(a: seq<byte>, c: byte, rest: seq<byte>)
    requires |a| >= 4 && rest == a[4..]
    ensures Total(a + [c]) - Total(a) == Total(rest + [c]) - Total(rest) && |rest| % 4 == |a| % 4
  {
    assert (a + [c])[..4] == a[..4] && (a + [c])[4..] == rest + [c];
  }

  lemma {:induction false} ShortOfMore(a: seq<byte>, c: byte, more: seq<byte>)
    requires |a| < 4 && more == a + [c]
    ensures Total(more) == Total(a) + c * Place(|a|)
  {
    ValueOfMore(a, c);
    if |a| == 3 {
      TotalOfWord(more);
    }
  }

  /** One more byte counts by its place in its word. */
  lemma {:induction false} TotalOfMore(a: seq<byte>, c: byte)
    ensures Total(a + [c]) == Total(a) + c * Place(|a| % 4)
  {
    if |a| >= 4 {
      TotalOfMore(a[4..], c);
      WordFirst(a, c, a[4..]);
    } else {
      ShortOfMore(a, c, a + [c]);
    }
  }

  /** Every byte by its value and its place in its word, the first place counting least. */
  function Weighted(data: seq<byte>): nat {
    if data == [] then 0
    else Weighted(data[..|data| - 1]) + data[|data| - 1] as nat * Place((|data| - 1) % 4)
  }

  /** The sum is that of all bytes, each weighted by its place, modulo 2^32. */
  lemma {:induction false} SumIsWeighted(data: seq<byte>)
    ensures Total(data) == Weighted(data) && Sum32(data) == Weighted(data) % TWO_TO_THE_32
  {
    if data != [] {
      var n := |data| - 1;
      SumIsWeighted(data[..n]);
      TotalOfMore(data[..n], data[n]);
      assert data[..n] + [data[n]] == data;
    }
  }

  lemma {:induction false} WeightedReplaced(a: seq<byte>, x: byte, y: byte, b: seq<byte>)
    ensures Weighted(a + [x] + b) - Weighted(a + [y] + b) == x * Place(|a| % 4) - y * Place(|a| % 4)
  {
    if b == [] {
      assert a + [x] + [] == a + [x] && (a + [x])[..|a|] == a;
      assert a + [y] + [] == a + [y] && (a + [y])[..|a|] == a;
    } else {
      var n := |b| - 1;
      WeightedReplaced(a, x, y, b[..n]);
      assert (a + [x] + b)[..|a| + 1 + n] == a + [x] + b[..n];
      assert (a + [y] + b)[..|a| + 1 + n] == a + [y] + b[..n];
    }
  }

  lemma {:induction false} PlaceIs(n: nat)
    requires n < 4
    ensures Place(n) == if n == 0 then 1 else if n == 1 then 0x100 else if n == 2 then 0x1_0000 else 0x100_0000
  {
    assert Place(0) == 1 && Place(1) == 0x100 && Place(2) == 0x1_0000 && Place(3) == 0x100_0000;
  }

  /** A single byte that differs changes the sum. */
  lemma {:induction false} OneByteSeen(a: seq<byte>, x: byte, y: byte, b: seq<byte>)
    ensures Sum32(a + [x] + b) == Sum32(a + [y] + b) <==> x == y
  {
    SumIsWeighted(a + [x] + b);
    SumIsWeighted(a + [y] + b);
    WeightedReplaced(a, x, y, b);
    PlaceIs(|a| % 4);
    var t, place := Weighted(a + [y] + b), Place(|a| % 4);
    if x > y {
      DifferentWhenClose(t, x * place - y * place);
    } else if x < y {
      DifferentWhenClose(Weighted(a + [x] + b), y * place - x * place);
    }
  }

  /** After a cut inside a word, a byte 1 counts as 1 instead of 256 or more. */
  lemma {:induction false} UnalignedByte(a: seq<byte>)
    requires |a| % 4 != 0
    ensures !Splits(a, [1])
  {
    TotalOfMore(a, 1);
    assert Total([1]) == 1;
    var t, p := Total(a), Place(|a| % 4);
    assert p == 0x100 || p == 0x1_0000 || p == 0x100_0000 by {
      assert Place(1) == 0x100 && Place(2) == 0x1_0000 && Place(3) == 0x100_0000;
    }
    AddWrapped(t, 1);
    DifferentWhenClose(t + 1, p - 1);
  }

  lemma {:induction false} DifferentWhenClose(t: int, d: int)
    requires 0 < d < TWO_TO_THE_32
    ensures Wrap32(t) != Wrap32(t + d)
  {
  }

  /** A piece may be followed by any other exactly when its length is a multiple of 4. */
  lemma {:induction false} SplitsExactly(a: seq<byte>)
    ensures (forall b: seq<byte> :: Splits(a, b)) <==> |a| % 4 == 0
  {
    if |a| % 4 == 0 {
      forall b: seq<byte> ensures Splits(a, b) {
        AlignedSplits(a, b);
      }
    } else {
      UnalignedByte(a);
    }
  }

  function Concat(pieces: seq<seq<byte>>): seq<byte> {
    if pieces == [] then [] else pieces[0] + Concat(pieces[1..])
  }

  function SumOfSums(pieces: seq<seq<byte>>): uint32 {
    if pieces == [] then 0 else Wrap32(Sum32(pieces[0]) + SumOfSums(pieces[1..]))
  }

  /** However a text is cut at multiples of 4 bytes, adding up the sums of the pieces gives its sum. */
  lemma {:induction false} AlignedPieces(pieces: seq<seq<byte>>)
    requires forall i :: 0 <= i < |pieces| - 1 ==> |pieces[i]| % 4 == 0
    ensures SumOfSums(pieces) == Sum32(Concat(pieces))
  {
    if |pieces| == 1 {
      assert pieces[0] + [] == pieces[0];
    } else if |pieces| > 1 {
      AlignedPieces(pieces[1..]);
      AlignedSplits(pieces[0], Concat(pieces[1..]));
    }
  }

  /** The order of whole words does not matter, so swapped words are not noticed. */
  lemma {:induction false} SwapNotSeen(a: seq<byte>, b: seq<byte>)
    requires |a| % 4 == 0 && |b| % 4 == 0
    ensures Sum32(a + b) == Sum32(b + a)
  {
    AlignedSplits(a, b);
    AlignedSplits(b, a);
  }
}
