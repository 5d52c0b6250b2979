/** Ids counted up in 32 bits without looking at those in use. */
module IdCounter {
  import opened Basics

  /** The id after the given one, counting round at 32 bits and passing over 0. */
  function NextId(id: uint32): uint32 {
    var next := Wrap32(id + 1);
    if next == 0 then 1 else next
  }

  /** The id given by the n-th count after the counter stood at "start". */
  function IdAfter(start: uint32, n: nat): uint32 {
    if n == 0 then start else NextId(IdAfter(start, n - 1))
  }

  lemma {:induction false} NextIdIs(id: uint32)
    ensures NextId(id) == if id == TWO_TO_THE_32 - 1 then 1 else id + 1
  {
  }

  /** How often the counter has passed its largest value by the n-th count. */
  ghost function Laps(start: uint32, n: nat): (r: nat)
    ensures IdAfter(start, n) == start + n - r * (TWO_TO_THE_32 - 1)
    ensures n > 0 ==> 1 <= IdAfter(start, n) < TWO_TO_THE_32
  {
    if n == 0 then 0
    else
      NextIdIs(IdAfter(start, n - 1));
      if IdAfter(start, n - 1) == TWO_TO_THE_32 - 1 then Laps(start, n - 1) + 1 else Laps(start, n - 1)
  }

  lemma {:induction false} SameAfterLaps(x: int, y: int, gap: int, laps: int)
    requires 1 <= x < TWO_TO_THE_32 && 1 <= y < TWO_TO_THE_32
    requires y - x == gap - laps * (TWO_TO_THE_32 - 1)
    ensures x == y <==> gap % (TWO_TO_THE_32 - 1) == 0
  {
  }

  /** Two counts give the same id exactly when they are a multiple of 2^32 - 1 apart. */
  lemma {:induction false} IdsRepeatExactly(start: uint32, m: nat, n: nat)
    requires 0 < m <= n
    ensures IdAfter(start, m) == IdAfter(start, n) <==> (n - m) % (TWO_TO_THE_32 - 1) == 0
    ensures IdAfter(start, n) != 0
  {
    var a, b := Laps(start, m), Laps(start, n);
    SameAfterLaps(IdAfter(start, m), IdAfter(start, n), n - m, b - a);
  }
}
