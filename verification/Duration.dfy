/** The duration formatter of the user interface: a number of milliseconds as years, months, days and so on. */
module Duration {
  import opened Basics

  /** Units by index: milliseconds, seconds, minutes, hours, days, months, years. */
  datatype Entry = Entry(unit: nat, magnitude: nat)

  const MILLISECONDS := 0
  const YEARS := 6

  /** How many of a unit make one of the next. */
  function PerNext(unit: nat): (m: nat)
    requires unit < YEARS
    ensures m > 1
  {
    match unit
    case 0 => 1000
    case 1 => 60
    case 2 => 60
    case 3 => 24
    case 4 => 30
    case 5 => 12
  }

  /** One of the unit in milliseconds. */
  function Size(unit: nat): nat
    requires unit <= YEARS
  {
    match unit
    case 0 => 1
    case 1 => 1000
    case 2 => 60_000
    case 3 => 3_600_000
    case 4 => 86_400_000
    case 5 => 2_592_000_000
    case 6 => 31_104_000_000
  }

  function Quotient(duration: nat, unit: nat): nat
    requires unit < YEARS
  {
    duration / PerNext(unit)
  }

  function Remainder(duration: nat, unit: nat): nat
    requires unit < YEARS
  {
    duration % PerNext(unit)
  }

  /** The entry for what a unit is left with, if anything. */
  function Left(magnitude: nat, unit: nat): seq<Entry> {
    if magnitude != 0 then [Entry(unit, magnitude)] else []
  }

  /** A duration in some unit taken apart into that and larger ones, largest first. */
  function Parts(duration: nat, unit: nat): seq<Entry>
    requires unit <= YEARS
    decreases YEARS - unit
  {
    if unit == YEARS then Left(duration, unit)
    else Parts(Quotient(duration, unit), unit + 1) + Left(Remainder(duration, unit), unit)
  }

  /** Takes off what is left of a unit, and goes on with the next larger one. */
  method CarryOver(entries: seq<Entry>, rest: nat, unit: nat) returns (more: seq<Entry>, quotient: nat)
    requires unit < YEARS
    ensures Parts(quotient, unit + 1) + more == Parts(rest, unit) + entries
  {
    var mod := Remainder(rest, unit);
    quotient := Quotient(rest, unit);
    Regroup(Parts(quotient, unit + 1), Left(mod, unit), entries);
    more := entries;
    if mod != 0 {
      more := [Entry(unit, mod)] + more;
    }
    assert more == Left(mod, unit) + entries;
  }

  lemma {:induction false} NothingLeft(unit: nat)
    requires unit <= YEARS
    ensures Parts(0, unit) == []
    decreases YEARS - unit
  {
    if unit < YEARS {
      NothingLeft(unit + 1);
    }
  }

  /** What is left at the end is the entry of the largest unit. */
  method AddLargest(entries: seq<Entry>, rest: nat, unit: nat) returns (all: seq<Entry>)
    requires unit <= YEARS && (rest == 0 || unit == YEARS)
    ensures all == Parts(rest, unit) + entries
  {
    if rest > 0 {
      all := [Entry(unit, rest)] + entries;
    } else {
      NothingLeft(unit);
      all := entries;
    }
  }

  /** Takes a duration in the first unit apart; the user interface starts from milliseconds. */
  method Decompose(duration: nat, first: nat) returns (entries: seq<Entry>)
    requires first <= YEARS
    ensures entries == Parts(duration, first)
  {
    var rest, unit := duration, first;
    entries := [];
    ghost var all := Parts(duration, first);
    assert all + [] == all;
    while rest > 0 && unit < YEARS
      invariant unit <= YEARS && Parts(rest, unit) + entries == all
      decreases YEARS - unit
    {
      entries, rest := CarryOver(entries, rest, unit);
      unit := unit + 1;
    }
    entries := AddLargest(entries, rest, unit);
  }

  method FirstFew(entries: seq<Entry>, buckets: int) returns (shown: seq<Entry>)
    ensures shown == if buckets <= 0 then [] else if buckets < |entries| then entries[..buckets] else entries
  {
    shown := [];
    var limit := if |entries| < buckets then |entries| else buckets;
    var i := 0;
    while i < limit
      invariant 0 <= i <= |entries| && (limit >= 0 ==> i <= limit) && (limit < 0 ==> i == 0)
      invariant shown == entries[..i]
    {
      assert entries[..i + 1] == entries[..i] + [entries[i]];
      shown := shown + [entries[i]];
      i := i + 1;
    }
  }

  /** The buckets shown: the largest few entries; a duration that is not positive has none. */
  method FormatDuration(duration: int, buckets: int) returns (shown: seq<Entry>)
    ensures var all := if duration <= 0 then [] else Parts(duration, MILLISECONDS);
            shown == if buckets <= 0 then [] else if buckets < |all| then all[..buckets] else all
  {
    var entries := [];
    if duration > 0 {
      entries := Decompose(duration, MILLISECONDS);
    }
    shown := FirstFew(entries, buckets);
  }

  // ---------- what is shown ----------

  predicate InRange(e: Entry) {
    e.unit <= YEARS && e.magnitude > 0 && (e.unit < YEARS ==> e.magnitude < PerNext(e.unit))
  }

  /** Entries of this unit or larger ones, each unit once, largest first, with a magnitude short of the next unit. */
  predicate Canonical(es: seq<Entry>, unit: nat) {
    if es == [] then true
    else
      var last := es[|es| - 1];
      InRange(last) && unit <= last.unit && Canonical(es[..|es| - 1], last.unit + 1)
  }

  /** The time the entries stand for. */
  function Total(es: seq<Entry>): nat {
    if es == [] then 0
    else
      var last := es[|es| - 1];
      Total(es[..|es| - 1]) + if last.unit <= YEARS then last.magnitude * Size(last.unit) else 0
  }

  lemma {:induction false} TotalOfMore(es: seq<Entry>, magnitude: nat, unit: nat)
    requires unit <= YEARS
    ensures Total(es + Left(magnitude, unit)) == Total(es) + magnitude * Size(unit)
  {
    if magnitude != 0 {
      assert (es + [Entry(unit, magnitude)])[..|es|] == es;
    } else {
      assert es + [] == es;
    }
  }

  /** Carrying over keeps the time. */
  lemma {:induction false} CarryKeepsTime(duration: nat, unit: nat)
    requires unit < YEARS
    ensures Quotient(duration, unit) * Size(unit + 1) + Remainder(duration, unit) * Size(unit) == duration * Size(unit)
    ensures Remainder(duration, unit) < PerNext(unit)
  {
  }

  lemma {:induction false} CanonicalFromLarger(es: seq<Entry>, unit: nat, larger: nat)
    requires unit <= larger && Canonical(es, larger)
    ensures Canonical(es, unit)
  {
  }

  lemma {:induction false} CanonicalMore(es: seq<Entry>, magnitude: nat, unit: nat)
    requires unit <= YEARS && Canonical(es, unit + 1) && (unit < YEARS ==> magnitude < PerNext(unit))
    ensures Canonical(es + Left(magnitude, unit), unit)
  {
    if magnitude != 0 {
      assert (es + [Entry(unit, magnitude)])[..|es|] == es;
    } else {
      assert es + [] == es;
      CanonicalFromLarger(es, unit, unit + 1);
    }
  }

  /** Taking a duration apart loses nothing, and gives each unit its proper share. */
  lemma {:induction false} PartsRecompose(duration: nat, unit: nat)
    requires unit <= YEARS
    ensures Canonical(Parts(duration, unit), unit)
    ensures Total(Parts(duration, unit)) == duration * Size(unit)
    decreases YEARS - unit
  {
    if unit == YEARS {
      assert [] + Left(duration, unit) == Left(duration, unit);
      CanonicalMore([], duration, unit);
      TotalOfMore([], duration, unit);
    } else {
      var q, r := Quotient(duration, unit), Remainder(duration, unit);
      PartsRecompose(q, unit + 1);
      CarryKeepsTime(duration, unit);
      CanonicalMore(Parts(q, unit + 1), r, unit);
      TotalOfMore(Parts(q, unit + 1), r, unit);
    }
  }

  /** Splitting entries into those of larger units and the one of this unit. */
  lemma {:induction false} SplitLast(es: seq<Entry>, unit: nat) returns (larger: seq<Entry>, magnitude: nat)
    requires unit <= YEARS && Canonical(es, unit)
    ensures Canonical(larger, unit + 1) && es == larger + Left(magnitude, unit)
    ensures unit < YEARS ==> magnitude < PerNext(unit)
  {
    if es != [] && es[|es| - 1].unit == unit {
      larger, magnitude := es[..|es| - 1], es[|es| - 1].magnitude;
    } else {
      larger, magnitude := es, 0;
    }
  }

  lemma {:induction false} CarryOf(q: nat, r: nat, unit: nat, duration: nat)
    requires unit < YEARS && r < PerNext(unit) && duration == q * PerNext(unit) + r
    ensures Quotient(duration, unit) == q && Remainder(duration, unit) == r
  {
  }

  lemma {:induction false} CanonicalIsParts(es: seq<Entry>, unit: nat) returns (duration: nat)
    requires unit <= YEARS && Canonical(es, unit)
    ensures es == Parts(duration, unit)
    decreases YEARS - unit
  {
    var larger, magnitude := SplitLast(es, unit);
    if unit == YEARS {
      duration := magnitude;
      assert larger == [] && [] + Left(magnitude, unit) == Left(magnitude, unit);
    } else {
      var q := CanonicalIsParts(larger, unit + 1);
      duration := q * PerNext(unit) + magnitude;
      CarryOf(q, magnitude, unit, duration);
    }
  }

  /** There is no other way: canonical entries that stand for a duration are the ones computed. */
  lemma {:induction false} PartsUnique(es: seq<Entry>)
    requires Canonical(es, MILLISECONDS)
    ensures es == Parts(Total(es), MILLISECONDS)
  {
    var d := CanonicalIsParts(es, MILLISECONDS);
    PartsRecompose(d, MILLISECONDS);
    assert d * Size(MILLISECONDS) == d;
  }

  lemma {:induction false} SizesGrow(unit: nat, larger: nat, magnitude: nat)
    requires unit < larger <= YEARS && magnitude < PerNext(unit)
    ensures magnitude * Size(unit) + Size(unit) <= Size(larger)
  {
  }

  /** What the later entries add is less than one of the unit they follow. */
  lemma {:induction false} RestIsSmall(es: seq<Entry>, unit: nat, k: nat)
    requires Canonical(es, unit) && 0 < k <= |es|
    ensures es[k - 1].unit <= YEARS && es[|es| - 1].unit <= YEARS
    ensures Total(es[..k]) <= Total(es)
    ensures Total(es) + Size(es[|es| - 1].unit) <= Total(es[..k]) + Size(es[k - 1].unit)
  {
    var n := |es| - 1;
    if k == |es| {
      assert es[..k] == es;
    } else {
      var init := es[..n];
      RestIsSmall(init, es[n].unit + 1, k);
      assert init[..k] == es[..k];
      SizesGrow(es[n].unit, es[n - 1].unit, es[n].magnitude);
    }
  }

  /** The first k entries are the duration rounded down, by less than one of the smallest unit among them. */
  lemma {:induction false} ShownIsRoundedDown(duration: nat, k: nat)
    requires 0 < k <= |Parts(duration, MILLISECONDS)|
    ensures var shown := Parts(duration, MILLISECONDS)[..k];
            && shown[k - 1].unit <= YEARS
            && Total(shown) <= duration < Total(shown) + Size(shown[k - 1].unit)
  {
    var all := Parts(duration, MILLISECONDS);
    PartsRecompose(duration, MILLISECONDS);
    RestIsSmall(all, MILLISECONDS, k);
    SizePositive(all[|all| - 1].unit);
  }

  lemma {:induction false} SizePositive(unit: nat)
    requires unit <= YEARS
    ensures Size(unit) > 0
  {
  }
}
