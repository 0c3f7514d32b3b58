/**
 * Input narrowing on the score form: after every change the options of each
 * player's select are recomputed from what the other players hold, and a
 * value that no longer fits is corrected in place.
 *
 * Two shapes. A counting contract (Hearts, Queens, Tricks, alone or inside
 * Barbu) offers each player 0..max, where max is the pool minus the others'
 * sum, and clamps a larger value down to max. Last Two Tricks offers each
 * player a subset of the four outcomes and resets an outcome that is no longer
 * offered to Neither.
 *
 * A select that is given a value none of its options carries becomes blank;
 * every reader of the form takes a blank select as 0 (`Number(v) || 0`), so
 * the model writes 0 for it.
 */
module Narrowing {
  import opened Wrappers
  import opened Rules

  // ----- counting contracts -----

  /** The largest count seat `i` is offered: the pool minus the others' sum. */
  function SeatMax(vals: seq<nat>, i: nat, pool: nat): int
    requires i < |vals|
  {
    pool - (Sum(vals) - vals[i])
  }

  /** `selected > max ? max : selected`, with a negative max leaving the select blank. */
  function Clamp(v: nat, max: int): nat {
    if v > max then (if max >= 0 then max else 0) else v
  }

  /** Every count once the clamp of one narrowing pass has been applied. */
  function Adjusted(vals: seq<nat>, pool: nat): (r: seq<nat>)
    ensures |r| == |vals|
    ensures forall i :: 0 <= i < |vals| ==> r[i] <= vals[i]
    ensures forall i :: 0 <= i < |vals| && SeatMax(vals, i, pool) >= 0 ==> r[i] <= SeatMax(vals, i, pool)
    ensures forall i :: 0 <= i < |vals| && vals[i] <= SeatMax(vals, i, pool) ==> r[i] == vals[i]
    ensures Sum(r) <= pool
  {
    var r := seq(|vals|, i requires 0 <= i < |vals| => Clamp(vals[i], SeatMax(vals, i, pool)));
    AdjustedFitsPool(vals, pool, r);
    r
  }

  /** `max(0, v - d)`. */
  function Less(v: nat, d: nat): nat {
    if v >= d then v - d else 0
  }

  function ShrinkAll(v: seq<nat>, d: nat): (r: seq<nat>)
    ensures |r| == |v|
    ensures forall i :: 0 <= i < |v| ==> r[i] == Less(v[i], d)
  {
    if v == [] then [] else [Less(v[0], d)] + ShrinkAll(v[1..], d)
  }

  /** Lowering every count by `d` (not below 0) lowers the sum by at least `d`, unless it reaches 0. */
  lemma {:induction false} ShrinkSum(v: seq<nat>, d: nat)
    requires d > 0
    ensures Sum(ShrinkAll(v, d)) <= (if Sum(v) >= d then Sum(v) - d else 0)
  {
    if v != [] {
      ShrinkSum(v[1..], d);
      assert ShrinkAll(v, d)[1..] == ShrinkAll(v[1..], d);
      NonNegativeSum(v[1..]);
    }
  }

  lemma {:induction false} NonNegativeSum(v: seq<nat>)
    ensures Sum(v) >= 0
  {
    if v != [] {
      NonNegativeSum(v[1..]);
    }
  }

  lemma AdjustedFitsPool(vals: seq<nat>, pool: nat, r: seq<nat>)
    requires r == seq(|vals|, i requires 0 <= i < |vals| => Clamp(vals[i], SeatMax(vals, i, pool)))
    ensures Sum(r) <= pool
  {
    if Sum(vals) <= pool {
      forall i | 0 <= i < |vals| ensures r[i] == vals[i] {
        SumOthers(vals, i);
        NonNegativeSum(Others(vals, i));
      }
      assert r == vals;
    } else {
      var d: nat := Sum(vals) - pool;
      assert r == ShrinkAll(vals, d);
      ShrinkSum(vals, d);
    }
  }

  /** When the counts already fit the pool, a narrowing pass changes nothing. */
  lemma AdjustedStable(vals: seq<nat>, pool: nat)
    requires Sum(vals) <= pool
    ensures Adjusted(vals, pool) == vals
  {
    forall i | 0 <= i < |vals| ensures vals[i] <= SeatMax(vals, i, pool) {
      SumOthers(vals, i);
      NonNegativeSum(Others(vals, i));
    }
  }

  /** A second narrowing pass never changes what the first produced. */
  lemma AdjustedIdempotent(vals: seq<nat>, pool: nat)
    ensures Adjusted(Adjusted(vals, pool), pool) == Adjusted(vals, pool)
  {
    AdjustedStable(Adjusted(vals, pool), pool);
  }

  /**
   * Picking any count the select offers (0..max) keeps the counts within the
   * pool, so the narrowing pass that the change triggers corrects nothing.
   */
  lemma PickKeepsPool(vals: seq<nat>, pool: nat, i: nat, x: nat)
    requires i < |vals| && Sum(vals) <= pool
    requires x <= SeatMax(vals, i, pool)
    ensures Sum(vals[i := x]) <= pool
    ensures Adjusted(vals[i := x], pool) == vals[i := x]
  {
    SumUpdate(vals, i, x);
    AdjustedStable(vals[i := x], pool);
  }

  /**
   * One narrowing pass over the selects of a counting contract, in place:
   * each select's options become 0..max and its value is clamped to max.
   * Returns the `max` each select was given.
   */
  method ClampToPool(a: array<nat>, pool: nat) returns (maxima: seq<int>)
    modifies a
    ensures a[..] == Adjusted(old(a[..]), pool)
    ensures |maxima| == a.Length
    ensures forall i :: 0 <= i < a.Length ==> maxima[i] == SeatMax(old(a[..]), i, pool)
  {
    var values := a[..];
    var totalUsed := Sum(values);
    maxima := [];
    for i := 0 to a.Length
      invariant |maxima| == i
      invariant forall k :: 0 <= k < i ==> a[k] == Adjusted(values, pool)[k]
      invariant forall k :: 0 <= k < i ==> maxima[k] == SeatMax(values, k, pool)
      invariant forall k :: i <= k < a.Length ==> a[k] == values[k]
    {
      var current := values[i];
      var max := pool - (totalUsed - current);
      var selected := a[i];
      a[i] := if selected > max then (if max >= 0 then max else 0) else selected;
      maxima := maxima + [max];
    }
    assert a[..] == Adjusted(values, pool);
  }

  /**
   * The Barbu variant: the selects of one sub-contract are kept in a registry
   * keyed by sub-contract, and a sub-contract with no entry is left alone.
   */
  method AdjustBarbuSelects(registry: map<Contract, array<nat>>, sub: Contract, pool: nat)
    modifies if sub in registry then {registry[sub]} else {}
    ensures sub in registry ==> registry[sub][..] == Adjusted(old(registry[sub][..]), pool)
  {
    if sub !in registry {
      return;
    }
    var selects := registry[sub];
    var _ := ClampToPool(selects, pool);
  }

  /**
   * The count the ⚡ button writes into seat `i`: what the pool leaves after
   * the other seats' counts. On a form within the pool this is the largest
   * count the select offers; writing it completes the pool exactly, and the
   * narrowing pass it triggers changes nothing.
   */
  function FillRest(vals: seq<nat>, i: nat, pool: nat): (r: nat)
    requires i < |vals|
    ensures Sum(vals) <= pool ==> r == SeatMax(vals, i, pool)
    ensures Sum(vals) <= pool ==> Sum(vals[i := r]) == pool
    ensures Sum(vals) <= pool ==> Adjusted(vals[i := r], pool) == vals[i := r]
  {
    var usedCount := Sum(Others(vals, i));
    var restCount := pool - usedCount;
    FillRestCompletes(vals, i, pool);
    SumOthers(vals, i);
    if restCount >= 0 then restCount else 0
  }

  lemma FillRestCompletes(vals: seq<nat>, i: nat, pool: nat)
    requires i < |vals|
    ensures var rest := pool - Sum(Others(vals, i));
      Sum(vals) <= pool ==> rest >= 0 && Sum(vals[i := rest]) == pool && Adjusted(vals[i := rest], pool) == vals[i := rest]
  {
    var rest := pool - Sum(Others(vals, i));
    SumOthers(vals, i);
    if Sum(vals) <= pool {
      SumUpdate(vals, i, rest);
      AdjustedStable(vals[i := rest], pool);
    }
  }

  // ----- Last Two Tricks -----

  /**
   * The outcomes offered to a player whose current outcome is `current`, given
   * the other players' live outcomes and the snapshot taken before the pass.
   */
  function LttOptions(current: Ltt, others: seq<Ltt>, snapshot: seq<Ltt>): (r: seq<Ltt>)
    ensures Neither in r
    ensures Both in r <==> PreLast !in others && Last !in others && (Both !in others || current == Both)
    ensures PreLast in r <==> Both !in others && (PreLast !in snapshot || current == PreLast)
    ensures Last in r <==> Both !in others && (Last !in snapshot || current == Last)
  {
    var hasBoth := Both in others;
    var hasPreOrLast := PreLast in others || Last in others;
    var preCount := CountOf(snapshot, PreLast);
    var lastCount := CountOf(snapshot, Last);
    CountPositive(snapshot, PreLast);
    CountPositive(snapshot, Last);
    [Neither]
      + (if !hasPreOrLast && (!hasBoth || current == Both) then [Both] else [])
      + (if !hasBoth && (preCount < 1 || current == PreLast) then [PreLast] else [])
      + (if !hasBoth && (lastCount < 1 || current == Last) then [Last] else [])
  }

  /** A player's outcome after its options are rebuilt: kept if offered, else reset to Neither. */
  function LttStep(current: Ltt, others: seq<Ltt>, snapshot: seq<Ltt>): (r: Ltt)
    ensures r == current || r == Neither
    ensures r == current <==>
      current == Neither
      || (current == Both && PreLast !in others && Last !in others)
      || ((current == PreLast || current == Last) && Both !in others)
  {
    if current in LttOptions(current, others, snapshot) then current else Neither
  }

  /** The first `k` outcomes after the pass has visited the first `k` players. */
  function NarrowPrefix(snap: seq<Ltt>, k: nat): (r: seq<Ltt>)
    requires k <= |snap|
    ensures |r| == k
    decreases k
  {
    if k == 0 then []
    else
      var p := NarrowPrefix(snap, k - 1);
      p + [LttStep(snap[k - 1], p + snap[k..], snap)]
  }

  /** The other players' live outcomes when the pass reaches player `k`. */
  function LiveOthers(snap: seq<Ltt>, k: nat): seq<Ltt>
    requires k < |snap|
  {
    NarrowPrefix(snap, k) + snap[k + 1..]
  }

  /** Every outcome after one pass of the Last Two Tricks narrowing. */
  function NarrowedLtt(snap: seq<Ltt>): seq<Ltt> {
    NarrowPrefix(snap, |snap|)
  }

  lemma {:induction false} PrefixStable(snap: seq<Ltt>, m: nat, k: nat)
    requires m <= k <= |snap|
    ensures NarrowPrefix(snap, k)[..m] == NarrowPrefix(snap, m)
    decreases k
  {
    if m < k {
      PrefixStable(snap, m, k - 1);
      var p := NarrowPrefix(snap, k - 1);
      assert NarrowPrefix(snap, k) == p + [LttStep(snap[k - 1], p + snap[k..], snap)];
      SnocPrefix(p, LttStep(snap[k - 1], p + snap[k..], snap), m);
    }
  }

  lemma SnocPrefix<T>(p: seq<T>, e: T, m: nat)
    requires m <= |p|
    ensures (p + [e])[..m] == p[..m]
  {
  }

  /** Position `m` of the result is the step taken when the pass reached player `m`. */
  lemma PrefixAt(snap: seq<Ltt>, m: nat, k: nat)
    requires m < k <= |snap|
    ensures NarrowPrefix(snap, k)[m] == LttStep(snap[m], LiveOthers(snap, m), snap)
  {
    PrefixStable(snap, m + 1, k);
    var p := NarrowPrefix(snap, m);
    assert NarrowPrefix(snap, m + 1) == p + [LttStep(snap[m], p + snap[m + 1..], snap)];
    assert NarrowPrefix(snap, k)[m] == NarrowPrefix(snap, k)[..m + 1][m];
  }

  /** Every player keeps their outcome or is reset to Neither. */
  lemma NarrowedKeepsOrResets(snap: seq<Ltt>, i: nat)
    requires i < |snap|
    ensures NarrowedLtt(snap)[i] == snap[i] || NarrowedLtt(snap)[i] == Neither
  {
    PrefixAt(snap, i, |snap|);
  }

  /** No player holds Both while another holds Pre-last or Last. */
  ghost predicate Consistent(s: seq<Ltt>) {
    forall i, j :: 0 <= i < |s| && 0 <= j < |s| && i != j && s[i] == Both ==> s[j] != PreLast && s[j] != Last
  }

  /** After the pass, Both never stands beside Pre-last or Last. */
  lemma NarrowedConsistent(snap: seq<Ltt>)
    ensures Consistent(NarrowedLtt(snap))
  {
    var r := NarrowedLtt(snap);
    var n := |snap|;
    forall i, j | 0 <= i < n && 0 <= j < n && i != j && r[i] == Both
      ensures r[j] != PreLast && r[j] != Last
    {
      PrefixAt(snap, i, n);
      PrefixAt(snap, j, n);
      if j < i {
        PrefixStable(snap, i, n);
        assert LiveOthers(snap, i)[j] == r[j];
      } else {
        PrefixStable(snap, j, n);
        assert LiveOthers(snap, j)[i] == r[i];
      }
    }
  }

  /** A consistent form is left exactly as it is. */
  lemma NarrowedStable(snap: seq<Ltt>)
    requires Consistent(snap)
    ensures NarrowedLtt(snap) == snap
  {
    StablePrefix(snap, |snap|);
  }

  lemma {:induction false} StablePrefix(snap: seq<Ltt>, k: nat)
    requires Consistent(snap) && k <= |snap|
    ensures NarrowPrefix(snap, k) == snap[..k]
    decreases k
  {
    if k > 0 {
      StablePrefix(snap, k - 1);
      var p := NarrowPrefix(snap, k - 1);
      assert NarrowPrefix(snap, k) == p + [LttStep(snap[k - 1], p + snap[k..], snap)];
      assert p + snap[k..] == Others(snap, k - 1);
      StepKeeps(snap, k - 1);
      assert snap[..k] == p + [snap[k - 1]];
    }
  }

  /** On a consistent form the pass keeps each player's outcome. */
  lemma StepKeeps(snap: seq<Ltt>, i: nat)
    requires Consistent(snap) && i < |snap|
    ensures LttStep(snap[i], Others(snap, i), snap) == snap[i]
  {
    InOthers(snap, i, Both);
    InOthers(snap, i, PreLast);
    InOthers(snap, i, Last);
  }

  /** On a consistent form the live others of player `i` are simply the other players. */
  lemma LiveOthersWhenStable(snap: seq<Ltt>, i: nat)
    requires Consistent(snap) && i < |snap|
    ensures LiveOthers(snap, i) == Others(snap, i)
  {
    StablePrefix(snap, i);
  }

  /** Narrowing twice is narrowing once. */
  lemma NarrowedIdempotent(snap: seq<Ltt>)
    ensures NarrowedLtt(NarrowedLtt(snap)) == NarrowedLtt(snap)
  {
    NarrowedConsistent(snap);
    NarrowedStable(NarrowedLtt(snap));
  }

  /**
   * One pass of the Last Two Tricks narrowing, in place. The counts of
   * Pre-last and Last come from a snapshot taken before the pass; the other
   * players' outcomes are read live, so a player visited earlier is seen with
   * its corrected outcome. Returns the options each select was given.
   */
  method NarrowLtt(a: array<Ltt>) returns (offered: seq<seq<Ltt>>)
    modifies a
    ensures a[..] == NarrowedLtt(old(a[..]))
    ensures offered == OfferedLtt(old(a[..]))
  {
    var values := a[..];
    offered := [];
    for i := 0 to a.Length
      invariant a[..i] == NarrowPrefix(values, i)
      invariant a[i..] == values[i..]
      invariant offered == OfferedLtt(values)[..i]
    {
      ghost var cur := a[..];
      NarrowLoopStep(values, cur, i, offered);
      var current := a[i];
      var others := a[..i] + a[i + 1..];
      var opts := LttOptions(current, others, values);
      a[i] := if current in opts then current else Neither;
      offered := offered + [opts];
      assert a[..] == cur[i := a[i]];
    }
    assert a[..] == a[..a.Length];
  }

  /** One step of the pass keeps the loop's account of what is done and what is not. */
  lemma NarrowLoopStep(values: seq<Ltt>, cur: seq<Ltt>, i: nat, offered: seq<seq<Ltt>>)
    requires i < |values| == |cur|
    requires cur[..i] == NarrowPrefix(values, i) && cur[i..] == values[i..]
    requires offered == OfferedLtt(values)[..i]
    ensures var opts := LttOptions(cur[i], cur[..i] + cur[i + 1..], values);
      var next := cur[i := if cur[i] in opts then cur[i] else Neither];
      next[..i + 1] == NarrowPrefix(values, i + 1) && next[i + 1..] == values[i + 1..]
      && offered + [opts] == OfferedLtt(values)[..i + 1]
  {
    NarrowStepInPlace(values, cur, i);
    var opts := LttOptions(cur[i], cur[..i] + cur[i + 1..], values);
    var next := cur[i := if cur[i] in opts then cur[i] else Neither];
    NextPrefix(values, cur, i, next);
    OfferedStep(values, cur, i, offered);
  }

  lemma NextPrefix(values: seq<Ltt>, cur: seq<Ltt>, i: nat, next: seq<Ltt>)
    requires i < |values| == |cur|
    requires cur[..i] == NarrowPrefix(values, i) && cur[i..] == values[i..]
    requires cur[i] == values[i] && cur[..i] + cur[i + 1..] == LiveOthers(values, i)
    requires NarrowPrefix(values, i + 1) == NarrowPrefix(values, i) + [LttStep(values[i], LiveOthers(values, i), values)]
    requires next == cur[i := LttStep(values[i], LiveOthers(values, i), values)]
    ensures next[..i + 1] == NarrowPrefix(values, i + 1) && next[i + 1..] == values[i + 1..]
  {
    assert next[..i + 1] == cur[..i] + [next[i]];
    assert next[i + 1..] == cur[i + 1..];
    assert cur[i + 1..] == cur[i..][1..];
    assert values[i + 1..] == values[i..][1..];
  }

  lemma OfferedStep(values: seq<Ltt>, cur: seq<Ltt>, i: nat, offered: seq<seq<Ltt>>)
    requires i < |values| == |cur|
    requires cur[i] == values[i] && cur[..i] + cur[i + 1..] == LiveOthers(values, i)
    requires offered == OfferedLtt(values)[..i]
    ensures offered + [LttOptions(cur[i], cur[..i] + cur[i + 1..], values)] == OfferedLtt(values)[..i + 1]
  {
    SliceExtend(OfferedLtt(values), i);
  }

  lemma SliceExtend<T>(s: seq<T>, i: nat)
    requires i < |s|
    ensures s[..i + 1] == s[..i] + [s[i]]
  {
  }

  /** The options each select is given during the pass. */
  function OfferedLtt(snap: seq<Ltt>): (r: seq<seq<Ltt>>)
    ensures |r| == |snap|
  {
    seq(|snap|, k requires 0 <= k < |snap| => LttOptions(snap[k], LiveOthers(snap, k), snap))
  }

  /** What the pass reads when it reaches player `i` of the array `cur`. */
  lemma NarrowStepInPlace(values: seq<Ltt>, cur: seq<Ltt>, i: nat)
    requires i < |values| == |cur|
    requires cur[..i] == NarrowPrefix(values, i) && cur[i..] == values[i..]
    ensures cur[i] == values[i]
    ensures cur[..i] + cur[i + 1..] == LiveOthers(values, i)
    ensures NarrowPrefix(values, i + 1) == NarrowPrefix(values, i) + [LttStep(values[i], LiveOthers(values, i), values)]
  {
    assert cur[i] == cur[i..][0];
    assert cur[i + 1..] == cur[i..][1..];
    assert values[i + 1..] == values[i..][1..];
  }

  /**
   * The outcome the standalone ⚡ button picks: the one worth what the others
   * leave of 120, or no outcome at all when nothing is worth exactly that.
   */
  function RestOutcome(others: seq<Ltt>): (r: Option<Ltt>)
    ensures r.Some? <==> 120 - LttTotal(others) in {0, 40, 80, 120}
    ensures r.Some? ==> LttPoints(r.value) + LttTotal(others) == 120
  {
    var remPts := 120 - LttTotal(others);
    if remPts == 0 then Some(Neither)
    else if remPts == 40 then Some(PreLast)
    else if remPts == 80 then Some(Last)
    else if remPts == 120 then Some(Both)
    else None
  }

  /** The Barbu variant of the ⚡ button falls back to Neither. */
  function BarbuRest(others: seq<Ltt>): (r: Ltt)
    ensures LttTotal(others) <= 120 && LttTotal(others) % 40 == 0 ==> LttPoints(r) + LttTotal(others) == 120
    ensures LttTotal(others) > 120 ==> r == Neither
  {
    LttTotalMultiple(others);
    RestOutcome(others).GetOr(Neither)
  }

  /** Points held across a list of outcomes. */
  function LttTotal(s: seq<Ltt>): int {
    if s == [] then 0 else LttPoints(s[0]) + LttTotal(s[1..])
  }

  lemma {:induction false} LttTotalMultiple(s: seq<Ltt>)
    ensures LttTotal(s) >= 0 && LttTotal(s) % 40 == 0
  {
    if s != [] {
      LttTotalMultiple(s[1..]);
    }
  }

  /** The points across a list of outcomes, from how many of each there are. */
  lemma {:induction false} LttTotalByCounts(s: seq<Ltt>)
    ensures LttTotal(s) == 120 * CountOf(s, Both) + 80 * CountOf(s, Last) + 40 * CountOf(s, PreLast)
  {
    if s != [] {
      LttTotalByCounts(s[1..]);
    }
  }
}
