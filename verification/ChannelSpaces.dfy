/**
 Tuning spaces: runs of channels of one type in the flat channel list, and the
 (space, channel) index that SetChannel and EnumChannelName look up.
 */
module ChannelSpaces {
  import opened Bytes
  import opened Options

  const SPACE_NUM: nat := 8

  /** An element of the channel array: its type string, or JSON that throws when the type is read. */
  datatype Entry = Typed(t: string) | Broken

  // ----- where the type changes -----

  predicate IsStart(es: seq<Entry>, x: nat)
    requires x < |es|
  {
    x == 0 || es[x] != es[x - 1]
  }

  /** The run starts among the first n channels, in order. */
  function Starts(es: seq<Entry>, n: nat): (bs: seq<nat>)
    requires n <= |es|
    ensures forall k :: 0 <= k < |bs| ==> bs[k] < n && IsStart(es, bs[k])
    ensures forall k :: 0 < k < |bs| ==> bs[k - 1] < bs[k]
    ensures n > 0 ==> |bs| > 0 && bs[0] == 0
  {
    if n == 0 then []
    else if IsStart(es, n - 1) then Starts(es, n - 1) + [n - 1]
    else Starts(es, n - 1)
  }

  /**
   The grouping InitChannel is to find: the runs of the first stop channels, with
   stop short of the end only where one run too many would begin.
   */
  ghost predicate Grouped(es: seq<Entry>, types: seq<string>, bases: seq<nat>, limit: nat, stop: nat) {
    && 1 <= stop <= |es|
    && (forall x :: 0 <= x < stop ==> es[x].Typed?)
    && bases == Starts(es, stop) && |bases| <= limit
    && |types| == |bases| && (forall k :: 0 <= k < |bases| ==> es[bases[k]] == Typed(types[k]))
    && (stop < |es| ==> es[stop].Typed? && IsStart(es, stop) && |bases| == limit)
  }

  // ----- the lookup -----

  /** SetChannel's index test, with DWORD addition; n is the length of the channel array. */
  function Lookup(bases: seq<nat>, n: nat, space: nat, channel: nat): Option<nat> {
    if space >= |bases| then None
    else
      var x := Add32(channel, bases[space]);
      if x < bases[space] then None
      else if x >= n then None
      else if space + 1 < |bases| && x >= bases[space + 1] then None
      else Some(x)
  }

  /** The last space that starts at or before x. */
  function SpaceOf(bases: seq<nat>, x: nat): (s: nat)
    requires |bases| > 0 && bases[0] == 0
    ensures s < |bases| && bases[s] <= x
    ensures forall k :: s < k < |bases| ==> bases[k] > x
  {
    if bases[|bases| - 1] <= x then |bases| - 1 else SpaceOf(bases[..|bases| - 1], x)
  }

  function SpaceEnd(bases: seq<nat>, n: nat, space: nat): nat
    requires space < |bases|
  {
    if space + 1 < |bases| then bases[space + 1] else n
  }

  predicate Ascending(bases: seq<nat>, n: nat) {
    && |bases| > 0 && bases[0] == 0
    && (forall k :: 0 < k < |bases| ==> bases[k - 1] < bases[k])
    && (forall k :: 0 <= k < |bases| ==> bases[k] < n)
  }

  lemma {:induction false} AscendingAcross(bases: seq<nat>, n: nat, j: nat, k: nat)
    requires Ascending(bases, n) && j < k < |bases|
    ensures bases[j] < bases[k]
    decreases k
  {
    if j < k - 1 {
      AscendingAcross(bases, n, j, k - 1);
    }
  }

  lemma SpaceOfIs(bases: seq<nat>, n: nat, k: nat, x: nat)
    requires Ascending(bases, n) && k < |bases| && bases[k] <= x && x < SpaceEnd(bases, x + 1, k)
    ensures SpaceOf(bases, x) == k
  {
    var s := SpaceOf(bases, x);
    if k + 1 < s {
      AscendingAcross(bases, n, k + 1, s);
    }
  }

  /** The channels a space accepts are exactly 0, 1, ... up to its size, with no gap and no wrapped index. */
  lemma SpaceIsGapFree(bases: seq<nat>, n: nat, space: nat, channel: nat)
    requires Ascending(bases, n) && n <= TWO32 && channel < TWO32
    ensures Lookup(bases, n, space, channel) ==
              if space < |bases| && channel < SpaceEnd(bases, n, space) - bases[space]
              then Some(bases[space] + channel) else None
  {
    if space < |bases| {
      var sum := channel + bases[space];
      assert Add32(channel, bases[space]) == if sum < TWO32 then sum else sum - TWO32;
    }
  }

  /**
   The accepted pairs and the channel indices correspond one to one: each index
   below n is reached by exactly one pair, and no pair reaches anything else.
   */
  lemma LookupIsBijection(bases: seq<nat>, n: nat, space: nat, channel: nat, x: nat)
    requires Ascending(bases, n) && n <= TWO32 && channel < TWO32
    ensures Lookup(bases, n, space, channel) == Some(x) <==>
              x < n && space == SpaceOf(bases, x) && channel == x - bases[space]
  {
    SpaceIsGapFree(bases, n, space, channel);
    if Lookup(bases, n, space, channel) == Some(x) {
      SpaceOfIs(bases, n, space, x);
    }
  }

  // ----- what a grouping says about the types -----

  lemma GroupedAscends(es: seq<Entry>, types: seq<string>, bases: seq<nat>, limit: nat, stop: nat)
    requires Grouped(es, types, bases, limit, stop)
    ensures Ascending(bases, |es|)
  {
  }

  /** Every channel up to stop has the type of the last run that starts at or before it. */
  lemma {:induction false} RunHasOneType(es: seq<Entry>, n: nat, x: nat)
    requires x < n <= |es|
    ensures es[x] == es[Starts(es, n)[SpaceOf(Starts(es, n), x)]]
    decreases n
  {
    var bs, short := Starts(es, n), Starts(es, n - 1);
    if x == n - 1 {
      if IsStart(es, x) {
        assert bs[|bs| - 1] == x;
        assert SpaceOf(bs, x) == |bs| - 1;
      } else {
        RunHasOneType(es, n - 1, x - 1);
        assert bs == short;
        SameSpace(bs, x - 1, x);
      }
    } else {
      RunHasOneType(es, n - 1, x);
      if IsStart(es, n - 1) {
        assert bs[..|bs| - 1] == short;
        assert bs[|bs| - 1] == n - 1;
      }
    }
  }

  lemma SameSpace(bs: seq<nat>, x: nat, y: nat)
    requires |bs| > 0 && bs[0] == 0 && x <= y
    requires forall k :: 0 <= k < |bs| ==> bs[k] <= x
    ensures SpaceOf(bs, x) == SpaceOf(bs, y) == |bs| - 1
  {
  }

  /** Where a run starts, the type differs from that of the run before. */
  lemma StartsDiffer(es: seq<Entry>, n: nat, k: nat)
    requires n <= |es| && 0 < k < |Starts(es, n)|
    ensures es[Starts(es, n)[k - 1]] != es[Starts(es, n)[k]]
  {
    var bs := Starts(es, n);
    var x := bs[k];
    AscendingAcross(bs, n, 0, k);
    assert IsStart(es, x);
    RunHasOneType(es, n, x - 1);
    SpaceOfIs(bs, n, k - 1, x - 1);
  }

  /** Two neighbouring spaces have different types. */
  lemma NeighboursDiffer(es: seq<Entry>, types: seq<string>, bases: seq<nat>, limit: nat, stop: nat, k: nat)
    requires Grouped(es, types, bases, limit, stop) && 0 < k < |types|
    ensures types[k - 1] != types[k]
  {
    StartsDiffer(es, stop, k);
  }

  /** The type that the spaces give a channel. */
  function TypeOf(types: seq<string>, bases: seq<nat>, x: nat): string
    requires |types| == |bases| > 0 && bases[0] == 0
  {
    types[SpaceOf(bases, x)]
  }

  /**
   Expanding the spaces gives back the list of types exactly when no run was cut
   off; past the cut, every channel belongs to the last space.
   */
  lemma ExpandsExactly(es: seq<Entry>, types: seq<string>, bases: seq<nat>, limit: nat, stop: nat)
    requires Grouped(es, types, bases, limit, stop)
    ensures (forall x :: 0 <= x < |es| ==> es[x] == Typed(TypeOf(types, bases, x))) <==> stop == |es|
    ensures forall x :: 0 <= x < stop ==> es[x] == Typed(TypeOf(types, bases, x))
    ensures forall x :: stop <= x < |es| ==> SpaceOf(bases, x) == |bases| - 1
  {
    forall x | 0 <= x < stop
      ensures es[x] == Typed(TypeOf(types, bases, x))
    {
      RunHasOneType(es, stop, x);
    }
    if stop < |es| {
      SameSpace(bases, stop - 1, stop);
      assert es[stop] != es[stop - 1] == Typed(TypeOf(types, bases, stop - 1));
    }
  }

  // ----- the grouping is unique, and it may not exist -----

  lemma {:induction false} StartsGrow(es: seq<Entry>, m: nat, n: nat)
    requires m <= n <= |es|
    ensures Starts(es, m) <= Starts(es, n)
    ensures m < n && IsStart(es, m) ==> |Starts(es, m)| < |Starts(es, n)|
    decreases n
  {
    if m < n {
      StartsGrow(es, m, n - 1);
    }
  }

  /** Whoever groups the list must get at least as far as the loop, as long as that is within the limit. */
  lemma GroupingReaches(es: seq<Entry>, types: seq<string>, bases: seq<nat>, limit: nat, stop: nat, i: nat)
    requires Grouped(es, types, bases, limit, stop)
    requires i <= |es| && |Starts(es, i)| <= limit
    ensures i <= stop
  {
    if stop < i {
      StartsGrow(es, stop, i);
    }
  }

  lemma GroupingIsUnique(es: seq<Entry>, limit: nat,
                         types: seq<string>, bases: seq<nat>, stop: nat,
                         types': seq<string>, bases': seq<nat>, stop': nat)
    requires Grouped(es, types, bases, limit, stop) && Grouped(es, types', bases', limit, stop')
    ensures types == types' && bases == bases' && stop == stop'
  {
    GroupingReaches(es, types, bases, limit, stop, stop');
    GroupingReaches(es, types', bases', limit, stop', stop);
    assert forall k :: 0 <= k < |types| ==> Typed(types[k]) == Typed(types'[k]);
  }

  ghost predicate Groupable(es: seq<Entry>, limit: nat) {
    exists types, bases, stop :: Grouped(es, types, bases, limit, stop)
  }

  /** A channel whose type cannot be read within the limit leaves nothing to group. */
  lemma NoGroupingPast(es: seq<Entry>, limit: nat, i: nat)
    requires i < |es| && es[i].Broken? && |Starts(es, i)| <= limit
    ensures !Groupable(es, limit)
  {
    forall types, bases, stop
      ensures !Grouped(es, types, bases, limit, stop)
    {
      if Grouped(es, types, bases, limit, stop) {
        GroupingReaches(es, types, bases, limit, stop, i);
      }
    }
  }

  /** From a stretch within the limit the grouping can be completed. */
  lemma {:induction false} CompleteGrouping(es: seq<Entry>, limit: nat, i: nat) returns (stop: nat)
    requires 1 <= i <= |es| && |Starts(es, i)| <= limit && forall x :: 0 <= x < i ==> es[x].Typed?
    requires forall x :: 0 <= x < |es| && es[x].Broken? ==> |Starts(es, x)| > limit
    ensures i <= stop <= |es| && |Starts(es, stop)| <= limit && forall x :: 0 <= x < stop ==> es[x].Typed?
    ensures stop < |es| ==> es[stop].Typed? && IsStart(es, stop) && |Starts(es, stop)| == limit
    decreases |es| - i
  {
    stop := i;
    if i < |es| && !(IsStart(es, i) && |Starts(es, i)| == limit) {
      assert es[i].Typed?;
      stop := CompleteGrouping(es, limit, i + 1);
    }
  }

  /**
   A list can be grouped exactly if it is not empty, a space can be made at all, and
   every channel that cannot be read lies behind the run that is one too many.
   */
  lemma GroupableExactly(es: seq<Entry>, limit: nat)
    ensures Groupable(es, limit) <==>
              es != [] && limit > 0 && forall x :: 0 <= x < |es| && es[x].Broken? ==> |Starts(es, x)| > limit
  {
    if x: nat :| x < |es| && es[x].Broken? && |Starts(es, x)| <= limit {
      NoGroupingPast(es, limit, x);
    } else if es != [] && limit > 0 {
      assert Starts(es, 0) == [];
      assert es[0].Typed?;
      var stop := CompleteGrouping(es, limit, 1);
      var bases := Starts(es, stop);
      var types := seq(|bases|, k requires 0 <= k < |bases| => es[bases[k]].t);
      assert Grouped(es, types, bases, limit, stop);
    }
  }

  // ----- the one-byte form of SetChannel -----

  /** SetChannel(BYTE): space 0 and the channel number less 13, in DWORD arithmetic. */
  lemma ByteChannel(bases: seq<nat>, n: nat, bCh: byte)
    requires Ascending(bases, n) && n <= 0x8000_0000
    ensures Lookup(bases, n, 0, Sub32(bCh, 13)) ==
              if bCh >= 13 && bCh - 13 < SpaceEnd(bases, n, 0) then Some(bCh - 13) else None
  {
    assert Sub32(bCh, 13) == if bCh >= 13 then bCh - 13 else TWO32 + bCh - 13;
    SpaceIsGapFree(bases, n, 0, Sub32(bCh, 13));
  }
}
