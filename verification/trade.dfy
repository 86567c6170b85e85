/**
 * The trade calculator of frontend/trade.js: two offer grids of nine slots,
 * a catalog picker with rarity and name filters, and the win/fair/loss
 * comparison of the two grid totals.
 */
module Trade {
  import opened Wrappers
  import opened Text

  /** Slots per offer grid. */
  const SlotCount: nat := 9

  /** One entry of the item catalog. */
  datatype CatalogItem = CatalogItem(name: string, value: real, rarity: string)

  /** A grid slot: empty, or holding the name and value of a picked item. */
  datatype Slot = Empty | Filled(name: string, value: real)

  // ---------------------------------------------------------------------------
  // Grid contents as values

  /** What a slot adds to its grid's total: an empty slot holds 0. */
  function SlotValue(s: Slot): real
  {
    if s.Filled? then s.value else 0.0
  }

  function Sum(s: seq<Slot>): real
  {
    if s == [] then 0.0 else SlotValue(s[0]) + Sum(s[1..])
  }

  /** Number of filled slots. */
  function Count(s: seq<Slot>): nat
  {
    if s == [] then 0 else (if s[0].Filled? then 1 else 0) + Count(s[1..])
  }

  function Blank(n: nat): (r: seq<Slot>)
    ensures |r| == n && forall i :: 0 <= i < n ==> r[i] == Empty
  {
    seq(n, _ => Empty)
  }

  /** No empty slot comes before a filled one. */
  ghost predicate LeftPacked(s: seq<Slot>)
  {
    forall i, j :: 0 <= i < j < |s| && s[j].Filled? ==> s[i].Filled?
  }

  lemma {:induction false} SumAppend(a: seq<Slot>, b: seq<Slot>)
    ensures Sum(a + b) == Sum(a) + Sum(b)
  {
    if a == [] {
      assert a + b == b;
    } else {
      assert (a + b)[1..] == a[1..] + b;
      SumAppend(a[1..], b);
    }
  }

  lemma {:induction false} CountAppend(a: seq<Slot>, b: seq<Slot>)
    ensures Count(a + b) == Count(a) + Count(b)
  {
    if a == [] {
      assert a + b == b;
    } else {
      assert (a + b)[1..] == a[1..] + b;
      CountAppend(a[1..], b);
    }
  }

  lemma {:induction false} BlankIsZero(n: nat)
    ensures Sum(Blank(n)) == 0.0 && Count(Blank(n)) == 0
  {
    if n > 0 {
      assert Blank(n)[1..] == Blank(n - 1);
      BlankIsZero(n - 1);
    }
  }

  /** Overwriting one slot changes the total by the difference of the two slot values. */
  lemma {:induction false} SumUpdate(s: seq<Slot>, k: nat, x: Slot)
    requires k < |s|
    ensures Sum(s[k := x]) == Sum(s) - SlotValue(s[k]) + SlotValue(x)
    ensures Count(s[k := x]) == Count(s) - (if s[k].Filled? then 1 else 0) + (if x.Filled? then 1 else 0)
  {
    if k > 0 {
      assert s[k := x][1..] == s[1..][k - 1 := x];
      SumUpdate(s[1..], k - 1, x);
    }
  }

  /** `findIndex` of the first slot that is not filled, or -1. */
  function FirstEmpty(s: seq<Slot>): (k: int)
    ensures -1 <= k < |s|
    ensures k == -1 <==> forall i :: 0 <= i < |s| ==> s[i].Filled?
    ensures k >= 0 ==> s[k].Empty? && forall i :: 0 <= i < k ==> s[i].Filled?
  {
    if s == [] then -1
    else if s[0].Empty? then 0
    else
      var k := FirstEmpty(s[1..]);
      if k == -1 then -1 else k + 1
  }

  /** The slot `openModal` makes active when slot `idx` is clicked: the first
      empty slot if it lies before `idx`, otherwise `idx` itself. */
  function Redirect(s: seq<Slot>, idx: nat): nat
  {
    var first := FirstEmpty(s);
    if first != -1 && idx > first then first else idx
  }

  /** Clicking any empty slot activates the first empty slot of the grid. */
  lemma RedirectToFirstEmpty(s: seq<Slot>, idx: nat)
    requires idx < |s| && s[idx].Empty?
    ensures Redirect(s, idx) == FirstEmpty(s)
  {
  }

  /** Filling the first empty slot of a left-packed grid keeps it left-packed,
      adds one filled slot and adds the item's value to the total. */
  lemma PickKeepsPacked(s: seq<Slot>, name: string, value: real)
    requires LeftPacked(s) && FirstEmpty(s) >= 0
    ensures LeftPacked(s[FirstEmpty(s) := Filled(name, value)])
    ensures Count(s[FirstEmpty(s) := Filled(name, value)]) == Count(s) + 1
    ensures Sum(s[FirstEmpty(s) := Filled(name, value)]) == Sum(s) + value
  {
    var k := FirstEmpty(s);
    SumUpdate(s, k, Filled(name, value));
  }

  // ---------------------------------------------------------------------------
  // Removal with compaction

  predicate IsFilled(x: Slot) { x.Filled? }

  /** Positions at or after `from` that hold an item, in increasing order. */
  function FilledFrom(s: seq<Slot>, from: nat): (ps: seq<nat>)
    requires from <= |s|
    ensures |ps| <= |s| - from
    ensures forall k :: 0 <= k < |ps| ==> from + k <= ps[k] < |s| && s[ps[k]].Filled?
    ensures forall k :: 0 < k < |ps| ==> ps[k - 1] < ps[k]
    decreases |s| - from
  {
    if from == |s| then []
    else if s[from].Filled? then [from] + FilledFrom(s, from + 1)
    else FilledFrom(s, from + 1)
  }

  /** The slots at the given positions, in that order. */
  function Gather(s: seq<Slot>, ps: seq<nat>): (r: seq<Slot>)
    requires forall k :: 0 <= k < |ps| ==> ps[k] < |s|
    ensures |r| == |ps|
    ensures forall k :: 0 <= k < |ps| ==> r[k] == s[ps[k]]
  {
    if ps == [] then [] else [s[ps[0]]] + Gather(s, ps[1..])
  }

  /** The slots at the filled positions from `from` on are the filled slots of that tail. */
  lemma {:induction false} GatherFilledFrom(s: seq<Slot>, from: nat)
    requires from <= |s|
    ensures Gather(s, FilledFrom(s, from)) == Keep(IsFilled, s[from..])
    decreases |s| - from
  {
    if from < |s| {
      GatherFilledFrom(s, from + 1);
      var rest := FilledFrom(s, from + 1);
      assert s[from..][1..] == s[from + 1..];
      if s[from].Filled? {
        assert ([from] + rest)[1..] == rest;
        assert Gather(s, [from] + rest) == [s[from]] + Gather(s, rest);
      }
    }
  }

  /** The grid after `removeItemFromSlot` on slot `idx`: the slots before `idx`
      as they were, then the filled slots after `idx` in their order, then empties. */
  function Removed(s: seq<Slot>, idx: nat): (r: seq<Slot>)
    requires idx < |s|
    ensures |r| == |s|
  {
    var moved := Keep(IsFilled, s[idx + 1..]);
    s[..idx] + moved + Blank(|s| - idx - |moved|)
  }

  /** Keeping only the filled slots keeps the total. */
  lemma {:induction false} KeepFilledSum(t: seq<Slot>)
    ensures Sum(Keep(IsFilled, t)) == Sum(t)
  {
    if t != [] {
      KeepFilledSum(t[1..]);
      SumAppend(if t[0].Filled? then [t[0]] else [], Keep(IsFilled, t[1..]));
    }
  }

  /** Keeping only the filled slots keeps their number, which is the length of the result. */
  lemma {:induction false} KeepFilledCount(t: seq<Slot>)
    ensures Count(Keep(IsFilled, t)) == Count(t) == |Keep(IsFilled, t)|
  {
    if t != [] {
      KeepFilledCount(t[1..]);
      CountAppend(if t[0].Filled? then [t[0]] else [], Keep(IsFilled, t[1..]));
    }
  }

  /** The four effects of removing slot `idx`. */
  lemma RemoveEffects(s: seq<Slot>, idx: nat)
    requires idx < |s|
    ensures forall k :: 0 <= k < idx ==> Removed(s, idx)[k] == s[k]
    ensures var ps := FilledFrom(s, idx + 1);
      && (forall k :: 0 <= k < |ps| ==> Removed(s, idx)[idx + k] == s[ps[k]])
      && (forall k :: idx + |ps| <= k < |s| ==> Removed(s, idx)[k] == Empty)
    ensures s[idx].Filled? ==> Count(Removed(s, idx)) == Count(s) - 1
  {
    GatherFilledFrom(s, idx + 1);
    RemovedCount(s, idx);
  }

  /** Removal lowers the total by exactly the removed slot's value. */
  lemma RemovedSum(s: seq<Slot>, idx: nat)
    requires idx < |s|
    ensures Sum(Removed(s, idx)) == Sum(s) - SlotValue(s[idx])
  {
    var rest := s[idx + 1..];
    var moved := Keep(IsFilled, rest);
    SumAppend(s[..idx] + moved, Blank(|s| - idx - |moved|));
    SumAppend(s[..idx], moved);
    BlankIsZero(|s| - idx - |moved|);
    KeepFilledSum(rest);
    SumSplit(s, idx);
  }

  /** The total of a grid is the total before `idx`, plus slot `idx`, plus the total after it. */
  lemma SumSplit(s: seq<Slot>, idx: nat)
    requires idx < |s|
    ensures Sum(s) == Sum(s[..idx]) + SlotValue(s[idx]) + Sum(s[idx + 1..])
  {
    assert s == s[..idx] + s[idx..];
    SumAppend(s[..idx], s[idx..]);
    assert s[idx..][1..] == s[idx + 1..];
  }

  /** Removal lowers the number of filled slots by one when the slot was filled. */
  lemma RemovedCount(s: seq<Slot>, idx: nat)
    requires idx < |s|
    ensures Count(Removed(s, idx)) == Count(s) - (if s[idx].Filled? then 1 else 0)
  {
    var rest := s[idx + 1..];
    var moved := Keep(IsFilled, rest);
    CountAppend(s[..idx] + moved, Blank(|s| - idx - |moved|));
    CountAppend(s[..idx], moved);
    BlankIsZero(|s| - idx - |moved|);
    KeepFilledCount(rest);
    CountSplit(s, idx);
  }

  /** The count of a grid is the count before `idx`, plus slot `idx`, plus the count after it. */
  lemma CountSplit(s: seq<Slot>, idx: nat)
    requires idx < |s|
    ensures Count(s) == Count(s[..idx]) + (if s[idx].Filled? then 1 else 0) + Count(s[idx + 1..])
  {
    assert s == s[..idx] + s[idx..];
    CountAppend(s[..idx], s[idx..]);
    assert s[idx..][1..] == s[idx + 1..];
  }

  /** A left-packed grid stays left-packed after a removal. */
  lemma RemovedKeepsPacked(s: seq<Slot>, idx: nat)
    requires idx < |s| && LeftPacked(s)
    ensures LeftPacked(Removed(s, idx))
  {
    var rest := s[idx + 1..];
    var moved := Keep(IsFilled, rest);
    var r := Removed(s, idx);
    assert forall k :: 0 <= k < idx ==> r[k] == s[k];
    assert forall k :: 0 <= k < |moved| ==> r[idx + k] == moved[k];
    forall i, j | 0 <= i < j < |r| && r[j].Filled?
      ensures r[i].Filled?
    {
      if j >= idx {
        assert j < idx + |moved|;
        if i >= idx {
          KeepSound(IsFilled, rest, moved[i - idx]);
        } else {
          KeepSound(IsFilled, rest, moved[j - idx]);
          var q :| 0 <= q < |rest| && rest[q] == moved[j - idx];
          assert s[idx + 1 + q].Filled?;
        }
      }
    }
  }

  /** The example of removing slot 2 when slots 0-3 and 5 are filled. */
  lemma RemoveExample(a: Slot, b: Slot, c: Slot, d: Slot, e: Slot)
    requires a.Filled? && b.Filled? && c.Filled? && d.Filled? && e.Filled?
    ensures Removed([a, b, c, d, Empty, e, Empty, Empty, Empty], 2)
         == [a, b, d, e, Empty, Empty, Empty, Empty, Empty]
  {
    var s := [a, b, c, d, Empty, e, Empty, Empty, Empty];
    assert s[3..] == [d, Empty, e, Empty, Empty, Empty];
    assert s[..2] == [a, b];
    KeepExampleTail(d, e);
    assert Blank(5) == [Empty, Empty, Empty, Empty, Empty];
  }

  /** The slots after slot 2 in the example above shift down to `[d, e]`. */
  lemma KeepExampleTail(d: Slot, e: Slot)
    requires d.Filled? && e.Filled?
    ensures Keep(IsFilled, [d, Empty, e, Empty, Empty, Empty]) == [d, e]
  {
    var t3: seq<Slot> := [Empty, Empty, Empty];
    assert Keep(IsFilled, t3[2..]) == [] by {
      assert t3[2..][1..] == [];
    }
    assert Keep(IsFilled, t3[1..]) == [] by {
      assert t3[1..][1..] == t3[2..];
    }
    assert Keep(IsFilled, t3) == [];
    var t4: seq<Slot> := [e] + t3;
    assert t4[1..] == t3;
    assert Keep(IsFilled, t4) == [e];
    var t5: seq<Slot> := [Empty] + t4;
    assert t5[1..] == t4;
    assert Keep(IsFilled, t5) == [e];
    var t6: seq<Slot> := [d] + t5;
    assert t6[1..] == t5;
    assert t6 == [d, Empty, e, Empty, Empty, Empty];
  }

  // ---------------------------------------------------------------------------
  // Win / fair / loss

  datatype Label = Placeholder | Fair | Win(margin: real) | Loss(margin: real)

  /** What `calculateWFL` displays: the label, the width of the balance bar
      (percent) and whether the bar is active. */
  datatype Comparison = Comparison(verdict: Label, fillPercent: real, barActive: bool)

  function Clamp01(x: real): real
  {
    if x < 0.0 then 0.0 else if x > 1.0 then 1.0 else x
  }

  function Compare(your: real, their: real): (c: Comparison)
    ensures c.verdict == Placeholder <==> your == 0.0 && their == 0.0
    ensures c.verdict == Placeholder ==> c.fillPercent == 50.0
    ensures c.barActive <==> c.verdict != Placeholder
    ensures 0.0 <= c.fillPercent <= 100.0
    ensures c.verdict == Fair <==> your == their != 0.0
    ensures c.verdict.Win? <==> their > your
    ensures c.verdict.Win? ==> c.verdict.margin == their - your
    ensures c.verdict.Loss? <==> your > their
    ensures c.verdict.Loss? ==> c.verdict.margin == your - their
    ensures your >= 0.0 && their >= 0.0 && c.verdict != Placeholder ==>
              c.fillPercent * (your + their) == 100.0 * your
  {
    if your == 0.0 && their == 0.0 then
      Comparison(Placeholder, 50.0, false)
    else
      var total := your + their;
      var ratio := if total > 0.0 then your / total else 0.0;
      assert your >= 0.0 && their >= 0.0 ==> ratio * total == your && 0.0 <= ratio <= 1.0 by {
        if your >= 0.0 && their >= 0.0 {
          Share(your, their);
        }
      }
      var fill := Clamp01(ratio) * 100.0;
      var difference := their - your;
      var verdict :=
        if difference == 0.0 then Fair
        else if difference > 0.0 then Win(their - your)
        else Loss(your - their);
      Comparison(verdict, fill, true)
  }

  /** Swapping the two sides swaps win and loss and mirrors the bar. */
  lemma CompareMirror(your: real, their: real)
    requires your >= 0.0 && their >= 0.0
    ensures Compare(your, their).verdict.Win? <==> Compare(their, your).verdict.Loss?
    ensures Compare(your, their).verdict.Win? ==>
              Compare(your, their).verdict.margin == Compare(their, your).verdict.margin
    ensures Compare(your, their).fillPercent + Compare(their, your).fillPercent == 100.0
  {
    if your != 0.0 || their != 0.0 {
      Share(your, their);
      Share(their, your);
    }
  }

  /** The share of `a` in `a + b` is a fraction in [0, 1] and sums to 1 with the share of `b`. */
  lemma Share(a: real, b: real)
    requires a >= 0.0 && b >= 0.0 && a + b > 0.0
    ensures 0.0 <= a / (a + b) <= 1.0
    ensures a / (a + b) * (a + b) == a
    ensures a / (a + b) + b / (b + a) == 1.0
  {
  }

  /** A total of 40 against 60: the bar is 40 % full and the label reads "20 Win". */
  lemma CompareExample()
    ensures Compare(40.0, 60.0) == Comparison(Win(20.0), 40.0, true)
  {
  }

  // ---------------------------------------------------------------------------
  // Catalog filters

  predicate RarityMatches(item: CatalogItem, rarity: string)
  {
    LowerStr(item.rarity) == rarity
  }

  predicate NameMatches(item: CatalogItem, query: string)
  {
    Contains(LowerStr(item.name), query)
  }

  /** The filter chain of `updateDisplayedItems`; `query` is already lower-cased. */
  function FilterCatalog(items: seq<CatalogItem>, rarity: string, query: string): seq<CatalogItem>
  {
    var byRarity := if rarity != "all" then Keep(item => RarityMatches(item, rarity), items) else items;
    if query != "" then Keep(item => NameMatches(item, query), byRarity) else byRarity
  }

  /** An item passes both filters. */
  predicate Shown(item: CatalogItem, rarity: string, query: string)
  {
    (rarity == "all" || RarityMatches(item, rarity)) && NameMatches(item, query)
  }

  /** The displayed list is the one order-preserving filter of the catalog by both conditions. */
  lemma FilterCatalogIsOneFilter(items: seq<CatalogItem>, rarity: string, query: string)
    ensures FilterCatalog(items, rarity, query) == Keep(item => Shown(item, rarity, query), items)
    ensures forall x :: x in FilterCatalog(items, rarity, query) <==> x in items && Shown(x, rarity, query)
  {
    var byRarity := if rarity != "all" then Keep(item => RarityMatches(item, rarity), items) else items;
    var shown := (item: CatalogItem) => Shown(item, rarity, query);
    forall x: CatalogItem
      ensures query == "" ==> NameMatches(x, query)
    {
      assert OccursAt(LowerStr(x.name), query, 0) <== query == "";
    }
    if rarity == "all" {
      if query == "" {
        KeepAll(shown, items);
      } else {
        KeepKeep(item => true, item => NameMatches(item, query), shown, items);
        KeepAll(item => true, items);
      }
    } else {
      if query == "" {
        KeepKeep(item => RarityMatches(item, rarity), item => true, shown, items);
        KeepAll(item => true, byRarity);
      } else {
        KeepKeep(item => RarityMatches(item, rarity), item => NameMatches(item, query), shown, items);
      }
    }
    forall x | x in items && Shown(x, rarity, query)
      ensures x in FilterCatalog(items, rarity, query)
    {
      KeepComplete(shown, items, x);
    }
    forall x | x in FilterCatalog(items, rarity, query)
      ensures x in items && Shown(x, rarity, query)
    {
      KeepSound(shown, items, x);
    }
  }

  // ---------------------------------------------------------------------------
  // Grids and the calculator state

  /** One offer grid: nine slot elements whose contents are changed in place. */
  class Grid {
    const slots: array<Slot>

    ghost predicate Valid()
      reads this
    {
      slots.Length == SlotCount
    }

    /** `createGridSlots` on a new grid: nine empty slots of value 0. */
    constructor ()
      ensures Valid() && fresh(slots)
      ensures slots[..] == Blank(SlotCount)
    {
      slots := new Slot[SlotCount](_ => Empty);
    }

    /** `createGridSlots` on an existing grid. */
    method Clear()
      requires Valid()
      modifies slots
      ensures slots[..] == Blank(SlotCount)
    {
      for i := 0 to slots.Length
        invariant forall k :: 0 <= k < i ==> slots[k] == Empty
      {
        slots[i] := Empty;
      }
    }

    /** `calculateTotal`: the sum of the slot values, empty slots counting 0. */
    method CalculateTotal() returns (total: real)
      ensures total == Sum(slots[..])
    {
      total := 0.0;
      for i := 0 to slots.Length
        invariant total == Sum(slots[..i])
      {
        assert slots[..i + 1] == slots[..i] + [slots[i]];
        SumAppend(slots[..i], [slots[i]]);
        total := total + SlotValue(slots[i]);
      }
      assert slots[..slots.Length] == slots[..];
    }

    /** The slot writes of `selectItem`. */
    method Place(idx: nat, name: string, value: real)
      requires idx < slots.Length
      modifies slots
      ensures slots[..] == old(slots[..])[idx := Filled(name, value)]
    {
      slots[idx] := Filled(name, value);
    }

    /** `removeItemFromSlot`: clear slot `idx`, then move each later filled
        slot, in order, to the next position from `idx` on, clearing its source. */
    method Remove(idx: nat)
      requires idx < slots.Length
      modifies slots
      ensures slots[..] == Removed(old(slots[..]), idx)
    {
      ghost var s := slots[..];
      slots[idx] := Empty;
      var ps := FilledFrom(slots[..], idx + 1);
      assert ps == FilledFrom(s, idx + 1) by {
        FilledFromIgnoresPrefix(s, slots[..], idx + 1);
      }
      CompactStart(s, idx);
      var i := 0;
      while i < |ps|
        invariant Compacting(s, idx, ps, i, slots[..])
      {
        CompactStep(s, idx, ps, i, slots[..]);
        slots[idx + i] := slots[ps[i]];
        slots[ps[i]] := Empty;
        i := i + 1;
      }
      CompactDone(s, idx, slots[..]);
    }
  }

  /** The grid `t` after the first `i` moves of the compaction of `s` at `idx`:
      the slots before `idx` untouched, the first `i` filled slots after `idx`
      moved to `idx`, `idx + 1`, ..., and from `idx + i` on every position up to
      the latest source emptied and the rest as in `s`. */
  ghost predicate Compacting(s: seq<Slot>, idx: nat, ps: seq<nat>, i: nat, t: seq<Slot>)
  {
    && idx < |s| == |t| && ps == FilledFrom(s, idx + 1) && i <= |ps|
    && (forall k :: 0 <= k < idx ==> t[k] == s[k])
    && (forall k :: 0 <= k < i ==> t[idx + k] == s[ps[k]])
    && (forall q :: idx + i <= q < |t| ==> t[q] == if q <= Reached(ps, idx, i) then Empty else s[q])
  }

  lemma CompactStart(s: seq<Slot>, idx: nat)
    requires idx < |s|
    ensures Compacting(s, idx, FilledFrom(s, idx + 1), 0, s[idx := Empty])
  {
  }

  /** One move of the compaction loop keeps the description. */
  lemma CompactStep(s: seq<Slot>, idx: nat, ps: seq<nat>, i: nat, t: seq<Slot>)
    requires Compacting(s, idx, ps, i, t) && i < |ps|
    ensures idx + i < ps[i] < |t|
    ensures Compacting(s, idx, ps, i + 1, t[idx + i := t[ps[i]]][ps[i] := Empty])
  {
    GapBeforeNext(s, idx, ps, i);
    var t' := t[idx + i := t[ps[i]]][ps[i] := Empty];
    assert t[ps[i]] == s[ps[i]];
    forall k | 0 <= k < i + 1
      ensures t'[idx + k] == s[ps[k]]
    {
    }
    forall q | idx + i + 1 <= q < |t'|
      ensures t'[q] == if q <= Reached(ps, idx, i + 1) then Empty else s[q]
    {
    }
  }

  /** Between the latest emptied position and the next filled one, every slot is empty. */
  lemma GapBeforeNext(s: seq<Slot>, idx: nat, ps: seq<nat>, i: nat)
    requires idx < |s| && ps == FilledFrom(s, idx + 1) && i < |ps|
    ensures forall q :: Reached(ps, idx, i) < q < ps[i] ==> s[q].Empty?
  {
    forall q | Reached(ps, idx, i) < q < ps[i]
      ensures s[q].Empty?
    {
      FilledFromGap(s, idx + 1, i, q);
    }
  }

  /** When every filled slot has been moved, the grid is `Removed(s, idx)`. */
  lemma CompactDone(s: seq<Slot>, idx: nat, t: seq<Slot>)
    requires idx < |s| && Compacting(s, idx, FilledFrom(s, idx + 1), |FilledFrom(s, idx + 1)|, t)
    ensures t == Removed(s, idx)
  {
    var ps := FilledFrom(s, idx + 1);
    forall q | Reached(ps, idx, |ps|) < q < |t|
      ensures s[q].Empty?
    {
      FilledFromGap(s, idx + 1, |ps|, q);
    }
    RemovedFromParts(s, idx, t);
  }

  /** A grid that agrees with `s` before `idx`, holds the filled slots after
      `idx` in order from `idx` on, and is empty after them, is `Removed(s, idx)`. */
  lemma RemovedFromParts(s: seq<Slot>, idx: nat, t: seq<Slot>)
    requires idx < |s| == |t|
    requires forall k :: 0 <= k < idx ==> t[k] == s[k]
    requires var ps := FilledFrom(s, idx + 1);
      && (forall k :: 0 <= k < |ps| ==> t[idx + k] == s[ps[k]])
      && (forall q :: idx + |ps| <= q < |t| ==> t[q] == Empty)
    ensures t == Removed(s, idx)
  {
    var ps := FilledFrom(s, idx + 1);
    RemoveEffects(s, idx);
    forall j | 0 <= j < |t|
      ensures t[j] == Removed(s, idx)[j]
    {
      if idx <= j < idx + |ps| {
        assert t[idx + (j - idx)] == s[ps[j - idx]];
      }
    }
  }

  /** The last position the compaction loop has emptied after `i` moves:
      the removed slot itself, then the source of the latest move. */
  function Reached(ps: seq<nat>, idx: nat, i: nat): nat
    requires i <= |ps|
  {
    if i == 0 then idx else ps[i - 1]
  }

  /** Between two consecutive filled positions after `from`, and after the
      last of them, every slot is empty. */
  lemma {:induction false} FilledFromGap(s: seq<Slot>, from: nat, k: nat, q: nat)
    requires from <= |s|
    requires k <= |FilledFrom(s, from)|
    requires (if k == 0 then from else FilledFrom(s, from)[k - 1] + 1) <= q
    requires q < if k < |FilledFrom(s, from)| then FilledFrom(s, from)[k] else |s|
    ensures s[q].Empty?
    decreases |s| - from, 1
  {
    if s[from].Filled? {
      GapAfterFilled(s, from, k, q);
    } else if q > from {
      GapAfterEmpty(s, from, k, q);
    }
  }

  lemma {:induction false} GapAfterFilled(s: seq<Slot>, from: nat, k: nat, q: nat)
    requires from < |s| && s[from].Filled?
    requires k <= |FilledFrom(s, from)|
    requires (if k == 0 then from else FilledFrom(s, from)[k - 1] + 1) <= q
    requires q < if k < |FilledFrom(s, from)| then FilledFrom(s, from)[k] else |s|
    ensures s[q].Empty?
    decreases |s| - from, 0
  {
    var rest := FilledFrom(s, from + 1);
    assert FilledFrom(s, from) == [from] + rest;
    if k > 0 {
      FilledFromGap(s, from + 1, k - 1, q);
    }
  }

  lemma {:induction false} GapAfterEmpty(s: seq<Slot>, from: nat, k: nat, q: nat)
    requires from < q < |s| && s[from].Empty?
    requires k <= |FilledFrom(s, from)|
    requires (if k == 0 then from else FilledFrom(s, from)[k - 1] + 1) <= q
    requires q < if k < |FilledFrom(s, from)| then FilledFrom(s, from)[k] else |s|
    ensures s[q].Empty?
    decreases |s| - from, 0
  {
    assert FilledFrom(s, from) == FilledFrom(s, from + 1);
    FilledFromGap(s, from + 1, k, q);
  }

  /** `FilledFrom` only looks at positions from `from` on. */
  lemma {:induction false} FilledFromIgnoresPrefix(s: seq<Slot>, t: seq<Slot>, from: nat)
    requires from <= |s| == |t|
    requires forall q :: from <= q < |s| ==> s[q] == t[q]
    ensures FilledFrom(s, from) == FilledFrom(t, from)
    decreases |s| - from
  {
    if from < |s| {
      FilledFromIgnoresPrefix(s, t, from + 1);
    }
  }

  datatype Side = Yours | Theirs

  /** A slot of one of the two grids. */
  datatype SlotRef = SlotRef(side: Side, index: nat)

  /** The state kept by the trade page: both grids, the loaded catalog, the
      slot the picker will fill, whether the picker is open, the search text,
      the rarity filter and the S/H/G toggle. */
  class TradeCalculator {
    const yours: Grid
    const theirs: Grid
    var allItems: seq<CatalogItem>
    var activeSlot: Option<SlotRef>
    var modalOpen: bool
    var searchText: string
    var currentRarity: string
    var currentShg: Option<string>

    function GridOf(side: Side): Grid
    {
      if side == Yours then yours else theirs
    }

    ghost predicate Valid()
      reads this, yours, theirs
    {
      && yours.Valid() && theirs.Valid() && yours.slots != theirs.slots
      && (activeSlot.Some? ==> activeSlot.value.index < SlotCount)
    }

    /** Both grids are left-packed and an open picker targets the first empty slot. */
    ghost predicate Packed()
      reads this, yours, theirs, yours.slots, theirs.slots
    {
      && LeftPacked(yours.slots[..]) && LeftPacked(theirs.slots[..])
      && (modalOpen && activeSlot.Some? ==>
            activeSlot.value.index == FirstEmpty(GridOf(activeSlot.value.side).slots[..]))
    }

    /** What `calculateAll` displays. */
    function Outcome(): Comparison
      reads yours, theirs, yours.slots, theirs.slots
    {
      Compare(Sum(yours.slots[..]), Sum(theirs.slots[..]))
    }

    /** What `updateDisplayedItems` lists. */
    function Displayed(): seq<CatalogItem>
      reads this
    {
      FilterCatalog(allItems, currentRarity, LowerStr(searchText))
    }

    /** Page load: two fresh grids, no catalog yet, picker closed, no filters. */
    constructor ()
      ensures Valid() && Packed() && fresh(yours.slots) && fresh(theirs.slots)
      ensures yours.slots[..] == Blank(SlotCount) && theirs.slots[..] == Blank(SlotCount)
      ensures allItems == [] && activeSlot == None && !modalOpen
      ensures searchText == [] && currentRarity == "all" && currentShg == None
      ensures Outcome() == Comparison(Placeholder, 50.0, false)
    {
      yours := new Grid();
      theirs := new Grid();
      allItems := [];
      activeSlot := None;
      modalOpen := false;
      searchText := [];
      currentRarity := "all";
      currentShg := None;
      new;
      BlankIsZero(SlotCount);
    }

    /** `fetchItems` after a successful fetch. */
    method LoadCatalog(items: seq<CatalogItem>)
      modifies this
      ensures allItems == items
      ensures activeSlot == old(activeSlot) && modalOpen == old(modalOpen)
      ensures searchText == old(searchText) && currentRarity == old(currentRarity)
      ensures currentShg == old(currentShg)
    {
      allItems := items;
    }

    /** `openModal`: activate the clicked slot, or the first empty slot if it lies before it. */
    method OpenModal(r: SlotRef)
      requires Valid() && r.index < SlotCount
      modifies this
      ensures Valid()
      ensures activeSlot == Some(SlotRef(r.side, Redirect(GridOf(r.side).slots[..], r.index)))
      ensures modalOpen
      ensures allItems == old(allItems) && searchText == old(searchText)
      ensures currentRarity == old(currentRarity) && currentShg == old(currentShg)
    {
      var slots := GridOf(r.side).slots;
      var first := FirstEmpty(slots[..]);
      var target := r.index;
      if first != -1 && r.index > first {
        target := first;
      }
      activeSlot := Some(SlotRef(r.side, target));
      modalOpen := true;
    }

    /** `closeModal`: hide the picker, clear the search, reset the rarity to "all". */
    method CloseModal()
      modifies this
      ensures !modalOpen && searchText == [] && currentRarity == "all"
      ensures allItems == old(allItems) && activeSlot == old(activeSlot)
      ensures currentShg == old(currentShg)
    {
      modalOpen := false;
      searchText := [];
      currentRarity := "all";
    }

    /** `selectItem`: write the picked item into the active slot, then close the picker. */
    method SelectItem(item: CatalogItem)
      requires Valid()
      modifies this, yours.slots, theirs.slots
      ensures Valid()
      ensures old(activeSlot).Some? ==>
        var r := old(activeSlot).value;
        && GridOf(r.side).slots[..] == old(GridOf(r.side).slots[..])[r.index := Filled(item.name, item.value)]
        && GridOf(if r.side == Yours then Theirs else Yours).slots[..]
             == old(GridOf(if r.side == Yours then Theirs else Yours).slots[..])
        && !modalOpen && searchText == [] && currentRarity == "all"
      ensures old(activeSlot).None? ==>
        && yours.slots[..] == old(yours.slots[..]) && theirs.slots[..] == old(theirs.slots[..])
        && modalOpen == old(modalOpen) && searchText == old(searchText)
        && currentRarity == old(currentRarity)
      ensures activeSlot == old(activeSlot) && allItems == old(allItems)
      ensures currentShg == old(currentShg)
      ensures old(Packed()) && old(modalOpen) ==> Packed()
    {
      if activeSlot.Some? {
        var r := activeSlot.value;
        ghost var before := GridOf(r.side).slots[..];
        if old(Packed()) && old(modalOpen) {
          PickKeepsPacked(before, item.name, item.value);
        }
        GridOf(r.side).Place(r.index, item.name, item.value);
        CloseModal();
      }
    }

    /** `removeItemFromSlot` on a slot of one grid. */
    method RemoveItem(r: SlotRef)
      requires Valid() && r.index < SlotCount
      modifies GridOf(r.side).slots
      ensures GridOf(r.side).slots[..] == Removed(old(GridOf(r.side).slots[..]), r.index)
      ensures Sum(GridOf(r.side).slots[..]) == old(Sum(GridOf(r.side).slots[..]) - SlotValue(GridOf(r.side).slots[r.index]))
    {
      ghost var before := GridOf(r.side).slots[..];
      GridOf(r.side).Remove(r.index);
      RemovedSum(before, r.index);
    }

    /** `handleSlotClick`: a filled slot loses its item and the picker stays
        as it was; an empty slot opens the picker. */
    method ClickSlot(r: SlotRef)
      requires Valid() && r.index < SlotCount
      modifies this, yours.slots, theirs.slots
      ensures Valid()
      ensures old(GridOf(r.side).slots[r.index]).Filled? ==>
        && GridOf(r.side).slots[..] == Removed(old(GridOf(r.side).slots[..]), r.index)
        && activeSlot == old(activeSlot) && modalOpen == old(modalOpen)
      ensures old(GridOf(r.side).slots[r.index]).Empty? ==>
        && GridOf(r.side).slots[..] == old(GridOf(r.side).slots[..])
        && activeSlot == Some(SlotRef(r.side, FirstEmpty(GridOf(r.side).slots[..])))
        && modalOpen
      ensures GridOf(if r.side == Yours then Theirs else Yours).slots[..]
                == old(GridOf(if r.side == Yours then Theirs else Yours).slots[..])
      ensures allItems == old(allItems) && searchText == old(searchText)
      ensures currentRarity == old(currentRarity) && currentShg == old(currentShg)
      ensures old(Packed()) && !old(modalOpen) ==> Packed()
    {
      ghost var before := GridOf(r.side).slots[..];
      if GridOf(r.side).slots[r.index].Filled? {
        if old(Packed()) {
          RemovedKeepsPacked(before, r.index);
        }
        RemoveItem(r);
      } else {
        RedirectToFirstEmpty(before, r.index);
        OpenModal(r);
      }
    }

    /** `handleRarityChange`. */
    method ChooseRarity(rarity: string)
      modifies this
      ensures currentRarity == rarity
      ensures allItems == old(allItems) && activeSlot == old(activeSlot)
      ensures modalOpen == old(modalOpen) && searchText == old(searchText)
      ensures currentShg == old(currentShg)
    {
      currentRarity := rarity;
    }

    /** Typing in the search box. */
    method EnterSearch(text: string)
      modifies this
      ensures searchText == text
      ensures allItems == old(allItems) && activeSlot == old(activeSlot)
      ensures modalOpen == old(modalOpen) && currentRarity == old(currentRarity)
      ensures currentShg == old(currentShg)
    {
      searchText := text;
    }

    /** `handleSHGChange`: select the clicked tag, or clear it if it was the active one.
        The displayed list does not depend on it. */
    method ToggleShg(tag: string)
      modifies this
      ensures currentShg == if old(currentShg) == Some(tag) then None else Some(tag)
      ensures Displayed() == old(Displayed())
      ensures allItems == old(allItems) && activeSlot == old(activeSlot)
      ensures modalOpen == old(modalOpen) && searchText == old(searchText)
      ensures currentRarity == old(currentRarity)
    {
      if currentShg != Some(tag) {
        currentShg := Some(tag);
      } else {
        currentShg := None;
      }
    }

    /** `resetTrade`: both grids back to nine empty slots; the comparison becomes neutral. */
    method ResetTrade()
      requires Valid()
      modifies yours.slots, theirs.slots
      ensures yours.slots[..] == Blank(SlotCount) && theirs.slots[..] == Blank(SlotCount)
      ensures Sum(yours.slots[..]) == 0.0 && Sum(theirs.slots[..]) == 0.0
      ensures Outcome() == Comparison(Placeholder, 50.0, false)
      ensures !modalOpen ==> Packed()
    {
      yours.Clear();
      theirs.Clear();
      BlankIsZero(SlotCount);
    }
  }
}
