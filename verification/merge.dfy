/**
 * `merge_and_calculate` of backend/main.py: for each image, join the
 * box-to-quantity map of the quantity reader with the box-to-item map of the
 * text reader, number the joined rows continuously across images, total their
 * values, and strip the bookkeeping keys from the rows.
 */
module Merge {
  import opened Wrappers
  import opened Text

  /** An item the text reader matched to a box: its catalog name and unit value. */
  datatype ItemMatch = ItemMatch(name: string, value: real)

  /** What the two readers produced for one image: the box-to-quantity-text
      entries in their dictionary order (box numbers distinct), and the
      box-to-item map. */
  datatype ImageData = ImageData(name: string, quantities: seq<(nat, string)>, matches: map<nat, ItemMatch>)

  /** A returned row, after the bookkeeping keys are removed. */
  datatype Row = Row(itemName: string, quantity: nat, unitValue: real, totalValue: real)

  /** A row while it still carries its continuous number and its image's name. */
  datatype Entry = Entry(boxNumber: nat, imageName: string, row: Row)

  /** `int()` raised on the quantity text of a box. */
  datatype MergeError = BadQuantity(imageName: string, box: nat, text: string)

  datatype Merged = Merged(rows: seq<Row>, total: real)

  // ---------------------------------------------------------------------------
  // Quantities

  predicate IsDigitString(s: string)
  {
    |s| > 0 && forall i :: 0 <= i < |s| ==> IsDigit(s[i])
  }

  function DigitValue(c: char): nat
    requires IsDigit(c)
  {
    c as nat - '0' as nat
  }

  /** The number a decimal digit string denotes. */
  function DigitsValue(s: string): nat
    requires forall i :: 0 <= i < |s| ==> IsDigit(s[i])
  {
    if s == [] then 0 else 10 * DigitsValue(s[..|s| - 1]) + DigitValue(s[|s| - 1])
  }

  /** The decimal text of a number, without leading zeros. */
  function Decimal(n: nat): (s: string)
    ensures IsDigitString(s)
  {
    if n < 10 then ['0' + n as char] else Decimal(n / 10) + ['0' + (n % 10) as char]
  }

  /** Reading back the decimal text of a number gives the number. */
  lemma {:induction false} DigitsValueDecimal(n: nat)
    ensures DigitsValue(Decimal(n)) == n
  {
    var s := Decimal(n);
    if n >= 10 {
      DigitsValueDecimal(n / 10);
      assert s[..|s| - 1] == Decimal(n / 10);
    }
  }

  // ---------------------------------------------------------------------------
  // The join, as values

  /** The first entry whose quantity text `int()` rejects, if any. */
  function BadEntry(q: seq<(nat, string)>): (r: Option<(nat, string)>)
  {
    if q == [] then None
    else
      var e := BadEntry(q[..|q| - 1]);
      if e.Some? then e
      else if !IsDigitString(q[|q| - 1].1) then Some(q[|q| - 1])
      else None
  }

  /** No entry is reported exactly when every quantity text is a digit string. */
  lemma {:induction false} BadEntryNone(q: seq<(nat, string)>)
    ensures BadEntry(q).None? <==> forall k :: 0 <= k < |q| ==> IsDigitString(q[k].1)
  {
    if q != [] {
      var init := q[..|q| - 1];
      BadEntryNone(init);
      assert forall k :: 0 <= k < |init| ==> init[k] == q[k];
    }
  }

  /** The entry reported is the first whose text is not a digit string. */
  lemma {:induction false} BadEntryFirst(q: seq<(nat, string)>)
    requires BadEntry(q).Some?
    ensures exists k :: 0 <= k < |q| && q[k] == BadEntry(q).value && !IsDigitString(q[k].1)
                        && forall l :: 0 <= l < k ==> IsDigitString(q[l].1)
  {
    var init := q[..|q| - 1];
    if BadEntry(init).Some? {
      BadEntryFirst(init);
      var k :| 0 <= k < |init| && init[k] == BadEntry(init).value && !IsDigitString(init[k].1)
               && forall l :: 0 <= l < k ==> IsDigitString(init[l].1);
      assert q[k] == init[k];
      assert forall l :: 0 <= l < k ==> q[l] == init[l];
    } else {
      BadEntryNone(init);
      assert forall l :: 0 <= l < |q| - 1 ==> q[l] == init[l];
      assert q[|q| - 1] == BadEntry(q).value;
    }
  }

  /** The error `merge_and_calculate` ends with: the first bad quantity text,
      images in order and boxes in order within an image. */
  function FirstBad(images: seq<ImageData>): (r: Option<MergeError>)
  {
    if images == [] then None
    else
      var e := FirstBad(images[..|images| - 1]);
      var last := images[|images| - 1];
      var b := BadEntry(last.quantities);
      if e.Some? then e
      else if b.Some? then Some(BadQuantity(last.name, b.value.0, b.value.1))
      else None
  }

  /** No error is reported exactly when every quantity text of every image is a digit string. */
  lemma {:induction false} FirstBadNone(images: seq<ImageData>)
    ensures FirstBad(images).None? <==> forall i :: 0 <= i < |images| ==> BadEntry(images[i].quantities).None?
  {
    if images != [] {
      var init := images[..|images| - 1];
      FirstBadNone(init);
      assert forall i :: 0 <= i < |init| ==> init[i] == images[i];
    }
  }

  /** The row for a box whose quantity text is `text` and whose item is `m`;
      `round3` is Python's `round(…, 3)`. */
  function MakeRow(text: string, m: ItemMatch, round3: real -> real): Row
    requires IsDigitString(text)
  {
    var quantity := DigitsValue(text);
    Row(m.name, quantity, m.value, round3(quantity as real * m.value))
  }

  /** The rows of one image: one per quantity entry whose box has a match, in entry order. */
  function Joined(q: seq<(nat, string)>, matches: map<nat, ItemMatch>, round3: real -> real): (rows: seq<Row>)
    requires BadEntry(q).None?
    ensures |rows| <= |q|
  {
    if q == [] then []
    else
      var e := q[|q| - 1];
      Joined(q[..|q| - 1], matches, round3) + (if e.0 in matches then [MakeRow(e.1, matches[e.0], round3)] else [])
  }

  /** Rows `start + 1`, `start + 2`, ... of one image. */
  function Number(imageName: string, rows: seq<Row>, start: nat): (es: seq<Entry>)
    ensures |es| == |rows|
    ensures forall i :: 0 <= i < |rows| ==> es[i] == Entry(start + i + 1, imageName, rows[i])
  {
    seq(|rows|, i requires 0 <= i < |rows| => Entry(start + i + 1, imageName, rows[i]))
  }

  /** The numbered rows of all images, before the keys are stripped. */
  function Flat(images: seq<ImageData>, round3: real -> real): seq<Entry>
    requires FirstBad(images).None?
  {
    if images == [] then []
    else
      var init := images[..|images| - 1];
      var last := images[|images| - 1];
      var before := Flat(init, round3);
      before + Number(last.name, Joined(last.quantities, last.matches, round3), |before|)
  }

  function Rows(es: seq<Entry>): (rows: seq<Row>)
    ensures |rows| == |es| && forall i :: 0 <= i < |es| ==> rows[i] == es[i].row
  {
    seq(|es|, i requires 0 <= i < |es| => es[i].row)
  }

  function SumTotals(rows: seq<Row>): real
  {
    if rows == [] then 0.0 else SumTotals(rows[..|rows| - 1]) + rows[|rows| - 1].totalValue
  }

  // ---------------------------------------------------------------------------
  // Properties of the join

  lemma {:induction false} SumTotalsAppend(a: seq<Row>, b: seq<Row>)
    ensures SumTotals(a + b) == SumTotals(a) + SumTotals(b)
    decreases |b|
  {
    if b != [] {
      assert (a + b)[..|a + b| - 1] == a + b[..|b| - 1];
      SumTotalsAppend(a, b[..|b| - 1]);
    } else {
      assert a + b == a;
    }
  }

  /** Every row of an image comes from a quantity entry whose box has a match,
      and every such entry gives a row. */
  lemma {:induction false} JoinedExactly(q: seq<(nat, string)>, matches: map<nat, ItemMatch>, round3: real -> real)
    requires BadEntry(q).None?
    ensures forall r :: r in Joined(q, matches, round3) ==>
              exists k :: 0 <= k < |q| && q[k].0 in matches && IsDigitString(q[k].1)
                          && r == MakeRow(q[k].1, matches[q[k].0], round3)
    ensures forall k :: 0 <= k < |q| && q[k].0 in matches ==>
              IsDigitString(q[k].1) && MakeRow(q[k].1, matches[q[k].0], round3) in Joined(q, matches, round3)
  {
    if q != [] {
      var init := q[..|q| - 1];
      var last := q[|q| - 1];
      assert BadEntry(init).None? && IsDigitString(last.1);
      JoinedExactly(init, matches, round3);
      forall r | r in Joined(q, matches, round3)
        ensures exists k :: 0 <= k < |q| && q[k].0 in matches && IsDigitString(q[k].1)
                            && r == MakeRow(q[k].1, matches[q[k].0], round3)
      {
        if r in Joined(init, matches, round3) {
          var k :| 0 <= k < |init| && init[k].0 in matches && IsDigitString(init[k].1)
                   && r == MakeRow(init[k].1, matches[init[k].0], round3);
          assert q[k] == init[k];
        } else {
          assert last.0 in matches && r == MakeRow(last.1, matches[last.0], round3);
        }
      }
      forall k | 0 <= k < |q| && q[k].0 in matches
        ensures IsDigitString(q[k].1) && MakeRow(q[k].1, matches[q[k].0], round3) in Joined(q, matches, round3)
      {
        if k < |init| {
          assert init[k] == q[k];
        }
      }
    }
  }

  /** An image none of whose boxes has a match adds no row and nothing to the total. */
  lemma {:induction false} UnmatchedImageAddsNothing(q: seq<(nat, string)>, matches: map<nat, ItemMatch>, round3: real -> real)
    requires BadEntry(q).None?
    requires forall k :: 0 <= k < |q| ==> q[k].0 !in matches
    ensures Joined(q, matches, round3) == []
    ensures SumTotals(Joined(q, matches, round3)) == 0.0
  {
    if q != [] {
      UnmatchedImageAddsNothing(q[..|q| - 1], matches, round3);
    }
  }

  /** The rows are numbered 1, 2, ..., n without gaps across all images. */
  lemma {:induction false} FlatNumbering(images: seq<ImageData>, round3: real -> real)
    requires FirstBad(images).None?
    ensures forall i :: 0 <= i < |Flat(images, round3)| ==> Flat(images, round3)[i].boxNumber == i + 1
  {
    if images != [] {
      var init := images[..|images| - 1];
      FlatNumbering(init, round3);
    }
  }

  /** The returned rows are the rows of the images one after another. */
  lemma {:induction false} RowsOfFlat(images: seq<ImageData>, round3: real -> real)
    requires FirstBad(images).None?
    ensures images != [] ==>
      var last := images[|images| - 1];
      Rows(Flat(images, round3))
        == Rows(Flat(images[..|images| - 1], round3)) + Joined(last.quantities, last.matches, round3)
  {
  }

  /** The `box_number` keys strictly increase along the numbered rows. */
  predicate IncreasingNumbers(es: seq<Entry>)
  {
    forall i, j :: 0 <= i < j < |es| ==> es[i].boxNumber < es[j].boxNumber
  }

  predicate SortedByNumber(es: seq<Entry>)
  {
    forall i, j :: 0 <= i < j < |es| ==> es[i].boxNumber <= es[j].boxNumber
  }

  /** `results.sort(key=box_number)` leaves rows with strictly increasing keys
      where they are: the only sorted rearrangement of them is themselves. */
  lemma {:induction false} SortKeepsOrder(es: seq<Entry>, sorted: seq<Entry>)
    requires IncreasingNumbers(es)
    requires multiset(sorted) == multiset(es) && SortedByNumber(sorted)
    ensures sorted == es
    decreases |es|
  {
    if es != [] {
      SameHead(es, sorted);
      TailMultiset(es);
      TailMultiset(sorted);
      SortKeepsOrder(es[1..], sorted[1..]);
      assert sorted == [sorted[0]] + sorted[1..];
      assert es == [es[0]] + es[1..];
    }
  }

  /** A sorted rearrangement of rows with increasing keys starts with the same row. */
  lemma SameHead(es: seq<Entry>, sorted: seq<Entry>)
    requires es != [] && IncreasingNumbers(es)
    requires multiset(sorted) == multiset(es) && SortedByNumber(sorted)
    ensures sorted != [] && sorted[0] == es[0]
  {
    assert es[0] in multiset(sorted);
    var a :| 0 <= a < |sorted| && sorted[a] == es[0];
    assert sorted[0] in multiset(es);
    var b :| 0 <= b < |es| && es[b] == sorted[0];
    assert es[b].boxNumber <= es[0].boxNumber;
  }

  lemma TailMultiset<T>(s: seq<T>)
    requires s != []
    ensures multiset(s[1..]) == multiset(s) - multiset{s[0]}
  {
    assert s == [s[0]] + s[1..];
  }

  // ---------------------------------------------------------------------------
  // The procedure

  /** The inner loop of `merge_and_calculate` over one image's quantity
      entries, numbering its rows from `start + 1`: the rows and the image
      total, or the first entry whose text `int()` rejects. */
  method JoinImage(image: ImageData, start: nat, round3: real -> real)
    returns (r: Result<(seq<Entry>, real), (nat, string)>)
    ensures r.Err? <==> BadEntry(image.quantities).Some?
    ensures r.Err? ==> r.error == BadEntry(image.quantities).value
    ensures r.Ok? ==>
      && BadEntry(image.quantities).None?
      && r.value.0 == Number(image.name, Joined(image.quantities, image.matches, round3), start)
      && r.value.1 == SumTotals(Joined(image.quantities, image.matches, round3))
  {
    var q := image.quantities;
    var imageResults: seq<Entry> := [];
    var imageTotal := 0.0;
    var globalBoxCount := start;
    var j := 0;
    while j < |q|
      invariant j <= |q| && BadEntry(q[..j]).None?
      invariant imageResults == Number(image.name, Joined(q[..j], image.matches, round3), start)
      invariant globalBoxCount == start + |imageResults|
      invariant imageTotal == SumTotals(Joined(q[..j], image.matches, round3))
    {
      var box := q[j].0;
      var text := q[j].1;
      if !IsDigitString(text) {
        BadEntryAt(q, j);
        return Err((box, text));
      }
      imageResults, imageTotal, globalBoxCount :=
        JoinEntry(q, j, image.matches, image.name, start, round3, imageResults, imageTotal, globalBoxCount);
      j := j + 1;
    }
    assert q[..j] == q;
    return Ok((imageResults, imageTotal));
  }

  /** One pass of the inner loop of `merge_and_calculate` over a digit entry:
      a matched box adds one numbered row and its total, an unmatched one nothing. */
  method JoinEntry(q: seq<(nat, string)>, j: nat, matches: map<nat, ItemMatch>, imageName: string, start: nat,
                   round3: real -> real, imageResults: seq<Entry>, imageTotal: real, globalBoxCount: nat)
    returns (results': seq<Entry>, total': real, count': nat)
    requires j < |q| && BadEntry(q[..j]).None? && IsDigitString(q[j].1)
    requires imageResults == Number(imageName, Joined(q[..j], matches, round3), start)
    requires imageTotal == SumTotals(Joined(q[..j], matches, round3))
    requires globalBoxCount == start + |imageResults|
    ensures BadEntry(q[..j + 1]).None?
    ensures results' == Number(imageName, Joined(q[..j + 1], matches, round3), start)
    ensures total' == SumTotals(Joined(q[..j + 1], matches, round3))
    ensures count' == start + |results'|
  {
    JoinedStep(q, j, matches, imageName, start, round3);
    results', total', count' := imageResults, imageTotal, globalBoxCount;
    var box := q[j].0;
    if box in matches {
      var row := MakeRow(q[j].1, matches[box], round3);
      count' := globalBoxCount + 1;
      results' := imageResults + [Entry(count', imageName, row)];
      total' := imageTotal + row.totalValue;
    }
  }

  /** The outer loop of `merge_and_calculate` up to the sort: numbered rows of
      all images and the running total, or the first `int()` failure. */
  method Collect(images: seq<ImageData>, round3: real -> real) returns (r: Result<(seq<Entry>, real), MergeError>)
    ensures r.Err? <==> FirstBad(images).Some?
    ensures r.Err? ==> r.error == FirstBad(images).value
    ensures r.Ok? ==> FirstBad(images).None? && r.value.0 == Flat(images, round3)
                      && r.value.1 == SumTotals(Rows(Flat(images, round3)))
  {
    var results: seq<Entry> := [];
    var total := 0.0;
    var i := 0;
    while i < |images|
      invariant i <= |images| && FirstBad(images[..i]).None?
      invariant results == Flat(images[..i], round3)
      invariant total == SumTotals(Rows(results))
    {
      var image := images[i];
      var joined := JoinImage(image, |results|, round3);
      if joined.Err? {
        var (box, text) := joined.error;
        FirstBadAt(images, i);
        return Err(BadQuantity(image.name, box, text));
      }
      var (imageResults, imageTotal) := joined.value;
      FlatStep(images, i, round3);
      TotalStep(results, imageResults, image.name, Joined(image.quantities, image.matches, round3));
      results := results + imageResults;
      total := total + imageTotal;
      i := i + 1;
    }
    assert images[..i] == images;
    return Ok((results, total));
  }

  /** One more image without a bad entry adds its numbered rows after the earlier ones. */
  lemma FlatStep(images: seq<ImageData>, i: nat, round3: real -> real)
    requires i < |images| && FirstBad(images[..i]).None? && BadEntry(images[i].quantities).None?
    ensures FirstBad(images[..i + 1]).None?
    ensures var before := Flat(images[..i], round3);
      Flat(images[..i + 1], round3)
        == before + Number(images[i].name, Joined(images[i].quantities, images[i].matches, round3), |before|)
  {
    var pre := images[..i + 1];
    assert pre[..|pre| - 1] == images[..i];
    assert pre[|pre| - 1] == images[i];
  }

  /** Appending the numbered rows of one image adds their line totals to the total. */
  lemma TotalStep(results: seq<Entry>, imageResults: seq<Entry>, imageName: string, rows: seq<Row>)
    requires imageResults == Number(imageName, rows, |results|)
    ensures SumTotals(Rows(results + imageResults)) == SumTotals(Rows(results)) + SumTotals(rows)
  {
    RowsNumber(imageName, rows, |results|);
    RowsAppend(results, imageResults);
    SumTotalsAppend(Rows(results), rows);
  }

  lemma RowsAppend(a: seq<Entry>, b: seq<Entry>)
    ensures Rows(a + b) == Rows(a) + Rows(b)
  {
    assert forall i :: 0 <= i < |a| + |b| ==> Rows(a + b)[i] == (Rows(a) + Rows(b))[i];
  }

  /** One more quantity entry with a digit string adds its numbered row when
      its box has a match, and its line total to the image total. */
  lemma JoinedStep(q: seq<(nat, string)>, j: nat, matches: map<nat, ItemMatch>, imageName: string, start: nat,
                   round3: real -> real)
    requires j < |q| && BadEntry(q[..j]).None? && IsDigitString(q[j].1)
    ensures BadEntry(q[..j + 1]).None?
    ensures q[j].0 in matches ==>
      var row := MakeRow(q[j].1, matches[q[j].0], round3);
      var done := Joined(q[..j], matches, round3);
      && Number(imageName, Joined(q[..j + 1], matches, round3), start)
           == Number(imageName, done, start) + [Entry(start + |done| + 1, imageName, row)]
      && SumTotals(Joined(q[..j + 1], matches, round3)) == SumTotals(done) + row.totalValue
    ensures q[j].0 !in matches ==> Joined(q[..j + 1], matches, round3) == Joined(q[..j], matches, round3)
  {
    var pre := q[..j + 1];
    assert pre[..|pre| - 1] == q[..j];
    assert pre[|pre| - 1] == q[j];
    var done := Joined(q[..j], matches, round3);
    if q[j].0 in matches {
      var row := MakeRow(q[j].1, matches[q[j].0], round3);
      assert Joined(pre, matches, round3) == done + [row];
      assert (done + [row])[..|done|] == done;
      NumberSnoc(imageName, done, row, start);
    } else {
      assert done + [] == done;
    }
  }

  lemma NumberSnoc(imageName: string, rows: seq<Row>, row: Row, start: nat)
    ensures Number(imageName, rows + [row], start) == Number(imageName, rows, start) + [Entry(start + |rows| + 1, imageName, row)]
  {
  }

  lemma RowsNumber(imageName: string, rows: seq<Row>, start: nat)
    ensures Rows(Number(imageName, rows, start)) == rows
  {
  }

  /** When image `i` is the first with a bad entry, its first bad entry is `FirstBad`. */
  lemma FirstBadAt(images: seq<ImageData>, i: nat)
    requires i < |images| && FirstBad(images[..i]).None?
    requires BadEntry(images[i].quantities).Some?
    ensures var e := BadEntry(images[i].quantities).value;
      FirstBad(images) == Some(BadQuantity(images[i].name, e.0, e.1))
  {
    var pre := images[..i + 1];
    assert pre[..|pre| - 1] == images[..i];
    assert pre[|pre| - 1] == images[i];
    var e := BadEntry(images[i].quantities).value;
    assert FirstBad(pre) == Some(BadQuantity(images[i].name, e.0, e.1));
    FirstBadPrefix(images, i + 1);
  }

  /** When entry `j` is the first bad one, it is what `BadEntry` reports. */
  lemma BadEntryAt(q: seq<(nat, string)>, j: nat)
    requires j < |q| && BadEntry(q[..j]).None? && !IsDigitString(q[j].1)
    ensures BadEntry(q) == Some(q[j])
  {
    assert q[..j + 1][..j] == q[..j];
    BadEntryPrefix(q, j + 1);
  }

  /** A bad entry found in a prefix is the bad entry of the whole list. */
  lemma {:induction false} BadEntryPrefix(q: seq<(nat, string)>, n: nat)
    requires n <= |q| && BadEntry(q[..n]).Some?
    ensures BadEntry(q) == BadEntry(q[..n])
    decreases |q| - n
  {
    if n < |q| {
      assert q[..n + 1][..n] == q[..n];
      BadEntryPrefix(q, n + 1);
    } else {
      assert q[..n] == q;
    }
  }

  lemma {:induction false} FirstBadPrefix(images: seq<ImageData>, n: nat)
    requires n <= |images| && FirstBad(images[..n]).Some?
    ensures FirstBad(images) == FirstBad(images[..n])
    decreases |images| - n
  {
    if n < |images| {
      assert images[..n + 1][..n] == images[..n];
      FirstBadPrefix(images, n + 1);
    } else {
      assert images[..n] == images;
    }
  }

  /** The final loop of `merge_and_calculate`: drop `box_number` and `image_name` from every row. */
  method StripKeys(es: seq<Entry>) returns (rows: seq<Row>)
    ensures |rows| == |es|
    ensures forall i :: 0 <= i < |es| ==> rows[i] == es[i].row
  {
    rows := [];
    for i := 0 to |es|
      invariant |rows| == i
      invariant forall k :: 0 <= k < i ==> rows[k] == es[k].row
    {
      rows := rows + [es[i].row];
    }
  }

  /** `merge_and_calculate`: the joined rows of all images in image-then-box
      order, without bookkeeping keys, and the sum of their line totals; or
      the first quantity text `int()` rejects. */
  method MergeAndCalculate(images: seq<ImageData>, round3: real -> real) returns (r: Result<Merged, MergeError>)
    ensures r.Err? <==> FirstBad(images).Some?
    ensures r.Err? ==> r.error == FirstBad(images).value
    ensures r.Ok? ==> FirstBad(images).None?
                      && r.value.rows == Rows(Flat(images, round3))
                      && r.value.total == SumTotals(r.value.rows)
  {
    var collected := Collect(images, round3);
    if collected.Err? {
      return Err(collected.error);
    }
    var (results, total) := collected.value;
    // The sort by `box_number` finds the rows already in order.
    FlatNumbering(images, round3);
    assert IncreasingNumbers(results);
    var rows := StripKeys(results);
    return Ok(Merged(rows, total));
  }

  /** Two images: box 2 of the first has no match and is skipped, and the
      numbering continues into the second image. */
  lemma MergeExample(round3: real -> real)
    ensures
      var a := ImageData("a.png", [(1, "3"), (2, "1")], map[1 := ItemMatch("Rose", 2.0)]);
      var b := ImageData("b.png", [(1, "12")], map[1 := ItemMatch("Tulip", 0.5)]);
      FirstBad([a, b]).None?
      && Flat([a, b], round3) == [Entry(1, "a.png", Row("Rose", 3, 2.0, round3(6.0))),
                                  Entry(2, "b.png", Row("Tulip", 12, 0.5, round3(6.0)))]
  {
    var a := ImageData("a.png", [(1, "3"), (2, "1")], map[1 := ItemMatch("Rose", 2.0)]);
    var b := ImageData("b.png", [(1, "12")], map[1 := ItemMatch("Tulip", 0.5)]);
    ExampleFirstImage(a, round3);
    ExampleSecondImage(b, round3);
    FlatTwo(a, b, round3);
  }

  /** Two clean images: the second image's numbering starts after the first image's rows. */
  lemma FlatTwo(a: ImageData, b: ImageData, round3: real -> real)
    requires BadEntry(a.quantities).None? && BadEntry(b.quantities).None?
    ensures FirstBad([a, b]).None?
    ensures var ra := Joined(a.quantities, a.matches, round3);
            Flat([a, b], round3) == Number(a.name, ra, 0) + Number(b.name, Joined(b.quantities, b.matches, round3), |ra|)
  {
    var two := [a, b];
    assert two[..0] == [] && two[0] == a && two[1] == b;
    FlatStep(two, 0, round3);
    assert Flat(two[..1], round3) == Number(a.name, Joined(a.quantities, a.matches, round3), 0);
    FlatStep(two, 1, round3);
    assert two[..2] == two;
  }

  lemma ExampleFirstImage(a: ImageData, round3: real -> real)
    requires a == ImageData("a.png", [(1, "3"), (2, "1")], map[1 := ItemMatch("Rose", 2.0)])
    ensures BadEntry(a.quantities).None?
    ensures Joined(a.quantities, a.matches, round3) == [Row("Rose", 3, 2.0, round3(6.0))]
  {
    var q := a.quantities;
    assert DigitsValue("3") == 3 by {
      assert "3"[..0] == [];
    }
    assert q[..1][..0] == q[..0];
    assert q[..1] == q[..|q| - 1];
    assert Joined(q[..1], a.matches, round3) == [Row("Rose", 3, 2.0, round3(6.0))];
  }

  lemma ExampleSecondImage(b: ImageData, round3: real -> real)
    requires b == ImageData("b.png", [(1, "12")], map[1 := ItemMatch("Tulip", 0.5)])
    ensures BadEntry(b.quantities).None?
    ensures Joined(b.quantities, b.matches, round3) == [Row("Tulip", 12, 0.5, round3(6.0))]
  {
    assert DigitsValue("12") == 12 by {
      assert "12"[..1] == "1";
      assert "1"[..0] == [];
    }
    assert b.quantities[..0] == [];
  }
}
