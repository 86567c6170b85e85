/**
 * The second half of `process_text_inventory` in backend/Text_Extract.py:
 * each box's text is matched against the catalogue and scored, every item
 * that is the best match of several boxes goes to its highest-scoring box,
 * and the other boxes are matched again against the items still unused.
 */
module Resolution {
  import opened Wrappers
  import opened Text
  import opened Matching

  /** A scored match: `{'name', 'value', 'score'}`. */
  datatype Candidate = Candidate(name: string, value: real, score: Score)

  /** What the first pass keeps for a box with at least one match: its
      number, its stripped text and its best match. */
  datatype BoxMatch = BoxMatch(box: nat, text: string, best: Candidate)

  /** The assignment being built: `final_matches` and `used_items`. */
  datatype Assignment = Assignment(final: map<nat, Candidate>, used: set<string>)

  // ---------------------------------------------------------------------------
  // The first pass

  /** Python's `max` by a key: the position of the first highest value. */
  function FirstMax(xs: seq<int>): (k: nat)
    requires xs != []
    ensures k < |xs|
  {
    if |xs| == 1 then 0
    else
      var prev := FirstMax(xs[..|xs| - 1]);
      if xs[|xs| - 1] > xs[prev] then |xs| - 1 else prev
  }

  lemma {:induction false} FirstMaxSpec(xs: seq<int>)
    requires xs != []
    ensures forall j :: 0 <= j < |xs| ==> xs[j] <= xs[FirstMax(xs)]
    ensures forall j :: 0 <= j < FirstMax(xs) ==> xs[j] < xs[FirstMax(xs)]
  {
    if |xs| > 1 {
      var init := xs[..|xs| - 1];
      FirstMaxSpec(init);
      assert forall j :: 0 <= j < |init| ==> init[j] == xs[j];
    }
  }

  function ScoresOf(cs: seq<Candidate>): (xs: seq<int>)
    ensures |xs| == |cs| && forall i :: 0 <= i < |cs| ==> xs[i] == cs[i].score
  {
    seq(|cs|, i requires 0 <= i < |cs| => cs[i].score)
  }

  /** The candidates of a box: each found item with the similarity of the
      lower-case box text and the lower-case item name. */
  function Scored(text: string, found: seq<Item>, ratio: Ratio): (cs: seq<Candidate>)
    ensures |cs| == |found|
    ensures forall i :: 0 <= i < |found| ==>
              cs[i] == Candidate(found[i].name, found[i].value, ratio(LowerStr(text), LowerStr(found[i].name)))
  {
    seq(|found|, i requires 0 <= i < |found| =>
      Candidate(found[i].name, found[i].value, ratio(LowerStr(text), LowerStr(found[i].name))))
  }

  /** The first pass for one box: nothing when its stripped text is empty or
      matches no item, else the first candidate with the highest score. */
  function Analyse(box: nat, combined: string, items: seq<Item>, ratio: Ratio): (r: Option<BoxMatch>)
    ensures r.Some? ==> r.value.box == box && r.value.text == Strip(combined) && r.value.text != []
  {
    var text := Strip(combined);
    if text == [] then None
    else
      var found := MatchAll([text], items, ratio, Threshold).0;
      if found == [] then None
      else
        var cs := Scored(text, found, ratio);
        Some(BoxMatch(box, text, cs[FirstMax(ScoresOf(cs))]))
  }

  /** The box's best match is one of the items `match_items` found for its
      text, with the highest score, and the first such. */
  lemma AnalyseBest(box: nat, combined: string, items: seq<Item>, ratio: Ratio)
    requires Analyse(box, combined, items, ratio).Some?
    ensures var m := Analyse(box, combined, items, ratio).value;
      var cs := Scored(m.text, MatchAll([m.text], items, ratio, Threshold).0, ratio);
      && Item(m.best.name, m.best.value) in items
      && m.best.score == ratio(LowerStr(m.text), LowerStr(m.best.name))
      && (forall c :: c in cs ==> c.score <= m.best.score)
  {
    var m := Analyse(box, combined, items, ratio).value;
    var found := MatchAll([m.text], items, ratio, Threshold).0;
    var cs := Scored(m.text, found, ratio);
    MatchAllGood([m.text], items, ratio, Threshold);
    FirstMaxSpec(ScoresOf(cs));
    var k := FirstMax(ScoresOf(cs));
    assert cs[k] == m.best;
    assert Item(m.best.name, m.best.value) == found[k];
  }

  /** The first-pass result of every box, box `i + 1` at position `i`. */
  function Analyses(combined: seq<string>, items: seq<Item>, ratio: Ratio): (os: seq<Option<BoxMatch>>)
    ensures |os| == |combined|
    ensures forall i :: 0 <= i < |combined| ==> os[i] == Analyse(i + 1, combined[i], items, ratio)
  {
    seq(|combined|, i requires 0 <= i < |combined| => Analyse(i + 1, combined[i], items, ratio))
  }

  /** The present results, in order. */
  function Present(os: seq<Option<BoxMatch>>): seq<BoxMatch>
  {
    if os == [] then []
    else Present(os[..|os| - 1]) + (if os[|os| - 1].Some? then [os[|os| - 1].value] else [])
  }

  lemma PresentStep(os: seq<Option<BoxMatch>>, i: nat)
    requires i < |os|
    ensures Present(os[..i + 1]) == Present(os[..i]) + (if os[i].Some? then [os[i].value] else [])
  {
    assert os[..i + 1][..i] == os[..i];
  }

  /** The entries `best_matches_per_box` and `all_matches` get, in box order. */
  function FirstPass(combined: seq<string>, items: seq<Item>, ratio: Ratio): seq<BoxMatch>
  {
    Present(Analyses(combined, items, ratio))
  }

  /** The result at position `i` is about box `i + 1`. */
  ghost predicate Numbered(os: seq<Option<BoxMatch>>)
  {
    forall i :: 0 <= i < |os| && os[i].Some? ==> os[i].value.box == i + 1
  }

  ghost predicate Increasing(ms: seq<BoxMatch>)
  {
    forall i, j :: 0 <= i < j < |ms| ==> ms[i].box < ms[j].box
  }

  lemma {:induction false} PresentSound(os: seq<Option<BoxMatch>>)
    requires Numbered(os)
    ensures var ms := Present(os);
      && Increasing(ms)
      && forall k :: 0 <= k < |ms| ==> 1 <= ms[k].box <= |os| && os[ms[k].box - 1] == Some(ms[k])
  {
    if os != [] {
      var n := |os| - 1;
      var init := os[..n];
      assert Numbered(init) by {
        forall i | 0 <= i < n && init[i].Some?
          ensures init[i].value.box == i + 1
        {
          assert init[i] == os[i];
        }
      }
      PresentSound(init);
      var p := Present(init);
      forall k | 0 <= k < |p|
        ensures os[p[k].box - 1] == init[p[k].box - 1]
      {
      }
    }
  }

  lemma {:induction false} PresentComplete(os: seq<Option<BoxMatch>>, i: nat)
    requires i < |os| && os[i].Some?
    ensures os[i].value in Present(os)
  {
    var n := |os| - 1;
    if i < n {
      assert os[..n][i] == os[i];
      PresentComplete(os[..n], i);
    }
  }

  /** The first pass lists boxes in increasing order, each within range and
      each with the result of analysing that box; and every box whose text
      matches some item is in it. */
  lemma FirstPassSpec(combined: seq<string>, items: seq<Item>, ratio: Ratio)
    ensures var pass := FirstPass(combined, items, ratio);
      var os := Analyses(combined, items, ratio);
      && Increasing(pass)
      && (forall k :: 0 <= k < |pass| ==> 1 <= pass[k].box <= |combined| && os[pass[k].box - 1] == Some(pass[k]))
      && (forall i :: 0 <= i < |combined| && os[i].Some? ==> os[i].value in pass)
  {
    var os := Analyses(combined, items, ratio);
    AnalysesNumbered(combined, items, ratio);
    PresentSound(os);
    forall i | 0 <= i < |os| && os[i].Some?
      ensures os[i].value in Present(os)
    {
      PresentComplete(os, i);
    }
  }

  lemma AnalysesNumbered(combined: seq<string>, items: seq<Item>, ratio: Ratio)
    ensures Numbered(Analyses(combined, items, ratio))
  {
    var os := Analyses(combined, items, ratio);
    forall i | 0 <= i < |os| && os[i].Some?
      ensures os[i].value.box == i + 1
    {
      assert os[i] == Analyse(i + 1, combined[i], items, ratio);
    }
  }

  /** Two entries of the first pass with the same box are the same entry. */
  lemma OneEntryPerBox(pass: seq<BoxMatch>, m: BoxMatch, m': BoxMatch)
    requires Increasing(pass) && m in pass && m' in pass && m.box == m'.box
    ensures m == m'
  {
    var i :| 0 <= i < |pass| && pass[i] == m;
    var j :| 0 <= j < |pass| && pass[j] == m';
    assert i == j;
  }

  // ---------------------------------------------------------------------------
  // Which boxes claim which item

  /** `items_to_boxes[name]`: the entries whose best match is `name`, in box order. */
  function Claims(pass: seq<BoxMatch>, name: string): seq<BoxMatch>
  {
    if pass == [] then []
    else
      var last := pass[|pass| - 1];
      Claims(pass[..|pass| - 1], name) + (if last.best.name == name then [last] else [])
  }

  lemma {:induction false} ClaimsExact(pass: seq<BoxMatch>, name: string, m: BoxMatch)
    ensures m in Claims(pass, name) <==> m in pass && m.best.name == name
  {
    if pass != [] {
      var init := pass[..|pass| - 1];
      ClaimsExact(init, name, m);
      assert pass == init + [pass[|pass| - 1]];
    }
  }

  lemma {:induction false} ClaimsIncreasing(pass: seq<BoxMatch>, name: string)
    requires Increasing(pass)
    ensures Increasing(Claims(pass, name))
  {
    if pass != [] {
      var init := pass[..|pass| - 1];
      var last := pass[|pass| - 1];
      ClaimsIncreasing(init, name);
      var c := Claims(init, name);
      forall i | 0 <= i < |c|
        ensures c[i].box < last.box
      {
        ClaimsExact(init, name, c[i]);
        var k :| 0 <= k < |init| && init[k] == c[i];
        assert pass[k] == c[i];
      }
    }
  }

  /** An item is a duplicate when it is the best match of more than one box. */
  predicate Duplicated(pass: seq<BoxMatch>, name: string)
  {
    |Claims(pass, name)| > 1
  }

  /** The keys of `items_to_boxes` in insertion order: best-match names in
      order of first appearance. */
  function Names(pass: seq<BoxMatch>): seq<string>
  {
    if pass == [] then []
    else
      var ns := Names(pass[..|pass| - 1]);
      var name := pass[|pass| - 1].best.name;
      if name in ns then ns else ns + [name]
  }

  ghost predicate Distinct(ns: seq<string>)
  {
    forall i, j :: 0 <= i < j < |ns| ==> ns[i] != ns[j]
  }

  lemma {:induction false} NamesSpec(pass: seq<BoxMatch>)
    ensures Distinct(Names(pass))
    ensures forall name :: name in Names(pass) <==> Claims(pass, name) != []
  {
    if pass != [] {
      NamesSpec(pass[..|pass| - 1]);
    }
  }

  /** `duplicate_items`, in the key order of `items_to_boxes`. */
  function DuplicateNames(pass: seq<BoxMatch>): seq<string>
  {
    Keep((name: string) => Duplicated(pass, name), Names(pass))
  }

  lemma {:induction false} KeepDistinct(p: string -> bool, ns: seq<string>)
    requires Distinct(ns)
    ensures Distinct(Keep(p, ns))
  {
    if ns != [] {
      KeepDistinct(p, ns[1..]);
      var rest := Keep(p, ns[1..]);
      if p(ns[0]) {
        forall j | 0 <= j < |rest|
          ensures rest[j] != ns[0]
        {
          KeepSound(p, ns[1..], rest[j]);
        }
      }
    }
  }

  /** The duplicate names are distinct, and they are exactly the duplicated items. */
  lemma DuplicateNamesSpec(pass: seq<BoxMatch>)
    ensures Distinct(DuplicateNames(pass))
    ensures forall name :: name in DuplicateNames(pass) <==> Duplicated(pass, name)
  {
    var p := (name: string) => Duplicated(pass, name);
    NamesSpec(pass);
    KeepDistinct(p, Names(pass));
    forall name
      ensures name in DuplicateNames(pass) <==> Duplicated(pass, name)
    {
      if name in DuplicateNames(pass) {
        KeepSound(p, Names(pass), name);
      }
      if Duplicated(pass, name) {
        KeepComplete(p, Names(pass), name);
      }
    }
  }

  /** A name of `duplicate_items` is a key of `items_to_boxes` with more than one box. */
  lemma DuplicateClaimed(pass: seq<BoxMatch>, name: string)
    requires name in DuplicateNames(pass)
    ensures name in Names(pass) && |Claims(pass, name)| > 1
  {
    KeepSound((n: string) => Duplicated(pass, n), Names(pass), name);
  }

  // ---------------------------------------------------------------------------
  // The stable sort by descending score

  /** Places `m` after every entry scoring at least as much as it. */
  function Insert(m: BoxMatch, sorted: seq<BoxMatch>): (r: seq<BoxMatch>)
    ensures |r| == |sorted| + 1
    ensures multiset(r) == multiset(sorted) + multiset{m}
  {
    if sorted == [] then [m]
    else if sorted[0].best.score >= m.best.score then
      assert sorted == [sorted[0]] + sorted[1..];
      [sorted[0]] + Insert(m, sorted[1..])
    else [m] + sorted
  }

  lemma InsertHead(m: BoxMatch, sorted: seq<BoxMatch>)
    requires sorted != []
    ensures Insert(m, sorted)[0] == if sorted[0].best.score >= m.best.score then sorted[0] else m
  {
  }

  /** `box_matches.sort(key=score, reverse=True)`: highest score first, and
      entries with equal scores keep their order. */
  function SortByScore(ms: seq<BoxMatch>): (r: seq<BoxMatch>)
    ensures |r| == |ms|
    ensures multiset(r) == multiset(ms)
  {
    if ms == [] then []
    else
      assert ms == ms[..|ms| - 1] + [ms[|ms| - 1]];
      Insert(ms[|ms| - 1], SortByScore(ms[..|ms| - 1]))
  }

  ghost predicate Descending(ms: seq<BoxMatch>)
  {
    forall i, j :: 0 <= i < j < |ms| ==> ms[i].best.score >= ms[j].best.score
  }

  lemma {:induction false} InsertDescending(m: BoxMatch, sorted: seq<BoxMatch>)
    requires Descending(sorted)
    ensures Descending(Insert(m, sorted))
  {
    if sorted != [] && sorted[0].best.score >= m.best.score {
      InsertDescending(m, sorted[1..]);
      var rest := Insert(m, sorted[1..]);
      forall j | 0 <= j < |rest|
        ensures sorted[0].best.score >= rest[j].best.score
      {
        assert rest[j] in multiset(rest);
        assert rest[j] in multiset(sorted[1..]) || rest[j] == m;
        if rest[j] != m {
          var k :| 0 <= k < |sorted[1..]| && sorted[1..][k] == rest[j];
          assert sorted[k + 1] == rest[j];
        }
      }
    }
  }

  /** The sorted list is in descending score order and is a permutation of the input. */
  lemma {:induction false} SortDescending(ms: seq<BoxMatch>)
    ensures Descending(SortByScore(ms))
    ensures multiset(SortByScore(ms)) == multiset(ms)
  {
    if ms != [] {
      SortDescending(ms[..|ms| - 1]);
      InsertDescending(ms[|ms| - 1], SortByScore(ms[..|ms| - 1]));
    }
  }

  function BoxScores(ms: seq<BoxMatch>): (xs: seq<int>)
    ensures |xs| == |ms| && forall i :: 0 <= i < |ms| ==> xs[i] == ms[i].best.score
  {
    seq(|ms|, i requires 0 <= i < |ms| => ms[i].best.score)
  }

  /** Because the sort is stable, its first entry is the first entry with the
      highest score: ties go to the earliest box. */
  lemma {:induction false} SortHead(ms: seq<BoxMatch>)
    requires ms != []
    ensures SortByScore(ms)[0] == ms[FirstMax(BoxScores(ms))]
  {
    if |ms| > 1 {
      var init := ms[..|ms| - 1];
      var xs := BoxScores(ms);
      SortHead(init);
      assert xs[..|ms| - 1] == BoxScores(init);
      var p := FirstMax(BoxScores(init));
      assert SortByScore(init)[0] == ms[p] && xs[p] == ms[p].best.score;
      InsertHead(ms[|ms| - 1], SortByScore(init));
    }
  }

  ghost predicate DistinctBoxes(ms: seq<BoxMatch>)
  {
    forall i, j :: 0 <= i < j < |ms| ==> ms[i].box != ms[j].box
  }

  lemma {:induction false} InsertDistinct(m: BoxMatch, sorted: seq<BoxMatch>)
    requires DistinctBoxes(sorted) && forall k :: 0 <= k < |sorted| ==> sorted[k].box != m.box
    ensures DistinctBoxes(Insert(m, sorted))
  {
    if sorted != [] && sorted[0].best.score >= m.best.score {
      InsertDistinct(m, sorted[1..]);
      var rest := Insert(m, sorted[1..]);
      forall j | 0 <= j < |rest|
        ensures sorted[0].box != rest[j].box
      {
        assert rest[j] in multiset(rest);
        if rest[j] != m {
          assert rest[j] in multiset(sorted[1..]);
          var k :| 0 <= k < |sorted[1..]| && sorted[1..][k] == rest[j];
          assert sorted[k + 1] == rest[j];
        }
      }
    }
  }

  lemma {:induction false} SortDistinct(ms: seq<BoxMatch>)
    requires DistinctBoxes(ms)
    ensures DistinctBoxes(SortByScore(ms))
  {
    if ms != [] {
      var init := ms[..|ms| - 1];
      SortDistinct(init);
      var s := SortByScore(init);
      forall k | 0 <= k < |s|
        ensures s[k].box != ms[|ms| - 1].box
      {
        assert s[k] in multiset(init);
        var i :| 0 <= i < |init| && init[i] == s[k];
        assert ms[i] == s[k];
      }
      InsertDistinct(ms[|ms| - 1], s);
    }
  }

  // ---------------------------------------------------------------------------
  // The assignment

  /** The first assignment loop over `ms` (entries of `pass`): an entry
      whose item is not a duplicate keeps its best match. */
  function AssignUnique(duplicates: seq<string>, ms: seq<BoxMatch>): Assignment
  {
    if ms == [] then Assignment(map[], {})
    else
      var prev := AssignUnique(duplicates, ms[..|ms| - 1]);
      var m := ms[|ms| - 1];
      if m.best.name in duplicates then prev
      else Assignment(prev.final[m.box := m.best], prev.used + {m.best.name})
  }

  /** The match a losing box gets: the first item `match_items` returns for
      its text among the catalogue entries not in `used`, scored against the
      lower-case text. */
  function Pick(used: set<string>, text: string, items: seq<Item>, ratio: Ratio): (r: Option<Candidate>)
    ensures r.Some? ==> FromUnused(r.value, used, items)
  {
    var p := (it: Item) => it.name !in used;
    var available := Keep(p, items);
    var found := MatchAll([text], available, ratio, Threshold).0;
    if found == [] then None
    else
      MatchAllGood([text], available, ratio, Threshold);
      assert found[0] in available;
      KeepSound(p, items, found[0]);
      Some(Candidate(found[0].name, found[0].value, ratio(LowerStr(text), LowerStr(found[0].name))))
  }

  /** How a losing box is rematched, given the used names and its text. */
  type Picker = (set<string>, string) -> Option<Candidate>

  /** The pick is always an unused catalogue entry. */
  ghost predicate PicksUnused(pick: Picker, items: seq<Item>)
  {
    forall used, text :: pick(used, text).Some? ==> FromUnused(pick(used, text).value, used, items)
  }

  /** Rematching one losing box: when something is picked, the box gets it
      and its name becomes used. */
  function Rematch(st: Assignment, m: BoxMatch, pick: Picker): Assignment
  {
    match pick(st.used, m.text)
    case None => st
    case Some(c) => Assignment(st.final[m.box := c], st.used + {c.name})
  }

  function RematchAll(st: Assignment, losers: seq<BoxMatch>, pick: Picker): Assignment
  {
    if losers == [] then st
    else Rematch(RematchAll(st, losers[..|losers| - 1], pick), losers[|losers| - 1], pick)
  }

  /** The box that keeps a duplicated item: the first of the sorted claims. */
  function Winner(pass: seq<BoxMatch>, name: string): BoxMatch
    requires Claims(pass, name) != []
  {
    SortByScore(Claims(pass, name))[0]
  }

  /** Resolving one duplicated item: its best box keeps it, the others are rematched. */
  function ResolveOne(st: Assignment, pass: seq<BoxMatch>, name: string, pick: Picker): Assignment
  {
    var sorted := SortByScore(Claims(pass, name));
    if sorted == [] then st
    else
      var w := sorted[0];
      RematchAll(Assignment(st.final[w.box := w.best], st.used + {name}), sorted[1..], pick)
  }

  function ResolveAll(st: Assignment, pass: seq<BoxMatch>, names: seq<string>, pick: Picker): Assignment
  {
    if names == [] then st
    else ResolveOne(ResolveAll(st, pass, names[..|names| - 1], pick), pass, names[|names| - 1], pick)
  }

  lemma ResolveAllStep(st: Assignment, pass: seq<BoxMatch>, names: seq<string>, d: nat, pick: Picker)
    requires d < |names|
    ensures ResolveAll(st, pass, names[..d + 1], pick) == ResolveOne(ResolveAll(st, pass, names[..d], pick), pass, names[d], pick)
  {
    assert names[..d + 1][..d] == names[..d];
  }

  /** The rematching of `process_text_inventory`: `Pick` over the catalogue with `fuzz.ratio`. */
  function PickerFor(items: seq<Item>, ratio: Ratio): Picker
  {
    (used: set<string>, text: string) => Pick(used, text, items, ratio)
  }

  /** The final matches once the first pass `pass` is resolved with `pick`. */
  function Resolved(pass: seq<BoxMatch>, pick: Picker): map<nat, Candidate>
  {
    ResolveAll(AssignUnique(DuplicateNames(pass), pass), pass, DuplicateNames(pass), pick).final
  }

  /** `final_matches` for the combined texts of boxes `1 .. |combined|`. */
  function FinalMatches(combined: seq<string>, items: seq<Item>, ratio: Ratio): map<nat, Candidate>
  {
    Resolved(FirstPass(combined, items, ratio), PickerFor(items, ratio))
  }

  // ---------------------------------------------------------------------------
  // What the assignment guarantees

  function BoxesOf(ms: seq<BoxMatch>): set<nat>
  {
    set m | m in ms :: m.box
  }

  /** The names of the items that are the best match of exactly one box. */
  function UniqueNames(pass: seq<BoxMatch>): set<string>
  {
    set m | m in pass && !Duplicated(pass, m.best.name) :: m.best.name
  }

  /** A match taken from the catalogue, with its value, among items not in `used`. */
  predicate FromUnused(c: Candidate, used: set<string>, items: seq<Item>)
  {
    c.name !in used && Item(c.name, c.value) in items
  }

  lemma {:induction false} AssignUniqueSpec(duplicates: seq<string>, ms: seq<BoxMatch>)
    requires Increasing(ms)
    ensures var r := AssignUnique(duplicates, ms);
      && (forall b :: b in r.final ==> b in BoxesOf(ms))
      && (forall m :: m in ms && m.best.name !in duplicates ==>
            m.box in r.final && r.final[m.box] == m.best && m.best.name in r.used)
      && (forall m :: m in ms && m.best.name in duplicates ==> m.box !in r.final)
  {
    if ms != [] {
      var init := ms[..|ms| - 1];
      var last := ms[|ms| - 1];
      IncreasingInit(ms);
      AssignUniqueSpec(duplicates, init);
      AssignUniqueStep(duplicates, init, last);
      assert ms == init + [last];
    }
  }

  lemma IncreasingInit(ms: seq<BoxMatch>)
    requires ms != [] && Increasing(ms)
    ensures Increasing(ms[..|ms| - 1])
    ensures forall m :: m in ms[..|ms| - 1] ==> m.box < ms[|ms| - 1].box
  {
    var init := ms[..|ms| - 1];
    forall m | m in init
      ensures m.box < ms[|ms| - 1].box
    {
      var k :| 0 <= k < |init| && init[k] == m;
      assert ms[k] == m;
    }
  }

  /** One more entry, with a box above all earlier ones, keeps what
      `AssignUniqueSpec` states. */
  lemma AssignUniqueStep(duplicates: seq<string>, init: seq<BoxMatch>, last: BoxMatch)
    requires forall m :: m in init ==> m.box < last.box
    requires var prev := AssignUnique(duplicates, init);
      && (forall b :: b in prev.final ==> b in BoxesOf(init))
      && (forall m :: m in init && m.best.name !in duplicates ==>
            m.box in prev.final && prev.final[m.box] == m.best && m.best.name in prev.used)
      && (forall m :: m in init && m.best.name in duplicates ==> m.box !in prev.final)
    ensures var r := AssignUnique(duplicates, init + [last]);
      && (forall b :: b in r.final ==> b in BoxesOf(init + [last]))
      && (forall m :: m in init + [last] && m.best.name !in duplicates ==>
            m.box in r.final && r.final[m.box] == m.best && m.best.name in r.used)
      && (forall m :: m in init + [last] && m.best.name in duplicates ==> m.box !in r.final)
  {
    var ms := init + [last];
    assert ms[..|ms| - 1] == init;
    var prev := AssignUnique(duplicates, init);
    assert last.box !in BoxesOf(init);
  }

  /** Rematching one box: nothing changes when the pick finds nothing;
      otherwise the box holds the pick and its name is used. */
  lemma RematchSpec(st: Assignment, m: BoxMatch, pick: Picker, items: seq<Item>)
    requires PicksUnused(pick, items)
    ensures var p := pick(st.used, m.text);
      && (p.None? ==> Rematch(st, m, pick) == st)
      && (p.Some? ==> m.box in Rematch(st, m, pick).final && Rematch(st, m, pick).final[m.box] == p.value
                      && Rematch(st, m, pick).used == st.used + {p.value.name})
    ensures var r := Rematch(st, m, pick);
      && st.used <= r.used
      && (forall b :: b != m.box ==> (b in r.final <==> b in st.final) && (b in st.final ==> r.final[b] == st.final[b]))
      && (m.box in r.final && m.box !in st.final ==> FromUnused(r.final[m.box], st.used, items))
  {
  }

  lemma {:induction false} RematchAllUsed(st: Assignment, losers: seq<BoxMatch>, pick: Picker, items: seq<Item>)
    requires PicksUnused(pick, items)
    ensures st.used <= RematchAll(st, losers, pick).used
  {
    if losers != [] {
      var init := losers[..|losers| - 1];
      RematchAllUsed(st, init, pick, items);
      RematchSpec(RematchAll(st, init, pick), losers[|losers| - 1], pick, items);
    }
  }

  lemma {:induction false} RematchAllFrame(st: Assignment, losers: seq<BoxMatch>, pick: Picker, items: seq<Item>, b: nat)
    requires PicksUnused(pick, items)
    requires forall l :: l in losers ==> l.box != b
    ensures var r := RematchAll(st, losers, pick);
      (b in r.final <==> b in st.final) && (b in st.final ==> r.final[b] == st.final[b])
  {
    if losers != [] {
      var init := losers[..|losers| - 1];
      var last := losers[|losers| - 1];
      assert last in losers;
      assert forall l :: l in init ==> l in losers;
      RematchAllFrame(st, init, pick, items, b);
      RematchSpec(RematchAll(st, init, pick), last, pick, items);
    }
  }

  lemma {:induction false} RematchAllFresh(st: Assignment, losers: seq<BoxMatch>, pick: Picker, items: seq<Item>, k: nat)
    requires PicksUnused(pick, items)
    requires DistinctBoxes(losers) && k < |losers|
    requires losers[k].box !in st.final
    ensures var r := RematchAll(st, losers, pick);
      losers[k].box in r.final ==> FromUnused(r.final[losers[k].box], st.used, items)
  {
    var n := |losers| - 1;
    var init := losers[..n];
    var last := losers[n];
    var prev := RematchAll(st, init, pick);
    if k < n {
      DistinctPrefix(losers, n);
      assert init[k] == losers[k];
      RematchAllFresh(st, init, pick, items, k);
      assert losers[k].box != last.box;
      RematchSpec(prev, last, pick, items);
    } else {
      LastBoxNew(losers);
      RematchAllFrame(st, init, pick, items, last.box);
      RematchAllUsed(st, init, pick, items);
      RematchSpec(prev, last, pick, items);
    }
  }

  lemma LastBoxNew(ms: seq<BoxMatch>)
    requires DistinctBoxes(ms) && ms != []
    ensures forall l :: l in ms[..|ms| - 1] ==> l.box != ms[|ms| - 1].box
  {
    forall l | l in ms[..|ms| - 1]
      ensures l.box != ms[|ms| - 1].box
    {
      var j :| 0 <= j < |ms| - 1 && ms[..|ms| - 1][j] == l;
      assert ms[j] == l;
    }
  }

  /** Rematching touches only the losers' boxes, only adds used names, and a
      loser that had nothing gets an item that was unused. */
  lemma RematchAllSpec(st: Assignment, losers: seq<BoxMatch>, pick: Picker, items: seq<Item>)
    requires PicksUnused(pick, items) && DistinctBoxes(losers)
    ensures var r := RematchAll(st, losers, pick);
      && st.used <= r.used
      && (forall b :: b !in BoxesOf(losers) ==>
            (b in r.final <==> b in st.final) && (b in st.final ==> r.final[b] == st.final[b]))
      && (forall l :: l in losers && l.box !in st.final && l.box in r.final ==> FromUnused(r.final[l.box], st.used, items))
  {
    RematchAllUsed(st, losers, pick, items);
    forall b | b !in BoxesOf(losers)
      ensures var r := RematchAll(st, losers, pick);
        (b in r.final <==> b in st.final) && (b in st.final ==> r.final[b] == st.final[b])
    {
      RematchAllFrame(st, losers, pick, items, b);
    }
    forall l | l in losers && l.box !in st.final
      ensures var r := RematchAll(st, losers, pick);
        l.box in r.final ==> FromUnused(r.final[l.box], st.used, items)
    {
      var k :| 0 <= k < |losers| && losers[k] == l;
      RematchAllFresh(st, losers, pick, items, k);
    }
  }

  lemma DistinctPrefix(ms: seq<BoxMatch>, n: nat)
    requires DistinctBoxes(ms) && n <= |ms|
    ensures DistinctBoxes(ms[..n])
  {
    forall i, j | 0 <= i < j < n
      ensures ms[..n][i].box != ms[..n][j].box
    {
      assert ms[..n][i] == ms[i] && ms[..n][j] == ms[j];
    }
  }

  /** The `k`-th loser is rematched with the names used after the losers
      before it: it ends up holding exactly that pick, or nothing when the
      pick finds nothing. */
  lemma {:induction false} RematchAllTurn(st: Assignment, losers: seq<BoxMatch>, pick: Picker, items: seq<Item>, k: nat)
    requires PicksUnused(pick, items)
    requires DistinctBoxes(losers) && k < |losers| && losers[k].box !in st.final
    ensures var p := pick(RematchAll(st, losers[..k], pick).used, losers[k].text);
      var r := RematchAll(st, losers, pick);
      (losers[k].box in r.final <==> p.Some?) && (p.Some? ==> r.final[losers[k].box] == p.value)
  {
    var n := |losers| - 1;
    var init := losers[..n];
    var last := losers[n];
    var prev := RematchAll(st, init, pick);
    if k < n {
      DistinctPrefix(losers, n);
      assert init[k] == losers[k] && init[..k] == losers[..k];
      RematchAllTurn(st, init, pick, items, k);
      assert losers[k].box != last.box;
      RematchSpec(prev, last, pick, items);
    } else {
      assert losers[..k] == init;
      LastBoxNew(losers);
      RematchAllFrame(st, init, pick, items, last.box);
      RematchSpec(prev, last, pick, items);
    }
  }

  /** The used names when the `k`-th sorted claim of `name` is rematched,
      resolving `name` from `st`: the names used before, the item itself,
      and the picks of the claims sorted before it. */
  function TurnUsed(st: Assignment, pass: seq<BoxMatch>, name: string, pick: Picker, k: nat): set<string>
    requires 1 <= k < |SortByScore(Claims(pass, name))|
  {
    var sorted := SortByScore(Claims(pass, name));
    var w := sorted[0];
    RematchAll(Assignment(st.final[w.box := w.best], st.used + {name}), sorted[1..k], pick).used
  }

  /** The `k`-th sorted claim of `name`, a loser, holds what `pick` returned
      for its text at its turn, and nothing when that was nothing. */
  ghost predicate LoserRematched(final: map<nat, Candidate>, st: Assignment, pass: seq<BoxMatch>, name: string,
                                 pick: Picker, k: nat)
  {
    var sorted := SortByScore(Claims(pass, name));
    && 1 <= k < |sorted|
    && var l := sorted[k];
    && var p := pick(TurnUsed(st, pass, name, pick, k), l.text);
    && (l.box in final <==> p.Some?)
    && (p.Some? ==> final[l.box] == p.value)
  }

  /** `LoserRematched` only looks at the loser's own box. */
  lemma LoserRematchedFrame(final: map<nat, Candidate>, final': map<nat, Candidate>, st: Assignment, pass: seq<BoxMatch>,
                            name: string, pick: Picker, k: nat)
    requires LoserRematched(final, st, pass, name, pick, k)
    requires var b := SortByScore(Claims(pass, name))[k].box;
      (b in final' <==> b in final) && (b in final ==> final'[b] == final[b])
    ensures LoserRematched(final', st, pass, name, pick, k)
  {
  }

  /** Where a box of the first pass stands once the items in `done` are resolved. */
  ghost predicate Settled(st: Assignment, pass: seq<BoxMatch>, m: BoxMatch, items: seq<Item>)
  {
    && Claims(pass, m.best.name) != []
    && (if m == Winner(pass, m.best.name) then m.box in st.final && st.final[m.box] == m.best
        else m.box in st.final ==> FromUnused(st.final[m.box], UniqueNames(pass) + {m.best.name}, items))
  }

  /** The invariant of the duplicate loop after resolving the items in `done`. */
  ghost predicate Inv(st: Assignment, pass: seq<BoxMatch>, done: seq<string>, items: seq<Item>)
  {
    && (forall b :: b in st.final ==> b in BoxesOf(pass))
    && (forall m :: m in pass && !Duplicated(pass, m.best.name) ==>
          m.box in st.final && st.final[m.box] == m.best && m.best.name in st.used)
    && (forall m :: m in pass && Duplicated(pass, m.best.name) && m.best.name !in done ==> m.box !in st.final)
    && (forall m :: m in pass && Duplicated(pass, m.best.name) && m.best.name in done ==> Settled(st, pass, m, items))
  }

  lemma InitialInv(pass: seq<BoxMatch>, items: seq<Item>)
    requires Increasing(pass)
    ensures Inv(AssignUnique(DuplicateNames(pass), pass), pass, [], items)
  {
    AssignUniqueSpec(DuplicateNames(pass), pass);
    DuplicateNamesSpec(pass);
  }

  /** The sorted claims of a duplicated item: entries of the first pass with
      that best match, at distinct boxes. */
  lemma SortedClaims(pass: seq<BoxMatch>, name: string)
    requires Increasing(pass)
    ensures var sorted := SortByScore(Claims(pass, name));
      && DistinctBoxes(sorted)
      && (forall c :: c in sorted <==> c in pass && c.best.name == name)
  {
    var cs := Claims(pass, name);
    ClaimsIncreasing(pass, name);
    SortDistinct(cs);
    var sorted := SortByScore(cs);
    forall c
      ensures c in sorted <==> c in pass && c.best.name == name
    {
      ClaimsExact(pass, name, c);
      assert c in sorted <==> c in multiset(sorted);
      assert c in cs <==> c in multiset(cs);
    }
  }

  /** A box outside the claims of `name` is not touched by resolving `name`. */
  lemma OutsideClaims(pass: seq<BoxMatch>, name: string, m: BoxMatch)
    requires Increasing(pass) && m in pass && m.best.name != name
    ensures m.box !in BoxesOf(SortByScore(Claims(pass, name)))
  {
    SortedClaims(pass, name);
    var sorted := SortByScore(Claims(pass, name));
    if m.box in BoxesOf(sorted) {
      var c :| c in sorted && c.box == m.box;
      OneEntryPerBox(pass, c, m);
    }
  }

  /** How resolving the duplicated item `name` takes `st` to `r`: the name
      becomes used, the winner gets its best match, boxes outside the claims
      keep what they had, and a losing box that had nothing gets an unused
      catalogue entry or nothing. */
  ghost predicate OneResolved(st: Assignment, r: Assignment, pass: seq<BoxMatch>, name: string, items: seq<Item>)
  {
    var sorted := SortByScore(Claims(pass, name));
    && Claims(pass, name) != []
    && var w := Winner(pass, name);
    && st.used + {name} <= r.used
    && w.box in r.final && r.final[w.box] == w.best
    && (forall b :: b !in BoxesOf(sorted) ==>
          (b in r.final <==> b in st.final) && (b in st.final ==> r.final[b] == st.final[b]))
    && (forall l :: l in sorted && l != w && l.box !in st.final && l.box in r.final ==>
          FromUnused(r.final[l.box], st.used + {name}, items))
  }

  lemma ResolveOneShape(st: Assignment, pass: seq<BoxMatch>, name: string, pick: Picker, items: seq<Item>)
    requires PicksUnused(pick, items)
    requires Increasing(pass) && Duplicated(pass, name)
    ensures OneResolved(st, ResolveOne(st, pass, name, pick), pass, name, items)
  {
    var sorted := SortByScore(Claims(pass, name));
    SortedClaims(pass, name);
    WinnerThenLosers(st, sorted, name, pick, items);
  }

  /** The winner `sorted[0]` takes the item, then the others are rematched. */
  lemma WinnerThenLosers(st: Assignment, sorted: seq<BoxMatch>, name: string, pick: Picker, items: seq<Item>)
    requires PicksUnused(pick, items) && sorted != [] && DistinctBoxes(sorted)
    ensures var w := sorted[0];
      var r := RematchAll(Assignment(st.final[w.box := w.best], st.used + {name}), sorted[1..], pick);
      && st.used + {name} <= r.used
      && w.box in r.final && r.final[w.box] == w.best
      && (forall b :: b !in BoxesOf(sorted) ==>
            (b in r.final <==> b in st.final) && (b in st.final ==> r.final[b] == st.final[b]))
      && (forall l :: l in sorted && l != w && l.box !in st.final && l.box in r.final ==>
            FromUnused(r.final[l.box], st.used + {name}, items))
  {
    var w := sorted[0];
    var losers := sorted[1..];
    var st1 := Assignment(st.final[w.box := w.best], st.used + {name});
    HeadAndRest(sorted);
    RematchAllSpec(st1, losers, pick, items);
  }

  lemma HeadAndRest(sorted: seq<BoxMatch>)
    requires sorted != [] && DistinctBoxes(sorted)
    ensures DistinctBoxes(sorted[1..])
    ensures sorted[0].box !in BoxesOf(sorted[1..])
    ensures forall l :: l in sorted && l != sorted[0] ==> l in sorted[1..] && l.box != sorted[0].box
    ensures forall b :: b !in BoxesOf(sorted) ==> b !in BoxesOf(sorted[1..]) && b != sorted[0].box
  {
    var losers := sorted[1..];
    forall i, j | 0 <= i < j < |losers|
      ensures losers[i].box != losers[j].box
    {
      assert losers[i] == sorted[i + 1] && losers[j] == sorted[j + 1];
    }
    forall l | l in losers
      ensures l.box != sorted[0].box
    {
      var k :| 0 <= k < |losers| && losers[k] == l;
      assert sorted[k + 1] == l;
    }
    forall l | l in sorted && l != sorted[0]
      ensures l in losers
    {
      var k :| 0 <= k < |sorted| && sorted[k] == l;
      assert losers[k - 1] == l;
    }
  }

  /** Resolving `name` rematches its `k`-th sorted claim as `LoserRematched` says. */
  lemma ResolveOneLoser(st: Assignment, pass: seq<BoxMatch>, name: string, pick: Picker, items: seq<Item>, k: nat)
    requires PicksUnused(pick, items) && Increasing(pass)
    requires 1 <= k < |SortByScore(Claims(pass, name))|
    requires SortByScore(Claims(pass, name))[k].box !in st.final
    ensures LoserRematched(ResolveOne(st, pass, name, pick).final, st, pass, name, pick, k)
  {
    var sorted := SortByScore(Claims(pass, name));
    SortedClaims(pass, name);
    HeadAndRest(sorted);
    var w := sorted[0];
    var losers := sorted[1..];
    var st1 := Assignment(st.final[w.box := w.best], st.used + {name});
    assert sorted[k].box != w.box;
    TailSlice(sorted, k);
    RematchAllTurn(st1, losers, pick, items, k - 1);
  }

  lemma TailSlice<T>(s: seq<T>, k: nat)
    requires 1 <= k < |s|
    ensures s[1..][k - 1] == s[k] && s[1..][..k - 1] == s[1..k]
  {
  }

  /** Resolving `name` leaves the box of a first-pass entry with another best match alone. */
  lemma ResolveOneKeepsOther(st: Assignment, pass: seq<BoxMatch>, name: string, pick: Picker, items: seq<Item>, m: BoxMatch)
    requires PicksUnused(pick, items) && Increasing(pass) && Duplicated(pass, name)
    requires m in pass && m.best.name != name
    ensures var r := ResolveOne(st, pass, name, pick);
      (m.box in r.final <==> m.box in st.final) && (m.box in st.final ==> r.final[m.box] == st.final[m.box])
  {
    ResolveOneShape(st, pass, name, pick, items);
    OutsideClaims(pass, name, m);
  }

  lemma ResolveOneInv(st: Assignment, pass: seq<BoxMatch>, name: string, done: seq<string>, pick: Picker, items: seq<Item>)
    requires PicksUnused(pick, items)
    requires Increasing(pass) && Inv(st, pass, done, items)
    requires Duplicated(pass, name) && name !in done
    ensures Inv(ResolveOne(st, pass, name, pick), pass, done + [name], items)
  {
    ResolveOneShape(st, pass, name, pick, items);
    InvAfterOne(st, ResolveOne(st, pass, name, pick), pass, name, done, items);
  }

  lemma InvAfterOne(st: Assignment, r: Assignment, pass: seq<BoxMatch>, name: string, done: seq<string>, items: seq<Item>)
    requires Increasing(pass) && Inv(st, pass, done, items)
    requires Duplicated(pass, name) && name !in done
    requires OneResolved(st, r, pass, name, items)
    ensures Inv(r, pass, done + [name], items)
  {
    SortedClaims(pass, name);
    AfterOneBoxes(st, r, pass, name, done, items);
    AfterOneUnique(st, r, pass, name, done, items);
    AfterOnePending(st, r, pass, name, done, items);
    AfterOneSettled(st, r, pass, name, done, items);
  }

  lemma AfterOneBoxes(st: Assignment, r: Assignment, pass: seq<BoxMatch>, name: string, done: seq<string>, items: seq<Item>)
    requires Increasing(pass) && Inv(st, pass, done, items)
    requires Duplicated(pass, name) && OneResolved(st, r, pass, name, items)
    ensures forall b :: b in r.final ==> b in BoxesOf(pass)
  {
    var sorted := SortByScore(Claims(pass, name));
    SortedClaims(pass, name);
    forall b | b in r.final
      ensures b in BoxesOf(pass)
    {
      if b in BoxesOf(sorted) {
        var l :| l in sorted && l.box == b;
      }
    }
  }

  lemma AfterOneUnique(st: Assignment, r: Assignment, pass: seq<BoxMatch>, name: string, done: seq<string>, items: seq<Item>)
    requires Increasing(pass) && Inv(st, pass, done, items)
    requires Duplicated(pass, name) && OneResolved(st, r, pass, name, items)
    ensures forall m :: m in pass && !Duplicated(pass, m.best.name) ==>
              m.box in r.final && r.final[m.box] == m.best && m.best.name in r.used
  {
    forall m | m in pass && !Duplicated(pass, m.best.name)
      ensures m.box in r.final && r.final[m.box] == m.best && m.best.name in r.used
    {
      OutsideClaims(pass, name, m);
    }
  }

  lemma AfterOnePending(st: Assignment, r: Assignment, pass: seq<BoxMatch>, name: string, done: seq<string>, items: seq<Item>)
    requires Increasing(pass) && Inv(st, pass, done, items)
    requires Duplicated(pass, name) && OneResolved(st, r, pass, name, items)
    ensures forall m :: m in pass && Duplicated(pass, m.best.name) && m.best.name !in done + [name] ==> m.box !in r.final
  {
    forall m | m in pass && Duplicated(pass, m.best.name) && m.best.name !in done + [name]
      ensures m.box !in r.final
    {
      OutsideClaims(pass, name, m);
    }
  }

  lemma AfterOneSettled(st: Assignment, r: Assignment, pass: seq<BoxMatch>, name: string, done: seq<string>, items: seq<Item>)
    requires Increasing(pass) && Inv(st, pass, done, items)
    requires Duplicated(pass, name) && name !in done
    requires OneResolved(st, r, pass, name, items)
    ensures forall m :: m in pass && Duplicated(pass, m.best.name) && m.best.name in done + [name] ==> Settled(r, pass, m, items)
  {
    var sorted := SortByScore(Claims(pass, name));
    SortedClaims(pass, name);
    assert UniqueNames(pass) <= st.used;
    forall m | m in pass && Duplicated(pass, m.best.name) && m.best.name in done + [name]
      ensures Settled(r, pass, m, items)
    {
      if m.best.name != name {
        assert m.best.name in done;
        OutsideClaims(pass, name, m);
        assert Settled(st, pass, m, items);
      } else {
        assert m in sorted;
      }
    }
  }

  lemma {:induction false} ResolveAllInv(st: Assignment, pass: seq<BoxMatch>, names: seq<string>, pick: Picker, items: seq<Item>)
    requires PicksUnused(pick, items)
    requires Increasing(pass) && Inv(st, pass, [], items)
    requires Distinct(names) && forall k :: 0 <= k < |names| ==> Duplicated(pass, names[k])
    ensures Inv(ResolveAll(st, pass, names, pick), pass, names, items)
  {
    if names != [] {
      var init := names[..|names| - 1];
      var last := names[|names| - 1];
      assert names == init + [last];
      ResolveAllInv(st, pass, init, pick, items);
      assert last !in init by {
        forall k | 0 <= k < |init|
          ensures init[k] != last
        {
          assert names[k] == init[k];
        }
      }
      ResolveOneInv(ResolveAll(st, pass, init, pick), pass, last, init, pick, items);
    }
  }

  /** Every loser of every duplicated item keeps, to the end of the loop,
      what it was rematched to at its turn. */
  lemma {:induction false} ResolveAllLosers(st: Assignment, pass: seq<BoxMatch>, names: seq<string>, pick: Picker, items: seq<Item>)
    requires PicksUnused(pick, items)
    requires Increasing(pass) && Inv(st, pass, [], items)
    requires Distinct(names) && forall k :: 0 <= k < |names| ==> Duplicated(pass, names[k])
    ensures forall d, k :: 0 <= d < |names| && 1 <= k < |SortByScore(Claims(pass, names[d]))| ==>
      LoserRematched(ResolveAll(st, pass, names, pick).final, ResolveAll(st, pass, names[..d], pick), pass, names[d], pick, k)
  {
    if names != [] {
      var n := |names| - 1;
      var init := names[..n];
      var last := names[n];
      assert init + [last] == names;
      DistinctInit(names);
      ResolveAllLosers(st, pass, init, pick, items);
      var prev := ResolveAll(st, pass, init, pick);
      assert ResolveAll(st, pass, names, pick) == ResolveOne(prev, pass, last, pick);
      forall j | 0 <= j < |init|
        ensures Duplicated(pass, init[j])
      {
        assert init[j] == names[j];
      }
      ResolveAllInv(st, pass, init, pick, items);
      forall d, k | 0 <= d < |names| && 1 <= k < |SortByScore(Claims(pass, names[d]))|
        ensures LoserRematched(ResolveAll(st, pass, names, pick).final, ResolveAll(st, pass, names[..d], pick), pass, names[d], pick, k)
      {
        if d < n {
          assert init[d] == names[d] && init[..d] == names[..d];
          LoserKept(prev, ResolveAll(st, pass, names[..d], pick), pass, names[d], last, pick, items, k);
        } else {
          assert names[..d] == init;
          LoserNow(prev, pass, last, init, pick, items, k);
        }
      }
    }
  }

  lemma DistinctInit(names: seq<string>)
    requires names != [] && Distinct(names)
    ensures Distinct(names[..|names| - 1]) && names[|names| - 1] !in names[..|names| - 1]
  {
    var init := names[..|names| - 1];
    forall k | 0 <= k < |init|
      ensures init[k] != names[|names| - 1]
    {
      assert names[k] == init[k];
    }
  }

  /** Resolving another item keeps what a loser of `name` holds. */
  lemma LoserKept(prev: Assignment, before: Assignment, pass: seq<BoxMatch>, name: string, other: string, pick: Picker,
                  items: seq<Item>, k: nat)
    requires PicksUnused(pick, items) && Increasing(pass) && Duplicated(pass, other) && name != other
    requires LoserRematched(prev.final, before, pass, name, pick, k)
    ensures LoserRematched(ResolveOne(prev, pass, other, pick).final, before, pass, name, pick, k)
  {
    var sorted := SortByScore(Claims(pass, name));
    SortedClaims(pass, name);
    var l := sorted[k];
    assert l in sorted;
    ResolveOneKeepsOther(prev, pass, other, pick, items, l);
    LoserRematchedFrame(prev.final, ResolveOne(prev, pass, other, pick).final, before, pass, name, pick, k);
  }

  /** The losers of an item not resolved yet have no entry, so its own resolution rematches them. */
  lemma LoserNow(prev: Assignment, pass: seq<BoxMatch>, name: string, done: seq<string>, pick: Picker, items: seq<Item>, k: nat)
    requires PicksUnused(pick, items) && Increasing(pass) && Inv(prev, pass, done, items)
    requires Duplicated(pass, name) && name !in done
    requires 1 <= k < |SortByScore(Claims(pass, name))|
    ensures LoserRematched(ResolveOne(prev, pass, name, pick).final, prev, pass, name, pick, k)
  {
    var sorted := SortByScore(Claims(pass, name));
    SortedClaims(pass, name);
    assert sorted[k] in sorted;
    ResolveOneLoser(prev, pass, name, pick, items, k);
  }

  /** The pick of the source only ever returns unused catalogue entries. */
  lemma PickerForUnused(items: seq<Item>, ratio: Ratio)
    ensures PicksUnused(PickerFor(items, ratio), items)
  {
    forall used, text
      ensures PickerFor(items, ratio)(used, text).Some? ==> FromUnused(PickerFor(items, ratio)(used, text).value, used, items)
    {
      var r := Pick(used, text, items, ratio);
      assert PickerFor(items, ratio)(used, text) == r;
    }
  }

  /** Both loops together, for any first pass with increasing box numbers and
      any pick that returns unused catalogue entries. */
  lemma ResolveSpec(pass: seq<BoxMatch>, pick: Picker, items: seq<Item>)
    requires Increasing(pass) && PicksUnused(pick, items)
    ensures var final := Resolved(pass, pick);
      && (forall b :: b in final ==> b in BoxesOf(pass))
      && (forall m :: m in pass && !Duplicated(pass, m.best.name) ==> m.box in final && final[m.box] == m.best)
      && (forall m :: m in pass && Duplicated(pass, m.best.name) && m == Winner(pass, m.best.name) ==>
            m.box in final && final[m.box] == m.best)
      && (forall m :: m in pass && Duplicated(pass, m.best.name) && m != Winner(pass, m.best.name) && m.box in final ==>
            FromUnused(final[m.box], UniqueNames(pass) + {m.best.name}, items))
    ensures var names := DuplicateNames(pass);
      var final := Resolved(pass, pick);
      forall d, k :: 0 <= d < |names| && 1 <= k < |SortByScore(Claims(pass, names[d]))| ==>
        LoserRematched(final, ResolveAll(AssignUnique(names, pass), pass, names[..d], pick), pass, names[d], pick, k)
  {
    InitialInv(pass, items);
    DuplicateNamesSpec(pass);
    var names := DuplicateNames(pass);
    forall k | 0 <= k < |names|
      ensures Duplicated(pass, names[k])
    {
      assert names[k] in names;
    }
    ResolveAllInv(AssignUnique(names, pass), pass, names, pick, items);
    ResolveAllLosers(AssignUnique(names, pass), pass, names, pick, items);
    var r := ResolveAll(AssignUnique(names, pass), pass, names, pick);
    forall m | m in pass && Duplicated(pass, m.best.name)
      ensures Settled(r, pass, m, items)
    {
      assert m.best.name in names;
    }
  }

  /** What duplicate resolution guarantees, for the boxes of the first pass:
      only boxes whose text matched an item get a match; an item that is the
      best match of one box stays with that box; a duplicated item goes to
      the box its stable sort puts first; every other box that claimed it
      either has no match or an item of the catalogue that no box with a
      unique best match holds, other than the duplicated item. */
  lemma ResolutionSpec(combined: seq<string>, items: seq<Item>, ratio: Ratio)
    ensures var pass := FirstPass(combined, items, ratio);
      var final := FinalMatches(combined, items, ratio);
      && (forall b :: b in final ==> 1 <= b <= |combined| && Analyse(b, combined[b - 1], items, ratio).Some?)
      && (forall m :: m in pass && !Duplicated(pass, m.best.name) ==> m.box in final && final[m.box] == m.best)
      && (forall m :: m in pass && Duplicated(pass, m.best.name) && m == Winner(pass, m.best.name) ==>
            m.box in final && final[m.box] == m.best)
      && (forall m :: m in pass && Duplicated(pass, m.best.name) && m != Winner(pass, m.best.name) && m.box in final ==>
            FromUnused(final[m.box], UniqueNames(pass) + {m.best.name}, items))
    ensures var pass := FirstPass(combined, items, ratio);
      var final := FinalMatches(combined, items, ratio);
      var names := DuplicateNames(pass);
      var pick := PickerFor(items, ratio);
      forall d, k :: 0 <= d < |names| && 1 <= k < |SortByScore(Claims(pass, names[d]))| ==>
        var l := SortByScore(Claims(pass, names[d]))[k];
        var p := Pick(TurnUsed(ResolveAll(AssignUnique(names, pass), pass, names[..d], pick), pass, names[d], pick, k),
                      l.text, items, ratio);
        (l.box in final <==> p.Some?) && (p.Some? ==> final[l.box] == p.value)
  {
    var pass := FirstPass(combined, items, ratio);
    FirstPassSpec(combined, items, ratio);
    PickerForUnused(items, ratio);
    ResolveSpec(pass, PickerFor(items, ratio), items);
    FirstPassBoxes(combined, items, ratio);
    LosersRematched(combined, items, ratio);
  }

  /** Part 2 of the resolution of `process_text_inventory`: the `k`-th box
      in the sorted claims of the `d`-th duplicated item, a loser, holds the
      first `match_items` result for its text among the items unused at its
      turn, and has no entry exactly when that finds nothing. */
  lemma LosersRematched(combined: seq<string>, items: seq<Item>, ratio: Ratio)
    ensures var pass := FirstPass(combined, items, ratio);
      var final := FinalMatches(combined, items, ratio);
      var names := DuplicateNames(pass);
      var pick := PickerFor(items, ratio);
      forall d, k :: 0 <= d < |names| && 1 <= k < |SortByScore(Claims(pass, names[d]))| ==>
        var l := SortByScore(Claims(pass, names[d]))[k];
        var p := Pick(TurnUsed(ResolveAll(AssignUnique(names, pass), pass, names[..d], pick), pass, names[d], pick, k),
                      l.text, items, ratio);
        (l.box in final <==> p.Some?) && (p.Some? ==> final[l.box] == p.value)
  {
    var pass := FirstPass(combined, items, ratio);
    var pick := PickerFor(items, ratio);
    var names := DuplicateNames(pass);
    FirstPassSpec(combined, items, ratio);
    PickerForUnused(items, ratio);
    ResolveSpec(pass, pick, items);
    var final := FinalMatches(combined, items, ratio);
    assert final == Resolved(pass, pick);
    forall d, k | 0 <= d < |names| && 1 <= k < |SortByScore(Claims(pass, names[d]))|
      ensures var l := SortByScore(Claims(pass, names[d]))[k];
        var p := Pick(TurnUsed(ResolveAll(AssignUnique(names, pass), pass, names[..d], pick), pass, names[d], pick, k),
                      l.text, items, ratio);
        (l.box in final <==> p.Some?) && (p.Some? ==> final[l.box] == p.value)
    {
      var st := ResolveAll(AssignUnique(names, pass), pass, names[..d], pick);
      assert LoserRematched(final, st, pass, names[d], pick, k);
      var l := SortByScore(Claims(pass, names[d]))[k];
      var u := TurnUsed(st, pass, names[d], pick, k);
      assert pick(u, l.text) == Pick(u, l.text, items, ratio);
    }
  }

  /** Every box of the first pass is one of the combined texts, and its text matched. */
  lemma FirstPassBoxes(combined: seq<string>, items: seq<Item>, ratio: Ratio)
    ensures forall b :: b in BoxesOf(FirstPass(combined, items, ratio)) ==>
      1 <= b <= |combined| && Analyses(combined, items, ratio)[b - 1].Some?
  {
    var os := Analyses(combined, items, ratio);
    PresentBoxes(os);
  }

  lemma PresentBoxes(os: seq<Option<BoxMatch>>)
    requires Numbered(os)
    ensures forall b :: b in BoxesOf(Present(os)) ==> 1 <= b <= |os| && os[b - 1].Some?
  {
    PresentSound(os);
    var ms := Present(os);
    forall b | b in BoxesOf(ms)
      ensures 1 <= b <= |os| && os[b - 1].Some?
    {
      var m :| m in ms && m.box == b;
      var k :| 0 <= k < |ms| && ms[k] == m;
    }
  }

  /** The box that keeps a duplicated item claimed it with the highest
      score, and no earlier claiming box had that score. */
  lemma WinnerSpec(pass: seq<BoxMatch>, name: string)
    requires Increasing(pass) && Duplicated(pass, name)
    ensures var w := Winner(pass, name);
      && w in pass && w.best.name == name
      && (forall m :: m in pass && m.best.name == name ==> m.best.score <= w.best.score)
      && (forall m :: m in pass && m.best.name == name && m.best.score == w.best.score ==> w.box <= m.box)
  {
    var cs := Claims(pass, name);
    ClaimsIncreasing(pass, name);
    SortHead(cs);
    FirstMaxSpec(BoxScores(cs));
    var k := FirstMax(BoxScores(cs));
    var w := Winner(pass, name);
    assert w == cs[k];
    ClaimsExact(pass, name, w);
    forall m | m in pass && m.best.name == name
      ensures m.best.score <= w.best.score
      ensures m.best.score == w.best.score ==> w.box <= m.box
    {
      ClaimsExact(pass, name, m);
      var j :| 0 <= j < |cs| && cs[j] == m;
      assert BoxScores(cs)[j] == m.best.score;
      if j < k {
        assert BoxScores(cs)[j] < BoxScores(cs)[k];
      } else if j > k {
        assert cs[k].box < cs[j].box;
      }
    }
  }
}
