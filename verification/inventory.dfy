/**
 * The loops of `process_text_inventory` in backend/Text_Extract.py, as the
 * source writes them: dictionaries filled box by box, a set of used names
 * that grows, and the rematching of the boxes that lose a duplicated item.
 * Each loop is proved to compute the function of the Resolution module that
 * specifies it, so the properties proved there hold for what the loops build.
 */
module Inventory {
  import opened Wrappers
  import opened Text
  import opened Geometry
  import opened Matching
  import opened Resolution
  import Tokens

  /** The scores of the matches of a box: each found item with the
      similarity of the lower-case text and its lower-case name. */
  method ScoreMatches(text: string, found: seq<Item>, ratio: Ratio) returns (matches: seq<Candidate>)
    ensures matches == Scored(text, found, ratio)
  {
    matches := [];
    for i := 0 to |found|
      invariant |matches| == i
      invariant forall j :: 0 <= j < i ==>
                  matches[j] == Candidate(found[j].name, found[j].value, ratio(LowerStr(text), LowerStr(found[j].name)))
    {
      var similarity := ratio(LowerStr(text), LowerStr(found[i].name));
      matches := matches + [Candidate(found[i].name, found[i].value, similarity)];
    }
  }

  /** `max(matches, key=score)`: the first match with the highest score. */
  method BestMatch(matches: seq<Candidate>) returns (best: nat)
    requires matches != []
    ensures best == FirstMax(ScoresOf(matches))
    ensures best < |matches| && forall j :: 0 <= j < |matches| ==> matches[j].score <= matches[best].score
  {
    ghost var scores := ScoresOf(matches);
    best := 0;
    for i := 1 to |matches|
      invariant best == FirstMax(scores[..i])
    {
      assert scores[..i + 1][..i] == scores[..i];
      if matches[i].score > matches[best].score {
        best := i;
      }
    }
    assert scores[..|matches|] == scores;
    FirstMaxSpec(scores);
  }

  /** The first pass for one box: strip the combined text, match it, score
      every match against the lower-case text, and keep the first highest. */
  method AnalyseBox(box: nat, combined: string, items: seq<Item>, ratio: Ratio) returns (r: Option<BoxMatch>)
    ensures r == Analyse(box, combined, items, ratio)
  {
    var text := Strip(combined);
    if text == [] {
      return None;
    }
    var found := MatchItems([text], items, ratio, Threshold);
    if found == [] {
      return None;
    }
    var matches := ScoreMatches(text, found, ratio);
    var best := BestMatch(matches);
    r := Some(BoxMatch(box, text, matches[best]));
  }

  /** Recording a box's best match in `items_to_boxes`: the name gets a list
      the first time it is seen, and the box is appended to it. */
  method TrackBestMatch(pass: seq<BoxMatch>, m: BoxMatch, order: seq<string>, itemsToBoxes: map<string, seq<BoxMatch>>)
    returns (order': seq<string>, itemsToBoxes': map<string, seq<BoxMatch>>)
    requires order == Names(pass)
    requires forall name :: name in itemsToBoxes <==> name in order
    requires forall name :: name in itemsToBoxes ==> itemsToBoxes[name] == Claims(pass, name)
    ensures order' == Names(pass + [m])
    ensures forall name :: name in itemsToBoxes' <==> name in order'
    ensures forall name :: name in itemsToBoxes' ==> itemsToBoxes'[name] == Claims(pass + [m], name)
  {
    NamesSpec(pass);
    assert (pass + [m])[..|pass|] == pass;
    var name := m.best.name;
    itemsToBoxes' := itemsToBoxes;
    if name !in itemsToBoxes' {
      itemsToBoxes' := itemsToBoxes'[name := []];
    }
    itemsToBoxes' := itemsToBoxes'[name := itemsToBoxes'[name] + [m]];
    order' := if name in order then order else order + [name];
  }

  /** One iteration of the first pass: analyse the box and, when it has a
      best match, record it. */
  method AnalyseAndTrack(box: nat, combined: string, items: seq<Item>, ratio: Ratio,
                         pass: seq<BoxMatch>, order: seq<string>, itemsToBoxes: map<string, seq<BoxMatch>>)
    returns (pass': seq<BoxMatch>, order': seq<string>, itemsToBoxes': map<string, seq<BoxMatch>>)
    requires order == Names(pass)
    requires forall name :: name in itemsToBoxes <==> name in order
    requires forall name :: name in itemsToBoxes ==> itemsToBoxes[name] == Claims(pass, name)
    ensures var r := Analyse(box, combined, items, ratio);
      pass' == pass + (if r.Some? then [r.value] else [])
    ensures order' == Names(pass')
    ensures forall name :: name in itemsToBoxes' <==> name in order'
    ensures forall name :: name in itemsToBoxes' ==> itemsToBoxes'[name] == Claims(pass', name)
  {
    var r := AnalyseBox(box, combined, items, ratio);
    pass', order', itemsToBoxes' := pass, order, itemsToBoxes;
    if r.Some? {
      order', itemsToBoxes' := TrackBestMatch(pass, r.value, order, itemsToBoxes);
      pass' := pass + [r.value];
    }
  }

  /** The first pass over boxes `1 .. |combined|`: the box matches in box
      order (`best_matches_per_box` with `all_matches`' texts), the keys of
      `items_to_boxes` in insertion order, and `items_to_boxes` itself. */
  method FirstPassLoop(combined: seq<string>, items: seq<Item>, ratio: Ratio)
    returns (pass: seq<BoxMatch>, order: seq<string>, itemsToBoxes: map<string, seq<BoxMatch>>)
    ensures pass == FirstPass(combined, items, ratio)
    ensures order == Names(pass)
    ensures forall name :: name in itemsToBoxes <==> name in order
    ensures forall name :: name in itemsToBoxes ==> itemsToBoxes[name] == Claims(pass, name)
  {
    ghost var os := Analyses(combined, items, ratio);
    pass, order, itemsToBoxes := [], [], map[];
    for i := 0 to |combined|
      invariant pass == Present(os[..i])
      invariant order == Names(pass)
      invariant forall name :: name in itemsToBoxes <==> name in order
      invariant forall name :: name in itemsToBoxes ==> itemsToBoxes[name] == Claims(pass, name)
    {
      PresentStep(os, i);
      pass, order, itemsToBoxes := AnalyseAndTrack(i + 1, combined[i], items, ratio, pass, order, itemsToBoxes);
    }
    assert os[..|combined|] == os;
  }

  /** `duplicate_items`: the keys of `items_to_boxes` with more than one box, in key order. */
  method DuplicateItems(pass: seq<BoxMatch>, order: seq<string>, itemsToBoxes: map<string, seq<BoxMatch>>)
    returns (duplicates: seq<string>)
    requires order == Names(pass)
    requires forall name :: name in itemsToBoxes <==> name in order
    requires forall name :: name in itemsToBoxes ==> itemsToBoxes[name] == Claims(pass, name)
    ensures duplicates == DuplicateNames(pass)
  {
    var p := (name: string) => Duplicated(pass, name);
    duplicates := [];
    for i := 0 to |order|
      invariant duplicates == Keep(p, order[..i])
    {
      KeepStep(p, order, i);
      assert order[i] in itemsToBoxes;
      if |itemsToBoxes[order[i]]| > 1 {
        duplicates := duplicates + [order[i]];
      }
    }
    assert order[..|order|] == order;
  }

  /** The first assignment loop: every box whose best match is not a
      duplicate keeps it, and its name becomes used. */
  method AssignNonDuplicates(pass: seq<BoxMatch>, duplicates: seq<string>)
    returns (final: map<nat, Candidate>, used: set<string>)
    ensures Assignment(final, used) == AssignUnique(duplicates, pass)
  {
    final, used := map[], {};
    for i := 0 to |pass|
      invariant Assignment(final, used) == AssignUnique(duplicates, pass[..i])
    {
      assert pass[..i + 1][..i] == pass[..i];
      var m := pass[i];
      if m.best.name !in duplicates {
        final := final[m.box := m.best];
        used := used + {m.best.name};
      }
    }
    assert pass[..|pass|] == pass;
  }

  /** Rematching the losing boxes of one duplicated item, in sorted order:
      each is matched against the catalogue entries not yet used and, when
      something is found, takes the first match, scored against its text. */
  method RematchLosers(final0: map<nat, Candidate>, used0: set<string>, losers: seq<BoxMatch>, items: seq<Item>, ratio: Ratio)
    returns (final: map<nat, Candidate>, used: set<string>)
    ensures Assignment(final, used) == RematchAll(Assignment(final0, used0), losers, PickerFor(items, ratio))
  {
    final, used := final0, used0;
    for j := 0 to |losers|
      invariant Assignment(final, used) == RematchAll(Assignment(final0, used0), losers[..j], PickerFor(items, ratio))
    {
      assert losers[..j + 1][..j] == losers[..j];
      var l := losers[j];
      var available := Keep((it: Item) => it.name !in used, items);
      var newMatches := MatchItems([l.text], available, ratio, Threshold);
      assert PickerFor(items, ratio)(used, l.text) == Pick(used, l.text, items, ratio);
      if newMatches != [] {
        var newMatch := newMatches[0];
        var newScore := ratio(LowerStr(l.text), LowerStr(newMatch.name));
        final := final[l.box := Candidate(newMatch.name, newMatch.value, newScore)];
        used := used + {newMatch.name};
      }
    }
    assert losers[..|losers|] == losers;
  }

  /** One duplicated item: sort its boxes by descending score, give it to
      the first, and rematch the others. */
  method ResolveItem(pass: seq<BoxMatch>, name: string, boxes: seq<BoxMatch>,
                     final0: map<nat, Candidate>, used0: set<string>, items: seq<Item>, ratio: Ratio)
    returns (final: map<nat, Candidate>, used: set<string>)
    requires boxes == Claims(pass, name) && boxes != []
    ensures Assignment(final, used) == ResolveOne(Assignment(final0, used0), pass, name, PickerFor(items, ratio))
  {
    var boxMatches := SortByScore(boxes);
    var best := boxMatches[0];
    final := final0[best.box := best.best];
    used := used0 + {name};
    final, used := RematchLosers(final, used, boxMatches[1..], items, ratio);
  }

  /** The duplicate loop: for each duplicated item, sort its boxes by
      descending score, give it to the first, and rematch the others. */
  method ResolveDuplicates(pass: seq<BoxMatch>, duplicates: seq<string>, itemsToBoxes: map<string, seq<BoxMatch>>,
                           final0: map<nat, Candidate>, used0: set<string>, items: seq<Item>, ratio: Ratio)
    returns (final: map<nat, Candidate>, used: set<string>)
    requires duplicates == DuplicateNames(pass)
    requires forall name :: name in itemsToBoxes <==> name in Names(pass)
    requires forall name :: name in itemsToBoxes ==> itemsToBoxes[name] == Claims(pass, name)
    ensures Assignment(final, used) == ResolveAll(Assignment(final0, used0), pass, duplicates, PickerFor(items, ratio))
  {
    final, used := final0, used0;
    for d := 0 to |duplicates|
      invariant Assignment(final, used) == ResolveAll(Assignment(final0, used0), pass, duplicates[..d], PickerFor(items, ratio))
    {
      ResolveAllStep(Assignment(final0, used0), pass, duplicates, d, PickerFor(items, ratio));
      var name := duplicates[d];
      DuplicateClaimed(pass, name);
      final, used := ResolveItem(pass, name, itemsToBoxes[name], final, used, items, ratio);
    }
    assert duplicates[..|duplicates|] == duplicates;
  }

  /** The matching half of `process_text_inventory`, from the combined text
      of each box to `final_matches`. */
  method ResolveMatches(combined: seq<string>, items: seq<Item>, ratio: Ratio) returns (final: map<nat, Candidate>)
    ensures final == FinalMatches(combined, items, ratio)
  {
    var pass, order, itemsToBoxes := FirstPassLoop(combined, items, ratio);
    var duplicates := DuplicateItems(pass, order, itemsToBoxes);
    var final0, used0 := AssignNonDuplicates(pass, duplicates);
    var used;
    final, used := ResolveDuplicates(pass, duplicates, itemsToBoxes, final0, used0, items, ratio);
  }

  /** `process_text_inventory` once the OCR tokens and the box rectangles are
      known: tokens to boxes, texts joined per box, then matching. Every box
      with a final match is one of the boxes. */
  method ProcessTextInventory(tokens: seq<Token>, boxes: seq<Rect>, items: seq<Item>, ratio: Ratio)
    returns (final: map<nat, Candidate>)
    ensures final == FinalMatches(CombineBoxTexts(Tokens.Placed(tokens, boxes, Normalize)), items, ratio)
    ensures forall b :: b in final ==> 1 <= b <= |boxes|
  {
    var boxTexts := AssignTexts(tokens, boxes);
    var combined := CombineBoxTexts(boxTexts);
    final := ResolveMatches(combined, items, ratio);
    ResolutionSpec(combined, items, ratio);
  }
}
