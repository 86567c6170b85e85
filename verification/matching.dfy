/**
 * The text reader of backend/Text_Extract.py: normalising OCR text, matching
 * lines of text against the item catalogue (exact substring matches first,
 * then one fuzzy match), the tie breaker `resolve_tie`, and the assignment of
 * OCR tokens to the boxes of the inventory grid.
 */
module Matching {
  import opened Wrappers
  import opened Text
  import opened Geometry
  import Tokens

  // ---------------------------------------------------------------------------
  // Normalisation

  /** The symbols that `normalize_text` replaces, and their replacements. */
  const CharMap: map<char, string> := map[
    '\U{A3}' := "E", '$' := "S", '\U{20AC}' := "E", '\U{A5}' := "Y", '\U{A7}' := "S",
    '\U{A9}' := "C", '\U{AE}' := "R", '\U{2122}' := "TM", '\U{A1}' := "i"]

  /** Text made only of alphanumeric and whitespace characters. */
  predicate Clean(s: string)
  {
    forall i :: 0 <= i < |s| ==> IsAlnum(s[i]) || IsSpace(s[i])
  }

  /** What one input character becomes: its replacement when it is a mapped
      symbol, itself when alphanumeric or whitespace, nothing otherwise. */
  function MapChar(c: char): (r: string)
    ensures IsAlnum(c) || IsSpace(c) ==> r == [c]
    ensures c !in CharMap && !IsAlnum(c) && !IsSpace(c) ==> r == []
  {
    if c in CharMap then CharMap[c]
    else if IsAlnum(c) || IsSpace(c) then [c]
    else []
  }

  /** Every replacement, and every kept character, is alphanumeric or whitespace. */
  lemma MapCharClean(c: char)
    ensures Clean(MapChar(c))
  {
  }

  /** `normalize_text`, one character at a time from the left. */
  function Normalize(s: string): string
  {
    if s == [] then [] else Normalize(s[..|s| - 1]) + MapChar(s[|s| - 1])
  }

  /** Normalisation works character by character, so it keeps the order of the text. */
  lemma {:induction false} NormalizeAppend(a: string, b: string)
    ensures Normalize(a + b) == Normalize(a) + Normalize(b)
    decreases |b|
  {
    if b == [] {
      assert a + b == a;
    } else {
      var n := |b| - 1;
      assert (a + b)[..|a + b| - 1] == a + b[..n];
      assert (a + b)[|a + b| - 1] == b[n];
      NormalizeAppend(a, b[..n]);
    }
  }

  /** Every character of the result is alphanumeric or whitespace. */
  lemma {:induction false} NormalizeClean(s: string)
    ensures Clean(Normalize(s))
  {
    if s != [] {
      NormalizeClean(s[..|s| - 1]);
      var a := Normalize(s[..|s| - 1]);
      var b := MapChar(s[|s| - 1]);
      MapCharClean(s[|s| - 1]);
      assert forall i :: |a| <= i < |a| + |b| ==> (a + b)[i] == b[i - |a|];
    }
  }

  /** Clean text is left as it is. */
  lemma {:induction false} NormalizeKeepsClean(s: string)
    requires Clean(s)
    ensures Normalize(s) == s
  {
    if s != [] {
      var init := s[..|s| - 1];
      var c := s[|s| - 1];
      CleanInit(s);
      NormalizeKeepsClean(init);
      assert s == init + [c];
    }
  }

  lemma CleanInit(s: string)
    requires s != [] && Clean(s)
    ensures Clean(s[..|s| - 1]) && MapChar(s[|s| - 1]) == [s[|s| - 1]]
  {
    var init := s[..|s| - 1];
    forall i | 0 <= i < |init|
      ensures IsAlnum(init[i]) || IsSpace(init[i])
    {
      assert init[i] == s[i];
    }
  }

  /** Normalising twice is normalising once. */
  lemma NormalizeIdempotent(s: string)
    ensures Normalize(Normalize(s)) == Normalize(s)
  {
    NormalizeClean(s);
    NormalizeKeepsClean(Normalize(s));
  }

  /** The pound sign becomes E, the trademark sign TM, and punctuation goes. */
  lemma NormalizeExample()
    ensures Normalize("\U{A3}5 \U{2122}!") == "E5 TM"
  {
    NormalizeFive('\U{A3}', '5', ' ', '\U{2122}', '!');
    MapCharExamples();
  }

  lemma MapCharExamples()
    ensures MapChar('\U{A3}') == "E" && MapChar('5') == "5" && MapChar(' ') == " "
    ensures MapChar('\U{2122}') == "TM" && MapChar('!') == []
  {
    assert '!' !in CharMap.Keys;
  }

  /** Five characters are normalised one by one. */
  lemma NormalizeFive(a: char, b: char, c: char, d: char, e: char)
    ensures Normalize([a, b, c, d, e]) == MapChar(a) + MapChar(b) + MapChar(c) + MapChar(d) + MapChar(e)
  {
    assert [a, b, c, d, e] == [a] + [b] + [c] + [d] + [e];
    NormalizeAppend([a] + [b] + [c] + [d], [e]);
    NormalizeAppend([a] + [b] + [c], [d]);
    NormalizeAppend([a] + [b], [c]);
    NormalizeAppend([a], [b]);
    NormalizeOne(a);
    NormalizeOne(b);
    NormalizeOne(c);
    NormalizeOne(d);
    NormalizeOne(e);
  }

  lemma NormalizeOne(x: char)
    ensures Normalize([x]) == MapChar(x)
  {
    assert [x][..0] == [];
  }

  /** `normalize_text`: build the result one character at a time. */
  method NormalizeText(text: string) returns (normalized: string)
    ensures normalized == Normalize(text)
    ensures Clean(normalized)
  {
    normalized := "";
    for i := 0 to |text|
      invariant normalized == Normalize(text[..i])
    {
      assert text[..i + 1][..i] == text[..i];
      var c := text[i];
      if c in CharMap {
        normalized := normalized + CharMap[c];
      } else if IsAlnum(c) || IsSpace(c) {
        normalized := normalized + [c];
      }
    }
    assert text[..|text|] == text;
    NormalizeClean(text);
  }

  // ---------------------------------------------------------------------------
  // Matching lines against the catalogue

  /** `fuzz.ratio`: a similarity score from 0 to 100. */
  type Score = x: int | 0 <= x <= 100

  /** The similarity function, a parameter of the model. */
  type Ratio = (string, string) -> Score

  /** A catalogue entry, and an entry of the list `match_items` returns. */
  datatype Item = Item(name: string, value: real)

  /** The default similarity threshold of `match_items`. */
  const Threshold := 60

  /** The state of `match_items` inside one line: the items found so far, the
      names already matched, and the part of the line not yet matched. */
  datatype LineState = LineState(found: seq<Item>, matched: set<string>, remaining: string)

  /** One step of the exact pass: an item not yet matched whose lower-case
      name occurs in the remaining line is found, and the first occurrence of
      its name is cut out of the line, which is then stripped. */
  function PerfectStep(st: LineState, item: Item): LineState
  {
    var key := LowerStr(item.name);
    if Contains(st.remaining, key) && item.name !in st.matched then
      LineState(st.found + [item], st.matched + {item.name}, Strip(RemoveFirst(st.remaining, key)))
    else st
  }

  /** The exact pass over the catalogue, in catalogue order. */
  function Perfect(st: LineState, items: seq<Item>): LineState
  {
    if items == [] then st else PerfectStep(Perfect(st, items[..|items| - 1]), items[|items| - 1])
  }

  function ScoreOf(remaining: string, item: Item, ratio: Ratio): Score
  {
    ratio(remaining, LowerStr(item.name))
  }

  /** An item the fuzzy pass can pick: not matched yet, scoring at least the
      threshold and above the initial best score of 0. */
  predicate Contender(remaining: string, item: Item, matched: set<string>, ratio: Ratio, threshold: int)
  {
    item.name !in matched && ScoreOf(remaining, item, ratio) >= threshold && ScoreOf(remaining, item, ratio) > 0
  }

  /** The fuzzy pass: the position of the item the scan keeps, replacing the
      best so far only on a strictly higher score. */
  function BestIndex(remaining: string, items: seq<Item>, matched: set<string>, ratio: Ratio, threshold: int): (r: Option<nat>)
    ensures r.Some? ==> r.value < |items|
  {
    if items == [] then None
    else
      var n := |items| - 1;
      var prev := BestIndex(remaining, items[..n], matched, ratio, threshold);
      var highest := if prev.Some? then ScoreOf(remaining, items[prev.value], ratio) else 0;
      var s := ScoreOf(remaining, items[n], ratio);
      if items[n].name !in matched && s > highest && s >= threshold then Some(n) else prev
  }

  /** The fuzzy pass picks nothing exactly when no item is a contender, and
      otherwise the first contender with the highest score. */
  lemma {:induction false} BestIndexSpec(remaining: string, items: seq<Item>, matched: set<string>, ratio: Ratio, threshold: int)
    ensures var r := BestIndex(remaining, items, matched, ratio, threshold);
      && (r.None? <==> forall k :: 0 <= k < |items| ==> !Contender(remaining, items[k], matched, ratio, threshold))
      && (r.Some? ==>
            && Contender(remaining, items[r.value], matched, ratio, threshold)
            && (forall k :: 0 <= k < |items| && Contender(remaining, items[k], matched, ratio, threshold) ==>
                  ScoreOf(remaining, items[k], ratio) <= ScoreOf(remaining, items[r.value], ratio))
            && (forall k :: 0 <= k < r.value && Contender(remaining, items[k], matched, ratio, threshold) ==>
                  ScoreOf(remaining, items[k], ratio) < ScoreOf(remaining, items[r.value], ratio)))
  {
    if items != [] {
      var n := |items| - 1;
      BestIndexSpec(remaining, items[..n], matched, ratio, threshold);
      assert forall k :: 0 <= k < n ==> items[..n][k] == items[k];
    }
  }

  /** One line of `match_items`: strip and lower-case it, run the exact pass,
      and when some of the line is left, add the fuzzy pick if there is one. */
  function MatchLine(found: seq<Item>, matched: set<string>, line: string, items: seq<Item>, ratio: Ratio, threshold: int)
    : (r: (seq<Item>, set<string>))
    ensures var st := Perfect(LineState(found, matched, LowerStr(Strip(line))), items);
      && |st.found| <= |r.0| <= |st.found| + 1 && r.0[..|st.found|] == st.found
      && (st.remaining == [] ==> r.0 == st.found)
  {
    var st := Perfect(LineState(found, matched, LowerStr(Strip(line))), items);
    if st.remaining == [] then (st.found, st.matched)
    else
      match BestIndex(st.remaining, items, st.matched, ratio, threshold)
      case None => (st.found, st.matched)
      case Some(k) =>
        if items[k].name == [] then (st.found, st.matched)
        else (st.found + [items[k]], st.matched + {items[k].name})
  }

  /** `match_items` over the first `|lines|` lines: the found list and the
      matched names. */
  function MatchAll(lines: seq<string>, items: seq<Item>, ratio: Ratio, threshold: int): (seq<Item>, set<string>)
  {
    if lines == [] then ([], {})
    else
      var p := MatchAll(lines[..|lines| - 1], items, ratio, threshold);
      MatchLine(p.0, p.1, lines[|lines| - 1], items, ratio, threshold)
  }

  /** What `match_items` keeps true: every found entry is a catalogue entry,
      its name is recorded as matched, and no name is found twice. */
  ghost predicate Good(found: seq<Item>, matched: set<string>, items: seq<Item>)
  {
    && (forall i :: 0 <= i < |found| ==> found[i] in items && found[i].name in matched)
    && (forall i, j :: 0 <= i < j < |found| ==> found[i].name != found[j].name)
  }

  lemma GoodAdd(found: seq<Item>, matched: set<string>, items: seq<Item>, item: Item)
    requires Good(found, matched, items) && item in items && item.name !in matched
    ensures Good(found + [item], matched + {item.name}, items)
  {
    var f := found + [item];
    forall i, j | 0 <= i < j < |f|
      ensures f[i].name != f[j].name
    {
      if j == |found| {
        assert f[i] == found[i];
      }
    }
  }

  lemma {:induction false} PerfectGood(st: LineState, items: seq<Item>, all: seq<Item>)
    requires Good(st.found, st.matched, all)
    requires forall k :: 0 <= k < |items| ==> items[k] in all
    ensures var r := Perfect(st, items);
      Good(r.found, r.matched, all) && st.matched <= r.matched
      && |r.remaining| <= |st.remaining|
  {
    if items != [] {
      var n := |items| - 1;
      PerfectGood(st, items[..n], all);
      var p := Perfect(st, items[..n]);
      if Contains(p.remaining, LowerStr(items[n].name)) && items[n].name !in p.matched {
        GoodAdd(p.found, p.matched, all, items[n]);
      }
    }
  }

  lemma MatchLineGood(found: seq<Item>, matched: set<string>, line: string, items: seq<Item>, ratio: Ratio, threshold: int)
    requires Good(found, matched, items)
    ensures var r := MatchLine(found, matched, line, items, ratio, threshold);
      Good(r.0, r.1, items)
  {
    var st := Perfect(LineState(found, matched, LowerStr(Strip(line))), items);
    PerfectGood(LineState(found, matched, LowerStr(Strip(line))), items, items);
    if st.remaining != [] {
      var b := BestIndex(st.remaining, items, st.matched, ratio, threshold);
      if b.Some? && items[b.value].name != [] {
        BestIndexSpec(st.remaining, items, st.matched, ratio, threshold);
        GoodAdd(st.found, st.matched, items, items[b.value]);
      }
    }
  }

  /** Every item `match_items` returns is a catalogue entry, with its value,
      and no name is returned twice. */
  lemma {:induction false} MatchAllGood(lines: seq<string>, items: seq<Item>, ratio: Ratio, threshold: int)
    ensures Good(MatchAll(lines, items, ratio, threshold).0, MatchAll(lines, items, ratio, threshold).1, items)
  {
    if lines != [] {
      var p := MatchAll(lines[..|lines| - 1], items, ratio, threshold);
      MatchAllGood(lines[..|lines| - 1], items, ratio, threshold);
      MatchLineGood(p.0, p.1, lines[|lines| - 1], items, ratio, threshold);
    }
  }

  /** An item whose lower-case name is the whole remaining line, and that is
      not matched yet, is found by the exact pass when no earlier catalogue
      entry fires first; it consumes the whole line, so nothing is left for
      the fuzzy pass. */
  lemma PerfectWholeLine(st: LineState, items: seq<Item>, k: nat)
    requires k < |items| && st.remaining == LowerStr(items[k].name) && items[k].name !in st.matched
    requires forall j :: 0 <= j < k ==> !(Contains(st.remaining, LowerStr(items[j].name)) && items[j].name !in st.matched)
    ensures var r := Perfect(st, items);
      |r.found| > |st.found| && r.found[..|st.found| + 1] == st.found + [items[k]] && r.remaining == []
  {
    PerfectFires(st, items, k);
    PerfectSplit(st, items, k + 1);
    PerfectKeeps(Perfect(st, items[..k + 1]), items[k + 1..]);
  }

  /** Entry `k` is the first to fire, and it takes the whole line. */
  lemma PerfectFires(st: LineState, items: seq<Item>, k: nat)
    requires k < |items| && st.remaining == LowerStr(items[k].name) && items[k].name !in st.matched
    requires forall j :: 0 <= j < k ==> !(Contains(st.remaining, LowerStr(items[j].name)) && items[j].name !in st.matched)
    ensures Perfect(st, items[..k + 1]) == LineState(st.found + [items[k]], st.matched + {items[k].name}, [])
  {
    PerfectQuiet(st, items, k);
    var pre := items[..k + 1];
    assert pre[..k] == items[..k] && pre[k] == items[k];
    RemoveWholeLine(st.remaining);
  }

  lemma PerfectSplit(st: LineState, items: seq<Item>, n: nat)
    requires n <= |items|
    ensures Perfect(st, items) == Perfect(Perfect(st, items[..n]), items[n..])
  {
    var a, b := items[..n], items[n..];
    assert a + b == items;
    PerfectAppend(st, a, b);
  }

  /** Cutting a whole line out of itself leaves nothing. */
  lemma RemoveWholeLine(line: string)
    ensures Contains(line, line) && Strip(RemoveFirst(line, line)) == []
  {
    assert OccursAt(line, line, 0);
  }

  /** No catalogue entry before position `j` fires, so the state is unchanged. */
  lemma {:induction false} PerfectQuiet(st: LineState, items: seq<Item>, j: nat)
    requires j <= |items|
    requires forall i :: 0 <= i < j ==> !(Contains(st.remaining, LowerStr(items[i].name)) && items[i].name !in st.matched)
    ensures Perfect(st, items[..j]) == st
  {
    if j > 0 {
      assert items[..j][..j - 1] == items[..j - 1];
      PerfectQuiet(st, items, j - 1);
    }
  }

  lemma {:induction false} PerfectAppend(st: LineState, a: seq<Item>, b: seq<Item>)
    ensures Perfect(st, a + b) == Perfect(Perfect(st, a), b)
  {
    if b != [] {
      var n := |b| - 1;
      assert (a + b)[..|a + b| - 1] == a + b[..n];
      PerfectAppend(st, a, b[..n]);
    } else {
      assert a + b == a;
    }
  }

  /** The exact pass only appends to what was found, and an empty line stays empty. */
  lemma {:induction false} PerfectKeeps(st: LineState, items: seq<Item>)
    ensures var r := Perfect(st, items);
      |r.found| >= |st.found| && r.found[..|st.found|] == st.found && (st.remaining == [] ==> r.remaining == [])
  {
    if items != [] {
      PerfectKeeps(st, items[..|items| - 1]);
    }
  }

  /** `match_items`: for each line, the exact pass then the fuzzy pass. */
  method MatchItems(lines: seq<string>, items: seq<Item>, ratio: Ratio, threshold: int) returns (found: seq<Item>)
    ensures found == MatchAll(lines, items, ratio, threshold).0
    ensures forall i :: 0 <= i < |found| ==> found[i] in items
    ensures forall i, j :: 0 <= i < j < |found| ==> found[i].name != found[j].name
  {
    found := [];
    var matched: set<string> := {};
    for li := 0 to |lines|
      invariant (found, matched) == MatchAll(lines[..li], items, ratio, threshold)
    {
      assert lines[..li + 1][..li] == lines[..li];
      found, matched := MatchOneLine(found, matched, lines[li], items, ratio, threshold);
    }
    assert lines[..|lines|] == lines;
    MatchAllGood(lines, items, ratio, threshold);
  }

  /** The body of the loop over lines: strip and lower-case the line, run the
      exact pass, and run the fuzzy pass on what is left of it. */
  method MatchOneLine(found0: seq<Item>, matched0: set<string>, line: string, items: seq<Item>, ratio: Ratio, threshold: int)
    returns (found: seq<Item>, matched: set<string>)
    ensures (found, matched) == MatchLine(found0, matched0, line, items, ratio, threshold)
  {
    var remaining;
    found, matched, remaining := ExactPass(found0, matched0, LowerStr(Strip(line)), items);
    if remaining != [] {
      var best := FuzzyPass(remaining, items, matched, ratio, threshold);
      if best.Some? && items[best.value].name != [] {
        found := found + [items[best.value]];
        matched := matched + {items[best.value].name};
      }
    }
  }

  /** The perfect-matching loop of one line. */
  method ExactPass(found0: seq<Item>, matched0: set<string>, line: string, items: seq<Item>)
    returns (found: seq<Item>, matched: set<string>, remaining: string)
    ensures LineState(found, matched, remaining) == Perfect(LineState(found0, matched0, line), items)
  {
    found, matched, remaining := found0, matched0, line;
    for k := 0 to |items|
      invariant LineState(found, matched, remaining) == Perfect(LineState(found0, matched0, line), items[..k])
    {
      assert items[..k + 1][..k] == items[..k];
      var key := LowerStr(items[k].name);
      if Contains(remaining, key) && items[k].name !in matched {
        found := found + [items[k]];
        matched := matched + {items[k].name};
        remaining := Strip(RemoveFirst(remaining, key));
      }
    }
    assert items[..|items|] == items;
  }

  /** The fuzzy-matching loop: the position of the unmatched item with the
      highest score at or above the threshold, the first one on a tie. */
  method FuzzyPass(remaining: string, items: seq<Item>, matched: set<string>, ratio: Ratio, threshold: int)
    returns (best: Option<nat>)
    ensures best == BestIndex(remaining, items, matched, ratio, threshold)
  {
    best := None;
    var highest := 0;
    for k := 0 to |items|
      invariant best == BestIndex(remaining, items[..k], matched, ratio, threshold)
      invariant best.Some? ==> best.value < k
      invariant highest == if best.Some? then ScoreOf(remaining, items[best.value], ratio) else 0
    {
      assert items[..k + 1][..k] == items[..k];
      if items[k].name !in matched {
        var similarity := ratio(remaining, LowerStr(items[k].name));
        if similarity > highest && similarity >= threshold {
          best := Some(k);
          highest := similarity;
        }
      }
    }
    assert items[..|items|] == items;
  }

  // ---------------------------------------------------------------------------
  // resolve_tie

  datatype TieError =
    | NoCandidates                   // `tied_items[0]` on an empty list
    | IndexOutOfRange(position: nat) // `best_match[i]` past the end of `best_match`

  /** The first position, below both lengths, where the two strings differ. */
  function FirstDifferenceFrom(line: string, item: string, from: nat): (r: Option<nat>)
    requires from <= |line| && from <= |item|
    ensures r.Some? ==> from <= r.value < |line| && r.value < |item| && line[r.value] != item[r.value]
                        && forall i :: from <= i < r.value ==> line[i] == item[i]
    ensures r.None? ==> forall i :: from <= i < |line| && i < |item| ==> line[i] == item[i]
    decreases |line| - from
  {
    if from == |line| || from == |item| then None
    else if line[from] != item[from] then Some(from)
    else FirstDifferenceFrom(line, item, from + 1)
  }

  function Distance(a: char, b: char): nat
  {
    if a as int >= b as int then a as int - b as int else b as int - a as int
  }

  /** One pass of the outer loop of `resolve_tie` with `item`: at the first
      differing position, take `item` when its character is strictly closer to
      the line's than `best`'s is; with no difference, take `item` when it is
      strictly shorter. */
  function TieStep(line: string, best: string, item: string): Result<string, TieError>
  {
    match FirstDifferenceFrom(line, item, 0)
    case None => Ok(if |item| < |best| then item else best)
    case Some(i) =>
      if i >= |best| then Err(IndexOutOfRange(i))
      else Ok(if Distance(line[i], item[i]) < Distance(line[i], best[i]) then item else best)
  }

  /** The outer loop of `resolve_tie` over `tied`, from the start value `first`. */
  function TieFold(line: string, first: string, tied: seq<string>): Result<string, TieError>
  {
    if tied == [] then Ok(first)
    else
      match TieFold(line, first, tied[..|tied| - 1])
      case Err(e) => Err(e)
      case Ok(best) => TieStep(line, best, tied[|tied| - 1])
  }

  /** `resolve_tie`: start from the first candidate and scan them all. */
  function ResolveTie(line: string, tied: seq<string>): Result<string, TieError>
  {
    if tied == [] then Err(NoCandidates) else TieFold(line, tied[0], tied)
  }

  lemma {:induction false} TieFoldMember(line: string, first: string, tied: seq<string>)
    ensures TieFold(line, first, tied).Ok? ==> TieFold(line, first, tied).value == first || TieFold(line, first, tied).value in tied
  {
    if tied != [] {
      var init := tied[..|tied| - 1];
      TieFoldMember(line, first, init);
      if TieFold(line, first, init).Ok? && TieFold(line, first, init).value != first {
        assert TieFold(line, first, init).value in init;
        assert forall x :: x in init ==> x in tied;
      }
    }
  }

  /** A tie is resolved to one of the tied names. */
  lemma ResolveTieMember(line: string, tied: seq<string>)
    ensures ResolveTie(line, tied).Ok? ==> ResolveTie(line, tied).value in tied
  {
    if tied != [] {
      TieFoldMember(line, tied[0], tied);
    }
  }

  lemma {:induction false} TieFoldTotal(line: string, first: string, tied: seq<string>)
    requires |first| >= |line|
    requires forall k :: 0 <= k < |tied| ==> |tied[k]| >= |line|
    ensures TieFold(line, first, tied).Ok? && |TieFold(line, first, tied).value| >= |line|
  {
    if tied != [] {
      TieFoldTotal(line, first, tied[..|tied| - 1]);
    }
  }

  /** When no candidate is shorter than the line, the index error cannot happen. */
  lemma ResolveTieTotal(line: string, tied: seq<string>)
    requires tied != [] && forall k :: 0 <= k < |tied| ==> |tied[k]| >= |line|
    ensures ResolveTie(line, tied).Ok?
  {
    TieFoldTotal(line, tied[0], tied);
  }

  /** The index error: `"a"` is kept first, `"abd"` first differs from `"abc"`
      at position 2, and `"a"[2]` does not exist. */
  lemma ResolveTieIndexError()
    ensures ResolveTie("abc", ["a", "abd"]) == Err(IndexOutOfRange(2))
  {
    var tied := ["a", "abd"];
    assert tied[..1][..0] == [];
    assert FirstDifferenceFrom("abc", "a", 1) == None;
    assert FirstDifferenceFrom("abc", "a", 0) == None;
    assert TieFold("abc", "a", tied[..1]) == Ok("a");
    assert FirstDifferenceFrom("abc", "abd", 2) == Some(2);
    assert FirstDifferenceFrom("abc", "abd", 0) == Some(2);
  }

  /** The candidate whose differing character is nearer the line's wins. */
  lemma ResolveTieNearest()
    ensures ResolveTie("abc", ["abx", "abd"]) == Ok("abd")
  {
    var tied := ["abx", "abd"];
    assert tied[..1][..0] == [];
    assert FirstDifferenceFrom("abc", "abx", 0) == Some(2);
    assert TieFold("abc", "abx", tied[..1]) == Ok("abx");
    assert FirstDifferenceFrom("abc", "abd", 0) == Some(2);
  }

  lemma {:induction false} TieFoldErrSticks(line: string, first: string, tied: seq<string>, n: nat)
    requires n <= |tied| && TieFold(line, first, tied[..n]).Err?
    ensures TieFold(line, first, tied) == TieFold(line, first, tied[..n])
    decreases |tied| - n
  {
    if n < |tied| {
      assert tied[..n + 1][..n] == tied[..n];
      TieFoldErrSticks(line, first, tied, n + 1);
    } else {
      assert tied[..n] == tied;
    }
  }

  /** `resolve_tie` as written: the outer loop over the candidates, the inner
      loop over the common prefix, stopping with an error where Python raises. */
  method ResolveTieLoop(line: string, tied: seq<string>) returns (r: Result<string, TieError>)
    ensures r == ResolveTie(line, tied)
    ensures r.Ok? ==> r.value in tied
  {
    if tied == [] {
      return Err(NoCandidates);
    }
    var best := tied[0];
    for n := 0 to |tied|
      invariant TieFold(line, tied[0], tied[..n]) == Ok(best)
    {
      assert tied[..n + 1][..n] == tied[..n];
      var item := tied[n];
      ghost var prev := best;
      var i := 0;
      var differs := false;
      while i < |line| && i < |item|
        invariant i <= |line| && i <= |item|
        invariant forall j :: 0 <= j < i ==> line[j] == item[j]
        invariant !differs && best == prev
      {
        if line[i] != item[i] {
          assert FirstDifferenceFrom(line, item, 0) == Some(i);
          if i >= |best| {
            assert TieFold(line, tied[0], tied[..n + 1]) == Err(IndexOutOfRange(i));
            TieFoldErrSticks(line, tied[0], tied, n + 1);
            return Err(IndexOutOfRange(i));
          }
          if Distance(line[i], item[i]) < Distance(line[i], best[i]) {
            best := item;
          }
          differs := true;
          break;
        }
        i := i + 1;
      }
      if !differs {
        assert FirstDifferenceFrom(line, item, 0) == None;
        if |item| < |best| {
          best := item;
        }
      }
      assert TieStep(line, prev, item) == Ok(best);
    }
    assert tied[..|tied|] == tied;
    ResolveTieMember(line, tied);
    r := Ok(best);
  }

  // ---------------------------------------------------------------------------
  // Tokens to boxes

  /** The token loop of `process_text_inventory`: each token with a non-empty
      stripped text goes to the first box (bounds included) holding its
      centre, and its normalised text is added there when not empty. */
  method AssignTexts(tokens: seq<Token>, boxes: seq<Rect>) returns (boxTexts: seq<seq<string>>)
    ensures boxTexts == Tokens.Placed(tokens, boxes, Normalize)
    ensures forall k :: 0 <= k < |boxTexts| ==> AllClean(boxTexts[k])
  {
    boxTexts := Tokens.AssignTokens(tokens, boxes, Normalize);
    PlacedClean(tokens, boxes);
  }

  /** Texts that are all non-empty and normalised. */
  ghost predicate AllClean(texts: seq<string>)
  {
    forall s :: s in texts ==> s != [] && Clean(s)
  }

  /** What every box holds after the token loop is non-empty normalised text. */
  lemma {:induction false} PlacedClean(tokens: seq<Token>, boxes: seq<Rect>)
    ensures forall k :: 0 <= k < |boxes| ==> AllClean(Tokens.Placed(tokens, boxes, Normalize)[k])
  {
    if tokens != [] {
      var init := tokens[..|tokens| - 1];
      var t := tokens[|tokens| - 1];
      PlacedClean(init, boxes);
      if Tokens.Lands(t, boxes, Normalize) {
        var before := Tokens.Placed(init, boxes, Normalize);
        var k0 := Tokens.Target(t, boxes);
        var c := Tokens.Cleaned(t, Normalize);
        NormalizeClean(Strip(t.text));
        assert AllClean(before[k0] + [c]) by {
          forall s | s in before[k0] + [c]
            ensures s != [] && Clean(s)
          {
            if s != c {
              assert s in before[k0];
            }
          }
        }
      }
    }
  }

  /** `" ".join(texts)`. */
  function JoinSpaced(texts: seq<string>): string
  {
    if texts == [] then []
    else if |texts| == 1 then texts[0]
    else JoinSpaced(texts[..|texts| - 1]) + " " + texts[|texts| - 1]
  }

  /** Joining clean, non-empty texts gives a clean text that is empty exactly
      when there is nothing to join. */
  lemma {:induction false} JoinSpacedClean(texts: seq<string>)
    requires forall k :: 0 <= k < |texts| ==> texts[k] != [] && Clean(texts[k])
    ensures Clean(JoinSpaced(texts))
    ensures JoinSpaced(texts) == [] <==> texts == []
  {
    if |texts| > 1 {
      var init := texts[..|texts| - 1];
      JoinSpacedClean(init);
      var a := JoinSpaced(init);
      var b := texts[|texts| - 1];
      assert JoinSpaced(texts) == a + " " + b;
      forall i | 0 <= i < |a + " " + b|
        ensures IsAlnum((a + " " + b)[i]) || IsSpace((a + " " + b)[i])
      {
        if i < |a| {
          assert (a + " " + b)[i] == a[i];
        } else if i == |a| {
          assert (a + " " + b)[i] == ' ';
        } else {
          assert (a + " " + b)[i] == b[i - |a| - 1];
        }
      }
    }
  }

  /** `combined_box_texts`: the texts of each box joined with spaces. */
  function CombineBoxTexts(boxTexts: seq<seq<string>>): (combined: seq<string>)
    ensures |combined| == |boxTexts|
    ensures forall k :: 0 <= k < |boxTexts| ==> combined[k] == JoinSpaced(boxTexts[k])
  {
    seq(|boxTexts|, k requires 0 <= k < |boxTexts| => JoinSpaced(boxTexts[k]))
  }
}
