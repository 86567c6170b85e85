/**
 * The token loop both readers share (backend/Number_Extract.py and
 * backend/Text_Extract.py): every OCR token with a non-empty stripped text
 * goes to the first box, in box order, whose region holds the token's
 * centre, and the box's list gets the token's cleaned text when that text is
 * not empty. The number reader keeps the text as it is; the text reader
 * normalises it first.
 */
module Tokens {
  import opened Text
  import opened Geometry

  /** The box a token goes to: -1 for a token whose stripped text is empty or
      whose centre lies in no region, else the first region holding it. */
  function Target(t: Token, rects: seq<Rect>): (k: int)
    ensures -1 <= k < |rects|
  {
    if Strip(t.text) == [] then -1 else FirstContaining(rects, Centre(t))
  }

  /** The text a token contributes, once its box is known. */
  function Cleaned(t: Token, clean: string -> string): string
  {
    clean(Strip(t.text))
  }

  /** Whether a token adds a text to some box. */
  predicate Lands(t: Token, rects: seq<Rect>, clean: string -> string)
  {
    Target(t, rects) != -1 && Cleaned(t, clean) != []
  }

  /** The per-box text lists once all of `tokens` have been processed. */
  function Placed(tokens: seq<Token>, rects: seq<Rect>, clean: string -> string): (texts: seq<seq<string>>)
    ensures |texts| == |rects|
  {
    if tokens == [] then seq(|rects|, _ => [])
    else
      var before := Placed(tokens[..|tokens| - 1], rects, clean);
      var t := tokens[|tokens| - 1];
      if Lands(t, rects, clean) then
        var k := Target(t, rects);
        before[k := before[k] + [Cleaned(t, clean)]]
      else before
  }

  /** Number of tokens that add a text to some box. */
  function LandedCount(tokens: seq<Token>, rects: seq<Rect>, clean: string -> string): nat
  {
    if tokens == [] then 0
    else
      LandedCount(tokens[..|tokens| - 1], rects, clean)
        + (if Lands(tokens[|tokens| - 1], rects, clean) then 1 else 0)
  }

  /** Total number of texts over all boxes. */
  function TextCount(texts: seq<seq<string>>): nat
  {
    if texts == [] then 0 else TextCount(texts[..|texts| - 1]) + |texts[|texts| - 1]|
  }

  lemma {:induction false} TextCountAppendAt(texts: seq<seq<string>>, k: nat, s: string)
    requires k < |texts|
    ensures TextCount(texts[k := texts[k] + [s]]) == TextCount(texts) + 1
    decreases |texts|
  {
    var n := |texts| - 1;
    var after := texts[k := texts[k] + [s]];
    assert after[..n] == if k < n then texts[..n][k := texts[k] + [s]] else texts[..n];
    if k < n {
      TextCountAppendAt(texts[..n], k, s);
    }
  }

  lemma {:induction false} TextCountEmpty(n: nat)
    ensures TextCount(seq(n, _ => [])) == 0
  {
    if n > 0 {
      var e: seq<seq<string>> := seq(n, _ => []);
      assert e[..n - 1] == seq(n - 1, _ => []);
      TextCountEmpty(n - 1);
    }
  }

  /** Each token reaches at most one box: the boxes together hold exactly one
      text per token that lands. */
  lemma {:induction false} EachTokenOnce(tokens: seq<Token>, rects: seq<Rect>, clean: string -> string)
    ensures TextCount(Placed(tokens, rects, clean)) == LandedCount(tokens, rects, clean)
  {
    if tokens == [] {
      TextCountEmpty(|rects|);
    } else {
      var init := tokens[..|tokens| - 1];
      var t := tokens[|tokens| - 1];
      EachTokenOnce(init, rects, clean);
      if Lands(t, rects, clean) {
        TextCountAppendAt(Placed(init, rects, clean), Target(t, rects), Cleaned(t, clean));
      }
    }
  }

  /** Every text a box holds is the cleaned, non-empty text of a token whose
      centre lies in that box's region and in no earlier box's region (the
      contract of `FirstContaining`, which `Target` returns). */
  lemma {:induction false} PlacedSound(tokens: seq<Token>, rects: seq<Rect>, clean: string -> string, k: nat, s: string)
    requires k < |rects| && s in Placed(tokens, rects, clean)[k]
    ensures exists t :: t in tokens && s == Cleaned(t, clean) && s != [] && Target(t, rects) == k
  {
    var init := tokens[..|tokens| - 1];
    var t := tokens[|tokens| - 1];
    if s in Placed(init, rects, clean)[k] {
      PlacedSound(init, rects, clean, k, s);
      var u :| u in init && s == Cleaned(u, clean) && s != [] && Target(u, rects) == k;
      assert u in tokens;
    } else {
      assert s == Cleaned(t, clean) && Target(t, rects) == k;
    }
  }

  /** The token loop: strip the token, skip it when empty, find the first
      region holding its centre, and append the cleaned text there when it is
      not empty. */
  method AssignTokens(tokens: seq<Token>, rects: seq<Rect>, clean: string -> string)
    returns (boxTexts: seq<seq<string>>)
    ensures |boxTexts| == |rects|
    ensures boxTexts == Placed(tokens, rects, clean)
  {
    boxTexts := seq(|rects|, _ => []);
    for i := 0 to |tokens|
      invariant boxTexts == Placed(tokens[..i], rects, clean)
    {
      assert tokens[..i + 1][..i] == tokens[..i];
      var text := Strip(tokens[i].text);
      if text != [] {
        var k := FindBox(rects, Centre(tokens[i]));
        if k != -1 {
          var cleaned := clean(text);
          if cleaned != [] {
            boxTexts := boxTexts[k := boxTexts[k] + [cleaned]];
          }
        }
      }
    }
    assert tokens[..|tokens|] == tokens;
  }
}
