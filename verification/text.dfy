/**
 * Character classes and string helpers shared by the back end (Python `str`
 * methods) and the front end (JavaScript `toLowerCase`, `includes`).
 * Character classes are the ASCII ones.
 */
module Text {
  import opened Wrappers

  predicate IsDigit(c: char) { '0' <= c <= '9' }

  predicate IsUpper(c: char) { 'A' <= c <= 'Z' }

  predicate IsLetter(c: char) { IsUpper(c) || 'a' <= c <= 'z' }

  /** Python's `str.isalnum` on one character. */
  predicate IsAlnum(c: char) { IsLetter(c) || IsDigit(c) }

  /** Python's `str.isspace` on one character: the ASCII whitespace it accepts. */
  predicate IsSpace(c: char)
  {
    // space; tab, line feed, vertical tab, form feed, carriage return;
    // the file, group, record and unit separators
    c == ' ' || '\t' <= c <= '\r' || '\U{1C}' <= c <= '\U{1F}'
  }

  function Lower(c: char): (r: char)
    ensures !IsUpper(r)
    ensures !IsUpper(c) ==> r == c
    ensures IsLetter(c) <==> IsLetter(r)
    ensures IsDigit(c) <==> IsDigit(r)
  {
    if IsUpper(c) then (c as int + 32) as char else c
  }

  /** `toLowerCase()` / `lower()`, character by character. */
  function LowerStr(s: string): (r: string)
    ensures |r| == |s|
    ensures forall i :: 0 <= i < |s| ==> r[i] == Lower(s[i])
  {
    seq(|s|, i requires 0 <= i < |s| => Lower(s[i]))
  }

  lemma LowerStrIdempotent(s: string)
    ensures LowerStr(LowerStr(s)) == LowerStr(s)
  {
  }

  /** Removes leading whitespace. */
  function TrimStart(s: string): (r: string)
    ensures |r| <= |s| && r == s[|s| - |r|..]
    ensures forall i :: 0 <= i < |s| - |r| ==> IsSpace(s[i])
    ensures r == [] || !IsSpace(r[0])
  {
    if s != [] && IsSpace(s[0]) then TrimStart(s[1..]) else s
  }

  /** Removes trailing whitespace. */
  function TrimEnd(s: string): (r: string)
    ensures |r| <= |s| && r == s[..|r|]
    ensures forall i :: |r| <= i < |s| ==> IsSpace(s[i])
    ensures r == [] || !IsSpace(r[|r| - 1])
  {
    if s != [] && IsSpace(s[|s| - 1]) then TrimEnd(s[..|s| - 1]) else s
  }

  /** Python's `str.strip()`: whitespace removed at both ends. */
  function Strip(s: string): (r: string)
    ensures |r| <= |s|
    ensures r == [] || (!IsSpace(r[0]) && !IsSpace(r[|r| - 1]))
  {
    TrimEnd(TrimStart(s))
  }

  /** What `strip` keeps is the slice of `s` between the leading and the
      trailing whitespace. */
  lemma StripSlice(s: string)
    ensures var i := |s| - |TrimStart(s)|;
      && OccursAt(s, Strip(s), i)
      && (forall j :: 0 <= j < i ==> IsSpace(s[j]))
      && (forall j :: i + |Strip(s)| <= j < |s| ==> IsSpace(s[j]))
  {
    var t := TrimStart(s);
    SliceOfSuffix(s, |s| - |t|, TrimEnd(t));
  }

  /** A prefix `r` of the suffix `s[i..]` occurs in `s` at `i`, and what
      follows it in `s` is what follows it in the suffix. */
  lemma SliceOfSuffix(s: string, i: nat, r: string)
    requires i <= |s| && |r| <= |s| - i && r == s[i..][..|r|]
    requires forall j :: |r| <= j < |s| - i ==> IsSpace(s[i..][j])
    ensures OccursAt(s, r, i)
    ensures forall j :: i + |r| <= j < |s| ==> IsSpace(s[j])
  {
    assert s[i..i + |r|] == s[i..][..|r|];
    forall j | i + |r| <= j < |s|
      ensures IsSpace(s[j])
    {
      assert s[j] == s[i..][j - i];
    }
  }

  /** `sub` occurs in `s` starting at position `i`. */
  predicate OccursAt(s: string, sub: string, i: nat)
  {
    i + |sub| <= |s| && s[i..i + |sub|] == sub
  }

  /** Python's `sub in s`, JavaScript's `s.includes(sub)`. */
  predicate Contains(s: string, sub: string)
  {
    exists i: nat | i <= |s| :: OccursAt(s, sub, i)
  }

  /** The first position at or after `from` where `sub` occurs. */
  function FirstIndexFrom(s: string, sub: string, from: nat): (r: Option<nat>)
    ensures r.Some? ==> from <= r.value && OccursAt(s, sub, r.value)
    ensures r.Some? ==> forall j :: from <= j < r.value ==> !OccursAt(s, sub, j)
    ensures r.None? ==> forall j: nat :: from <= j ==> !OccursAt(s, sub, j)
    decreases |s| - from
  {
    if from + |sub| > |s| then None
    else if OccursAt(s, sub, from) then Some(from)
    else FirstIndexFrom(s, sub, from + 1)
  }

  function FirstIndex(s: string, sub: string): (r: Option<nat>)
    ensures r.Some? <==> Contains(s, sub)
    ensures r.Some? ==> OccursAt(s, sub, r.value)
    ensures r.Some? ==> forall j :: 0 <= j < r.value ==> !OccursAt(s, sub, j)
  {
    FirstIndexFrom(s, sub, 0)
  }

  /** Python's `s.replace(sub, '', 1)`: the first occurrence of `sub` is cut out. */
  function RemoveFirst(s: string, sub: string): (r: string)
    ensures Contains(s, sub) ==> |r| == |s| - |sub|
    ensures Contains(s, sub) ==> exists k: nat :: OccursAt(s, sub, k) && r == s[..k] + s[k + |sub|..]
                                  && forall j :: 0 <= j < k ==> !OccursAt(s, sub, j)
    ensures !Contains(s, sub) ==> r == s
  {
    match FirstIndex(s, sub)
    case None => s
    case Some(k) => s[..k] + s[k + |sub|..]
  }

  /** The elements of `s` that satisfy `p`, in their original order (`Array.filter`). */
  function Keep<T>(p: T -> bool, s: seq<T>): (r: seq<T>)
    ensures |r| <= |s|
  {
    if s == [] then [] else (if p(s[0]) then [s[0]] else []) + Keep(p, s[1..])
  }

  /** Every survivor of the filter is an element of the input that satisfies `p`. */
  lemma {:induction false} KeepSound<T>(p: T -> bool, s: seq<T>, x: T)
    requires x in Keep(p, s)
    ensures x in s && p(x)
  {
    if s != [] && !(p(s[0]) && x == s[0]) {
      KeepSound(p, s[1..], x);
    }
  }

  lemma {:induction false} KeepComplete<T>(p: T -> bool, s: seq<T>, x: T)
    requires x in s && p(x)
    ensures x in Keep(p, s)
  {
    if s[0] != x {
      KeepComplete(p, s[1..], x);
    }
  }

  /** Filtering distributes over concatenation: the order of survivors is the input order. */
  lemma {:induction false} KeepAppend<T>(p: T -> bool, a: seq<T>, b: seq<T>)
    ensures Keep(p, a + b) == Keep(p, a) + Keep(p, b)
  {
    if a == [] {
      assert a + b == b;
    } else {
      var head := if p(a[0]) then [a[0]] else [];
      assert (a + b)[0] == a[0];
      assert (a + b)[1..] == a[1..] + b;
      KeepAppend(p, a[1..], b);
      calc {
        Keep(p, a + b);
        head + Keep(p, a[1..] + b);
        head + (Keep(p, a[1..]) + Keep(p, b));
        (head + Keep(p, a[1..])) + Keep(p, b);
      }
    }
  }

  /** Filtering one element further along the input. */
  lemma KeepStep<T>(p: T -> bool, s: seq<T>, i: nat)
    requires i < |s|
    ensures Keep(p, s[..i + 1]) == Keep(p, s[..i]) + (if p(s[i]) then [s[i]] else [])
  {
    assert s[..i + 1] == s[..i] + [s[i]];
    KeepAppend(p, s[..i], [s[i]]);
    assert [s[i]][1..] == [];
  }

  /** Two filters in a row are one filter by the conjunction. */
  lemma {:induction false} KeepKeep<T>(p: T -> bool, q: T -> bool, pq: T -> bool, s: seq<T>)
    requires forall x :: pq(x) == (p(x) && q(x))
    ensures Keep(q, Keep(p, s)) == Keep(pq, s)
  {
    if s != [] {
      KeepKeep(p, q, pq, s[1..]);
      KeepAppend(q, if p(s[0]) then [s[0]] else [], Keep(p, s[1..]));
    }
  }

  /** Filtering by a predicate that accepts every element is the identity. */
  lemma {:induction false} KeepAll<T>(p: T -> bool, s: seq<T>)
    requires forall x :: x in s ==> p(x)
    ensures Keep(p, s) == s
  {
    if s != [] {
      KeepAll(p, s[1..]);
    }
  }
}
