# FTF inventory calculator: a Dafny model

The FTF calculator reads screenshots of a game inventory. It works out which
item is in each inventory box and how many of it there are. It then prices
the boxes against a catalogue of item values and shows a results table. A
second page compares the value of two trade offers.

This project models the logic of that system in Dafny and proves what it
guarantees. The modules follow the source files:

- `Text` models the Python string operations the backend relies on: `lower`,
  `strip`, substring search, `replace(sub, '', 1)` and filtering
  comprehensions.
- `Geometry` models the token centre (`x + w // 2`) and the search for the
  first box whose region holds it.
- `Tokens` models the token-to-box loop that both OCR readers share.
- `Quantity` models `backend/Number_Extract.py`:
  - the box grid;
  - the top-right corner region where stack sizes are printed;
  - the digit filter, with `"1"` for a box without digits.
- `Matching` models from `backend/Text_Extract.py`:
  - `normalize_text`;
  - `match_items` (an exact pass, then a fuzzy pass);
  - `resolve_tie`;
  - the joining of each box's texts.
- `Resolution` gives the functional specification of the assignment in
  `process_text_inventory`. It covers the first pass, the duplicated items,
  the stable sort by score, and the rematching of the boxes that lose a
  duplicated item. It also holds the theorem about `final_matches`.
- `Inventory` gives the same assignment as the source writes it:
  - loops over dictionaries;
  - a growing set of used names.

  Each loop is proved equal to the `Resolution` function that specifies it.
- `Merge` models `merge_and_calculate` in `backend/main.py`. It joins
  quantities with matches, numbers the rows continuously across images and
  totals them. A quantity text that `int()` rejects is reported as an error.
- `Trade` models `frontend/trade.js`:
  - the nine-slot offer grids, as a class over an `array`;
  - the item picker and its filters;
  - the removal that compacts the grid;
  - the win/fair/loss comparison.
- `Upload` models `frontend/app.js`: the page flags that enable the Calculate
  button, the handlers that change them, and the rows of the results table.

External services are parameters of the model:

- OCR output is a sequence of tokens (text, left, top, width, height).
- `fuzz.ratio` is a function parameter `ratio` whose values lie in 0..100.
- `round(x, 3)` is a function parameter `round3`.
- The response of the `/process` request is an input of `Upload.UploadPage.Process`.

## Model

| member | source | states |
|---|---|---|
| Text.Lower | backend/Text_Extract.py:64 | `str.lower` on one character: the result is never upper-case, other characters are unchanged, and letter and digit classes are kept |
| Text.LowerStr | backend/Text_Extract.py:64 | lower-casing keeps the length and maps each character by `Lower` |
| Text.LowerStrIdempotent | backend/Text_Extract.py:69 | lower-casing a lower-cased name changes nothing |
| Text.TrimStart | backend/Text_Extract.py:64 | the result is a suffix of the input, everything removed is white space, and it does not start with white space |
| Text.TrimEnd | backend/Text_Extract.py:64 | the result is a prefix of the input, everything removed is white space, and it does not end with white space |
| Text.Strip | backend/Text_Extract.py:277 | `str.strip`: the result occurs in the input and neither starts nor ends with white space |
| Text.StripSlice | backend/Text_Extract.py:277 | `strip` keeps the slice between the leading and the trailing white space |
| Text.FirstIndexFrom | backend/Text_Extract.py:72 | the first occurrence of `sub` at or after `from`, or None when there is none |
| Text.FirstIndex | backend/Text_Extract.py:69 | `sub in s` holds exactly when there is a first occurrence, and the returned index is the leftmost one |
| Text.RemoveFirst | backend/Text_Extract.py:72 | `replace(sub, '', 1)`: when `sub` occurs, one occurrence is cut out and the length drops by the length of `sub`; otherwise the text is unchanged |
| Text.Keep | backend/Number_Extract.py:90 | a filtering comprehension never grows its input |
| Text.KeepSound | backend/Number_Extract.py:90 | every kept element was in the input and passes the test |
| Text.KeepComplete | backend/Number_Extract.py:90 | every input element that passes the test is kept |
| Text.KeepAppend | backend/Number_Extract.py:90 | filtering keeps the input order: filtering `a + b` is filtering `a` then `b` |
| Text.KeepKeep | frontend/trade.js:79-95 | filtering twice is filtering once by both tests |
| Text.KeepAll | frontend/trade.js:79-95 | a filter that every element passes changes nothing |
| Geometry.Centre | backend/Number_Extract.py:70-74 | the centre is the corner plus half the width and height, with Python's floor division |
| Geometry.FirstContaining | backend/Number_Extract.py:77-83 | -1 exactly when no region holds the point (bounds inclusive), else the first region that holds it |
| Geometry.FindBox | backend/Text_Extract.py:251-261 | the box scan with `break` returns the first box whose region holds the centre, or -1 |
| Tokens.Target | backend/Number_Extract.py:67-83 | the box a token goes to is -1 or a valid box index |
| Tokens.Placed | backend/Text_Extract.py:243-261 | after the token loop there is one text list per box |
| Tokens.EachTokenOnce | backend/Number_Extract.py:77-83 | the boxes together hold exactly one text per token that lands, so no token is counted in two boxes |
| Tokens.PlacedSound | backend/Text_Extract.py:244-258 | every text in a box is the cleaned, non-empty text of a token whose centre is in that box and in no earlier box |
| Tokens.AssignTokens | backend/Text_Extract.py:243-261 | the token loop computes `Placed` |
| Quantity.ExtractNumbersOnly | backend/Number_Extract.py:116-120 | `extract_numbers_only` is never longer than its input |
| Quantity.ExtractNumbersOnlyExact | backend/Number_Extract.py:116-120 | a character is in the result exactly when it is a digit of the input |
| Quantity.ExtractNumbersOnlyAppend | backend/Number_Extract.py:116-120 | digits keep their order: the digits of `a + b` are the digits of `a` followed by those of `b` |
| Quantity.ExtractNumbersOnlyIdempotent | backend/Number_Extract.py:116-120 | filtering digits twice is the same as once |
| Quantity.BoxQuantity | backend/Number_Extract.py:87-92 | a box's quantity text is always a non-empty digit string, so `int()` in `merge_and_calculate` accepts it |
| Quantity.GenerateGrid | backend/Number_Extract.py:139-149 | `generate_grid` makes (rows-1)·(cols-1) boxes numbered 1, 2, … row by row; box (i, j) spans column lines j, j+1 and row lines i, i+1 |
| Quantity.AppendRow | backend/Number_Extract.py:143-147 | the inner loop appends the boxes of row `i` left to right, numbered on from the boxes before it |
| Quantity.DefaultGrid | backend/Number_Extract.py:127-137 | the default layout has 15 boxes; the first spans from the origin and the last ends at the image's corner |
| Quantity.CornerInside | backend/Number_Extract.py:151-170 | the corner region shares the box's top and right edge and lies inside the box; after `int()` truncation its height is the square size rounded down and its width rounded up |
| Quantity.CornerExample | backend/Number_Extract.py:162-170 | a 10×10 box at 25 % gives the 3×2 region (7,0)-(10,2), which is not square |
| Quantity.Corners | backend/Number_Extract.py:77-78 | one corner region per box, in box order |
| Quantity.AssignTokens | backend/Number_Extract.py:67-83 | the quantity reader's token loop is `Placed` over the corner regions, with the stripped text kept as is |
| Quantity.CombineBoxTexts | backend/Number_Extract.py:85-92 | every box gets `BoxQuantity` of its texts, a non-empty digit string |
| Matching.MapChar | backend/Text_Extract.py:37-55 | letters, digits and white space are kept, and any other character without a replacement is dropped |
| Matching.MapCharClean | backend/Text_Extract.py:37-55 | every replacement, and every kept character, is a letter, digit or white space |
| Matching.MapCharExamples | backend/Text_Extract.py:37-55 | '£' becomes "E", '™' becomes "TM", digits and spaces stay, and '!' is dropped |
| Matching.NormalizeAppend | backend/Text_Extract.py:49-56 | `normalize_text` works character by character: normalising `a + b` is normalising `a` then `b` |
| Matching.NormalizeClean | backend/Text_Extract.py:49-56 | the output holds only letters, digits and white space |
| Matching.NormalizeKeepsClean | backend/Text_Extract.py:54-55 | a text of letters, digits and white space is unchanged |
| Matching.NormalizeIdempotent | backend/Text_Extract.py:35-56 | normalising twice is normalising once |
| Matching.NormalizeExample | backend/Text_Extract.py:37-47 | "£5 ™!" becomes "E5 TM" |
| Matching.NormalizeText | backend/Text_Extract.py:35-56 | the loop computes `Normalize` and its output is clean |
| Matching.BestIndex | backend/Text_Extract.py:76-85 | the fuzzy pass picks a valid catalogue position or nothing |
| Matching.BestIndexSpec | backend/Text_Extract.py:75-86 | the fuzzy pass picks nothing exactly when no unmatched item scores at least the threshold and above 0; otherwise it picks the first item with the highest such score |
| Matching.ExactPass | backend/Text_Extract.py:67-72 | the perfect-matching loop computes `Perfect` on the line |
| Matching.FuzzyPass | backend/Text_Extract.py:75-86 | the fuzzy loop computes `BestIndex` |
| Matching.MatchOneLine | backend/Text_Extract.py:63-89 | the body of the loop over lines computes `MatchLine` |
| Matching.MatchLine | backend/Text_Extract.py:63-89 | a line adds its exact matches and at most one fuzzy match, and no fuzzy match when the exact pass consumed the whole line |
| Matching.PerfectGood | backend/Text_Extract.py:67-72 | the exact pass only adds catalogue entries whose names were not matched before, and the remaining text never grows |
| Matching.GoodAdd | backend/Text_Extract.py:63-89 | adding an unmatched catalogue entry keeps the found list free of repeated names |
| Matching.MatchLineGood | backend/Text_Extract.py:63-89 | one line keeps the invariant: found entries are catalogue entries and no name is found twice |
| Matching.MatchAllGood | backend/Text_Extract.py:58-90 | every item `match_items` returns is a catalogue entry with its value, and no name is returned twice |
| Matching.PerfectWholeLine | backend/Text_Extract.py:68-75 | an unmatched item whose lower-case name is the whole remaining line is found by the exact pass when no earlier catalogue entry fires, and it leaves nothing for the fuzzy pass |
| Matching.PerfectFires | backend/Text_Extract.py:68-72 | that item is the first to fire and takes the whole line |
| Matching.PerfectQuiet | backend/Text_Extract.py:68-72 | when no earlier entry's name occurs in the line or all are matched, the state is unchanged |
| Matching.PerfectAppend | backend/Text_Extract.py:68-72 | the exact pass over `a + b` is the pass over `a` followed by the pass over `b` |
| Matching.PerfectKeeps | backend/Text_Extract.py:68-72 | the exact pass only appends to the found items, and an empty line stays empty |
| Matching.MatchItems | backend/Text_Extract.py:58-90 | the nested loops compute `MatchAll`; the result holds catalogue entries with distinct names |
| Matching.FirstDifferenceFrom | backend/Text_Extract.py:96-97 | the first position where line and item differ, or None when they agree on their common prefix |
| Matching.TieFoldMember | backend/Text_Extract.py:94-106 | when the scan succeeds, its result is the first candidate or one of the tied items |
| Matching.ResolveTieMember | backend/Text_Extract.py:92-106 | a successful `resolve_tie` returns one of the tied items |
| Matching.TieFoldTotal | backend/Text_Extract.py:94-106 | when no candidate is shorter than the line, the scan never fails |
| Matching.ResolveTieTotal | backend/Text_Extract.py:92-106 | when no tied item is shorter than the line, `resolve_tie` succeeds |
| Matching.TieFoldErrSticks | backend/Text_Extract.py:94-106 | once the scan has failed, the later candidates do not change the error |
| Matching.ResolveTieIndexError | backend/Text_Extract.py:99 | with line "abc" and ties ["a", "abd"], the index 2 into the current best "a" is out of range, which raises `IndexError` |
| Matching.ResolveTieNearest | backend/Text_Extract.py:97-101 | at the first differing character the tie with the nearer code point wins ("abd" over "abx" for "abc") |
| Matching.ResolveTieLoop | backend/Text_Extract.py:92-106 | the loop with `for … else` computes `ResolveTie`, including its error, and returns a tied item when it succeeds |
| Matching.AssignTexts | backend/Text_Extract.py:243-261 | the text reader's token loop is `Placed` with `normalize_text`, and every text in every box is non-empty and clean |
| Matching.PlacedClean | backend/Text_Extract.py:256-258 | every text stored in a box is non-empty and holds only letters, digits and white space |
| Matching.JoinSpacedClean | backend/Text_Extract.py:264 | joining clean texts with spaces gives a clean text, which is empty exactly when there are no texts |
| Matching.CombineBoxTexts | backend/Text_Extract.py:264 | each box's combined text is its texts joined with single spaces |
| Resolution.FirstMax | backend/Text_Extract.py:314 | `max(…, key=score)` returns a valid position |
| Resolution.FirstMaxSpec | backend/Text_Extract.py:314 | that position holds the highest score, and every earlier position has a lower one (the first maximum wins) |
| Resolution.Scored | backend/Text_Extract.py:300-308 | one scored match per found item, with its name, value and the ratio of the lower-case text and name |
| Resolution.Analyse | backend/Text_Extract.py:276-315 | a box enters the first pass with its own number and its stripped, non-empty text |
| Resolution.AnalyseBest | backend/Text_Extract.py:300-315 | a box's best match is a catalogue entry with its value, scored against the box text, and no match of the box scores higher |
| Resolution.FirstPassSpec | backend/Text_Extract.py:276-323 | the first pass lists the matched boxes in increasing order; each entry is the analysis of box `box`, and every box whose analysis has a match appears |
| Resolution.Analyses | backend/Text_Extract.py:276-315 | the analysis of each box, box `i + 1` at position `i` |
| Resolution.PresentSound | backend/Text_Extract.py:276-315 | the matches kept from the analyses are in increasing box order, and each is the analysis of its own box |
| Resolution.PresentComplete | backend/Text_Extract.py:276-315 | every box whose analysis has a match is kept |
| Resolution.OneEntryPerBox | backend/Text_Extract.py:315 | `best_matches_per_box` holds one entry per box |
| Resolution.ClaimsExact | backend/Text_Extract.py:317-323 | `items_to_boxes[name]` holds exactly the boxes whose best match is `name` |
| Resolution.ClaimsIncreasing | backend/Text_Extract.py:317-323 | those boxes are listed in box order |
| Resolution.NamesSpec | backend/Text_Extract.py:318-319 | the keys of `items_to_boxes` are distinct, and a name is a key exactly when some box claims it |
| Resolution.DuplicateNamesSpec | backend/Text_Extract.py:326 | `duplicate_items` holds, without repeats, exactly the items that are the best match of more than one box |
| Resolution.DuplicateClaimed | backend/Text_Extract.py:326 | a name in `duplicate_items` is a key of `items_to_boxes` with more than one box |
| Resolution.AssignUniqueSpec | backend/Text_Extract.py:339-345 | the first assignment only uses boxes of the first pass; a box whose best item is not in `duplicate_items` gets that item, which is marked used; a box whose best item is duplicated gets no entry yet |
| Resolution.SortByScore | backend/Text_Extract.py:352 | the sort is a permutation of the claims |
| Resolution.Insert | backend/Text_Extract.py:352 | inserting one claim adds exactly that claim |
| Resolution.InsertDescending | backend/Text_Extract.py:352 | inserting into a list in descending score order keeps it descending |
| Resolution.SortDistinct | backend/Text_Extract.py:352 | sorting claims at distinct boxes keeps them at distinct boxes |
| Resolution.SortDescending | backend/Text_Extract.py:352 | the sorted claims are in descending score order and a permutation of the input |
| Resolution.SortHead | backend/Text_Extract.py:352-355 | the stable sort puts first the earliest claim with the highest score |
| Resolution.Pick | backend/Text_Extract.py:373-386 | a rematch picks a catalogue entry, with its value, whose name is not yet used |
| Resolution.RematchSpec | backend/Text_Extract.py:373-387 | when the pick for the box's text over the used names finds nothing, nothing changes; otherwise the box holds the pick and its name joins the used names; no other box changes, and the pick is an unused catalogue entry |
| Resolution.RematchAllSpec | backend/Text_Extract.py:364-394 | rematching the losers leaves every other box alone and gives each loser without a match an entry that was unused before |
| Resolution.RematchAllUsed | backend/Text_Extract.py:364-394 | rematching never removes a name from `used_items` |
| Resolution.RematchAllFrame | backend/Text_Extract.py:364-394 | a box that is not one of the losers keeps its entry, or its lack of one |
| Resolution.RematchAllFresh | backend/Text_Extract.py:364-394 | a loser that had no entry and gets one gets an item unused before the rematch |
| Resolution.RematchAllTurn | backend/Text_Extract.py:364-394 | the `k`-th loser ends up holding the pick for its text over the names used after the losers before it, and nothing when that pick finds nothing |
| Resolution.ResolveOneShape | backend/Text_Extract.py:351-394 | resolving one duplicate gives the winner its best match and marks the item used; boxes that did not claim the item keep their entries; a losing box that had no entry either gets none or gets an item unused before |
| Resolution.SortedClaims | backend/Text_Extract.py:351-352 | the sorted boxes of an item are exactly the first-pass entries with that best match, at distinct boxes |
| Resolution.OutsideClaims | backend/Text_Extract.py:351-394 | a box whose best item is another one is not among the sorted claims of this item |
| Resolution.InitialInv | backend/Text_Extract.py:336-345 | after the first assignment the duplicate loop's invariant holds with no item done |
| Resolution.InvAfterOne | backend/Text_Extract.py:347-394 | resolving one more duplicated item as `ResolveOneShape` describes keeps that invariant |
| Resolution.ResolveOneLoser | backend/Text_Extract.py:351-394 | resolving an item rematches its `k`-th sorted claim with the names used at its turn, when that box had no entry before |
| Resolution.ResolveOneKeepsOther | backend/Text_Extract.py:347-394 | resolving an item leaves alone the box of an entry whose best match is another item |
| Resolution.LoserRematchedFrame | backend/Text_Extract.py:364-394 | whether a loser holds its turn's pick depends only on that loser's own box |
| Resolution.LoserKept | backend/Text_Extract.py:347-394 | resolving a later item keeps what a loser of an earlier item holds |
| Resolution.LoserNow | backend/Text_Extract.py:347-394 | the losers of an item not yet resolved have no entry, so its resolution rematches each at its turn |
| Resolution.ResolveAllLosers | backend/Text_Extract.py:347-394 | after the duplicate loop every loser of every duplicated item still holds what it was rematched to at its turn |
| Resolution.LosersRematched | backend/Text_Extract.py:364-394 | clause (5) of `ResolutionSpec`, with `Pick` over the catalogue and `fuzz.ratio` |
| Resolution.ResolveOneInv | backend/Text_Extract.py:347-394 | one iteration of the duplicate loop keeps the invariant of that loop |
| Resolution.ResolveAllInv | backend/Text_Extract.py:347-394 | the duplicate loop keeps that invariant over all duplicated items |
| Resolution.ResolveSpec | backend/Text_Extract.py:336-394 | for any picker that only picks unused catalogue entries, the four guarantees of `ResolutionSpec` hold, and every loser of every duplicated item holds exactly what the picker returned for its text at its turn, or nothing when it returned nothing |
| Resolution.PickerForUnused | backend/Text_Extract.py:373-386 | the rematch of `process_text_inventory` only picks unused catalogue entries |
| Resolution.ResolutionSpec | backend/Text_Extract.py:266-394 | `final_matches`: (1) only boxes whose text matched get an entry; (2) a box whose best item is its own keeps it; (3) a duplicated item goes to the box its stable sort puts first; (4) any other claimant gets no entry, or a catalogue item held by no box with a unique best match and different from the duplicated item; (5) such a claimant, the `k`-th box in the sorted claims of the `d`-th duplicated item, holds `Pick` of its text over the names used at its turn, and has no entry exactly when that pick finds nothing |
| Resolution.FirstPassBoxes | backend/Text_Extract.py:276-291 | every box of the first pass is numbered within the boxes and its text matched |
| Resolution.WinnerSpec | backend/Text_Extract.py:352-357 | the box that keeps a duplicated item claimed it with the top score, and the lowest-numbered such box wins a tie |
| Inventory.ScoreMatches | backend/Text_Extract.py:300-308 | the scoring loop computes `Scored` |
| Inventory.BestMatch | backend/Text_Extract.py:314 | the scan returns the first position with the highest score |
| Inventory.AnalyseBox | backend/Text_Extract.py:277-315 | one iteration of the first pass computes `Analyse` |
| Inventory.TrackBestMatch | backend/Text_Extract.py:317-323 | recording a box keeps `items_to_boxes` equal to the claims and its keys in insertion order |
| Inventory.AnalyseAndTrack | backend/Text_Extract.py:276-323 | one iteration of the first pass appends the box's match, when it has one, and keeps `items_to_boxes` and its key order in step |
| Inventory.FirstPassLoop | backend/Text_Extract.py:276-323 | the first-pass loop builds `FirstPass`, the key order and `items_to_boxes` |
| Inventory.DuplicateItems | backend/Text_Extract.py:326 | the comprehension computes `DuplicateNames` |
| Inventory.AssignNonDuplicates | backend/Text_Extract.py:339-345 | the first assignment loop computes `AssignUnique` with the names of `duplicate_items` |
| Inventory.RematchLosers | backend/Text_Extract.py:364-394 | the inner rematch loop computes `RematchAll` with the picker over the unused items |
| Inventory.ResolveDuplicates | backend/Text_Extract.py:347-394 | the duplicate loop computes `ResolveAll` |
| Inventory.ResolveItem | backend/Text_Extract.py:351-394 | one iteration of the duplicate loop computes `ResolveOne` |
| Inventory.ResolveMatches | backend/Text_Extract.py:266-394 | the loops together compute `FinalMatches`, so `ResolutionSpec` holds for them |
| Inventory.ProcessTextInventory | backend/Text_Extract.py:243-416 | from tokens and box regions, the result is `FinalMatches` of the joined box texts, and every key is one of the boxes |
| Merge.Decimal | backend/main.py:35 | the decimal spelling of a number is a digit string |
| Merge.DigitsValueDecimal | backend/main.py:35 | `int()` reads the decimal spelling of `n` back as `n` |
| Merge.BadEntryNone | backend/main.py:33-35 | an image fails exactly when one of its quantity texts is not a digit string |
| Merge.BadEntryFirst | backend/main.py:33-35 | the reported entry is the first whose text `int()` rejects, and every entry before it is a digit string |
| Merge.BadEntryAt | backend/main.py:33-35 | when every entry before entry `j` is a digit string and entry `j` is not, entry `j` is the one reported |
| Merge.FirstBadNone | backend/main.py:18-35 | the merge fails exactly when some image has a bad quantity text |
| Merge.FirstBadAt | backend/main.py:18-35 | when image `i` is the first with a bad quantity text, the merge reports that image and its first bad entry |
| Merge.Joined | backend/main.py:33-60 | for an image whose quantity texts are all digit strings, at most one row per box |
| Merge.Number | backend/main.py:47-51 | rows are numbered on from the running counter, with the image name |
| Merge.Rows | backend/main.py:87-89 | removing the keys keeps one row per entry, unchanged |
| Merge.SumTotalsAppend | backend/main.py:60-64 | totals add up across images |
| Merge.JoinedExactly | backend/main.py:33-57 | every row comes from a box with a match, and every box with a match gives a row |
| Merge.JoinedStep | backend/main.py:33-60 | one more digit entry adds the numbered row `start + n + 1` and its line total when its box has a match, and nothing otherwise |
| Merge.JoinEntry | backend/main.py:35-60 | one iteration of the inner loop keeps `image_results` equal to the numbered rows so far, `image_total` equal to their sum, and `global_box_count` equal to the last number used |
| Merge.FlatStep | backend/main.py:18-63 | one more image without a bad entry appends its rows, numbered on from the rows before it |
| Merge.TotalStep | backend/main.py:60-64 | `total += image_total` keeps the total equal to the sum of the line totals of all rows so far |
| Merge.UnmatchedImageAddsNothing | backend/main.py:38 | an image where no box has a match adds no rows and nothing to the total |
| Merge.FlatNumbering | backend/main.py:15-51 | `box_number` runs 1, 2, … without gaps across all images |
| Merge.RowsOfFlat | backend/main.py:63 | the rows of all images are the rows of the earlier images followed by those of the last one |
| Merge.SortKeepsOrder | backend/main.py:77 | sorting by `box_number` leaves the already numbered rows in place |
| Merge.JoinImage | backend/main.py:33-60 | the loop over one image fails exactly on a bad quantity text, and otherwise yields the numbered rows and their total |
| Merge.Collect | backend/main.py:18-64 | the loop over images fails exactly when `FirstBad` reports an entry, and otherwise yields all the numbered rows |
| Merge.StripKeys | backend/main.py:87-89 | popping the keys leaves each row's item, quantity and values |
| Merge.MergeAndCalculate | backend/main.py:5-103 | the result is the error of the first bad quantity, or the rows of all images in order together with their total |
| Merge.MergeExample | backend/main.py:18-64 | two images: the unmatched box is skipped and the numbering continues into the second image |
| Merge.FlatTwo | backend/main.py:18-63 | for two clean images, the second image's rows are numbered on from the first image's rows |
| Trade.Blank | frontend/trade.js:98-106 | a new grid has nine empty slots |
| Trade.BlankIsZero | frontend/trade.js:250-254 | an empty grid totals 0 and has no filled slot |
| Trade.SumUpdate | frontend/trade.js:154-155 | overwriting one slot changes the total and the count by the old and new slot's contributions |
| Trade.FirstEmpty | frontend/trade.js:117 | -1 exactly when every slot is filled, else the first empty slot |
| Trade.RedirectToFirstEmpty | frontend/trade.js:110-126 | clicking any empty slot targets the first empty slot of the grid |
| Trade.PickKeepsPacked | frontend/trade.js:139-164 | filling the first empty slot keeps the grid without gaps, adds one item and adds its value to the total |
| Trade.FilledFrom | frontend/trade.js:283-296 | the filled slots after the removed one, in increasing order |
| Trade.GatherFilledFrom | frontend/trade.js:283-296 | those slots' contents are the filled slots after the removed one, in order |
| Trade.Removed | frontend/trade.js:271-298 | removal keeps the grid's size |
| Trade.KeepFilledSum | frontend/trade.js:283-298 | moving up only the filled slots keeps their total |
| Trade.KeepFilledCount | frontend/trade.js:283-298 | moving up only the filled slots keeps their number |
| Trade.Gather | frontend/trade.js:283-296 | the slots at the given positions, in that order |
| Trade.RemoveEffects | frontend/trade.js:271-298 | removal leaves earlier slots alone, moves the later filled slots up in order, empties the rest, and takes one item off a filled slot |
| Trade.RemovedSum | frontend/trade.js:271-301 | removal lowers the total by exactly the removed slot's value |
| Trade.RemovedCount | frontend/trade.js:271-298 | removal lowers the item count by one for a filled slot and leaves it for an empty one |
| Trade.RemovedKeepsPacked | frontend/trade.js:271-298 | removal keeps a grid without gaps |
| Trade.RemoveExample | frontend/trade.js:271-298 | removing the third of [a, b, c, d, _, e, _, _, _] gives [a, b, d, e, _, _, _, _, _] |
| Trade.Compare | frontend/trade.js:191-228 | `calculateWFL`: the placeholder with the bar at 50 % exactly when both totals are 0; Fair exactly when they are equal; Win by their − your exactly when theirs is larger; Loss otherwise; the bar is your share of the sum, in 0..100 |
| Trade.Share | frontend/trade.js:209-212 | each side's share of the sum lies in [0, 1] and the two shares add up to 1 |
| Trade.CompareMirror | frontend/trade.js:191-228 | swapping the sides swaps Win and Loss with the same margin and mirrors the bar |
| Trade.CompareExample | frontend/trade.js:191-228 | 40 against 60 shows "20 Win" with the bar 40 % full |
| Trade.FilterCatalogIsOneFilter | frontend/trade.js:79-95 | the displayed list is the catalogue filtered in order, and an item is shown exactly when it has the chosen rarity and its lower-case name contains the lower-case search |
| Trade.Grid.constructor | frontend/trade.js:98-106 | a grid starts with nine empty slots |
| Trade.Grid.Clear | frontend/trade.js:250-252 | every slot becomes empty |
| Trade.Grid.CalculateTotal | frontend/trade.js:180-188 | the total is the sum of the filled slots' values |
| Trade.Grid.Place | frontend/trade.js:154-155 | only the chosen slot changes, and it now holds the item |
| Trade.Grid.Remove | frontend/trade.js:271-298 | the in-place compaction leaves the slots equal to `Removed` of the old slots |
| Trade.TradeCalculator.constructor | frontend/trade.js:340-344 | two empty grids, no catalogue, picker closed, rarity "all", and the neutral comparison |
| Trade.TradeCalculator.LoadCatalog | frontend/trade.js:30-35 | the catalogue is replaced and nothing else changes |
| Trade.TradeCalculator.OpenModal | frontend/trade.js:110-126 | the picker opens on the clicked slot, or on the first empty slot when that comes earlier |
| Trade.TradeCalculator.CloseModal | frontend/trade.js:129-136 | the picker closes, the search is cleared and the rarity is reset to "all" |
| Trade.TradeCalculator.SelectItem | frontend/trade.js:139-164 | the active slot gets the item, the other grid is unchanged, the picker closes, and grids without gaps stay that way |
| Trade.TradeCalculator.RemoveItem | frontend/trade.js:271-301 | the grid is compacted and its total drops by the removed value |
| Trade.TradeCalculator.ClickSlot | frontend/trade.js:257-268 | a filled slot is removed; an empty slot opens the picker on the first empty slot of its grid; the other grid is unchanged and grids stay without gaps |
| Trade.TradeCalculator.ChooseRarity | frontend/trade.js:237-247 | only the rarity filter changes |
| Trade.TradeCalculator.EnterSearch | frontend/trade.js:336 | only the search text changes |
| Trade.TradeCalculator.ToggleShg | frontend/trade.js:304-324 | clicking the active tag clears it and another tag selects it; the listed items do not change |
| Trade.TradeCalculator.ResetTrade | frontend/trade.js:250-254 | both grids empty, both totals 0, and the comparison neutral |
| Upload.RowFor | frontend/app.js:347-356 | a table row shows the serial number index + 1, the result's fields, and quantity × unit value |
| Upload.UploadPage.constructor | frontend/app.js:1-3 | no files, prompt not accepted, and the Calculate button disabled |
| Upload.UploadPage.UpdateCalculateButtonState | frontend/app.js:192-204 | the button is disabled exactly when no file is chosen or the prompt was accepted |
| Upload.UploadPage.FilesChanged | frontend/app.js:250-322 | choosing files sets the flag, clears the acceptance, hides shown results and the prompt, removes the table, and enables the button exactly when files were chosen |
| Upload.UploadPage.Process | frontend/app.js:112-176 | without files nothing happens; a failed request shows the error; a body with a truthy total shows it with the prompt, and otherwise the error |
| Upload.UploadPage.Decline | frontend/app.js:179-190 | only the prompt is hidden |
| Upload.UploadPage.Accept | frontend/app.js:207-247 | the prompt is accepted, the button disabled, and the table is one `RowFor` row per result |
| Upload.UploadPage.GenerateResultsTable | frontend/app.js:327-360 | one row per backend result, numbered from 1, each equal to `RowFor` |

## Left out

- OCR and image processing are not modelled: OpenCV thresholding, masks, `pytesseract` and image loading. Tokens and box regions are inputs.
- The text reader's grid (backend/Text_Extract.py:130-176) is derived from floating-point image sizes. Its box rectangles are an input of `Inventory.ProcessTextInventory`.
- `Quantity.DefaultGrid` takes the row step and column lines already truncated to integers. The float arithmetic of `int(height * (33.33 / 100))` is not modelled.
- `fuzz.ratio` (the `ratio` parameter) and `round(x, 3)` (the `round3` parameter) are left abstract. No property here depends on how they compute.
- Trade.Compare, Trade.Grid.CalculateTotal, Merge.SumTotals: values are exact real numbers, while the source adds IEEE doubles (JavaScript numbers and Python floats). Their rounding is not modelled: yours 0.1 + 0.2 against theirs 0.3 is a Loss in the browser but Fair in the model.
- Character classes are ASCII only. `isalnum`, `isspace`, `isdigit`, `lower` and `strip` ignore non-ASCII letters, digits and spaces.
- Merge.BadEntry: treats a quantity text as valid only when it is a non-empty digit string. Python's `int()` also accepts surrounding white space, a sign and underscores. `BoxQuantity` only ever produces digit strings, so this does not affect quantities that come from the reader.
- Debug output, the debug log, the debug files and the exception handlers that print and return `{}`/`[]` are not modelled.
- app.py is not part of this model. It is the Flask route that calls `merge_and_calculate`.
- In the front-end, DOM updates, CSS transitions, `adjustContainerSize`, `adjustTextSize`, `populateItemList` and the `fetch` calls are not modelled. The state each handler leaves is applied at once rather than after its `setTimeout` delay.
- Upload.UploadPage.FilesChanged: models the two `change` handlers (frontend/app.js:39-109 and 250-322) as one step. They run in registration order on the same event, and only their combined effect on the page flags is stated.
- Trade.TradeCalculator.EnterSearch: the search box calls `updateDisplayedItems`, whose list is the function `Displayed()`. The rendering of that list is not modelled.
- The second copy of the start-up calls after the closing `});` of frontend/trade.js (lines 346-350) is not modelled. It runs outside the `DOMContentLoaded` handler, where those functions are out of scope.
- Resolution.ResolutionSpec: does not claim that the final items are all different. As written, a box that loses an earlier duplicated item can be rematched to an item that is itself duplicated and later handed to its own winner too. The model reproduces that order and proves only the guarantees listed.
- `resolve_tie` is modelled, but nothing in the repository calls it. Its `IndexError`, when a tied name shorter than the line is the current best, is modelled as an `Err` result.
- `Resolution.SortByScore` models Python's stable `list.sort(reverse=True)` as an insertion sort that places a new element after all equal ones. `SortHead` and `WinnerSpec` state the stable-order consequence the source relies on.
- The item catalogue is a sequence of name/value pairs in dictionary order. Catalogues with repeated names cannot arise from a Python `dict`, but they are not excluded.
- The results table is read-only: frontend/app.js:327-360 only renders rows and there is no edit mode, so none is modelled.
