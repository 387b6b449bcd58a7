# MarketMaster core, modelled in Dafny

MarketMaster is a desktop stock-charting application written in Python with PySide6. Most of it is widget wiring. This project models its four pieces of real logic and proves properties of them:

- **Pattern-match forecast** (`graph_menu.dfy`, module `Forecast`).
  - The recent window of closing prices (`base`) is min-max normalised.
  - A window of the same length slides over every candidate offset of the series. Each candidate is normalised and scored against the base window by cosine similarity (the `Scan` loop).
  - The best-scoring offset is picked. Its window, extended by the number of days to predict, is normalised as one unit. The position of the "today" line and the shaded span are computed from it.
  - `get_dates` takes the date part of each index label.
- **Visit history** (`graph_menu.dfy`, class `Forecast.GraphMenu`). A most-recently-used list of symbols and its menu, which lists the newest first.
- **Number formatting** (`common.dfy`, module `Common`).
  - `get_number_suffix` picks the magnitude suffix.
  - `round_` rounds a decimal string to two places and abbreviates large integers. Python's `Decimal` arithmetic is modelled exactly over digit strings and natural numbers. The global decimal rounding mode is an explicit parameter.
- **Bookmarks** (`info_panel.dfy`, module `Bookmarks`).
  - The bookmark list has no duplicates and is saved as one comma-joined string.
  - Loading splits on `,`, de-duplicates stably (`dict.fromkeys`) and keeps only valid symbols.
  - Toggling removes a symbol at its index or appends it.
  - Also modelled: the star-icon choice, the key-press rule for the bookmark action and the "Invalid symbol" label, and `is_valid_symbol`.
- **Symbol input** (`symbol_line_edit.dfy`, module `SymbolInput`).
  - `has_valid_input` is proved to be membership. The regular expression is an alternation of `re.escape`d symbols, so this takes a small model of full matching.
  - `__has_valid_suffix` is a search loop.
  - The `textChanged` cascade is modelled: upper-casing, then one backspace per invalid edit.

`wrappers.dfy` holds `Option` and `Result`. `text.dfy` holds splitting and joining on a separator and decimal digit strings.

Two behaviours of the code to note:
- Candidate windows are not kept out of the base window (`CandidatesOverlapBase`).
- A flat base window is not a fatal error in the code. Its normalisation is NaN, so every score is NaN and the sort leaves offset 0 first. The model does the same: `Normalize` gives None, every score is None, and `BestIndex` gives 0.

## Model

| member | source | states |
|---|---|---|
| Common.GetNumberSuffix | MarketMaster1/src/marketmaster/common.py:7-22 | succeeds exactly for a non-empty digit string of at most 15 digits, with suffix `["", "k", "M", "B", "T"][(len-1)/3]`; ValueError on "" or non-digits, NotImplementedError above 15 digits |
| Common.GetNumberSuffixExamples | MarketMaster1/src/tests/test_common.py:6-42 | the test table: "" / "5.30" / "1,234" raise ValueError; 1-3, 4-6, 7-9, 10-12, 13-15 digits give "", k, M, B, T |
| Common.RoundDiv | MarketMaster1/src/marketmaster/common.py:52-55 | `quantize` to an integer yields a nearest integer; ties go up under ROUND_HALF_UP and to the even neighbour under ROUND_HALF_EVEN |
| Common.FormatCents | MarketMaster1/src/marketmaster/common.py:53-55 | `str` of a value quantized to "1.00" is digits, a point and exactly two digits whose value is the given number of hundredths |
| Common.Round | MarketMaster1/src/marketmaster/common.py:40-50 | ValueError on "" and on more than one '.'; a point-free string of at most 3 characters comes back unchanged |
| Common.RoundWholeNumber | MarketMaster1/src/marketmaster/common.py:46-53 | a 4-15 digit integer becomes its value in suffix units rounded to hundredths (a nearest value; ties go up under ROUND_HALF_UP and to the even neighbour under ROUND_HALF_EVEN) followed by its suffix |
| Common.RoundTooLong | MarketMaster1/src/marketmaster/common.py:12-13 | a whole number of more than 15 digits raises NotImplementedError (from `get_number_suffix` at line 53) |
| Common.RoundNotANumber | MarketMaster1/src/marketmaster/common.py:48-52 | a point-free string of more than 3 characters that is not a digit string raises InvalidOperation from `Decimal()` |
| Common.RoundWhole | MarketMaster1/src/marketmaster/common.py:48-53 | the whole-number path returns a string of at most 3 characters unchanged; a longer one succeeds exactly when it is a digit string of at most 15 digits, and otherwise raises InvalidOperation (`Decimal()` of a non-number) or NotImplementedError (no suffix) |
| Common.RoundFraction | MarketMaster1/src/marketmaster/common.py:54-59 | the decimal-point path succeeds exactly when both sides are digit strings, not both empty, and otherwise raises InvalidOperation; its result is a digit string or ends in a point and two digits |
| Common.RoundWithoutPoint | MarketMaster1/src/marketmaster/common.py:48-53 | a non-empty string without '.' takes the whole-number path |
| Common.RoundDropsFraction | MarketMaster1/src/marketmaster/common.py:46-47 | with more than 3 whole digits, the fraction is discarded before rounding |
| Common.RoundDecimalNumber | MarketMaster1/src/marketmaster/common.py:54-59 | a decimal with at most 3 whole digits is rounded half-up to hundredths (nearest, ties up), shown with two fraction digits, or as the whole part alone when they are 00 |
| Common.RoundWithPoint | MarketMaster1/src/marketmaster/common.py:54-59 | such a decimal takes the decimal-point path and leaves the global rounding mode at ROUND_HALF_UP |
| Common.RoundingAfter | MarketMaster1/src/marketmaster/common.py:54 | the global rounding mode after a call is the one before it or ROUND_HALF_UP, the only mode `round_` writes |
| Common.WholePathKeepsMode | MarketMaster1/src/marketmaster/common.py:46-54 | a string without a decimal point leaves the global rounding mode unchanged |
| Common.RoundFractionIgnoresMode | MarketMaster1/src/marketmaster/common.py:54 | on the decimal-point path the rounding mode left by earlier calls plays no part |
| Common.RoundThousands | MarketMaster1/src/marketmaster/common.py:51-53 | 4-6 digits: value/1000 rounded to hundredths, then "k" |
| Common.RoundMillions | MarketMaster1/src/marketmaster/common.py:51-53 | 7-9 digits: value/10^6 rounded to hundredths, then "M" |
| Common.RoundExamples | MarketMaster1/src/marketmaster/common.py:28-38 | the docstring and test table (test_common.py:45-67): 379, 182.50, 1.45, 2.68, 2, 1.07k, 10.07k, 7.49M, 74.85M, 748.53M, and ValueError on "" and "1.1.1", in either rounding mode |
| Common.Example1005 | MarketMaster1/src/marketmaster/common.py:52-54 | a whole-number tie depends on the mode left by earlier calls: "1005" gives 1.00k under half-even and 1.01k under half-up |
| SymbolInput.Escape | MarketMaster1/src/marketmaster/symbol_line_edit.py:13 | `re.escape` is never shorter than its input and is empty only for ""; `SymbolInput.EscapeBranches` shows an escaped string stands for itself in the pattern |
| SymbolInput.EscapeBranches | MarketMaster1/src/marketmaster/symbol_line_edit.py:13 | an escaped string followed by any pattern stands for itself at the head of the first branch |
| SymbolInput.EscapeAll | MarketMaster1/src/marketmaster/symbol_line_edit.py:13 | `map(re.escape, symbols)` has one escaped entry per symbol, the first one for the first symbol |
| SymbolInput.Pattern | MarketMaster1/src/marketmaster/symbol_line_edit.py:13 | the pattern source is empty exactly when there are no symbols or only the empty one, and starts with the first symbol escaped; `SymbolInput.PatternBranches` gives its meaning |
| SymbolInput.PatternBranches | MarketMaster1/src/marketmaster/symbol_line_edit.py:13 | `"\|".join(map(re.escape, symbols))` stands for exactly the symbols as literal branches, in order |
| SymbolInput.HasValidInputIsMembership | MarketMaster1/src/marketmaster/symbol_line_edit.py:13-20 | a full match is membership in the symbol list; with no symbols only "" matches |
| SymbolInput.EmptyListEdgeCase | MarketMaster1/src/marketmaster/symbol_line_edit.py:13-30 | with no symbols, "" is valid input yet has no valid suffix |
| SymbolInput.IsValidPrefix | MarketMaster1/src/marketmaster/symbol_line_edit.py:26-30 | some symbol `startswith` the text: every whole valid symbol does, and "" does exactly when the symbol list is non-empty |
| SymbolInput.ValidPrefixShrinks | MarketMaster1/src/marketmaster/symbol_line_edit.py:26-30 | a prefix of a valid prefix is a valid prefix |
| SymbolInput.Upper | MarketMaster1/src/marketmaster/symbol_line_edit.py:16 | `text.upper()` has one character per character of the text; `SymbolInput.UpperShape` gives each one |
| SymbolInput.UpperShape | MarketMaster1/src/marketmaster/symbol_line_edit.py:16 | upper-casing keeps the length and each position, and leaves no lower-case letter |
| SymbolInput.UpperOfUpper | MarketMaster1/src/marketmaster/symbol_line_edit.py:16 | upper-case text is its own upper-case form, so the handler's `setText` changes nothing the second time |
| SymbolInput.Settle | MarketMaster1/src/marketmaster/symbol_line_edit.py:16-24 | the net effect of the `textChanged` handlers is a prefix of the text that is "" or a valid prefix; `SymbolInput.SettleIsLongestValidPrefix` shows it is the longest one |
| SymbolInput.SettleIsLongestValidPrefix | MarketMaster1/src/marketmaster/symbol_line_edit.py:16-24 | the cascade keeps a prefix, ends at "" or a valid prefix, and removes no more characters than needed |
| SymbolInput.SettleIdempotent | MarketMaster1/src/marketmaster/symbol_line_edit.py:22-24 | a settled text is not changed again |
| SymbolInput.SymbolLineEdit.constructor | MarketMaster1/src/marketmaster/symbol_line_edit.py:9-17 | starts empty with the given symbol list |
| SymbolInput.SymbolLineEdit.HasValidInput | MarketMaster1/src/marketmaster/symbol_line_edit.py:19-20 | `has_valid_input` holds exactly when the text is one of the symbols ("" when there are none) |
| SymbolInput.SymbolLineEdit.HasValidSuffix | MarketMaster1/src/marketmaster/symbol_line_edit.py:26-30 | the loop returns true exactly when some symbol starts with the text |
| SymbolInput.SymbolLineEdit.Backspace | MarketMaster1/src/marketmaster/symbol_line_edit.py:24 | removes the last character, if any |
| SymbolInput.SymbolLineEdit.RemoveAnyInvalidSuffix | MarketMaster1/src/marketmaster/symbol_line_edit.py:22-24 | text unchanged when it is a valid prefix, otherwise one character shorter |
| SymbolInput.SymbolLineEdit.SetText | MarketMaster1/src/marketmaster/symbol_line_edit.py:16-17 | after an edit the text is the settled upper-case form of the new text, and stays upper-case and "" or a valid prefix |
| Bookmarks.IndexOf | MarketMaster1/src/marketmaster/info_panel.py:215 | `list.index` gives the first position holding the symbol |
| Bookmarks.Dedup | MarketMaster1/src/marketmaster/info_panel.py:240-242 | `list(dict.fromkeys(xs))` is no longer than `xs`; `Bookmarks.DedupContents`, `Bookmarks.DedupOrder` and `Bookmarks.DedupOfDistinct` give its contents and order |
| Bookmarks.Filter | MarketMaster1/src/marketmaster/info_panel.py:244-249 | the valid-symbol filter is no longer than its input; `Bookmarks.FilterContents` gives its contents and `Bookmarks.FilterOrder` its order |
| Bookmarks.DedupContents | MarketMaster1/src/marketmaster/info_panel.py:240-242 | `dict.fromkeys` leaves no duplicates and loses no key |
| Bookmarks.DedupOrder | MarketMaster1/src/marketmaster/info_panel.py:240-242 | keys come out in the order of their first occurrences |
| Bookmarks.DedupOfDistinct | MarketMaster1/src/marketmaster/info_panel.py:240-242 | a duplicate-free list is its own de-duplication |
| Bookmarks.FilterContents | MarketMaster1/src/marketmaster/info_panel.py:244-249 | the filter keeps exactly the listed entries that are valid symbols, and adds no duplicates |
| Bookmarks.FilterOrder | MarketMaster1/src/marketmaster/info_panel.py:244-249 | in a duplicate-free list, the kept symbols come out in their original order |
| Bookmarks.FilterAllValid | MarketMaster1/src/marketmaster/info_panel.py:244-249 | a list of valid symbols passes the filter unchanged |
| Bookmarks.LoadedBookmarks | MarketMaster1/src/marketmaster/info_panel.py:235-253 | `__load_bookmarks` returns [] when there is no saved setting, and at most one symbol per part of the split string; `Bookmarks.LoadedContents` gives its contents and `Bookmarks.LoadedOrder` its order |
| Bookmarks.LoadedContents | MarketMaster1/src/marketmaster/info_panel.py:235-253 | loading gives a duplicate-free list of precisely the valid symbols named in the saved string; nothing when there is no saved setting |
| Bookmarks.LoadedOrder | MarketMaster1/src/marketmaster/info_panel.py:238-249 | the loaded bookmarks keep the saved order: each comes before the next in the order of their first occurrences in the split string |
| Bookmarks.SaveLoadRoundTrip | MarketMaster1/src/marketmaster/info_panel.py:233-249 | the comma-joined list loads back as the same list, when no symbol holds a comma |
| Bookmarks.LoadBookmarks | MarketMaster1/src/marketmaster/info_panel.py:235-253 | the loading procedure computes the specified list: no duplicates, x in it iff x is in the split string and valid |
| Bookmarks.FromKeys | MarketMaster1/src/marketmaster/info_panel.py:240-242 | the key-by-key loop computes `dict.fromkeys`'s key order |
| Bookmarks.KeepValid | MarketMaster1/src/marketmaster/info_panel.py:244-249 | the loop keeps the valid symbols in order |
| Bookmarks.PlainStar | MarketMaster1/src/marketmaster/info_panel.py:216-219 | the star of a symbol that is not bookmarked is never the blue one |
| Bookmarks.StarIconFor | MarketMaster1/src/marketmaster/info_panel.py:160-165 | blue iff bookmarked; otherwise the dark star iff `dark_mode` is saved and false, the light star in every other case |
| Bookmarks.AppendNoDuplicates | MarketMaster1/src/marketmaster/info_panel.py:225-229 | appending an absent symbol keeps the list duplicate-free |
| Bookmarks.RemoveAtKeepsValid | MarketMaster1/src/marketmaster/info_panel.py:221-222 | deleting index i keeps the list duplicate-free and removes that symbol |
| Bookmarks.AddThenRemoveRestores | MarketMaster1/src/marketmaster/info_panel.py:214-229 | toggling an absent symbol on and then off again gives back the original list |
| Bookmarks.InfoPanel.constructor | MarketMaster1/src/marketmaster/info_panel.py:42-62 | the symbol box holds the settled symbol; bookmarks are the loaded list; the menu is shown iff there are bookmarks (graph_menu.py:54 hides it first); the plain star for the saved `dark_mode` |
| Bookmarks.InfoPanel.IsValidSymbol | MarketMaster1/src/marketmaster/info_panel.py:191-196 | returns `has_valid_input` and puts a red border exactly when it is false; nothing else changes |
| Bookmarks.InfoPanel.ToggleBookmark | MarketMaster1/src/marketmaster/info_panel.py:207-233 | invalid input changes nothing; a bookmarked symbol is removed at its index; another one is appended; afterwards the saved value is the comma-join, the star matches the list, and no-duplicates / menu visible iff non-empty still hold |
| Bookmarks.InfoPanel.ToggleSymbol | MarketMaster1/src/marketmaster/info_panel.py:211-233 | for a valid symbol: removed at its index when bookmarked, appended otherwise; then the saved value is the comma-join, the star matches the list, and the panel invariant holds |
| Bookmarks.InfoPanel.LoadBookmarkStar | MarketMaster1/src/marketmaster/info_panel.py:152-165 | sets the star for the given symbol, or for the symbol box's text when none is given; nothing else changes |
| Bookmarks.InfoPanel.KeyPress | MarketMaster1/src/marketmaster/info_panel.py:128-142 | Return/Enter with valid input shows the action and hides the label; otherwise non-empty non-alphabetic text hides the action and shows the label; else both are unchanged |
| Bookmarks.InfoPanel.SavedBookmarksReload | MarketMaster1/src/marketmaster/info_panel.py:233-249 | what a toggle saved loads back as the current bookmark list |
| Forecast.MinIsLeast | MarketMaster1/src/marketmaster/graph_menu.py:149 | `min()` is a price of the window and no price is below it |
| Forecast.MaxIsGreatest | MarketMaster1/src/marketmaster/graph_menu.py:149 | `max()` is a price of the window and no price is above it |
| Forecast.Normalize | MarketMaster1/src/marketmaster/graph_menu.py:149 | defined exactly for an empty or non-flat window, and of the same length |
| Forecast.NormalizeRange | MarketMaster1/src/marketmaster/graph_menu.py:149-175 | every normalised price lies in [0, 1]; exactly the minimum maps to 0 and exactly the maximum to 1 |
| Forecast.NormalizeInverse | MarketMaster1/src/marketmaster/graph_menu.py:149 | `min + v * (max - min)` recovers every price from its normalisation |
| Forecast.NormalizeMonotonic | MarketMaster1/src/marketmaster/graph_menu.py:149 | normalisation keeps the order between any two prices, both ways |
| Forecast.NormalizedNonNegative | MarketMaster1/src/marketmaster/graph_menu.py:149-167 | normalised windows are non-negative |
| Forecast.RescaleRange | MarketMaster1/src/marketmaster/graph_menu.py:149 | a price within [lo, hi] rescales into [0, 1], to 0 iff it is lo and to 1 iff it is hi |
| Forecast.Dot | MarketMaster1/src/marketmaster/graph_menu.py:161 | `np.dot` of two non-negative windows is non-negative; `Forecast.DotSymmetric`, `Forecast.DotSelf`, `Forecast.DotScale` and `Forecast.CauchySchwarz` give its other properties |
| Forecast.DotScale | MarketMaster1/src/marketmaster/graph_menu.py:161 | multiplying one window by `c` multiplies the dot product by `c` |
| Forecast.DotSymmetric | MarketMaster1/src/marketmaster/graph_menu.py:161 | `np.dot(x, y) == np.dot(y, x)` |
| Forecast.DotSelf | MarketMaster1/src/marketmaster/graph_menu.py:161 | `dot(x, x) >= 0`, and 0 exactly for the zero window |
| Forecast.CauchySchwarz | MarketMaster1/src/marketmaster/graph_menu.py:161 | `dot(x, y)^2 <= dot(x, x) * dot(y, y)` |
| Forecast.Score | MarketMaster1/src/marketmaster/graph_menu.py:160-161 | the (squared) cosine is defined exactly when both windows have numbers and neither is the zero window; its properties are `Forecast.ScoreSymmetric`, `Forecast.ScoreSelf`, `Forecast.ScoreBounds`, `Forecast.ScoreScale` and `Forecast.ScoreIsSquare` |
| Forecast.ScoreScale | MarketMaster1/src/marketmaster/graph_menu.py:160-161 | the score is scale-invariant: multiplying a window by a positive constant does not change it |
| Forecast.ScoreSymmetric | MarketMaster1/src/marketmaster/graph_menu.py:160-161 | `cosine_similarity(x, y) == cosine_similarity(y, x)`, including the undefined cases |
| Forecast.ScoreSelf | MarketMaster1/src/marketmaster/graph_menu.py:160-161 | a non-zero window scores 1 against itself |
| Forecast.ScoreBounds | MarketMaster1/src/marketmaster/graph_menu.py:160-161 | every defined score lies in [0, 1] |
| Forecast.ScoreIsSquare | MarketMaster1/src/marketmaster/graph_menu.py:160-161 | the score is the square of the non-negative cosine |
| Forecast.CosineOrder | MarketMaster1/src/marketmaster/graph_menu.py:160-171 | for a shared base window, one score is at most another exactly when its cosine is, so ranking by score is ranking by cosine |
| Forecast.SquareOrder | MarketMaster1/src/marketmaster/graph_menu.py:161 | squaring keeps the order of non-negative numbers, both ways |
| Forecast.CandidateCount | MarketMaster1/src/marketmaster/graph_menu.py:158-165 | `range(moving_cnt)` yields exactly the offsets i with `i + window_size + next_date + 1 < len(close)` |
| Forecast.CandidateInRange | MarketMaster1/src/marketmaster/graph_menu.py:158-174 | every candidate offset i has `i + window_size + next_date <= len(close) - 2` |
| Forecast.CandidateScore | MarketMaster1/src/marketmaster/graph_menu.py:166-168 | the score of the window at one offset lies in [0, 1] when defined, and is undefined whenever the base window is flat |
| Forecast.Scores | MarketMaster1/src/marketmaster/graph_menu.py:163-169 | `sim_list` has one score per candidate offset (`Forecast.Scan` computes it by the loop) |
| Forecast.Scan | MarketMaster1/src/marketmaster/graph_menu.py:163-169 | the loop builds `sim_list`: the score of the window at each offset, one per candidate |
| Forecast.BestIndex | MarketMaster1/src/marketmaster/graph_menu.py:171 | an offset whose score is defined and at least every defined score, the earliest such; offset 0 when no score is defined |
| Forecast.Predict | MarketMaster1/src/marketmaster/graph_menu.py:158-171 | fails exactly when there are no candidate offsets (`index[0]` on an empty series) |
| Forecast.PredictFrom | MarketMaster1/src/marketmaster/graph_menu.py:171-175 | the pick and the extension fail exactly when there are no scores |
| Forecast.PredictBest | MarketMaster1/src/marketmaster/graph_menu.py:165-174 | the chosen offset has the best defined score of all candidates, and its extended window lies inside the series |
| Forecast.PredictWindow | MarketMaster1/src/marketmaster/graph_menu.py:174-193 | the matched curve has `window_size + next_date` points: the candidate window, then the `next_date` prices after it; the "today" line is at `window_size - 1` and the span runs `next_date` points from there |
| Forecast.FindPattern | MarketMaster1/src/marketmaster/graph_menu.py:149-175 | the scan loop, pick and extension compute `Predict` |
| Forecast.PickBest | MarketMaster1/src/marketmaster/graph_menu.py:171-175 | the method computes `Forecast.PredictFrom` from the scan's scores |
| Forecast.CandidatesOverlapBase | MarketMaster1/src/marketmaster/graph_menu.py:158-166 | candidates are not kept out of the base window: the last one shares a price with a trailing base window |
| Forecast.DatePart | MarketMaster1/src/marketmaster/graph_menu.py:200 | `split(" ")[0]` is the text up to the first space: a space-free prefix followed by a space or by the end of the stamp |
| Forecast.PrefixBeforeSplit | MarketMaster1/src/marketmaster/graph_menu.py:200 | the first part of a split is a prefix ending at the end of the text or at a separator |
| Forecast.DatePartOfStamp | MarketMaster1/src/marketmaster/graph_menu.py:200 | a "date time" stamp gives its date |
| Forecast.GetDates | MarketMaster1/src/marketmaster/graph_menu.py:197-200 | one date per index label, each the label's text up to its first space (the whole label when it has none) |
| Forecast.Without | MarketMaster1/src/marketmaster/graph_menu.py:119-121 | the list without the symbol holds exactly the other entries |
| Forecast.WithoutAtIndex | MarketMaster1/src/marketmaster/graph_menu.py:119-121 | in a duplicate-free list, deleting the symbol at its index is dropping the symbol |
| Forecast.ReverseRemove | MarketMaster1/src/marketmaster/graph_menu.py:121-126 | deleting history index i deletes menu index `len - 1 - i` |
| Forecast.MenuIndex | MarketMaster1/src/marketmaster/graph_menu.py:123 | the action at history index i is at menu index `len - 1 - i` |
| Forecast.GraphMenu.constructor | MarketMaster1/src/marketmaster/graph_menu.py:57 | the history starts empty and its menu is not attached |
| Forecast.GraphMenu.Visit | MarketMaster1/src/marketmaster/graph_menu.py:101-128 | the symbol becomes the last entry: appended when new, otherwise moved from its index; others keep their order; no duplicates; the menu lists the newest first; the menu is attached once there are two entries |
| Text.Split | MarketMaster1/src/marketmaster/common.py:43 | `str.split(sep)` gives at least one part; `Text.SplitParts` shows no part holds the separator and there is one part more than separators, and `Text.JoinSplit` that joining the parts gives the string back (also info_panel.py:239, graph_menu.py:200) |
| Text.Join | MarketMaster1/src/marketmaster/info_panel.py:233 | `",".join(parts)` is empty exactly for no parts or one empty part, and starts with the first part, followed by the separator when more parts follow; `Text.SplitJoin` recovers parts that hold no separator |
| Text.SplitParts | MarketMaster1/src/marketmaster/common.py:43 | no part of a split holds the separator, and there is one part more than separators in the text |
| Text.JoinSplit | MarketMaster1/src/marketmaster/common.py:43 | joining the parts of a split with the same separator gives the text back |
| Text.SplitJoin | MarketMaster1/src/marketmaster/info_panel.py:233-239 | splitting a join gives back the parts, when none holds the separator |

## Left out

- Qt widgets, layouts, icons, stylesheets, fonts and signals are reduced to the state they show (visibility flags, one icon value, the text of the symbol box). The QCompleter (symbol_line_edit.py:15), the placeholder text and the table of `__load_and_show_table` are not modelled.
- Market data: `fdr.DataReader` and `fdr.StockListing` are network calls. The closing prices are a parameter of `Forecast.Predict`.
- The calendar slice of the base window (graph_menu.py:143-148) depends on the clock and pandas label slicing. The base window is a given sequence.
- The `is_valid_symbol` guard at the top of `__load_and_show_graph` (graph_menu.py:136-137) is modelled only as `Bookmarks.InfoPanel.IsValidSymbol`. `Forecast.Predict` does not repeat it.
- matplotlib drawing (graph_menu.py:179-195): only the index arithmetic of the "today" line and the shaded span is modelled.
- Forecast.Score: states the squared cosine `dot(x,y)^2 / (dot(x,x) * dot(y,y))` instead of the cosine, because there is no real square root. `Forecast.CosineOrder` and `Forecast.ScoreIsSquare` show that the ranking is the same.
- Forecast.Normalize: floating point is not modelled. Prices are exact reals, and the NaN of a flat window (0/0) is None. pandas' placing of NaN last when sorting is modelled by `Forecast.BestIndex` treating None as lowest.
- Forecast.BestIndex: picks the earliest offset among equal best scores. The unstable quicksort of `sort_values` may return any of them.
- Forecast.GraphMenu.Visit: the QAction objects attached to history entries are reduced to their symbols. The `assert len(symbol) > 0` (graph_menu.py:95) is not a precondition.
- Common.Round: the float input path `str(float)` (common.py:40) is not modelled, since it can produce scientific notation. Inputs are strings.
- Common.GetNumberSuffix: Python's `int()` leniency (common.py:10) is not modelled. `int()` accepts "+1234", " 12" and "1_000", but the model requires ASCII digits and gives ValueError for anything else.
- Common.Round: Python's `int()` and `Decimal()` leniency (signs, whitespace, underscores, non-ASCII digits, exponents) is not modelled. Whole and fraction parts are ASCII digit strings, and anything else is an error.
- Common.Round: the global decimal context written at common.py:54 is an explicit `Rounding` parameter; `Common.RoundingAfter` gives its value afterwards.
- SymbolInput.UpperChar: `str.upper` is modelled on ASCII letters only; the Unicode case mapping is not.
- Bookmarks.IsAlpha: `str.isalpha` is modelled on ASCII letters only.
- The valid-symbol list read from a JSON file (symbol_line_edit.py:11-12) is a constructor parameter.
- The settings store (`QSettings`) is a parameter: the saved bookmark string is an `Option<string>` and `dark_mode` an `Option<bool>`. The store's value type conversion is not modelled.
- Bookmarks.InfoPanel.KeyPress: the forwarding of the key to the line edit's own handler (info_panel.py:143) is not modelled. The text edit that may follow is `SymbolInput.SymbolLineEdit.SetText`.
- SymbolInput.SymbolLineEdit.SetText: the cursor is taken to be at the end of the text, so `backspace` removes the last character.
- temp.py, the settings menu, the splitter state, `show_info_panel`, the start menu and the remaining UI modules are not part of this model.
