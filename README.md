# patentvis: the data-shaping core, modelled in Dafny

patentvis is a Streamlit app for patent-analytics charts. A user uploads a
table, picks a chart type and columns, and the page reshapes the table
before handing it to plotly. This project models that reshaping and proves
what it guarantees:

- **Sankey** (`pages/4_Utilities.py`). A wide origin × destination matrix
  becomes node labels (origins, then destinations) and links. The links are
  the nonzero cells in melt order, each from node `i` to node `R + j`.
  - Node colours are looked up by label among the nine origins with the
    largest row totals, which get palette colours. A destination that shares
    a label with one of them gets its colour too. Every other node gets the
    last Plotly colour.
  - With link colours switched on, links from the top five origins get their
    Plotly colour at alpha 0.5 through `hex2rgba`, and all others are grey at
    alpha 0.5. With them off, every link is plain `#AFAFAF`.
- **`hex2rgba`**. Three two-character slices are read with Python's
  `int(text, 16)` and printed as `rgba(r,g,b,alpha)`.
- **Bubble melt**. The chosen value columns are melted against the x column.
- **Waterfall** (`pages/2_Category.py`). The first value is kept and every
  later value negated. The measures are `absolute` then `relative`.
- **Dual bar**. Rows are split by the first two *sorted* distinct categories.
  - The right group's lengths are negated.
  - The bases are `+space` and `-space`, both as long as the left group.
- **`textinfo`**. The treemap/sunburst `textinfo` is the chosen options joined
  by `+`, or `label` when none is chosen.
- **Ranking** (`pages/3_Rank.py`).
  - A two-column table is sorted ascending by value.
  - A wider table is pivoted to category × series, with a duplicated pair an
    error. It is sorted by the first series with gaps last, and the category
    becomes column 0.
  - Axis roles put the values on x for horizontal bars. Bar texts always come
    from the value columns. Text sits inside exactly in `relative` mode.
  - A chart is drawn only when the required columns are chosen.

Modules:

| module | file | contents |
|---|---|---|
| `Wrappers` | wrappers.dfy | Option/Result, `Min` |
| `Seqs` | seqs.dfy | `Sum` (pandas `sum`) |
| `Strings` | strings.dfy | `join`, `split`, `str(int)` and reading decimals back |
| `Ordering` | ordering.dfy | code-point string order; `np.unique` |
| `Sorting` | sorting.dfy | sorting by an integer key; a sorted permutation with distinct keys is unique |
| `Reshape` | melt.dfy | `DataFrame.melt` as column-major rows |
| `HexColor` | hexcolor.dfy | `int(s, 16)`, Python slicing, `hex2rgba` |
| `Sankey` | sankey.dfy | `sankey` data, with the link-building loop as a method |
| `Bubble` | bubble.dfy | the bubble chart's melt |
| `Category` | category.dfy | waterfall, dual bar, `textinfo` |
| `Rank` | rank.dfy | sort, pivot, axis roles, bar texts, gate |

Inputs the page reads from widgets become parameters: the link-colour
switch, the bar mode, the orientation, the gap and the selected column names.
The palette is `sankey`'s default argument `colors=px.colors.qualitative.Plotly`
(the page calls `sankey` without it); it is a parameter too.

## Model

| member | source | states |
|---|---|---|
| HexColor.HexValue | pages/4_Utilities.py:134-136 | a hex digit's value lies in 0..15 |
| HexColor.ParseInt16 | pages/4_Utilities.py:134-136 | `int(s, 16)`: surrounding whitespace, an optional sign and `0x` prefix, hex digits with single underscores; None where Python raises. Specified by `TwoDigits`, `PaddedDigit`, `JunkBeforeDigit` |
| HexColor.PaddedDigit | pages/4_Utilities.py:134-136 | a whitespace character `int` strips, followed by a digit, reads as that digit |
| HexColor.JunkBeforeDigit | pages/4_Utilities.py:134-136 | any other non-digit, non-sign character before a digit (U+001C to U+001F included) makes `int` raise |
| HexColor.Channel | pages/4_Utilities.py:134-136 | `int(color[i:i+2], 16)`. Specified by `ChannelAt`, `ShortColorFails` |
| HexColor.ParseHexColor | pages/4_Utilities.py:134-136 | the three channels, failing when any fails. Specified by `WellFormedChannels`, `EncodeParseRoundTrip`, `ShortColorFails` |
| HexColor.FormatRgba | pages/4_Utilities.py:137 | the f-string `rgba({r},{g},{b},{alpha})`. Specified by `Hex2RgbaRoundTrip` |
| HexColor.Hex2Rgba | pages/4_Utilities.py:133-137 | `hex2rgba`. Specified by `Hex2RgbaRoundTrip`, `ShortColorFails`, `Sankey.LinkHexParses` |
| HexColor.PySlice | pages/4_Utilities.py:134-136 | a clipped Python slice `s[i:j]` is at most `j - i` long |
| HexColor.TwoDigits | pages/4_Utilities.py:134-136 | `int(ab, 16)` of two hex digits is `16·a + b` |
| HexColor.ChannelAt | pages/4_Utilities.py:134-136 | on a well-formed colour, `int(color[i:i+2], 16)` is the two-digit number at position i |
| HexColor.WellFormedChannels | pages/4_Utilities.py:133-136 | on `#RRGGBB` the three channels parse to the hex numbers at 1, 3, 5, each in 0..255 |
| HexColor.ShortColorFails | pages/4_Utilities.py:133-137 | a colour of at most 5 characters makes the blue slice empty, so `int` raises and `hex2rgba` fails |
| HexColor.HexChar | pages/4_Utilities.py:134-136 | the digit written for 0..15 reads back as that value |
| HexColor.EncodeHex | pages/4_Utilities.py:133-136 | an encoded 0..255 triple is a well-formed `#RRGGBB` string |
| HexColor.EncodeParseRoundTrip | pages/4_Utilities.py:133-136 | parsing an encoded colour returns exactly its channels |
| HexColor.EncodedChannel | pages/4_Utilities.py:134-136 | the high and low digit of a byte recombine to the byte |
| HexColor.Hex2RgbaRoundTrip | pages/4_Utilities.py:133-137 | `hex2rgba` yields `rgba(`…`)` whose four comma fields read back as r, g, b and the alpha |
| Strings.Split | pages/2_Category.py:72 | splitting never yields an empty list |
| Strings.Join | pages/2_Category.py:72 | `sep.join(parts)`. Specified by `SplitJoin` |
| Strings.SplitWithoutSeparator | pages/2_Category.py:72 | a text without the separator splits into itself |
| Strings.SplitAtFirstSeparator | pages/2_Category.py:72 | splitting at the first separator peels off the first field |
| Strings.SplitJoin | pages/2_Category.py:72 | splitting a `sep.join` of separator-free parts returns the parts |
| Strings.DigitChar | pages/4_Utilities.py:137 | the decimal digit printed for 0..9 has that value |
| Strings.NatToString | pages/4_Utilities.py:137 | `str(n)` of a natural number is a nonempty run of decimal digits |
| Strings.NatToStringValue | pages/4_Utilities.py:137 | the digits of `str(n)` read back as n |
| Strings.IntToStringRoundTrip | pages/4_Utilities.py:137 | `str(n)` has no comma and reads back as n, negative numbers included |
| Strings.IntToString | pages/4_Utilities.py:137 | `str(n)` for any int. Specified by `IntToStringRoundTrip` |
| Ordering.StrLt | pages/2_Category.py:103 | Python's code-point `<` on strings, the order `np.unique` sorts by. Specified by the `StrLt*` lemmas |
| Ordering.StrLtIrreflexive | pages/2_Category.py:103 | no string sorts before itself |
| Ordering.StrLtTransitive | pages/2_Category.py:103 | code-point string order is transitive |
| Ordering.StrLtTotal | pages/2_Category.py:103 | any two different strings are ordered one way |
| Ordering.ConsIncreasing | pages/2_Category.py:103 | a head below every element keeps a strictly increasing list increasing |
| Ordering.InsertDistinct | pages/2_Category.py:103 | inserting into a sorted distinct list keeps it sorted and distinct and adds exactly that value |
| Ordering.LessThanHead | pages/2_Category.py:103 | a value below the head of a sorted list is below all of it |
| Ordering.Unique | pages/2_Category.py:103 | `np.unique` is strictly increasing and holds exactly the values of its input |
| Ordering.UniqueOrder | pages/2_Category.py:103-105 | `cat_data[0]` is below every other value and `cat_data[1]` is below every value other than the first two |
| Ordering.UniqueHasTwo | pages/2_Category.py:103-105 | there are two distinct values exactly when two rows differ |
| Sorting.ConsSorted | pages/3_Rank.py:142 | a head no larger than the rest keeps a sorted list sorted |
| Sorting.MultisetMember | pages/3_Rank.py:142 | an element of `s + {x}` is x or an element of s |
| Sorting.Insert | pages/3_Rank.py:142 | insertion keeps order and adds exactly one element |
| Sorting.InsertHeadBound | pages/3_Rank.py:142 | a head below the inserted value stays below the result |
| Sorting.SortBy | pages/3_Rank.py:142 | the result is sorted by the key and a permutation of the input |
| Sorting.HeadsAgree | pages/3_Rank.py:142 | two sorted permutations with distinct keys start alike |
| Sorting.TailsPermuted | pages/3_Rank.py:142 | permutations with the same head have permuted tails |
| Sorting.TailKeysDistinct | pages/3_Rank.py:142 | distinct keys stay distinct on the tail |
| Sorting.SortedPermutationUnique | pages/3_Rank.py:142 | with distinct keys there is exactly one sorted permutation |
| Reshape.Melt | pages/4_Utilities.py:152-154 | `DataFrame.melt`. Specified by `MeltLength`, `MeltAt`, `MeltMember`, `MeltPermutation` |
| Reshape.MeltAppend | pages/4_Utilities.py:152-154 | melting columns a then b is melting a, then melting b |
| Reshape.MeltLength | pages/4_Utilities.py:215 | melting R rows and C columns gives C·R rows |
| Reshape.MeltAt | pages/4_Utilities.py:215 | row `j·R + i` of the melt is (id i, name of column j, its cell i) |
| Reshape.MeltMember | pages/4_Utilities.py:215 | a row is in the melt exactly when it is (id i, column j's name, its cell i) for some i, j |
| Reshape.MeltSplitAt | pages/4_Utilities.py:215 | the melt splits around any one column |
| Reshape.RemoveOne | pages/4_Utilities.py:215 | removing a matching element keeps two permutations permutations |
| Reshape.MeltPermutation | pages/4_Utilities.py:215 | reordering the value columns only permutes the melted rows |
| Sankey.NodeLabels | pages/4_Utilities.py:144 | node k is origin k for k < R and destination k - R after |
| Sankey.SourceIds | pages/4_Utilities.py:150 | origins are renumbered 0..R-1 |
| Sankey.TargetColumns | pages/4_Utilities.py:151-154 | destination j becomes column R + j holding column j's cells |
| Sankey.Prune | pages/4_Utilities.py:155 | the filter keeps exactly the rows with a nonzero value |
| Sankey.PruneAppend | pages/4_Utilities.py:155 | the filter keeps relative order |
| Sankey.Edges | pages/4_Utilities.py:149-159 | the link triples (source, target, value). Specified by `EdgeIsNonzeroCell`, `NonzeroCellIsEdge`, `EdgeBounds`, `EdgesInMeltOrder` |
| Sankey.EdgeIsNonzeroCell | pages/4_Utilities.py:149-155 | every link is a nonzero cell (i, j) as i → R + j with that value |
| Sankey.NonzeroCellIsEdge | pages/4_Utilities.py:149-155 | every nonzero cell, negative ones included, is a link |
| Sankey.EdgeBounds | pages/4_Utilities.py:157-159 | a link leaves an origin, enters a destination and carries its cell's nonzero value |
| Sankey.MeltIsOrdered | pages/4_Utilities.py:152-154 | the melt runs column by column, row by row |
| Sankey.PruneKeepsOrder | pages/4_Utilities.py:155 | filtering keeps that order |
| Sankey.EdgesInMeltOrder | pages/4_Utilities.py:152-155 | links come in melt order, so no cell gives two links |
| Seqs.Sum | pages/4_Utilities.py:145 | pandas `sum` of integer cells. Specified by `Category.SumNegated`, `Category.WaterfallBalanced` and `Sankey.SourceTotals` |
| Sankey.SourceTotals | pages/4_Utilities.py:145 | one total per origin |
| Sankey.Ranking | pages/4_Utilities.py:145 | the origins in non-increasing order of total, a permutation of them |
| Sankey.TopLabels | pages/4_Utilities.py:145 | `.index[:n]` is the first min(n, R) labels of the ranking |
| Sankey.ZipDict | pages/4_Utilities.py:146 | `dict(zip(k, v))` has exactly the keys of the zipped prefix and values from v |
| Sankey.ZipDictAt | pages/4_Utilities.py:146 | a repeated key keeps the value of its last occurrence |
| Sankey.Get | pages/4_Utilities.py:147 | `dict.get(x, default)`. Specified by `NodeColourRanked`, `NodeColourFallback` and `LinkColourSpec` |
| Sankey.NodeColours | pages/4_Utilities.py:146-147 | one colour per node; equal labels get equal colours |
| Sankey.NodeColourRanked | pages/4_Utilities.py:145-147 | a label whose last top-nine place is t gets palette colour t |
| Sankey.NodeColourFallback | pages/4_Utilities.py:147 | a label outside the top nine gets `Plotly[-1]` |
| Sankey.LinkHex | pages/4_Utilities.py:161-162 | a link's hex colour is a Plotly colour or `#AFAFAF` |
| Sankey.LinkHexParses | pages/4_Utilities.py:162 | those hex colours always pass `hex2rgba` |
| Sankey.LinkColours | pages/4_Utilities.py:162 | one colour per link |
| Sankey.LinkColourSpec | pages/4_Utilities.py:161-162 | a link from a top-five origin at last place t is Plotly colour t at 0.5; any other is grey at 0.5 |
| Sankey.CellColumn | pages/4_Utilities.py:152-154 | the melted rows of column j are (i, R + j, cell) for each row i |
| Sankey.CellStep | pages/4_Utilities.py:155 | one more cell adds its link exactly when it is nonzero |
| Sankey.ColumnStep | pages/4_Utilities.py:152-155 | one more column appends its filtered rows |
| Sankey.CollectColumn | pages/4_Utilities.py:152-155 | the row loop returns the filtered melt of one column |
| Sankey.BuildSankey | pages/4_Utilities.py:140-171 | labels, node colours, the links in melt order and the link colouring, equal to the specification `Diagram` |
| Sankey.Diagram | pages/4_Utilities.py:140-171 | labels, node colours, links and link colouring handed to `go.Sankey`. Specified by `BuildSankey` and the lemmas on each part |
| Bubble.ColumnOf | pages/4_Utilities.py:215 | `data[name]` is the column with that header |
| Bubble.Chosen | pages/4_Utilities.py:215 | `value_vars=ys` selects one column per chosen header, in the chosen order |
| Bubble.ChosenRectangular | pages/4_Utilities.py:215 | every chosen header names a column of the table, all as long as the table |
| Bubble.BubbleData | pages/4_Utilities.py:215 | `data.melt(id_vars=x, value_vars=ys)`. Specified by `BubbleShape`, `BubbleReorder` |
| Bubble.MapRemove | pages/4_Utilities.py:215 | dropping one header from the list drops exactly its column from the selection |
| Bubble.MapPermutation | pages/4_Utilities.py:215 | a per-header selection of permuted headers is a permutation of the selection |
| Bubble.BubbleShape | pages/4_Utilities.py:215 | row `j·H + i` is (x of row i, j-th chosen header, its cell i); H·|ys| rows in all |
| Bubble.ColumnsPermuted | pages/4_Utilities.py:215 | reordering the chosen headers permutes the selected columns |
| Bubble.BubbleReorder | pages/4_Utilities.py:215 | reordering the chosen headers only permutes the bubble rows |
| Category.Repeat | pages/2_Category.py:90 | `[x] * k` has max(k, 0) copies of x |
| Category.Negated | pages/2_Category.py:130 | negation keeps the length |
| Category.SumNegated | pages/2_Category.py:89 | negating a column negates its sum |
| Category.WaterfallY | pages/2_Category.py:89 | the first value kept, every later one negated, same length |
| Category.WaterfallMeasures | pages/2_Category.py:90 | `absolute` then `relative`s, max(n, 1) entries |
| Category.Waterfall | pages/2_Category.py:87-91 | x is the category column; y and text as long as the data, text unsigned, measures matching y when nonempty and `[absolute]` when empty |
| Category.WaterfallBalanced | pages/2_Category.py:89 | the signed values sum to 0 exactly when the later rows add up to the first |
| Category.Cats | pages/2_Category.py:103 | the category column, row by row |
| Category.Xs | pages/2_Category.py:119 | the length column, row by row |
| Category.Ys | pages/2_Category.py:119 | the label column, row by row |
| Category.Select | pages/2_Category.py:104-108 | the mask keeps exactly the rows of that category, as many as it occurs |
| Category.SelectAppend | pages/2_Category.py:107-108 | mask selection keeps row order |
| Category.SelectTwo | pages/2_Category.py:104-108 | the two groups are disjoint and cover all rows exactly when no third category occurs |
| Category.DualBar | pages/2_Category.py:102-140 | fails exactly when there are fewer than two distinct categories |
| Category.DualBarFails | pages/2_Category.py:103-105 | it fails exactly when all rows share one category |
| Category.GroupBars | pages/2_Category.py:107-108 | a group's bars are exactly its rows' (length, label) pairs |
| Category.RowHasBar | pages/2_Category.py:107-108 | each row of the category has a bar |
| Category.TwoCategories | pages/2_Category.py:103-105 | two rows of different categories give a chart, with at least two distinct categories |
| Category.BarHasRow | pages/2_Category.py:107-108 | each bar comes from a row of the category |
| Category.DualBarNames | pages/2_Category.py:103-105 | left and right are both categories of some row; left is the least category, right the next; other rows' categories are larger |
| Category.DualBarMembers | pages/2_Category.py:107-133 | left bars are exactly the left rows; right texts are exactly the right rows' unsigned lengths |
| Category.DualBarSizes | pages/2_Category.py:103-108 | the groups hold at most all rows, all exactly when there is no third category |
| Category.DualBarGeometry | pages/2_Category.py:110-138 | bases `+space`/`-space` of the left group's length, right bars negated, labels at x = 0 |
| Category.EffectiveLabels | pages/2_Category.py:246-247 | an empty choice becomes `['label']`, otherwise the choice |
| Category.TextInfoLists | pages/2_Category.py:72 | the page's `textinfo` is set and splits on `+` into the chosen options, or is `label` |
| Category.TextInfo | pages/2_Category.py:70-73 | `'+'.join(labels)`, unset when no labels are passed. Specified by `TextInfoLists` |
| Rank.SortRank | pages/3_Rank.py:142 | a permutation of the rows in ascending value order |
| Rank.SortRankDetermined | pages/3_Rank.py:142 | with distinct values every ascending permutation is that one |
| Rank.CategoriesOf | pages/3_Rank.py:146 | the category column, row by row |
| Rank.SeriesOf | pages/3_Rank.py:146 | the colour column, row by row |
| Rank.Lookup | pages/3_Rank.py:146 | a value exactly when some row has that pair, and it is that row's |
| Rank.PivotTable | pages/3_Rank.py:146 | fails exactly on a duplicated (category, series) pair; its cells form a categories × series grid |
| Rank.PivotAxes | pages/3_Rank.py:146 | rows are the distinct categories and columns the distinct series, each ascending |
| Rank.PivotCell | pages/3_Rank.py:146 | a cell is `v` exactly when the row (category, series, v) exists, and a gap exactly when no row has the pair |
| Rank.SamePairSameRow | pages/3_Rank.py:146 | without duplicates a pair names one row |
| Rank.PivotRows | pages/3_Rank.py:147 | row i is category i with its cells |
| Rank.Keep | pages/3_Rank.py:147 | exactly the rows with (or without) a first-series value, in order |
| Rank.KeepSplits | pages/3_Rank.py:147 | the two parts together are a permutation of the rows |
| Rank.SortedPresent | pages/3_Rank.py:147 | after sorting, every row with a value still has one |
| Rank.SortByFirstSeries | pages/3_Rank.py:147 | a permutation: rows with a value first, ascending, then gap rows in their previous order |
| Rank.SeriesPresent | pages/3_Rank.py:146-147 | there is no series exactly when there are no rows |
| Rank.WideTable | pages/3_Rank.py:146-147 | fails exactly on a duplicate, an empty table, or a category header that is also a series label (ambiguous `sort_values` key or a second `reset_index` column); otherwise the category name is column 0 |
| Rank.WideTableSpec | pages/3_Rank.py:146-147 | `DuplicateEntry` on a duplicate, `NameClash` when the header is a series label; otherwise the columns are the category name then the sorted series; the rows are the pivot's rows sorted by the first series (`SortByFirstSeries`), a permutation of them |
| Rank.PairAxes | pages/3_Rank.py:143-144 | vertical: category on x, value on y; horizontal: the reverse |
| Rank.WideAxes | pages/3_Rank.py:148-149 | the series columns take the value role, the category column the other |
| Rank.Iterated | pages/3_Rank.py:63 | `for c in` a list gives its names, and a string its characters |
| Rank.TextColumns | pages/3_Rank.py:58-66 | bar texts from the value axis. Specified by `TextFollowsValues` |
| Rank.TextPositionOf | pages/3_Rank.py:68 | text is inside exactly in `relative` mode |
| Rank.TextFollowsValues | pages/3_Rank.py:58-66 | single-series bars are labelled by the value column and each series trace by its own column |
| Rank.Gate | pages/3_Rank.py:130 | `x and y and (not (data.shape[1]>2) or color)`. Specified by `RankPage` |
| Rank.RankPage | pages/3_Rank.py:130-151 | a chart result exists exactly when the gate condition holds |
| Rank.PairPage | pages/3_Rank.py:141-144 | a two-column chart: rows sorted ascending, value on the value axis, texts from the value column, inside iff relative |
| Rank.LongPage | pages/3_Rank.py:145-151 | a wide chart fails only on a duplicate, an empty table or a header that is a series label; otherwise its rows are sorted by the first series, the series take the value role and label their own traces |

## Behaviour worth noting

- **Dual-bar left group.** `np.unique` sorts, so the left group is the least
  category, not the first to appear (`Category.DualBarNames`).
- **Dual-bar category count.** The chart fails only on fewer than two
  categories, with an IndexError. Rows of a third or later category are drawn
  in neither group (`Category.DualBarFails`, `Category.DualBarSizes`).
- **Ranking ties.** pandas' `sort_values` defaults to quicksort, which
  promises no order among equal values. `Rank.SortRank`,
  `Rank.SortByFirstSeries` and `Sankey.Ranking` state only the order and the
  permutation; `Rank.SortRankDetermined` shows the result is fixed when values
  are distinct.
- **Wide ranking header clash.** When the category header is also one of
  the colour column's values, the page raises: `sort_values` finds the key
  ambiguous, or `reset_index` cannot insert the category column
  (`Rank.WideTable`, error `NameClash`).
- **Whitespace in `int(s, 16)`.** `int` strips ASCII tab to carriage return,
  space and the non-ASCII characters `str.isspace` accepts, but not the ASCII
  separators U+001C to U+001F, although `str.isspace` accepts them
  (`HexColor.PaddedDigit`, `HexColor.JunkBeforeDigit`).

## Left out

- Streamlit widgets, file upload, the CSV-then-Excel read fallback, the text
  on the page, image export and download buttons: UI and I/O. Widget values
  are parameters.
- plotly and matplotlib figure construction, layout, styling and the theme
  template in config/config.py: foreign library calls. The model stops at the
  data handed to the figure.
- Pie, treemap and sunburst figure calls (`pages/2_Category.py:52-83`) and the
  trend page: single library calls. Only the `textinfo` string is modelled.
- `scatter_pie` (`pages/4_Utilities.py:79-131`): floating-point radius
  scaling and matplotlib drawing.
- Number formatting. The waterfall's `f'{i:.0f}'` is kept as the integer
  values it prints, and the alpha in `hex2rgba` is an opaque string. Table
  cells are integers, not floats.
- NaN. The filter `value != 0` and the pivot are modelled on integers
  without NaN. Pivot gaps are `None`.
- HexColor.ParseInt16: treats only ASCII 0-9, a-f and A-F as digits. Python's
  `int(s, 16)` also accepts other Unicode decimal digits.
- Column lookup. Rank takes the chosen columns already extracted as rows.
  Choosing the same column for two roles is not modelled.
- Non-string labels. Categories, series and node labels are strings ordered
  by code point. pandas orders numeric labels numerically.
- Sankey.Ranking, Rank.SortRank, Rank.SortByFirstSeries: the order among
  equal keys is left unspecified. pandas' default sort promises none, and
  the model's sort is one admissible order.
- The figure-only arguments of `sankey` (padding, thickness, width, height)
  and of `bar_rank` (fonts, axis titles, reversed axes at
  `pages/3_Rank.py:153-171`): rendering.
