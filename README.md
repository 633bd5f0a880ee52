# Google Play apps: cleaning and aggregation, modelled in Dafny

`main.py` loads the Google Play store listing. It cleans the listing and then derives
the tables its charts and printouts are drawn from. This project models that pipeline and
proves what each stage promises.

- **Cleaning.** The script drops two columns and removes rows with a missing cell. It
  removes duplicates, keeping the first, and then the `Varies with device` size sentinel.
  It reads `Size` into `Size_MB` with `convert_size` and drops the rows without one. It
  strips `+`, `,` and `$` from `Installs` and `Price` and reads them as numbers. It drops
  rows priced above 250, then adds `Revenue_Estimate = Price * Installs`.
- **Derived tables.** The four sorted "top" views and the paid revenue ranking, with how
  many of its top ten are games. Value counts of content ratings, categories and
  (category, type) pairs. Install sums per category and the category concentration table.
  The genre split, its flattening, the unique genres and their counts, and the
  multi-genre rows. The free-against-paid selection, and the paid-revenue rows of
  categories with at least five of them. The paid apps, and those priced at most 100.

The model is organised by module:

- **Table.** One datatype per stage of the row: `RawApp`, `Listing`, `App`, `Sized`,
  `Record` and `Earning`.
- **Cleaning.** The stages as functions over `seq` of rows.
- **Normalise.** The per-cell converters, on top of these modules:
  - `Text`: strip, upper, replace, split and join;
  - `Numbers`: the numerals `float` and `pd.to_numeric` accept.
- **Analysis.** The derived tables.
- **Script.Analyse.** The whole run. It rebinds the table stage by stage, as the script
  rebinds `clean_df`.
- **Seqs, Columns and Groups.** The pandas operations used: boolean masks,
  `drop_duplicates`, `sort_values`, `head`, applying a converter that may raise,
  `groupby().sum()` and `value_counts()`.

A conversion that raises (`float` at lines 20 and 22, `pd.to_numeric` at lines 31 and 39)
ends the script. Here it is an `Err` carrying the text that was refused, and the run
reports the first such failure in the script's order.

Points of the code that the model keeps as written:

- `convert_size` tests whether `M` occurs anywhere in the trimmed, upper-cased text, and
  then whether `K` does. It does not test for a suffix, and `M` wins when both occur.
- When `float` refuses what is left after the unit letters are deleted, `convert_size`
  raises. It does not return a missing value.
- Installs lose every `+`, wherever it stands, and every `,`.
- An Installs or Price text that `pd.to_numeric` refuses raises as well.

## Model

| member | source | states |
|---|---|---|
| Cleaning.DropColumns | main.py:8 | The same rows in the same order; putting the Last Updated and Android Ver cells back gives each input row. |
| Cleaning.DropMissing | main.py:11 | `dropna()`: the rows kept are exactly the complete rows, in order. |
| Cleaning.DropMissingIn | main.py:11 | A row survives `dropna()` exactly when the listing holds it. |
| Cleaning.Sanitise | main.py:11 | `dropna().drop_duplicates()`: no row twice, and a row is kept exactly when the listing holds it complete. |
| Cleaning.SanitiseOrder | main.py:11 | The sanitised rows are an order-preserving subsequence of the listing, and of equal rows the first is kept. |
| Seqs.Dedup | main.py:11 | `drop_duplicates`: the same values, none twice. |
| Seqs.DedupSubsequence | main.py:11 | Deduplication keeps the order of the rows. |
| Seqs.DedupKeepsFirst | main.py:11 | The kept rows follow the order of their first occurrences. |
| Seqs.Filter | main.py:14 | A boolean mask `df[mask]`, as at lines 14, 62, 66, 285, 312, 347 and 354: no more rows than the input, each passing the test. |
| Seqs.FilterIn | main.py:14 | A row is selected exactly when it is in the input and passes the test. |
| Seqs.FilterSubsequence | main.py:14 | The selected rows keep their order. |
| Cleaning.DropVaries | main.py:14 | No row left has the `Varies with device` size. |
| Cleaning.DropVariesRows | main.py:14 | Exactly the rows with another size are kept, in order. |
| Text.Strip | main.py:18 | `strip()`: no blank at either end and no longer than the input. |
| Text.StripSlice | main.py:18 | The stripped text is a slice of the input with only blanks cut off. |
| Text.Upper | main.py:18 | `upper()`: same length, each ASCII lower-case letter replaced by its capital and every other character kept. |
| Text.DeleteAll | main.py:20 | `replace(c, '')`: no `c` left, and the length drops by the number of `c`s. |
| Text.DeleteAllKeeps | main.py:20 | Every other character survives the replace. |
| Numbers.ParseDecimal | main.py:20 | A numeral `float` reads holds a digit and only numeral characters; unsigned ones are non-negative. |
| Numbers.ParseFloat | main.py:20-22 | `float`: a text it reads holds a digit and only numeral characters and blanks; a text without blanks at its ends reads as the plain numeral. |
| Numbers.ParseDecimalNat | main.py:20 | `float` reads the decimal form of a natural number as that number. |
| Normalise.KilobytesToMegabytes | main.py:22 | Kilobytes over 1024: the megabytes times 1024 give the kilobytes back. |
| Normalise.ConvertSize | main.py:17-24 | No size exactly when the normalised text has neither `M` nor `K`. A text with `M` whose `M`s delete to a text `float` refuses raises with that text. So does a text with `K` and no `M` whose `K`s delete to a refused text. Every raised error carries a text `float` refuses. |
| Normalise.ParseFloatRejects | main.py:20 | `float` raises on a text holding a non-numeral, non-blank character. |
| Numbers.ParseFloatBlanks | main.py:20-22 | `float` skips blanks around a numeral: blanks, a numeral, blanks read as the numeral. |
| Normalise.MegabytesRead | main.py:19-20 | A normalised text with an `M` whose `M`s delete to a numeral, with or without blanks around it, is that many megabytes. |
| Normalise.KilobytesRead | main.py:21-22 | A normalised text with `K` but no `M`, whose `K`s delete to a numeral with or without blanks around it, is that many kilobytes in megabytes. |
| Normalise.ConvertSizeSpacedUnit | main.py:17-20 | A numeral, a blank and `M` (`19 M`) is that many megabytes. |
| Normalise.ConvertSizeMegabytes | main.py:17-20 | A numeral with `M` or `m` at either end is read as that many megabytes. |
| Normalise.ConvertSizeKilobytes | main.py:17-22 | A numeral with `K` or `k` at either end is read as that number over 1024. |
| Normalise.ConvertSizeBothUnits | main.py:19-22 | `M` is tested first: a text with both letters keeps its `K` and raises. |
| Normalise.ConvertSizeNoUnit | main.py:23-24 | A text without `M`, `m`, `K` or `k` has no size, whatever else it holds. |
| Normalise.ConvertSizeSentinel | main.py:14-24 | The sentinel itself would convert to no size. |
| Columns.Traverse | main.py:26 | `apply` with a converter that may raise: success exactly when every cell converts, the results in order, otherwise the first failure. |
| Cleaning.SizeCellMeaning | main.py:26 | A Size cell fails exactly when `convert_size` raises, with a text `float` refuses. |
| Columns.DropAbsent | main.py:27 | `dropna(subset=...)` on a converted column: exactly the rows whose value is present, in order, each with its value. |
| Cleaning.SizeStage | main.py:26-27 | Success exactly when every Size cell converts. The rows kept are the ones with a size, in order, each with its own Size_MB. Otherwise the failure is the first raised. |
| Cleaning.SizeStageRows | main.py:26-27 | The sized rows are an order-preserving subsequence of the input; each `Size_MB` is `convert_size` of its text, and none is the sentinel. |
| Normalise.NormaliseInstalls | main.py:30 | No `+` or `,` left, and the length drops by their number. |
| Normalise.NormaliseInstallsKeeps | main.py:30 | Every other character survives, in order. |
| Normalise.NormaliseInstallsPlain | main.py:30 | A text without `+` or `,` is unchanged. |
| Normalise.ParseInstalls | main.py:30-31 | An Installs text read as a count holds a digit and only digits, `+` and `,`. |
| Numbers.ParseNat | main.py:31 | `pd.to_numeric` on Installs reads exactly the non-empty digit strings. |
| Numbers.ParseNatShow | main.py:31 | Reading the decimal form of a count gives the count. |
| Numbers.UngroupThousands | main.py:30 | Deleting the commas of a grouped numeral gives the digits back. |
| Normalise.InstallsRoundTrip | main.py:30-31 | Displaying a count as `10,000+` and normalising and reading it gives the count back. |
| Normalise.NormalisePrice | main.py:38 | No `$` left, and the length drops by their number. |
| Normalise.NormalisePriceKeeps | main.py:38 | Only the `$` go: every other character keeps its count, in order. |
| Normalise.ParsePrice | main.py:38-39 | A Price text read as a number holds a digit and only numeral characters and `$`; without a `-` the price is not negative. |
| Normalise.PriceDollar | main.py:38-39 | A leading `$` does not change the price read. |
| Cleaning.NumericCellMeaning | main.py:30-39 | An Installs or Price cell fails exactly when its normalised text is not a numeral, and carries that text. |
| Cleaning.NumericStage | main.py:30-39 | Success exactly when every Installs and Price cell reads. Each row keeps its app and size and gains both numbers. A failure is the first Installs cell refused, or, when every Installs cell reads, the first Price cell refused. |
| Seqs.TopBy | main.py:42-59 | `sort_values(ascending=False).head(n)`: `min(n, len)` rows, non-increasing, drawn from the input, none of the rest above them. |
| Analysis.HighestRated | main.py:42-44 | The five highest rated rows, non-increasing by rating, none left out rated above them. |
| Analysis.LargestApps | main.py:47-49 | The five largest rows by Size_MB, none left out larger. |
| Analysis.MostReviewed | main.py:52-54 | The five most reviewed rows, none left out with more reviews. |
| Analysis.MostExpensive | main.py:57-59 | The twenty highest priced rows, none left out dearer. |
| Cleaning.CapPrice | main.py:62 | Every row kept costs at most 250. |
| Cleaning.CapPriceRows | main.py:62 | Exactly the rows priced at most 250 are kept, in order. |
| Cleaning.WithRevenue | main.py:65 | Each row keeps its cells and gains price times installs as its revenue estimate. |
| Analysis.PaidApps | main.py:347 | Every row selected is of type Paid. |
| Analysis.PaidAppsRows | main.py:66 | The paid selection is exactly the Paid rows, in order. |
| Seqs.SortDesc | main.py:66 | `sort_values(ascending=False)`: non-increasing and a permutation of the input. |
| Analysis.TopRevenue | main.py:66 | The paid rows sorted non-increasing by revenue estimate, as a permutation. |
| Analysis.TopRevenueRows | main.py:66 | The ranking holds every Paid row and nothing else, as many as the paid rows. |
| Seqs.Head | main.py:71 | `head(n)`: the first `min(n, len)` rows. |
| Analysis.GamesInTopTen | main.py:71 | The number of top-ten earners whose category contains `GAME` is at most ten and at most the paid game rows overall. |
| Analysis.GamesInTopTenRange | main.py:66-71 | With ten paid rows or fewer, the count is every paid game row. Otherwise, with `v` the tenth best revenue, it is at least the paid game rows earning more than `v` and at most those earning `v` or more, whatever the order of ties. |
| Text.HasSubstring | main.py:71 | `sub in s`: true exactly when `sub` occurs at some position. |
| Groups.ValueCounts | main.py:77 | `value_counts()`: each value present once, with its number of occurrences. |
| Groups.ValueCountsTotal | main.py:92 | The value counts add up to the number of rows. |
| Analysis.ContentRatingCounts | main.py:77 | One row per content rating present, with its number of apps; the counts add up to the number of apps. |
| Analysis.CategoryCounts | main.py:92 | One row per category present, with its number of apps; the counts add up to the number of apps. |
| Groups.GroupTotals | main.py:143 | `groupby().sum()`: each key present once, with the sum of its values. |
| Groups.GroupTotalsSum | main.py:143 | The group sums add up to the sum of all values. |
| Analysis.InstallRows | main.py:143 | Row by row, each app's category paired with its own Installs, in table order. |
| Analysis.CategoryInstalls | main.py:143 | One row per category present, with its installs summed; no install lost or counted twice. |
| Analysis.Concentration | main.py:166-169 | Per category present, once each, its number of apps and its total installs. |
| Text.Split | main.py:206 | `str.split(';')`: at least one piece and no piece holds the separator. |
| Text.SplitLength | main.py:206 | One piece more than there are separators. |
| Text.JoinSplit | main.py:206 | Joining the pieces with the separator gives the text back. |
| Analysis.GenreSplit | main.py:206 | Per row, the pieces join back to its Genres cell and number one more than its `;`s. |
| Analysis.AllGenres | main.py:209 | The flattened genres hold no `;`. |
| Analysis.AllGenresFrom | main.py:206-209 | A genre is in the flattened column exactly when some row's Genres cell splits into it. |
| Analysis.AllGenresCount | main.py:206-209 | Each genre occurs in the flattened column as often as in all the rows' splits together. |
| Analysis.AllGenresLength | main.py:209 | The flattened genres number one per row plus one per separator. |
| Analysis.UniqueGenres | main.py:212 | `nunique()` is at most the number of genres listed. |
| Analysis.UniqueGenresCount | main.py:212-227 | The unique genres are as many as the set of genres and as the rows of the genre counts. |
| Analysis.GenreCounts | main.py:217-227 | One row per genre, with its occurrences; the counts add up to the flattened genres. |
| Analysis.MultiGenre | main.py:220 | Every row selected has a `;` in its Genres cell. |
| Analysis.MultiGenreRows | main.py:220 | A row is selected exactly when its genres split into two pieces or more. |
| Text.HasSubstringChar | main.py:220 | A one-character substring occurs exactly when the character does. |
| Analysis.CategoryTypeCounts | main.py:254 | One row per (category, type) pair present, with its number of apps; the counts add up to the number of apps. |
| Analysis.InstallComparison | main.py:285 | Every row selected is Free or Paid. |
| Analysis.InstallComparisonRows | main.py:285 | Exactly the Free and Paid rows are selected: as many as both together. |
| Analysis.FrequentCategory | main.py:315-316 | A category is valid exactly when at least five of the candidate rows have it. |
| Analysis.FrequentOnlyIf | main.py:316 | A valid category has at least five candidate rows. |
| Analysis.FrequentIf | main.py:316 | A category with at least five candidate rows is valid. |
| Analysis.PaidRevenue | main.py:312-317 | Every row kept is Paid with a positive revenue estimate. |
| Analysis.PaidRevenueRows | main.py:312-317 | A row is kept exactly when it is a paid, earning row of a category with at least five of those; every category left has at least five rows. |
| Analysis.PaidAppsFiltered | main.py:354 | Every row kept is Paid and priced at most 100. |
| Analysis.PaidAppsFilteredRows | main.py:354 | Exactly the Paid rows priced at most 100 are kept, in the order of the paid rows. |
| Script.Prepared | main.py:8-14 | No row twice; an app is kept exactly when the listing holds it complete and its size is not the sentinel. |
| Script.Converted | main.py:26-39 | Succeeds exactly when every prepared Size cell converts and every prepared row with a size has an Installs and a Price text that read. Its rows are then exactly the prepared rows with a size, in order, each with the readings of its own text. A failure carries a Size text `float` refuses, an Installs text that is not a count, or a Price text that is not a numeral. |
| Script.ConvertedFailure | main.py:26-39 | The failure reported is the first the script meets: the first Size cell that raises; else the first Installs text of a sized row that is not a count; else the first Price text that is not a numeral. |
| Script.StagesSucceed | main.py:26-39 | Both stages succeed exactly when every Size cell converts and every sized row's Installs and Price read. |
| Script.SizeStageAll | main.py:26 | The size stage succeeds exactly when every Size cell converts. |
| Script.NumericStageAll | main.py:30-39 | The numeric stage succeeds exactly when every row's Installs and Price texts read. |
| Script.NumericFirstFailure | main.py:30-39 | A failed numeric stage reports its first refused Installs text, or, when all of those read, its first refused Price text. |
| Script.SizeStageFailure | main.py:26 | A failed size stage reports a Size text `float` refuses. |
| Script.NumericStageFailure | main.py:30-39 | A failed numeric stage reports an Installs text that is not a count or a Price text that is not a numeral. |
| Script.ConvertedRows | main.py:26-39 | After both conversion stages, every row is a prepared row whose Size_MB, Installs and Price are the readings of its text. |
| Script.CappedEarnings | main.py:62-65 | Every final row comes from before the cap, costs at most 250 and carries price times installs. |
| Script.EarningRows | main.py:62-65 | The final rows keep the readings of their text, have a fixed size and come from the listing. |
| Script.FinalRows | main.py:8-65 | Once both conversions succeed, every final row is a cleaned row of the listing carrying its revenue estimate. |
| Script.SizedDistinct | main.py:26-27 | The size stage keeps the rows all different. |
| Script.RecordsDistinct | main.py:30-39 | The numeric stage keeps the rows all different. |
| Script.CappedDistinct | main.py:62-65 | The price cap and the revenue column keep the rows all different. |
| Script.FinalDistinct | main.py:11-65 | The duplicates dropped at line 11 stay dropped: no app row occurs twice in the final table. |
| Script.Analyse | main.py:8-65 | The whole cleaning run. It succeeds exactly when every conversion does, and otherwise reports the first failure. Every final row is cleaned, capped at 250 and carries its revenue estimate, and no row occurs twice. The views and the table are the ones derived from the converted rows. |

## Left out

- Reading the CSV file (line 5) is left out: the model starts from the rows, with a missing cell as `None`.
- The plotly figures, their layout and `.show()` (lines 80-376) are presentation only. The model keeps the tables they are drawn from.
- The `print` calls are console output and are left out: lines 34-35, 43-44, 48-49, 53-54, 58-59, 68, 72, 202-203, 213, 216-217, 221 and 351.
- The mean rating per category (line 113) and the median price (line 350) are floating-point statistics and are left out.
- Seqs.SortDesc, Seqs.TopBy: the order of equal keys after `sort_values` (lines 42-66, 144) is left out, because pandas' default sort is not stable. Contracts promise only non-increasing order and a permutation. The ascending re-sort at line 144 and the re-sort at line 124 only reorder a chart's bars and are left out.
- Groups.ValueCounts, Groups.GroupTotals: `value_counts` lists counts by decreasing count and `groupby` lists keys in sorted order. The model lists keys in order of first appearance and promises the keys and their counts, not the row order.
- Numbers.ParseDecimal: `float` and `pd.to_numeric` are modelled on plain numerals only (an optional sign, digits, an optional fraction). Exponents, `inf`/`nan`, underscores and non-ASCII digits are not accepted. An empty Installs or Price text is a failure here. Reading it as a missing value instead is not modelled.
- Normalise.ParseInstalls, Normalise.ParsePrice: the model reads a normalised Installs or Price text with no blank anywhere in it. Blanks around the number are not skipped, so a text such as `$ 4.99` is a failure here. Whether `pd.to_numeric` would skip them is not modelled. `float` on a Size remainder does skip them (Numbers.ParseFloat).
- Numbers.ParseNat: Installs are read as digit strings only. A decimal Installs value, which `pd.to_numeric` would accept as a float, is a failure here.
- Text.Upper: only ASCII letters are upper-cased. Unicode case mapping is not modelled.
- Reals are exact: IEEE rounding of `/ 1024`, of `Price * Installs` and of the comparisons with 250 and 100 is not modelled.
- The model assumes that the Reviews column loads as integers. A Reviews column that pandas loads as text, and a malformed Reviews cell, are not modelled.
- `.apply(pd.Series).stack()` (line 209) is modelled only by its result, the flattened list of genres.
