# Data-analyst vacancy pipeline, in Dafny

This project models the data-handling core of a small pipeline about data-analyst job
vacancies and proves properties of that model. The pipeline has three stages:

- **Enrichment** (`eda.py`). It normalises the column names of the scraped vacancy
  table. It parses the salary estimate ("$50K-$70K") into monthly minimum, maximum and
  average. It splits "City, ST" locations. It cleans the job descriptions: lowercase,
  letters only, no stopwords. Then a loop sends the cleaned descriptions, 500 rows per
  batch, to a skill extractor and fills an `extracted_skills` column.
- **Skill aggregation** (`job_market/skills_analysis.py`). It drops rows without
  skills and splits each reply on commas, trimming every token. It flattens the
  lists, removes a case-sensitive set of generic terms, counts the tokens and keeps
  the ten most common.
- **Dashboard data** (`app.py`). For a chosen city the top-skills chart repeats the
  aggregation in a second variant:
  - the stored lists are parsed with a literal parser, and a failure gives an empty
    list;
  - every token is stripped and lower-cased before the stoplist test;
  - the ten most common names are cleaned of symbols and sorted by count.

  The dashboard also builds two tables: vacancies per company founding year, where
  only positive years count, and the ten largest industries, where "-1" means
  unknown.

Layout:

| file | module | contents |
|---|---|---|
| `wrappers.dfy` | `Wrappers` | `Option`, `Result` |
| `seqs.dfy` | `Seqs` | occurrence counts, flattening, filtering by a stoplist, distinct elements, first positions, dropping missing values |
| `strings.dfy` | `Strings` | Python's whitespace class, ASCII lower-casing, character filters (`re.sub` with a negated class), `strip`, `split(sep)` and `join`, maximal runs (`re.findall(r"\d+")`, `str.split()`) |
| `counter.dfy` | `Counter` | `collections.Counter` as a map and `most_common(n)` as a ranking |
| `eda.dfy` | `Eda` | `eda.py`: column names, salary, location, description cleaning, the batch loop |
| `skills_analysis.dfy` | `SkillsAnalysis` | `job_market/skills_analysis.py`: the skill aggregation |
| `app.dfy` | `Dashboard` | `app.py`: the per-city skill chart, the founding-year and industry tables |

Boundaries of the model:

- The skill extractor, a hosted language model, is a function parameter
  `extractSkills: string -> string` of the batch loop.
- The stopword list is a parameter `stopWords: set<string>`.
- `ast.literal_eval` is a parameter `literalEval: string -> Option<seq<string>>`.
  `None` stands for the exception that `parse_skills` catches.
- Data frames are sequences of rows or of column values. A missing value (`NaN`) is
  `None`.
- Salary amounts are exact `real`s.

`Counter.most_common(n)` is modelled by its behaviour in CPython. A `Counter` keeps
its keys in first-encountered order, and `most_common` sorts stably by count. So the
result is the first `n` distinct elements by decreasing count and, within a count,
by first occurrence. `Counter.MostCommon` is defined by exactly that ranking. Its
contract states the ranking outright: true counts, no duplicates, the order, and that
no omitted element ranks ahead of a listed one.

The batch loop (eda.py:122-125) is an imperative method over an `array` that holds
the `extracted_skills` column. Each batch writes its rows one at a time. A ghost
sequence records the column after each batch, which is the state every checkpoint
`to_csv` would save. The method is proved against `Processed`, a function that
describes the column after the first `done` rows are filled.

## Model

| member | source | states |
|---|---|---|
| `Eda.NormalizeColumn` | eda.py:24-28 | A normalised column name contains only `a`-`z`, `0`-`9` and `_`. |
| `Eda.NormalizeColumnCharwise` | eda.py:24-28 | The rename chain works one character at a time, so it distributes over concatenation. A single character becomes its own image: a space becomes `_`, an allowed character survives lower-cased, anything else disappears. |
| `Eda.SpacesBecomeUnderscores` | eda.py:26 | The underscores of the result are exactly the spaces plus the underscores of the original name, so every space of the original becomes `_`. |
| `Eda.NormalizeColumnIdempotent` | eda.py:24-28 | Normalising an already normalised name changes nothing. |
| `Eda.ExtractSalaryCorrect` | eda.py:33-40 | A salary is parsed if and only if the text has exactly two maximal digit runs, where runs are counted independently of the tokeniser. The triple is then all present: min = a·1000/12 and max = b·1000/12 for the two numbers a and b, and avg is their midpoint. All three are non-negative, and min ≤ avg ≤ max when a ≤ b. Otherwise the result is absent as a whole, with no mixed result. |
| `Eda.ExtractSalary` | eda.py:33-40 | When a salary is parsed, both monthly amounts are non-negative and the average is their midpoint. |
| `Eda.ExtractSalaryExamples` | eda.py:33-40 | "$50K-$70K" gives 50000/12, 70000/12 and 5000. Both "$80K" (one number) and "invalid" (none) give no salary. |
| `Eda.RangeSalaryRuns` | eda.py:34 | `findall(r"\d+", "$50K-$70K")` is `["50", "70"]`. |
| `Eda.SingleSalaryRuns` | eda.py:34 | `findall(r"\d+", "$80K")` is `["80"]`. |
| `Eda.NoSalaryRuns` | eda.py:34 | `findall(r"\d+", "invalid")` is empty. |
| `Eda.City` | eda.py:53 | The city is the prefix of the location that holds no comma and ends at the first comma or at the end of the text. |
| `Eda.State` | eda.py:54 | The state lookup succeeds exactly when the location has a comma; without one it is an index error. The state is the comma-free text right after the first comma, up to the second comma or the end. |
| `Eda.KeptWords` | eda.py:96-100 | No word kept by the description cleaner is a stopword. |
| `Eda.TextClean` | eda.py:96-101 | The cleaned description holds only `a`-`z` and blanks, has no blank at either end and never two blanks in a row. |
| `Eda.CleanedWords` | eda.py:97-100 | Every kept word is a non-empty run of `a`-`z` and is not a stopword. |
| `Eda.JoinWordsClean` | eda.py:101 | Joining non-empty lower-case words with single blanks gives clean text: only `a`-`z` and blanks, no blank at either end, no two blanks in a row. |
| `Eda.TextCleanShape` | eda.py:96-101 | The cleaned description is clean text, and it splits back into exactly the kept words. None of its words is a stopword. |
| `Eda.TextCleanIdempotent` | eda.py:96-101 | Cleaning a cleaned description gives the same text again. |
| `Eda.WithoutNothing` | eda.py:100 | Filtering words of which none is a stopword keeps them all, in order. |
| `Eda.RangeIndex` | eda.py:122 | Element k of `range(start, stop, step)` is start + k·step, and k indexes the range exactly when start + k·step < stop. |
| `Eda.BatchesPartitionRows` | eda.py:122-125 | The label slices `[i, i+size-1]` for i in `range(0, n, size)` partition the rows. A row written by batch k exists (row < n) and has k = row / size, and every row below n is written by batch row / size. |
| `Eda.BatchesDisjoint` | eda.py:122-125 | Two different batches never write the same row. |
| `Eda.BatchCount` | eda.py:120-122 | With `batch_size = 500`, n rows are handled in ceil(n / 500) batches, which is also the number of checkpoint writes. |
| `Eda.Processed` | eda.py:122-125 | The filled column has the column's length. With no row done it is the original column; with every row done each row holds its extractor reply, whatever the column held before. |
| `Eda.ExtractSkillsInBatches` | eda.py:120-128 | After the loop every row holds `Some(extract_skills(clean_description))`. After batch k the column has rows `0 .. min((k+1)·size, n) - 1` filled and the other rows unchanged. There are as many checkpoints as batch starts. |
| `SkillsAnalysis.ParseSkillList` | job_market/skills_analysis.py:10 | A reply becomes (number of commas + 1) tokens, one per comma piece: token i is `strip()` of piece i, has no surrounding whitespace and no comma. |
| `SkillsAnalysis.ParseSkillListPiece` | job_market/skills_analysis.py:10 | Comma piece i of the reply is token i with whitespace-only text on either side. |
| `SkillsAnalysis.ParseSkillListOfJoin` | job_market/skills_analysis.py:10 | Trimmed, comma-free items written as one `", "`-separated reply parse back into exactly those items. |
| `SkillsAnalysis.ParseColumn` | job_market/skills_analysis.py:9-10 | Rows with a missing reply are removed before parsing. List i is the parse of the i-th present reply in row order, and each list is non-empty. |
| `SkillsAnalysis.AllSkills` | job_market/skills_analysis.py:12 | A token is in `all_skills` exactly when it is in one of the parsed lists. |
| `SkillsAnalysis.AllSkillsOrder` | job_market/skills_analysis.py:12 | Token j of parsed row i sits in `all_skills` at position (tokens of rows 0..i-1) + j, so row order and token order are kept. |
| `SkillsAnalysis.FilteredSkillsExact` | job_market/skills_analysis.py:11-13 | After filtering no generic term is left. Every other token keeps all its occurrences, and the result is a subsequence of `all_skills`. |
| `SkillsAnalysis.FilteredSkills` | job_market/skills_analysis.py:13 | A token survives the filter exactly when it is in `all_skills` and is not a generic term. |
| `SkillsAnalysis.GenericFilterIsCaseSensitive` | job_market/skills_analysis.py:11-13 | The match is exact: removing the generic terms from ["Data Analysis", "data analysis", "SQL"] keeps "Data Analysis" and "SQL". |
| `SkillsAnalysis.SkillsCountCorrect` | job_market/skills_analysis.py:14 | The counter's keys are exactly the remaining tokens. Each count is the token's number of occurrences, and the counts add up to the number of tokens. |
| `SkillsAnalysis.SkillsCount` | job_market/skills_analysis.py:14 | The counter's keys are the non-generic tokens of `all_skills`, and each count is the token's number of occurrences in `all_skills` before the filter. |
| `SkillsAnalysis.TopSkillsCorrect` | job_market/skills_analysis.py:15 | The top list holds at most ten distinct non-generic skills. Each comes with its true count in `all_skills`, which is positive. Counts do not increase down the list, and ties keep first-encountered order. No omitted skill has a larger count than a listed one. |
| `SkillsAnalysis.TopSkills` | job_market/skills_analysis.py:15 | The top list has at most ten entries. |
| `SkillsAnalysis.TopSkillNames` | job_market/skills_analysis.py:16 | The names are the first components of the top list, in order. |
| `SkillsAnalysis.TopSkillCounts` | job_market/skills_analysis.py:17 | The counts are the second components of the top list, in order. |
| `SkillsAnalysis.TopSkillColumns` | job_market/skills_analysis.py:16-17 | The name and count lists have the top list's length and pair back up into it, element by element. |
| `Counter.Tally` | job_market/skills_analysis.py:14 | `Counter(xs)` has exactly the elements of `xs` as keys, each mapped to its number of occurrences. |
| `Counter.TallyTotal` | job_market/skills_analysis.py:14 | The counts of a `Counter` add up to the number of elements counted. |
| `Counter.MostCommon` | job_market/skills_analysis.py:15 | The result has min(n, number of distinct elements) entries, with distinct keys that occur in the input and their true counts. Entries are ordered by count, ties by first occurrence. An omitted element ranks after every listed one. With fewer than n entries, every element is listed. |
| `Counter.Rank` | job_market/skills_analysis.py:15 | Ranking the counter's entries keeps exactly those entries and their number. |
| `Seqs.DropMissing` | job_market/skills_analysis.py:9 | Dropping missing values keeps every present value's number of occurrences, in row order (the present values form a subsequence of the column), and the length shrinks by the number of missing values. |
| `Seqs.FlattenMembers` | job_market/skills_analysis.py:12 | Something is in the flattened list exactly when it is in one of the lists. |
| `Seqs.Without` | job_market/skills_analysis.py:13 | Filtering by a stoplist leaves no stopword, keeps every other element's count, and keeps the order. |
| `Strings.Strip` | job_market/skills_analysis.py:10 | `strip()` gives text with no whitespace at either end. |
| `Strings.StripIsSlice` | job_market/skills_analysis.py:10 | The stripped text is a contiguous slice of the original, and what is cut off on either side is whitespace only. |
| `Strings.StripBorders` | job_market/skills_analysis.py:10 | The text is its stripped form with whitespace-only text in front and behind. |
| `Strings.StripStripped` | job_market/skills_analysis.py:10 | Text with no whitespace at either end is left unchanged by `strip()`. |
| `Strings.Split` | job_market/skills_analysis.py:10 | `split(sep)` gives at least one piece, and no piece holds the separator. |
| `Strings.SplitCount` | job_market/skills_analysis.py:10 | `split(sep)` gives one more piece than there are separators. |
| `Strings.JoinSplit` | eda.py:53-54 | Joining the pieces of `split(sep)` with the separator gives back the original text. |
| `Strings.SplitJoin` | job_market/skills_analysis.py:10 | Splitting a join of separator-free pieces gives back the pieces. |
| `Strings.Runs` | eda.py:34 | The runs `findall` returns are non-empty and consist only of characters of the class. |
| `Strings.RunsPlaced` | eda.py:34 | The runs are the maximal segments of the class, left to right: run k is the text at its offset, no class character touches it on either side, and each run ends before the next one starts. |
| `Strings.RunsCount` | eda.py:34-35 | The number of runs equals the number of places where a run of the class starts. |
| `Strings.RunsFlatten` | eda.py:34 | Concatenating the runs gives exactly the characters of the class, in order. |
| `Strings.RunsOfJoin` | eda.py:99-101 | `split()` of words joined by one blank gives back those words. |
| `Strings.KeepChars` | eda.py:98 | A `re.sub` with a negated character class leaves only characters of the class. |
| `Dashboard.ParseSkills` | app.py:123-127 | A non-text value is returned unchanged. A text value gives what the literal parser returns, or the empty list when parsing fails. The function never fails. |
| `Dashboard.CityCells` | app.py:114-118 | There are no more skills values than rows, and the result is empty exactly when no row has both a city equal to the selected one and a skills value. |
| `Dashboard.CityCellsMembers` | app.py:114-115 | The city's skill values are exactly those of rows that have a city equal to the selected one and a skills value. |
| `Dashboard.CityColumn` | app.py:114-115 | The masked column keeps the skills value of each row in the city and marks every other row as missing. |
| `Dashboard.CityCellsInRowOrder` | app.py:114-115 | The city's values are the masked column with the missing entries dropped: each matching row contributes its value exactly once, in row order. |
| `Dashboard.ParsedColumn` | app.py:129 | Each skills value of the city is replaced by its parse, one for one. |
| `Dashboard.NormalizeToken` | app.py:131 | A stripped, lower-cased token has no whitespace at either end and no upper-case letter. |
| `Dashboard.NormalizeTokenMatches` | app.py:131 | A token normalises to g exactly when its stripped form has g's length and lower-cases to g character by character. |
| `Dashboard.NormalizeAll` | app.py:131 | Every token is replaced by its normal form, one for one, in order. |
| `Dashboard.CitySkillsCorrect` | app.py:131-132 | The city's tokens are normalised and non-generic. Each non-generic normal form keeps all its occurrences. A token is kept if and only if its normal form is not generic. |
| `Dashboard.CitySkills` | app.py:131-132 | No token of the city's list is in the city stoplist. |
| `Dashboard.GenericVariantsDropped` | app.py:120-132 | Every token whose stripped form lower-cases to a city stoplist term, whatever its letter case or padding, normalises to that term and is absent from the city's skills. |
| `Dashboard.CityViewDropsCaseVariants` | app.py:120-132 | The two stoplists differ: "Data Analysis" survives the aggregation script's exact match but is removed in the city view, and " SQL" becomes "sql". |
| `Dashboard.RemoveSymbols` | app.py:144 | After `re.sub(r"[^a-zA-Z0-9\s]", "", x)` only letters, digits and whitespace remain. |
| `Dashboard.CleanSkillName` | app.py:141-144 | A cleaned skill name has only letters, digits and whitespace and is no longer than the name. |
| `Dashboard.CleanSkillNameKeepsPlainNames` | app.py:141-144 | A trimmed name made only of letters, digits and whitespace is shown unchanged. |
| `Dashboard.CleanSkillNameMerges` | app.py:144 | The clean-up can merge different skills: "c++" and "c#" are both shown as "c". |
| `Dashboard.CleanTable` | app.py:140-144 | Each bar row is the ranked pair with its name cleaned and its count unchanged. |
| `Dashboard.SortByCountDesc` | app.py:21 | Sorting by count, descending, gives a permutation of the table whose counts do not increase. |
| `Dashboard.InsertByCount` | app.py:145 | Inserting a row gives the table plus that row, as a multiset, with the new row or the old first row in front. |
| `Dashboard.InsertByCountOrdered` | app.py:145 | Inserting a row into a table in count order keeps it in count order. |
| `Dashboard.SortByCountDescKeepsOrder` | app.py:145 | A table already in count order is left exactly as it is. |
| `Dashboard.CleanNames` | app.py:140-144 | Stripping and then removing symbols from the name column, one pass each, gives the cleaned table. |
| `Dashboard.CityBars` | app.py:137-145 | The city's bars are at most ten, their names hold only letters, digits and whitespace, and their counts do not increase, so the final sort leaves them in `most_common` order. |
| `Dashboard.CityChart` | app.py:129-146 | For a city with rows, "No skills found for c" is shown exactly when no token survives. Otherwise the chart has the city title and the cleaned `most_common(10)` of the city's tokens, in order. |
| `Dashboard.UpdatedSkillsChart` | app.py:109-146 | For "all" the chart shows the stored top-skills table, sorted by count, under the all-cities title. For a city, "No data available for c" is shown exactly when no row matches, and "No skills found for c" exactly when rows match but no token survives. Otherwise the chart has the city title and lists the city's `most_common(10)` in order with cleaned names: at most ten rows, only letters, digits and whitespace in the names, counts non-increasing. |
| `Dashboard.PositiveYears` | app.py:31 | Only positive years remain, each with its number of occurrences. |
| `Dashboard.SortYears` | app.py:32 | Distinct years are sorted into a strictly increasing sequence with the same elements. |
| `Dashboard.FoundedTable` | app.py:28-32 | Each positive founding year that occurs appears once, in ascending order. Its count is the number of vacancies with that year. No other year appears. |
| `Dashboard.YearCounts` | app.py:29-30 | The table lists the given years in their order, each with its number of occurrences. |
| `Dashboard.ReplacePlaceholder` | app.py:34 | After the replacement no "-1" is left. Every other industry keeps its count, and the replaced values become missing. |
| `Dashboard.IndustryDistribution` | app.py:34-37 | The industry table has at most ten distinct industries, none of them "-1". Each comes with its positive number of vacancies. Counts do not increase down the table. An omitted industry has no more vacancies than any listed one. With fewer than ten rows every named industry is listed. |

## Left out

- Reading and writing CSV files, `print`, `time.sleep` and `nltk.download`: these are I/O and timing only.
- Plots and the dashboard layout and wiring (matplotlib, seaborn, WordCloud, plotly, Dash): these are UI.
- The skill extractor and the hosted language-model call (eda.py:105-116): this is a network call. It is a function parameter of the batch loop.
- The real NLTK English stopword list: it is a parameter.
- `ast.literal_eval`: it is a foreign parser, modelled as a parameter that returns a list of strings or fails.
- Dashboard.ParseSkills: a literal that evaluates to something other than a list of strings (a string, a number) is not modelled. Iterating over such a value in the source would behave differently.
- The average-salary tables by city and state (app.py:15-18) and the salary callback (app.py:160-173): these are floating-point group means, used only for plots.
- `value_counts` of city, state and company in eda.py: these feed plots only.
- The city dropdown options (app.py:24-26): this is UI. As in the source, a city literally named "all" is shadowed by the all-cities choice.
- Float rounding in the salary parser: amounts are exact `real`s.
- `str(x)` of non-text values before the salary parser, the text cleaner and the extractor (for example `NaN` becoming "nan"): the inputs are modelled as text.
- A location that is not text: `split` would raise an attribute error there. Locations are modelled as text.
- Strings.Lower: Python's `str.lower` is Unicode-aware; the model lowers `A`-`Z` only.
- Strings.IsDigit: the `\d` of Python's `re` also matches non-ASCII decimal digits; the model uses `0`-`9` only.
- Dashboard.SortByCountDesc: pandas' default sort is not guaranteed stable. The model sorts stably, so among equal counts its order may differ from the one pandas produces.
- Dashboard.IndustryDistribution: ties inside `value_counts().nlargest(10)` are broken by first occurrence, which pandas does not document.
- The `dropna()` after `astype(str)` (app.py:142): there is nothing left to drop at that point, so it is a no-op.
- Founding years are modelled as integers, not as pandas' float column.
- Eda.ExtractSkillsInBatches: the source assigns each batch as one vectorised slice; the model writes its rows one at a time inside the batch. The column after each batch is the same either way.
