# Books dashboard: filtering and summary logic

`dash3.py` is a single Dash script. It loads a table of books, draws a bar
chart of the page counts of the dataset's first ten rows (in file order,
unsorted), and offers an author
multi-select, a maximum-pages input and an "Update Graph" button. When the
button is pressed, the `update_graph` callback does three things:

- it filters the table, first by the selected authors (only when some are
  selected) and then by the page limit;
- it draws the filtered rows in a second, now visible, chart;
- it fills a summary card with the selected authors and the page limit.

This project models that logic as pure Dafny functions over a `seq<Book>`,
with `Book = Book(title, authors, numPages)`, and proves what the dashboard
promises about it. There are three modules:

- `Seqs` (`seqs.dfy`) gives the plain sequence meaning of the pandas
  operations the script uses:
  - boolean-mask selection `rows[mask]` (`Select`);
  - `unique()` (`Unique`);
  - `head(n)` (`Head`);
  - `max()` (`Max`). It returns `None` for an empty column, where pandas gives NaN.
- `Text` (`text.dfy`) models the string formatting in the summary: `", ".join`
  and `str(int)`. Each comes with an inverse (a split on `", "` and a decimal
  parser) and a round-trip lemma.
- `Dash3` (`dash3.dfy`) models the script itself:
  - the initial top-10 rows;
  - the dropdown options;
  - the default page limit;
  - the filter;
  - the two summary lines;
  - the callback's three outputs (container children, container display,
    card contents).

The dropdown's value is `Option<seq<string>>`, because Dash sends `None`
before anything is picked. As in the source's `if selected_author:`, both
`None` and `[]` mean "no author filter" and "All Authors" (`HasSelection`).

The model follows the code in three places where a reader might expect
something else:

- A missing page limit: the code does not guard against it and compares the
  column against whatever value it gets, so the model takes `maxPages` as an
  `int`.
- Page counts: nothing in the code makes them non-negative, so `numPages` is
  an `int`.
- The author selection: the code passes it as a list, and `join` keeps the
  list's order and any repeats, so the model uses a sequence, not a set.

## Model

| member | source | states |
|---|---|---|
| `Seqs.Select` | dash3.py:96-97 | a mask selection holds exactly the rows of the input for which the mask is true, and is no longer than the input |
| `Seqs.SelectIsSubsequence` | dash3.py:96-97 | a mask selection is an order-preserving subsequence of the rows it selects from |
| `Seqs.SelectCounts` | dash3.py:96-97 | each row passing the mask is kept as many times as it occurs in the input, and each other row is kept zero times |
| `Seqs.SelectSelect` | dash3.py:96-97 | two successive mask selections equal one selection by the conjunction of the masks |
| `Seqs.SelectCommutes` | dash3.py:96-97 | the order in which two masks are applied does not change the result |
| `Seqs.SelectAll` | dash3.py:97 | a mask true of every row returns the input unchanged |
| `Seqs.Unique` | dash3.py:57 | `unique()` contains exactly the values of the column, with no value twice |
| `Seqs.UniqueFirstSeenOrder` | dash3.py:57 | `unique()` lists the values in the order of their first occurrence in the column |
| `Seqs.Head` | dash3.py:9 | `head(n)` is a prefix of the rows whose length is `n`, or the number of rows when there are fewer than `n` |
| `Seqs.Max` | dash3.py:65 | `max()` is defined exactly when the column is non-empty; it is then a value of the column and no value exceeds it |
| `Text.JoinSplitRoundTrip` | dash3.py:119 | `Join` (`', '.join`): splitting the `", "`-joined names at `", "` gives back exactly the names, in order, when no name holds a comma (a bare comma included, to keep the proof simple) |
| `Text.DecimalString` | dash3.py:120 | `str(max_pages)` is a minus sign exactly for a negative value, followed by decimal digits with no leading zero except for 0 itself |
| `Text.DecimalRoundTrip` | dash3.py:120 | `DecimalString` (`str(max_pages)`): parsing the decimal text of any integer gives back that integer, negative values included |
| `Dash3.TopBooks` | dash3.py:9 | the initial chart's rows are a prefix of the dataset of length `min(10, number of rows)` |
| `Dash3.InitialFigure` | dash3.py:9-30 | the initial chart is titled "Top 10 Books - Number of pages per title", has margin padding 25, and shows the first `min(10, number of rows)` rows of the dataset |
| `Dash3.AuthorOptions` | dash3.py:57 | every option's label equals its value, the set of option values equals the set of `authors` values in the dataset, and no two options share a value |
| `Dash3.OptionsOfDistinctAuthors` | dash3.py:57 | options built one per entry of `unique()` over the `authors` column cover exactly the dataset's authors, each once |
| `Dash3.AuthorOptionsFirstSeenOrder` | dash3.py:57 | of any two options, the one listed first belongs to the author whose first dataset row comes first |
| `Dash3.DefaultMaxPages` | dash3.py:65 | the default limit exists exactly for a non-empty dataset; it is then some book's page count and no book has more pages |
| `Dash3.ByAuthors` | dash3.py:96 | `isin`: a row is kept if and only if it is in the input and its author is in the selection |
| `Dash3.UpToPages` | dash3.py:97 | a row is kept if and only if it is in the input and has at most `maxPages` pages |
| `Dash3.FilterBooks` | dash3.py:94-97 | `HasSelection` is the truthiness test of line 95; a row is in the result if and only if it is in the dataset, its author is selected (when any author is), and it has at most `maxPages` pages; so a row with exactly `maxPages` pages is kept |
| `Dash3.FilterBooksIsOrderedSelection` | dash3.py:94-97 | the result keeps the dataset's order, and holds each wanted row as often as the dataset does and no other row |
| `Dash3.FilterOrderCommutes` | dash3.py:96-97 | applying the author filter and then the page limit gives the same rows as the other order |
| `Dash3.DefaultFilterKeepsAll` | dash3.py:95-97 | with no author selected and the limit at the dataset's maximum page count (line 65), the filter returns the whole dataset unchanged |
| `Dash3.SummaryStatesSelection` | dash3.py:118-121 | `AuthorsLine` and `PagesLine`: the first line starts "Selected Author(s): " and continues with "All Authors" when none is selected, or otherwise with text that splits back into exactly the selected names; the second line starts "Maximum Pages: " and its rest reads back as the limit |
| `Dash3.UpdateGraph` | dash3.py:92-125 | with `n_clicks <= 0`: no children, a hidden container and no card. Otherwise: a visible container holding one chart titled "Book by author and number of pages" with margin padding 85, whose rows are the wanted rows in dataset order, each as often as the dataset holds it, and a card whose lines are exactly `AuthorsLine(sel)` and `PagesLine(maxPages)`, the two lines `SummaryStatesSelection` and `DecimalString` describe |
| `Dash3.SampleAuthorX` | dash3.py:94-97 | for books A (X, 100), B (Y, 300) and C (X, 50), author X with limit 100 gives [A, C], and the card reads "Selected Author(s): Author X" and "Maximum Pages: 100" |
| `Dash3.SampleAllAuthors` | dash3.py:95-97 | for the same books, no selection (`None` or `[]`) with limit 50 gives [C], and the card reads "All Authors" |
| `Dash3.SampleUnknownAuthor` | dash3.py:93-123 | for the same books, an author with no books gives a visible container with an empty chart and a filled-in card |

## Left out

- Loading the CSV from its remote URL, including skipping malformed rows
  (dash3.py:8), is network and file I/O. The dataset is a parameter.
- Plotly styling is left out: bar colour, fonts, transparent backgrounds,
  height and width (dash3.py:12-31, 99-116). A chart is represented as its
  title, the rows it is given and its margin padding (25 for the initial
  chart, 85 for the filtered one).
- The Dash layout tree and CSS (dash3.py:37-80), the callback wiring
  (dash3.py:84-91) and `app.run_server` (dash3.py:127-128) belong to the
  framework. Only the values the layout computes are modelled: the options on
  line 57 and the default on line 65.
- A `None` or non-integer `max_pages` (dash3.py:97) is not modelled. The code
  does not guard against it, and what the comparison does then is up to
  pandas. `maxPages` is an `int`.
- pandas dtypes and NaN are not modelled: `numPages` is an integer column.
  The leading spaces in the source's `'  num_pages'` column name are not
  reproduced.
- Idempotence of an update has no lemma of its own. `UpdateGraph` is a
  function, so equal inputs give equal outputs by construction.
- Dash3.SummaryStatesSelection: recovering the selected names from the first
  line is stated only for names that contain no comma at all. A name
  containing ", " makes the joined text ambiguous, so no split can recover
  it. Names with a bare comma (such as "Smith,J") would round-trip too, but
  they are excluded to keep the proof simple. The line itself is still fixed
  exactly by `AuthorsLine`, which `UpdateGraph` states as its card's first
  line.
