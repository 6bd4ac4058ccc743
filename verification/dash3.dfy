/** The logic of the books dashboard: the default figure's rows, the author
    dropdown's options, the default page limit, and the `update_graph` callback
    that filters the books and writes the summary panel. */
module Dash3 {
  import opened Seqs
  import opened Text

  /** One row of the books table (columns `title`, `authors`, `num_pages`). */
  datatype Book = Book(title: string, authors: string, numPages: int)

  /** A bar chart of page counts per title: what `px.bar` is given, its title and
      the layout's margin padding. */
  datatype Figure = Figure(title: string, rows: seq<Book>, pad: int)

  /** An entry of the author dropdown, `{'label': a, 'value': a}`. */
  datatype DropdownOption = DropdownOption(labelText: string, value: string)

  /** The `display` entry of the filtered-chart container's style. */
  datatype Display = DisplayNone | DisplayBlock

  /** The two paragraphs of the "Selected Books" card. */
  datatype SelectedBooksInfo = SelectedBooksInfo(authorsLine: string, pagesLine: string)

  /** The callback's three outputs: the container's children, its style and the
      card's contents (`None` for Python's `None`). */
  datatype CallbackOutput = CallbackOutput(children: seq<Figure>, display: Display, info: Option<SelectedBooksInfo>)

  const TopCount: nat := 10
  const InitialTitle := "Top 10 Books - Number of pages per title"
  const InitialPad := 25
  const FilteredTitle := "Book by author and number of pages"
  const FilteredPad := 85
  const AuthorsPrefix := "Selected Author(s): "
  const NoAuthors := "All Authors"
  const PagesPrefix := "Maximum Pages: "

  function AuthorsColumn(df: seq<Book>): (col: seq<string>)
  {
    seq(|df|, i requires 0 <= i < |df| => df[i].authors)
  }

  function PagesColumn(df: seq<Book>): (col: seq<int>)
  {
    seq(|df|, i requires 0 <= i < |df| => df[i].numPages)
  }

  // ---------------------------------------------------------------------------
  // Values computed once, at start-up
  // ---------------------------------------------------------------------------

  /** `df.head(10)`: the rows of the initial chart. */
  function TopBooks(df: seq<Book>): (r: seq<Book>)
    ensures r <= df
    ensures |r| == if |df| < TopCount then |df| else TopCount
  {
    Head(df, TopCount)
  }

  /** The chart shown before any update. */
  function InitialFigure(df: seq<Book>): (f: Figure)
    ensures f.title == InitialTitle && f.pad == InitialPad
    ensures f.rows <= df
    ensures |f.rows| == if |df| < TopCount then |df| else TopCount
  {
    Figure(InitialTitle, TopBooks(df), InitialPad)
  }

  /** The dropdown's options: one per distinct author label, in the order of
      `unique()`, with label and value alike. */
  function AuthorOptions(df: seq<Book>): (opts: seq<DropdownOption>)
    ensures forall o :: o in opts ==> o.labelText == o.value
    ensures (set o | o in opts :: o.value) == (set b | b in df :: b.authors)
    ensures forall i, j :: 0 <= i < j < |opts| ==> opts[i].value != opts[j].value
  {
    var authors := Unique(AuthorsColumn(df));
    var opts := seq(|authors|, i requires 0 <= i < |authors| => DropdownOption(authors[i], authors[i]));
    OptionsOfDistinctAuthors(df, authors, opts);
    opts
  }

  /** Options built one per entry of `unique()` offer every author of the
      dataset and nothing else, each once. */
  lemma OptionsOfDistinctAuthors(df: seq<Book>, authors: seq<string>, opts: seq<DropdownOption>)
    requires authors == Unique(AuthorsColumn(df))
    requires |opts| == |authors| && forall i :: 0 <= i < |opts| ==> opts[i] == DropdownOption(authors[i], authors[i])
    ensures (set o | o in opts :: o.value) == (set b | b in df :: b.authors)
    ensures forall i, j :: 0 <= i < j < |opts| ==> opts[i].value != opts[j].value
  {
    var col := AuthorsColumn(df);
    var offered, present := set o | o in opts :: o.value, set b | b in df :: b.authors;
    forall a | a in present ensures a in offered {
      var b :| b in df && b.authors == a;
      var k :| 0 <= k < |df| && df[k] == b;
      assert col[k] == a;
      assert a in authors;
      var i :| 0 <= i < |authors| && authors[i] == a;
      assert opts[i] in opts;
    }
    forall a | a in offered ensures a in present {
      var o :| o in opts && o.value == a;
      var i :| 0 <= i < |opts| && opts[i] == o;
      assert authors[i] in authors;
      var k :| 0 <= k < |col| && col[k] == a;
      assert df[k] in df;
    }
  }

  /** The options list the authors in the order in which they first appear in
      the dataset. */
  lemma AuthorOptionsFirstSeenOrder(df: seq<Book>, i: nat, j: nat)
    requires i < j < |AuthorOptions(df)|
    ensures AuthorOptions(df)[i].value in AuthorsColumn(df) && AuthorOptions(df)[j].value in AuthorsColumn(df)
    ensures FirstIndex(AuthorsColumn(df), AuthorOptions(df)[i].value) < FirstIndex(AuthorsColumn(df), AuthorOptions(df)[j].value)
  {
    UniqueFirstSeenOrder(AuthorsColumn(df), i, j);
  }

  /** `df['num_pages'].max()`: the max-pages input's initial value, `None` for an
      empty dataset (pandas gives NaN). */
  function DefaultMaxPages(df: seq<Book>): (m: Option<int>)
    ensures m.Some? <==> df != []
    ensures m.Some? ==> (exists b :: b in df && b.numPages == m.value) && forall b :: b in df ==> b.numPages <= m.value
  {
    var col := PagesColumn(df);
    var m := Max(col);
    assert m.Some? ==> forall b :: b in df ==> b.numPages <= m.value by {
      forall b | b in df && m.Some? ensures b.numPages <= m.value {
        var k :| 0 <= k < |df| && df[k] == b;
        assert col[k] in col;
      }
    }
    assert m.Some? ==> exists k :: 0 <= k < |col| && col[k] == m.value;
    m
  }

  // ---------------------------------------------------------------------------
  // The filter inside `update_graph`
  // ---------------------------------------------------------------------------

  /** Python truthiness of the dropdown's value: both `None` and `[]` are false. */
  predicate HasSelection(sel: Option<seq<string>>) {
    sel.Some? && sel.value != []
  }

  /** `rows[rows['authors'].isin(authors)]`. */
  function ByAuthors(rows: seq<Book>, authors: seq<string>): (r: seq<Book>)
    ensures forall b :: b in r <==> b in rows && b.authors in authors
  {
    Select(rows, (b: Book) => b.authors in authors)
  }

  /** `rows[rows['num_pages'] <= maxPages]`. */
  function UpToPages(rows: seq<Book>, maxPages: int): (r: seq<Book>)
    ensures forall b :: b in r <==> b in rows && b.numPages <= maxPages
  {
    Select(rows, (b: Book) => b.numPages <= maxPages)
  }

  /** The condition a row must meet to be shown after an update. */
  predicate Wanted(sel: Option<seq<string>>, maxPages: int, b: Book) {
    (HasSelection(sel) ==> b.authors in sel.value) && b.numPages <= maxPages
  }

  /** The rows of the filtered chart: the author filter, applied only when some
      author is selected, then the page limit. */
  function FilterBooks(df: seq<Book>, sel: Option<seq<string>>, maxPages: int): (r: seq<Book>)
    ensures forall b :: b in r <==> b in df && Wanted(sel, maxPages, b)
  {
    var byAuthor := if HasSelection(sel) then ByAuthors(df, sel.value) else df;
    UpToPages(byAuthor, maxPages)
  }

  /** The filter keeps the dataset's row order, and keeps every wanted row as
      many times as the dataset holds it and no other row. */
  lemma {:induction false} FilterBooksIsOrderedSelection(df: seq<Book>, sel: Option<seq<string>>, maxPages: int)
    ensures IsSubsequence(FilterBooks(df, sel, maxPages), df)
    ensures forall b :: multiset(FilterBooks(df, sel, maxPages))[b] == if Wanted(sel, maxPages, b) then multiset(df)[b] else 0
  {
    var pages := (b: Book) => b.numPages <= maxPages;
    if HasSelection(sel) {
      var authors := (b: Book) => b.authors in sel.value;
      var wanted := (b: Book) => Wanted(sel, maxPages, b);
      SelectSelect(df, authors, pages, wanted);
      SelectIsSubsequence(df, wanted);
      forall b { SelectCounts(df, wanted, b); }
    } else {
      SelectIsSubsequence(df, pages);
      forall b { SelectCounts(df, pages, b); }
    }
  }

  /** Applying the author filter and the page limit in either order gives the
      same rows. */
  lemma FilterOrderCommutes(df: seq<Book>, authors: seq<string>, maxPages: int)
    ensures UpToPages(ByAuthors(df, authors), maxPages) == ByAuthors(UpToPages(df, maxPages), authors)
  {
    SelectCommutes(df, (b: Book) => b.authors in authors, (b: Book) => b.numPages <= maxPages);
  }

  /** With no author selected and the page limit at its default, every row is
      shown, in order. */
  lemma DefaultFilterKeepsAll(df: seq<Book>, sel: Option<seq<string>>, maxPages: int)
    requires !HasSelection(sel)
    requires DefaultMaxPages(df) == Some(maxPages)
    ensures FilterBooks(df, sel, maxPages) == df
  {
    SelectAll(df, (b: Book) => b.numPages <= maxPages);
  }

  // ---------------------------------------------------------------------------
  // The summary card and the callback
  // ---------------------------------------------------------------------------

  /** `f"Selected Author(s): {', '.join(sel) if sel else 'All Authors'}"` */
  function AuthorsLine(sel: Option<seq<string>>): (line: string)
  {
    AuthorsPrefix + if HasSelection(sel) then Join(sel.value, ", ") else NoAuthors
  }

  /** `f"Maximum Pages: {maxPages}"` */
  function PagesLine(maxPages: int): (line: string)
  {
    PagesPrefix + DecimalString(maxPages)
  }

  /** The first line names exactly the selected authors, in selection order (when
      no name holds a comma), or says "All Authors" when none is selected; the
      second line gives back the page limit. */
  lemma SummaryStatesSelection(sel: Option<seq<string>>, maxPages: int)
    ensures AuthorsPrefix <= AuthorsLine(sel)
    ensures PagesPrefix <= PagesLine(maxPages)
    ensures !HasSelection(sel) ==> AuthorsLine(sel)[|AuthorsPrefix|..] == NoAuthors
    ensures HasSelection(sel) && (forall a :: a in sel.value ==> HasNoComma(a)) ==>
              SplitCommaSpace(AuthorsLine(sel)[|AuthorsPrefix|..]) == sel.value
    ensures ParseDecimal(PagesLine(maxPages)[|PagesPrefix|..]) == Some(maxPages)
  {
    if HasSelection(sel) && (forall a :: a in sel.value ==> HasNoComma(a)) {
      JoinSplitRoundTrip(sel.value);
    }
    assert PagesLine(maxPages)[|PagesPrefix|..] == DecimalString(maxPages);
    DecimalRoundTrip(maxPages);
  }

  /** `update_graph(n_clicks, selected_author, max_pages)`. */
  function UpdateGraph(df: seq<Book>, nClicks: int, sel: Option<seq<string>>, maxPages: int): (out: CallbackOutput)
    ensures nClicks <= 0 ==> out.children == [] && out.display == DisplayNone && out.info == None
    ensures nClicks > 0 ==> out.display == DisplayBlock && |out.children| == 1 && out.info.Some?
    ensures nClicks > 0 ==> out.info == Some(SelectedBooksInfo(AuthorsLine(sel), PagesLine(maxPages)))
    ensures nClicks > 0 ==> out.children[0].title == FilteredTitle && out.children[0].pad == FilteredPad
    ensures nClicks > 0 ==> forall b :: b in out.children[0].rows <==> b in df && Wanted(sel, maxPages, b)
    ensures nClicks > 0 ==> IsSubsequence(out.children[0].rows, df)
    ensures nClicks > 0 ==> forall b :: multiset(out.children[0].rows)[b] == if Wanted(sel, maxPages, b) then multiset(df)[b] else 0
    ensures nClicks > 0 ==> AuthorsPrefix <= out.info.value.authorsLine && PagesPrefix <= out.info.value.pagesLine
    ensures nClicks > 0 && !HasSelection(sel) ==> out.info.value.authorsLine[|AuthorsPrefix|..] == NoAuthors
    ensures nClicks > 0 && HasSelection(sel) && (forall a :: a in sel.value ==> HasNoComma(a)) ==>
              SplitCommaSpace(out.info.value.authorsLine[|AuthorsPrefix|..]) == sel.value
    ensures nClicks > 0 ==> ParseDecimal(out.info.value.pagesLine[|PagesPrefix|..]) == Some(maxPages)
  {
    if nClicks > 0 then
      FilterBooksIsOrderedSelection(df, sel, maxPages);
      SummaryStatesSelection(sel, maxPages);
      var fig := Figure(FilteredTitle, FilterBooks(df, sel, maxPages), FilteredPad);
      CallbackOutput([fig], DisplayBlock, Some(SelectedBooksInfo(AuthorsLine(sel), PagesLine(maxPages))))
    else
      CallbackOutput([], DisplayNone, None)
  }

  // ---------------------------------------------------------------------------
  // The worked examples of the dashboard's behaviour
  // ---------------------------------------------------------------------------

  const SampleBooks := [Book("Book A", "Author X", 100), Book("Book B", "Author Y", 300), Book("Book C", "Author X", 50)]

  /** Author X with a limit of 100 pages shows books A and C. */
  lemma SampleAuthorX()
    ensures FilterBooks(SampleBooks, Some(["Author X"]), 100) == [SampleBooks[0], SampleBooks[2]]
    ensures AuthorsLine(Some(["Author X"])) == "Selected Author(s): Author X"
    ensures PagesLine(100) == "Maximum Pages: 100"
  {
  }

  /** No author selected with a limit of 50 pages shows only book C, and the
      card says "All Authors". */
  lemma SampleAllAuthors()
    ensures FilterBooks(SampleBooks, None, 50) == [SampleBooks[2]]
    ensures FilterBooks(SampleBooks, Some([]), 50) == [SampleBooks[2]]
    ensures AuthorsLine(None) == "Selected Author(s): All Authors"
  {
  }

  /** An author with no books gives an empty chart, still shown, with the card
      filled in. */
  lemma {:induction false} SampleUnknownAuthor()
    ensures UpdateGraph(SampleBooks, 1, Some(["Author Z"]), 1000)
            == CallbackOutput([Figure(FilteredTitle, [], FilteredPad)], DisplayBlock,
                              Some(SelectedBooksInfo("Selected Author(s): Author Z", PagesLine(1000))))
  {
    var byAuthor := ByAuthors(SampleBooks, ["Author Z"]);
    assert byAuthor == [] by {
      assert SampleBooks[1..][1..] == [SampleBooks[2]];
    }
    assert FilterBooks(SampleBooks, Some(["Author Z"]), 1000) == [];
    assert AuthorsLine(Some(["Author Z"])) == "Selected Author(s): Author Z";
  }
}
