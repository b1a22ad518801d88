/** The pages that the read-only view draws saved rows in. */
module SavedPages {
  import opened Arithmetic

  /** A page: the rows from start up to end. */
  datatype Page = Page(start: int, end: int)

  predicate StartsWith(text: string, prefix: string) {
    |prefix| <= |text| && text[..|prefix|] == prefix
  }

  /** Whether a line starts at a row, rather than being wrapped onto it. */
  predicate Opens(rows: seq<string>, index: nat)
    requires index < |rows| || index == 0
  {
    index == 0 || StartsWith(rows[index], "\r\n")
  }

  function CeilDiv(a: nat, b: nat): (q: nat)
    requires 0 < b
    ensures a <= q * b < a + b
  {
    DivMod(a + b - 1, b);
    (a + b - 1) / b
  }

  ghost predicate LineStart(text: string) {
    |text| >= 2 && text[0] == '\r' && text[1] == '\n'
  }

  /** The first row, or one that starts with a line break. */
  ghost predicate AtLine(rows: seq<string>, i: int) {
    i == 0 || (0 < i < |rows| && LineStart(rows[i]))
  }

  /** No line starts at any of the rows from a up to b. */
  ghost predicate AllWrapped(rows: seq<string>, a: int, b: int) {
    forall i :: a <= i < b && 0 <= i < |rows| ==> !AtLine(rows, i)
  }

  /** Pages in order that hold each row from `from` on exactly once. */
  ghost predicate Tiles(pages: seq<Page>, from: int, to: int) {
    if pages == [] then from == to
    else pages[0].start == from && from < pages[0].end && Tiles(pages[1..], pages[0].end, to)
  }

  /** The page holds at most `size` rows and opens where a line starts, unless
      the last `size` rows it could hold are all of one wrapped line. */
  ghost predicate Fair(page: Page, rows: seq<string>, size: nat) {
    && 0 <= page.start < page.end <= |rows| && page.end - page.start <= size
    && (AtLine(rows, page.start) || (page.end >= size && AllWrapped(rows, page.end - size, page.end)))
  }

  /** An even share of the rows is never more than a page holds. */
  lemma EvenFits(n: nat, size: nat)
    requires 1 <= size && 1 <= n
    ensures 1 <= CeilDiv(n, size)
    ensures 1 <= CeilDiv(n, CeilDiv(n, size)) <= size
  {
    var pages := CeilDiv(n, size);
    assert pages != 0;
    var even := CeilDiv(n, pages);
    if even > size {
      MulMono(size, even - 1, pages);
      MulSum(even, -1, pages);
      assert false;
    }
    assert even != 0;
  }

  /** Where the page that ends at `end` opens: the first line start of its even
      share, else the last one that a full page reaches, else its even share. */
  ghost predicate IsStart(rows: seq<string>, start: nat, end: nat, even: nat, size: nat) {
    var share, reach := if end < even then 0 else end - even, if end < size then 0 else end - size;
    if AllWrapped(rows, share, end) then
      if AllWrapped(rows, reach, end) then start == share
      else reach <= start < share && AtLine(rows, start) && AllWrapped(rows, start + 1, end)
    else share <= start < end && AtLine(rows, start) && AllWrapped(rows, share, start)
  }

  method PageStart(rows: seq<string>, end: nat, even: nat, size: nat) returns (start: int)
    requires 1 <= size && end <= |rows| && (0 < end ==> 1 <= even <= size)
    ensures if end == 0 then start == 0
      else start >= 0 && IsStart(rows, start, end, even, size) && Fair(Page(start, end), rows, size)
  {
    start := if end < even then 0 else end - even;
    ghost var share := start;
    var open := start;
    assert forall i :: 0 <= i < |rows| ==> (Opens(rows, i) <==> AtLine(rows, i));
    while open < end && !Opens(rows, open)
      invariant start <= open <= end && AllWrapped(rows, start, open)
    {
      open := open + 1;
    }
    if open == end {
      var least := if end < size then 0 else end - size;
      open := start;
      while open > least && !Opens(rows, open)
        invariant least <= open <= start && AllWrapped(rows, open + 1, end)
      {
        open := open - 1;
      }
    }
    if Opens(rows, open) {
      start := open;
    }
  }

  /** Every row starts a line. */
  ghost predicate NoneWrapped(rows: seq<string>) {
    forall i :: 0 < i < |rows| ==> LineStart(rows[i])
  }

  /** Pages of `even` rows each, but for the first, which may be smaller. */
  ghost predicate Even(pages: seq<Page>, even: nat) {
    && (forall i :: 0 < i < |pages| ==> pages[i].end - pages[i].start == even)
    && (pages != [] ==> pages[0].end - pages[0].start <= even)
  }

  /** So many pages that `size` rows each would hold them all and one less would
      not, about equal in size. */
  ghost predicate AboutEqual(pages: seq<Page>, n: nat, size: nat) {
    && (|pages| - 1) * size < n <= |pages| * size
    && forall i, j :: 0 <= i < |pages| && 0 <= j < |pages| ==>
      (pages[i].end - pages[i].start) - (pages[j].end - pages[j].start) < |pages|
  }

  lemma OpenStart(rows: seq<string>, start: nat, end: nat, even: nat, size: nat)
    requires NoneWrapped(rows) && 0 < end <= |rows| && 1 <= even && IsStart(rows, start, end, even, size)
    ensures start == if end < even then 0 else end - even
  {
    var share := if end < even then 0 else end - even;
    assert AtLine(rows, share);
  }

  /** What is left above the pages, while all but the last of them are full. */
  ghost predicate Left(pages: seq<Page>, end: nat, n: nat, even: nat) {
    Even(pages, even) &&
    if end > 0 then end + |pages| * even == n && (pages != [] ==> pages[0].end - pages[0].start == even)
    else pages != [] && (|pages| - 1) * even + (pages[0].end - pages[0].start) == n && pages[0].start < pages[0].end
  }

  lemma LeftOver(pages: seq<Page>, start: nat, end: nat, n: nat, even: nat)
    requires Left(pages, end, n, even) && 0 < end && 1 <= even && start == if end < even then 0 else end - even
    ensures Left([Page(start, end)] + pages, start, n, even)
  {
    MulSum(|pages|, 1, even);
  }

  /** Full pages and a first one make about equal pages. */
  lemma LeftIsEqual(pages: seq<Page>, n: nat, size: nat)
    requires 1 <= n && 1 <= size && Left(pages, 0, n, CeilDiv(n, CeilDiv(n, size)))
    ensures AboutEqual(pages, n, size)
  {
    EvenFits(n, size);
    var count, even, k := CeilDiv(n, size), CeilDiv(n, CeilDiv(n, size)), |pages|;
    var first := pages[0].end - pages[0].start;
    assert 1 <= first <= even && (k - 1) * even + first == n;
    assert n <= even * count < n + count;
    assert k == count by {
      CountIs(k, count, even, first, n, size);
    }
    MulSum(count, -1, size);
    MulSum(count, -1, even);
    assert even - first < count;
  }

  lemma CountIs(k: nat, count: nat, even: nat, first: nat, n: nat, size: nat)
    requires 1 <= k && 1 <= first <= even <= size && (k - 1) * even + first == n && n <= even * count
    requires n <= count * size < n + size && 1 <= count
    ensures k == count
  {
    if k < count {
      MulMono(k, count - 1, size);
      MulMono(even, size, k);
      MulSum(k, -1, even);
      MulSum(count, -1, size);
      assert false;
    }
    if k > count {
      MulMono(count, k - 1, even);
      assert false;
    }
  }

  lemma NothingLeft(n: nat, even: nat)
    requires n > 0
    ensures Left([], n, n, even)
  {}

  lemma FairIsNotEmpty(rows: seq<string>, start: int, end: int, size: nat)
    requires Fair(Page(start, end), rows, size)
    ensures 0 <= start < end
  {}

  /** Pages of at most `size` rows, newest last, that show every row once and
      in order; without rows, one empty page. Where every row starts a line there
      are as few pages as can be, about equal. */
  method SavedRowPages(rows: seq<string>, size: nat) returns (pages: seq<Page>)
    requires 1 <= size
    ensures rows == [] ==> pages == [Page(0, 0)]
    ensures rows != [] ==> Tiles(pages, 0, |rows|)
    ensures rows != [] ==> forall i :: 0 <= i < |pages| ==> Fair(pages[i], rows, size)
    ensures rows != [] && NoneWrapped(rows) ==> AboutEqual(pages, |rows|, size)
  {
    var even :=
      if |rows| == 0 then 0
      else CeilDiv(|rows|, if CeilDiv(|rows|, size) < 1 then 1 else CeilDiv(|rows|, size));
    if rows != [] {
      EvenFits(|rows|, size);
    }
    hide Left, IsStart, NoneWrapped, CeilDiv, Fair, AboutEqual;
    pages := [];
    var end := |rows|;
    if rows != [] {
      NothingLeft(|rows|, even);
    }
    while end > 0 || pages == []
      invariant 0 <= end <= |rows|
      invariant rows == [] ==> pages == [] || pages == [Page(0, 0)]
      invariant rows != [] ==> Tiles(pages, end, |rows|)
      invariant rows != [] ==> forall i :: 0 <= i < |pages| ==> Fair(pages[i], rows, size)
      invariant rows != [] && NoneWrapped(rows) ==> Left(pages, end, |rows|, even)
      decreases end, if pages == [] then 1 else 0
    {
      var start := PageStart(rows, end, even, size);
      assert ([Page(start, end)] + pages)[1..] == pages;
      if rows != [] {
        FairIsNotEmpty(rows, start, end, size);
        if NoneWrapped(rows) {
          OpenStart(rows, start, end, even, size);
          LeftOver(pages, start, end, |rows|, even);
        }
      }
      pages := [Page(start, end)] + pages;
      end := start;
    }
    if rows != [] && NoneWrapped(rows) {
      LeftIsEqual(pages, |rows|, size);
    }
  }

  // ----- what the pages draw -----

  function Concat(rows: seq<string>): string {
    if rows == [] then "" else rows[0] + Concat(rows[1..])
  }

  lemma ConcatOne(row: string)
    ensures Concat([row]) == row
  {
    assert [row][1..] == [];
  }

  lemma {:induction false} ConcatSum(a: seq<string>, b: seq<string>)
    ensures Concat(a + b) == Concat(a) + Concat(b)
  {
    if a == [] {
      assert a + b == b;
    } else {
      assert (a + b)[1..] == a[1..] + b;
      ConcatSum(a[1..], b);
    }
  }

  /** The text a page writes: its rows, without the line break that ends the
      row before it. */
  function SavedPageText(rows: seq<string>, page: Page): string
    requires 0 <= page.start <= page.end <= |rows|
  {
    var text := Concat(rows[page.start..page.end]);
    if StartsWith(text, "\r\n") then text[2..] else text
  }

  /** What a page left out at its start. */
  ghost function Break(rows: seq<string>, page: Page): string
    requires 0 <= page.start <= page.end <= |rows|
  {
    if LineStart(Concat(rows[page.start..page.end])) then "\r\n" else ""
  }

  ghost function Drawn(rows: seq<string>, pages: seq<Page>): string
    requires forall i :: 0 <= i < |pages| ==> 0 <= pages[i].start <= pages[i].end <= |rows|
  {
    if pages == [] then "" else Break(rows, pages[0]) + SavedPageText(rows, pages[0]) + Drawn(rows, pages[1..])
  }

  /** Drawing every page, with a line break where one starts a line, writes
      the saved rows: none is lost, repeated or reordered. */
  lemma {:induction false} PagesDrawEverything(rows: seq<string>, pages: seq<Page>, from: nat)
    requires from <= |rows| && Tiles(pages, from, |rows|)
    requires forall i :: 0 <= i < |pages| ==> 0 <= pages[i].start <= pages[i].end <= |rows|
    ensures Drawn(rows, pages) == Concat(rows[from..])
    decreases |pages|
  {
    if pages != [] {
      var page, end := pages[0], pages[0].end;
      PagesDrawEverything(rows, pages[1..], end);
      assert rows[from..] == rows[from..end] + rows[end..];
      ConcatSum(rows[from..end], rows[end..]);
      BreakAndText(rows, page);
      hide Concat, Break, SavedPageText;
      assert Drawn(rows, pages) == Break(rows, page) + SavedPageText(rows, page) + Drawn(rows, pages[1..]);
    }
  }

  lemma BreakAndText(rows: seq<string>, page: Page)
    requires 0 <= page.start <= page.end <= |rows|
    ensures Break(rows, page) + SavedPageText(rows, page) == Concat(rows[page.start..page.end])
  {
    hide Concat;
    var text := Concat(rows[page.start..page.end]);
    assert StartsWith(text, "\r\n") ==> text == text[..2] + text[2..];
  }
}
