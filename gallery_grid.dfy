// Gallery mode: the listing laid out in three columns, image i in column i % 3.
module GalleryGrid {
  import Config

  const ColumnCount: nat := 3

  /** One grid cell: the caption and download file name, and the URL that is both shown and used as the download data. */
  datatype Cell = Cell(name: string, url: string)

  /** The link's last path segment is the caption, which is also the download file name. */
  function CellFor(name: string): (cell: Cell)
    ensures cell.name == name
    ensures |cell.url| > |Config.RawBaseUrl|
    ensures cell.url[..|Config.RawBaseUrl|] == Config.RawBaseUrl
    ensures cell.url[|Config.RawBaseUrl| + 1..] == cell.name
  {
    Cell(name, Config.ImageUrl(name))
  }

  /** The column image i goes to. */
  function ColumnOf(i: nat): (c: nat)
    ensures c < ColumnCount
    ensures (i - c) % ColumnCount == 0
  {
    i % ColumnCount
  }

  /** Column c after the first n images of the loop have been placed. */
  function ColumnPrefix(images: seq<string>, n: nat, c: nat): (r: seq<Cell>)
    requires n <= |images|
    ensures |r| <= n
    ensures forall k :: 0 <= k < |r| ==> r[k].name in images[..n] && r[k] == CellFor(r[k].name)
    ensures c >= ColumnCount ==> r == []
  {
    if n == 0 then []
    else ColumnPrefix(images, n - 1, c) + (if ColumnOf(n - 1) == c then [CellFor(images[n - 1])] else [])
  }

  /** Column c of the finished grid. */
  function Column(images: seq<string>, c: nat): (r: seq<Cell>)
    ensures forall k :: 0 <= k < |r| ==> r[k].name in images && r[k] == CellFor(r[k].name)
    ensures c >= ColumnCount ==> r == []
  {
    assert images[..|images|] == images;
    ColumnPrefix(images, |images|, c)
  }

  /** How many of the first n images land in column c. */
  function CellsInColumn(n: nat, c: nat): (r: nat)
    requires c < ColumnCount
  {
    (n + ColumnCount - 1 - c) / ColumnCount
  }

  /** The k-th cell of column c holds image c + 3k, and the column holds exactly those images. */
  lemma {:induction false} ColumnPrefixContents(images: seq<string>, n: nat, c: nat)
    requires n <= |images| && c < ColumnCount
    ensures |ColumnPrefix(images, n, c)| == CellsInColumn(n, c)
    ensures forall k :: 0 <= k < CellsInColumn(n, c) ==>
      c + ColumnCount * k < n && ColumnPrefix(images, n, c)[k] == CellFor(images[c + ColumnCount * k])
  {
    if n > 0 {
      ColumnPrefixContents(images, n - 1, c);
    }
  }

  /** Every image is placed in column i % 3, at row i / 3. */
  lemma PlacedAt(images: seq<string>, i: nat)
    requires i < |images|
    ensures ColumnOf(i) < ColumnCount
    ensures i / ColumnCount < |Column(images, ColumnOf(i))|
    ensures Column(images, ColumnOf(i))[i / ColumnCount] == CellFor(images[i])
  {
    ColumnPrefixContents(images, |images|, ColumnOf(i));
    assert ColumnOf(i) + ColumnCount * (i / ColumnCount) == i;
  }

  /** No image is placed twice and none is lost: the three columns hold |images| cells in all. */
  lemma PlacedExactlyOnce(images: seq<string>)
    ensures |Column(images, 0)| + |Column(images, 1)| + |Column(images, 2)| == |images|
  {
    ColumnPrefixContents(images, |images|, 0);
    ColumnPrefixContents(images, |images|, 1);
    ColumnPrefixContents(images, |images|, 2);
  }

  /** The gallery loop: enumerate the images and append each one's cell to its column. */
  method LayoutGrid(images: seq<string>) returns (columns: seq<seq<Cell>>)
    ensures |columns| == ColumnCount
    ensures forall c :: 0 <= c < ColumnCount ==> columns[c] == Column(images, c)
  {
    columns := [[], [], []];
    for i := 0 to |images|
      invariant |columns| == ColumnCount
      invariant forall c :: 0 <= c < ColumnCount ==> columns[c] == ColumnPrefix(images, i, c)
    {
      var c := ColumnOf(i);
      columns := columns[c := columns[c] + [CellFor(images[i])]];
    }
  }
}
