# GitHub image gallery — a Dafny model of its logic

The gallery is a single Streamlit script, `imagegallery.py`. It lists the files
at the root of one GitHub repository, keeps the image files, and shows them
either as a three-column grid or as a slideshow with a position slider and
Previous/Next buttons. Almost all of it is HTTP and UI wiring. This project
models the parts that are plain logic:

- **Config** (`config.dfy`): the compiled-in user, repository, branch and the
  empty folder; the raw-content prefix built from them;
  the per-image URL `RAW_BASE_URL + "/" + name`.
- **ImageFilter** (`image_filter.dfy`): the list comprehension in
  `fetch_github_images` that keeps a name when its lower-cased form ends with
  one of `.png .jpg .jpeg .gif .bmp .webp`. It is written as a function over
  the sequence of names, with a lower-casing helper and a
  `str.endswith(tuple)` predicate that tries the suffixes in turn.
- **GalleryGrid** (`gallery_grid.dfy`): the `for i, img_name in
  enumerate(images)` loop that puts image `i` in column `i % 3`. It is a
  method with a loop, proved against a function that gives each column's
  contents. The grid's download button is given the URL text as its data
  (`imagegallery.py:63`), so it saves a file under the image's name that holds
  only the URL. The slideshow's download button saves the fetched image
  bytes instead (`imagegallery.py:79`).
- **Slideshow** (`slideshow.dfy`): the image the slider position selects,
  and the two buttons. The session dictionary is the `session` field of the
  class `Navigator`, and the `Previous`/`Next` methods write
  `max(1, index - 1)` and `min(len(images), index + 1)` under the key
  `"slide"`. The function `Run` replays a sequence of clicks on the
  dictionary, and the lemmas about it state that the stored value stays
  within `[1, N]`.
- **Shuffle** (`shuffle.dfy`): `random.shuffle(images)` as swaps in place
  over an array. The random draws are a parameter. The only promise is that
  the result holds the same names, each as many times as before.

The slider at `imagegallery.py:70` has no `key="slide"`. So the value the
buttons store in the session dictionary is never read back: the slider keeps
its own position, which starts at 1, and the image shown depends only on it.
The model follows the code here. `Previous` and `Next` take the slider's
current position as an argument and update only the dictionary. No member
claims that the buttons move the image shown.

The slideshow is only reached when the listing is non-empty, because
`imagegallery.py:42-44` stops the script otherwise. That is why `N >= 1` is a
precondition of `Navigator`'s constructor and of the slideshow functions. The
slider's bounds `[1, N]` are the precondition on the position.

## Model

| member | source | states |
|---|---|---|
| Config.ImageUrl | imagegallery.py:61 | the URL is the raw prefix, then one slash, then exactly the name |
| Config.ImageUrlInjective | imagegallery.py:61 | two names give the same URL exactly when they are the same name |
| Config.RawBaseUrlEndsInSlash | imagegallery.py:13-17 | with the empty folder the raw prefix already ends in a slash |
| Config.ImageUrlDoubleSlash | imagegallery.py:17 | every image URL therefore has "//" right in front of the name |
| ImageFilter.LowerChar | imagegallery.py:34 | upper-case ASCII letters move to lower case by code point +32; every other character is unchanged; the result is never upper case |
| ImageFilter.Lower | imagegallery.py:34 | lower-casing keeps the length and lower-cases each character in place |
| ImageFilter.LowerIdempotent | imagegallery.py:34 | a lower-cased name has no upper-case letter, and lower-casing it again changes nothing |
| ImageFilter.LowerOfLowerCase | imagegallery.py:34 | a name with no upper-case letter is its own lower-cased form |
| ImageFilter.EndsWith | imagegallery.py:34 | `str.endswith` for one suffix: when it holds, the suffix fits in the name and matches its last characters one by one |
| ImageFilter.EndsWithAny | imagegallery.py:34 | `str.endswith` over a tuple: when it holds, some suffix of the tuple matches (the converse is EndsWithAnyIffSome) |
| ImageFilter.EndsWithAnyIffSome | imagegallery.py:34 | `endswith` over a tuple holds exactly when some suffix in the tuple matches |
| ImageFilter.IsImageName | imagegallery.py:19-34 | the comprehension's test; a name that passes has at least four characters (its characterisation is IsImageNameIff) |
| ImageFilter.IsImageNameIff | imagegallery.py:19-34 | a name passes the test exactly when its lower-cased form ends with one of the six extensions |
| ImageFilter.IsImageNameIgnoresCase | imagegallery.py:34 | a name passes exactly when its lower-cased form passes |
| ImageFilter.ImageNameShape | imagegallery.py:19-34 | a kept name has at least four characters, a dot four or five from the end, and ends in g, f or p in either case |
| ImageFilter.FilterImages | imagegallery.py:34 | the output is no longer than the input, and each element is an image name taken from the input |
| ImageFilter.FilterMembership | imagegallery.py:34 | a name is in the output exactly when it is in the input and is an image name |
| ImageFilter.FilterCounts | imagegallery.py:34 | each image name occurs in the output as many times as in the input, and every other name occurs 0 times |
| ImageFilter.FilterConcat | imagegallery.py:34 | filtering a concatenation gives the concatenation of the filtered parts |
| ImageFilter.FilterIdempotent | imagegallery.py:34 | filtering the output again changes nothing |
| ImageFilter.FilterIsSubsequence | imagegallery.py:34 | the output is a subsequence of the input, so relative order is kept |
| ImageFilter.FilterKeepsAllImages | imagegallery.py:34 | a listing made only of image names passes through unchanged |
| ImageFilter.UpperCaseJpgIsKept | imagegallery.py:19-34 | "PHOTO.JPG" is kept |
| ImageFilter.NonImagesAreDropped | imagegallery.py:19-34 | "notes.txt" and a bare "png" are dropped |
| ImageFilter.SampleListing | imagegallery.py:19-34 | ["a.png", "b.jpg", "c.gif", "d.txt"] filters to ["a.png", "b.jpg", "c.gif"] |
| GalleryGrid.CellFor | imagegallery.py:61-63 | the cell's caption is the image name, and its link is the raw prefix with the caption as its last path segment, so the caption and the download file name match the last segment of the link |
| GalleryGrid.ColumnOf | imagegallery.py:60 | image i goes to a column below 3 that is congruent to i modulo 3 |
| GalleryGrid.ColumnPrefix | imagegallery.py:58-61 | after n images, a column holds at most n cells, each the cell of one of those n images, and a column number of 3 or more holds nothing (its exact contents are ColumnPrefixContents) |
| GalleryGrid.Column | imagegallery.py:58-61 | a finished column holds only cells of listed images, and there is no fourth column (its exact contents are ColumnPrefixContents and PlacedAt) |
| GalleryGrid.ColumnPrefixContents | imagegallery.py:58-61 | after n images, column c holds (n + 2 - c) / 3 cells, and its k-th cell is image c + 3k |
| GalleryGrid.PlacedAt | imagegallery.py:59-60 | every image i is in column i % 3 at row i / 3 |
| GalleryGrid.PlacedExactlyOnce | imagegallery.py:58-60 | the three columns hold as many cells in all as there are images, so each image is placed once |
| GalleryGrid.LayoutGrid | imagegallery.py:58-63 | the loop builds exactly three columns, each equal to that column's specified contents |
| Slideshow.Max | imagegallery.py:85 | Python's `max` of two integers: at least both, and equal to one of them |
| Slideshow.Min | imagegallery.py:88 | Python's `min` of two integers: at most both, and equal to one of them |
| Slideshow.PreviousSlide | imagegallery.py:85 | the value Previous writes is at least 1, never past the slider position, and either 1 or one step back (range and fixed point: PreviousInRange, PreviousFixedAtFirst) |
| Slideshow.NextSlide | imagegallery.py:88 | the value Next writes is at most N, never behind a slider position in range, and either N or one step on (range and fixed point: NextInRange, NextFixedAtLast) |
| Slideshow.PreviousInRange | imagegallery.py:85 | from a slider position in [1, N], Previous writes index - 1, or 1 at the first position, so the value stays in [1, N] |
| Slideshow.NextInRange | imagegallery.py:88 | from a slider position in [1, N], Next writes index + 1, or N at the last position, so the value stays in [1, N] |
| Slideshow.PreviousFixedAtFirst | imagegallery.py:85 | at position 1, Previous writes 1 |
| Slideshow.NextFixedAtLast | imagegallery.py:88 | at position N, Next writes N |
| Slideshow.ShownImage | imagegallery.py:70-71 | with the slider in [1, N], `images[index - 1]` is in range and is a name of the listing |
| Slideshow.ShownUrl | imagegallery.py:72 | the fetched URL's last path segment is the shown image's name, which is also the caption and download name |
| Slideshow.SlideshowUrlIsGridCellUrl | imagegallery.py:61-72 | the slideshow fetches for position index exactly the link of the grid cell at column (index - 1) % 3, row (index - 1) / 3 |
| Slideshow.SliderDefaultShowsFirst | imagegallery.py:70-71 | the slider's initial value 1 lies in [1, N] for a non-empty listing and shows the first image |
| Slideshow.SliderCoversListing | imagegallery.py:70-71 | moving the slider over 1..N shows every image once, in listing order |
| Slideshow.ClickValue | imagegallery.py:84-88 | the value a click writes depends only on the button and the slider position, and lies in [1, N] when the slider does |
| Slideshow.Step | imagegallery.py:84-88 | one click adds or overwrites the "slide" entry with that click's value and keeps every other entry |
| Slideshow.Run | imagegallery.py:82-88 | after a sequence of clicks the stored "slide" is the last click's value alone, it is present exactly when some click happened, and every other entry is unchanged |
| Slideshow.RunKeepsRange | imagegallery.py:82-88 | over any sequence of clicks with the slider in bounds, the stored "slide" stays in [1, N], is set after any click, and no other key changes |
| Slideshow.ThreeImageClicks | imagegallery.py:84-88 | with three images: Previous at 1 stores 1, Next at 2 stores 3, Next at 3 stores 3 |
| Slideshow.Navigator.constructor | imagegallery.py:42-44 | navigation starts with a non-empty listing and an empty session dictionary |
| Slideshow.Navigator.Previous | imagegallery.py:84-85 | stores max(1, index - 1) under "slide", changes nothing else, and keeps the stored value in [1, N] |
| Slideshow.Navigator.Next | imagegallery.py:87-88 | stores min(N, index + 1) under "slide", changes nothing else, and keeps the stored value in [1, N] |
| Shuffle.ShuffleInPlace | imagegallery.py:51-52 | shuffling in place leaves the same multiset of names |

## Left out

- HTTP: the GitHub contents API call and its URL (`imagegallery.py:16`), `raise_for_status`, JSON decoding, the image download and its status-200 test (`imagegallery.py:31-33`, `75-76`). These are network I/O. Each JSON entry is modelled only by its `name` field, and the filter works on the sequence of those names.
- The `except` branch that turns any failure into an empty list with an error message (`imagegallery.py:35-37`). It only wraps the I/O above.
- `@st.cache_data` memoization of the listing. Streamlit manages it, and its invalidation is not visible in the script.
- All Streamlit rendering: page config, title, sidebar, view-mode radio, shuffle checkbox, slider widget mechanics, columns, `st.image`, download buttons, warnings, `st.stop`. The slider's bounds appear only as a precondition on the position.
- PIL decoding of the downloaded bytes (`imagegallery.py:77`). It is a foreign library call.
- ImageFilter.Lower: lower-cases ASCII `A`-`Z` only. Python's `str.lower` also maps non-ASCII letters, and it can change the length of a name. The model does not capture that part of Unicode case mapping. It does not change which names are kept. The only non-ASCII characters whose lower-case form holds an ASCII letter are U+212A (KELVIN SIGN), which lowers to `k`, and U+0130, which lowers to `i` followed by U+0307. No extension contains `k`, and U+0307 is not ASCII, so no extension can match across it. Every other non-ASCII character stays non-ASCII in both versions and matches no extension.
- Shuffle.ShuffleInPlace: randomness is a parameter (one draw per position). Only the multiset of names is promised, not the distribution of orders.
