// The extension filter applied to the directory listing: a name is kept
// when its lower-cased form ends with one of the allowed image extensions.
module ImageFilter {

  /** The allowed extensions, in the order the script lists them. */
  const ImageExtensions: seq<string> := [".png", ".jpg", ".jpeg", ".gif", ".bmp", ".webp"]

  predicate IsUpper(c: char) { 'A' <= c <= 'Z' }

  /** Lower-casing of one character (ASCII letters only). */
  function LowerChar(c: char): (d: char)
    ensures IsUpper(c) ==> d as int == c as int + 32
    ensures !IsUpper(c) ==> d == c
    ensures !IsUpper(d)
  {
    if IsUpper(c) then (c as int + 32) as char else c
  }

  /** Lower-casing of a name, character by character. */
  function Lower(s: string): (r: string)
    ensures |r| == |s|
    ensures forall i :: 0 <= i < |s| ==> r[i] == LowerChar(s[i])
  {
    seq(|s|, i requires 0 <= i < |s| => LowerChar(s[i]))
  }

  /** The result of lower-casing holds no upper-case letter, and lower-casing it again changes nothing. */
  lemma LowerIdempotent(s: string)
    ensures forall i :: 0 <= i < |Lower(s)| ==> !IsUpper(Lower(s)[i])
    ensures Lower(Lower(s)) == Lower(s)
  {
  }

  /** `s.endswith(suffix)` for one suffix. */
  predicate EndsWith(s: string, suffix: string)
    ensures EndsWith(s, suffix) ==> |suffix| <= |s|
    ensures EndsWith(s, suffix) ==> forall i :: 0 <= i < |suffix| ==> s[|s| - |suffix| + i] == suffix[i]
  {
    |suffix| <= |s| && s[|s| - |suffix|..] == suffix
  }

  /** `s.endswith(suffixes)` for a tuple of suffixes: tried one after the other. */
  predicate EndsWithAny(s: string, suffixes: seq<string>)
    ensures EndsWithAny(s, suffixes) ==> exists k :: 0 <= k < |suffixes| && EndsWith(s, suffixes[k])
    decreases |suffixes|
  {
    |suffixes| > 0 && (EndsWith(s, suffixes[0]) || EndsWithAny(s, suffixes[1..]))
  }

  lemma {:induction false} EndsWithAnyIffSome(s: string, suffixes: seq<string>)
    ensures EndsWithAny(s, suffixes) <==> exists k :: 0 <= k < |suffixes| && EndsWith(s, suffixes[k])
    decreases |suffixes|
  {
    if |suffixes| > 0 {
      EndsWithAnyIffSome(s, suffixes[1..]);
      if EndsWithAny(s, suffixes[1..]) {
        var k :| 0 <= k < |suffixes[1..]| && EndsWith(s, suffixes[1..][k]);
        assert EndsWith(s, suffixes[k + 1]);
      }
      if exists k :: 0 <= k < |suffixes| && EndsWith(s, suffixes[k]) {
        var k :| 0 <= k < |suffixes| && EndsWith(s, suffixes[k]);
        if k > 0 {
          assert EndsWith(s, suffixes[1..][k - 1]);
        }
      }
    }
  }

  /** The test the comprehension applies to each name. */
  predicate IsImageName(name: string)
    ensures IsImageName(name) ==> |name| >= 4
  {
    EndsWithAny(Lower(name), ImageExtensions)
  }

  /** Kept exactly when the lower-cased name ends with one of the six extensions. */
  lemma IsImageNameIff(name: string)
    ensures IsImageName(name) <==>
      exists k :: 0 <= k < |ImageExtensions| && EndsWith(Lower(name), ImageExtensions[k])
  {
    EndsWithAnyIffSome(Lower(name), ImageExtensions);
  }

  /** Matching ignores case: a name and its lower-cased form are kept or dropped together. */
  lemma IsImageNameIgnoresCase(name: string)
    ensures IsImageName(Lower(name)) <==> IsImageName(name)
  {
    LowerIdempotent(name);
  }

  /**
   * A kept name is at least four characters long, carries a dot four or five
   * characters from its end, and ends in one of the letters g, f or p (either case).
   */
  lemma ImageNameShape(name: string)
    requires IsImageName(name)
    ensures |name| >= 4
    ensures name[|name| - 4] == '.' || (|name| >= 5 && name[|name| - 5] == '.')
    ensures LowerChar(name[|name| - 1]) in {'g', 'f', 'p'}
  {
    IsImageNameIff(name);
    var k :| 0 <= k < |ImageExtensions| && EndsWith(Lower(name), ImageExtensions[k]);
    var ext := ImageExtensions[k];
    var l := Lower(name);
    assert l[|l| - |ext|] == ext[0];
    assert l[|l| - 1] == ext[|ext| - 1];
  }

  /** A name without upper-case letters is its own lower-cased form. */
  lemma LowerOfLowerCase(s: string)
    requires forall i :: 0 <= i < |s| ==> !IsUpper(s[i])
    ensures Lower(s) == s
  {
  }

  /** The list comprehension over the listing: keep the image names, in order. */
  function FilterImages(names: seq<string>): (r: seq<string>)
    ensures |r| <= |names|
    ensures forall i :: 0 <= i < |r| ==> IsImageName(r[i]) && r[i] in names
  {
    if names == [] then []
    else (if IsImageName(names[0]) then [names[0]] else []) + FilterImages(names[1..])
  }

  /** A name is in the output exactly when it is in the input and is an image name. */
  lemma {:induction false} FilterMembership(names: seq<string>, x: string)
    ensures x in FilterImages(names) <==> x in names && IsImageName(x)
  {
    if names != [] {
      FilterMembership(names[1..], x);
      assert names == [names[0]] + names[1..];
    }
  }

  /** Nothing is added or duplicated: each image name occurs as often as in the input, every other name not at all. */
  lemma {:induction false} FilterCounts(names: seq<string>, x: string)
    ensures multiset(FilterImages(names))[x] == if IsImageName(x) then multiset(names)[x] else 0
  {
    if names != [] {
      FilterCounts(names[1..], x);
      assert names == [names[0]] + names[1..];
    }
  }

  /** Filtering a concatenation filters each part. */
  lemma {:induction false} FilterConcat(a: seq<string>, b: seq<string>)
    ensures FilterImages(a + b) == FilterImages(a) + FilterImages(b)
  {
    if a == [] {
      assert a + b == b;
    } else {
      assert (a + b)[0] == a[0];
      assert (a + b)[1..] == a[1..] + b;
      FilterConcat(a[1..], b);
    }
  }

  /** Filtering twice is filtering once. */
  lemma {:induction false} FilterIdempotent(names: seq<string>)
    ensures FilterImages(FilterImages(names)) == FilterImages(names)
  {
    if names != [] {
      var head := if IsImageName(names[0]) then [names[0]] else [];
      FilterConcat(head, FilterImages(names[1..]));
      FilterIdempotent(names[1..]);
    }
  }

  /** `a` is `b` with some elements left out, the rest in their order. */
  predicate IsSubsequence(a: seq<string>, b: seq<string>)
    decreases |b|
  {
    if a == [] then true
    else if b == [] then false
    else (a[0] == b[0] && IsSubsequence(a[1..], b[1..])) || IsSubsequence(a, b[1..])
  }

  /** Order is preserved: the output is a subsequence of the listing. */
  lemma {:induction false} FilterIsSubsequence(names: seq<string>)
    ensures IsSubsequence(FilterImages(names), names)
  {
    if names != [] {
      FilterIsSubsequence(names[1..]);
      var r := FilterImages(names);
      if IsImageName(names[0]) {
        assert r[0] == names[0] && r[1..] == FilterImages(names[1..]);
      } else {
        assert r == FilterImages(names[1..]);
      }
    }
  }

  /** A listing of image names only passes through unchanged. */
  lemma {:induction false} FilterKeepsAllImages(names: seq<string>)
    requires forall i :: 0 <= i < |names| ==> IsImageName(names[i])
    ensures FilterImages(names) == names
  {
    if names != [] {
      FilterKeepsAllImages(names[1..]);
    }
  }

  lemma UpperCaseJpgIsKept()
    ensures IsImageName("PHOTO.JPG")
  {
    var l := Lower("PHOTO.JPG");
    assert l == "photo.jpg";
    assert EndsWith(l, ".jpg");
  }

  lemma NonImagesAreDropped()
    ensures !IsImageName("notes.txt")
    ensures !IsImageName("png")
  {
    if IsImageName("notes.txt") {
      ImageNameShape("notes.txt");
    }
    if IsImageName("png") {
      ImageNameShape("png");
    }
  }

  lemma SampleListing()
    ensures FilterImages(["a.png", "b.jpg", "c.gif", "d.txt"]) == ["a.png", "b.jpg", "c.gif"]
  {
    var names := ["a.png", "b.jpg", "c.gif", "d.txt"];
    LowerOfLowerCase("a.png");
    LowerOfLowerCase("b.jpg");
    LowerOfLowerCase("c.gif");
    assert EndsWith("a.png", ".png");
    assert EndsWith("b.jpg", ".jpg");
    assert EndsWith("c.gif", ".gif");
    assert !IsImageName("d.txt") by {
      if IsImageName("d.txt") {
        ImageNameShape("d.txt");
      }
    }
    assert names[3..] == ["d.txt"] && FilterImages(["d.txt"]) == [];
    assert names[2..] == ["c.gif", "d.txt"] && FilterImages(names[2..]) == ["c.gif"];
    assert names[1..] == ["b.jpg", "c.gif", "d.txt"] && FilterImages(names[1..]) == ["b.jpg", "c.gif"];
  }
}
