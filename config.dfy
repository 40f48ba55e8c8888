// The compiled-in repository coordinates and the URLs built from them.
module Config {

  const Username: string := "sukshender01"
  const Repo: string := "imagegallery"
  const Branch: string := "main"
  /** Empty: the images sit at the root of the repository. */
  const Folder: string := ""

  /** The raw-content prefix every image URL starts with. */
  const RawBaseUrl: string :=
    "https://raw.githubusercontent.com/" + Username + "/" + Repo + "/" + Branch + "/" + Folder

  /** The direct-download URL of one image: the raw prefix, a slash, the name. */
  function ImageUrl(name: string): (url: string)
    ensures |url| == |RawBaseUrl| + 1 + |name|
    ensures url[..|RawBaseUrl|] == RawBaseUrl
    ensures url[|RawBaseUrl|] == '/'
    ensures url[|RawBaseUrl| + 1..] == name
  {
    RawBaseUrl + "/" + name
  }

  /** Distinct names give distinct URLs, so no two grid cells share a download link. */
  lemma ImageUrlInjective(a: string, b: string)
    ensures ImageUrl(a) == ImageUrl(b) <==> a == b
  {
    if ImageUrl(a) == ImageUrl(b) {
      assert a == ImageUrl(a)[|RawBaseUrl| + 1..];
    }
  }

  /** With the empty folder the raw prefix already ends in a slash. */
  lemma RawBaseUrlEndsInSlash()
    ensures |RawBaseUrl| > 0 && RawBaseUrl[|RawBaseUrl| - 1] == '/'
  {
    var head := "https://raw.githubusercontent.com/" + Username + "/" + Repo + "/" + Branch + "/";
    assert RawBaseUrl == head + Folder;
    assert head + Folder == head;
  }

  /** Hence every image URL has a doubled slash in front of the name. */
  lemma ImageUrlDoubleSlash(name: string)
    ensures ImageUrl(name)[|RawBaseUrl| - 1..|RawBaseUrl| + 1] == "//"
  {
    RawBaseUrlEndsInSlash();
  }
}
