/** Book details for the carousel (`carousel/utils.ts`): fixed titles for
    eight well-known ids and the Gutenberg cover-image URL. */
module CarouselUtils {
  import opened Maybe

  /** The eight ids with a fixed title. */
  const Titles: map<string, string> := map[
    "1342" := "Pride and Prejudice",
    "64317" := "The Great Gatsby",
    "2701" := "Moby Dick",
    "11" := "Alice's Adventures in Wonderland",
    "2600" := "War and Peace",
    "1661" := "The Adventures of Sherlock Holmes",
    "84" := "Frankenstein",
    "1787" := "Hamlet"]

  /** `titles[id] || "Book #" + id`: the fallback is taken when the lookup
      is missing or is the empty string. */
  function GetBookTitle(id: string): (r: string)
    ensures |r| > 0
    ensures id in Titles ==> r == Titles[id]
    ensures id !in Titles ==> r == "Book #" + id
  {
    if id in Titles && Titles[id] != "" then Titles[id] else "Book #" + id
  }

  /** The fixed titles, one per listed id. */
  lemma KnownTitles()
    ensures GetBookTitle("1342") == "Pride and Prejudice"
    ensures GetBookTitle("64317") == "The Great Gatsby"
    ensures GetBookTitle("2701") == "Moby Dick"
    ensures GetBookTitle("11") == "Alice's Adventures in Wonderland"
    ensures GetBookTitle("2600") == "War and Peace"
    ensures GetBookTitle("1661") == "The Adventures of Sherlock Holmes"
    ensures GetBookTitle("84") == "Frankenstein"
    ensures GetBookTitle("1787") == "Hamlet"
    ensures GetBookTitle("1") == "Book #1"
  {
  }

  const CoverPrefix := "https://www.gutenberg.org/cache/epub/"
  const CoverSuffix := ".cover.medium.jpg"

  /** `prefix + id + "/pg" + id + suffix`, the shape of a cover URL. */
  function Wrap(prefix: string, suffix: string, id: string): string {
    prefix + id + "/pg" + id + suffix
  }

  /** Reads the id back out of a string of the shape `Wrap(prefix, suffix, id)`. */
  function Unwrap(prefix: string, suffix: string, url: string): Option<string> {
    var p := |prefix|;
    var s := |suffix|;
    if |url| < p + s + 3 || (|url| - p - s - 3) % 2 != 0 then None
    else
      var mid := url[p..|url| - s];
      var id := mid[..(|mid| - 3) / 2];
      if url[..p] == prefix && url[|url| - s..] == suffix && mid == id + "/pg" + id
      then Some(id)
      else None
  }

  lemma {:induction false} UnwrapWrap(prefix: string, suffix: string, id: string)
    ensures Unwrap(prefix, suffix, Wrap(prefix, suffix, id)) == Some(id)
  {
    var u := Wrap(prefix, suffix, id);
    var p := |prefix|;
    var s := |suffix|;
    var mid := id + "/pg" + id;
    assert u == prefix + mid + suffix;
    assert u[..p] == prefix;
    assert u[|u| - s..] == suffix;
    assert u[p..|u| - s] == mid;
    assert mid[..(|mid| - 3) / 2] == id;
  }

  lemma {:induction false} WrapUnwrap(prefix: string, suffix: string, url: string, id: string)
    requires Unwrap(prefix, suffix, url) == Some(id)
    ensures Wrap(prefix, suffix, id) == url
  {
    var p := |prefix|;
    var s := |suffix|;
    var mid := url[p..|url| - s];
    assert url == url[..p] + mid + url[|url| - s..];
  }

  /** The medium cover image of a book. */
  function GetBookCoverUrl(id: string): (url: string)
    ensures Unwrap(CoverPrefix, CoverSuffix, url) == Some(id)
  {
    UnwrapWrap(CoverPrefix, CoverSuffix, id);
    Wrap(CoverPrefix, CoverSuffix, id)
  }

  /** Reads the book id back out of a cover URL, if it has the cover shape. */
  function IdOfCoverUrl(url: string): Option<string> {
    Unwrap(CoverPrefix, CoverSuffix, url)
  }

  /** The cover URL determines the id, and only cover-shaped URLs parse. */
  lemma CoverUrlRoundTrip(id: string, url: string)
    ensures IdOfCoverUrl(GetBookCoverUrl(id)) == Some(id)
    ensures IdOfCoverUrl(url) == Some(id) ==> GetBookCoverUrl(id) == url
  {
    if IdOfCoverUrl(url) == Some(id) {
      WrapUnwrap(CoverPrefix, CoverSuffix, url, id);
    }
  }

  /** Distinct books have distinct covers. */
  lemma CoverUrlInjective(a: string, b: string)
    ensures GetBookCoverUrl(a) == GetBookCoverUrl(b) ==> a == b
  {
  }

  /** What the carousel shows of one book. */
  datatype BookDetails = BookDetails(id: string, coverUrl: string, title: string)

  /** One entry per id, in order, each derived from its own id. */
  function GenerateBookDetails(bookIds: seq<string>): (r: seq<BookDetails>)
    ensures |r| == |bookIds|
    ensures forall k :: 0 <= k < |r| ==>
      && r[k].id == bookIds[k]
      && IdOfCoverUrl(r[k].coverUrl) == Some(bookIds[k])
      && r[k].title == GetBookTitle(bookIds[k])
  {
    seq(|bookIds|, k requires 0 <= k < |bookIds| =>
      var id := bookIds[k];
      BookDetails(id, GetBookCoverUrl(id), GetBookTitle(id)))
  }
}
