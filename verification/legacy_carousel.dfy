/** The older carousel of `BookCarousel.tsx`: the same index arithmetic
    as `carousel/index.tsx`, its own copies of the title table and the
    cover URL, and an autoplay flag that a selection switches off. */
module LegacyCarousel {
  import opened Maybe
  import CarouselUtils
  import Carousel

  /** This component's own copy of the title table. */
  function GetBookTitle(id: string): string {
    var titles := map[
      "1342" := "Pride and Prejudice",
      "64317" := "The Great Gatsby",
      "2701" := "Moby Dick",
      "11" := "Alice's Adventures in Wonderland",
      "2600" := "War and Peace",
      "1661" := "The Adventures of Sherlock Holmes",
      "84" := "Frankenstein",
      "1787" := "Hamlet"];
    if id in titles && titles[id] != "" then titles[id] else "Book #" + id
  }

  /** The book details built inline from the ids. */
  function BookDetails(bookIds: seq<string>): seq<CarouselUtils.BookDetails> {
    seq(|bookIds|, k requires 0 <= k < |bookIds| =>
      var id := bookIds[k];
      CarouselUtils.BookDetails(
        id,
        "https://www.gutenberg.org/cache/epub/" + id + "/pg" + id + ".cover.medium.jpg",
        GetBookTitle(id)))
  }

  /** The inline details equal those of `generateBookDetails`: same titles,
      same cover URLs. */
  lemma BookDetailsAgree(bookIds: seq<string>)
    ensures BookDetails(bookIds) == CarouselUtils.GenerateBookDetails(bookIds)
  {
    var a := BookDetails(bookIds);
    var b := CarouselUtils.GenerateBookDetails(bookIds);
    forall k | 0 <= k < |bookIds|
      ensures a[k] == b[k]
    {
      var id := bookIds[k];
      assert GetBookTitle(id) == CarouselUtils.GetBookTitle(id);
      assert a[k].coverUrl == CarouselUtils.Wrap(CarouselUtils.CoverPrefix, CarouselUtils.CoverSuffix, id);
    }
  }

  /** The component state that the handlers change. */
  datatype State = State(current: int, autoPlaying: bool)

  /** One event. The interval is installed only while autoplay is on, so a
      tick after the pause changes nothing; clicking the active book pauses
      autoplay and reports the book. */
  function Step(books: seq<CarouselUtils.BookDetails>, s: State, e: Carousel.Event): (r: (State, Option<string>))
    requires Carousel.Renderable(e, |books|)
    ensures r.0.autoPlaying ==> s.autoPlaying
    ensures r.1.Some? <==> e.BookClicked? && e.book == s.current % |books|
    ensures r.1.Some? ==> !r.0.autoPlaying && r.1.value == books[e.book].id && r.0.current == s.current
    ensures r.1.None? && !(e.Tick? && !s.autoPlaying) ==> r.0.autoPlaying == s.autoPlaying
    ensures e.Tick? && !s.autoPlaying ==> r == (s, None)
    ensures !(e.Tick? && !s.autoPlaying) ==> (r.0.current, r.1) == Carousel.Step(books, s.current, e)
    ensures 0 <= s.current < |books| ==> 0 <= r.0.current < |books|
  {
    match e
    case NextPressed => (s.(current := Carousel.Next(s.current, |books|)), None)
    case PrevPressed => (s.(current := Carousel.Prev(s.current, |books|)), None)
    case DotPressed(i) => (s.(current := i), None)
    case Tick =>
      if s.autoPlaying then (s.(current := Carousel.Next(s.current, |books|)), None) else (s, None)
    case BookClicked(i) =>
      Carousel.ExactlyOneActive(s.current, |books|, i);
      if Carousel.Place(i, s.current, |books|).isActive
      then (s.(autoPlaying := false), Some(books[i].id))
      else (s, None)
  }

  /** A run of events, with the books selected along the way. */
  function Run(books: seq<CarouselUtils.BookDetails>, s: State, events: seq<Carousel.Event>): (State, seq<string>)
    requires forall k :: 0 <= k < |events| ==> Carousel.Renderable(events[k], |books|)
    decreases |events|
  {
    if |events| == 0 then (s, [])
    else
      var (next, selected) := Step(books, s, events[0]);
      var (last, later) := Run(books, next, events[1..]);
      (last, (if selected.Some? then [selected.value] else []) + later)
  }

  /** Once paused, autoplay stays paused whatever happens next; and a run
      that selects a book ends paused. */
  lemma {:induction false} AutoplayNeverResumes(books: seq<CarouselUtils.BookDetails>, s: State, events: seq<Carousel.Event>)
    requires forall k :: 0 <= k < |events| ==> Carousel.Renderable(events[k], |books|)
    ensures !s.autoPlaying ==> !Run(books, s, events).0.autoPlaying
    ensures |Run(books, s, events).1| > 0 ==> !Run(books, s, events).0.autoPlaying
    decreases |events|
  {
    if |events| > 0 {
      var (next, selected) := Step(books, s, events[0]);
      AutoplayNeverResumes(books, next, events[1..]);
    }
  }

  /** The index stays in `[0, n)` along any run of renderable events. */
  lemma {:induction false} RunStaysInRange(books: seq<CarouselUtils.BookDetails>, s: State, events: seq<Carousel.Event>)
    requires 0 <= s.current < |books|
    requires forall k :: 0 <= k < |events| ==> Carousel.Renderable(events[k], |books|)
    ensures 0 <= Run(books, s, events).0.current < |books|
    decreases |events|
  {
    if |events| > 0 {
      var (next, selected) := Step(books, s, events[0]);
      RunStaysInRange(books, next, events[1..]);
    }
  }
}
