/** Index arithmetic of the book carousel (`carousel/index.tsx`): the
    wrap-around buttons, the placement of every book around the active
    one, and the click handler. Scale and opacity are left out. */
module Carousel {
  import opened Maybe
  import CarouselUtils

  /** Euclidean division is determined by quotient and remainder. */
  lemma DivModUnique(a: int, n: int, q: int, r: int)
    requires n > 0 && 0 <= r < n && a == q * n + r
    ensures a % n == r && a / n == q
  {
    var q' := a / n;
    var r' := a % n;
    assert a == q' * n + r';
    assert (q - q') * n == r' - r;
    if q > q' {
      MulAtLeast(q - q', n);
    } else if q < q' {
      MulAtLeast(q' - q, n);
    }
  }

  lemma MulAtLeast(k: int, n: int)
    requires k >= 1 && n > 0
    ensures k * n >= n
  {
    assert k * n == (k - 1) * n + n;
  }

  /** JavaScript's `a % b` for `b > 0`: the remainder truncates toward
      zero, so it takes the sign of `a`. */
  function JsRem(a: int, b: int): (r: int)
    requires b > 0
    ensures -b < r < b
    ensures (a - r) % b == 0
    ensures 0 <= a ==> 0 <= r
    ensures a <= 0 ==> r <= 0
  {
    if a >= 0 then
      DivModUnique(a - a % b, b, a / b, 0);
      a % b
    else
      var m := (-a) % b;
      assert -a == ((-a) / b) * b + m;
      assert a + m == (-((-a) / b)) * b;
      DivModUnique(a + m, b, -((-a) / b), 0);
      -m
  }

  /** `prev === n - 1 ? 0 : prev + 1`. */
  function Next(current: int, n: nat): (r: int)
    ensures 0 <= current < n ==> 0 <= r < n && r == (current + 1) % n
  {
    StepResidues(current, n);
    if current == n - 1 then 0 else current + 1
  }

  /** `prev === 0 ? n - 1 : prev - 1`. */
  function Prev(current: int, n: nat): (r: int)
    ensures 0 <= current < n ==> 0 <= r < n && r == (current - 1 + n) % n
  {
    StepResidues(current, n);
    if current == 0 then n - 1 else current - 1
  }

  /** The residues one step either way round a ring of `n` places. */
  lemma StepResidues(current: int, n: nat)
    ensures 0 <= current < n ==>
      && (current + 1) % n == (if current == n - 1 then 0 else current + 1)
      && (current - 1 + n) % n == (if current == 0 then n - 1 else current - 1)
  {
    if 0 <= current < n {
      if current == n - 1 {
        DivModUnique(current + 1, n, 1, 0);
      } else {
        DivModUnique(current + 1, n, 0, current + 1);
      }
      if current == 0 {
        DivModUnique(current - 1 + n, n, 0, n - 1);
      } else {
        DivModUnique(current - 1 + n, n, 1, current - 1);
      }
    }
  }

  /** The two buttons undo each other. */
  lemma NextPrevInverse(current: int, n: nat)
    requires 0 <= current < n
    ensures Next(Prev(current, n), n) == current
    ensures Prev(Next(current, n), n) == current
  {
  }

  /** `k` presses of the next button. */
  function Advance(current: int, n: nat, k: nat): int
    decreases k
  {
    if k == 0 then current else Next(Advance(current, n, k - 1), n)
  }

  /** `k` presses move `k` places round the ring; `n` presses come back. */
  lemma AdvanceWraps(current: int, n: nat, k: nat)
    requires 0 <= current < n
    ensures Advance(current, n, k) == (current + k) % n
    ensures Advance(current, n, n) == current
  {
    AdvancesBy(current, n, k);
    AdvancesBy(current, n, n);
    DivModUnique(current + n, n, 1, current);
  }

  /** An index already past the end is never wrapped back: each press of
      the next button moves it one further out. */
  lemma {:induction false} OutOfRangeNeverReturns(current: int, n: nat, k: nat)
    requires current >= n
    ensures Advance(current, n, k) == current + k
    decreases k
  {
    if k > 0 {
      OutOfRangeNeverReturns(current, n, k - 1);
    }
  }

  lemma {:induction false} AdvancesBy(current: int, n: nat, k: nat)
    requires 0 <= current < n
    ensures Advance(current, n, k) == (current + k) % n
    decreases k
  {
    if k > 0 {
      AdvancesBy(current, n, k - 1);
      ModStep(current + k - 1, n);
    } else {
      DivModUnique(current, n, 0, current);
    }
  }

  lemma ModStep(a: int, n: nat)
    requires n > 0
    ensures (a % n + 1) % n == (a + 1) % n
  {
    var q := a / n;
    var r := a % n;
    assert a + 1 == q * n + (r + 1);
    if r + 1 < n {
      DivModUnique(a + 1, n, q, r + 1);
      DivModUnique(r + 1, n, 0, r + 1);
    } else {
      assert a + 1 == (q + 1) * n + 0;
      DivModUnique(a + 1, n, q + 1, 0);
      DivModUnique(r + 1, n, 1, 0);
    }
  }

  /** `((index - current) % n + n) % n`, evaluated with JavaScript's `%`;
      it is the Euclidean residue of `index - current`. */
  function Offset(index: int, current: int, n: nat): (r: int)
    requires n > 0
    ensures 0 <= r < n
    ensures r == (index - current) % n
  {
    var d := index - current;
    var x := JsRem(d, n);
    assert (x + n) % n == d % n by { SameResidue(d, x, n); }
    JsRem(x + n, n)
  }

  lemma SameResidue(d: int, x: int, n: nat)
    requires n > 0 && (d - x) % n == 0
    ensures (x + n) % n == d % n
  {
    var q := (d - x) / n;
    assert d == x + q * n;
    assert x + n == d + (1 - q) * n;
    ModMultiple(d, 1 - q, n);
  }

  lemma ModMultiple(a: int, q: int, n: nat)
    requires n > 0
    ensures (a + q * n) % n == a % n
  {
    var r := a % n;
    var s := a / n;
    assert a == s * n + r;
    assert a + q * n == (s + q) * n + r;
    DivModUnique(a + q * n, n, s + q, r);
  }

  /** Where a book is drawn relative to the active one. */
  datatype Placement = Placement(
    isActive: bool,
    offset: int,
    distanceFromActive: int,
    position: int,
    zIndex: int,
    rotation: int)

  /** The placement of book `index` when `current` is the active index.
      `offset > n / 2` compares with the real quotient, so it reads
      `2 * offset > n` over the integers. */
  function Place(index: int, current: int, n: nat): (p: Placement)
    requires n > 0
    ensures p.isActive <==> (index - current) % n == 0
    ensures 0 <= p.distanceFromActive && 2 * p.distanceFromActive <= n
    ensures p.distanceFromActive == 0 <==> p.isActive
    ensures p.distanceFromActive == (index - current) % n || p.distanceFromActive == (current - index) % n
    ensures p.distanceFromActive <= (index - current) % n && p.distanceFromActive <= (current - index) % n
    ensures p.position == 0 <==> p.isActive
    ensures p.position == -1 <==> (current - index) % n < (index - current) % n
    ensures p.position == 1 <==> 0 < (index - current) % n <= (current - index) % n
    ensures p.zIndex == n - p.distanceFromActive && 0 < p.zIndex <= n
    ensures p.rotation == 5 * p.position
  {
    var offset := Offset(index, current, n);
    OppositeResidue(index - current, n);
    var isActive := offset == 0;
    var distance := if offset < n - offset then offset else n - offset;
    var position := if offset == 0 then 0 else if 2 * offset > n then -1 else 1;
    Placement(isActive, offset, distance, position, n - distance, position * 5)
  }

  /** Counting the other way round the ring gives the complementary residue. */
  lemma OppositeResidue(d: int, n: nat)
    requires n > 0
    ensures d % n == 0 ==> (-d) % n == 0
    ensures d % n != 0 ==> (-d) % n == n - d % n
  {
    var q := d / n;
    var r := d % n;
    assert d == q * n + r;
    NegMul(q, n);
    if r != 0 {
      NegMulMinusOne(q, n);
      DivModUnique(-d, n, -q - 1, n - r);
    } else {
      DivModUnique(-d, n, -q, 0);
    }
  }

  lemma NegMul(q: int, n: int)
    ensures (-q) * n == -(q * n)
  {
  }

  lemma NegMulMinusOne(q: int, n: int)
    ensures (-q - 1) * n == -(q * n) - n
  {
  }

  /** Whatever the current index, exactly one book in `[0, n)` is active,
      the one at `current % n`, and it alone has the top z-index `n`. */
  lemma ExactlyOneActive(current: int, n: nat, index: int)
    requires n > 0 && 0 <= index < n
    ensures Place(index, current, n).isActive <==> index == current % n
    ensures Place(index, current, n).zIndex == n <==> index == current % n
    ensures index != current % n ==> Place(index, current, n).zIndex < Place(current % n, current, n).zIndex
  {
    ActiveResidue(current, n, index);
    ActiveResidue(current, n, current % n);
  }

  /** Within `[0, n)`, only `current % n` is congruent to `current`. */
  lemma ActiveResidue(current: int, n: nat, index: int)
    requires n > 0 && 0 <= index < n
    ensures (index - current) % n == 0 <==> index == current % n
  {
    var r := current % n;
    var q := current / n;
    assert current == q * n + r;
    NegMul(q, n);
    if index == r {
      DivModUnique(index - current, n, -q, 0);
    } else if index > r {
      DivModUnique(index - current, n, -q, index - r);
    } else {
      NegMulMinusOne(q, n);
      DivModUnique(index - current, n, -q - 1, index - r + n);
    }
  }

  /** `onClick={() => isActive && handleBookClick(book.id)}`: only the
      active book reports a selection. */
  function Click(index: int, current: int, books: seq<CarouselUtils.BookDetails>): (selected: Option<string>)
    requires 0 <= index < |books|
    ensures selected.Some? <==> (index - current) % |books| == 0
    ensures selected.Some? ==> selected.value == books[index].id
  {
    if Place(index, current, |books|).isActive then Some(books[index].id) else None
  }

  /** What the user (or the autoplay timer) can do to the carousel. */
  datatype Event =
    | NextPressed
    | PrevPressed
    | DotPressed(dot: int)
    | Tick
    | BookClicked(book: int)

  /** The event is one the rendered carousel can produce: pagination dots
      and book cards exist only for indices in `[0, n)`. */
  predicate Renderable(e: Event, n: nat) {
    match e
    case DotPressed(i) => 0 <= i < n
    case BookClicked(i) => 0 <= i < n
    case _ => true
  }

  /** One event: the new index and the book reported to `onSelectBook`, if any.
      The timer ticks every three seconds with the same update as Next. */
  function Step(books: seq<CarouselUtils.BookDetails>, current: int, e: Event): (r: (int, Option<string>))
    requires Renderable(e, |books|)
    ensures 0 <= current < |books| ==> 0 <= r.0 < |books|
    ensures r.1.Some? <==> e.BookClicked? && e.book == current % |books|
  {
    match e
    case NextPressed => (Next(current, |books|), None)
    case PrevPressed => (Prev(current, |books|), None)
    case DotPressed(i) => (i, None)
    case Tick => (Next(current, |books|), None)
    case BookClicked(i) =>
      ExactlyOneActive(current, |books|, i);
      (current, Click(i, current, books))
  }

  /** A run of events, with the books selected along the way. */
  function Run(books: seq<CarouselUtils.BookDetails>, current: int, events: seq<Event>): (int, seq<string>)
    requires forall k :: 0 <= k < |events| ==> Renderable(events[k], |books|)
    decreases |events|
  {
    if |events| == 0 then (current, [])
    else
      var (next, selected) := Step(books, current, events[0]);
      var (last, later) := Run(books, next, events[1..]);
      (last, (if selected.Some? then [selected.value] else []) + later)
  }

  /** The index never leaves `[0, n)`, and every selected id is the id of a
      book of the carousel. */
  lemma {:induction false} RunStaysInRange(books: seq<CarouselUtils.BookDetails>, current: int, events: seq<Event>)
    requires 0 <= current < |books|
    requires forall k :: 0 <= k < |events| ==> Renderable(events[k], |books|)
    ensures 0 <= Run(books, current, events).0 < |books|
    ensures forall id :: id in Run(books, current, events).1 ==> exists b :: b in books && b.id == id
    decreases |events|
  {
    if |events| > 0 {
      var (next, selected) := Step(books, current, events[0]);
      RunStaysInRange(books, next, events[1..]);
      if selected.Some? {
        assert books[events[0].book] in books;
      }
    }
  }
}
