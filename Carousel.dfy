/**
 * The news carousel: the most recent news items shown one at a time, with a
 * dot per slide, moved by the previous/next buttons, the dots and a
 * 10-second auto-advance timer. A slide or dot is represented by its
 * "active" flag; the markup it holds is the news item it shows.
 */
module Carousel {
  import opened JsSemantics
  import Lists
  import Arithmetic

  /** A news item; its calendar date is abstracted to an integer that orders like the date. */
  datatype NewsItem = NewsItem(id: string, title: string, date: int, image: Option<string>, content: string)

  /** At most this many items are shown. */
  const MaxSlides: nat := 5

  function DateOf(item: NewsItem): int { item.date }

  /** The items shown: the five most recent, newest first. */
  function Latest(news: seq<NewsItem>): (r: seq<NewsItem>)
    ensures |r| == if |news| < MaxSlides then |news| else MaxSlides
    ensures forall i, j :: 0 <= i < j < |r| ==> r[i].date >= r[j].date
    ensures multiset(r) <= multiset(news)
  {
    Lists.TopK(news, DateOf, MaxSlides)
  }

  /** Every news item that is not shown is no more recent than the last one shown. */
  lemma {:induction false} LatestAreMostRecent(news: seq<NewsItem>)
    requires |news| > 0
    ensures forall item :: item in multiset(news) - multiset(Latest(news)) ==>
      item.date <= Latest(news)[|Latest(news)| - 1].date
  {
    Lists.TopKLeavesOutSmaller(news, DateOf, MaxSlides);
  }

  /** The index `nextSlide` moves to: `(current + 1) % n`. */
  function NextIndex(current: JsNumber, n: nat): (r: JsNumber)
    ensures n == 0 ==> r.NaN?
    ensures current.Num? && 0 <= current.value < n ==>
      r == Num(if current.value == n - 1 then 0 else current.value + 1)
  {
    Rem(Add(current, 1), n)
  }

  /** The index `prevSlide` moves to: `(current - 1 + n) % n`. */
  function PrevIndex(current: JsNumber, n: nat): (r: JsNumber)
    ensures n == 0 ==> r.NaN?
    ensures current.Num? && 0 <= current.value < n ==>
      r == Num(if current.value == 0 then n - 1 else current.value - 1)
  {
    Rem(Add(Add(current, -1), n), n)
  }

  /** `prevSlide` undoes `nextSlide`, and `nextSlide` undoes `prevSlide`. */
  lemma {:induction false} PrevUndoesNext(current: int, n: nat)
    requires 0 <= current < n
    ensures PrevIndex(NextIndex(Num(current), n), n) == Num(current)
    ensures NextIndex(PrevIndex(Num(current), n), n) == Num(current)
  {
  }

  /** The index reached by `k` calls of `nextSlide`. */
  function NextRepeated(current: JsNumber, n: nat, k: nat): JsNumber {
    if k == 0 then current else NextIndex(NextRepeated(current, n, k - 1), n)
  }

  /** `k` calls of `nextSlide` advance by `k` places around the cycle. */
  lemma {:induction false} NextRepeatedWraps(current: int, n: nat, k: nat)
    requires 0 <= current < n
    ensures NextRepeated(Num(current), n, k) == Num((current + k) % n)
  {
    if k > 0 {
      NextRepeatedWraps(current, n, k - 1);
      var c := (current + k - 1) % n;
      assert NextRepeated(Num(current), n, k) == NextIndex(Num(c), n);
      ModSuccessor(current + k - 1, n);
    }
  }

  lemma {:induction false} ModSuccessor(a: nat, n: nat)
    requires n > 0
    ensures (a + 1) % n == if a % n == n - 1 then 0 else a % n + 1
  {
    var q, r := a / n, a % n;
    assert a == q * n + r;
    if r == n - 1 {
      assert a + 1 == (q + 1) * n + 0;
      Arithmetic.DivModUnique(a + 1, q + 1, n, 0);
    } else {
      assert a + 1 == q * n + (r + 1);
      Arithmetic.DivModUnique(a + 1, q, n, r + 1);
    }
  }

  /** `n` calls of `nextSlide` on `n` slides return to the starting slide. */
  lemma {:induction false} NextCycles(current: int, n: nat)
    requires 0 <= current < n
    ensures NextRepeated(Num(current), n, n) == Num(current)
  {
    NextRepeatedWraps(current, n, n);
    Arithmetic.DivModUnique(current + n, 1, n, current);
  }

  /** The number of set flags. */
  function CountActive(flags: seq<bool>): nat {
    if flags == [] then 0 else (if flags[0] then 1 else 0) + CountActive(flags[1..])
  }

  /** Flags set exactly at position `k` have exactly one set flag when `k` is in range, none otherwise. */
  lemma {:induction false} OnlyOneActive(flags: seq<bool>, k: int)
    requires forall i :: 0 <= i < |flags| ==> flags[i] == (i == k)
    ensures CountActive(flags) == if 0 <= k < |flags| then 1 else 0
  {
    if flags != [] {
      OnlyOneActive(flags[1..], k - 1);
    }
  }

  /** The active flags `generateSlides` creates: only the first is set. */
  function FirstActive(n: nat): (r: seq<bool>)
    ensures |r| == n
    ensures forall i :: 0 <= i < n ==> r[i] == (i == 0)
  {
    seq(n, i => i == 0)
  }

  /** One more slide adds one more flag, set only when it is the first. */
  lemma FirstActiveGrows(n: nat)
    ensures FirstActive(n + 1) == FirstActive(n) + [n == 0]
  {
    assert FirstActive(n + 1)[..n] == FirstActive(n);
  }

  class NewsCarousel {
    /** The news item each slide shows. */
    var items: seq<NewsItem>
    /** The "active" flag of each slide. */
    var slides: seq<bool>
    /** The "active" flag of each navigation dot. */
    var dots: seq<bool>
    var currentSlide: JsNumber
    /** Whether the 10-second auto-advance interval is registered. */
    var autoAdvancing: bool

    /** One slide and one dot per item, and exactly the slide and dot at `currentSlide` are active. */
    ghost predicate Valid()
      reads this
    {
      && |slides| == |items|
      && |dots| == |slides|
      && (forall i :: 0 <= i < |slides| ==> slides[i] == (currentSlide == Num(i)))
      && (forall i :: 0 <= i < |dots| ==> dots[i] == (currentSlide == Num(i)))
    }

    /** `new NewsCarousel(...)`: no slides yet, slide 0 current, then `init`. */
    constructor (news: seq<NewsItem>)
      ensures Valid()
      ensures items == Latest(news)
      ensures currentSlide == Num(0)
      ensures autoAdvancing
    {
      items, slides, dots := [], [], [];
      currentSlide := Num(0);
      autoAdvancing := false;
      new;
      Init(news);
    }

    /** `init`: generate the slides, start auto-advance, show slide 0. */
    method Init(news: seq<NewsItem>)
      requires items == [] && slides == [] && dots == []
      modifies this
      ensures Valid()
      ensures items == Latest(news)
      ensures currentSlide == Num(0)
      ensures autoAdvancing
    {
      GenerateSlides(news);
      assert |slides| == |items| == |dots|;
      StartAutoAdvance();
      ShowSlide(Num(0));
    }

    /** Appends one slide and one dot per item of `Latest(news)`; only the first new ones are active. */
    method GenerateSlides(news: seq<NewsItem>)
      modifies this
      ensures items == old(items) + Latest(news)
      ensures slides == old(slides) + FirstActive(|Latest(news)|)
      ensures dots == old(dots) + FirstActive(|Latest(news)|)
      ensures currentSlide == old(currentSlide) && autoAdvancing == old(autoAdvancing)
    {
      AddSlides(Latest(news));
    }

    /** The `forEach` of `generateSlides`: one slide and one dot per item, only the first new ones active. */
    method AddSlides(newsItems: seq<NewsItem>)
      modifies this
      ensures items == old(items) + newsItems
      ensures slides == old(slides) + FirstActive(|newsItems|)
      ensures dots == old(dots) + FirstActive(|newsItems|)
      ensures currentSlide == old(currentSlide) && autoAdvancing == old(autoAdvancing)
    {
      var index := 0;
      while index < |newsItems|
        invariant 0 <= index <= |newsItems|
        invariant items == old(items) + newsItems[..index]
        invariant slides == old(slides) + FirstActive(index)
        invariant dots == old(dots) + FirstActive(index)
        invariant currentSlide == old(currentSlide) && autoAdvancing == old(autoAdvancing)
      {
        assert newsItems[..index + 1] == newsItems[..index] + [newsItems[index]];
        FirstActiveGrows(index);
        items := items + [newsItems[index]];
        slides := slides + [index == 0];
        dots := dots + [index == 0];
        index := index + 1;
      }
      assert newsItems[..index] == newsItems;
    }

    /**
     * Marks slide `i` and dot `i` active exactly when `i == idx` and records
     * `idx` as the current slide, without normalising it.
     */
    method ShowSlide(idx: JsNumber)
      modifies this
      ensures currentSlide == idx
      ensures items == old(items) && autoAdvancing == old(autoAdvancing)
      ensures |slides| == |old(slides)| && |dots| == |old(dots)|
      ensures forall i :: 0 <= i < |slides| ==> slides[i] == (idx == Num(i))
      ensures forall i :: 0 <= i < |dots| ==>
        dots[i] == if i < |slides| then idx == Num(i) else old(dots)[i]
    {
      var i := 0;
      while i < |slides|
        invariant 0 <= i <= |slides| == |old(slides)|
        invariant |dots| == |old(dots)|
        invariant items == old(items) && autoAdvancing == old(autoAdvancing)
        invariant forall j :: 0 <= j < i ==> slides[j] == (idx == Num(j))
        invariant forall j :: i <= j < |slides| ==> slides[j] == old(slides)[j]
        invariant forall j :: 0 <= j < |dots| ==>
          dots[j] == if j < i then idx == Num(j) else old(dots)[j]
      {
        slides := slides[i := idx == Num(i)];
        if i < |dots| {
          dots := dots[i := idx == Num(i)];
        }
        i := i + 1;
      }
      currentSlide := idx;
    }

    /** `nextSlide`: wraps around to the first slide; with no slides the index becomes NaN. */
    method NextSlide()
      requires Valid()
      modifies this
      ensures Valid()
      ensures currentSlide == NextIndex(old(currentSlide), |old(slides)|)
      ensures items == old(items) && autoAdvancing == old(autoAdvancing)
    {
      var idx := Rem(Add(currentSlide, 1), |slides|);
      ShowSlide(idx);
    }

    /** `prevSlide`: wraps around to the last slide; with no slides the index becomes NaN. */
    method PrevSlide()
      requires Valid()
      modifies this
      ensures Valid()
      ensures currentSlide == PrevIndex(old(currentSlide), |old(slides)|)
      ensures items == old(items) && autoAdvancing == old(autoAdvancing)
    {
      var idx := Rem(Add(Add(currentSlide, -1), |slides|), |slides|);
      ShowSlide(idx);
    }

    /** `startAutoAdvance`: registers the 10-second interval. */
    method StartAutoAdvance()
      modifies this`autoAdvancing
      ensures autoAdvancing
    {
      autoAdvancing := true;
    }

    /** One firing of the auto-advance interval: the same step as the next button. */
    method AutoAdvanceTick()
      requires Valid()
      modifies this
      ensures Valid()
      ensures currentSlide == if old(autoAdvancing) then NextIndex(old(currentSlide), |old(slides)|)
                              else old(currentSlide)
      ensures items == old(items) && autoAdvancing == old(autoAdvancing)
    {
      if autoAdvancing {
        NextSlide();
      }
    }

    /** `stopAutoAdvance`: cancels the interval if one was registered. */
    method StopAutoAdvance()
      modifies this`autoAdvancing
      ensures !autoAdvancing
    {
      if autoAdvancing {
        autoAdvancing := false;
      }
    }

    /** While the current index is a slide index, exactly one slide and one dot are active. */
    lemma ExactlyOneActive()
      requires Valid() && currentSlide.Num? && 0 <= currentSlide.value < |slides|
      ensures CountActive(slides) == 1 && CountActive(dots) == 1
    {
      OnlyOneActive(slides, currentSlide.value);
      OnlyOneActive(dots, currentSlide.value);
    }
  }
}
