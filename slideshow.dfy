/** The slideshow's navigation state machine.
 *
 *  An `ImageSlideshow` holds the discovered image list, the current index,
 *  the auto-play flag and the advance delay, together with the ids of its two
 *  one-shot timers: the auto-advance timer (`after(delay, next_image)`) and
 *  the resize debounce timer (`after(100, display_image)`). The Tk root's
 *  queue of pending `after` callbacks is part of the state, as a map from
 *  timer id to the callback it will run, so that "at most one advance timer
 *  and at most one resize timer are pending" is an invariant the methods are
 *  proved to keep rather than something built into the representation.
 *
 *  Loading an image is not modelled; each method that displays an image
 *  takes `loaded`, the outcome of that load.
 */
module Slideshow {
  import opened PathOrder
  import opened Discovery

  datatype Option<T> = None | Some(value: T)

  /** What a pending `after` callback will run when it falls due. */
  datatype Callback =
    | Advance    // next_image, armed by display_image while auto-playing
    | Redisplay  // display_image, armed by on_resize
    | FirstShow  // display_image, armed once by run

  type TimerId = nat

  /** `after_cancel(id)` on the pending queue: the callback with that id, if
   *  it is still pending, is dropped; an id that already fired is a no-op. */
  function Cancel(pending: map<TimerId, Callback>, id: Option<TimerId>): (r: map<TimerId, Callback>)
    ensures forall t :: t in r <==> t in pending && id != Some(t)
    ensures forall t :: t in r ==> r[t] == pending[t]
  {
    if id.Some? then pending - {id.value} else pending
  }

  /** The timers of one kind among the pending callbacks. */
  function TimersOf(pending: map<TimerId, Callback>, kind: Callback): set<TimerId>
  {
    set t | t in pending && pending[t] == kind
  }

  /** `(i + 1) % n`: the image after `i`, wrapping from the last to the
   *  first. */
  function NextIndex(i: nat, n: nat): (r: nat)
    requires i < n
    ensures r < n
    ensures i == n - 1 ==> r == 0
    ensures i < n - 1 ==> r == i + 1
  {
    (i + 1) % n
  }

  /** `(i - 1) % n`. Python's `%` floors; for a positive divisor it agrees
   *  with Dafny's Euclidean `%`, so the result is never negative. */
  function PrevIndex(i: nat, n: nat): (r: nat)
    requires i < n
    ensures r < n
    ensures i == 0 ==> r == n - 1
    ensures i > 0 ==> r == i - 1
  {
    (i - 1) % n
  }

  /** Going forward then back, or back then forward, returns to the same
   *  image. */
  lemma NextPreviousInverse(i: nat, n: nat)
    requires i < n
    ensures PrevIndex(NextIndex(i, n), n) == i
    ensures NextIndex(PrevIndex(i, n), n) == i
  {
  }

  /** The index reached from `i` after `k` successive advances. */
  function Forward(i: nat, k: nat, n: nat): (r: nat)
    requires i < n
    ensures r < n
  {
    if k == 0 then i else NextIndex(Forward(i, k - 1, n), n)
  }

  /** Within one round of the list, `k` advances from `i` land on
   *  `i + k`, wrapping once past the end. */
  lemma {:induction false} ForwardWithinCycle(i: nat, k: nat, n: nat)
    requires i < n && k <= n
    ensures Forward(i, k, n) == if i + k < n then i + k else i + k - n
  {
    if k > 0 {
      ForwardWithinCycle(i, k - 1, n);
    }
  }

  /** Auto-play shows every image: from any image, every other image is
   *  reached within fewer than `n` advances, and `n` advances come back to
   *  the start. */
  lemma EveryImageReached(i: nat, j: nat, n: nat)
    requires i < n && j < n
    ensures Forward(i, if i <= j then j - i else j + n - i, n) == j
    ensures Forward(i, n, n) == i
  {
    ForwardWithinCycle(i, if i <= j then j - i else j + n - i, n);
    ForwardWithinCycle(i, n, n);
  }

  /** `--delay` seconds to the milliseconds the slideshow is built with. */
  function DelayMs(seconds: int): (ms: int)
    ensures ms % 1000 == 0 && ms / 1000 == seconds
    ensures ms > 0 <==> seconds > 0
    ensures ms == 0 <==> seconds == 0
  {
    seconds * 1000
  }

  class ImageSlideshow {
    const imagePaths: seq<Path>
    /** Advance delay in milliseconds; auto-advance needs it positive. */
    const delay: int
    var currentIndex: nat
    var autoPlay: bool
    /** Id of the last advance timer armed, cleared by display_image. */
    var timerId: Option<TimerId>
    /** Id of the last resize timer armed; never cleared. */
    var resizeTimerId: Option<TimerId>
    /** The Tk root's pending `after` callbacks and the next id it hands out. */
    var pending: map<TimerId, Callback>
    var nextTimerId: TimerId
    /** The main loop is running (between run and quit). */
    var running: bool

    ghost predicate Valid()
      reads this
    {
      |imagePaths| > 0 && currentIndex < |imagePaths| &&
      (forall t :: t in pending ==> t < nextTimerId) &&
      (timerId.Some? ==> timerId.value < nextTimerId &&
                         (timerId.value in pending ==> pending[timerId.value] == Advance)) &&
      (resizeTimerId.Some? ==> resizeTimerId.value < nextTimerId &&
                               (resizeTimerId.value in pending ==> pending[resizeTimerId.value] == Redisplay)) &&
      (forall t :: t in pending && pending[t] == Advance ==> timerId == Some(t) && autoPlay && delay > 0) &&
      (forall t :: t in pending && pending[t] == Redisplay ==> resizeTimerId == Some(t))
    }

    /** The pending auto-advance timers: at most one, and only while
     *  auto-playing with a positive delay. */
    function AdvanceTimers(): (r: set<TimerId>)
      reads this
      ensures Valid() ==> |r| <= 1
      ensures Valid() && r != {} ==> autoPlay && delay > 0 && timerId.Some? && r == {timerId.value}
    {
      var r := TimersOf(pending, Advance);
      assert Valid() && r != {} ==> timerId.Some? && r == {timerId.value};
      r
    }

    /** The pending resize timers: at most one. */
    function ResizeTimers(): (r: set<TimerId>)
      reads this
      ensures Valid() ==> |r| <= 1
      ensures Valid() && r != {} ==> resizeTimerId.Some? && r == {resizeTimerId.value}
    {
      var r := TimersOf(pending, Redisplay);
      assert Valid() && r != {} ==> resizeTimerId.Some? && r == {resizeTimerId.value};
      r
    }

    /** The timer state display_image leaves, from a queue `queue` and the
     *  timer ids before it ran: the old advance timer cancelled and, when the
     *  image was shown while auto-playing with a positive delay, exactly one
     *  fresh advance timer armed. */
    twostate predicate TimersAfterDisplay(loaded: bool, queue: map<TimerId, Callback>)
      reads this
    {
      var arm := loaded && autoPlay && delay > 0;
      timerId == (if arm then Some(old(nextTimerId)) else None) &&
      nextTimerId == old(nextTimerId) + (if arm then 1 else 0) &&
      pending == (if arm then Cancel(queue, old(timerId))[old(nextTimerId) := Advance]
                  else Cancel(queue, old(timerId))) &&
      AdvanceTimers() == (if arm then {old(nextTimerId)} else {}) &&
      resizeTimerId == old(resizeTimerId) && running == old(running)
    }

    constructor (images: seq<Path>, delay: int)
      requires |images| > 0
      ensures Valid()
      ensures imagePaths == images && this.delay == delay
      ensures currentIndex == 0 && autoPlay == (delay > 0)
      ensures timerId == None && resizeTimerId == None
      ensures pending == map[] && nextTimerId == 0 && !running
    {
      imagePaths := images;
      this.delay := delay;
      currentIndex := 0;
      autoPlay := delay > 0;
      timerId := None;
      resizeTimerId := None;
      pending := map[];
      nextTimerId := 0;
      running := false;
    }

    /** Setting up a slideshow: discover the images, and exit (status 1)
     *  when there are none, which is the null result here. */
    static method Launch(tree: seq<Path>, order: seq<string>, delay: int) returns (show: ImageSlideshow?)
      requires IsEnumeration(order)
      ensures show == null <==> forall p :: p in tree ==> !IsImagePath(p)
      ensures show != null ==> fresh(show) && show.Valid() && IsDiscoveryOf(show.imagePaths, tree)
      ensures show != null ==> show.delay == delay && show.currentIndex == 0 && show.autoPlay == (delay > 0)
      ensures show != null ==> show.AdvanceTimers() == {} && show.ResizeTimers() == {} && !show.running
      ensures show != null ==> show.pending == map[] && show.nextTimerId == 0
      ensures show != null ==> show.timerId == None && show.resizeTimerId == None
    {
      var found := FindImages(tree, order);
      if |found| == 0 {
        forall p | p in tree
          ensures !IsImagePath(p)
        {
          assert p !in found;
        }
        show := null;
      } else {
        assert found[0] in found;
        show := new ImageSlideshow(found, delay);
      }
    }

    /** The image entries of `tree`, each as often as listed, in ascending
     *  path order. `order` is the iteration order of the extension set. */
    static method FindImages(tree: seq<Path>, order: seq<string>) returns (imagePaths: seq<Path>)
      requires IsEnumeration(order)
      ensures Sorted(imagePaths)
      ensures forall q :: multiset(imagePaths)[q] == if IsImagePath(q) then multiset(tree)[q] else 0
      ensures forall p :: p in imagePaths <==> p in tree && IsImagePath(p)
    {
      var found: seq<Path> := [];
      for k := 0 to |order|
        invariant found == Collected(tree, order, k)
      {
        var ext := order[k];
        found := found + Glob(tree, ext);
        found := found + Glob(tree, Upper(ext));
      }
      imagePaths := SortPaths(found);
      EnumerationIsDistinctLowerDotWords(order);
      forall q
        ensures multiset(imagePaths)[q] == if IsImagePath(q) then multiset(tree)[q] else 0
      {
        CollectedCount(tree, order, |order|, q);
        MatchesAllIsImage(q, order);
      }
    }

    /** Shows the current image. Any pending advance timer is cancelled
     *  first. If the image loads, a new advance timer is armed exactly when
     *  auto-play is on with a positive delay. If it does not, the index
     *  steps to the next image; slideshow.py then displays that image
     *  straight away, which here is the caller's next call. */
    method DisplayImage(loaded: bool)
      requires Valid()
      modifies this
      ensures Valid()
      ensures autoPlay == old(autoPlay)
      ensures TimersAfterDisplay(loaded, old(pending))
      ensures loaded ==> currentIndex == old(currentIndex)
      ensures !loaded ==> currentIndex == NextIndex(old(currentIndex), |imagePaths|)
    {
      if timerId.Some? {
        pending := Cancel(pending, timerId);
        timerId := None;
      }
      if loaded {
        if autoPlay && delay > 0 {
          timerId := Some(nextTimerId);
          pending := pending[nextTimerId := Advance];
          nextTimerId := nextTimerId + 1;
        }
      } else {
        currentIndex := NextIndex(currentIndex, |imagePaths|);
      }
      assert TimersOf(pending, Advance) == if loaded && autoPlay && delay > 0 then {old(nextTimerId)} else {};
    }

    /** Right arrow, or the advance timer: one image forward, wrapping from
     *  the last to the first, then display it. */
    method NextImage(loaded: bool)
      requires Valid()
      modifies this
      ensures Valid()
      ensures autoPlay == old(autoPlay)
      ensures TimersAfterDisplay(loaded, old(pending))
      ensures loaded ==> currentIndex == NextIndex(old(currentIndex), |imagePaths|)
      ensures !loaded ==> currentIndex == NextIndex(NextIndex(old(currentIndex), |imagePaths|), |imagePaths|)
    {
      currentIndex := NextIndex(currentIndex, |imagePaths|);
      DisplayImage(loaded);
    }

    /** Left arrow: one image back, wrapping from the first to the last, then
     *  display it. When that image fails to load, the skip forward lands on
     *  the image shown before. */
    method PreviousImage(loaded: bool)
      requires Valid()
      modifies this
      ensures Valid()
      ensures autoPlay == old(autoPlay)
      ensures TimersAfterDisplay(loaded, old(pending))
      ensures loaded ==> currentIndex == PrevIndex(old(currentIndex), |imagePaths|)
      ensures !loaded ==> currentIndex == old(currentIndex)
    {
      currentIndex := PrevIndex(currentIndex, |imagePaths|);
      DisplayImage(loaded);
    }

    /** Space: flip between auto-play and manual. Switching on with a
     *  positive delay redisplays the current image, which re-arms the
     *  advance timer; otherwise the advance timer is cancelled and the index
     *  stays. */
    method ToggleAutoPlay(loaded: bool)
      requires Valid()
      modifies this
      ensures Valid()
      ensures autoPlay == !old(autoPlay)
      ensures autoPlay && delay > 0 ==> TimersAfterDisplay(loaded, old(pending))
      ensures autoPlay && delay > 0 && loaded ==> currentIndex == old(currentIndex)
      ensures autoPlay && delay > 0 && !loaded ==> currentIndex == NextIndex(old(currentIndex), |imagePaths|)
      ensures !(autoPlay && delay > 0) ==>
                currentIndex == old(currentIndex) && timerId == None &&
                pending == Cancel(old(pending), old(timerId)) && AdvanceTimers() == {} &&
                nextTimerId == old(nextTimerId) && resizeTimerId == old(resizeTimerId) &&
                running == old(running)
    {
      autoPlay := !autoPlay;
      if autoPlay && delay > 0 {
        DisplayImage(loaded);
      } else {
        if timerId.Some? {
          pending := Cancel(pending, timerId);
          timerId := None;
        }
        assert TimersOf(pending, Advance) == {};
      }
    }

    /** A window resize: only a resize of the image area counts. The pending
     *  resize timer is cancelled and a new one armed, so redisplays are
     *  debounced to one. */
    method OnResize(fromImageLabel: bool)
      requires Valid()
      modifies this
      ensures Valid()
      ensures !fromImageLabel ==> unchanged(this)
      ensures fromImageLabel ==>
                resizeTimerId == Some(old(nextTimerId)) &&
                nextTimerId == old(nextTimerId) + 1 &&
                pending == Cancel(old(pending), old(resizeTimerId))[old(nextTimerId) := Redisplay] &&
                ResizeTimers() == {old(nextTimerId)}
      ensures currentIndex == old(currentIndex) && autoPlay == old(autoPlay)
      ensures timerId == old(timerId) && running == old(running)
      ensures AdvanceTimers() == old(AdvanceTimers())
    {
      if !fromImageLabel {
        return;
      }
      if resizeTimerId.Some? {
        pending := Cancel(pending, resizeTimerId);
      }
      resizeTimerId := Some(nextTimerId);
      pending := pending[nextTimerId := Redisplay];
      nextTimerId := nextTimerId + 1;
      assert TimersOf(pending, Redisplay) == {old(nextTimerId)};
      assert TimersOf(pending, Advance) == TimersOf(old(pending), Advance);
    }

    /** Escape or q: cancel both timers and leave the main loop. The timer
     *  ids are left as they were. */
    method Quit()
      requires Valid()
      modifies this
      ensures Valid()
      ensures pending == Cancel(Cancel(old(pending), old(timerId)), old(resizeTimerId))
      ensures AdvanceTimers() == {} && ResizeTimers() == {}
      ensures !running
      ensures currentIndex == old(currentIndex) && autoPlay == old(autoPlay)
      ensures timerId == old(timerId) && resizeTimerId == old(resizeTimerId)
      ensures nextTimerId == old(nextTimerId)
    {
      if timerId.Some? {
        pending := Cancel(pending, timerId);
      }
      if resizeTimerId.Some? {
        pending := Cancel(pending, resizeTimerId);
      }
      running := false;
      assert TimersOf(pending, Advance) == {};
      assert TimersOf(pending, Redisplay) == {};
    }

    /** Starting the main loop, with the first display due shortly. */
    method Run()
      requires Valid()
      modifies this
      ensures Valid() && running
      ensures pending == old(pending)[old(nextTimerId) := FirstShow]
      ensures nextTimerId == old(nextTimerId) + 1
      ensures currentIndex == old(currentIndex) && autoPlay == old(autoPlay)
      ensures timerId == old(timerId) && resizeTimerId == old(resizeTimerId)
      ensures AdvanceTimers() == old(AdvanceTimers()) && ResizeTimers() == old(ResizeTimers())
    {
      pending := pending[nextTimerId := FirstShow];
      nextTimerId := nextTimerId + 1;
      running := true;
      assert TimersOf(pending, Advance) == TimersOf(old(pending), Advance);
      assert TimersOf(pending, Redisplay) == TimersOf(old(pending), Redisplay);
    }

    /** The main loop runs a pending callback that has fallen due: the
     *  advance timer runs next_image, the other two run display_image. */
    method Fire(t: TimerId, loaded: bool)
      requires Valid() && running && t in pending
      modifies this
      ensures Valid()
      ensures autoPlay == old(autoPlay)
      ensures TimersAfterDisplay(loaded, old(pending) - {t})
      ensures old(pending[t]) == Advance && loaded ==>
                currentIndex == NextIndex(old(currentIndex), |imagePaths|)
      ensures old(pending[t]) == Advance && !loaded ==>
                currentIndex == NextIndex(NextIndex(old(currentIndex), |imagePaths|), |imagePaths|)
      ensures old(pending[t]) != Advance && loaded ==> currentIndex == old(currentIndex)
      ensures old(pending[t]) != Advance && !loaded ==>
                currentIndex == NextIndex(old(currentIndex), |imagePaths|)
    {
      var callback := pending[t];
      pending := pending - {t};
      if callback == Advance {
        NextImage(loaded);
      } else {
        DisplayImage(loaded);
      }
    }
  }

  /** The command line's `--delay` (seconds) becomes the slideshow's delay
   *  in milliseconds; the slideshow is set up and its main loop started. */
  method RunFromCommandLine(tree: seq<Path>, order: seq<string>, seconds: int)
    returns (show: ImageSlideshow?)
    requires IsEnumeration(order)
    ensures show == null <==> forall p :: p in tree ==> !IsImagePath(p)
    ensures show != null ==> fresh(show) && show.Valid() && show.running
    ensures show != null ==> show.delay == DelayMs(seconds) && show.autoPlay == (seconds > 0)
    ensures show != null ==> show.currentIndex == 0 && IsDiscoveryOf(show.imagePaths, tree)
    ensures show != null ==> show.pending == map[0 := FirstShow] && show.nextTimerId == 1
    ensures show != null ==> show.timerId == None && show.resizeTimerId == None
  {
    show := ImageSlideshow.Launch(tree, order, DelayMs(seconds));
    if show != null {
      show.Run();
    }
  }
}
