# Folder slideshow: image discovery and navigation, in Dafny

This project models the core of `slideshow.py`, a Tk image slideshow that
finds every image below a root directory and shows them one at a time, with
manual navigation (arrow keys) and optional auto-advance.

Two parts of `ImageSlideshow` are modelled:

- **Discovery** (`find_images`). For each supported extension the program
  globs the tree recursively for `*<ext>` and for `*<EXT>`, concatenates the
  results and sorts them. Here the directory walk is an input: `tree` lists
  every entry below the root, each entry as its sequence of path segments.
  The iteration order of the extension set is an input as well, because a
  Python set has no fixed order. `FindImages` is proved to return the image
  entries, each as often as it is listed, in ascending path order. A sorted
  arrangement of a multiset of paths is unique (`SortedUnique`), so the
  result does not depend on the set's order or on the sorting algorithm
  (`DiscoveryDeterministic`). Matching is case-sensitive and anchored at the
  end of the name. Exactly sixteen patterns are used, and no name matches
  two of them, so no entry is collected twice (`CollectedCount`).
- **Navigation** (`ImageSlideshow` with `current_index`, `auto_play`,
  `delay`, `timer_id`, `resize_timer_id`). The class keeps these fields. It
  also holds the Tk root's queue of pending `after` callbacks, as a map from
  timer id to the callback that id will run. The object invariant `Valid()`
  says that the index is in range and that every pending advance callback is
  the one `timer_id` names, armed while auto-play is on with a positive delay.
  It also says that every pending resize callback is the one
  `resize_timer_id` names. So at most one advance timer and at most one
  resize timer are ever pending (`AdvanceTimers`, `ResizeTimers`). Every
  method is proved to keep this invariant.

Each display takes `loaded`, the outcome of decoding the image. On success
the advance timer is re-armed. On failure the index steps forward, as the
program does with its `except` branch.

Three details of `slideshow.py` shape the model:

- Paths are ordered as `pathlib` orders them: segment by segment, each
  segment by code point. This is not the order of the full path strings.
  For example `a/b` sorts before `a-b/x` here, while the string order puts
  `a-b/x` first.
- An extension is recognised only in all-lower-case form (`.jpg`) or
  all-upper-case form (`.JPG`). The match is case-sensitive, so
  `photo.Jpg` is not found (`MixedCaseNotFound`).
- The delay is held in milliseconds (`--delay` seconds × 1000).

Files: `path_order.dfy` (module `PathOrder`: path order and sorting),
`discovery.dfy` (module `Discovery`: extension patterns, glob, counting
lemmas), `slideshow.dfy` (module `Slideshow`: index arithmetic, timers and
the `ImageSlideshow` class).

## Model

| member | source | states |
|---|---|---|
| `PathOrder.TextLess` | slideshow.py:91 | stands for `str` comparison, strict lexicographic order by code point with a proper prefix first: a string never sorts before itself; transitivity and totality are the lemmas below |
| `PathOrder.PathLess` | slideshow.py:91 | stands for `PurePath.__lt__`, segment-by-segment comparison of the path parts: a path never sorts before itself; transitivity and totality are the lemmas below |
| `PathOrder.TextLessIrreflexive` | slideshow.py:91 | no path segment sorts before itself |
| `PathOrder.TextLessTransitive` | slideshow.py:91 | the segment order is transitive |
| `PathOrder.TextLessTotal` | slideshow.py:91 | any two distinct segments are ordered one way or the other |
| `PathOrder.PathLessIrreflexive` | slideshow.py:91 | no path sorts before itself |
| `PathOrder.PathLessTransitive` | slideshow.py:91 | the path order is transitive |
| `PathOrder.PathLessTotal` | slideshow.py:91 | any two distinct paths are ordered one way or the other, so sorting is well defined |
| `PathOrder.PathAtMostTransitive` | slideshow.py:91 | the non-strict path order is transitive |
| `PathOrder.PathAtMostAntisymmetric` | slideshow.py:91 | two paths each at most the other are equal |
| `PathOrder.SortedHeadIsLeast` | slideshow.py:91 | the first element of an ascending list is at most each of its elements |
| `PathOrder.SortedHeadsEqual` | slideshow.py:90-91 | two non-empty ascending lists holding the same paths start with the same path |
| `PathOrder.SortedUnique` | slideshow.py:90-91 | two ascending lists holding the same paths the same number of times are equal, so the sorted order is consistent |
| `PathOrder.InsertKeepsSorted` | slideshow.py:91 | inserting a path before the first greater element keeps a list ascending |
| `PathOrder.InsertionPoint` | slideshow.py:91 | the returned position follows every element at most the path and precedes the first greater one |
| `PathOrder.SortPaths` | slideshow.py:91 | the result is ascending and is a permutation of the input |
| `Discovery.UpperChar` | slideshow.py:88 | lower-case ASCII letters map to their upper-case letter; every other character is unchanged |
| `Discovery.Upper` | slideshow.py:88 | `ext.upper()` keeps the length and upper-cases each character |
| `Discovery.ExtensionsAreLowerDotWords` | slideshow.py:34 | every supported extension is a dot followed by lower-case letters |
| `Discovery.EnumerationIsDistinctLowerDotWords` | slideshow.py:34 | iterating over the extension set visits pairwise different dot-and-lower-case words |
| `Discovery.Glob` | slideshow.py:86-88 | stands for `rglob('*<pattern>')` over the listed tree: an entry is in the result exactly when it is listed and its last segment ends with the pattern, case-sensitively (`Matches`); counts are in `GlobCount` |
| `Discovery.GlobCount` | slideshow.py:86-88 | a recursive glob yields each matching entry as often as it is listed, and nothing else |
| `Discovery.DotWordSuffixUnique` | slideshow.py:86-88 | a name ends with at most one dot-and-no-dot suffix |
| `Discovery.PatternsDistinct` | slideshow.py:84-88 | the sixteen glob patterns (each extension as written and upper-cased) are pairwise different |
| `Discovery.PatternIsDotWord` | slideshow.py:84-88 | each glob pattern is a dot followed by no further dot |
| `Discovery.MatchesOnePattern` | slideshow.py:84-88 | an entry matches at most one of the sixteen patterns |
| `Discovery.AmongWitness` | slideshow.py:84-88 | an entry matched by the patterns of the first k rounds matches a pattern of one particular round |
| `Discovery.AmongFromWitness` | slideshow.py:84-88 | an entry that matches a pattern of one of the first k rounds is matched by those rounds |
| `Discovery.RoundIsDisjoint` | slideshow.py:84-88 | one round of the extension loop collects only entries no earlier round or pattern collected |
| `Discovery.CollectedCount` | slideshow.py:82-88 | after k rounds each entry occurs as often as listed if it matches a pattern used so far, otherwise not at all |
| `Discovery.MatchesAllIsImage` | slideshow.py:84-88 | after all rounds, the patterns used are exactly the supported extensions in lower or upper case |
| `Discovery.DiscoveryDeterministic` | slideshow.py:84-91 | discovery has a single possible result for a given tree, whatever the set iteration order |
| `Discovery.MixedCaseNotFound` | slideshow.py:86-88 | a mixed-case extension such as `.Jpg` is not an image |
| `Discovery.UpperCaseFound` | slideshow.py:88 | an all-upper-case extension such as `.JPG` is an image |
| `Slideshow.Cancel` | slideshow.py:100-102 | `after_cancel` drops exactly the named pending callback; a fired id is a no-op; other callbacks are kept |
| `Slideshow.NextIndex` | slideshow.py:150 | the index stays in range, steps up by one, and goes from the last image to 0 |
| `Slideshow.PrevIndex` | slideshow.py:155 | the index stays in range, steps down by one, and goes from 0 to the last image |
| `Slideshow.NextPreviousInverse` | slideshow.py:148-156 | next then previous, and previous then next, both restore the index |
| `Slideshow.Forward` | slideshow.py:139-151 | any number of successive advances keeps the index in range |
| `Slideshow.ForwardWithinCycle` | slideshow.py:148-151 | k advances from i (k at most n) land on i + k, wrapping once past the end |
| `Slideshow.EveryImageReached` | slideshow.py:139-151 | auto-advance reaches every image in fewer than n steps, and n steps return to the start |
| `Slideshow.DelayMs` | slideshow.py:264-265 | the millisecond delay is a whole number of seconds, equal to the given seconds, and positive (auto-play) exactly when the seconds are |
| `Slideshow.ImageSlideshow.AdvanceTimers` | slideshow.py:99-141 | in a valid state at most one advance timer is pending. It is the one `timer_id` names, and only while auto-play is on with a positive delay |
| `Slideshow.ImageSlideshow.ResizeTimers` | slideshow.py:184-190 | in a valid state at most one resize timer is pending, the one `resize_timer_id` names |
| `Slideshow.ImageSlideshow.constructor` | slideshow.py:25-31 | the index starts at 0, `auto_play` is `delay > 0`, and no timer is armed |
| `Slideshow.ImageSlideshow.Launch` | slideshow.py:36-43 | no slideshow (exit) exactly when the tree holds no image. Otherwise the state is valid, the list is the discovery result, the index is 0, `auto_play` is `delay > 0`, both timer ids are `None`, and no callback is pending |
| `Slideshow.ImageSlideshow.FindImages` | slideshow.py:80-92 | the result is ascending and holds each image entry of the tree as often as listed, and nothing else |
| `Slideshow.ImageSlideshow.DisplayImage` | slideshow.py:94-146 | the old advance timer is cancelled. On a load, one fresh advance timer is armed exactly when auto-play is on with a positive delay, and the index is kept. On a failure the index moves to the next image |
| `Slideshow.ImageSlideshow.NextImage` | slideshow.py:148-151 | the index moves to `(i+1) mod n` (one more step if that image fails), and the timers are as after a display |
| `Slideshow.ImageSlideshow.PreviousImage` | slideshow.py:153-156 | the index moves to `(i-1) mod n`; if that image fails, the skip lands back on `i` |
| `Slideshow.ImageSlideshow.ToggleAutoPlay` | slideshow.py:158-171 | `auto_play` is negated. When it is now on with a positive delay, the image is redisplayed and the timer re-armed. Otherwise no advance timer is pending, `timer_id` is cleared and the index is unchanged |
| `Slideshow.ImageSlideshow.OnResize` | slideshow.py:178-190 | only image-area resizes count. The old resize timer is cancelled and one new one armed, and navigation state is untouched |
| `Slideshow.ImageSlideshow.Quit` | slideshow.py:192-199 | both timers are cancelled and the main loop stops. The ids are not reset |
| `Slideshow.ImageSlideshow.Run` | slideshow.py:201-215 | the first display is scheduled and the main loop runs. Nothing else changes |
| `Slideshow.ImageSlideshow.Fire` | slideshow.py:139-151 | a due advance timer runs next_image. A due resize or first-display timer (scheduled at lines 190 and 214) runs display_image. The invariant is kept |
| `Slideshow.RunFromCommandLine` | slideshow.py:264-269 | the delay is seconds × 1000 and `auto_play` is `seconds > 0`. Unless there are no images, the main loop runs with exactly one callback pending, the first display, and both timer ids `None` |

## Left out

- The Tk window, labels, key bindings, fullscreen toggling (`toggle_fullscreen`), the info-label text and `update_idletasks`. These are calls into the toolkit, and key presses become method calls here.
- Image decoding, thumbnail resizing and the window-size fallback (PIL). Each load is the boolean `loaded`.
- The real directory walk. `rglob` is modelled by `Glob` over the input listing `tree`, and that listing includes directories, since `rglob` matches them too. Case-sensitive glob matching is assumed, as on a POSIX platform.
- The event loop and its timing. Delays (`delay` ms, 100 ms) are not modelled. `Fire` runs any pending callback when it falls due, in whatever order the loop chooses.
- DisplayImage: the skip on a load failure is one step per call. `slideshow.py` calls `next_image` and so displays again at once, recursing without bound if every image fails. Here that further display is the caller's next `DisplayImage` call.
- SortPaths: sorts into a new sequence instead of sorting the list in place. The result is the same, because the sorted order is unique (`SortedUnique`).
- Upper: handles ASCII letters only. `str.upper` covers all of Unicode, but the extensions are ASCII.
- `argparse`, the directory check in `main` and all printing.
- The guard `if not self.image_paths: return` in `display_image` and the `hasattr` check in `on_resize` are not modelled. The invariant keeps the list non-empty after construction, so they never trigger.
