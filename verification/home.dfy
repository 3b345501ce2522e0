/** The home page's two pure helpers: `constructUrl`, which joins an
    optional base URL and an image path, and the banner carousel's slide
    index (next, previous, the five-second tick, a dot click). */
module Home {
  import opened Wrappers
  import opened Text

  const PlaceholderImage: string := "/images/default-placeholder.png"

  /** JavaScript truthiness of an optional string. */
  predicate Present(s: Option<string>) {
    s.Some? && s.value != ""
  }

  /** `constructUrl(baseUrl, path)`. */
  function ConstructUrl(baseUrl: Option<string>, path: Option<string>): (r: string)
    ensures !Present(path) ==> r == PlaceholderImage
    ensures Present(path) && !Present(baseUrl) ==> StartsWith(r, "/")
    ensures Present(path) && StartsWith(path.value, "/") && !Present(baseUrl) ==> r == path.value
    ensures Present(path) && !StartsWith(path.value, "/") && !Present(baseUrl) ==> r == "/" + path.value
    ensures Present(path) && Present(baseUrl) ==> StartsWith(r, baseUrl.value)
    ensures Present(path) && Present(baseUrl) && StartsWith(path.value, "/") ==> r == baseUrl.value + path.value
    ensures Present(path) && Present(baseUrl) && !StartsWith(path.value, "/") ==> r == baseUrl.value + "/" + path.value
  {
    if !Present(path) then PlaceholderImage
    else if !Present(baseUrl) then
      if StartsWith(path.value, "/") then path.value else "/" + path.value
    else
      if StartsWith(path.value, "/") then baseUrl.value + path.value else baseUrl.value + "/" + path.value
  }

  /** The result always ends with the path, with a `/` put right before
      it when the path does not start with one; without a base a path
      that starts with `/` comes back unchanged. */
  lemma ConstructUrlKeepsPath(baseUrl: Option<string>, path: string)
    requires path != ""
    ensures var r := ConstructUrl(baseUrl, Some(path));
      |r| >= |path| && r[|r| - |path|..] == path
      && (StartsWith(path, "/") && !Present(baseUrl) ==> r == path)
      && (!StartsWith(path, "/") ==> r[|r| - |path| - 1] == '/')
  {
    var r := ConstructUrl(baseUrl, Some(path));
    if Present(baseUrl) {
      if StartsWith(path, "/") {
        assert r == baseUrl.value + path;
      } else {
        assert r == baseUrl.value + "/" + path;
        assert r[|r| - |path| - 1] == '/';
      }
    }
  }

  /** With a base, the result is the base followed by what the same path
      gives without one. */
  lemma ConstructUrlWithBase(baseUrl: string, path: Option<string>)
    requires baseUrl != "" && Present(path)
    ensures ConstructUrl(Some(baseUrl), path) == baseUrl + ConstructUrl(None, path)
  {
  }

  /** Without a base the function is idempotent on its own results. */
  lemma ConstructUrlIdempotent(path: Option<string>)
    requires Present(path)
    ensures ConstructUrl(None, Some(ConstructUrl(None, path))) == ConstructUrl(None, path)
  {
    var r := ConstructUrl(None, path);
    assert StartsWith(r, "/");
  }

  /** The carousel has four slides, numbered 0 to 3. */
  const SlideCount: int := 4

  predicate ValidSlide(i: int) {
    0 <= i < SlideCount
  }

  /** `handleNextSlide` and the interval tick: 3 wraps to 0, anything else
      moves up by one. */
  function NextSlide(i: int): int {
    if i == 3 then 0 else i + 1
  }

  /** `handlePrevSlide`: 0 wraps to 3, anything else moves down by one. */
  function PrevSlide(i: int): int {
    if i == 0 then 3 else i - 1
  }

  /** The interval callback does what the next button does. */
  function Tick(i: int): int {
    NextSlide(i)
  }

  /** `handleDotClick(index)`: the index is taken as given, unchecked. */
  function DotClick(current: int, index: int): int {
    index
  }

  /** On the four slides, next and previous are rotation by one either way. */
  lemma SlidesRotate(i: int)
    requires ValidSlide(i)
    ensures ValidSlide(NextSlide(i)) && NextSlide(i) == (i + 1) % SlideCount
    ensures ValidSlide(PrevSlide(i)) && PrevSlide(i) == (i + SlideCount - 1) % SlideCount
  {
  }

  /** Previous undoes next on every index except -1, the one index next
      sends to 0 without coming from 3. */
  lemma PrevUndoesNext(i: int)
    ensures PrevSlide(NextSlide(i)) == i <==> i != -1
  {
  }

  /** Next undoes previous on every index except 4, which previous sends to 3. */
  lemma NextUndoesPrev(i: int)
    ensures NextSlide(PrevSlide(i)) == i <==> i != 4
  {
  }

  function Iterate(f: int -> int, n: nat, i: int): int
    decreases n
  {
    if n == 0 then i else f(Iterate(f, n - 1, i))
  }

  /** Four steps forward, by button or by timer, come back to the start,
      and no fewer do. */
  lemma FourNextsComeBack(i: int)
    requires ValidSlide(i)
    ensures Iterate(NextSlide, 4, i) == i && Iterate(Tick, 4, i) == i
    ensures forall n: nat :: 0 < n < 4 ==> Iterate(NextSlide, n, i) != i && Iterate(Tick, n, i) != i
  {
    assert Iterate(NextSlide, 1, i) == NextSlide(i) == Iterate(Tick, 1, i);
    assert Iterate(NextSlide, 2, i) == NextSlide(NextSlide(i)) == Iterate(Tick, 2, i);
    assert Iterate(NextSlide, 3, i) == NextSlide(NextSlide(NextSlide(i))) == Iterate(Tick, 3, i);
    assert Iterate(NextSlide, 4, i) == NextSlide(NextSlide(NextSlide(NextSlide(i)))) == Iterate(Tick, 4, i);
  }

  /** A dot click is taken unchecked: from an index above 3 the
      carousel never comes back, as next only climbs from there. */
  lemma {:induction false} DotClickOutOfRangeStaysOut(current: int, index: int, n: nat)
    requires index > 3
    ensures Iterate(NextSlide, n, DotClick(current, index)) == index + n
    decreases n
  {
    if n > 0 {
      DotClickOutOfRangeStaysOut(current, index, n - 1);
    }
  }
}
