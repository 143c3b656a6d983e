/** The region search of src/engines/gpu/artifact_detector.cpp: an explicit-stack flood fill with two caps. */
module FloodFill {
  import opened Arithmetic
  import opened Components
  import opened Sequences

  datatype ArtifactType = NoArtifact | SinglePixel | Block | FullFrame

  datatype Location = Location(x: int, y: int, width: int, height: int, kind: ArtifactType, maxError: int)

  const REGION_CAP := 10000
  const LOCATION_CAP := 100
  const BLOCK_SIZE := 64

  // ---- frames --------------------------------------------------------------

  function Area(w: nat, h: nat): nat { w * h }

  predicate InFrame(w: nat, h: nat, p: Pixel) {
    0 <= p.x < w && 0 <= p.y < h
  }

  function Index(w: nat, h: nat, p: Pixel): (k: nat)
    requires InFrame(w, h, p)
    ensures k < Area(w, h)
  {
    RowsBelow(w, p.y, h);
    MulMono(w, 0, p.y);
    p.y * w + p.x
  }

  lemma IndexInjective(w: nat, h: nat, p: Pixel, q: Pixel)
    requires InFrame(w, h, p) && InFrame(w, h, q) && Index(w, h, p) == Index(w, h, q)
    ensures p == q
  {
    PlaceUnique(w, p.y, p.x, q.y, q.x);
  }

  /** The pixels marked in a row-by-row map. */
  ghost function Marked(w: nat, h: nat, m: seq<bool>): set<Pixel>
    requires |m| == Area(w, h)
  {
    set x: int, y: int | 0 <= x < w && 0 <= y < h && m[Index(w, h, Pixel(x, y))] :: Pixel(x, y)
  }

  lemma MarkedIs(w: nat, h: nat, m: seq<bool>, p: Pixel)
    requires |m| == Area(w, h)
    ensures p in Marked(w, h, m) <==> InFrame(w, h, p) && m[Index(w, h, p)]
  {
    assert p == Pixel(p.x, p.y);
  }

  lemma MarkOne(w: nat, h: nat, m: seq<bool>, p: Pixel)
    requires |m| == Area(w, h) && InFrame(w, h, p)
    ensures Marked(w, h, m[Index(w, h, p) := true]) == Marked(w, h, m) + {p}
  {
    hide Area, Index, Marked;
    var n := m[Index(w, h, p) := true];
    forall q ensures q in Marked(w, h, n) <==> q in Marked(w, h, m) + {p} {
      MarkedIs(w, h, n, q);
      MarkedIs(w, h, m, q);
      if InFrame(w, h, q) && Index(w, h, q) == Index(w, h, p) { IndexInjective(w, h, p, q); }
    }
  }

  lemma MarkNone(w: nat, h: nat, m: seq<bool>)
    requires |m| == Area(w, h) && forall k :: 0 <= k < |m| ==> !m[k]
    ensures Marked(w, h, m) == {}
  {
    hide Area, Index;
  }

  // ---- what a location says about its region -------------------------------

  /** x0..x1, y0..y1 is the smallest box around s. */
  ghost predicate TightBox(s: set<Pixel>, x0: int, x1: int, y0: int, y1: int) {
    (forall q :: q in s ==> x0 <= q.x <= x1 && y0 <= q.y <= y1)
    && (exists q :: q in s && q.x == x0) && (exists q :: q in s && q.x == x1)
    && (exists q :: q in s && q.y == y0) && (exists q :: q in s && q.y == y1)
  }

  function Min(a: int, b: int): int { if b < a then b else a }

  function Max(a: int, b: int): int { if a < b then b else a }

  lemma BoxOfOne(p: Pixel)
    ensures TightBox({p}, p.x, p.x, p.y, p.y)
  {
    assert p in {p};
  }

  lemma BoxGrows(s: set<Pixel>, x0: int, x1: int, y0: int, y1: int, p: Pixel)
    requires TightBox(s, x0, x1, y0, y1)
    ensures TightBox(s + {p}, Min(x0, p.x), Max(x1, p.x), Min(y0, p.y), Max(y1, p.y))
  {
    var t := s + {p};
    assert p in t;
    var a :| a in s && a.x == x0;
    var b :| b in s && b.x == x1;
    var c :| c in s && c.y == y0;
    var d :| d in s && d.y == y1;
    assert a in t && b in t && c in t && d in t;
    assert exists q :: q in t && q.x == Min(x0, p.x);
    assert exists q :: q in t && q.x == Max(x1, p.x);
    assert exists q :: q in t && q.y == Min(y0, p.y);
    assert exists q :: q in t && q.y == Max(y1, p.y);
  }

  /** A frame against the reference, four channel bytes a pixel. */
  datatype Frame = Frame(w: nat, h: nat, pixels: seq<int>, reference: seq<int>)

  predicate FrameOk(f: Frame) {
    |f.pixels| == |f.reference| == 4 * (Area(f.w, f.h))
  }

  function Abs(d: int): int { if d < 0 then -d else d }

  function ChannelError(f: Frame, i: nat, c: nat): int
    requires FrameOk(f) && i < Area(f.w, f.h) && c < 4
  {
    Abs(f.pixels[i * 4 + c] - f.reference[i * 4 + c])
  }

  function PixelError(f: Frame, p: Pixel): int
    requires FrameOk(f) && InFrame(f.w, f.h, p)
  {
    var i := Index(f.w, f.h, p);
    Max(Max(ChannelError(f, i, 0), ChannelError(f, i, 1)), Max(ChannelError(f, i, 2), ChannelError(f, i, 3)))
  }

  ghost predicate WithinFrame(f: Frame, s: set<Pixel>) {
    forall q :: q in s ==> InFrame(f.w, f.h, q)
  }

  /** m is the largest channel difference in s. */
  ghost predicate LargestError(f: Frame, s: set<Pixel>, m: int)
    requires FrameOk(f) && WithinFrame(f, s)
  {
    (forall q :: q in s ==> PixelError(f, q) <= m) && (exists q :: q in s && PixelError(f, q) == m)
  }

  /** The location is the tight box, the size class and the largest error of the region. */
  ghost predicate Describes(f: Frame, loc: Location, region: set<Pixel>)
    requires FrameOk(f) && WithinFrame(f, region)
  {
    TightBox(region, loc.x, loc.x + loc.width - 1, loc.y, loc.y + loc.height - 1)
    && loc.kind == (if |region| < BLOCK_SIZE then SinglePixel else Block)
    && LargestError(f, region, loc.maxError)
  }

  /** The channel loop for one pixel. */
  method RaiseMax(f: Frame, p: Pixel, maxError: int) returns (m: int)
    requires FrameOk(f) && InFrame(f.w, f.h, p)
    ensures m == Max(maxError, PixelError(f, p))
  {
    var i := Index(f.w, f.h, p);
    m := maxError;
    var c := 0;
    while c < 4
      invariant 0 <= c <= 4
      invariant m == (if c == 0 then maxError else if c == 1 then Max(maxError, ChannelError(f, i, 0))
        else if c == 2 then Max(maxError, Max(ChannelError(f, i, 0), ChannelError(f, i, 1)))
        else if c == 3 then Max(maxError, Max(Max(ChannelError(f, i, 0), ChannelError(f, i, 1)), ChannelError(f, i, 2)))
        else Max(maxError, PixelError(f, p)))
    {
      m := Max(m, ChannelError(f, i, c));
      c := c + 1;
    }
  }

  // ---- one region ----------------------------------------------------------

  const DX: seq<int> := [-1, 1, 0, 0]
  const DY: seq<int> := [0, 0, -1, 1]

  function Neighbour(c: Pixel, d: nat): Pixel
    requires d < 4
  {
    Pixel(c.x + DX[d], c.y + DY[d])
  }

  lemma NeighboursAreAdjacent(c: Pixel, r: Pixel)
    ensures Adjacent(c, r) <==> exists d: nat :: d < 4 && Neighbour(c, d) == r
  {
    if Adjacent(c, r) {
      var d: nat := if r.x == c.x - 1 then 0 else if r.x == c.x + 1 then 1 else if r.y == c.y - 1 then 2 else 3;
      assert Neighbour(c, d) == r;
    }
  }

  /** What one neighbour check adds: `pushed` are new pixels of e next to c, and every neighbour of c in e with a
      direction below d is marked. */
  ghost predicate Pushed(e: set<Pixel>, c: Pixel, before: set<Pixel>, pushed: seq<Pixel>, d: nat)
    requires d <= 4
  {
    Distinct(pushed)
    && (forall p :: p in pushed ==> p in e && p !in before && Adjacent(c, p))
    && (forall k: nat :: k < d && Neighbour(c, k) in e ==> Neighbour(c, k) in before + Elements(pushed))
  }

  lemma PushNothing(e: set<Pixel>, c: Pixel, before: set<Pixel>, pushed: seq<Pixel>, d: nat)
    requires d < 4 && Pushed(e, c, before, pushed, d)
    requires Neighbour(c, d) in e ==> Neighbour(c, d) in before + Elements(pushed)
    ensures Pushed(e, c, before, pushed, d + 1)
  {
  }

  lemma PushOne(e: set<Pixel>, c: Pixel, before: set<Pixel>, pushed: seq<Pixel>, d: nat)
    requires d < 4 && Pushed(e, c, before, pushed, d)
    requires Neighbour(c, d) in e && Neighbour(c, d) !in before + Elements(pushed)
    ensures Pushed(e, c, before, pushed + [Neighbour(c, d)], d + 1)
    ensures Elements(pushed + [Neighbour(c, d)]) == Elements(pushed) + {Neighbour(c, d)}
  {
    var n := Neighbour(c, d);
    NeighboursAreAdjacent(c, n);
    forall p | p in pushed ensures p != n { assert p in Elements(pushed); }
  }

  /** The loop over the four neighbours of c. */
  method PushNeighbours(w: nat, h: nat, errorMap: seq<bool>, visited: array<bool>, stack: seq<Pixel>, c: Pixel)
      returns (after: seq<Pixel>)
    requires |errorMap| == visited.Length == Area(w, h) && InFrame(w, h, c)
    modifies visited
    ensures |after| >= |stack| && after[..|stack|] == stack
    ensures Pushed(Marked(w, h, errorMap), c, Marked(w, h, old(visited[..])), after[|stack|..], 4)
    ensures Marked(w, h, visited[..]) == Marked(w, h, old(visited[..])) + Elements(after[|stack|..])
  {
    hide Area, Marked, Index, Pushed, Elements;
    ghost var e, before := Marked(w, h, errorMap), Marked(w, h, visited[..]);
    ghost var pushed: seq<Pixel> := [];
    after := stack;
    PushedStart(e, c, before);
    var d := 0;
    while d < 4
      invariant 0 <= d <= 4
      invariant after == stack + pushed
      invariant Pushed(e, c, before, pushed, d)
      invariant Marked(w, h, visited[..]) == before + Elements(pushed)
    {
      var n := Neighbour(c, d);
      MarkedIs(w, h, errorMap, n);
      MarkedIs(w, h, visited[..], n);
      if n.x < 0 || n.x >= w || n.y < 0 || n.y >= h {
        PushNothing(e, c, before, pushed, d);
      } else if errorMap[Index(w, h, n)] && !visited[Index(w, h, n)] {
        ghost var was := visited[..];
        PushOne(e, c, before, pushed, d);
        MarkOne(w, h, was, n);
        visited[Index(w, h, n)] := true;
        assert visited[..] == was[Index(w, h, n) := true];
        after := after + [n];
        pushed := pushed + [n];
      } else {
        PushNothing(e, c, before, pushed, d);
      }
      d := d + 1;
    }
  }

  lemma PushedStart(e: set<Pixel>, c: Pixel, before: set<Pixel>)
    ensures Pushed(e, c, before, [], 0) && Elements<Pixel>([]) == {}
  {
  }

  /** The state of the stack loop: `done` are the pixels taken off the stack, `v` the marked ones, `v0` those marked
      before the region was started. */
  ghost predicate Filling(e: set<Pixel>, v0: set<Pixel>, seed: Pixel, done: set<Pixel>, stack: seq<Pixel>,
      v: set<Pixel>)
  {
    Distinct(stack)
    && (forall p :: p in stack ==> p !in done)
    && (forall p :: p in done || p in stack ==> p in e && p !in v0 && Connected(e, seed, p))
    && v == v0 + done + Elements(stack)
    && (forall p, r :: p in done && r in e && Adjacent(p, r) ==> r in v)
    && (if done == {} then stack == [seed] else seed in done)
  }

  lemma FillingStart(e: set<Pixel>, v0: set<Pixel>, seed: Pixel)
    requires seed in e && seed !in v0
    ensures Filling(e, v0, seed, {}, [seed], v0 + {seed})
  {
    ConnectedSelf(e, seed);
    assert Elements([seed]) == {seed};
  }

  lemma PushedComplete(e: set<Pixel>, c: Pixel, before: set<Pixel>, pushed: seq<Pixel>, r: Pixel)
    requires Pushed(e, c, before, pushed, 4) && r in e && Adjacent(c, r)
    ensures r in before + Elements(pushed)
  {
    NeighboursAreAdjacent(c, r);
    var d: nat :| d < 4 && Neighbour(c, d) == r;
  }

  lemma PopSplits(stack: seq<Pixel>)
    requires Distinct(stack) && |stack| > 0
    ensures var rest, c := stack[..|stack| - 1], stack[|stack| - 1];
      Distinct(rest) && c !in rest && Elements(stack) == Elements(rest) + {c}
  {
    var rest, c := stack[..|stack| - 1], stack[|stack| - 1];
    assert stack == rest + [c];
    ElementsAppend(rest, [c]);
    assert Elements([c]) == {c};
  }

  /** One turn of the loop: take c off the stack and push its unmarked neighbours. */
  lemma FillingStep(e: set<Pixel>, v0: set<Pixel>, seed: Pixel, done: set<Pixel>, stack: seq<Pixel>, v: set<Pixel>,
      pushed: seq<Pixel>)
    requires Filling(e, v0, seed, done, stack, v) && |stack| > 0
    requires Pushed(e, stack[|stack| - 1], v, pushed, 4)
    ensures var c := stack[|stack| - 1];
      c in e && c !in done
      && Filling(e, v0, seed, done + {c}, stack[..|stack| - 1] + pushed, v + Elements(pushed))
  {
    hide Connected, Adjacent;
    var rest, c := stack[..|stack| - 1], stack[|stack| - 1];
    assert c in stack;
    PopSplits(stack);
    ElementsAppend(rest, pushed);
    var after, marked := rest + pushed, v + Elements(pushed);
    assert forall p :: p in rest ==> p in stack;
    assert forall p :: p in rest ==> p in v by { assert forall p :: p in stack ==> p in Elements(stack); }
    assert marked == v0 + (done + {c}) + Elements(after);
    forall p | p in after ensures p !in done + {c} && p in e && p !in v0 && Connected(e, seed, p) {
      if p in pushed {
        assert c in v && p !in v;
        ConnectedStep(e, seed, c, p);
      }
    }
    forall p, r | p in done + {c} && r in e && Adjacent(p, r) ensures r in marked {
      if p == c { PushedComplete(e, c, v, pushed, r); }
    }
    DistinctAppend(rest, pushed);
  }

  /** The outcome of a region: `region` was searched, `left` was marked but not searched because of the cap. */
  ghost predicate Filled(e: set<Pixel>, v0: set<Pixel>, seed: Pixel, region: set<Pixel>, left: set<Pixel>) {
    seed in region && region <= e && |region| <= REGION_CAP + 1
    && region !! left && (region + left) !! v0
    && region + left <= Component(e, seed)
    && (forall p, r :: p in region && r in e && Adjacent(p, r) ==> r in v0 + region + left)
    && (left != {} ==> |region| == REGION_CAP + 1)
  }

  lemma FillingEnds(e: set<Pixel>, v0: set<Pixel>, seed: Pixel, done: set<Pixel>, stack: seq<Pixel>, v: set<Pixel>)
    requires Filling(e, v0, seed, done, stack, v)
    requires |done| <= REGION_CAP + 1 && (stack != [] ==> |done| == REGION_CAP + 1)
    ensures done != {} && done <= e
    ensures Filled(e, v0, seed, done, Elements(stack)) && v == v0 + done + Elements(stack)
  {
    hide Connected, Adjacent;
    if stack == [] { assert Elements(stack) == {}; }
  }

  lemma LargestErrorGrows(f: Frame, s: set<Pixel>, m: int, p: Pixel)
    requires FrameOk(f) && WithinFrame(f, s) && InFrame(f.w, f.h, p)
    requires if s == {} then m == 0 else LargestError(f, s, m)
    ensures LargestError(f, s + {p}, Max(m, PixelError(f, p)))
  {
    PixelErrorAtLeastZero(f, p);
    hide PixelError, InFrame;
    var t, n := s + {p}, Max(m, PixelError(f, p));
    assert p in t;
    if s != {} {
      var q :| q in s && PixelError(f, q) == m;
      assert q in t;
    }
    assert exists q :: q in t && PixelError(f, q) == n;
  }

  lemma PixelErrorAtLeastZero(f: Frame, p: Pixel)
    requires FrameOk(f) && InFrame(f.w, f.h, p)
    ensures PixelError(f, p) >= 0
  {
  }

  lemma MarkedInFrame(w: nat, h: nat, m: seq<bool>)
    requires |m| == Area(w, h)
    ensures forall p :: p in Marked(w, h, m) ==> InFrame(w, h, p)
  {
    hide Area, Index;
  }

  /** The running minimum and maximum coordinates and the running largest error. */
  datatype Bounds = Bounds(minX: int, maxX: int, minY: int, maxY: int, maxError: int)

  /** One turn of the stack loop: take the top pixel off, account for it, push its unmarked neighbours. */
  method SearchTop(f: Frame, errorMap: seq<bool>, visited: array<bool>, stack: seq<Pixel>, b: Bounds,
      ghost v0: set<Pixel>, ghost seed: Pixel, ghost done: set<Pixel>)
      returns (after: seq<Pixel>, c: Bounds)
    requires FrameOk(f) && |errorMap| == visited.Length == Area(f.w, f.h) && |stack| > 0
    requires Filling(Marked(f.w, f.h, errorMap), v0, seed, done, stack, Marked(f.w, f.h, visited[..]))
    requires Summary(f, seed, done, b)
    modifies visited
    ensures var top := stack[|stack| - 1];
      top in Marked(f.w, f.h, errorMap) && top !in done
      && Filling(Marked(f.w, f.h, errorMap), v0, seed, done + {top}, after, Marked(f.w, f.h, visited[..]))
      && Summary(f, seed, done + {top}, c)
  {
    hide Area, Marked, Index, Filling, Pushed, Elements, Summary, InFrame, FrameOk, PixelError, Min, Max;
    var w, h := f.w, f.h;
    MarkedInFrame(w, h, errorMap);
    ghost var e, v := Marked(w, h, errorMap), Marked(w, h, visited[..]);
    assert WithinFrame(f, e);
    SummaryGrows(f, e, v0, seed, done, stack, v, b);
    var rest, top := stack[..|stack| - 1], stack[|stack| - 1];
    var maxError := RaiseMax(f, top, b.maxError);
    c := Bounds(Min(b.minX, top.x), Max(b.maxX, top.x), Min(b.minY, top.y), Max(b.maxY, top.y), maxError);
    after := PushNeighbours(w, h, errorMap, visited, rest, top);
    ghost var pushed := after[|rest|..];
    assert after == rest + pushed;
    FillingStep(e, v0, seed, done, stack, v, pushed);
  }

  /** The search of one region from its first pixel. */
  method FloodRegion(f: Frame, errorMap: seq<bool>, visited: array<bool>, seed: Pixel)
      returns (loc: Location, ghost region: set<Pixel>, ghost left: set<Pixel>)
    requires FrameOk(f) && |errorMap| == visited.Length == Area(f.w, f.h)
    requires seed in Marked(f.w, f.h, errorMap) && seed !in Marked(f.w, f.h, visited[..])
    modifies visited
    ensures Filled(Marked(f.w, f.h, errorMap), Marked(f.w, f.h, old(visited[..])), seed, region, left)
    ensures Marked(f.w, f.h, visited[..]) == Marked(f.w, f.h, old(visited[..])) + region + left
    ensures WithinFrame(f, region) && Describes(f, loc, region)
  {
    hide Area, Marked, Index, Filling, Filled, Elements, Summary, Describes, InFrame, FrameOk;
    var w, h := f.w, f.h;
    MarkedInFrame(w, h, errorMap);
    ghost var e, v0 := Marked(w, h, errorMap), Marked(w, h, visited[..]);
    ghost var done: set<Pixel> := {};
    var b := Bounds(seed.x, seed.x, seed.y, seed.y, 0);
    SummaryStart(f, seed);
    var count := 0;
    var stack := [seed];
    ghost var was := visited[..];
    visited[Index(w, h, seed)] := true;
    assert visited[..] == was[Index(w, h, seed) := true];
    MarkOne(w, h, was, seed);
    FillingStart(e, v0, seed);
    while |stack| > 0
      invariant Filling(e, v0, seed, done, stack, Marked(w, h, visited[..]))
      invariant Summary(f, seed, done, b)
      invariant done <= e && count == |done| <= REGION_CAP
      decreases e - done
    {
      ghost var top := stack[|stack| - 1];
      stack, b := SearchTop(f, errorMap, visited, stack, b, v0, seed, done);
      count := count + 1;
      done := done + {top};
      if count > REGION_CAP { break; }
    }
    FillingEnds(e, v0, seed, done, stack, Marked(w, h, visited[..]));
    region, left := done, Elements(stack);
    SummaryDescribes(f, seed, done, b);
    loc := Location(b.minX, b.minY, b.maxX - b.minX + 1, b.maxY - b.minY + 1,
      if count == 1 then SinglePixel else if count < BLOCK_SIZE then SinglePixel else Block, b.maxError);
  }

  /** The bounds of the pixels taken off the stack so far; before the first, those of the seed. */
  ghost predicate Summary(f: Frame, seed: Pixel, s: set<Pixel>, b: Bounds) {
    FrameOk(f) && WithinFrame(f, s)
    && if s == {} then b == Bounds(seed.x, seed.x, seed.y, seed.y, 0)
       else TightBox(s, b.minX, b.maxX, b.minY, b.maxY) && LargestError(f, s, b.maxError)
  }

  lemma SummaryStart(f: Frame, seed: Pixel)
    requires FrameOk(f)
    ensures Summary(f, seed, {}, Bounds(seed.x, seed.x, seed.y, seed.y, 0))
  {
  }

  lemma SummaryGrows(f: Frame, e: set<Pixel>, v0: set<Pixel>, seed: Pixel, s: set<Pixel>, stack: seq<Pixel>,
      v: set<Pixel>, b: Bounds)
    requires Summary(f, seed, s, b)
    requires Filling(e, v0, seed, s, stack, v) && |stack| > 0 && WithinFrame(f, e)
    ensures var c := stack[|stack| - 1];
      InFrame(f.w, f.h, c)
      && Summary(f, seed, s + {c},
           Bounds(Min(b.minX, c.x), Max(b.maxX, c.x), Min(b.minY, c.y), Max(b.maxY, c.y),
                  Max(b.maxError, PixelError(f, c))))
  {
    hide TightBox, LargestError, PixelError, InFrame, Min, Max, Connected, Adjacent;
    var c := stack[|stack| - 1];
    assert c in stack;
    DescriptionGrows(f, s, b.minX, b.maxX, b.minY, b.maxY, b.maxError, c);
  }

  lemma SummaryDescribes(f: Frame, seed: Pixel, s: set<Pixel>, b: Bounds)
    requires Summary(f, seed, s, b) && s != {}
    ensures FrameOk(f) && WithinFrame(f, s)
    ensures Describes(f, Location(b.minX, b.minY, b.maxX - b.minX + 1, b.maxY - b.minY + 1,
      if |s| < BLOCK_SIZE then SinglePixel else Block, b.maxError), s)
  {
    hide LargestError, PixelError, InFrame;
  }

  /** Box and largest error take in one more pixel. */
  lemma DescriptionGrows(f: Frame, s: set<Pixel>, x0: int, x1: int, y0: int, y1: int, m: int, p: Pixel)
    requires FrameOk(f) && WithinFrame(f, s) && InFrame(f.w, f.h, p)
    requires s == {} ==> x0 == x1 == p.x && y0 == y1 == p.y && m == 0
    requires s != {} ==> TightBox(s, x0, x1, y0, y1) && LargestError(f, s, m)
    ensures TightBox(s + {p}, Min(x0, p.x), Max(x1, p.x), Min(y0, p.y), Max(y1, p.y))
    ensures LargestError(f, s + {p}, Max(m, PixelError(f, p)))
  {
    hide TightBox, LargestError, PixelError, InFrame;
    LargestErrorGrows(f, s, m, p);
    if s == {} {
      assert s + {p} == {p};
      BoxOfOne(p);
    } else {
      BoxGrows(s, x0, x1, y0, y1, p);
    }
  }
}
