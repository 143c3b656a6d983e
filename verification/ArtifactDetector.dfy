/** The frame comparison of src/engines/gpu/artifact_detector.cpp: error map, region scan, classification. */
module ArtifactDetection {
  import opened Components
  import opened FloodFill
  import opened Sequences

  // ---- what a complete scan has found --------------------------------------

  ghost predicate InSome(regions: seq<set<Pixel>>, p: Pixel) {
    exists k: nat :: k < |regions| && p in regions[k]
  }

  ghost predicate IsComponent(e: set<Pixel>, s: set<Pixel>) {
    exists p :: p in e && s == Component(e, p)
  }

  /** Some component is larger than the region cap lets a search see. */
  ghost predicate HasLargeComponent(e: set<Pixel>) {
    exists p :: p in e && |Component(e, p)| > REGION_CAP + 1
  }

  /** The regions found so far, with v the marked pixels. While no search was cut short they are different components
      that make up v; a search is cut short only in a large component. */
  ghost predicate Scanned(e: set<Pixel>, v: set<Pixel>, regions: seq<set<Pixel>>, exact: bool) {
    v <= e
    && (forall k :: 0 <= k < |regions| ==> regions[k] <= v)
    && (exact ==> (forall k :: 0 <= k < |regions| ==> IsComponent(e, regions[k])))
    && (exact ==> (forall p :: p in v ==> InSome(regions, p)))
    && (exact ==> (forall j, k :: 0 <= j < k < |regions| ==> regions[j] != regions[k]))
    && (!exact ==> HasLargeComponent(e))
  }

  /** The regions are pieces of components, of at most 10001 pixels each, and do not overlap. */
  ghost predicate Pieces(e: set<Pixel>, v: set<Pixel>, regions: seq<set<Pixel>>) {
    (forall k :: 0 <= k < |regions| ==> regions[k] <= v && |regions[k]| <= REGION_CAP + 1 && IsPiece(e, regions[k]))
    && (forall j, k :: 0 <= j < k < |regions| ==> regions[j] !! regions[k])
  }

  ghost predicate IsPiece(e: set<Pixel>, s: set<Pixel>) {
    exists p :: p in s && p in e && s <= Component(e, p)
  }

  lemma PiecesGrow(e: set<Pixel>, v: set<Pixel>, regions: seq<set<Pixel>>, seed: Pixel,
      region: set<Pixel>, left: set<Pixel>)
    requires Pieces(e, v, regions) && Filled(e, v, seed, region, left)
    ensures Pieces(e, v + region + left, regions + [region])
  {
    hide IsPiece, Component, Adjacent;
    FilledIsPiece(e, v, seed, region, left);
    var all, w := regions + [region], v + region + left;
    forall k | 0 <= k < |all| ensures all[k] <= w && |all[k]| <= REGION_CAP + 1 && IsPiece(e, all[k]) {
      assert k < |regions| ==> all[k] == regions[k];
    }
    forall j, k | 0 <= j < k < |all| ensures all[j] !! all[k] {
      assert all[j] == regions[j] && (k < |regions| ==> all[k] == regions[k]);
    }
  }

  lemma FilledIsPiece(e: set<Pixel>, v: set<Pixel>, seed: Pixel, region: set<Pixel>, left: set<Pixel>)
    requires Filled(e, v, seed, region, left)
    ensures IsPiece(e, region)
  {
    hide Component, Adjacent;
    assert region <= Component(e, seed);
  }

  lemma PiecesWiden(e: set<Pixel>, v: set<Pixel>, w: set<Pixel>, regions: seq<set<Pixel>>)
    requires Pieces(e, v, regions) && v <= w
    ensures Pieces(e, w, regions)
  {
    hide IsPiece;
  }

  lemma NoPieces(e: set<Pixel>)
    ensures Pieces(e, {}, [])
  {
  }

  /** Every component with a marked pixel has one of the regions. */
  ghost predicate Represented(e: set<Pixel>, v: set<Pixel>, regions: seq<set<Pixel>>) {
    forall p :: p in v ==> HasRegion(e, regions, p)
  }

  ghost predicate HasRegion(e: set<Pixel>, regions: seq<set<Pixel>>, p: Pixel) {
    exists k: nat :: k < |regions| && regions[k] <= Component(e, p)
  }

  lemma RepresentedGrows(e: set<Pixel>, v: set<Pixel>, regions: seq<set<Pixel>>, seed: Pixel,
      region: set<Pixel>, left: set<Pixel>)
    requires Represented(e, v, regions) && Filled(e, v, seed, region, left)
    ensures Represented(e, v + region + left, regions + [region])
  {
    hide Component, Adjacent;
    var all := regions + [region];
    forall p | p in v + region + left ensures HasRegion(e, all, p) {
      if p in v {
        var k: nat :| k < |regions| && regions[k] <= Component(e, p);
        assert all[k] == regions[k];
      } else {
        ComponentsEqualOrDisjoint(e, seed, p);
        assert all[|regions|] == region;
      }
    }
  }

  lemma NothingRepresented(e: set<Pixel>)
    ensures Represented(e, {}, [])
  {
  }

  lemma SubsetSize<T>(s: set<T>, t: set<T>)
    requires s <= t
    ensures |s| <= |t| && (|s| == |t| ==> s == t)
  {
    assert |t - s| == |t| - |s| by { assert s + (t - s) == t; }
  }

  lemma CutShortMeansLarge(e: set<Pixel>, v: set<Pixel>, seed: Pixel, region: set<Pixel>, left: set<Pixel>)
    requires Filled(e, v, seed, region, left) && left != {}
    ensures HasLargeComponent(e)
  {
    hide Connected, Adjacent;
    SubsetSize(region + left, Component(e, seed));
    assert |region + left| == |region| + |left|;
    assert seed in e;
  }

  /** What touches complete components belongs to them. */
  lemma TouchesSeen(e: set<Pixel>, v: set<Pixel>, regions: seq<set<Pixel>>, p: Pixel, r: Pixel)
    requires Scanned(e, v, regions, true) && p in e && r in v && Adjacent(p, r)
    ensures p in v
  {
    hide Connected, Adjacent, Component;
    assert InSome(regions, r);
    var k: nat :| k < |regions| && r in regions[k];
    assert IsComponent(e, regions[k]);
    var s :| s in e && regions[k] == Component(e, s);
    ComponentClosed(e, s);
    AdjacentSym(p, r);
    assert p in regions[k];
  }

  /** A search that was not cut short, next to complete components, has found a complete component. */
  lemma UncutIsComponent(e: set<Pixel>, v: set<Pixel>, regions: seq<set<Pixel>>, seed: Pixel, region: set<Pixel>)
    requires Scanned(e, v, regions, true) && Filled(e, v, seed, region, {})
    ensures region == Component(e, seed)
  {
    hide Connected, Adjacent, Component;
    forall p, r | p in region && r in e && Adjacent(p, r) ensures r in region {
      if r in v { TouchesSeen(e, v, regions, p, r); }
    }
    ClosedIsComponent(e, region, seed);
  }

  lemma AdjacentSym(p: Pixel, q: Pixel)
    requires Adjacent(p, q)
    ensures Adjacent(q, p)
  {
  }

  lemma InSomeGrows(regions: seq<set<Pixel>>, region: set<Pixel>, p: Pixel)
    requires InSome(regions, p) || p in region
    ensures InSome(regions + [region], p)
  {
    if p in region {
      assert (regions + [region])[|regions|] == region;
    } else {
      var k: nat :| k < |regions| && p in regions[k];
      assert p in (regions + [region])[k];
    }
  }

  lemma ScanRegion(e: set<Pixel>, v: set<Pixel>, regions: seq<set<Pixel>>, exact: bool, seed: Pixel,
      region: set<Pixel>, left: set<Pixel>)
    requires Scanned(e, v, regions, exact) && seed in e && seed !in v && Filled(e, v, seed, region, left)
    ensures Scanned(e, v + region + left, regions + [region], exact && left == {})
  {
    hide Connected, Adjacent, InSome;
    assert left <= Component(e, seed) <= e;
    if left != {} {
      CutShortMeansLarge(e, v, seed, region, left);
    }
    if exact && left == {} {
      UncutIsComponent(e, v, regions, seed, region);
      assert IsComponent(e, region);
      forall p | p in v + region ensures InSome(regions + [region], p) {
        InSomeGrows(regions, region, p);
      }
      assert v + region + left == v + region;
    }
  }

  // ---- below the caps the regions are the components ------------------------

  /** The regions are the components of e, each once. */
  ghost predicate Complete(e: set<Pixel>, regions: seq<set<Pixel>>) {
    Elements(regions) == AllComponents(e) && |regions| == |AllComponents(e)|
  }

  /** The caps did not come into play. */
  ghost predicate BelowCaps(e: set<Pixel>) {
    |AllComponents(e)| <= LOCATION_CAP && forall c :: c in AllComponents(e) ==> |c| <= REGION_CAP + 1
  }

  lemma RegionsAreComponents(e: set<Pixel>, v: set<Pixel>, regions: seq<set<Pixel>>)
    requires Scanned(e, v, regions, true)
    ensures Elements(regions) <= AllComponents(e) && |Elements(regions)| == |regions|
  {
    hide Component, InSome;
    DistinctSize(regions);
    forall s | s in Elements(regions) ensures s in AllComponents(e) {
      var k: nat :| k < |regions| && regions[k] == s;
      assert IsComponent(e, regions[k]);
    }
  }

  lemma AllFound(e: set<Pixel>, regions: seq<set<Pixel>>)
    requires Scanned(e, e, regions, true)
    ensures AllComponents(e) <= Elements(regions)
  {
    forall s | s in AllComponents(e) ensures s in Elements(regions) {
      var p :| p in e && s == Component(e, p);
      assert InSome(regions, p);
      var k: nat :| k < |regions| && p in regions[k];
      assert IsComponent(e, regions[k]);
      var q :| q in e && regions[k] == Component(e, q);
      ComponentsEqualOrDisjoint(e, q, p);
      assert regions[k] == s;
    }
  }

  lemma NoLargeBelowCaps(e: set<Pixel>)
    requires BelowCaps(e)
    ensures !HasLargeComponent(e)
  {
    hide Component;
    forall p | p in e ensures |Component(e, p)| <= REGION_CAP + 1 {
      assert Component(e, p) in AllComponents(e);
    }
  }

  /** A scan that marked every pixel of e, or stopped at the location cap, is complete below the caps. */
  lemma ScanIsComplete(e: set<Pixel>, v: set<Pixel>, regions: seq<set<Pixel>>, exact: bool)
    requires Scanned(e, v, regions, exact) && BelowCaps(e)
    requires v == e || |regions| == LOCATION_CAP
    ensures Complete(e, regions)
  {
    hide Component, InSome, IsComponent;
    NoLargeBelowCaps(e);
    RegionsAreComponents(e, v, regions);
    var found, all := Elements(regions), AllComponents(e);
    hide Elements, AllComponents;
    SubsetSize(found, all);
    if v == e {
      AllFound(e, regions);
      assert found == all;
    }
  }

  /** Regions of at most 10001 pixels can be all the components only below the caps. */
  lemma CompleteIsBelowCaps(e: set<Pixel>, v: set<Pixel>, regions: seq<set<Pixel>>)
    requires Pieces(e, v, regions) && |regions| <= LOCATION_CAP && Complete(e, regions)
    ensures BelowCaps(e)
  {
    hide Component, IsPiece;
    forall c | c in AllComponents(e) ensures |c| <= REGION_CAP + 1 {
      assert c in Elements(regions);
    }
  }

  // ---- how many regions there are ------------------------------------------

  /** The component a piece belongs to. */
  ghost function Owner(e: set<Pixel>, s: set<Pixel>): set<Pixel>
    requires IsPiece(e, s)
  {
    var p :| p in s && p in e && s <= Component(e, p);
    Component(e, p)
  }

  ghost function Owners(e: set<Pixel>, regions: seq<set<Pixel>>): seq<set<Pixel>>
    requires forall k :: 0 <= k < |regions| ==> IsPiece(e, regions[k])
  {
    seq(|regions|, k requires 0 <= k < |regions| => Owner(e, regions[k]))
  }

  lemma OwnerIs(e: set<Pixel>, s: set<Pixel>, p: Pixel)
    requires IsPiece(e, s) && s <= Component(e, p)
    ensures Owner(e, s) == Component(e, p)
  {
    hide Component;
    var q :| q in s && q in e && s <= Component(e, q) && Owner(e, s) == Component(e, q);
    ComponentsEqualOrDisjoint(e, p, q);
  }

  /** When every component has a region there are at least as many regions as components. */
  lemma AtLeastOneEach(e: set<Pixel>, regions: seq<set<Pixel>>)
    requires Pieces(e, e, regions) && Represented(e, e, regions)
    ensures |AllComponents(e)| <= |regions|
  {
    hide Component, IsPiece, Owner;
    var owners := Owners(e, regions);
    forall c | c in AllComponents(e) ensures c in Elements(owners) {
      var p :| p in e && c == Component(e, p);
      assert HasRegion(e, regions, p);
      var k: nat :| k < |regions| && regions[k] <= Component(e, p);
      OwnerIs(e, regions[k], p);
      assert owners[k] == c;
    }
    SubsetSize(AllComponents(e), Elements(owners));
    ElementsAtMost(owners);
  }

  function AtMostCap(n: nat): nat {
    if n < LOCATION_CAP then n else LOCATION_CAP
  }

  /** The number of regions: at least one for each component until the cap is reached, and not more unless a component
      is too large for one search. */
  ghost predicate CountOk(e: set<Pixel>, n: nat) {
    AtMostCap(|AllComponents(e)|) <= n <= LOCATION_CAP
    && (!HasLargeComponent(e) ==> n == AtMostCap(|AllComponents(e)|))
  }

  lemma ScanCounts(e: set<Pixel>, v: set<Pixel>, regions: seq<set<Pixel>>, exact: bool)
    requires Scanned(e, v, regions, exact) && Pieces(e, v, regions) && Represented(e, v, regions)
    requires |regions| <= LOCATION_CAP && (v == e || |regions| == LOCATION_CAP)
    ensures CountOk(e, |regions|)
  {
    hide Component, InSome, IsComponent, IsPiece, HasRegion, HasLargeComponent;
    if |regions| < LOCATION_CAP {
      AtLeastOneEach(e, regions);
    }
    if exact {
      RegionsAreComponents(e, v, regions);
      SubsetSize(Elements(regions), AllComponents(e));
    }
  }

  // ---- the scan ------------------------------------------------------------

  /** Every pixel of e in scan order before (x, y) is marked. */
  ghost predicate CoveredBefore(e: set<Pixel>, v: set<Pixel>, x: int, y: int) {
    forall p :: p in e && (p.y < y || (p.y == y && p.x < x)) ==> p in v
  }

  lemma RowDone(f: Frame, e: set<Pixel>, v: set<Pixel>, y: int)
    requires WithinFrame(f, e) && CoveredBefore(e, v, f.w, y)
    ensures CoveredBefore(e, v, 0, y + 1)
  {
  }

  lemma AllDone(f: Frame, e: set<Pixel>, v: set<Pixel>)
    requires WithinFrame(f, e) && CoveredBefore(e, v, 0, f.h) && v <= e
    ensures v == e
  {
    forall p | p in e ensures p in v { assert InFrame(f.w, f.h, p); }
  }

  lemma CoveredStep(e: set<Pixel>, v: set<Pixel>, w: set<Pixel>, x: int, y: int)
    requires CoveredBefore(e, v, x, y) && v <= w && (Pixel(x, y) in e ==> Pixel(x, y) in w)
    ensures CoveredBefore(e, w, x + 1, y)
  {
    assert forall p: Pixel :: p.x == x && p.y == y ==> p == Pixel(x, y);
  }

  /** The local state of classify_artifacts. */
  class RegionScan {
    const f: Frame
    const errorMap: seq<bool>
    const visited: array<bool>
    var locations: seq<Location>
    ghost var regions: seq<set<Pixel>>
    ghost var exact: bool

    ghost function Errors(): set<Pixel>
      requires |errorMap| == Area(f.w, f.h)
    {
      Marked(f.w, f.h, errorMap)
    }

    ghost function Seen(): set<Pixel>
      requires visited.Length == Area(f.w, f.h)
      reads visited
    {
      Marked(f.w, f.h, visited[..])
    }

    ghost predicate Valid()
      reads this, visited
    {
      FrameOk(f) && |errorMap| == visited.Length == Area(f.w, f.h)
      && |locations| == |regions| <= LOCATION_CAP
      && (forall k :: 0 <= k < |regions| ==> WithinFrame(f, regions[k]) && Describes(f, locations[k], regions[k]))
      && Scanned(Errors(), Seen(), regions, exact) && Pieces(Errors(), Seen(), regions)
      && Represented(Errors(), Seen(), regions)
    }

    constructor (f: Frame, errorMap: seq<bool>)
      requires FrameOk(f) && |errorMap| == Area(f.w, f.h)
      ensures Valid() && this.f == f && this.errorMap == errorMap && fresh(visited)
      ensures locations == [] && regions == [] && Seen() == {}
    {
      this.f, this.errorMap := f, errorMap;
      visited := new bool[Area(f.w, f.h)](_ => false);
      locations, regions, exact := [], [], true;
      new;
      MarkNone(f.w, f.h, visited[..]);
      NoPieces(Errors());
      NothingRepresented(Errors());
    }

    /** The body of the two scan loops. */
    method ScanPixel(x: nat, y: nat) returns (full: bool)
      requires Valid() && |locations| < LOCATION_CAP && x < f.w && y < f.h
      requires CoveredBefore(Errors(), Seen(), x, y)
      modifies this, visited
      ensures Valid() && CoveredBefore(Errors(), Seen(), x + 1, y)
      ensures full <==> |locations| >= LOCATION_CAP
    {
      hide Area, FrameOk, Index, Marked, Describes, Scanned, Pieces, Represented, CoveredBefore, Filled;
      var p := Pixel(x, y);
      ghost var e, v := Errors(), Seen();
      MarkedIs(f.w, f.h, errorMap, p);
      MarkedIs(f.w, f.h, visited[..], p);
      if !errorMap[Index(f.w, f.h, p)] || visited[Index(f.w, f.h, p)] {
        CoveredStep(e, v, v, x, y);
        return false;
      }
      var loc; ghost var region, left;
      loc, region, left := FloodRegion(f, errorMap, visited, p);
      ScanRegion(e, v, regions, exact, p, region, left);
      PiecesGrow(e, v, regions, p, region, left);
      RepresentedGrows(e, v, regions, p, region, left);
      FilledHasSeed(e, v, p, region, left);
      CoveredStep(e, v, v + region + left, x, y);
      regions := regions + [region];
      exact := exact && left == {};
      locations := locations + [loc];
      full := |locations| >= LOCATION_CAP;
    }

    method ScanRow(y: nat) returns (full: bool)
      requires Valid() && |locations| < LOCATION_CAP && y < f.h
      requires CoveredBefore(Errors(), Seen(), 0, y)
      modifies this, visited
      ensures Valid()
      ensures full <==> |locations| >= LOCATION_CAP
      ensures !full ==> CoveredBefore(Errors(), Seen(), 0, y + 1)
    {
      hide Scanned, Pieces, Represented, Describes, FrameOk, Area, Marked, CoveredBefore;
      full := false;
      var x := 0;
      while x < f.w
        invariant 0 <= x <= f.w && Valid() && |locations| < LOCATION_CAP && !full
        invariant CoveredBefore(Errors(), Seen(), x, y)
      {
        full := ScanPixel(x, y);
        if full { return; }
        x := x + 1;
      }
      MarkedInFrame(f.w, f.h, errorMap);
      RowDone(f, Errors(), Seen(), y);
    }

    /** The region search of a frame that is at most half corrupted. The locations describe the four-connected
        components of the error pixels, each once, exactly when the caps do not come into play. */
    method Scan() returns (full: bool)
      requires Valid() && locations == [] && Seen() == {}
      modifies this, visited
      ensures Valid()
      ensures full <==> |locations| >= LOCATION_CAP
      ensures Complete(Errors(), regions) <==> BelowCaps(Errors())
      ensures Pieces(Errors(), Errors(), regions)
      ensures CountOk(Errors(), |regions|)
    {
      hide Marked, CoveredBefore, Scanned, Pieces, Represented, CountOk, Describes, BelowCaps, Complete, FrameOk, Area;
      full := false;
      var y := 0;
      MarkedInFrame(f.w, f.h, errorMap);
      NothingBefore(f, Errors(), Seen());
      while y < f.h
        invariant 0 <= y <= f.h && Valid() && |locations| < LOCATION_CAP && !full
        invariant CoveredBefore(Errors(), Seen(), 0, y)
      {
        full := ScanRow(y);
        if full { break; }
        y := y + 1;
      }
      ScannedInside(Errors(), Seen(), regions, exact);
      if !full { AllDone(f, Errors(), Seen()); }
      ScanCounts(Errors(), Seen(), regions, exact);
      PiecesWiden(Errors(), Seen(), Errors(), regions);
      if BelowCaps(Errors()) { ScanIsComplete(Errors(), Seen(), regions, exact); }
      if Complete(Errors(), regions) { CompleteIsBelowCaps(Errors(), Errors(), regions); }
    }
  }

  lemma ScannedInside(e: set<Pixel>, v: set<Pixel>, regions: seq<set<Pixel>>, exact: bool)
    requires Scanned(e, v, regions, exact)
    ensures v <= e
  {
  }

  lemma NothingBefore(f: Frame, e: set<Pixel>, v: set<Pixel>)
    requires WithinFrame(f, e)
    ensures CoveredBefore(e, v, 0, 0)
  {
  }

  lemma FilledHasSeed(e: set<Pixel>, v: set<Pixel>, seed: Pixel, region: set<Pixel>, left: set<Pixel>)
    requires Filled(e, v, seed, region, left)
    ensures seed in region
  {
  }

  // ---- the error map -------------------------------------------------------

  /** Some channel of pixel i differs by more than the tolerance. */
  predicate HasError(f: Frame, i: nat, tolerance: int)
    requires FrameOk(f) && i < Area(f.w, f.h)
  {
    ChannelError(f, i, 0) > tolerance || ChannelError(f, i, 1) > tolerance
    || ChannelError(f, i, 2) > tolerance || ChannelError(f, i, 3) > tolerance
  }

  /** The pixels whose largest channel difference exceeds the tolerance. */
  ghost function ErrorPixels(f: Frame, tolerance: int): set<Pixel>
    requires FrameOk(f)
  {
    set x: int, y: int | 0 <= x < f.w && 0 <= y < f.h && PixelError(f, Pixel(x, y)) > tolerance :: Pixel(x, y)
  }

  /** Byte k of the frame lies more than t above or below the reference. */
  predicate ByteDiffers(f: Frame, k: int, t: int) {
    0 <= k < |f.pixels| && k < |f.reference| && (f.pixels[k] > f.reference[k] + t || f.reference[k] > f.pixels[k] + t)
  }

  /** One of the four bytes of a pixel does; rows are stored one after another. */
  predicate Differs(f: Frame, p: Pixel, t: int) {
    var k := 4 * (p.y * f.w + p.x);
    ByteDiffers(f, k, t) || ByteDiffers(f, k + 1, t) || ByteDiffers(f, k + 2, t) || ByteDiffers(f, k + 3, t)
  }

  lemma ChannelErrorExactly(f: Frame, p: Pixel, c: nat, t: int)
    requires FrameOk(f) && InFrame(f.w, f.h, p) && c < 4
    ensures ChannelError(f, Index(f.w, f.h, p), c) > t <==> ByteDiffers(f, 4 * (p.y * f.w + p.x) + c, t)
  {
  }

  /** The error of a pixel exceeds t exactly when a byte of it is more than t off, brighter or darker. */
  lemma PixelErrorExactly(f: Frame, p: Pixel, t: int)
    requires FrameOk(f) && InFrame(f.w, f.h, p)
    ensures PixelError(f, p) > t <==> Differs(f, p, t)
  {
    hide ByteDiffers, ChannelError, Index, Area;
    ChannelErrorExactly(f, p, 0, t);
    ChannelErrorExactly(f, p, 1, t);
    ChannelErrorExactly(f, p, 2, t);
    ChannelErrorExactly(f, p, 3, t);
  }

  lemma ErrorPixelsExactly(f: Frame, t: int)
    requires FrameOk(f)
    ensures forall p :: p in ErrorPixels(f, t) <==> InFrame(f.w, f.h, p) && Differs(f, p, t)
  {
    hide PixelError, Differs, Area;
    forall p ensures p in ErrorPixels(f, t) <==> InFrame(f.w, f.h, p) && Differs(f, p, t) {
      assert p == Pixel(p.x, p.y);
      if InFrame(f.w, f.h, p) { PixelErrorExactly(f, p, t); }
    }
  }

  /** The frame as the reference, and the reference as the frame. */
  function Exchanged(f: Frame): Frame {
    Frame(f.w, f.h, f.reference, f.pixels)
  }

  /** Exchanging the two images keeps the error pixels, and every location describes the same region with the same
      largest error. */
  lemma ExchangeKeepsErrors(f: Frame, t: int, loc: Location, region: set<Pixel>)
    requires FrameOk(f)
    ensures FrameOk(Exchanged(f)) && ErrorPixels(Exchanged(f), t) == ErrorPixels(f, t)
    ensures WithinFrame(f, region) ==> (Describes(Exchanged(f), loc, region) <==> Describes(f, loc, region))
  {
    hide PixelError, TightBox, Area;
    forall p | InFrame(f.w, f.h, p) ensures PixelError(Exchanged(f), p) == PixelError(f, p) {
      ExchangedError(f, p);
    }
  }

  lemma ExchangedError(f: Frame, p: Pixel)
    requires FrameOk(f) && InFrame(f.w, f.h, p)
    ensures PixelError(Exchanged(f), p) == PixelError(f, p)
  {
    hide Area, Index;
  }

  /** The largest error of a location exceeds t exactly when some pixel of its region is more than t off. */
  lemma MaxErrorExactly(f: Frame, loc: Location, region: set<Pixel>, t: int)
    requires FrameOk(f) && WithinFrame(f, region) && Describes(f, loc, region)
    ensures loc.maxError > t <==> exists p :: p in region && Differs(f, p, t)
  {
    hide PixelError, Differs, TightBox, Area;
    forall p | p in region ensures PixelError(f, p) > t <==> Differs(f, p, t) {
      PixelErrorExactly(f, p, t);
    }
  }

  /** The pixel stored at index i. */
  lemma PixelAt(w: nat, h: nat, i: nat) returns (p: Pixel)
    requires i < Area(w, h)
    ensures InFrame(w, h, p) && Index(w, h, p) == i
  {
    assert w > 0 && h > 0;
    var x, y := i % w, i / w;
    assert y * w + x == i;
    if y >= h { assert (y - h) * w >= 0; assert y * w >= h * w; }
    p := Pixel(x, y);
  }

  lemma MapIsErrorPixels(f: Frame, tolerance: int, m: seq<bool>)
    requires FrameOk(f) && |m| == Area(f.w, f.h)
    requires forall k :: 0 <= k < |m| ==> m[k] == HasError(f, k, tolerance)
    ensures Marked(f.w, f.h, m) == ErrorPixels(f, tolerance)
  {
    hide Index, ChannelError, Area;
  }

  /** The channel loop of the comparison. */
  method CompareChannels(f: Frame, i: nat, tolerance: int) returns (hasError: bool)
    requires FrameOk(f) && i < Area(f.w, f.h)
    ensures hasError == HasError(f, i, tolerance)
  {
    hide Area;
    hasError := false;
    var c := 0;
    while c < 4
      invariant 0 <= c <= 4
      invariant !hasError && forall k: nat :: k < c ==> ChannelError(f, i, k) <= tolerance
    {
      if ChannelError(f, i, c) > tolerance {
        return true;
      }
      c := c + 1;
    }
  }

  /** Compares pixel by pixel and counts the erroneous ones. */
  method BuildErrorMap(f: Frame, tolerance: int) returns (errorMap: seq<bool>, errorPixels: nat)
    requires FrameOk(f)
    ensures |errorMap| == Area(f.w, f.h)
    ensures Marked(f.w, f.h, errorMap) == ErrorPixels(f, tolerance)
    ensures errorPixels == |ErrorPixels(f, tolerance)|
  {
    hide Area, Index, Marked, HasError, ErrorPixels, FrameOk;
    var n := Area(f.w, f.h);
    var map0 := new bool[n](_ => false);
    errorPixels := 0;
    MarkNone(f.w, f.h, map0[..]);
    var i := 0;
    while i < n
      invariant 0 <= i <= n
      invariant forall k :: 0 <= k < i ==> map0[k] == HasError(f, k, tolerance)
      invariant forall k :: i <= k < n ==> !map0[k]
      invariant errorPixels == |Marked(f.w, f.h, map0[..])|
    {
      var hasError := CompareChannels(f, i, tolerance);
      if hasError {
        ghost var before := map0[..];
        ghost var p := PixelAt(f.w, f.h, i);
        MarkOne(f.w, f.h, before, p);
        MarkedIs(f.w, f.h, before, p);
        map0[i] := true;
        assert map0[..] == before[i := true];
        errorPixels := errorPixels + 1;
      }
      i := i + 1;
    }
    errorMap := map0[..];
    MapIsErrorPixels(f, tolerance, errorMap);
  }

  // ---- the detector --------------------------------------------------------

  datatype Severity = NoSeverity | Low | Medium | High | Critical

  datatype ArtifactResult = ArtifactResult(
    totalPixels: nat,
    errorPixels: nat,
    errorRate: real,
    severity: Severity,
    primaryType: ArtifactType,
    locations: seq<Location>)

  function SeverityOf(rate: real): Severity {
    if rate < 0.0001 then Low else if rate < 0.01 then Medium else if rate < 0.1 then High else Critical
  }

  /** The severity in terms of the counts: one pixel in ten thousand, in a hundred, in ten. */
  lemma SeverityByCount(errors: nat, total: nat)
    requires total > 0
    ensures var s := SeverityOf(errors as real / total as real);
      (s == Low <==> 10000 * errors < total)
      && (s == Medium <==> total <= 10000 * errors && 100 * errors < total)
      && (s == High <==> total <= 100 * errors && 10 * errors < total)
      && (s == Critical <==> total <= 10 * errors)
  {
    RateBelow(errors, total, 10000);
    RateBelow(errors, total, 100);
    RateBelow(errors, total, 10);
  }

  lemma RateBelow(errors: nat, total: nat, parts: nat)
    requires total > 0 && parts > 0
    ensures errors as real / total as real < 1.0 / parts as real <==> parts * errors < total
  {
    var e, t, n := errors as real, total as real, parts as real;
    var rate, part := e / t, 1.0 / n;
    assert rate * t == e && part * n == 1.0;
    assert (parts * errors) as real == n * e;
    if rate < part {
      Stretch(rate, part, t);
      Stretch(rate * t, part * t, n);
    } else {
      Stretch(part, rate, t);
      Stretch(part * t, rate * t, n);
    }
    assert (part * t) * n == (part * n) * t;
    assert (rate * t) * n == n * e;
  }

  lemma Stretch(a: real, b: real, c: real)
    requires c > 0.0 && a <= b
    ensures a * c <= b * c && (a < b ==> a * c < b * c)
  {
    assert (b - a) * c >= 0.0;
    if a < b { assert (b - a) * c > 0.0; }
  }

  function CountKind(locations: seq<Location>, kind: ArtifactType): nat {
    if locations == [] then 0
    else CountKind(locations[..|locations| - 1], kind) + if locations[|locations| - 1].kind == kind then 1 else 0
  }

  /** The indices of the locations of a kind. */
  function OfKind(locations: seq<Location>, kind: ArtifactType): set<nat> {
    set k: nat | k < |locations| && locations[k].kind == kind
  }

  lemma {:induction false} CountKindIsNumber(locations: seq<Location>, kind: ArtifactType)
    ensures CountKind(locations, kind) == |OfKind(locations, kind)|
  {
    if locations == [] {
      assert OfKind(locations, kind) == {};
    } else {
      var n := |locations| - 1;
      CountKindIsNumber(locations[..n], kind);
      if locations[n].kind == kind {
        assert OfKind(locations, kind) == OfKind(locations[..n], kind) + {n};
      } else {
        assert OfKind(locations, kind) == OfKind(locations[..n], kind);
      }
    }
  }

  /** The type reported for a scan; at the location cap none is. */
  function MajorityType(locations: seq<Location>): ArtifactType {
    if |locations| >= LOCATION_CAP then NoArtifact
    else if CountKind(locations, Block) > CountKind(locations, SinglePixel) then Block
    else SinglePixel
  }

  /** The majority type: blocks only if there are more of them than single-pixel clusters. */
  method PrimaryType(locations: seq<Location>) returns (kind: ArtifactType)
    ensures kind == if CountKind(locations, Block) > CountKind(locations, SinglePixel) then Block else SinglePixel
  {
    var single, block, i := 0, 0, 0;
    assert locations[..0] == [];
    while i < |locations|
      invariant 0 <= i <= |locations|
      invariant single == CountKind(locations[..i], SinglePixel) && block == CountKind(locations[..i], Block)
    {
      assert locations[..i + 1][..i] == locations[..i];
      if locations[i].kind == SinglePixel {
        single := single + 1;
      } else if locations[i].kind == Block {
        block := block + 1;
      }
      i := i + 1;
    }
    assert locations[..i] == locations;
    kind := if block > single then Block else SinglePixel;
  }

  /** Location k describes region k. The regions are pieces of components without overlap, and they are all the
      components if and only if these are below the caps. */
  ghost predicate Located(f: Frame, e: set<Pixel>, locations: seq<Location>, regions: seq<set<Pixel>>)
    requires FrameOk(f)
  {
    |locations| == |regions| <= LOCATION_CAP
    && (forall k :: 0 <= k < |regions| ==>
          WithinFrame(f, regions[k]) && Describes(f, locations[k], regions[k]))
    && Pieces(e, e, regions)
    && (Complete(e, regions) <==> BelowCaps(e))
    && CountOk(e, |locations|)
  }

  predicate InBox(loc: Location, p: Pixel) {
    loc.x <= p.x < loc.x + loc.width && loc.y <= p.y < loc.y + loc.height
  }

  /** Without the constants' names: at most a hundred regions of at most 10001 pixels, a block from 64 pixels on. */
  lemma LocatedMeans(f: Frame, e: set<Pixel>, locations: seq<Location>, regions: seq<set<Pixel>>, k: nat)
    requires FrameOk(f) && Located(f, e, locations, regions) && k < |locations|
    ensures |locations| <= 100 && 0 < |regions[k]| <= 10001 && regions[k] <= e
    ensures locations[k].kind == if |regions[k]| >= 64 then Block else SinglePixel
    ensures forall p :: p in regions[k] ==> InBox(locations[k], p)
  {
    hide Complete, BelowCaps, CountOk, Component, LargestError, Area;
    assert IsPiece(e, regions[k]);
  }

  /** A type is given to fewer than a hundred components, unless one of them is too large for one search; to a hundred
      or more none is given. */
  ghost predicate TypeGiven(e: set<Pixel>, primary: ArtifactType) {
    (|AllComponents(e)| >= LOCATION_CAP ==> primary == NoArtifact)
    && (primary == NoArtifact ==> |AllComponents(e)| >= LOCATION_CAP || HasLargeComponent(e))
  }

  lemma TypeGivenByCount(e: set<Pixel>, locations: seq<Location>)
    requires CountOk(e, |locations|)
    ensures TypeGiven(e, MajorityType(locations))
  {
    hide HasLargeComponent, AllComponents, CountKind;
  }

  // ---- exactly one hundred regions -----------------------------------------

  /** Every other pixel of a row. */
  ghost function Comb(n: nat): set<Pixel> {
    if n == 0 then {} else Comb(n - 1) + {Pixel(2 * (n - 1), 0)}
  }

  predicate IsTooth(p: Pixel, n: nat) {
    p.y == 0 && 0 <= p.x < 2 * n && p.x % 2 == 0
  }

  lemma TeethGrow(p: Pixel, n: nat)
    ensures IsTooth(p, n) ==> IsTooth(p, n + 1) && p != Pixel(2 * n, 0)
    ensures IsTooth(Pixel(2 * n, 0), n + 1)
  {
  }

  lemma TeethApart(p: Pixel, q: Pixel, n: nat)
    requires IsTooth(p, n) && IsTooth(q, n)
    ensures !Adjacent(p, q)
  {
  }

  lemma {:induction false} CombIs(n: nat)
    ensures |Comb(n)| == n
    ensures forall p :: p in Comb(n) ==> IsTooth(p, n)
  {
    hide IsTooth;
    if n == 0 {
    } else {
      CombIs(n - 1);
      forall p ensures IsTooth(p, n - 1) ==> IsTooth(p, n) && p != Pixel(2 * (n - 1), 0) {
        TeethGrow(p, n - 1);
      }
      TeethGrow(Pixel(2 * (n - 1), 0), n - 1);
    }
  }

  ghost function Singletons(e: set<Pixel>): set<set<Pixel>> {
    set p | p in e :: {p}
  }

  lemma {:induction false} SingletonsSize(e: set<Pixel>)
    ensures |Singletons(e)| == |e|
    decreases |e|
  {
    if p :| p in e {
      SingletonsSize(e - {p});
      assert Singletons(e) == Singletons(e - {p}) + {{p}};
    } else {
      assert Singletons(e) == {};
    }
  }

  /** Pixels none of which touch each other are components by themselves. */
  lemma IsolatedPixels(e: set<Pixel>)
    requires forall p, r :: p in e && r in e ==> !Adjacent(p, r)
    ensures AllComponents(e) == Singletons(e)
  {
    hide Connected, Component, Adjacent;
    forall p | p in e ensures Component(e, p) == {p} {
      ConnectedSelf(e, p);
      SelfInComponent(e, p);
      assert Closed(e, {p});
      ClosedIsComponent(e, {p}, p);
    }
  }

  lemma SelfInComponent(e: set<Pixel>, p: Pixel)
    requires p in e
    ensures {p} <= Component(e, p)
  {
    hide Connected;
    ConnectedSelf(e, p);
  }

  /** The comb is below the caps, and it has a hundred components. */
  lemma CombComponents()
    ensures |AllComponents(Comb(100))| == 100 && BelowCaps(Comb(100))
  {
    hide Component, Comb, IsTooth, Adjacent;
    var e := Comb(100);
    CombIs(100);
    forall p, r | p in e && r in e ensures !Adjacent(p, r) {
      TeethApart(p, r, 100);
    }
    IsolatedPixels(e);
    SingletonsSize(e);
    forall c | c in AllComponents(e) ensures |c| <= REGION_CAP + 1 {
      var p :| p in e && c == {p};
    }
  }

  function CombByte(i: nat): int {
    if i / 4 % 2 == 0 then 255 else 0
  }

  /** A row of two hundred pixels, every other one white. */
  function CombPixels(): (s: seq<int>)
    ensures |s| == 800
  {
    seq(800, i requires 0 <= i < 800 => CombByte(i))
  }

  /** The row against a black reference. */
  function CombFrame(): (f: Frame)
    ensures FrameOk(f)
  {
    Frame(200, 1, CombPixels(), seq(800, _ => 0))
  }

  lemma CombIndex(i: nat, c: nat)
    requires c < 4
    ensures CombByte(i * 4 + c) == if i % 2 == 0 then 255 else 0
  {
    assert (i * 4 + c) / 4 == i;
  }

  lemma CombChannel(i: nat, c: nat)
    requires i < 200 && c < 4
    ensures ChannelError(CombFrame(), i, c) == if i % 2 == 0 then 255 else 0
  {
    hide CombByte;
    CombIndex(i, c);
  }

  lemma CombPixelError(p: Pixel)
    requires InFrame(200, 1, p)
    ensures PixelError(CombFrame(), p) == if IsTooth(p, 100) then 255 else 0
  {
    hide ChannelError, CombFrame, CombByte, CombPixels;
    var i := p.x;
    CombChannel(i, 0);
    CombChannel(i, 1);
    CombChannel(i, 2);
    CombChannel(i, 3);
  }

  lemma {:induction false} TeethAreComb(p: Pixel, n: nat)
    requires IsTooth(p, n)
    ensures p in Comb(n)
  {
    if n == 0 {
    } else if p == Pixel(2 * (n - 1), 0) {
    } else {
      TeethAreComb(p, n - 1);
    }
  }

  lemma CombFrameErrors()
    ensures ErrorPixels(CombFrame(), 1) == Comb(100)
  {
    hide PixelError, Comb, CombPixels, IsTooth;
    var f := CombFrame();
    CombIs(100);
    forall p ensures p in ErrorPixels(f, 1) <==> p in Comb(100) {
      TeethInFrame(p);
      if InFrame(200, 1, p) {
        CombPixelError(p);
        assert p == Pixel(p.x, p.y);
      }
      if IsTooth(p, 100) {
        TeethAreComb(p, 100);
      }
    }
  }

  lemma TeethInFrame(p: Pixel)
    ensures IsTooth(p, 100) ==> InFrame(200, 1, p)
  {
  }

  class ArtifactDetector {
    var reference: seq<int>
    var refWidth: nat
    var refHeight: nat
    var totalArtifacts: nat
    var totalFrames: nat

    ghost predicate Valid()
      reads this
    {
      |reference| == 4 * Area(refWidth, refHeight)
    }

    constructor ()
      ensures Valid() && reference == [] && totalArtifacts == totalFrames == 0
    {
      reference, refWidth, refHeight, totalArtifacts, totalFrames := [], 0, 0, 0, 0;
    }

    method SetReferenceFrame(pixels: seq<int>, width: nat, height: nat)
      requires |pixels| == 4 * Area(width, height)
      modifies this`reference, this`refWidth, this`refHeight
      ensures Valid() && reference == pixels && refWidth == width && refHeight == height
    {
      reference, refWidth, refHeight := pixels, width, height;
    }

    method ResetStatistics()
      modifies this`totalArtifacts, this`totalFrames
      ensures totalArtifacts == totalFrames == 0
    {
      totalArtifacts, totalFrames := 0, 0;
    }

    /** classify_artifacts: the primary type and the locations. */
    method Classify(f: Frame, errorMap: seq<bool>, rate: real)
        returns (primary: ArtifactType, locations: seq<Location>, ghost regions: seq<set<Pixel>>)
      requires FrameOk(f) && |errorMap| == Area(f.w, f.h)
      ensures rate > 0.5 ==> primary == FullFrame && locations == [Location(0, 0, f.w, f.h, FullFrame, 0)]
      ensures rate <= 0.5 ==> Located(f, Marked(f.w, f.h, errorMap), locations, regions)
      ensures rate <= 0.5 ==> primary == MajorityType(locations) && TypeGiven(Marked(f.w, f.h, errorMap), primary)
    {
      hide Area, FrameOk, Marked, Describes, CountKind, BelowCaps, Complete, Pieces, CountOk, TypeGiven;
      regions := [];
      if rate > 0.5 {
        return FullFrame, [Location(0, 0, f.w, f.h, FullFrame, 0)], [];
      }
      var scan := new RegionScan(f, errorMap);
      var full := scan.Scan();
      locations, regions := scan.locations, scan.regions;
      TypeGivenByCount(Marked(f.w, f.h, errorMap), locations);
      if full { return NoArtifact, locations, regions; }
      primary := PrimaryType(locations);
    }

    /** compare_frame. */
    method CompareFrame(pixels: seq<int>, width: nat, height: nat, tolerance: int)
        returns (result: ArtifactResult, ghost regions: seq<set<Pixel>>)
      requires Valid() && |pixels| == 4 * Area(width, height)
      modifies this`totalArtifacts, this`totalFrames
      ensures totalFrames == old(totalFrames) + 1
      ensures reference == [] || width != refWidth || height != refHeight ==>
        result == ArtifactResult(Area(width, height), 0, 0.0, NoSeverity, NoArtifact, [])
        && totalArtifacts == old(totalArtifacts)
      ensures reference != [] && width == refWidth && height == refHeight ==>
        var f := Frame(width, height, pixels, reference);
        var e := ErrorPixels(f, tolerance);
        result.totalPixels == Area(width, height) > 0
        && (forall p :: p in e <==> InFrame(width, height, p) && Differs(f, p, tolerance))
        && result.errorPixels == |e| && totalArtifacts == old(totalArtifacts) + |e|
        && result.errorRate == |e| as real / Area(width, height) as real
        && (e == {} ==> result.severity == NoSeverity && result.primaryType == NoArtifact && result.locations == [])
        && (e != {} ==> result.severity == SeverityOf(result.errorRate))
        && (e != {} && result.errorRate > 0.5 ==>
          (result.primaryType == FullFrame && result.locations == [Location(0, 0, width, height, FullFrame, 0)]))
        && (e != {} && result.errorRate <= 0.5 ==>
          (Located(f, e, result.locations, regions) && result.primaryType == MajorityType(result.locations)
           && TypeGiven(e, result.primaryType)))
    {
      hide Area, Marked, ErrorPixels, Located, MajorityType, TypeGiven, Differs, InFrame;
      regions := [];
      var total := Area(width, height);
      result := ArtifactResult(total, 0, 0.0, NoSeverity, NoArtifact, []);
      totalFrames := totalFrames + 1;
      if reference == [] || width != refWidth || height != refHeight {
        return;
      }
      var f := Frame(width, height, pixels, reference);
      ErrorPixelsExactly(f, tolerance);
      var errorMap, errorPixels := BuildErrorMap(f, tolerance);
      var rate := errorPixels as real / total as real;
      result := result.(errorPixels := errorPixels, errorRate := rate);
      if errorPixels > 0 {
        totalArtifacts := totalArtifacts + errorPixels;
        var primary, locations;
        primary, locations, regions := Classify(f, errorMap, rate);
        result := result.(severity := SeverityOf(rate), primaryType := primary, locations := locations);
      }
    }
  }

  /** A white comb of a hundred teeth on a black reference: every tooth is found, and no type is given. */
  method HundredRegionsHaveNoType() returns (result: ArtifactResult)
    ensures result.errorPixels == 100 && result.errorRate == 0.5
    ensures |result.locations| == 100 && result.primaryType == NoArtifact
  {
    hide Comb, ErrorPixels, Differs, InFrame, Describes, Pieces, Complete, AllComponents, HasLargeComponent, CountKind;
    var detector := new ArtifactDetector();
    CombFrameErrors();
    CombIs(100);
    CombComponents();
    detector.SetReferenceFrame(CombFrame().reference, 200, 1);
    ghost var regions;
    result, regions := detector.CompareFrame(CombFrame().pixels, 200, 1, 1);
  }
}
