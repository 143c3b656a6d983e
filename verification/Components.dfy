/** Four-connected components of a finite set of pixels. */
module Components {

  datatype Pixel = Pixel(x: int, y: int)

  predicate Adjacent(p: Pixel, q: Pixel) {
    (p.x == q.x && (p.y == q.y + 1 || q.y == p.y + 1)) || (p.y == q.y && (p.x == q.x + 1 || q.x == p.x + 1))
  }

  /** Adjacent pixels are those at distance 1; diagonal neighbours are not. */
  lemma AdjacentExactly(p: Pixel, q: Pixel)
    ensures Adjacent(p, q) <==> (p.x - q.x) * (p.x - q.x) + (p.y - q.y) * (p.y - q.y) == 1
  {
    var dx, dy := p.x - q.x, p.y - q.y;
    SquareOfInteger(dx);
    SquareOfInteger(dy);
  }

  lemma SquareOfInteger(d: int)
    ensures d * d == 0 <==> d == 0
    ensures d * d == 1 <==> d == 1 || d == -1
    ensures d * d >= 0 && (d >= 2 || d <= -2 ==> d * d > 1)
  {
    if d >= 2 { assert d * d >= 2 * d; }
    if d <= -2 { assert (-d) * (-d) >= 2 * (-d); }
  }

  ghost predicate IsPath(e: set<Pixel>, path: seq<Pixel>) {
    |path| > 0
    && (forall k :: 0 <= k < |path| ==> path[k] in e)
    && (forall k :: 0 <= k < |path| - 1 ==> Adjacent(path[k], path[k + 1]))
  }

  ghost predicate PathFromTo(e: set<Pixel>, path: seq<Pixel>, p: Pixel, q: Pixel) {
    IsPath(e, path) && path[0] == p && path[|path| - 1] == q
  }

  /** A walk inside e leads from p to q. */
  ghost predicate Connected(e: set<Pixel>, p: Pixel, q: Pixel) {
    exists path :: PathFromTo(e, path, p, q)
  }

  /** The pixels of e that can be reached from p. */
  ghost function Component(e: set<Pixel>, p: Pixel): set<Pixel> {
    set q | q in e && Connected(e, p, q)
  }

  lemma ConnectedSelf(e: set<Pixel>, p: Pixel)
    requires p in e
    ensures Connected(e, p, p)
  {
    assert PathFromTo(e, [p], p, p);
  }

  lemma ConnectedStep(e: set<Pixel>, p: Pixel, q: Pixel, r: Pixel)
    requires Connected(e, p, q) && Adjacent(q, r) && r in e
    ensures Connected(e, p, r)
  {
    var path :| PathFromTo(e, path, p, q);
    assert PathFromTo(e, path + [r], p, r);
  }

  ghost function Reversed(path: seq<Pixel>): (r: seq<Pixel>)
    ensures |r| == |path|
    ensures forall k :: 0 <= k < |path| ==> r[k] == path[|path| - 1 - k]
  {
    seq(|path|, k requires 0 <= k < |path| => path[|path| - 1 - k])
  }

  lemma ConnectedSym(e: set<Pixel>, p: Pixel, q: Pixel)
    requires Connected(e, p, q)
    ensures Connected(e, q, p)
  {
    var path :| PathFromTo(e, path, p, q);
    var r := Reversed(path);
    forall k | 0 <= k < |r| - 1 ensures Adjacent(r[k], r[k + 1]) {
      assert Adjacent(path[|path| - 2 - k], path[|path| - 2 - k + 1]);
    }
    assert PathFromTo(e, r, q, p);
  }

  lemma ConnectedTrans(e: set<Pixel>, p: Pixel, q: Pixel, r: Pixel)
    requires Connected(e, p, q) && Connected(e, q, r)
    ensures Connected(e, p, r)
  {
    var a :| PathFromTo(e, a, p, q);
    var b :| PathFromTo(e, b, q, r);
    assert PathFromTo(e, a + b[1..], p, r);
  }

  /** No pixel of e outside s touches s. */
  ghost predicate Closed(e: set<Pixel>, s: set<Pixel>) {
    forall q, r :: q in s && r in e && Adjacent(q, r) ==> r in s
  }

  lemma {:induction false} PathStays(e: set<Pixel>, s: set<Pixel>, path: seq<Pixel>, k: nat)
    requires IsPath(e, path) && Closed(e, s) && path[0] in s && k < |path|
    ensures path[k] in s
  {
    if k == 0 {
    } else {
      PathStays(e, s, path, k - 1);
      assert Adjacent(path[k - 1], path[k - 1 + 1]);
    }
  }

  /** A closed set of pixels that are all connected to one of them is its component. */
  lemma ClosedIsComponent(e: set<Pixel>, s: set<Pixel>, p: Pixel)
    requires p in s && s <= Component(e, p) && Closed(e, s)
    ensures s == Component(e, p)
  {
    forall q | q in Component(e, p) ensures q in s {
      var path :| PathFromTo(e, path, p, q);
      PathStays(e, s, path, |path| - 1);
    }
  }

  lemma ComponentClosed(e: set<Pixel>, p: Pixel)
    ensures Closed(e, Component(e, p))
  {
    forall q, r | q in Component(e, p) && r in e && Adjacent(q, r) ensures r in Component(e, p) {
      ConnectedStep(e, p, q, r);
    }
  }

  /** Components of connected pixels are the same, others do not meet. */
  lemma ComponentsEqualOrDisjoint(e: set<Pixel>, p: Pixel, q: Pixel)
    ensures q in Component(e, p) ==> Component(e, q) == Component(e, p)
    ensures (exists r :: r in Component(e, p) && r in Component(e, q)) && q in e ==> q in Component(e, p)
  {
    if q in Component(e, p) {
      ConnectedSym(e, p, q);
      forall r | r in e ensures Connected(e, p, r) <==> Connected(e, q, r) {
        if Connected(e, p, r) { ConnectedTrans(e, q, p, r); }
        if Connected(e, q, r) { ConnectedTrans(e, p, q, r); }
      }
    }
    if r :| r in Component(e, p) && r in Component(e, q) {
      ConnectedSym(e, q, r);
      if q in e { ConnectedTrans(e, p, r, q); }
    }
  }

  /** All components of e. */
  ghost function AllComponents(e: set<Pixel>): set<set<Pixel>> {
    set p | p in e :: Component(e, p)
  }
}
