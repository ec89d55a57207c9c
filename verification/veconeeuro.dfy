/**
 The 2D adaptive filter (`VecOneEuroFilter` in src/transforms.rs): one
 `OneEuroFilter` per axis with the same tuning, applied independently.
 */
module VecOneEuro {
  import opened Numerics
  import OneEuro

  datatype VecOneEuroFilter = VecOneEuroFilter(xf: OneEuro.OneEuroFilter, yf: OneEuro.OneEuroFilter)

  /** Both axis filters fresh, with the same tuning. */
  function New(minCutoff: real, beta: real, dCutoff: real): VecOneEuroFilter {
    VecOneEuroFilter(OneEuro.New(minCutoff, beta, dCutoff), OneEuro.New(minCutoff, beta, dCutoff))
  }

  predicate Tuned(f: VecOneEuroFilter) {
    OneEuro.Tuned(f.xf) && OneEuro.Tuned(f.yf)
  }

  /**
   Filters a point. The tuning of both axes is kept, each axis filter stores its
   own output coordinate, and a filter whose axis filters are fresh returns the
   point itself.
   */
  function Filter(f: VecOneEuroFilter, p: Vec, dt: real): (r: (VecOneEuroFilter, Vec))
    requires dt > 0.0 && Tuned(f)
    ensures Tuned(r.0)
    ensures r.0.xf.minCutoff == f.xf.minCutoff && r.0.xf.beta == f.xf.beta && r.0.xf.dCutoff == f.xf.dCutoff
    ensures r.0.yf.minCutoff == f.yf.minCutoff && r.0.yf.beta == f.yf.beta && r.0.yf.dCutoff == f.yf.dCutoff
    ensures r.0.xf.xFilt.hatXPrev == r.1.x && r.0.yf.xFilt.hatXPrev == r.1.y
    ensures f.xf.xFilt.firstTime && f.yf.xFilt.firstTime ==> r.1 == p
  {
    var fx := OneEuro.Filter(f.xf, p.x, dt);
    var fy := OneEuro.Filter(f.yf, p.y, dt);
    (VecOneEuroFilter(fx.0, fy.0), Vec(fx.1, fy.1))
  }

  /**
   No coupling between the axes: two points with the same x coordinate give
   the same x output and the same x filter state, whatever their y.
   */
  lemma AxesIndependent(f: VecOneEuroFilter, p: Vec, q: Vec, dt: real)
    requires dt > 0.0 && Tuned(f)
    requires p.x == q.x
    ensures Filter(f, p, dt).1.x == Filter(f, q, dt).1.x
    ensures Filter(f, p, dt).0.xf == Filter(f, q, dt).0.xf
  {
  }

  /** A fresh 2D filter at rest on a point keeps returning that point while it stays put. */
  lemma ConstantPointIsFixed(minCutoff: real, beta: real, dCutoff: real, p: Vec, dt: real)
    requires dt > 0.0 && minCutoff > 0.0 && beta >= 0.0 && dCutoff > 0.0
    ensures Filter(New(minCutoff, beta, dCutoff), p, dt).1 == p
    ensures var g := Filter(New(minCutoff, beta, dCutoff), p, dt).0;
            Filter(g, p, dt) == (g, p)
  {
    var g := Filter(New(minCutoff, beta, dCutoff), p, dt).0;
    OneEuro.FirstCallSettles(minCutoff, beta, dCutoff, p.x, dt);
    OneEuro.FirstCallSettles(minCutoff, beta, dCutoff, p.y, dt);
    OneEuro.SettledIsFixed(g.xf, p.x, dt);
    OneEuro.SettledIsFixed(g.yf, p.y, dt);
  }
}
