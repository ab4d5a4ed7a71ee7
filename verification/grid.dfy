/** A field sampled on a longitude x latitude x time grid, each cell's time series
    held with NaN as `None`. */
module Grid {
  import opened Wrappers

  /** The time series of one grid cell. */
  type Series = seq<Option<real>>

  /** Longitude x latitude x time. */
  type Field = seq<seq<Series>>

  /** `u.shape == (len(u), nlat, nt)`. */
  predicate Shaped(u: Field, nlat: nat, nt: nat) {
    forall x :: 0 <= x < |u| ==> |u[x]| == nlat && forall y :: 0 <= y < nlat ==> |u[x][y]| == nt
  }
}
