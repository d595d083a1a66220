/**
 * The combined bad-region mask and tile boundary of a coadd tile
 * (desmasks/masks.py). The two healsparse maps become lookups from a sky
 * position to the map value there; reading them from their files is not part
 * of this model.
 */
module Masks {

  /** `TileMask`: the bad-region mask map and the tile bounds map. */
  datatype TileMask = TileMask(maskMap: (real, real) -> int, boundsMap: (real, real) -> int)

  /** A position is masked when it is in a bad region or outside the tile. */
  predicate MaskedAt(m: TileMask, ra: real, dec: real)
  {
    m.maskMap(ra, dec) > 0 || m.boundsMap(ra, dec) == 0
  }

  /** `is_masked`, element by element over the positions. */
  function IsMasked(m: TileMask, ra: seq<real>, dec: seq<real>): (r: seq<bool>)
    requires |ra| == |dec|
    ensures |r| == |ra|
    ensures forall i :: 0 <= i < |r| ==> (r[i] <==> m.maskMap(ra[i], dec[i]) > 0 || m.boundsMap(ra[i], dec[i]) == 0)
  {
    seq(|ra|, i requires 0 <= i < |ra| => MaskedAt(m, ra[i], dec[i]))
  }

  /** `is_unmasked`: `~is_masked`. */
  function IsUnmasked(m: TileMask, ra: seq<real>, dec: seq<real>): (r: seq<bool>)
    requires |ra| == |dec|
    ensures |r| == |ra|
    ensures forall i :: 0 <= i < |r| ==> r[i] == !IsMasked(m, ra, dec)[i]
  {
    var masked := IsMasked(m, ra, dec);
    seq(|masked|, i requires 0 <= i < |masked| => !masked[i])
  }

  /** `get_mask_flags`: the mask map values, without the bounds. */
  function GetMaskFlags(m: TileMask, ra: seq<real>, dec: seq<real>): (r: seq<int>)
    requires |ra| == |dec|
    ensures |r| == |ra|
    ensures forall i :: 0 <= i < |r| ==> r[i] == m.maskMap(ra[i], dec[i])
  {
    seq(|ra|, i requires 0 <= i < |ra| => m.maskMap(ra[i], dec[i]))
  }

  /** A position is unmasked exactly when it is clean in the mask and inside the tile. */
  lemma UnmaskedMeansCleanAndInside(m: TileMask, ra: seq<real>, dec: seq<real>)
    requires |ra| == |dec|
    ensures forall i :: 0 <= i < |ra| ==>
      (IsUnmasked(m, ra, dec)[i] <==> m.maskMap(ra[i], dec[i]) <= 0 && m.boundsMap(ra[i], dec[i]) != 0)
  {
  }

  /** Outside the tile bounds everything is masked, whatever the mask map says. */
  lemma OutsideBoundsIsMasked(m: TileMask, ra: seq<real>, dec: seq<real>, i: nat)
    requires |ra| == |dec| && i < |ra|
    requires m.boundsMap(ra[i], dec[i]) == 0
    ensures IsMasked(m, ra, dec)[i]
  {
  }

  /** Inside the tile, a position is masked exactly when its mask flag is positive. */
  lemma InsideBoundsMaskedIffFlag(m: TileMask, ra: seq<real>, dec: seq<real>)
    requires |ra| == |dec|
    ensures forall i :: 0 <= i < |ra| && m.boundsMap(ra[i], dec[i]) != 0 ==>
      (IsMasked(m, ra, dec)[i] <==> GetMaskFlags(m, ra, dec)[i] > 0)
  {
  }

  /** The flags do not depend on the bounds map. */
  lemma FlagsIgnoreBounds(m: TileMask, bounds: (real, real) -> int, ra: seq<real>, dec: seq<real>)
    requires |ra| == |dec|
    ensures GetMaskFlags(m, ra, dec) == GetMaskFlags(m.(boundsMap := bounds), ra, dec)
  {
  }

  /** Masking is element-wise: the answer for a longer query extends the answer for its prefix. */
  lemma MaskedIsElementwise(m: TileMask, ra: seq<real>, dec: seq<real>, ra2: seq<real>, dec2: seq<real>)
    requires |ra| == |dec| && |ra2| == |dec2|
    ensures IsMasked(m, ra + ra2, dec + dec2) == IsMasked(m, ra, dec) + IsMasked(m, ra2, dec2)
  {
    var a := IsMasked(m, ra + ra2, dec + dec2);
    var b := IsMasked(m, ra, dec) + IsMasked(m, ra2, dec2);
    forall i | 0 <= i < |a|
      ensures a[i] == b[i]
    {
      if i >= |ra| {
        assert (ra + ra2)[i] == ra2[i - |ra|] && (dec + dec2)[i] == dec2[i - |ra|];
      }
    }
  }
}
