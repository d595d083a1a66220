/**
 * Selection of catalog rows and their conversion into geometric primitives
 * (desmasks/loadmasks.py). A catalog extension is a `Table`: the set of its
 * column names and its rows. Reading the extension from disk is not modelled;
 * the rows are given.
 */
module LoadMasks {
  import opened Errors
  import opened Text
  import opened Seqs
  import opened Geometry

  /**
   * One catalog row. A field only carries data when the table has the
   * column of the same name (`ra_1` for `ra1`, and so on).
   */
  datatype Row = Row(
    ccdnum: int,
    badpix: bv32,
    band: string,
    ra: real, dec: real, radius: real,
    ra1: real, ra2: real, ra3: real, ra4: real,
    dec1: real, dec2: real, dec3: real, dec4: real,
    rac1: real, rac2: real, rac3: real, rac4: real,
    decc1: real, decc2: real, decc3: real, decc4: real)

  datatype Table = Table(columns: set<string>, rows: seq<Row>)

  /** The `values` argument of the loaders: one bit value, or one per row. */
  datatype Values = Scalar(v: int) | PerRow(vs: seq<int>)

  /** CCDs 31 and 2 are not used. */
  predicate GoodCcd(row: Row)
  {
    row.ccdnum != 31 && row.ccdnum != 2
  }

  /** `read_stars`: the star masks off the two unused CCDs. */
  function ReadStars(data: Table): (r: Table)
    ensures r.columns == data.columns
    ensures forall x :: x in r.rows <==> x in data.rows && x.ccdnum != 31 && x.ccdnum != 2
    ensures r.rows == Filter(data.rows, GoodCcd)
  {
    FilterMembers(data.rows, GoodCcd);
    Table(data.columns, Filter(data.rows, GoodCcd))
  }

  predicate BleedKept(skipmask: bv32, row: Row)
  {
    GoodCcd(row) && row.badpix & skipmask == 0
  }

  function BleedKeep(skipmask: bv32): Row -> bool
  {
    row => BleedKept(skipmask, row)
  }

  /** `read_bleeds`: bleed trails off the unused CCDs and with none of the `skipmask` bits. */
  function ReadBleeds(data: Table, skipmask: bv32): (r: Table)
    ensures r.columns == data.columns
    ensures forall x :: x in r.rows <==>
      x in data.rows && x.ccdnum != 31 && x.ccdnum != 2 && x.badpix & skipmask == 0
    ensures r.rows == Filter(data.rows, BleedKeep(skipmask))
  {
    FilterMembers(data.rows, BleedKeep(skipmask));
    Table(data.columns, Filter(data.rows, BleedKeep(skipmask)))
  }

  /** With the default `skipmask=0` only the CCD filter applies. */
  lemma BleedsWithoutSkipmaskAreStars(data: Table)
    ensures ReadBleeds(data, 0) == ReadStars(data)
  {
    FilterSamePredicate(data.rows, BleedKeep(0), GoodCcd);
  }

  /** Selected rows keep the catalog order: selecting from two halves selects from the whole. */
  lemma {:induction false} ReadBleedsKeepsOrder(cols: set<string>, a: seq<Row>, b: seq<Row>, skipmask: bv32)
    ensures ReadBleeds(Table(cols, a + b), skipmask).rows ==
      ReadBleeds(Table(cols, a), skipmask).rows + ReadBleeds(Table(cols, b), skipmask).rows
  {
    FilterAppend(a, b, BleedKeep(skipmask));
  }

  // ---------------------------------------------------------------------
  // read_imgdata

  predicate BandListed(bands: seq<string>, row: Row)
  {
    RStrip(row.band) in bands
  }

  function BandKeep(bands: seq<string>): Row -> bool
  {
    row => BandListed(bands, row)
  }

  /** The rows `read_imgdata` keeps before trimming. */
  function ImgSelection(rows: seq<Row>, bands: Option<seq<string>>): (r: seq<Row>)
    ensures bands.None? ==> r == rows
    ensures bands.Some? ==> forall x :: x in r <==> x in rows && RStrip(x.band) in bands.value
  {
    if bands.None? then rows
    else
      FilterMembers(rows, BandKeep(bands.value));
      Filter(rows, BandKeep(bands.value))
  }

  /** The eight corner columns of a CCD or tile rectangle. */
  datatype Corner = RAC1 | RAC2 | RAC3 | RAC4 | DECC1 | DECC2 | DECC3 | DECC4

  function CornerOf(row: Row, c: Corner): real
  {
    match c
    case RAC1 => row.rac1
    case RAC2 => row.rac2
    case RAC3 => row.rac3
    case RAC4 => row.rac4
    case DECC1 => row.decc1
    case DECC2 => row.decc2
    case DECC3 => row.decc3
    case DECC4 => row.decc4
  }

  /** The values of one corner column. */
  function Column(rows: seq<Row>, c: Corner): (col: seq<real>)
    ensures |col| == |rows|
    ensures forall k :: 0 <= k < |rows| ==> col[k] == CornerOf(rows[k], c)
  {
    seq(|rows|, k requires 0 <= k < |rows| => CornerOf(rows[k], c))
  }

  /** `xs.max()` */
  function MaxOf(xs: seq<real>): (m: real)
    requires |xs| > 0
    ensures forall k :: 0 <= k < |xs| ==> xs[k] <= m
    ensures m in xs
  {
    if |xs| == 1 then xs[0]
    else
      var m := MaxOf(xs[1..]);
      if xs[0] >= m then xs[0] else m
  }

  /** `xs.min()` */
  function MinOf(xs: seq<real>): (m: real)
    requires |xs| > 0
    ensures forall k :: 0 <= k < |xs| ==> m <= xs[k]
    ensures m in xs
  {
    if |xs| == 1 then xs[0]
    else
      var m := MinOf(xs[1..]);
      if xs[0] <= m then xs[0] else m
  }

  /** `m` is the largest value of `xs` and `ys` together. */
  predicate IsGreatest(m: real, xs: seq<real>, ys: seq<real>)
  {
    (forall x :: x in xs ==> x <= m) && (forall y :: y in ys ==> y <= m) && (m in xs || m in ys)
  }

  /** `m` is the smallest value of `xs` and `ys` together. */
  predicate IsLeast(m: real, xs: seq<real>, ys: seq<real>)
  {
    (forall x :: x in xs ==> m <= x) && (forall y :: y in ys ==> m <= y) && (m in xs || m in ys)
  }

  /** A row with its eight corner coordinates cleared. */
  function WithoutCorners(row: Row): Row
  {
    row.(rac1 := 0.0, rac2 := 0.0, rac3 := 0.0, rac4 := 0.0,
         decc1 := 0.0, decc2 := 0.0, decc3 := 0.0, decc4 := 0.0)
  }

  /**
   * `row` is the first of `rows` with its corners moved to the box common to
   * all rows: corners 1 and 2 on the largest of their RAs, 3 and 4 on the
   * smallest of theirs, corners 2 and 3 on the largest of their Decs, 1 and 4
   * on the smallest of theirs.
   */
  predicate IsCommonBox(row: Row, rows: seq<Row>)
    requires |rows| > 0
  {
    && WithoutCorners(row) == WithoutCorners(rows[0])
    && row.rac1 == row.rac2 && IsGreatest(row.rac1, Column(rows, RAC1), Column(rows, RAC2))
    && row.rac3 == row.rac4 && IsLeast(row.rac3, Column(rows, RAC3), Column(rows, RAC4))
    && row.decc2 == row.decc3 && IsGreatest(row.decc2, Column(rows, DECC2), Column(rows, DECC3))
    && row.decc1 == row.decc4 && IsLeast(row.decc1, Column(rows, DECC1), Column(rows, DECC4))
  }

  /** The larger of two maxima is the greatest of both columns. */
  lemma MaxOfBoth(xs: seq<real>, ys: seq<real>)
    requires |xs| > 0 && |ys| > 0
    ensures IsGreatest(if MaxOf(xs) >= MaxOf(ys) then MaxOf(xs) else MaxOf(ys), xs, ys)
  {
  }

  /** The smaller of two minima is the least of both columns. */
  lemma MinOfBoth(xs: seq<real>, ys: seq<real>)
    requires |xs| > 0 && |ys| > 0
    ensures IsLeast(if MinOf(xs) <= MinOf(ys) then MinOf(xs) else MinOf(ys), xs, ys)
  {
  }

  /** `max(a, b)` on two numbers */
  function Max2(a: real, b: real): real { if a >= b then a else b }

  /** `min(a, b)` on two numbers */
  function Min2(a: real, b: real): real { if a <= b then a else b }

  /**
   * `read_imgdata`: keep the rows whose right-stripped band is listed, then,
   * with `trim`, reduce them to one row whose corners bound the region
   * common to all of them.
   */
  method ReadImgdata(data: seq<Row>, bands: Option<seq<string>>, trim: bool) returns (r: Result<seq<Row>>)
    ensures bands.Some? && bands.value == [] ==> r == Err(UnboundLocal("logic"))
    ensures bands.Some? && bands.value != [] && ImgSelection(data, bands) == [] ==>
      r == Err(NoneMatchedBands(bands.value))
    ensures bands.None? && trim && data == [] ==> r == Err(EmptyReduction("rac1"))
    ensures r.Ok? <==>
      (bands.None? || bands.value != []) && (ImgSelection(data, bands) != [] || (bands.None? && !trim))
    ensures r.Ok? && !trim ==> r.value == ImgSelection(data, bands)
    ensures r.Ok? && trim ==> |r.value| == 1 && IsCommonBox(r.value[0], ImgSelection(data, bands))
  {
    var selected := data;
    if bands.Some? {
      var bs := bands.value;
      var dbands := seq(|data|, k requires 0 <= k < |data| => RStrip(data[k].band));
      var logic: seq<bool> := [];
      var bound := false;
      for i := 0 to |bs|
        invariant bound <==> i > 0
        invariant bound ==> |logic| == |data|
        invariant bound ==> forall k :: 0 <= k < |data| ==> (logic[k] <==> dbands[k] in bs[..i])
      {
        var tlogic := seq(|data|, k requires 0 <= k < |data| => dbands[k] == bs[i]);
        if i == 0 {
          logic := tlogic;
        } else {
          logic := seq(|data|, k requires 0 <= k < |data| => logic[k] || tlogic[k]);
        }
        assert bs[..i + 1] == bs[..i] + [bs[i]];
        bound := true;
      }
      if !bound {
        return Err(UnboundLocal("logic"));
      }
      assert bs[..|bs|] == bs;
      SelectIsFilter(data, logic, BandKeep(bs));
      selected := Select(data, logic);
      if |selected| == 0 {
        return Err(NoneMatchedBands(bs));
      }
    }
    assert selected == ImgSelection(data, bands);
    if trim {
      if |selected| == 0 {
        return Err(EmptyReduction("rac1"));
      }
      var c1, c2 := Column(selected, RAC1), Column(selected, RAC2);
      var c3, c4 := Column(selected, RAC3), Column(selected, RAC4);
      var d1, d2 := Column(selected, DECC1), Column(selected, DECC2);
      var d3, d4 := Column(selected, DECC3), Column(selected, DECC4);
      var minra := Max2(MaxOf(c1), MaxOf(c2));
      var maxra := Min2(MinOf(c3), MinOf(c4));
      var mindec := Max2(MaxOf(d2), MaxOf(d3));
      var maxdec := Min2(MinOf(d1), MinOf(d4));
      MaxOfBoth(c1, c2);
      MinOfBoth(c3, c4);
      MaxOfBoth(d2, d3);
      MinOfBoth(d1, d4);
      var first := selected[0];
      first := first.(rac1 := minra, rac2 := minra, rac3 := maxra, rac4 := maxra);
      first := first.(decc1 := maxdec, decc2 := mindec, decc3 := mindec, decc4 := maxdec);
      r := Ok([first]);
    } else {
      r := Ok(selected);
    }
  }

  // ---------------------------------------------------------------------
  // get_trimmed_tile_geom

  /** Size of one image pixel, in arcseconds. */
  const PixelScale: real := 0.263

  /** The width, in degrees, of a border of `trimPixels` pixels. */
  function TrimOffset(trimPixels: int): (off: real)
    ensures trimPixels > 0 ==> off > 0.0
    ensures trimPixels == 0 ==> off == 0.0
    ensures trimPixels < 0 ==> off < 0.0
    ensures off * 3600.0 == trimPixels as real * PixelScale
  {
    trimPixels as real * (PixelScale / 3600.0)
  }

  /**
   * `get_trimmed_tile_geom`: a copy of the tile geometry with every corner
   * moved by `TrimOffset(trimPixels)`; the input is left as it was.
   */
  method GetTrimmedTileGeom(indata: array<Row>, trimPixels: int) returns (data: array<Row>)
    ensures fresh(data) && data.Length == indata.Length
    ensures indata[..] == old(indata[..])
    ensures forall k :: 0 <= k < data.Length ==>
      var off, was, now := TrimOffset(trimPixels), indata[k], data[k];
      && WithoutCorners(now) == WithoutCorners(was)
      && now.rac1 == was.rac1 - off && now.rac2 == was.rac2 + off
      && now.rac3 == was.rac3 + off && now.rac4 == was.rac4 - off
      && now.decc1 == was.decc1 + off && now.decc2 == was.decc2 + off
      && now.decc3 == was.decc3 - off && now.decc4 == was.decc4 - off
  {
    data := new Row[indata.Length](k reads indata requires 0 <= k < indata.Length => indata[k]);
    var off := TrimOffset(trimPixels);
    for k := 0 to data.Length
      invariant forall j :: k <= j < data.Length ==> data[j] == indata[j]
      invariant forall j :: 0 <= j < k ==>
        var was, now := indata[j], data[j];
        && WithoutCorners(now) == WithoutCorners(was)
        && now.rac1 == was.rac1 - off && now.rac2 == was.rac2 + off
        && now.rac3 == was.rac3 + off && now.rac4 == was.rac4 - off
        && now.decc1 == was.decc1 + off && now.decc2 == was.decc2 + off
        && now.decc3 == was.decc3 - off && now.decc4 == was.decc4 - off
    {
      var row := data[k];
      data[k] := row.(rac1 := row.rac1 - off, rac2 := row.rac2 + off,
                      rac3 := row.rac3 + off, rac4 := row.rac4 - off,
                      decc1 := row.decc1 + off, decc2 := row.decc2 + off,
                      decc3 := row.decc3 - off, decc4 := row.decc4 - off);
    }
  }

  // ---------------------------------------------------------------------
  // _extract_values, _extract_vert

  /** `_extract_values`: broadcast a scalar to `n` values, or check a list has `n`. */
  function ExtractValues(values: Values, n: nat): (r: Result<seq<int>>)
    ensures r.Ok? <==> values.Scalar? || |values.vs| == n
    ensures r.Err? ==> r.error == ValuesLength(|values.vs|, n)
    ensures r.Ok? ==> |r.value| == n
    ensures r.Ok? && values.Scalar? ==> forall i :: 0 <= i < n ==> r.value[i] == values.v
    ensures r.Ok? && values.PerRow? ==> r.value == values.vs
  {
    match values
    case Scalar(v) => Ok(seq(n, _ => v))
    case PerRow(vs) => if |vs| != n then Err(ValuesLength(|vs|, n)) else Ok(vs)
  }

  /**
   * `_extract_vert`: the four vertices of a row's rectangle, from the
   * `ra_1..ra_4`/`dec_1..dec_4` columns when the table has them and from the
   * corner columns `rac1..rac4`/`decc1..decc4` otherwise.
   */
  function ExtractVert(row: Row, columns: set<string>): (r: (seq<real>, seq<real>))
    ensures |r.0| == 4 && |r.1| == 4
    ensures "ra_1" in columns ==> r.0 == [row.ra1, row.ra2, row.ra3, row.ra4]
    ensures "ra_1" in columns ==> r.1 == [row.dec1, row.dec2, row.dec3, row.dec4]
    ensures "ra_1" !in columns ==> r.0 == [row.rac1, row.rac2, row.rac3, row.rac4]
    ensures "ra_1" !in columns ==> r.1 == [row.decc1, row.decc2, row.decc3, row.decc4]
  {
    if "ra_1" in columns then
      ([row.ra1, row.ra2, row.ra3, row.ra4], [row.dec1, row.dec2, row.dec3, row.dec4])
    else
      ([row.rac1, row.rac2, row.rac3, row.rac4], [row.decc1, row.decc2, row.decc3, row.decc4])
  }

  // ---------------------------------------------------------------------
  // load_circles

  predicate CircleKept(bands: Option<seq<string>>, row: Row)
  {
    bands.None? || Strip(row.band) in bands.value
  }

  function CircleKeep(bands: Option<seq<string>>): Row -> bool
  {
    row => CircleKept(bands, row)
  }

  /**
   * `c` is centred on `row`, has the row's radius converted from arcseconds
   * to degrees and scaled by `expand`, and carries the value `v`.
   */
  predicate CircleOfRow(c: Circle, row: Row, v: int, expand: real)
  {
    c.ra == row.ra && c.dec == row.dec && c.radius == row.radius / 3600.0 * expand && c.value == v
  }

  /** `cs` holds one circle per kept row among the first `n`, in row order, each with its own row's value. */
  predicate CirclesOfRows(cs: seq<Circle>, rows: seq<Row>, vals: seq<int>, bands: Option<seq<string>>, expand: real, n: nat)
    requires n <= |rows| == |vals|
  {
    var idx := KeptIndices(rows[..n], CircleKeep(bands));
    && |cs| == |idx|
    && forall j :: 0 <= j < |idx| ==> CircleOfRow(cs[j], rows[idx[j]], vals[idx[j]], expand)
  }

  lemma CirclesOfRowsStep(cs: seq<Circle>, rows: seq<Row>, vals: seq<int>, bands: Option<seq<string>>, expand: real, i: nat, c: Circle)
    requires i < |rows| == |vals|
    requires CirclesOfRows(cs, rows, vals, bands, expand, i)
    requires CircleOfRow(c, rows[i], vals[i], expand)
    ensures CircleKept(bands, rows[i]) ==> CirclesOfRows(cs + [c], rows, vals, bands, expand, i + 1)
    ensures !CircleKept(bands, rows[i]) ==> CirclesOfRows(cs, rows, vals, bands, expand, i + 1)
  {
    var keep := CircleKeep(bands);
    KeptIndicesStep(rows, i, keep);
    var idx, idx' := KeptIndices(rows[..i], keep), KeptIndices(rows[..i + 1], keep);
    if keep(rows[i]) {
      var cs' := cs + [c];
      assert idx' == idx + [i];
      forall j | 0 <= j < |idx'|
        ensures CircleOfRow(cs'[j], rows[idx'[j]], vals[idx'[j]], expand)
      {
        if j < |idx| {
          assert cs'[j] == cs[j] && idx'[j] == idx[j];
        }
      }
    } else {
      assert idx' == idx;
    }
  }

  /** `load_circles` */
  method LoadCircles(data: Table, values: Values, bands: Option<seq<string>>, expand: real)
    returns (r: Result<seq<Circle>>)
    ensures bands.Some? && "band" !in data.columns ==> r == Err(BandsWithoutBandField)
    ensures bands.None? || "band" in data.columns ==>
      && (r.Ok? <==> ExtractValues(values, |data.rows|).Ok?)
      && (r.Err? ==> r.error == ExtractValues(values, |data.rows|).error)
    ensures r.Ok? ==>
      && ExtractValues(values, |data.rows|).Ok?
      && CirclesOfRows(r.value, data.rows, ExtractValues(values, |data.rows|).value, bands, expand, |data.rows|)
    ensures r.Ok? && bands.None? ==> |r.value| == |data.rows|
  {
    var hasBands := "band" in data.columns;
    if bands.Some? && !hasBands {
      return Err(BandsWithoutBandField);
    }
    var ev := ExtractValues(values, |data.rows|);
    if ev.Err? {
      return Err(ev.error);
    }
    var vals := ev.value;
    var rows := data.rows;
    var circles: seq<Circle> := [];
    for i := 0 to |rows|
      invariant CirclesOfRows(circles, rows, vals, bands, expand, i)
    {
      var row := rows[i];
      var radius := row.radius / 3600.0;
      radius := radius * expand;
      var circle := Circle(row.ra, row.dec, radius, vals[i]);
      CirclesOfRowsStep(circles, rows, vals, bands, expand, i, circle);
      if bands.Some? {
        var band := Strip(row.band);
        if band !in bands.value {
          continue;
        }
      }
      circles := circles + [circle];
    }
    if bands.None? {
      assert rows[..|rows|] == rows;
      KeptIndicesAll(rows, CircleKeep(bands));
    }
    r := Ok(circles);
  }

  // ---------------------------------------------------------------------
  // load_polygons

  /** The `badpix` value of an edge bleed, skipped in the u and Y bands. */
  const EdgeBleed: bv32 := 128

  /** A row of the u or Y band that is exactly an edge bleed. */
  predicate IsUYEdgeBleed(columns: set<string>, row: Row)
  {
    && "band" in columns && "badpix" in columns
    && Strip(row.band) in ["u", "Y"] && row.badpix == EdgeBleed
  }

  predicate PolygonKept(columns: set<string>, bands: Option<seq<string>>, row: Row)
  {
    && (bands.None? || "band" !in columns || Strip(row.band) in bands.value)
    && !IsUYEdgeBleed(columns, row)
  }

  function PolygonKeep(columns: set<string>, bands: Option<seq<string>>): Row -> bool
  {
    row => PolygonKept(columns, bands, row)
  }

  /** `p` has the four vertices of `row` and carries the value `v`. */
  predicate PolygonOfRow(p: Polygon, columns: set<string>, row: Row, v: int)
  {
    p == Polygon(ExtractVert(row, columns).0, ExtractVert(row, columns).1, v)
  }

  /** `ps` holds one polygon per kept row among the first `n`, in row order, each with its own row's value. */
  predicate PolygonsOfRows(ps: seq<Polygon>, columns: set<string>, rows: seq<Row>, vals: seq<int>, bands: Option<seq<string>>, n: nat)
    requires n <= |rows| == |vals|
  {
    var idx := KeptIndices(rows[..n], PolygonKeep(columns, bands));
    && |ps| == |idx|
    && forall j :: 0 <= j < |idx| ==> PolygonOfRow(ps[j], columns, rows[idx[j]], vals[idx[j]])
  }

  lemma PolygonsOfRowsStep(ps: seq<Polygon>, columns: set<string>, rows: seq<Row>, vals: seq<int>, bands: Option<seq<string>>, i: nat, p: Polygon)
    requires i < |rows| == |vals|
    requires PolygonsOfRows(ps, columns, rows, vals, bands, i)
    requires PolygonOfRow(p, columns, rows[i], vals[i])
    ensures PolygonKept(columns, bands, rows[i]) ==> PolygonsOfRows(ps + [p], columns, rows, vals, bands, i + 1)
    ensures !PolygonKept(columns, bands, rows[i]) ==> PolygonsOfRows(ps, columns, rows, vals, bands, i + 1)
  {
    var keep := PolygonKeep(columns, bands);
    KeptIndicesStep(rows, i, keep);
    var idx, idx' := KeptIndices(rows[..i], keep), KeptIndices(rows[..i + 1], keep);
    if keep(rows[i]) {
      var ps' := ps + [p];
      assert idx' == idx + [i];
      forall j | 0 <= j < |idx'|
        ensures PolygonOfRow(ps'[j], columns, rows[idx'[j]], vals[idx'[j]])
      {
        if j < |idx| {
          assert ps'[j] == ps[j] && idx'[j] == idx[j];
        }
      }
    } else {
      assert idx' == idx;
    }
  }

  /**
   * `load_polygons`. Without `bands`, a table with both a `band` and a
   * `badpix` column makes the edge-bleed test read the band variable before
   * anything was assigned to it; that failure is `UnboundLocal("band")`.
   */
  method LoadPolygons(data: Table, values: Values, bands: Option<seq<string>>)
    returns (r: Result<seq<Polygon>>)
    ensures ExtractValues(values, |data.rows|).Err? ==> r == Err(ExtractValues(values, |data.rows|).error)
    ensures ExtractValues(values, |data.rows|).Ok? && bands.Some? && "band" !in data.columns ==>
      r == Err(BandsWithoutBandField)
    ensures
      (&& ExtractValues(values, |data.rows|).Ok? && bands.None? && |data.rows| > 0
       && "band" in data.columns && "badpix" in data.columns)
      ==> r == Err(UnboundLocal("band"))
    ensures r.Ok? <==>
      && ExtractValues(values, |data.rows|).Ok?
      && (bands.Some? ==> "band" in data.columns)
      && (bands.None? && "band" in data.columns && "badpix" in data.columns ==> |data.rows| == 0)
    ensures r.Ok? ==>
      && ExtractValues(values, |data.rows|).Ok?
      && PolygonsOfRows(r.value, data.columns, data.rows, ExtractValues(values, |data.rows|).value, bands, |data.rows|)
  {
    var ev := ExtractValues(values, |data.rows|);
    if ev.Err? {
      return Err(ev.error);
    }
    var vals := ev.value;
    if bands.Some? && "band" !in data.columns {
      return Err(BandsWithoutBandField);
    }
    r := LoadPolygonRows(data.columns, data.rows, vals, bands);
  }

  /**
   * The row loop of `load_polygons`, once the values and the `bands` check
   * have passed: it fails on the unbound `band` exactly when the source does.
   */
  method LoadPolygonRows(columns: set<string>, rows: seq<Row>, vals: seq<int>, bands: Option<seq<string>>)
    returns (r: Result<seq<Polygon>>)
    requires |vals| == |rows|
    requires bands.Some? ==> "band" in columns
    ensures r.Err? <==> bands.None? && "band" in columns && "badpix" in columns && |rows| > 0
    ensures r.Err? ==> r.error == UnboundLocal("band")
    ensures r.Ok? ==> PolygonsOfRows(r.value, columns, rows, vals, bands, |rows|)
  {
    var hasBands := "band" in columns;
    var hasBadpix := "badpix" in columns;
    var polygons: seq<Polygon> := [];
    // the function-wide local `band`; None while it is unbound
    var band: Option<string> := None;
    for i := 0 to |rows|
      invariant band.Some? ==> bands.Some? && hasBands
      invariant bands.None? && hasBands && hasBadpix ==> i == 0
      invariant PolygonsOfRows(polygons, columns, rows, vals, bands, i)
    {
      var row := rows[i];
      var (ra, dec) := ExtractVert(row, columns);
      var polygon := Polygon(ra, dec, vals[i]);
      PolygonsOfRowsStep(polygons, columns, rows, vals, bands, i, polygon);
      // `keep` goes false where the source says `continue`
      var keep := true;
      if hasBands && bands.Some? {
        band := Some(Strip(row.band));
        if band.value !in bands.value {
          keep := false;
        }
      }
      if keep && hasBands && hasBadpix {
        if band.None? {
          return Err(UnboundLocal("band"));
        }
        assert band.value == Strip(row.band);
        if band.value in ["u", "Y"] && row.badpix == EdgeBleed {
          keep := false;
        }
      }
      assert keep == PolygonKept(columns, bands, row);
      if keep {
        polygons := polygons + [polygon];
      }
    }
    r := Ok(polygons);
  }

  /**
   * `load_polygons` as its docstring describes it: the band of every row is
   * read whenever the table has a `band` column, so u and Y edge bleeds are
   * skipped with or without `bands`.
   */
  method LoadPolygonsReadingBand(data: Table, values: Values, bands: Option<seq<string>>)
    returns (r: Result<seq<Polygon>>)
    ensures ExtractValues(values, |data.rows|).Err? ==> r == Err(ExtractValues(values, |data.rows|).error)
    ensures ExtractValues(values, |data.rows|).Ok? && bands.Some? && "band" !in data.columns ==>
      r == Err(BandsWithoutBandField)
    ensures r.Ok? <==> ExtractValues(values, |data.rows|).Ok? && (bands.Some? ==> "band" in data.columns)
    ensures r.Ok? ==>
      && ExtractValues(values, |data.rows|).Ok?
      && PolygonsOfRows(r.value, data.columns, data.rows, ExtractValues(values, |data.rows|).value, bands, |data.rows|)
  {
    var ev := ExtractValues(values, |data.rows|);
    if ev.Err? {
      return Err(ev.error);
    }
    var vals := ev.value;
    var hasBands := "band" in data.columns;
    var hasBadpix := "badpix" in data.columns;
    if bands.Some? && !hasBands {
      return Err(BandsWithoutBandField);
    }
    var rows := data.rows;
    var polygons: seq<Polygon> := [];
    for i := 0 to |rows|
      invariant PolygonsOfRows(polygons, data.columns, rows, vals, bands, i)
    {
      var row := rows[i];
      var (ra, dec) := ExtractVert(row, data.columns);
      var polygon := Polygon(ra, dec, vals[i]);
      PolygonsOfRowsStep(polygons, data.columns, rows, vals, bands, i, polygon);
      var keep := true;
      if hasBands {
        var band := Strip(row.band);
        if bands.Some? && band !in bands.value {
          keep := false;
        } else if hasBadpix && band in ["u", "Y"] && row.badpix == EdgeBleed {
          keep := false;
        }
      }
      assert keep == PolygonKept(data.columns, bands, row);
      if keep {
        polygons := polygons + [polygon];
      }
    }
    r := Ok(polygons);
  }

  /**
   * The polygons of a table are determined by its rows: wherever the
   * original `load_polygons` succeeds, the corrected one returns the same
   * polygons.
   */
  lemma PolygonsOfRowsUnique(ps: seq<Polygon>, qs: seq<Polygon>, columns: set<string>, rows: seq<Row>,
                             vals: seq<int>, bands: Option<seq<string>>)
    requires |rows| == |vals|
    requires PolygonsOfRows(ps, columns, rows, vals, bands, |rows|)
    requires PolygonsOfRows(qs, columns, rows, vals, bands, |rows|)
    ensures ps == qs
  {
    var idx := KeptIndices(rows, PolygonKeep(columns, bands));
    assert rows[..|rows|] == rows;
    forall j | 0 <= j < |ps|
      ensures ps[j] == qs[j]
    {
      assert PolygonOfRow(ps[j], columns, rows[idx[j]], vals[idx[j]]);
      assert PolygonOfRow(qs[j], columns, rows[idx[j]], vals[idx[j]]);
    }
  }

  /** With no `bands` and no edge bleeds to skip, every row becomes one polygon, in order. */
  lemma {:induction false} OnePolygonPerRow(data: Table, vals: seq<int>, ps: seq<Polygon>)
    requires |vals| == |data.rows|
    requires forall k :: 0 <= k < |data.rows| ==> !IsUYEdgeBleed(data.columns, data.rows[k])
    requires PolygonsOfRows(ps, data.columns, data.rows, vals, None, |data.rows|)
    ensures |ps| == |data.rows|
    ensures forall k :: 0 <= k < |ps| ==>
      ps[k] == Polygon(ExtractVert(data.rows[k], data.columns).0, ExtractVert(data.rows[k], data.columns).1, vals[k])
    ensures forall k :: 0 <= k < |ps| ==> |ps[k].ras| == 4 && |ps[k].decs| == 4
  {
    assert data.rows[..|data.rows|] == data.rows;
    KeptIndicesAll(data.rows, PolygonKeep(data.columns, None));
  }

  /** An edge bleed of the u or Y band never becomes a polygon. */
  lemma EdgeBleedNeverLoaded(data: Table, bands: Option<seq<string>>, k: nat)
    requires k < |data.rows| && IsUYEdgeBleed(data.columns, data.rows[k])
    ensures k !in KeptIndices(data.rows, PolygonKeep(data.columns, bands))
  {
  }
}
