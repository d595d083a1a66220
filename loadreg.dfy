/**
 * Circles and polygons read from a ds9 region file already converted to sky
 * coordinates (desmasks/loadreg.py). The file is given as its lines; the
 * conversion of one token to a number (Python's `float`) is the parameter
 * `parse`, which answers None for a token `float` rejects.
 */
module LoadReg {
  import opened Errors
  import opened Text
  import opened Seqs
  import opened Geometry

  /** Bit value of a star mask. */
  const STAR := 32
  /** Bit value of a bleed-trail mask. */
  const TRAIL := 64

  // ---------------------------------------------------------------------
  // ExtractorBase.__init__

  /** `line[line.find('(') + 1 : line.find(')')]` */
  function Payload(line: string): (r: string)
    ensures ')' !in r
    ensures var i, j := Find(line, '('), Find(line, ')');
      0 <= i < j ==> line == line[..i] + "(" + r + ")" + line[j + 1..] && '(' !in line[..i]
  {
    PayloadSlice(line);
    Slice(line, Find(line, '(') + 1, Find(line, ')'))
  }

  /** The two facts `Payload` promises, about the slice it takes. */
  lemma PayloadSlice(line: string)
    ensures var i, j := Find(line, '('), Find(line, ')');
      var r := Slice(line, i + 1, j);
      && ')' !in r
      && (0 <= i < j ==> line == line[..i] + "(" + r + ")" + line[j + 1..] && '(' !in line[..i])
  {
    SliceBeforeClose(line);
    SliceBetween(line);
  }

  /** The slice `Payload` takes ends before the first `)`, if there is one. */
  lemma SliceBeforeClose(line: string)
    ensures ')' !in Slice(line, Find(line, '(') + 1, Find(line, ')'))
  {
    var i, j := Find(line, '('), Find(line, ')');
    var lo, hi := SliceBound(i + 1, |line|), SliceBound(j, |line|);
    if lo < hi {
      var bound := if j >= 0 then j else |line|;
      assert ')' !in line[..bound];
      assert Slice(line, i + 1, j) == line[..bound][lo..hi];
    }
  }

  /** With a `(` before the first `)`, the line is the text around the slice and the two brackets. */
  lemma SliceBetween(line: string)
    ensures var i, j := Find(line, '('), Find(line, ')');
      0 <= i < j ==>
        line == line[..i] + "(" + Slice(line, i + 1, j) + ")" + line[j + 1..] && '(' !in line[..i]
  {
    var i, j := Find(line, '('), Find(line, ')');
    if 0 <= i < j {
      var body := line[i + 1..j];
      assert Slice(line, i + 1, j) == body;
      Around(line, j);
      Around(line[..j], i);
      assert line[..j][..i] == line[..i] && line[..j][i + 1..] == body;
    }
  }

  /** The payload is the text strictly between the first `(` and the first `)`. */
  lemma {:induction false} PayloadBetweenParens(pre: string, body: string, post: string)
    requires '(' !in pre && ')' !in pre && ')' !in body
    ensures Payload(pre + "(" + body + ")" + post) == body
  {
    var line := pre + "(" + body + ")" + post;
    assert line[|pre|] == '(' && line[..|pre|] == pre;
    assert line[|pre| + 1 + |body|] == ')' && line[..|pre| + 1 + |body|] == pre + "(" + body;
    assert ')' !in pre + "(" + body;
    assert line[|pre| + 1..|pre| + 1 + |body|] == body;
  }

  /**
   * Without a `)`, `find` answers -1 and the slice stops one short of the end:
   * the last character of the line is lost.
   */
  lemma {:induction false} PayloadWithoutCloseParen(pre: string, rest: string)
    requires '(' !in pre && ')' !in pre && ')' !in rest && |rest| >= 1
    ensures Payload(pre + "(" + rest) == rest[..|rest| - 1]
  {
    var line := pre + "(" + rest;
    assert line[|pre|] == '(' && line[..|pre|] == pre;
    assert ')' !in line;
    assert line[|pre| + 1..|line| - 1] == rest[..|rest| - 1];
  }

  /** `[float(v) for v in tokens]`: the numbers, or the first token that is not one. */
  function ParseNumbers(tokens: seq<string>, parse: string -> Option<real>): (r: Result<seq<real>>)
    ensures r.Ok? <==> forall k :: 0 <= k < |tokens| ==> parse(tokens[k]).Some?
    ensures r.Ok? ==> |r.value| == |tokens| && forall k :: 0 <= k < |tokens| ==> r.value[k] == parse(tokens[k]).value
    ensures r.Err? ==> exists k :: 0 <= k < |tokens| && parse(tokens[k]).None? && r.error == BadNumber(tokens[k])
  {
    if |tokens| == 0 then Ok([])
    else
      match parse(tokens[0])
      case None => Err(BadNumber(tokens[0]))
      case Some(x) =>
        match ParseNumbers(tokens[1..], parse)
        case Err(e) => Err(e)
        case Ok(xs) => Ok([x] + xs)
  }

  /** The numbers of a region line: its payload split on `,`, each token parsed. */
  function LineNumbers(line: string, parse: string -> Option<real>): (r: Result<seq<real>>)
    ensures r.Ok? ==> forall k :: 0 <= k < |Split(Payload(line), ',')| ==> parse(Split(Payload(line), ',')[k]).Some?
    ensures (forall k :: 0 <= k < |Split(Payload(line), ',')| ==> parse(Split(Payload(line), ',')[k]).Some?) ==> r.Ok?
    ensures r.Ok? ==> |r.value| == |Split(Payload(line), ',')|
    ensures r.Ok? ==> forall k :: 0 <= k < |r.value| ==> r.value[k] == parse(Split(Payload(line), ',')[k]).value
  {
    ParseNumbers(Split(Payload(line), ','), parse)
  }

  // ---------------------------------------------------------------------
  // CircleExtractor, extract_circle

  /** `extract_circle`: a star circle from the first three numbers of the line. */
  function ExtractCircle(line: string, parse: string -> Option<real>): (r: Result<Circle>)
    ensures r.Ok? <==> LineNumbers(line, parse).Ok? && |LineNumbers(line, parse).value| >= 3
    ensures LineNumbers(line, parse).Err? ==> r == Err(LineNumbers(line, parse).error)
    ensures LineNumbers(line, parse).Ok? && |LineNumbers(line, parse).value| < 3 ==>
      r == Err(IndexOutOfRange(|LineNumbers(line, parse).value|, |LineNumbers(line, parse).value|))
    ensures r.Ok? ==>
      var data := LineNumbers(line, parse).value;
      && |data| >= 3
      && r.value.ra == data[0] && r.value.dec == data[1] && r.value.radius == data[2]
      && r.value.value == STAR
  {
    match LineNumbers(line, parse)
    case Err(e) => Err(e)
    case Ok(data) =>
      if |data| < 3 then Err(IndexOutOfRange(|data|, |data|))
      else Ok(Circle(data[0], data[1], data[2], STAR))
  }

  // ---------------------------------------------------------------------
  // PolygonExtractor, extract_polygon

  /** The vertices of a flat list `ra0, dec0, ra1, dec1, ...`; an unpaired last number is dropped. */
  function Pairs(data: seq<real>): (r: (seq<real>, seq<real>))
    ensures |r.0| == |data| / 2 && |r.1| == |data| / 2
    ensures forall i :: 0 <= i < |data| / 2 ==> r.0[i] == data[2 * i] && r.1[i] == data[2 * i + 1]
  {
    (seq(|data| / 2, i requires 0 <= i < |data| / 2 => data[2 * i]),
     seq(|data| / 2, i requires 0 <= i < |data| / 2 => data[2 * i + 1]))
  }

  /** The flat list `ra0, dec0, ra1, dec1, ...` of a vertex list. */
  function Interleave(ra: seq<real>, dec: seq<real>): (r: seq<real>)
    requires |ra| == |dec|
    ensures |r| == 2 * |ra|
  {
    if |ra| == 0 then [] else [ra[0], dec[0]] + Interleave(ra[1..], dec[1..])
  }

  lemma {:induction false} InterleaveAt(ra: seq<real>, dec: seq<real>, i: nat)
    requires |ra| == |dec| && i < |ra|
    ensures Interleave(ra, dec)[2 * i] == ra[i] && Interleave(ra, dec)[2 * i + 1] == dec[i]
  {
    if i > 0 {
      InterleaveAt(ra[1..], dec[1..], i - 1);
    }
  }

  /** Interleaving the pairs gives back the list up to its last complete pair. */
  lemma PairsThenInterleave(data: seq<real>)
    ensures Interleave(Pairs(data).0, Pairs(data).1) == data[..2 * (|data| / 2)]
  {
    var (ra, dec) := Pairs(data);
    var flat := Interleave(ra, dec);
    forall k | 0 <= k < |flat|
      ensures flat[k] == data[k]
    {
      InterleaveAt(ra, dec, k / 2);
    }
  }

  /** Pairing an interleaved list gives back its vertices. */
  lemma InterleaveThenPairs(ra: seq<real>, dec: seq<real>)
    requires |ra| == |dec|
    ensures Pairs(Interleave(ra, dec)) == (ra, dec)
  {
    var flat := Interleave(ra, dec);
    var p := Pairs(flat);
    assert |flat| / 2 == |ra|;
    forall i | 0 <= i < |ra|
      ensures p.0[i] == ra[i] && p.1[i] == dec[i]
    {
      InterleaveAt(ra, dec, i);
    }
    assert p.0 == ra && p.1 == dec;
  }

  /** `PolygonExtractor._extract`: fill two zeroed arrays with the vertex coordinates. */
  method PairVertices(data: seq<real>) returns (ras: seq<real>, decs: seq<real>)
    ensures (ras, decs) == Pairs(data)
  {
    var npair := |data| / 2;
    var ra := new real[npair](_ => 0.0);
    var dec := new real[npair](_ => 0.0);
    for i := 0 to npair
      invariant forall j :: 0 <= j < i ==> ra[j] == data[2 * j] && dec[j] == data[2 * j + 1]
    {
      var ira := i * 2;
      var idec := i * 2 + 1;
      ra[i] := data[ira];
      dec[i] := data[idec];
    }
    ras, decs := ra[..], dec[..];
    assert ras == Pairs(data).0 && decs == Pairs(data).1;
  }

  /** The polygon `extract_polygon` builds from a line. */
  function PolygonOfLine(line: string, parse: string -> Option<real>): (r: Result<Polygon>)
    ensures r.Ok? <==> LineNumbers(line, parse).Ok?
    ensures r.Err? ==> r.error == LineNumbers(line, parse).error
    ensures r.Ok? ==> r.value.value == TRAIL && (r.value.ras, r.value.decs) == Pairs(LineNumbers(line, parse).value)
  {
    match LineNumbers(line, parse)
    case Err(e) => Err(e)
    case Ok(data) => Ok(Polygon(Pairs(data).0, Pairs(data).1, TRAIL))
  }

  /** `extract_polygon` */
  method ExtractPolygon(line: string, parse: string -> Option<real>) returns (r: Result<Polygon>)
    ensures r == PolygonOfLine(line, parse)
  {
    var data := LineNumbers(line, parse);
    if data.Err? {
      return Err(data.error);
    }
    var ra, dec := PairVertices(data.value);
    r := Ok(Polygon(ra, dec, TRAIL));
  }

  // ---------------------------------------------------------------------
  // load_regions

  predicate IsCircleLine(s: string)
  {
    StartsWith(s, "circle")
  }

  predicate IsPolygonLine(s: string)
  {
    !StartsWith(s, "circle") && StartsWith(s, "polygon")
  }

  /** Each line without its surrounding whitespace. */
  function Stripped(lines: seq<string>): (r: seq<string>)
    ensures |r| == |lines| && forall i :: 0 <= i < |lines| ==> r[i] == Strip(lines[i])
  {
    seq(|lines|, i requires 0 <= i < |lines| => Strip(lines[i]))
  }

  /** The stripped circle lines of a file, in file order. */
  function CircleLines(lines: seq<string>): seq<string>
  {
    Filter(Stripped(lines), IsCircleLine)
  }

  /** The stripped polygon lines of a file, in file order. */
  function PolygonLines(lines: seq<string>): seq<string>
  {
    Filter(Stripped(lines), IsPolygonLine)
  }

  lemma RegionLinesStep(lines: seq<string>, i: nat)
    requires i < |lines|
    ensures CircleLines(lines[..i + 1]) ==
      CircleLines(lines[..i]) + (if IsCircleLine(Strip(lines[i])) then [Strip(lines[i])] else [])
    ensures PolygonLines(lines[..i + 1]) ==
      PolygonLines(lines[..i]) + (if IsPolygonLine(Strip(lines[i])) then [Strip(lines[i])] else [])
  {
    var s := Stripped(lines[..i + 1]);
    assert s[..i] == Stripped(lines[..i]);
  }

  lemma RegionLinesOfPrefix(lines: seq<string>, n: nat)
    requires n <= |lines|
    ensures forall x :: x in CircleLines(lines[..n]) ==> x in CircleLines(lines)
    ensures forall x :: x in PolygonLines(lines[..n]) ==> x in PolygonLines(lines)
  {
    forall x | x in Stripped(lines[..n])
      ensures x in Stripped(lines)
    {
      var k :| 0 <= k < n && Stripped(lines[..n])[k] == x;
      assert Stripped(lines)[k] == x;
    }
    forall x | x in CircleLines(lines[..n])
      ensures x in CircleLines(lines)
    {
      FilterMembership(Stripped(lines[..n]), IsCircleLine, x);
      FilterMembership(Stripped(lines), IsCircleLine, x);
    }
    forall x | x in PolygonLines(lines[..n])
      ensures x in PolygonLines(lines)
    {
      FilterMembership(Stripped(lines[..n]), IsPolygonLine, x);
      FilterMembership(Stripped(lines), IsPolygonLine, x);
    }
  }

  /** Every circle line and every polygon line of the file can be extracted. */
  predicate AllExtractable(lines: seq<string>, parse: string -> Option<real>)
  {
    && (forall l :: l in CircleLines(lines) ==> ExtractCircle(l, parse).Ok?)
    && (forall l :: l in PolygonLines(lines) ==> PolygonOfLine(l, parse).Ok?)
  }

  /**
   * Every line of `cl` is an extractable circle and every line of `pl` an
   * extractable polygon, and `circles` and `polygons` are what they give.
   */
  predicate Extracted(cl: seq<string>, pl: seq<string>, parse: string -> Option<real>,
                      circles: seq<Circle>, polygons: seq<Polygon>)
  {
    CirclesExtracted(cl, parse, circles) && PolygonsExtracted(pl, parse, polygons)
  }

  predicate CirclesExtracted(cl: seq<string>, parse: string -> Option<real>, circles: seq<Circle>)
  {
    && (forall l :: l in cl ==> ExtractCircle(l, parse).Ok?)
    && |circles| == |cl|
    && (forall k :: 0 <= k < |circles| ==> circles[k] == ExtractCircle(cl[k], parse).value)
  }

  predicate PolygonsExtracted(pl: seq<string>, parse: string -> Option<real>, polygons: seq<Polygon>)
  {
    && (forall l :: l in pl ==> PolygonOfLine(l, parse).Ok?)
    && |polygons| == |pl|
    && (forall k :: 0 <= k < |polygons| ==> polygons[k] == PolygonOfLine(pl[k], parse).value)
  }

  lemma ExtractedCircle(cl: seq<string>, parse: string -> Option<real>, circles: seq<Circle>, l: string)
    requires CirclesExtracted(cl, parse, circles) && ExtractCircle(l, parse).Ok?
    ensures CirclesExtracted(cl + [l], parse, circles + [ExtractCircle(l, parse).value])
  {
    var cl', cs' := cl + [l], circles + [ExtractCircle(l, parse).value];
    forall x | x in cl'
      ensures ExtractCircle(x, parse).Ok?
    {
      if x != l {
        assert x in cl;
      }
    }
    forall k | 0 <= k < |cs'|
      ensures cs'[k] == ExtractCircle(cl'[k], parse).value
    {
      if k < |circles| {
        assert cs'[k] == circles[k] && cl'[k] == cl[k];
      } else {
        assert cs'[k] == ExtractCircle(l, parse).value && cl'[k] == l;
      }
    }
  }

  lemma ExtractedPolygon(pl: seq<string>, parse: string -> Option<real>, polygons: seq<Polygon>, l: string)
    requires PolygonsExtracted(pl, parse, polygons) && PolygonOfLine(l, parse).Ok?
    ensures PolygonsExtracted(pl + [l], parse, polygons + [PolygonOfLine(l, parse).value])
  {
    var pl', ps' := pl + [l], polygons + [PolygonOfLine(l, parse).value];
    forall x | x in pl'
      ensures PolygonOfLine(x, parse).Ok?
    {
      if x != l {
        assert x in pl;
      }
    }
    forall k | 0 <= k < |ps'|
      ensures ps'[k] == PolygonOfLine(pl'[k], parse).value
    {
      if k < |polygons| {
        assert ps'[k] == polygons[k] && pl'[k] == pl[k];
      } else {
        assert ps'[k] == PolygonOfLine(l, parse).value && pl'[k] == l;
      }
    }
  }

  /** `circles` and `polygons` are what the first `n` lines of the file give. */
  predicate Loaded(lines: seq<string>, parse: string -> Option<real>, n: nat,
                   circles: seq<Circle>, polygons: seq<Polygon>)
    requires n <= |lines|
  {
    Extracted(CircleLines(lines[..n]), PolygonLines(lines[..n]), parse, circles, polygons)
  }

  lemma CircleLineStep(lines: seq<string>, parse: string -> Option<real>, i: nat,
                       circles: seq<Circle>, polygons: seq<Polygon>)
    requires i < |lines| && Loaded(lines, parse, i, circles, polygons)
    requires IsCircleLine(Strip(lines[i])) && ExtractCircle(Strip(lines[i]), parse).Ok?
    ensures Loaded(lines, parse, i + 1, circles + [ExtractCircle(Strip(lines[i]), parse).value], polygons)
  {
    var l := Strip(lines[i]);
    var cl, pl := CircleLines(lines[..i]), PolygonLines(lines[..i]);
    RegionLinesStep(lines, i);
    assert CircleLines(lines[..i + 1]) == cl + [l];
    assert PolygonLines(lines[..i + 1]) == pl;
    ExtractedCircle(cl, parse, circles, l);
  }

  lemma PolygonLineStep(lines: seq<string>, parse: string -> Option<real>, i: nat,
                        circles: seq<Circle>, polygons: seq<Polygon>)
    requires i < |lines| && Loaded(lines, parse, i, circles, polygons)
    requires IsPolygonLine(Strip(lines[i])) && PolygonOfLine(Strip(lines[i]), parse).Ok?
    ensures Loaded(lines, parse, i + 1, circles, polygons + [PolygonOfLine(Strip(lines[i]), parse).value])
  {
    var l := Strip(lines[i]);
    var cl, pl := CircleLines(lines[..i]), PolygonLines(lines[..i]);
    RegionLinesStep(lines, i);
    assert CircleLines(lines[..i + 1]) == cl;
    assert PolygonLines(lines[..i + 1]) == pl + [l];
    ExtractedPolygon(pl, parse, polygons, l);
  }

  lemma OtherLineStep(lines: seq<string>, parse: string -> Option<real>, i: nat,
                      circles: seq<Circle>, polygons: seq<Polygon>)
    requires i < |lines| && Loaded(lines, parse, i, circles, polygons)
    requires !IsCircleLine(Strip(lines[i])) && !IsPolygonLine(Strip(lines[i]))
    ensures Loaded(lines, parse, i + 1, circles, polygons)
  {
    RegionLinesStep(lines, i);
    assert CircleLines(lines[..i + 1]) == CircleLines(lines[..i]);
    assert PolygonLines(lines[..i + 1]) == PolygonLines(lines[..i]);
  }

  /** One circle or polygon line that cannot be extracted spoils the whole file. */
  lemma FailedLine(lines: seq<string>, parse: string -> Option<real>, i: nat)
    requires i < |lines|
    requires || (IsCircleLine(Strip(lines[i])) && ExtractCircle(Strip(lines[i]), parse).Err?)
             || (IsPolygonLine(Strip(lines[i])) && PolygonOfLine(Strip(lines[i]), parse).Err?)
    ensures !AllExtractable(lines, parse)
  {
    RegionLinesStep(lines, i);
    RegionLinesOfPrefix(lines, i + 1);
    var s := Strip(lines[i]);
    if IsCircleLine(s) && ExtractCircle(s, parse).Err? {
      assert s in CircleLines(lines[..i + 1]);
    } else {
      assert s in PolygonLines(lines[..i + 1]);
    }
  }

  /** The shapes `load_regions` returns: the circles, then the polygons. */
  function Shapes(circles: seq<Circle>, polygons: seq<Polygon>): (r: seq<Shape>)
    ensures |r| == |circles| + |polygons|
    ensures forall k :: 0 <= k < |circles| ==> r[k] == CircleShape(circles[k])
    ensures forall k :: 0 <= k < |polygons| ==> r[|circles| + k] == PolygonShape(polygons[k])
  {
    seq(|circles|, k requires 0 <= k < |circles| => CircleShape(circles[k]))
      + seq(|polygons|, k requires 0 <= k < |polygons| => PolygonShape(polygons[k]))
  }

  /** The shapes of a whole file, in the order `load_regions` gives them. */
  predicate RegionsOf(lines: seq<string>, parse: string -> Option<real>, shapes: seq<Shape>)
  {
    var cl := CircleLines(lines);
    var pl := PolygonLines(lines);
    && AllExtractable(lines, parse)
    && |shapes| == |cl| + |pl|
    && (forall k :: 0 <= k < |cl| ==> shapes[k] == CircleShape(ExtractCircle(cl[k], parse).value))
    && (forall k :: 0 <= k < |pl| ==> shapes[|cl| + k] == PolygonShape(PolygonOfLine(pl[k], parse).value))
  }

  lemma LoadedWhole(lines: seq<string>, parse: string -> Option<real>,
                    circles: seq<Circle>, polygons: seq<Polygon>)
    requires Loaded(lines, parse, |lines|, circles, polygons)
    ensures AllExtractable(lines, parse)
    ensures RegionsOf(lines, parse, Shapes(circles, polygons))
  {
    assert lines[..|lines|] == lines;
    var cl, pl := CircleLines(lines), PolygonLines(lines);
    assert Extracted(cl, pl, parse, circles, polygons);
    ExtractedShapes(cl, pl, parse, circles, polygons);
  }

  lemma ExtractedShapes(cl: seq<string>, pl: seq<string>, parse: string -> Option<real>,
                        circles: seq<Circle>, polygons: seq<Polygon>)
    requires Extracted(cl, pl, parse, circles, polygons)
    ensures |Shapes(circles, polygons)| == |cl| + |pl|
    ensures forall k :: 0 <= k < |cl| ==>
      Shapes(circles, polygons)[k] == CircleShape(ExtractCircle(cl[k], parse).value)
    ensures forall k :: 0 <= k < |pl| ==>
      Shapes(circles, polygons)[|cl| + k] == PolygonShape(PolygonOfLine(pl[k], parse).value)
  {
    var shapes := Shapes(circles, polygons);
    forall k | 0 <= k < |cl|
      ensures shapes[k] == CircleShape(ExtractCircle(cl[k], parse).value)
    {
      ShapeOfCircle(cl, pl, parse, circles, polygons, k);
    }
    forall k | 0 <= k < |pl|
      ensures shapes[|cl| + k] == PolygonShape(PolygonOfLine(pl[k], parse).value)
    {
      ShapeOfPolygon(cl, pl, parse, circles, polygons, k);
    }
  }

  lemma ShapeOfCircle(cl: seq<string>, pl: seq<string>, parse: string -> Option<real>,
                      circles: seq<Circle>, polygons: seq<Polygon>, k: nat)
    requires Extracted(cl, pl, parse, circles, polygons) && k < |cl|
    ensures Shapes(circles, polygons)[k] == CircleShape(ExtractCircle(cl[k], parse).value)
  {
    assert circles[k] == ExtractCircle(cl[k], parse).value;
  }

  lemma ShapeOfPolygon(cl: seq<string>, pl: seq<string>, parse: string -> Option<real>,
                       circles: seq<Circle>, polygons: seq<Polygon>, k: nat)
    requires Extracted(cl, pl, parse, circles, polygons) && k < |pl|
    ensures Shapes(circles, polygons)[|cl| + k] == PolygonShape(PolygonOfLine(pl[k], parse).value)
  {
    assert polygons[k] == PolygonOfLine(pl[k], parse).value;
  }

  /**
   * `load_regions`: every circle of the file, in file order, followed by
   * every polygon, in file order; other lines are ignored.
   */
  method LoadRegions(lines: seq<string>, parse: string -> Option<real>) returns (r: Result<seq<Shape>>)
    ensures r.Ok? <==> AllExtractable(lines, parse)
    ensures r.Ok? ==> RegionsOf(lines, parse, r.value)
  {
    var circles: seq<Circle> := [];
    var polygons: seq<Polygon> := [];
    for i := 0 to |lines|
      invariant Loaded(lines, parse, i, circles, polygons)
    {
      var line := Strip(lines[i]);
      if StartsWith(line, "circle") {
        var c := ExtractCircle(line, parse);
        if c.Err? {
          FailedLine(lines, parse, i);
          return Err(c.error);
        }
        CircleLineStep(lines, parse, i, circles, polygons);
        circles := circles + [c.value];
      } else if StartsWith(line, "polygon") {
        var p := ExtractPolygon(line, parse);
        if p.Err? {
          FailedLine(lines, parse, i);
          return Err(p.error);
        }
        PolygonLineStep(lines, parse, i, circles, polygons);
        polygons := polygons + [p.value];
      } else {
        OtherLineStep(lines, parse, i, circles, polygons);
      }
    }
    LoadedWhole(lines, parse, circles, polygons);
    r := Ok(Shapes(circles, polygons));
  }

  /** Circles read from a region file are star masks and polygons are bleed trails. */
  lemma RegionValues(lines: seq<string>, parse: string -> Option<real>, shapes: seq<Shape>)
    requires RegionsOf(lines, parse, shapes)
    ensures forall k :: 0 <= k < |CircleLines(lines)| ==> shapes[k].CircleShape? && shapes[k].circle.value == STAR
    ensures forall k :: |CircleLines(lines)| <= k < |shapes| ==> shapes[k].PolygonShape? && shapes[k].polygon.value == TRAIL
  {
    CirclesAreStars(lines, parse, shapes);
    PolygonsAreTrails(lines, parse, shapes);
  }

  lemma CirclesAreStars(lines: seq<string>, parse: string -> Option<real>, shapes: seq<Shape>)
    requires RegionsOf(lines, parse, shapes)
    ensures forall k :: 0 <= k < |CircleLines(lines)| ==> shapes[k].CircleShape? && shapes[k].circle.value == STAR
  {
    var cl := CircleLines(lines);
    forall k | 0 <= k < |cl|
      ensures shapes[k].CircleShape? && shapes[k].circle.value == STAR
    {
      assert cl[k] in cl;
      var c := ExtractCircle(cl[k], parse);
      assert c.Ok? && shapes[k] == CircleShape(c.value);
    }
  }

  lemma PolygonsAreTrails(lines: seq<string>, parse: string -> Option<real>, shapes: seq<Shape>)
    requires RegionsOf(lines, parse, shapes)
    ensures forall k :: |CircleLines(lines)| <= k < |shapes| ==> shapes[k].PolygonShape? && shapes[k].polygon.value == TRAIL
  {
    TrailsAfter(CircleLines(lines), PolygonLines(lines), parse, shapes);
  }

  /** Polygon shapes placed after `cl`'s circles all carry the trail value. */
  lemma TrailsAfter(cl: seq<string>, pl: seq<string>, parse: string -> Option<real>, shapes: seq<Shape>)
    requires |shapes| == |cl| + |pl|
    requires forall l :: l in pl ==> PolygonOfLine(l, parse).Ok?
    requires forall k :: 0 <= k < |pl| ==> shapes[|cl| + k] == PolygonShape(PolygonOfLine(pl[k], parse).value)
    ensures forall k :: |cl| <= k < |shapes| ==> shapes[k].PolygonShape? && shapes[k].polygon.value == TRAIL
  {
    forall k | |cl| <= k < |shapes|
      ensures shapes[k].PolygonShape? && shapes[k].polygon.value == TRAIL
    {
      var j := k - |cl|;
      assert pl[j] in pl;
      assert shapes[|cl| + j] == PolygonShape(PolygonOfLine(pl[j], parse).value);
    }
  }

  /** A line that is neither a circle nor a polygon changes nothing. */
  lemma OtherLinesIgnored(lines: seq<string>, other: string)
    requires !StartsWith(Strip(other), "circle") && !StartsWith(Strip(other), "polygon")
    ensures CircleLines(lines + [other]) == CircleLines(lines)
    ensures PolygonLines(lines + [other]) == PolygonLines(lines)
  {
    var all := Stripped(lines + [other]);
    assert all[..|lines|] == Stripped(lines);
    assert all[|lines|] == Strip(other);
    assert !IsCircleLine(all[|lines|]) && !IsPolygonLine(all[|lines|]);
  }
}
