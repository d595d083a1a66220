/**
 * Mask file names for a coadd tile (desmasks/files.py). A full tile name may
 * carry a `_r<reqnum>p<attnum>` processing tag, which mask files do not; the
 * mask and bounds file names are built from the tile name without it. The
 * mask directory, which the package reads from the environment, is a
 * parameter here.
 */
module Files {
  import opened Text

  /** `'_r' in name` */
  predicate HasProcessingTag(name: string)
    ensures HasProcessingTag(name) <==> exists pre, post :: name == pre + "_r" + post
  {
    TagAsSubstring(name);
    exists i :: 0 <= i < |name| - 1 && name[i] == '_' && name[i + 1] == 'r'
  }

  /** A `_` followed by `r` at some index is `_r` occurring as a substring. */
  lemma TagAsSubstring(name: string)
    ensures (exists i :: 0 <= i < |name| - 1 && name[i] == '_' && name[i + 1] == 'r')
        <==> exists pre, post :: name == pre + "_r" + post
  {
    if i :| 0 <= i < |name| - 1 && name[i] == '_' && name[i + 1] == 'r' {
      assert name == name[..i] + "_r" + name[i + 2..];
    }
    if pre, post :| name == pre + "_r" + post {
      assert name[|pre|] == '_' && name[|pre| + 1] == 'r';
    }
  }

  /** `lst[0:n]` on a Python list */
  function Take<T>(lst: seq<T>, n: nat): (r: seq<T>)
    ensures r == lst[..if n <= |lst| then n else |lst|]
  {
    if n <= |lst| then lst[..n] else lst
  }

  /** `_extract_mask_tilename`: drop the reqnum/attnum tag from a tile name. */
  function MaskTilename(full: string): (r: string)
    ensures !HasProcessingTag(full) ==> r == full
    ensures HasProcessingTag(full) ==>
      var fields := Split(full, '_');
      |fields| >= 2 && r == fields[0] + "_" + fields[1]
  {
    if HasProcessingTag(full) then
      var fields := Split(full, '_');
      TagMeansTwoFields(full);
      assert Take(fields, 2) == [fields[0], fields[1]];
      assert Join([fields[1]], '_') == fields[1];
      Join(Take(fields, 2), '_')
    else full
  }

  /** A name holding `_r` holds a `_`, so it splits into at least two fields. */
  lemma TagMeansTwoFields(full: string)
    requires HasProcessingTag(full)
    ensures |Split(full, '_')| >= 2
  {
    var i :| 0 <= i < |full| - 1 && full[i] == '_' && full[i + 1] == 'r';
    assert '_' in full;
  }

  /** With a tag, the mask tile name is a prefix of the full name holding exactly one `_`. */
  lemma {:induction false} MaskTilenameIsTwoFieldPrefix(full: string)
    requires HasProcessingTag(full)
    ensures MaskTilename(full) <= full
    ensures multiset(MaskTilename(full))['_'] == 1
  {
    var fields := Split(full, '_');
    TagMeansTwoFields(full);
    JoinSplit(full, '_');
    assert full == fields[0] + "_" + Join(fields[1..], '_');
    assert fields[1] == fields[1..][0];
    var r := MaskTilename(full);
    assert r == fields[0] + "_" + fields[1];
    assert '_' !in fields[0] && '_' !in fields[1];
    assert multiset(r) == multiset(fields[0]) + multiset("_") + multiset(fields[1]);
  }

  /** Removing the tag twice is the same as removing it once. */
  lemma {:induction false} MaskTilenameIdempotent(full: string)
    ensures MaskTilename(MaskTilename(full)) == MaskTilename(full)
  {
    if HasProcessingTag(full) {
      var fields := Split(full, '_');
      TagMeansTwoFields(full);
      var r := MaskTilename(full);
      var two := [fields[0], fields[1]];
      assert Join(two, '_') == r;
      SplitJoin(two, '_');
      if HasProcessingTag(r) {
        assert MaskTilename(r) == Join(two, '_');
      }
    }
  }

  /** The documented example: `SN-C3_C10_r3688p01` has mask tile name `SN-C3_C10`. */
  lemma DocumentedExample(full: string)
    requires full == "SN-C3_C10_r3688p01"
    ensures MaskTilename(full) == "SN-C3_C10"
  {
    ExampleTilenameFields(full);
    ExampleConcat();
  }

  lemma ExampleTilenameFields(full: string)
    requires full == "SN-C3_C10_r3688p01"
    ensures MaskTilename(full) == "SN-C3" + "_" + "C10"
  {
    assert full[9] == '_' && full[10] == 'r';
    ExampleFields();
    var fields := Split(full, '_');
    assert fields == ["SN-C3", "C10", "r3688p01"];
    assert MaskTilename(full) == fields[0] + "_" + fields[1];
  }

  lemma ExampleConcat()
    ensures "SN-C3" + "_" + "C10" == "SN-C3_C10"
  {
  }

  /** The documented example's fields. */
  lemma ExampleFields()
    ensures Split("SN-C3_C10_r3688p01", '_') == ["SN-C3", "C10", "r3688p01"]
  {
    var fields := ["SN-C3", "C10", "r3688p01"];
    assert Join(fields[2..], '_') == "r3688p01";
    assert Join(fields[1..], '_') == "C10_r3688p01";
    assert Join(fields, '_') == "SN-C3_C10_r3688p01";
    assert '_' !in fields[0] && '_' !in fields[1] && '_' !in fields[2];
    SplitJoin(fields, '_');
  }

  /** The documented basic tile name has no tag and is its own mask tile name. */
  lemma DocumentedBasicName()
    ensures MaskTilename("SN-C3_C10") == "SN-C3_C10"
  {
    var b := "SN-C3_C10";
    assert 'r' !in b;
    forall i | 0 <= i < |b| - 1
      ensures !(b[i] == '_' && b[i + 1] == 'r')
    {
      assert b[i + 1] in b;
    }
  }

  /** `os.path.join(d, name)` for two components on POSIX. */
  function PathJoin(d: string, name: string): (r: string)
    ensures StartsWith(name, "/") ==> r == name
    ensures !StartsWith(name, "/") && d != "" && d[|d| - 1] != '/' ==> r == d + "/" + name
    ensures !StartsWith(name, "/") && (d == "" || d[|d| - 1] == '/') ==> r == d + name
  {
    if StartsWith(name, "/") then name
    else if d == "" || d[|d| - 1] == '/' then d + name
    else d + "/" + name
  }

  const MaskSuffix := "-griz-healsparse.fits"
  const BoundsSuffix := "-griz-bounds-healsparse.fits"

  /** `get_mask_file`, with the mask directory given. */
  function MaskFile(dir: string, tile: string): (r: string)
    ensures NamesFile(r, dir, tile, MaskSuffix)
  {
    MaskTilenameKeepsLeadingSlash(tile);
    PathJoin(dir, MaskTilename(tile) + MaskSuffix)
  }

  /** `get_bounds_file`, with the mask directory given. */
  function BoundsFile(dir: string, tile: string): (r: string)
    ensures NamesFile(r, dir, tile, BoundsSuffix)
  {
    MaskTilenameKeepsLeadingSlash(tile);
    PathJoin(dir, MaskTilename(tile) + BoundsSuffix)
  }

  /**
   * `path` ends with the mask tile name followed by `suffix`, and, for a plain
   * directory and a relative tile name, is exactly `dir/<mask tile><suffix>`.
   */
  predicate NamesFile(path: string, dir: string, tile: string, suffix: string)
  {
    && |MaskTilename(tile) + suffix| <= |path|
    && path[|path| - |MaskTilename(tile) + suffix|..] == MaskTilename(tile) + suffix
    && (dir != "" && dir[|dir| - 1] != '/' && !StartsWith(tile, "/") ==>
          path == dir + "/" + MaskTilename(tile) + suffix)
  }

  /** The mask tile name is empty exactly when the tile name is, and starts with the same character. */
  lemma MaskTilenameHead(tile: string)
    ensures MaskTilename(tile) == [] <==> tile == []
    ensures tile != [] ==> MaskTilename(tile)[0] == tile[0]
  {
    if HasProcessingTag(tile) {
      MaskTilenameIsTwoFieldPrefix(tile);
      assert MaskTilename(tile) != [];
    }
  }

  /** The mask tile name starts with `/` exactly when the tile name does. */
  lemma MaskTilenameKeepsLeadingSlash(tile: string)
    ensures StartsWith(MaskTilename(tile) + MaskSuffix, "/") <==> StartsWith(tile, "/")
    ensures StartsWith(MaskTilename(tile) + BoundsSuffix, "/") <==> StartsWith(tile, "/")
  {
    var m := MaskTilename(tile);
    MaskTilenameHead(tile);
    var x, y := m + MaskSuffix, m + BoundsSuffix;
    assert x[..1] == [x[0]] && y[..1] == [y[0]];
    if tile == [] {
      assert x[0] == '-' && y[0] == '-';
    } else {
      assert x[0] == tile[0] && y[0] == tile[0];
      assert tile[..1] == [tile[0]];
    }
  }

  /** The basic and the full tile name give the same mask file and bounds file. */
  lemma FullAndBasicNameSameFiles(dir: string, full: string)
    ensures MaskFile(dir, MaskTilename(full)) == MaskFile(dir, full)
    ensures BoundsFile(dir, MaskTilename(full)) == BoundsFile(dir, full)
  {
    MaskTilenameIdempotent(full);
  }

  /** The bounds file of a tile is never its mask file. */
  lemma {:induction false} BoundsFileDiffersFromMaskFile(dir: string, tile: string)
    ensures BoundsFile(dir, tile) != MaskFile(dir, tile)
  {
    var m := MaskTilename(tile);
    var a := MaskFile(dir, tile);
    var b := BoundsFile(dir, tile);
    MaskTilenameKeepsLeadingSlash(tile);
    if StartsWith(tile, "/") {
      assert |a| == |m| + |MaskSuffix| && |b| == |m| + |BoundsSuffix|;
    } else if dir == "" || dir[|dir| - 1] == '/' {
      assert |a| == |dir| + |m| + |MaskSuffix| && |b| == |dir| + |m| + |BoundsSuffix|;
    } else {
      assert |a| == |dir| + 1 + |m| + |MaskSuffix| && |b| == |dir| + 1 + |m| + |BoundsSuffix|;
    }
  }
}
