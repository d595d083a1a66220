/**
 * The object-id mask (desmasks/objmasks.py): a list of masked object ids,
 * read from a text file of `number id` pairs. Reading the file is not part
 * of this model; its integers are given as a sequence.
 */
module ObjMasks {
  import opened Errors

  /** The flag `get_mask_flags` writes for a masked object. */
  const MaskedFlag: int := 64

  /**
   * `_load_mask`: read the integers as rows of two and keep the second
   * column. numpy refuses to reshape an odd number of integers into pairs.
   */
  function SecondColumn(data: seq<int>): (r: Result<seq<int>>)
    ensures |data| % 2 == 1 <==> r.Err?
    ensures r.Err? ==> r.error == OddLength(|data|)
    ensures r.Ok? ==> |r.value| == |data| / 2 && forall k :: 0 <= k < |r.value| ==> r.value[k] == data[2 * k + 1]
  {
    if |data| % 2 == 1 then Err(OddLength(|data|))
    else Ok(seq(|data| / 2, k requires 0 <= k < |data| / 2 => data[2 * k + 1]))
  }

  /** Every loaded id comes from the second column of the file. */
  lemma LoadedIdsAreFromFile(data: seq<int>)
    requires SecondColumn(data).Ok?
    ensures forall id :: id in SecondColumn(data).value ==>
      exists k :: 0 <= k < |data| / 2 && data[2 * k + 1] == id
  {
    var ids := SecondColumn(data).value;
    forall id | id in ids
      ensures exists k :: 0 <= k < |data| / 2 && data[2 * k + 1] == id
    {
      var k :| 0 <= k < |ids| && ids[k] == id;
      assert data[2 * k + 1] == id;
    }
  }

  /** Every id of the second column of the file is loaded. */
  lemma FileIdsAreLoaded(data: seq<int>, k: nat)
    requires SecondColumn(data).Ok? && k < |data| / 2
    ensures data[2 * k + 1] in SecondColumn(data).value
  {
    assert SecondColumn(data).value[k] == data[2 * k + 1];
  }

  /** `ObjMask`: the masked object ids. */
  class ObjMask {
    const objids: seq<int>

    /** `ObjMask.__init__` with the ids `_load_mask` produced. */
    constructor (ids: seq<int>)
      ensures objids == ids
    {
      objids := ids;
    }

    /** `ObjMask.__init__` on the integers of a file. */
    static method Load(data: seq<int>) returns (r: Result<ObjMask>)
      ensures r.Err? <==> |data| % 2 == 1
      ensures r.Err? ==> r.error == OddLength(|data|)
      ensures r.Ok? ==> r.value.objids == SecondColumn(data).value
    {
      var ids := SecondColumn(data);
      if ids.Err? {
        return Err(ids.error);
      }
      var m := new ObjMask(ids.value);
      r := Ok(m);
    }

    /** `is_masked`: which of the query ids are in the mask. */
    method IsMasked(query: seq<int>) returns (r: seq<bool>)
      ensures |r| == |query|
      ensures forall i :: 0 <= i < |query| ==> (r[i] <==> query[i] in objids)
    {
      var masked := new bool[|query|](_ => false);
      for i := 0 to |query|
        invariant forall j :: 0 <= j < i ==> (masked[j] <==> query[j] in objids)
        invariant forall j :: i <= j < |query| ==> !masked[j]
      {
        if query[i] in objids {
          masked[i] := true;
        }
      }
      r := masked[..];
    }

    /** `is_unmasked`: `~is_masked`. */
    method IsUnmasked(query: seq<int>) returns (r: seq<bool>)
      ensures |r| == |query|
      ensures forall i :: 0 <= i < |query| ==> (r[i] <==> query[i] !in objids)
    {
      var masked := IsMasked(query);
      r := seq(|masked|, i requires 0 <= i < |masked| => !masked[i]);
    }

    /** `get_mask_flags`: 64 for a masked id, 0 for any other. */
    method GetMaskFlags(query: seq<int>) returns (r: seq<int>)
      ensures |r| == |query|
      ensures forall i :: 0 <= i < |query| ==> r[i] == (if query[i] in objids then MaskedFlag else 0)
      ensures forall i :: 0 <= i < |query| ==> r[i] == 0 || r[i] == MaskedFlag
    {
      var flags := new int[|query|](_ => 0);
      var masked := IsMasked(query);
      for i := 0 to |query|
        invariant forall j :: 0 <= j < i ==> flags[j] == (if masked[j] then MaskedFlag else 0)
        invariant forall j :: i <= j < |query| ==> flags[j] == 0
      {
        if masked[i] {
          flags[i] := MaskedFlag;
        }
      }
      r := flags[..];
    }
  }
}
