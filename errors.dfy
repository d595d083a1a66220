/**
 * Outcomes shared by the whole model. The Python package signals failure by
 * raising; each raise site (or each implicit failure of the interpreter, such
 * as reading an unbound local) becomes one constructor of `Error`.
 */
module Errors {

  datatype Option<+T> = None | Some(value: T)

  datatype Error =
    /** `bands=` given to a loader whose table has no `band` column */
    | BandsWithoutBandField
    /** `values` has a length other than the number of rows */
    | ValuesLength(got: nat, want: nat)
    /** `read_imgdata` found no row whose band is in `bands` */
    | NoneMatchedBands(bands: seq<string>)
    /** a local variable is read before any assignment (UnboundLocalError) */
    | UnboundLocal(name: string)
    /** `max`/`min` of an empty column (numpy reduction without identity) */
    | EmptyReduction(column: string)
    /** an index past the end of a parsed number list (IndexError) */
    | IndexOutOfRange(index: nat, size: nat)
    /** a region token that `float` does not accept */
    | BadNumber(token: string)
    /** a flat integer list that cannot be reshaped into rows of pairs */
    | OddLength(size: nat)

  datatype Result<+T> = Ok(value: T) | Err(error: Error)
}
