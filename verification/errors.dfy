/** The exceptions the plotting script can raise on the modelled paths.
    Each one aborts the whole invocation: none of them is caught. */
module Errors {

  datatype Error =
    | ListDirFailed(path: string)            // os.listdir on a missing base directory
    | LegendMismatch(legends: nat, dirs: nat) // the legend assertion in get_all_datasets
    | UnorderableNames                       // sorted() comparing None with a str
    | DuplicateColumn(name: string)          // DataFrame.insert of an existing column
    | MissingColumn(name: string)            // indexing a frame by an absent column
    | NonNumericColumn(name: string)         // np.convolve on a column of strings
    | EmptySeries                            // np.convolve on an empty array
    | LengthMismatch(rows: nat, values: nat) // assigning a column of the wrong length
}
