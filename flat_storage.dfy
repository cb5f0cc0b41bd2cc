/**
 * The storage interface shared by the storage back ends: the description of
 * one file of the payload and the errors a back end reports.
 */
module FlatStorage {

  /**
   * One file of the payload: the components of its path below the download
   * directory, and its length in bytes.
   */
  datatype FlatStorageFile = FlatStorageFile(path: seq<string>, length: nat)

  datatype FlatStorageError = AllocateFile | ReadBlock | WriteBlock

  /** The lengths of the files, in file order. */
  function Lengths(files: seq<FlatStorageFile>): (lengths: seq<nat>)
    ensures |lengths| == |files|
    ensures forall f :: 0 <= f < |files| ==> lengths[f] == files[f].length
  {
    if files == [] then [] else [files[0].length] + Lengths(files[1..])
  }
}
