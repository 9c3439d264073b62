/**
 * What the loops over opened packages (merge, split, conflict detection) see.
 * Package.open and Resource.extract are modelled in their own modules; here
 * their outcomes are values: each path comes with the entries of the opened
 * package, or the error open raised, and each resource with what its first
 * extract returns.
 */
module Opened {
  import opened Bytes
  import opened Wrappers
  import opened Exceptions
  import opened Index
  import opened Compression
  import opened Resources
  import opened Packages
  import opened Writer

  /** One resource of an opened package: its index entry and the outcome of res.extract(). */
  datatype ResourceView = ResourceView(entry: IndexEntry, extracted: Result<seq<byte>, Error>)

  /** One path handed to Package.open, with its resources or the error open raised. */
  datatype OpenedPackage = OpenedPackage(path: string, outcome: Result<seq<ResourceView>, Error>)

  /** The view of the package file with the given contents: what Package.open and then each first extract give. */
  function OpenAt(path: string, data: seq<byte>, z: Deflate): (p: OpenedPackage)
    ensures p.path == path
    ensures OpenSpec(data).Failure? <==> p.outcome.Failure?
    ensures p.outcome.Success? ==>
      |p.outcome.value| == |OpenSpec(data).value.1| &&
      forall i :: 0 <= i < |p.outcome.value| ==>
        p.outcome.value[i].entry == OpenSpec(data).value.1[i] &&
        p.outcome.value[i].extracted == ExtractSpec(data, OpenSpec(data).value.1[i], z)
  {
    match OpenSpec(data)
    case Failure(e) => OpenedPackage(path, Failure(e))
    case Success((_, es)) =>
      OpenedPackage(path, Success(seq(|es|, i requires 0 <= i < |es| => ResourceView(es[i], ExtractSpec(data, es[i], z)))))
  }

  /** The dict merge and split hand to write_package for a resource: its ids, the extracted data, is_compressed. */
  function RecordOf(e: IndexEntry, data: seq<byte>): ResourceRecord
  {
    ResourceRecord(e.typeId, e.groupId, e.instanceId, data, e.IsCompressed())
  }
}
