/**
 * The read API of a package file (s4lt/core/package.py). Opening parses the
 * header, then the index at the header's index position, and wraps every
 * entry in a Resource sharing the open file; a failure closes the file.
 */
module Packages {
  import opened Bytes
  import opened Wrappers
  import opened Exceptions
  import opened Files
  import opened Header
  import opened Index
  import opened Resources

  /** What Package.open parses out of the file contents, as a function. */
  function OpenSpec(data: seq<byte>): (r: Result<(DBPFHeader, seq<IndexEntry>), Error>)
    ensures r.Failure? ==> r.error in {InvalidMagicError, UnsupportedVersionError, CorruptedIndexError}
    ensures r.Success? ==> r.value.0.versionMajor == 2 && |r.value.1| == r.value.0.entryCount
  {
    var h := ParseHeader(ReadAt(data, 0, HEADER_SIZE));
    if h.Failure? then Failure(h.error)
    else
      var idx := IndexSpec(data, h.value.indexPosition, h.value.entryCount);
      IndexErrorIsCorruptedIndex(data, h.value.indexPosition, h.value.entryCount);
      IndexLength(data, h.value.indexPosition, h.value.entryCount);
      if idx.Failure? then Failure(idx.error) else Success((h.value, idx.value.0))
  }

  /** The index entries behind a list of resources. */
  function Entries(rs: seq<Resource>): (es: seq<IndexEntry>)
    ensures |es| == |rs| && forall i :: 0 <= i < |rs| ==> es[i] == rs[i].entry
  {
    if rs == [] then [] else Entries(rs[..|rs| - 1]) + [rs[|rs| - 1].entry]
  }

  /** The resources of rs whose type id is t, in their original order. */
  function OfType(rs: seq<Resource>, t: nat): (r: seq<Resource>)
    ensures |r| <= |rs|
    ensures forall i :: 0 <= i < |r| ==> r[i] in rs && r[i].entry.typeId == t
    ensures forall i :: 0 <= i < |rs| && rs[i].entry.typeId == t ==> rs[i] in r
  {
    if rs == [] then [] else
      var rest := OfType(rs[..|rs| - 1], t);
      if rs[|rs| - 1].entry.typeId == t then rest + [rs[|rs| - 1]] else rest
  }

  /** Filtering distributes over concatenation, so it keeps the original order. */
  lemma {:induction false} OfTypeConcat(a: seq<Resource>, b: seq<Resource>, t: nat)
    ensures OfType(a + b, t) == OfType(a, t) + OfType(b, t)
    decreases |b|
  {
    if b == [] {
      assert a + b == a;
    } else {
      var b' := b[..|b| - 1];
      assert (a + b)[..|a + b| - 1] == a + b';
      OfTypeConcat(a, b', t);
    }
  }

  /** A list whose every resource has type t is kept whole; none of them, emptied. */
  lemma {:induction false} OfTypeAllOrNone(rs: seq<Resource>, t: nat)
    ensures (forall i :: 0 <= i < |rs| ==> rs[i].entry.typeId == t) ==> OfType(rs, t) == rs
    ensures (forall i :: 0 <= i < |rs| ==> rs[i].entry.typeId != t) ==> OfType(rs, t) == []
  {
    if rs != [] {
      OfTypeAllOrNone(rs[..|rs| - 1], t);
      assert rs == rs[..|rs| - 1] + [rs[|rs| - 1]];
    }
  }

  class Package {
    var file: BinaryFile?
    const header: DBPFHeader
    const resources: seq<Resource>

    constructor (file: BinaryFile, header: DBPFHeader, resources: seq<Resource>)
      ensures this.file == file && this.header == header && this.resources == resources
    {
      this.file := file;
      this.header := header;
      this.resources := resources;
    }

    /**
     * Package.open on a freshly opened file: on success one fresh, empty-cached
     * Resource per index entry, in index order, all reading the same file; on
     * failure the file is closed and the parse error is raised.
     */
    static method Open(f: BinaryFile) returns (r: Result<Package, Error>)
      requires !f.closed && f.pos == 0
      modifies f
      ensures var s := OpenSpec(f.data);
        (s.Failure? ==> r == Failure(s.error) && f.closed) &&
        (s.Success? ==>
          r.Success? && fresh(r.value) && r.value.file == f && !f.closed &&
          r.value.header == s.value.0 && Entries(r.value.resources) == s.value.1 &&
          forall i :: 0 <= i < |r.value.resources| ==>
            fresh(r.value.resources[i]) && r.value.resources[i].file == f && r.value.resources[i].cachedData == None)
    {
      var block := f.Read(HEADER_SIZE);
      var h := ParseHeader(block);
      assert h == ParseHeader(ReadAt(f.data, 0, HEADER_SIZE));
      if h.Failure? {
        f.Close();
        return Failure(h.error);
      }
      var header := h.value;
      f.Seek(header.indexPosition);
      var entries := ParseIndex(f, header.entryCount);
      if entries.Failure? {
        f.Close();
        return Failure(entries.error);
      }
      var es := entries.value;
      assert OpenSpec(f.data) == Success((header, es));
      var rs: seq<Resource> := [];
      var i := 0;
      while i < |es|
        modifies {}
        invariant 0 <= i <= |es| && |rs| == i
        invariant forall j :: 0 <= j < i ==>
          fresh(rs[j]) && rs[j].entry == es[j] && rs[j].file == f && rs[j].cachedData == None
      {
        var res := new Resource(es[i], f);
        rs := rs + [res];
        i := i + 1;
      }
      assert Entries(rs) == es;
      var pkg := new Package(f, header, rs);
      return Success(pkg);
    }

    /** A package as open returns it: a version 2 header and one resource per entry. */
    ghost predicate Valid()
    {
      header.versionMajor == 2 && |resources| == header.entryCount
    }

    /** version: the header's (major, minor), major 2 for an opened package. */
    function Version(): (v: (nat, nat))
      ensures v.0 == header.versionMajor && v.1 == header.versionMinor
      ensures Valid() ==> v.0 == 2
    {
      header.Version()
    }

    /** len(pkg): the number of resources, the header's entry count for an opened package. */
    function Len(): (n: nat)
      ensures n == |resources|
      ensures Valid() ==> n == header.entryCount
    {
      |resources|
    }

    /** find_by_type: exactly the resources of type t, in original order. */
    function FindByType(t: nat): (r: seq<Resource>)
      ensures forall i :: 0 <= i < |r| ==> r[i] in resources && r[i].TypeId() == t
      ensures forall i :: 0 <= i < |resources| && resources[i].TypeId() == t ==> resources[i] in r
    {
      OfType(resources, t)
    }

    /** find_by_instance: the first resource with instance id, or None if there is none. */
    method FindByInstance(id: nat) returns (r: Option<Resource>)
      ensures r.Some? ==>
        exists i :: 0 <= i < |resources| && resources[i] == r.value && r.value.InstanceId() == id &&
          forall j :: 0 <= j < i ==> resources[j].InstanceId() != id
      ensures r.None? ==> forall j :: 0 <= j < |resources| ==> resources[j].InstanceId() != id
    {
      var i := 0;
      while i < |resources|
        invariant 0 <= i <= |resources|
        invariant forall j :: 0 <= j < i ==> resources[j].InstanceId() != id
      {
        if resources[i].InstanceId() == id {
          return Some(resources[i]);
        }
        i := i + 1;
      }
      return None;
    }

    /** close: close the file if one is held, then hold none; a second close does nothing. */
    method Close()
      modifies this`file, file
      ensures file == null
      ensures old(file) != null ==> old(file).closed
    {
      if file != null {
        file.Close();
        file := null;
      }
    }
  }
}
