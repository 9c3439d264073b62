/**
 * Edit sessions (s4lt/editor/session.py): a session logs pending add, update
 * and delete changes against an open package and replays them on save. The
 * package's mutation methods are not part of the modelled read API, so the
 * model records the calls a session issues to its package, in order, instead
 * of giving them a meaning of their own.
 */
module Session {
  import opened Bytes
  import opened Wrappers
  import opened Exceptions
  import opened Files
  import opened Resources
  import opened Packages

  /** The action of a pending change: "add", "update" or "delete". */
  datatype Action = Add | Update | Delete

  datatype PendingChange = PendingChange(action: Action, typeId: nat, groupId: nat, instanceId: nat, data: Option<seq<byte>>)

  /** A call issued to the package: add_resource, update_resource, remove_resource or save. */
  datatype PackageCall =
    | AddResource(typeId: nat, groupId: nat, instanceId: nat, data: Option<seq<byte>>)
    | UpdateResource(typeId: nat, groupId: nat, instanceId: nat, data: Option<seq<byte>>)
    | RemoveResource(typeId: nat, groupId: nat, instanceId: nat)
    | SavePackage

  /** The call one change turns into on save: same resource key, the data for add and update. */
  function CallOf(c: PendingChange): (r: PackageCall)
    ensures r != SavePackage && r.typeId == c.typeId && r.groupId == c.groupId && r.instanceId == c.instanceId
    ensures r.AddResource? <==> c.action == Add
    ensures r.UpdateResource? <==> c.action == Update
    ensures r.RemoveResource? <==> c.action == Delete
    ensures !r.RemoveResource? ==> r.data == c.data
  {
    match c.action
    case Add => AddResource(c.typeId, c.groupId, c.instanceId, c.data)
    case Update => UpdateResource(c.typeId, c.groupId, c.instanceId, c.data)
    case Delete => RemoveResource(c.typeId, c.groupId, c.instanceId)
  }

  /** The calls a list of changes turns into, in recorded order. */
  function Replay(cs: seq<PendingChange>): (r: seq<PackageCall>)
    ensures |r| == |cs|
    ensures SavePackage !in r
  {
    if cs == [] then [] else Replay(cs[..|cs| - 1]) + [CallOf(cs[|cs| - 1])]
  }

  /** Replaying a log in two parts issues the first part's calls, then the second's. */
  lemma {:induction false} ReplayConcat(a: seq<PendingChange>, b: seq<PendingChange>)
    ensures Replay(a + b) == Replay(a) + Replay(b)
    decreases |b|
  {
    if b == [] {
      assert a + b == a;
    } else {
      var b' := b[..|b| - 1];
      assert (a + b)[..|a + b| - 1] == a + b';
      ReplayConcat(a, b');
    }
  }

  /** The i-th call replays the i-th change: one call per change, in order. */
  lemma {:induction false} ReplayAt(cs: seq<PendingChange>, i: nat)
    requires i < |cs|
    ensures Replay(cs)[i] == CallOf(cs[i])
  {
    if i < |cs| - 1 {
      ReplayAt(cs[..|cs| - 1], i);
    }
  }

  /** Replaying one more change issues one more call. */
  lemma ReplayStep(cs: seq<PendingChange>, i: nat)
    requires i < |cs|
    ensures Replay(cs[..i + 1]) == Replay(cs[..i]) + [CallOf(cs[i])]
  {
    assert cs[..i + 1][..i] == cs[..i];
  }

  class EditSession {
    const path: string
    const package: Package
    var changes: seq<PendingChange>
    /** The calls issued to the package so far. */
    var issued: seq<PackageCall>

    constructor (path: string, package: Package)
      ensures this.path == path && this.package == package && changes == [] && issued == []
    {
      this.path := path;
      this.package := package;
      changes := [];
      issued := [];
    }

    /** has_unsaved_changes. */
    predicate HasUnsavedChanges()
      reads this
      ensures HasUnsavedChanges() <==> |changes| > 0
    {
      changes != []
    }

    /** resources: the package's resources. */
    function Resources(): (r: seq<Resource>)
      ensures r == package.resources
    {
      package.resources
    }

    /** add_resource: log one "add" change carrying the data. */
    method AddResource(typeId: nat, groupId: nat, instanceId: nat, data: seq<byte>)
      modifies this`changes
      ensures changes == old(changes) + [PendingChange(Add, typeId, groupId, instanceId, Some(data))]
      ensures HasUnsavedChanges()
    {
      changes := changes + [PendingChange(Add, typeId, groupId, instanceId, Some(data))];
    }

    /** update_resource: log one "update" change carrying the data. */
    method UpdateResource(typeId: nat, groupId: nat, instanceId: nat, data: seq<byte>)
      modifies this`changes
      ensures changes == old(changes) + [PendingChange(Update, typeId, groupId, instanceId, Some(data))]
      ensures HasUnsavedChanges()
    {
      changes := changes + [PendingChange(Update, typeId, groupId, instanceId, Some(data))];
    }

    /** delete_resource: log one "delete" change without data. */
    method DeleteResource(typeId: nat, groupId: nat, instanceId: nat)
      modifies this`changes
      ensures changes == old(changes) + [PendingChange(Delete, typeId, groupId, instanceId, None)]
      ensures HasUnsavedChanges()
    {
      changes := changes + [PendingChange(Delete, typeId, groupId, instanceId, None)];
    }

    /** save: replay the log in order, save the package, then clear the log. */
    method Save()
      modifies this`changes, this`issued
      ensures issued == old(issued) + Replay(old(changes)) + [SavePackage]
      ensures changes == [] && !HasUnsavedChanges()
    {
      var cs := changes;
      var i := 0;
      while i < |cs|
        invariant 0 <= i <= |cs|
        invariant issued == old(issued) + Replay(cs[..i])
      {
        var change := cs[i];
        ReplayStep(cs, i);
        match change.action {
          case Add =>
            issued := issued + [PackageCall.AddResource(change.typeId, change.groupId, change.instanceId, change.data)];
          case Update =>
            issued := issued + [PackageCall.UpdateResource(change.typeId, change.groupId, change.instanceId, change.data)];
          case Delete =>
            issued := issued + [RemoveResource(change.typeId, change.groupId, change.instanceId)];
        }
        i := i + 1;
      }
      assert cs[..i] == cs;
      issued := issued + [SavePackage];
      changes := [];
    }

    /** discard_changes: clear the log without touching the package. */
    method DiscardChanges()
      modifies this`changes
      ensures changes == [] && !HasUnsavedChanges()
    {
      changes := [];
    }

    /** close: close the package. */
    method Close()
      modifies package`file, package.file
      ensures package.file == null
      ensures old(package.file) != null ==> old(package.file).closed
    {
      package.Close();
    }
  }

  /** The sessions open in one process, by resolved path, in insertion order. */
  class Registry {
    var keys: seq<string>
    var sessions: map<string, EditSession>

    constructor ()
      ensures keys == [] && sessions == map[] && Valid()
    {
      keys := [];
      sessions := map[];
    }

    /** The keys are distinct and are exactly the paths with a session. */
    ghost predicate Valid()
      reads this
    {
      Distinct(keys) &&
      (forall k :: k in sessions <==> k in keys)
    }

    /**
     * get_session for the resolved path key: the session already held for
     * it, else a session on the package opened from f, which is then held;
     * an open that raises leaves the registry as it was.
     */
    method GetSession(key: string, f: BinaryFile) returns (r: Result<EditSession, Error>)
      requires Valid()
      requires key !in sessions ==> !f.closed && f.pos == 0
      modifies this, f
      ensures Valid()
      ensures old(key in sessions) ==>
        r == Success(old(sessions[key])) && sessions == old(sessions) && keys == old(keys) &&
        unchanged(f)
      ensures old(key !in sessions) && r.Success? ==>
        fresh(r.value) && r.value.path == key && r.value.changes == [] &&
        sessions == old(sessions)[key := r.value] && keys == old(keys) + [key]
      ensures old(key !in sessions) && r.Failure? ==>
        OpenSpec(f.data).Failure? && r == Failure(OpenSpec(f.data).error) && sessions == old(sessions) && keys == old(keys)
    {
      if key in sessions {
        return Success(sessions[key]);
      }
      var pkg := Package.Open(f);
      if pkg.Failure? {
        return Failure(pkg.error);
      }
      var s := new EditSession(key, pkg.value);
      sessions := sessions[key := s];
      keys := keys + [key];
      return Success(s);
    }

    /** close_session: close and forget the session for key; an absent key does nothing. */
    method CloseSession(key: string)
      requires Valid()
      modifies this, if key in sessions then {sessions[key].package} else {},
        if key in sessions && sessions[key].package.file != null then {sessions[key].package.file} else {}
      ensures Valid()
      ensures sessions == old(sessions) - {key}
      ensures keys == Without(old(keys), key)
      ensures old(key in sessions) ==> old(sessions[key]).package.file == null
    {
      if key in sessions {
        var s := sessions[key];
        s.Close();
        WithoutDistinct(keys, key);
        sessions := sessions - {key};
        keys := Without(keys, key);
      } else {
        WithoutAbsent(keys, key);
      }
    }

    /** list_sessions: the held paths, in insertion order. */
    function ListSessions(): (r: seq<string>)
      reads this
      requires Valid()
      ensures forall k :: k in r <==> k in sessions
      ensures Distinct(r)
    {
      keys
    }
  }

  /** ks without k, the others in their order. */
  function Without(ks: seq<string>, k: string): (r: seq<string>)
    ensures forall x :: x in r <==> x in ks && x != k
    ensures |r| <= |ks|
  {
    if ks == [] then [] else
      var rest := Without(ks[..|ks| - 1], k);
      if ks[|ks| - 1] == k then rest else rest + [ks[|ks| - 1]]
  }

  /** No key occurs twice. */
  predicate Distinct(ks: seq<string>)
  {
    forall i, j :: 0 <= i < j < |ks| ==> ks[i] != ks[j]
  }

  /** Removing a key from distinct keys leaves them distinct. */
  lemma {:induction false} WithoutDistinct(ks: seq<string>, k: string)
    requires Distinct(ks)
    ensures Distinct(Without(ks, k))
  {
    if ks != [] {
      var init, last := ks[..|ks| - 1], ks[|ks| - 1];
      assert Distinct(init) by {
        forall i, j | 0 <= i < j < |init| ensures init[i] != init[j] {
          assert init[i] == ks[i] && init[j] == ks[j];
        }
      }
      WithoutDistinct(init, k);
      var rest := Without(init, k);
      if last != k {
        assert last !in init by {
          forall i | 0 <= i < |init| ensures init[i] != last {
            assert init[i] == ks[i];
          }
        }
        var r := rest + [last];
        forall i, j | 0 <= i < j < |r| ensures r[i] != r[j] {
          assert r[i] == rest[i];
          if j == |rest| {
            assert r[i] in rest && r[j] == last;
          } else {
            assert r[j] == rest[j];
          }
        }
      }
    }
  }

  /** Removing a key that is not there changes nothing. */
  lemma {:induction false} WithoutAbsent(ks: seq<string>, k: string)
    requires k !in ks
    ensures Without(ks, k) == ks
  {
    if ks != [] {
      var init := ks[..|ks| - 1];
      assert ks == init + [ks[|ks| - 1]];
      assert k !in init && ks[|ks| - 1] != k;
      WithoutAbsent(init, k);
    }
  }
}
