// DataRepositoryUtils: binary blobs carry the ids of the records that
// reference them; dropping the last reference deletes the blob.
module DataRepositoryUtils {
  import opened Common
  import opened Model
  import opened Store

  /** `List.remove(Object)`: drops the first occurrence, if there is one. */
  function RemoveFirst(refs: seq<Uuid>, x: Uuid): (r: seq<Uuid>)
    ensures x in refs ==> |r| == |refs| - 1
    ensures x !in refs ==> r == refs
    ensures multiset(r) == multiset(refs) - multiset{x}
  {
    if refs == [] then []
    else
      assert refs == [refs[0]] + refs[1..];
      if refs[0] == x then refs[1..]
      else [refs[0]] + RemoveFirst(refs[1..], x)
  }

  function References(blob: DataBlob): seq<Uuid>
  {
    GetOrDefault(blob.references, [])
  }

  /** A blob after one reference to it is dropped; None when nothing remains and the blob is deleted. */
  function Unreferenced(blob: DataBlob, referenceId: Uuid): Option<DataBlob>
  {
    var rest := RemoveFirst(References(blob), referenceId);
    if rest == [] then None else Some(blob.(references := Some(rest)))
  }

  /** Dropping a reference removes exactly one occurrence, and the blob survives exactly when a reference remains. */
  lemma UnreferencedCounts(blob: DataBlob, referenceId: Uuid)
    ensures var r := Unreferenced(blob, referenceId);
            (r.None? <==> multiset(References(blob)) <= multiset{referenceId}) &&
            (r.Some? ==> r.value.id == blob.id && r.value.data == blob.data && r.value.dataType == blob.dataType &&
                         multiset(References(r.value)) == multiset(References(blob)) - multiset{referenceId})
  {
    var refs := References(blob);
    var rest := RemoveFirst(refs, referenceId);
    assert rest == [] <==> multiset(rest) == multiset{};
    if multiset(refs) <= multiset{referenceId} {
      assert multiset(rest) == multiset{};
    } else {
      var y :| y in multiset(refs) && multiset(refs)[y] > multiset{referenceId}[y];
      assert y in multiset(rest);
    }
  }

  /** removeReference: nothing for a null id or an unknown blob. */
  function BlobsWithoutReference(blobs: map<Uuid, DataBlob>, dataId: Option<Uuid>, referenceId: Uuid): map<Uuid, DataBlob>
  {
    if dataId.None? || dataId.value !in blobs then blobs
    else
      match Unreferenced(blobs[dataId.value], referenceId)
      case None => blobs - {dataId.value}
      case Some(b) => blobs[dataId.value := b]
  }

  method RemoveReference(db: Repositories, dataId: Option<Uuid>, referenceId: Uuid)
    requires db.Valid()
    modifies db`blobs
    ensures db.Valid()
    ensures db.blobs == BlobsWithoutReference(old(db.blobs), dataId, referenceId)
  {
    if dataId.Some? && dataId.value in db.blobs {
      var data := db.blobs[dataId.value];
      var rest := RemoveFirst(References(data), referenceId);
      if rest == [] {
        db.DeleteBlob(dataId.value);
      } else {
        db.SaveBlob(data.(references := Some(rest)));
      }
    }
  }

  /** The blobs `findByReferencesContains` returns. */
  predicate Holds(blob: DataBlob, referenceId: Uuid)
  {
    blob.references.Some? && referenceId in blob.references.value
  }

  /** removeAllReferences: every blob holding the reference loses one occurrence of it. */
  function BlobsWithoutAllReferences(blobs: map<Uuid, DataBlob>, referenceId: Uuid): map<Uuid, DataBlob>
  {
    map k | k in blobs && (Holds(blobs[k], referenceId) ==> Unreferenced(blobs[k], referenceId).Some?) ::
      if Holds(blobs[k], referenceId) then Unreferenced(blobs[k], referenceId).value else blobs[k]
  }

  method RemoveAllReferences(db: Repositories, referenceId: Option<Uuid>)
    requires db.Valid()
    modifies db`blobs
    ensures db.Valid()
    ensures referenceId.None? ==> db.blobs == old(db.blobs)
    ensures referenceId.Some? ==> db.blobs == BlobsWithoutAllReferences(old(db.blobs), referenceId.value)
  {
    if referenceId.None? {
      return;
    }
    var ref := referenceId.value;
    ghost var target := BlobsWithoutAllReferences(db.blobs, ref);
    forall k | k in db.blobs
      ensures TargetAt(db.blobs, target, ref, k)
    {
      UnreferencedTarget(db.blobs, ref, k);
    }
    TargetKeys(db.blobs, ref);
    RemoveEach(db, ref, target);
  }

  /** How the blob under `k` ends up once removeAllReferences is done. */
  predicate TargetAt(blobs: map<Uuid, DataBlob>, target: map<Uuid, DataBlob>, referenceId: Uuid, k: Uuid)
    requires k in blobs
  {
    if Holds(blobs[k], referenceId) then
      (k in target <==> Unreferenced(blobs[k], referenceId).Some?) &&
      (k in target ==> target[k] == Unreferenced(blobs[k], referenceId).value)
    else k in target && target[k] == blobs[k]
  }

  /** The loop of removeAllReferences: each blob holding the reference is visited once. */
  method RemoveEach(db: Repositories, referenceId: Uuid, ghost target: map<Uuid, DataBlob>)
    requires db.Valid()
    requires target.Keys <= db.blobs.Keys
    requires forall k {:trigger TargetAt(db.blobs, target, referenceId, k)} ::
               k in db.blobs ==> TargetAt(db.blobs, target, referenceId, k)
    modifies db`blobs
    ensures db.Valid()
    ensures db.blobs == target
  {
    ghost var blobs := db.blobs;
    var pending := db.blobs.Keys;
    OverlayEnds(blobs, target);
    while pending != {}
      invariant pending <= blobs.Keys
      invariant db.Valid()
      invariant db.blobs == Overlay(blobs, target, pending)
      decreases pending
    {
      var k :| k in pending;
      assert TargetAt(blobs, target, referenceId, k);
      OverlayStep(blobs, target, pending, k);
      if Holds(db.blobs[k], referenceId) {
        RemoveReference(db, Some(k), referenceId);
      }
      pending := pending - {k};
    }
  }

  /** The blobs part-way through: those still pending as they were, the visited ones as in the target. */
  ghost function Overlay(blobs: map<Uuid, DataBlob>, target: map<Uuid, DataBlob>, pending: set<Uuid>)
    : map<Uuid, DataBlob>
  {
    map j | j in blobs && (j in pending || j in target) :: if j in pending then blobs[j] else target[j]
  }

  /** Before the pass every blob is pending; after it the overlay is the target. */
  lemma OverlayEnds(blobs: map<Uuid, DataBlob>, target: map<Uuid, DataBlob>)
    ensures Overlay(blobs, target, blobs.Keys) == blobs
    ensures target.Keys <= blobs.Keys ==> Overlay(blobs, target, {}) == target
  {
  }

  /** Visiting one more blob puts its target value in place, or drops it when the target has none. */
  lemma OverlayStep(blobs: map<Uuid, DataBlob>, target: map<Uuid, DataBlob>, pending: set<Uuid>, k: Uuid)
    requires k in pending && k in blobs
    ensures var before := Overlay(blobs, target, pending);
            k in before && before[k] == blobs[k] &&
            Overlay(blobs, target, pending - {k}) == if k in target then before[k := target[k]] else before - {k}
  {
  }

  /** What removeAllReferences makes of one blob. */
  lemma UnreferencedTarget(blobs: map<Uuid, DataBlob>, referenceId: Uuid, k: Uuid)
    requires k in blobs
    ensures var target := BlobsWithoutAllReferences(blobs, referenceId);
            (!Holds(blobs[k], referenceId) ==> k in target && target[k] == blobs[k]) &&
            (Holds(blobs[k], referenceId) ==>
               (k in target <==> Unreferenced(blobs[k], referenceId).Some?) &&
               (k in target ==> target[k] == Unreferenced(blobs[k], referenceId).value))
  {
  }

  lemma TargetKeys(blobs: map<Uuid, DataBlob>, referenceId: Uuid)
    ensures BlobsWithoutAllReferences(blobs, referenceId).Keys <= blobs.Keys
  {
  }

  /** After removeAllReferences, a blob still held by the reference held it more than once. */
  lemma AllReferencesDropped(blobs: map<Uuid, DataBlob>, referenceId: Uuid)
    ensures var after := BlobsWithoutAllReferences(blobs, referenceId);
            after.Keys <= blobs.Keys &&
            (forall k :: k in after && Holds(after[k], referenceId) ==>
                           multiset(References(blobs[k]))[referenceId] >= 2) &&
            (forall k :: k in blobs && !Holds(blobs[k], referenceId) ==> k in after && after[k] == blobs[k])
  {
    var after := BlobsWithoutAllReferences(blobs, referenceId);
    forall k | k in after && Holds(after[k], referenceId)
      ensures multiset(References(blobs[k]))[referenceId] >= 2
    {
      if Holds(blobs[k], referenceId) {
        UnreferencedCounts(blobs[k], referenceId);
        assert referenceId in multiset(References(after[k]));
      }
    }
  }

  /** The blob createData inserts: given name, description, type and bytes, referenced exactly once. */
  function NewBlob(id: Uuid, name: Option<string>, description: Option<string>, dataType: DataType,
                   data: seq<Byte>, referenceId: Uuid): DataBlob
  {
    DataBlob(Some(id), name, description, Some(dataType), Some(data), Some([referenceId]))
  }

  /** createData: inserts a new blob under the fresh id and returns that id. */
  method CreateData(db: Repositories, name: Option<string>, description: Option<string>, dataType: DataType,
                    data: seq<Byte>, referenceId: Uuid, freshId: Uuid) returns (id: Uuid)
    requires db.Valid() && freshId !in db.blobs
    modifies db`blobs
    ensures db.Valid()
    ensures id == freshId && id !in old(db.blobs)
    ensures db.blobs == old(db.blobs)[id := NewBlob(id, name, description, dataType, data, referenceId)]
    ensures References(db.blobs[id]) == [referenceId]
  {
    var blob := NewBlob(freshId, name, description, dataType, data, referenceId);
    db.blobs := db.blobs[freshId := blob];
    id := freshId;
  }

  /**
   * addReference: a null id is refused by the repository lookup, an
   * unknown blob is left alone, a blob without a reference list falls back
   * to an immutable empty list that refuses the add; otherwise the
   * reference is appended unless already there.
   */
  function BlobsWithReference(blobs: map<Uuid, DataBlob>, dataId: Option<Uuid>, referenceId: Uuid): Result<map<Uuid, DataBlob>>
  {
    if dataId.None? then Err(IllegalArgument)
    else if dataId.value !in blobs then Ok(blobs)
    else
      var blob := blobs[dataId.value];
      if blob.references.None? then Err(UnsupportedOperation)
      else
        var refs := blob.references.value;
        Ok(blobs[dataId.value := blob.(references := Some(if referenceId in refs then refs else refs + [referenceId]))])
  }

  method AddReference(db: Repositories, dataId: Option<Uuid>, referenceId: Uuid) returns (r: Result<()>)
    requires db.Valid()
    modifies db`blobs
    ensures db.Valid()
    ensures var next := BlobsWithReference(old(db.blobs), dataId, referenceId);
            (r.Ok? <==> next.Ok?) && (r.Err? ==> r.error == next.error && db.blobs == old(db.blobs)) &&
            (next.Ok? ==> db.blobs == next.value)
  {
    if dataId.None? {
      return Err(IllegalArgument);
    }
    if dataId.value !in db.blobs {
      return Ok(());
    }
    var data := db.blobs[dataId.value];
    if data.references.None? {
      return Err(UnsupportedOperation);
    }
    var refs := data.references.value;
    if referenceId !in refs {
      refs := refs + [referenceId];
    }
    db.blobs := db.blobs[data.id.value := data.(references := Some(refs))];
    r := Ok(());
  }

  /** Adding is idempotent and never duplicates; a blob that held the reference does not change. */
  lemma AddReferenceIdempotent(blobs: map<Uuid, DataBlob>, dataId: Uuid, referenceId: Uuid)
    requires BlobsWithReference(blobs, Some(dataId), referenceId).Ok?
    ensures var once := BlobsWithReference(blobs, Some(dataId), referenceId).value;
            BlobsWithReference(once, Some(dataId), referenceId) == Ok(once) &&
            (dataId in blobs ==>
               referenceId in References(once[dataId]) &&
               multiset(References(once[dataId]))[referenceId] ==
                 (if referenceId in References(blobs[dataId]) then multiset(References(blobs[dataId]))[referenceId] else 1))
  {
    if dataId in blobs {
      var refs := References(blobs[dataId]);
      if referenceId !in refs {
        var once := BlobsWithReference(blobs, Some(dataId), referenceId).value;
        assert References(once[dataId]) == refs + [referenceId];
        assert referenceId in refs + [referenceId];
        assert multiset(refs + [referenceId]) == multiset(refs) + multiset{referenceId};
        assert referenceId !in multiset(refs);
        assert once[dataId := once[dataId].(references := Some(refs + [referenceId]))] == once;
      } else {
        assert blobs[dataId].(references := Some(refs)) == blobs[dataId];
        assert blobs[dataId := blobs[dataId]] == blobs;
      }
    }
  }

  /** A reference added and then removed leaves the blob's references as they were. */
  lemma AddThenRemove(blobs: map<Uuid, DataBlob>, dataId: Uuid, referenceId: Uuid)
    requires dataId in blobs && blobs[dataId].references.Some? && blobs[dataId].references.value != []
    requires referenceId !in References(blobs[dataId])
    ensures var added := BlobsWithReference(blobs, Some(dataId), referenceId);
            added.Ok? && BlobsWithoutReference(added.value, Some(dataId), referenceId) == blobs
  {
    var blob := blobs[dataId];
    var refs := blob.references.value;
    var grown := blob.(references := Some(refs + [referenceId]));
    assert BlobsWithReference(blobs, Some(dataId), referenceId) == Ok(blobs[dataId := grown]);
    RemoveFirstAppended(refs, referenceId);
    assert References(grown) == refs + [referenceId];
    assert Unreferenced(grown, referenceId) == Some(blob);
    assert blobs[dataId := grown][dataId := blob] == blobs;
  }

  lemma {:induction false} RemoveFirstAppended(refs: seq<Uuid>, x: Uuid)
    requires x !in refs
    ensures RemoveFirst(refs + [x], x) == refs
  {
    if refs != [] {
      assert (refs + [x])[1..] == refs[1..] + [x];
      RemoveFirstAppended(refs[1..], x);
    }
  }
}
