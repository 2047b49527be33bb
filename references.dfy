/**
 * The UID and reference helpers of the reference catalog: giving
 * content objects UIDs and finding them again through the UID catalog,
 * building reference catalog queries, resolving catalog brains, deleting
 * a reference under the veto of its delete hook, and the attributes a
 * new reference records.
 *
 * The UID catalog is a sequence of brains in catalog order; a brain
 * resolves to a content object or to `None` (a stale record). Content
 * objects are identified by reference, as in Python.
 */
module ReferenceEngine {
  import opened Py
  import opened Seqs

  /** The attribute name a UID is stored under (`UUID_ATTR`). */
  const UuidAttr: string := "_at_uid"

  /** A content object as the reference catalog sees it. */
  class Content {
    /** `getId()` */
    const id: string
    /** Whether `isReferenceable` holds of the object. */
    const referenceable: bool
    /** The object's Python truth value (an empty folder is false). */
    const nonzero: bool
    /** The UID attribute; `NoneValue` when the object has none. */
    var uid: Value
    /** The ids of the references held in the object's reference annotations. */
    var annotations: set<string>

    constructor (id: string, referenceable: bool, nonzero: bool, uid: Value, annotations: set<string>)
      ensures this.id == id && this.referenceable == referenceable && this.nonzero == nonzero
      ensures this.uid == uid && this.annotations == annotations
    {
      this.id := id;
      this.referenceable := referenceable;
      this.nonzero := nonzero;
      this.uid := uid;
      this.annotations := annotations;
    }
  }

  /** A record of the UID catalog: the UID it is indexed under and what `getObject()` returns. */
  datatype Brain = Brain(uid: Value, obj: Content?)

  /** What `_uidFor` and `registerObject` are given: a UID string or an object. */
  datatype Target = Uid(uid: string) | Object(content: Content)

  function HasUid(uuid: string): Brain -> bool
  {
    (b: Brain) => b.uid == Str(uuid)
  }

  /** The brains `uid_catalog(UID=uuid)` returns, in catalog order. */
  function Matching(catalog: seq<Brain>, uuid: string): seq<Brain>
  {
    Filter(catalog, HasUid(uuid))
  }

  // ---------------------------------------------------------------------
  // Resolving brains

  /** The object of the first brain that resolves to one, `null` if none does. */
  function FirstObject(bs: seq<Brain>): (r: Content?)
    ensures r == null <==> forall i :: 0 <= i < |bs| ==> bs[i].obj == null
    ensures r != null ==> exists i :: 0 <= i < |bs| && bs[i].obj == r && forall k :: 0 <= k < i ==> bs[k].obj == null
  {
    if bs == [] then null
    else if bs[0].obj != null then bs[0].obj
    else
      var r := FirstObject(bs[1..]);
      assert forall i :: 1 <= i < |bs| ==> bs[i] == bs[1..][i - 1];
      r
  }

  /** The object of the last brain that resolves to one, `null` if none does. */
  function LastObject(bs: seq<Brain>): (r: Content?)
    ensures r == null <==> forall i :: 0 <= i < |bs| ==> bs[i].obj == null
    ensures r != null ==> exists i :: 0 <= i < |bs| && bs[i].obj == r && forall k :: i < k < |bs| ==> bs[k].obj == null
  {
    if bs == [] then null
    else if bs[|bs| - 1].obj != null then bs[|bs| - 1].obj
    else
      var r := LastObject(bs[..|bs| - 1]);
      assert forall i :: 0 <= i < |bs| - 1 ==> bs[i] == bs[..|bs| - 1][i];
      r
  }

  /**
   * When every brain that resolves resolves to the same object, the
   * first-match lookup of `_objectByUUID` and the last-match lookup of
   * `_uidFor` find the same object.
   */
  lemma FirstIsLast(bs: seq<Brain>)
    requires forall i, j :: 0 <= i < |bs| && 0 <= j < |bs| && bs[i].obj != null && bs[j].obj != null ==> bs[i].obj == bs[j].obj
    ensures FirstObject(bs) == LastObject(bs)
  {
    if FirstObject(bs) != null {
      var i :| 0 <= i < |bs| && bs[i].obj == FirstObject(bs) && forall k :: 0 <= k < i ==> bs[k].obj == null;
      var j :| 0 <= j < |bs| && bs[j].obj == LastObject(bs) && forall k :: j < k < |bs| ==> bs[k].obj == null;
    }
  }

  /** A brain whose object `_resolveBrains` keeps: not `None` and true. */
  predicate Live(b: Brain)
  {
    b.obj != null && b.obj.nonzero
  }

  /** `[b.getObject() for b in brains]`, then the true ones among them. */
  function Resolved(bs: seq<Brain>): seq<Content>
  {
    if bs == [] then []
    else
      var b := bs[|bs| - 1];
      Resolved(bs[..|bs| - 1]) + if Live(b) then [b.obj] else []
  }

  /** The positions of the live brains, in increasing order. */
  function Kept(bs: seq<Brain>): (ps: seq<nat>)
    ensures forall k :: 0 <= k < |ps| ==> ps[k] < |bs| && Live(bs[ps[k]])
    ensures forall k, l :: 0 <= k < l < |ps| ==> ps[k] < ps[l]
    ensures forall i :: 0 <= i < |bs| && Live(bs[i]) ==> i in ps
  {
    if bs == [] then []
    else
      var ps := Kept(bs[..|bs| - 1]);
      assert forall i :: 0 <= i < |bs| - 1 ==> bs[i] == bs[..|bs| - 1][i];
      ps + if Live(bs[|bs| - 1]) then [|bs| - 1] else []
  }

  /** The resolved objects are those of the live brains, one for each, in brain order. */
  lemma {:induction false} ResolvedKept(bs: seq<Brain>)
    ensures |Resolved(bs)| == |Kept(bs)|
    ensures forall k :: 0 <= k < |Kept(bs)| ==> Resolved(bs)[k] == bs[Kept(bs)[k]].obj
  {
    if bs != [] {
      var init := bs[..|bs| - 1];
      ResolvedKept(init);
      forall k | 0 <= k < |Kept(init)| ensures Resolved(bs)[k] == bs[Kept(bs)[k]].obj {
        assert Resolved(bs)[k] == Resolved(init)[k];
        assert Kept(bs)[k] == Kept(init)[k];
        assert bs[Kept(init)[k]] == init[Kept(init)[k]];
      }
    }
  }

  /**
   * `_resolveBrains(brains)`: nothing for absent or empty brains; else
   * the true objects the brains resolve to, in brain order, each live
   * brain contributing its object once.
   */
  function ResolveBrains(brains: Option<seq<Brain>>): (r: seq<Content>)
    ensures brains.None? ==> r == []
    ensures brains.Some? ==> |r| == |Kept(brains.value)|
    ensures brains.Some? ==> forall k :: 0 <= k < |r| ==> r[k] == brains.value[Kept(brains.value)[k]].obj
  {
    match brains
    case None => []
    case Some(bs) =>
      if bs == [] then []
      else
        ResolvedKept(bs);
        Resolved(bs)
  }

  // ---------------------------------------------------------------------
  // UIDs

  /** The UID an object holds after `_uidFor`: its own if it is true, else the minted one. */
  function Assigned(uid: Value, minted: string): Value
  {
    if Truthy(uid) then uid else Str(minted)
  }

  /**
   * Registering again keeps the UID: once an object holds a UID minted
   * non-empty, a second assignment, whatever it would mint, leaves it.
   */
  lemma AssignedIdempotent(uid: Value, minted: string, again: string)
    requires minted != ""
    ensures Truthy(Assigned(uid, minted))
    ensures Assigned(Assigned(uid, minted), again) == Assigned(uid, minted)
    ensures Truthy(uid) ==> Assigned(uid, minted) == uid
  {
  }

  /**
   * `_getObject(object_or_uid)`: a UID string is resolved through the
   * UID query utility `query`; anything else is returned as it is.
   */
  function GetObject(x: Target, query: string -> Content?): (r: Content?)
    ensures x.Object? ==> r == x.content
    ensures x.Uid? ==> r == query(x.uid)
  {
    match x
    case Uid(u) => query(u)
    case Object(c) => c
  }

  /**
   * With a UID query that keeps its contract (an object it returns for
   * `u` carries UID `u`), the object `_getObject` finds for a UID
   * carries that UID, and `_uidFor` on that object gives the UID back.
   */
  lemma GetObjectByUid(u: string, query: string -> Content?, minted: string)
    requires forall v :: query(v) != null ==> query(v).uid == Str(v)
    ensures GetObject(Uid(u), query) != null ==> GetObject(Uid(u), query).uid == Str(u)
    ensures GetObject(Uid(u), query) != null && u != "" ==> Assigned(GetObject(Uid(u), query).uid, minted) == Str(u)
  {
  }

  // ---------------------------------------------------------------------
  // Queries

  /**
   * The query `_queryFor` passes to the reference catalog: a key for
   * each true argument, holding that argument, and no other key.
   */
  function QueryFor(sid: Value, tid: Value, relationship: Value, targetId: Value): (q: map<string, Value>)
    ensures forall k :: k in q <==>
      (k == "sourceUID" && Truthy(sid)) || (k == "targetUID" && Truthy(tid)) ||
      (k == "relationship" && Truthy(relationship)) || (k == "targetId" && Truthy(targetId))
    ensures "sourceUID" in q ==> q["sourceUID"] == sid
    ensures "targetUID" in q ==> q["targetUID"] == tid
    ensures "relationship" in q ==> q["relationship"] == relationship
    ensures "targetId" in q ==> q["targetId"] == targetId
  {
    var q0: map<string, Value> := map[];
    var q1 := if Truthy(sid) then q0["sourceUID" := sid] else q0;
    var q2 := if Truthy(tid) then q1["targetUID" := tid] else q1;
    var q3 := if Truthy(relationship) then q2["relationship" := relationship] else q2;
    if Truthy(targetId) then q3["targetId" := targetId] else q3
  }

  // ---------------------------------------------------------------------
  // References

  /** A reference object: its attributes, and the names of its metadata attributes. */
  class Reference {
    /** The instance attributes. */
    var attrs: map<string, Value>
    /** `REFERENCE_METADATA_ATTR`: the names of the keyword arguments it was made with. */
    var metadata: set<string>

    /**
     * `Reference(id, source, target, relationship, **kwargs)`, with the
     * UIDs of source and target given. The keyword arguments are stored
     * after the other attributes and win over them.
     */
    constructor (id: string, sourceUid: Value, targetUid: Value, relationship: Value, kwargs: map<string, Value>)
      requires "self" !in kwargs && "id" !in kwargs && "source" !in kwargs && "target" !in kwargs && "relationship" !in kwargs
      ensures attrs.Keys == {"id", UuidAttr, "sourceUID", "targetUID", "relationship"} + kwargs.Keys
      ensures attrs["id"] == Str(id) && attrs["relationship"] == relationship
      ensures UuidAttr !in kwargs ==> Uid() == Some(Str(id))
      ensures "sourceUID" !in kwargs ==> attrs["sourceUID"] == sourceUid
      ensures "targetUID" !in kwargs ==> attrs["targetUID"] == targetUid
      ensures forall k :: k in kwargs ==> attrs[k] == kwargs[k]
      ensures metadata == kwargs.Keys
    {
      var own := map["id" := Str(id), UuidAttr := Str(id), "sourceUID" := sourceUid, "targetUID" := targetUid, "relationship" := relationship];
      attrs := own + kwargs;
      metadata := kwargs.Keys;
    }

    /** `UID()`: the UID attribute; `None` stands for the AttributeError when it is missing. */
    function Uid(): Option<Value>
      reads this
    {
      if UuidAttr in attrs then Some(attrs[UuidAttr]) else None
    }
  }

  /** The key `_delObject` is given, if the reference has a UID the annotations can hold. */
  function AnnotationKey(uid: Option<Value>): set<string>
  {
    if uid.Some? && Text(uid.value).Some? then {Text(uid.value).value} else {}
  }

  /** The reference catalog, over the UID catalog it consults. */
  class ReferenceCatalog {
    /** The records of the UID catalog, in catalog order. */
    const uidCatalog: seq<Brain>

    constructor (uidCatalog: seq<Brain>)
      ensures this.uidCatalog == uidCatalog
    {
      this.uidCatalog := uidCatalog;
    }

    /** `_objectByUUID(uuid)`: the object of the first matching brain that resolves to one, else `None`. */
    method ObjectByUUID(uuid: string) returns (obj: Content?)
      ensures obj == FirstObject(Matching(uidCatalog, uuid))
    {
      var brains := Matching(uidCatalog, uuid);
      var i := 0;
      while i < |brains|
        invariant 0 <= i <= |brains|
        invariant FirstObject(brains[i..]) == FirstObject(brains)
      {
        var res := brains[i].obj;
        if res != null {
          return res;
        }
        assert brains[i..][1..] == brains[i + 1..];
        i := i + 1;
      }
      return null;
    }

    /** The lookup `_uidFor` makes for a UID string: the last matching brain that resolves to an object wins. */
    method LastByUUID(uuid: string) returns (obj: Content?)
      ensures obj == LastObject(Matching(uidCatalog, uuid))
    {
      var brains := Matching(uidCatalog, uuid);
      obj := null;
      var i := 0;
      while i < |brains|
        invariant 0 <= i <= |brains|
        invariant obj == LastObject(brains[..i])
      {
        assert brains[..i + 1][..i] == brains[..i];
        var res := brains[i].obj;
        if res != null {
          obj := res;
        }
        i := i + 1;
      }
      assert brains[..|brains|] == brains;
    }

    /** `_getUUIDFor(object)`: mint a UID (`minted`, what `make_uuid(object.getId())` returns), store it, return it. */
    method GetUUIDFor(c: Content, minted: string) returns (uuid: Value)
      modifies c
      ensures uuid == Str(minted) && c.uid == uuid
      ensures c.annotations == old(c.annotations)
    {
      uuid := Str(minted);
      c.uid := uuid;
    }

    /**
     * `_uidFor(obj)`. A UID string is returned with the object the UID
     * catalog finds for it. An object must be referenceable
     * (ReferenceException otherwise); it keeps a true UID and is given
     * the minted one otherwise, and is returned with its UID.
     */
    method UidFor(x: Target, minted: string) returns (r: Result<(Value, Content?)>)
      modifies if x.Object? then {x.content} else {}
      ensures x.Uid? ==> r == Success((Str(x.uid), LastObject(Matching(uidCatalog, x.uid))))
      ensures x.Object? && !x.content.referenceable ==>
        r == Failure(ReferenceException) && x.content.uid == old(x.content.uid)
      ensures x.Object? && x.content.referenceable ==>
        x.content.uid == Assigned(old(x.content.uid), minted) && r == Success((x.content.uid, x.content))
      ensures x.Object? ==> x.content.annotations == old(x.content.annotations)
    {
      match x
      case Uid(u) =>
        var obj := LastByUUID(u);
        r := Success((Str(u), obj));
      case Object(c) =>
        if !c.referenceable {
          return Failure(ReferenceException);
        }
        var uuid: Value;
        if !Truthy(c.uid) {
          uuid := GetUUIDFor(c, minted);
        } else {
          uuid := c.uid;
        }
        r := Success((uuid, c));
    }

    /**
     * `registerObject(object)`: `_uidFor` for its effect. Registering a
     * referenceable object leaves it with a UID that a later
     * registration keeps (see `AssignedIdempotent`).
     */
    method RegisterObject(x: Target, minted: string) returns (r: Outcome)
      modifies if x.Object? then {x.content} else {}
      ensures x.Uid? ==> r == Pass
      ensures x.Object? && !x.content.referenceable ==>
        r == Fail(ReferenceException) && x.content.uid == old(x.content.uid)
      ensures x.Object? && x.content.referenceable ==>
        r == Pass && x.content.uid == Assigned(old(x.content.uid), minted)
      ensures x.Object? ==> x.content.annotations == old(x.content.annotations)
    {
      var res := UidFor(x, minted);
      r := if res.Success? then Pass else Fail(res.error);
    }

    /**
     * `_deleteReference(reference)`, given the reference's source object
     * and whether its `delHook` vetoes the delete by raising
     * ReferenceException. A veto leaves everything as it was. Otherwise
     * the reference's UID is dropped from the source's annotations, a
     * missing UID or key being ignored; a missing source object raises
     * AttributeError.
     */
    method DeleteReference(reference: Reference, source: Content?, vetoed: bool) returns (r: Outcome)
      modifies if source != null then {source} else {}
      ensures vetoed ==> r == Pass
      ensures vetoed && source != null ==> source.annotations == old(source.annotations)
      ensures !vetoed && source == null ==> r == Fail(AttributeError)
      ensures !vetoed && source != null ==>
        r == Pass && source.annotations == old(source.annotations) - AnnotationKey(reference.Uid())
      ensures source != null ==> source.uid == old(source.uid)
    {
      if vetoed {
        return Pass;
      }
      if source == null {
        return Fail(AttributeError);
      }
      var key := reference.Uid();
      if key.Some? && Text(key.value).Some? && Text(key.value).value in source.annotations {
        source.annotations := source.annotations - {Text(key.value).value};
      }
      r := Pass;
    }
  }
}
