/**
 The part of the PostgreSQL system catalog the engine consults: the kind of
 each relation, which table owns a sequence (and through which dependency
 type), the sequences a table owns, a sequence's last drawn value and who
 holds USAGE or UPDATE on it.
 */
module Catalog {
  import opened Base

  datatype RelKind =
    | RelSequence
    | RelTable
    | RelForeignTable
    | RelPartitionedTable
    | RelOtherKind        // views, indexes, materialized views, ...

  /** The pg_depend type of a sequence's dependency on its owning table. */
  datatype DependencyType = DependencyAuto | DependencyInternal | DependencyNormal

  datatype Relation = Relation(
    kind: RelKind,
    /** owning table and dependency type, for a sequence */
    ownedBy: Option<(Oid, DependencyType)>,
    /** sequences owned by this table, in catalog order */
    ownedSequences: seq<Oid>,
    /** pg_sequence_last_value: NULL until the sequence is first called */
    lastValue: Option<int>,
    /** roles holding USAGE or UPDATE */
    usableBy: set<Oid>)

  type Catalog = map<Oid, Relation>

  /** sequenceIsOwned: the owning relation when `seqId` depends on one with dependency type `dep`. */
  function SequenceOwner(catalog: Catalog, seqId: Oid, dep: DependencyType): (r: Option<Oid>)
    ensures r.Some? <==> seqId in catalog && catalog[seqId].ownedBy.Some? && catalog[seqId].ownedBy.value.1 == dep
  {
    if seqId in catalog && catalog[seqId].ownedBy.Some? && catalog[seqId].ownedBy.value.1 == dep
    then Some(catalog[seqId].ownedBy.value.0)
    else None
  }

  /**
   pg_sequence_last_value, evaluated by the engine as the bootstrap superuser.
   PostgreSQL raises an error for a relation that is not a sequence; the model
   answers None there, which the engine treats like a sequence never called.
   */
  function SequenceLastValue(catalog: Catalog, seqId: Oid): Option<int> {
    if seqId in catalog && catalog[seqId].kind == RelSequence then catalog[seqId].lastValue else None
  }

  /** pg_class_aclcheck for USAGE | UPDATE; superusers always pass. */
  predicate HasSequencePrivilege(catalog: Catalog, session: Session, seqId: Oid) {
    session.isSuperuser || (seqId in catalog && session.userId in catalog[seqId].usableBy)
  }

  /**
   The shape PostgreSQL keeps for sequence ownership, the only dependency the
   model records in `ownedBy`: an owned sequence's owner is never itself a
   sequence, and the sequences a table lists as owned (getOwnedSequences)
   depend on it automatically or internally. Other automatic dependencies in
   pg_depend, such as a partition's on its parent table, are not part of this
   model.
   */
  predicate WellFormed(catalog: Catalog) {
    && (forall r :: r in catalog && catalog[r].ownedBy.Some? ==>
          && catalog[r].kind == RelSequence
          && (catalog[r].ownedBy.value.0 in catalog ==> catalog[catalog[r].ownedBy.value.0].kind != RelSequence))
    && (forall t, i :: t in catalog && 0 <= i < |catalog[t].ownedSequences| ==>
          && catalog[t].ownedSequences[i] in catalog
          && (catalog[catalog[t].ownedSequences[i]].ownedBy == Some((t, DependencyAuto)) ||
              catalog[catalog[t].ownedSequences[i]].ownedBy == Some((t, DependencyInternal))))
  }

  /** In a well-formed catalog nothing that is not a sequence has an owner of any dependency type. */
  lemma NonSequenceHasNoOwner(catalog: Catalog, relId: Oid, dep: DependencyType)
    requires WellFormed(catalog)
    requires relId !in catalog || catalog[relId].kind != RelSequence
    ensures SequenceOwner(catalog, relId, dep).None?
  {
  }
}
