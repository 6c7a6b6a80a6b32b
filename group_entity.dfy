/** A group (a college, a major, a student-class cohort, ...) as the JPA
    entity `GroupEntity`: the in-memory object with its null-skipping merge,
    its `equals`/`hashCode` pair and its memberwise `clone`, and the row
    (`GroupRow`) that the store keeps for it. */
module GroupEntities {
  import opened Common

  /** The kind of a group. The constants the core names are modelled; any
      other constant of the enumeration is `OtherType`. */
  datatype GroupType = College | StudentMajor | StudentClass | OtherType

  /** The persisted state of a group: its columns and the ids of its member
      relations. A nullable column is an `Option`. */
  datatype GroupRow = GroupRow(
    groupType: Option<GroupType>,
    id: Option<Id>,
    name: Option<string>,
    description: Option<string>,
    members: set<Id>)

  /** The four fields that `equals` compares and `hashCode` hashes; the
      members are not among them. */
  datatype GroupKey = GroupKey(
    groupType: Option<GroupType>,
    id: Option<Id>,
    name: Option<string>,
    description: Option<string>)

  /** The runtime class of an entity loaded by the group repository. */
  const GroupEntityClass: string := "GroupEntity"

  /** `updateContents` on rows: a present name or description of `toCopy`
      replaces the group's own, an absent (null) one leaves it as it was. */
  function Merged(g: GroupRow, toCopy: GroupRow): GroupRow
  {
    g.(name := if toCopy.name.Some? then toCopy.name else g.name,
       description := if toCopy.description.Some? then toCopy.description else g.description)
  }

  /** Merging the same values twice is merging them once. */
  lemma MergedIdempotent(g: GroupRow, toCopy: GroupRow)
    ensures Merged(Merged(g, toCopy), toCopy) == Merged(g, toCopy)
  {
  }

  /** A mutable `java.util.Set` of relation ids, held by reference so that two
      entities can share it. */
  class RelationSet {
    var elems: set<Id>

    constructor (elems: set<Id>)
      ensures this.elems == elems
    {
      this.elems := elems;
    }
  }

  class GroupEntity {
    var members: RelationSet
    var groupType: Option<GroupType>
    var id: Option<Id>
    var name: Option<string>
    var description: Option<string>
    /** What `getClass()` answers for this object. */
    const runtimeClass: string

    /** The entity the repository materialises from a stored row. */
    constructor Load(row: GroupRow, runtimeClass: string)
      ensures fresh(members)
      ensures Row() == row && this.runtimeClass == runtimeClass
    {
      members := new RelationSet(row.members);
      groupType := row.groupType;
      id := row.id;
      name := row.name;
      description := row.description;
      this.runtimeClass := runtimeClass;
    }

    /** `Object.clone`: a field-by-field copy; the members set is shared, not
        copied. */
    constructor Copy(from: GroupEntity)
      ensures members == from.members && groupType == from.groupType && id == from.id
      ensures name == from.name && description == from.description
      ensures runtimeClass == from.runtimeClass
    {
      members := from.members;
      groupType := from.groupType;
      id := from.id;
      name := from.name;
      description := from.description;
      runtimeClass := from.runtimeClass;
    }

    /** The state the repository saves for this entity. */
    function Row(): GroupRow
      reads this, members
    {
      GroupRow(groupType, id, name, description, members.elems)
    }

    function Key(): GroupKey
      reads this
    {
      GroupKey(groupType, id, name, description)
    }

    /** `equals`. The receiver's id is dereferenced once the classes and the
        group types agree, and its name once the ids agree too, so those must
        not be null then. */
    predicate Equals(o: GroupEntity?)
      reads this, o
      requires this != o && o != null && runtimeClass == o.runtimeClass && groupType == o.groupType ==>
                 id.Some? && (id == o.id ==> name.Some?)
      ensures Equals(o) <==> this == o || (o != null && runtimeClass == o.runtimeClass && Key() == o.Key())
    {
      if this == o then true
      else if o == null || runtimeClass != o.runtimeClass then false
      else groupType == o.groupType && Some(id.value) == o.id && Some(name.value) == o.name
           && description == o.description
    }

    /** `hashCode`: `Objects.hash(groupType, id, name, description)`. The hash
        of an enumeration constant is its identity hash, fixed for a run of
        the program and passed in as `enumHash`. */
    function HashCode(enumHash: GroupType -> int): (h: int)
      reads this
      ensures -0x8000_0000 <= h < 0x8000_0000
    {
      KeyHash(Key(), enumHash)
    }

    /** `clone`: a new object with the same field values, sharing the same
        members set, and equal to the original. */
    method Clone() returns (c: GroupEntity)
      ensures fresh(c) && c != this
      ensures c.members == members && c.Key() == Key() && c.runtimeClass == runtimeClass
      ensures c.Row() == Row()
      ensures id.Some? && name.Some? ==> c.Equals(this) && Equals(c)
    {
      c := new GroupEntity.Copy(this);
    }

    /** `updateContents`: overwrites the name and the description with those of
        `toCopy` that are not null, and returns the receiver itself. */
    method UpdateContents(toCopy: GroupEntity) returns (r: GroupEntity)
      modifies this
      ensures r == this
      ensures name == (if old(toCopy.name).Some? then old(toCopy.name) else old(name))
      ensures description == (if old(toCopy.description).Some? then old(toCopy.description) else old(description))
      ensures id == old(id) && groupType == old(groupType) && members == old(members)
      ensures Row() == Merged(old(Row()), old(toCopy.Row()))
    {
      if toCopy.name.Some? {
        name := toCopy.name;
      }
      if toCopy.description.Some? {
        description := toCopy.description;
      }
      r := this;
    }
  }

  /** `equals` is reflexive, whatever the fields hold. */
  lemma EqualsReflexive(g: GroupEntity)
    ensures g.Equals(g)
  {
  }

  /** `equals` ignores the members: two objects of the same class whose four
      compared fields agree are equal, whatever their member sets. */
  lemma EqualsIgnoresMembers(a: GroupEntity, b: GroupEntity)
    requires a.runtimeClass == b.runtimeClass && a.Key() == b.Key()
    requires a.id.Some? && a.name.Some?
    ensures a.Equals(b) && b.Equals(a)
  {
  }

  /** Equal groups have equal hash codes. */
  lemma EqualsImpliesEqualHash(a: GroupEntity, b: GroupEntity, enumHash: GroupType -> int)
    requires a != b && a.runtimeClass == b.runtimeClass && a.groupType == b.groupType ==>
               a.id.Some? && (a.id == b.id ==> a.name.Some?)
    requires a.Equals(b)
    ensures a.HashCode(enumHash) == b.HashCode(enumHash)
  {
  }

  // Java's hash functions, in 32-bit two's-complement arithmetic.

  const TwoTo32: int := 0x1_0000_0000

  /** The `int` that Java's wrapping arithmetic yields for the exact value x. */
  function Int32(x: int): (r: int)
    ensures -0x8000_0000 <= r < 0x8000_0000
    ensures (x - r) % TwoTo32 == 0
  {
    var m := x % TwoTo32;
    if m < 0x8000_0000 then m else m - TwoTo32
  }

  /** `String.hashCode`: s[0]*31^(n-1) + ... + s[n-1], wrapped to an `int`. */
  function StringHash(s: string): int
  {
    if s == [] then 0 else Int32(31 * StringHash(s[..|s| - 1]) + s[|s| - 1] as int)
  }

  /** `Long.hashCode`: the low 32 bits of v ^ (v >>> 32). */
  function LongHash(v: int): int
  {
    var b := (v % 0x1_0000_0000_0000_0000) as bv64;
    Int32(((b ^ (b >> 32)) & 0xFFFF_FFFF) as int)
  }

  /** `Arrays.hashCode` of the hashes of the elements, a null element hashing
      to 0. */
  function ObjectsHash(hashes: seq<int>): int
  {
    if hashes == [] then 1 else Int32(31 * ObjectsHash(hashes[..|hashes| - 1]) + hashes[|hashes| - 1])
  }

  function KeyHash(k: GroupKey, enumHash: GroupType -> int): (h: int)
    ensures -0x8000_0000 <= h < 0x8000_0000
  {
    Int32(ObjectsHash([
      if k.groupType.Some? then Int32(enumHash(k.groupType.value)) else 0,
      if k.id.Some? then LongHash(k.id.value) else 0,
      if k.name.Some? then StringHash(k.name.value) else 0,
      if k.description.Some? then StringHash(k.description.value) else 0]))
  }
}
