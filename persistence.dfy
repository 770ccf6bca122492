/** The part of Doctrine's persistence abstraction that the manager resolution
    reads. Only the facts the resolution inspects are kept: what a manager's
    `getClassMetadata` returns for a class, whether its metadata factory
    `hasMetadataFor` the class, and what the registry's `getManagerForClass`
    and `getManagers` return. */
module Persistence {
  import opened Wrappers

  /** A class name, or a Doctrine shortcut class name. */
  type ClassName = string

  /** The mapping metadata a manager returns for a class. Only the ORM's
      `ClassMetadata` knows the notion of a mapped superclass; every other
      metadata implementation (ODM, ...) is `OtherClassMetadata`. */
  datatype Metadata =
    | OrmClassMetadata(isMappedSuperclass: bool)
    | OtherClassMetadata

  /** An object manager, reduced to the per-class facts the resolution reads.
      `name` is the name under which the registry lists it. */
  datatype Manager = Manager(
    name: string,
    metadataFor: ClassName -> Metadata,
    hasMetadataFor: ClassName -> bool)

  /** The manager registry: `managerForClass` is its direct lookup (a class
      absent from the map is the lookup returning null), `managers` is what
      `getManagers()` returns, in iteration order. */
  datatype Registry = Registry(
    managerForClass: map<ClassName, Manager>,
    managers: seq<Manager>)
  {
    /** `getManagerForClass(c)`. */
    function ManagerForClass(c: ClassName): Option<Manager>
    {
      if c in managerForClass then Some(managerForClass[c]) else None
    }
  }

  /** A call the resolution makes into the registry, into one of its
      managers, or into a manager's metadata factory. `index` is the position
      in `getManagers()` of the manager called, or of the manager whose
      metadata factory is called (`HasMetadataFor`). */
  datatype Call =
    | GetManagerForClass(className: ClassName)
    | GetManagers
    | GetClassMetadata(index: nat)
    | GetMetadataFactory(index: nat)
    | HasMetadataFor(index: nat)
}
