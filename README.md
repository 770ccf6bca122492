# Doctrine object-manager resolution

A Dafny model of `ManagerUtils` from fxp-doctrine-extra. Given a Doctrine
manager registry and a class name, it resolves the object manager
responsible for that class:

1. The registry's direct lookup (`getManagerForClass`) is asked first. A
   manager found there is returned as it is, with no further check.
2. Otherwise `getManagers()` is scanned in order. The first manager that
   passes `isValidManager` and whose metadata factory `hasMetadataFor` the
   class is returned. The scan stops at that manager.
3. Otherwise the result is null. `getRequiredManager` turns null into an
   `ObjectManagerNotFoundException` for the class.

`isValidManager` is permissive. It rejects a manager only when the
manager's metadata for the class is the ORM's `ClassMetadata` and marks the
class as a mapped superclass.

Files:

- `wrappers.dfy`: `Option` (PHP `null`) and `Result` (a thrown exception).
- `persistence.dfy`: the Doctrine facts the resolution reads.
  - `Metadata` is the ORM's `ClassMetadata` with its `isMappedSuperclass`
    flag, or any other metadata.
  - `Manager` carries, per class, its metadata and whether its metadata
    factory has metadata for the class.
  - `Registry` is the direct lookup, as a map, plus the list of managers.
  - `Call` is a call made into the registry, into a manager, or into a
    manager's metadata factory. `hasMetadataFor` is recorded as a call on
    the factory that the manager's `getMetadataFactory()` returned, right
    after that `getMetadataFactory()` call.
- `manager_utils.dfy`: the resolution.
  - `GetManager` is the loop with its `break`.
  - `ResolvedManager` is the function that specifies it.
  - `GetRequiredManager` and `IsValidManager` are functions, like their
    PHP counterparts.
  - The calls `getManager` makes are specified by `ExpectedCalls`. The
    lemmas about that trace state the short-circuit, the call counts, and
    that the scan never looks past the first match.

The resolution is a pure function of the registry. The registry and the
managers are immutable values here, so nothing can be changed by it.
`GetManager`'s result is stated as a function of its inputs alone.

## Model

| member | source | states |
|---|---|---|
| `ManagerUtils.IsValidManager` | Util/ManagerUtils.php:81-86 | non-ORM metadata is always valid; ORM metadata is valid iff the class is not a mapped superclass |
| `ManagerUtils.FirstQualifying` | Util/ManagerUtils.php:39-46 | the position found qualifies (valid and has metadata) and no earlier position qualifies; none is found iff no position qualifies |
| `ManagerUtils.ResolvedManager` | Util/ManagerUtils.php:34-50 | a direct-lookup hit is returned unchanged; otherwise a result qualifies and is the first qualifying manager of the list; null iff the lookup misses and no manager qualifies (including an empty list) |
| `ManagerUtils.GetManager` | Util/ManagerUtils.php:34-50 | the loop with `break` returns the resolved manager. Its calls, in order, are exactly those of `ExpectedCalls`: `getManagerForClass`, then on a miss `getManagers`, then per manager `getClassMetadata` and, for a valid one, `getMetadataFactory` and `hasMetadataFor` |
| `ManagerUtils.GetRequiredManager` | Util/ManagerUtils.php:62-71 | the same manager as `getManager` when there is one; fails exactly when lookup and scan both find none, with not-found for that class |
| `ManagerUtils.FirstMatchIsResolved` | Util/ManagerUtils.php:39-46 | when the lookup misses, a qualifying manager with no qualifying manager before it is the one returned |
| `ManagerUtils.ScanCallsShortCircuit` | Util/ManagerUtils.php:40-41 | during the scan, `getMetadataFactory` goes only to valid managers, right after `getClassMetadata`. `hasMetadataFor` goes only to a valid manager's factory, right after `getMetadataFactory` |
| `ManagerUtils.ShortCircuit` | Util/ManagerUtils.php:36-47 | over the whole resolution, `getMetadataFactory()->hasMetadataFor` is called only for managers that passed `isValidManager` |
| `ManagerUtils.ScanCallsReadPrefix` | Util/ManagerUtils.php:39-46 | the scan reads a manager's metadata iff no manager before it qualified |
| `ManagerUtils.MetadataReadOnlyUpToFirstMatch` | Util/ManagerUtils.php:36-47 | a manager's metadata is read iff the lookup missed and no earlier manager qualified; a direct hit skips the scan entirely |
| `ManagerUtils.ScanCallsOnlyProbe` | Util/ManagerUtils.php:39-46 | the scan calls only the managers' metadata accessors and their factories' `hasMetadataFor`, never the registry |
| `ManagerUtils.RegistryCallCounts` | Util/ManagerUtils.php:36-39 | `getManagerForClass` is called once; `getManagers` is called once when the lookup misses and never when it hits |
| `ManagerUtils.DirectLookupScenario` | Tests/Util/RepositoryUtilsTest.php:39-48 | a direct hit is returned, and only the direct lookup is called |
| `ManagerUtils.NoManagerScenario` | Tests/Util/RepositoryUtilsTest.php:52-71 | no direct hit and no managers: not-found for `stdClass`, after one `getManagers` call |
| `ManagerUtils.MappedSuperclassScenario` | Util/ManagerUtils.php:83-85 | the only manager marks the class as an ORM mapped superclass: not found. Neither `getMetadataFactory` nor `hasMetadataFor` is called |

## Left out

- `RepositoryUtils` (`getRepository`) is not part of this model. Its source
  is not available. Its repository type check depends on PHP's runtime
  `instanceof`.
- Doctrine itself (`ManagerRegistry`, `ObjectManager`, the metadata
  factory, `ClassMetadata`) is foreign code. Only the facts the resolution
  reads from it are modelled, as per-class functions of a manager.
- Exceptions Doctrine may throw from `getClassMetadata` (for a class the
  manager does not know) are not modelled. The metadata of every class is
  taken to be defined.
- Exception message texts and the resolution of Doctrine shortcut class
  names happen inside the exception factory and inside Doctrine. They are
  not part of this model: the not-found error carries only the class name.
- `Exception/InvalidArgumentException.php` is an empty marker class. It has
  no behaviour to model.
- Manager identity is the identity of a value, not of a PHP object.
