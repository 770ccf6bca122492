/** Resolution of the Doctrine object manager responsible for a class
    (`ManagerUtils` in Util/ManagerUtils.php). */
module ManagerUtils {
  import opened Wrappers
  import opened Persistence

  /** The error `getRequiredManager` throws: `ObjectManagerNotFoundException`
      for the class. */
  datatype ManagerError = ObjectManagerNotFound(className: ClassName)

  // ---------------------------------------------------------------------
  // Eligibility of one manager

  /** `isValidManager`: a manager is rejected only when its metadata for the
      class is the ORM's and marks the class as a mapped superclass. */
  function IsValidManager(m: Manager, c: ClassName): (ok: bool)
    ensures !m.metadataFor(c).OrmClassMetadata? ==> ok
    ensures m.metadataFor(c).OrmClassMetadata? ==> (ok <==> !m.metadataFor(c).isMappedSuperclass)
  {
    var meta := m.metadataFor(c);
    !meta.OrmClassMetadata? || !meta.isMappedSuperclass
  }

  /** The condition of the scan: valid, and the metadata factory knows the class. */
  predicate Qualifies(m: Manager, c: ClassName)
  {
    IsValidManager(m, c) && m.hasMetadataFor(c)
  }

  /** No manager of `ms` in positions `from..upTo` qualifies for `c`. */
  ghost predicate NoneQualifies(ms: seq<Manager>, c: ClassName, from: nat, upTo: nat)
    requires from <= upTo <= |ms|
  {
    forall j :: from <= j < upTo ==> !Qualifies(ms[j], c)
  }

  // ---------------------------------------------------------------------
  // The specification of the resolution

  /** The position of the first manager of `ms` at or after `from` that
      qualifies for `c`, if any. */
  function FirstQualifying(ms: seq<Manager>, c: ClassName, from: nat): (r: Option<nat>)
    requires from <= |ms|
    ensures r.Some? ==> from <= r.value < |ms| && Qualifies(ms[r.value], c)
    ensures r.Some? ==> NoneQualifies(ms, c, from, r.value)
    ensures r.None? <==> NoneQualifies(ms, c, from, |ms|)
    decreases |ms| - from
  {
    if from == |ms| then None
    else if Qualifies(ms[from], c) then Some(from)
    else FirstQualifying(ms, c, from + 1)
  }

  /** What `getManager` returns for `c`: the registry's direct lookup when it
      has one, otherwise the first qualifying manager of `getManagers()`,
      otherwise null (`None`). */
  function ResolvedManager(reg: Registry, c: ClassName): (r: Option<Manager>)
    // the fast path is trusted without any check
    ensures c in reg.managerForClass ==> r == Some(reg.managerForClass[c])
    // a manager found by the scan passes both conditions ...
    ensures c !in reg.managerForClass && r.Some? ==> Qualifies(r.value, c)
    // ... and is the first one of the list that does
    ensures c !in reg.managerForClass && r.Some? ==>
      exists i :: 0 <= i < |reg.managers| && reg.managers[i] == r.value
        && NoneQualifies(reg.managers, c, 0, i)
    // null exactly when neither the lookup nor the scan finds one
    ensures r.None? <==>
      c !in reg.managerForClass && NoneQualifies(reg.managers, c, 0, |reg.managers|)
  {
    match reg.ManagerForClass(c)
    case Some(m) => Some(m)
    case None =>
      match FirstQualifying(reg.managers, c, 0)
      case Some(i) => Some(reg.managers[i])
      case None => None
  }

  /** `getRequiredManager`: the resolved manager, or `ObjectManagerNotFound`
      for the class when there is none. */
  function GetRequiredManager(reg: Registry, c: ClassName): (r: Result<Manager, ManagerError>)
    ensures ResolvedManager(reg, c).Some? ==> r == Success(ResolvedManager(reg, c).value)
    ensures r.Failure? ==> r.error == ObjectManagerNotFound(c)
    ensures r.Failure? <==>
      c !in reg.managerForClass && NoneQualifies(reg.managers, c, 0, |reg.managers|)
  {
    match ResolvedManager(reg, c)
    case Some(m) => Success(m)
    case None => Failure(ObjectManagerNotFound(c))
  }

  // ---------------------------------------------------------------------
  // The calls the resolution makes

  /** The calls the scan makes from position `from` on: `getClassMetadata`
      on each manager and, only for a valid one (the `&&` short-circuits),
      `getMetadataFactory` followed by `hasMetadataFor` on the factory it
      returns, stopping after the first qualifying manager. */
  ghost function ScanCalls(ms: seq<Manager>, c: ClassName, from: nat): seq<Call>
    requires from <= |ms|
    decreases |ms| - from
  {
    if from == |ms| then []
    else
      var probe := if IsValidManager(ms[from], c)
        then [GetClassMetadata(from), GetMetadataFactory(from), HasMetadataFor(from)]
        else [GetClassMetadata(from)];
      if Qualifies(ms[from], c) then probe else probe + ScanCalls(ms, c, from + 1)
  }

  /** The calls `getManager` makes for `c`, in order. */
  ghost function ExpectedCalls(reg: Registry, c: ClassName): seq<Call>
  {
    [GetManagerForClass(c)]
      + if c in reg.managerForClass then [] else [GetManagers] + ScanCalls(reg.managers, c, 0)
  }

  // ---------------------------------------------------------------------
  // The operation

  /** `getManager`: the direct lookup, then a first-match scan of
      `getManagers()` that breaks on the first qualifying manager. `calls`
      records the calls made into the registry and its managers. */
  method GetManager(reg: Registry, c: ClassName) returns (r: Option<Manager>, ghost calls: seq<Call>)
    ensures r == ResolvedManager(reg, c)
    ensures calls == ExpectedCalls(reg, c)
  {
    r := reg.ManagerForClass(c);
    calls := [GetManagerForClass(c)];
    if r.None? {
      var ms := reg.managers;
      calls := calls + [GetManagers];
      var i := 0;
      while i < |ms|
        invariant 0 <= i <= |ms|
        invariant r.None?
        invariant NoneQualifies(ms, c, 0, i)
        invariant calls + ScanCalls(ms, c, i) == ExpectedCalls(reg, c)
      {
        var m := ms[i];
        calls := calls + [GetClassMetadata(i)];
        var valid := IsValidManager(m, c);
        if valid {
          calls := calls + [GetMetadataFactory(i), HasMetadataFor(i)];
        }
        if valid && m.hasMetadataFor(c) {
          r := Some(m);
          break;
        }
        i := i + 1;
      }
    }
  }

  // ---------------------------------------------------------------------
  // Properties of the resolution

  /** First match, converse direction: a qualifying manager with no
      qualifying manager before it is the one resolved (when the direct
      lookup is null). */
  lemma FirstMatchIsResolved(reg: Registry, c: ClassName, i: nat)
    requires c !in reg.managerForClass
    requires i < |reg.managers| && Qualifies(reg.managers[i], c)
    requires NoneQualifies(reg.managers, c, 0, i)
    ensures ResolvedManager(reg, c) == Some(reg.managers[i])
  {
  }

  /** In `calls`, every `getMetadataFactory` goes to a manager of `ms` that
      is valid for `c`, right after that manager's `getClassMetadata`, and
      every `hasMetadataFor` goes to the factory of such a manager, right
      after its `getMetadataFactory`. */
  ghost predicate ShortCircuits(ms: seq<Manager>, c: ClassName, calls: seq<Call>)
  {
    && (forall k :: 0 <= k < |calls| && calls[k].GetMetadataFactory? ==>
          calls[k].index < |ms| && IsValidManager(ms[calls[k].index], c)
            && 0 < k && calls[k - 1] == GetClassMetadata(calls[k].index))
    && (forall k :: 0 <= k < |calls| && calls[k].HasMetadataFor? ==>
          calls[k].index < |ms| && IsValidManager(ms[calls[k].index], c)
            && 1 < k && calls[k - 1] == GetMetadataFactory(calls[k].index)
            && calls[k - 2] == GetClassMetadata(calls[k].index))
  }

  lemma ShortCircuitsAppend(ms: seq<Manager>, c: ClassName, front: seq<Call>, back: seq<Call>)
    requires ShortCircuits(ms, c, front) && ShortCircuits(ms, c, back)
    ensures ShortCircuits(ms, c, front + back)
  {
  }

  /** The scan asks for the metadata factory, and the factory for
      `hasMetadataFor`, only of valid managers. */
  lemma {:induction false} ScanCallsShortCircuit(ms: seq<Manager>, c: ClassName, from: nat)
    requires from <= |ms|
    ensures ShortCircuits(ms, c, ScanCalls(ms, c, from))
    decreases |ms| - from
  {
    if from < |ms| {
      var probe := if IsValidManager(ms[from], c)
        then [GetClassMetadata(from), GetMetadataFactory(from), HasMetadataFor(from)]
        else [GetClassMetadata(from)];
      assert ShortCircuits(ms, c, probe);
      if !Qualifies(ms[from], c) {
        ScanCallsShortCircuit(ms, c, from + 1);
        ShortCircuitsAppend(ms, c, probe, ScanCalls(ms, c, from + 1));
      }
    }
  }

  /** `getMetadataFactory()->hasMetadataFor` is asked only of managers that
      passed `isValidManager`, immediately after their metadata was read. */
  lemma ShortCircuit(reg: Registry, c: ClassName)
    ensures ShortCircuits(reg.managers, c, ExpectedCalls(reg, c))
  {
    if c !in reg.managerForClass {
      ScanCallsShortCircuit(reg.managers, c, 0);
      ShortCircuitsAppend(reg.managers, c, [GetManagerForClass(c), GetManagers], ScanCalls(reg.managers, c, 0));
      assert ExpectedCalls(reg, c) == [GetManagerForClass(c), GetManagers] + ScanCalls(reg.managers, c, 0);
    }
  }

  /** The scan reads the metadata of the manager at position `i` exactly
      when no manager between `from` and `i` qualified: it never looks past
      the first match. */
  lemma {:induction false} ScanCallsReadPrefix(ms: seq<Manager>, c: ClassName, from: nat, i: nat)
    requires from <= |ms|
    ensures GetClassMetadata(i) in ScanCalls(ms, c, from) <==>
      from <= i < |ms| && NoneQualifies(ms, c, from, i)
    decreases |ms| - from
  {
    if from < |ms| {
      var probe := if IsValidManager(ms[from], c)
        then [GetClassMetadata(from), GetMetadataFactory(from), HasMetadataFor(from)]
        else [GetClassMetadata(from)];
      if Qualifies(ms[from], c) {
        assert ScanCalls(ms, c, from) == probe;
        if from < i <= |ms| {
          assert !NoneQualifies(ms, c, from, i) by {
            assert Qualifies(ms[from], c);
          }
        }
      } else {
        ScanCallsReadPrefix(ms, c, from + 1, i);
        assert ScanCalls(ms, c, from) == probe + ScanCalls(ms, c, from + 1);
        if from < i < |ms| && NoneQualifies(ms, c, from + 1, i) {
          assert NoneQualifies(ms, c, from, i);
        }
      }
    }
  }

  /** `getManager` reads the metadata of the manager at position `i` of
      `getManagers()` exactly when the direct lookup is null and no manager
      before position `i` qualifies. */
  lemma MetadataReadOnlyUpToFirstMatch(reg: Registry, c: ClassName, i: nat)
    ensures GetClassMetadata(i) in ExpectedCalls(reg, c) <==>
      c !in reg.managerForClass && i < |reg.managers| && NoneQualifies(reg.managers, c, 0, i)
  {
    ScanCallsReadPrefix(reg.managers, c, 0, i);
  }

  /** The scan makes only metadata calls, none into the registry. */
  lemma {:induction false} ScanCallsOnlyProbe(ms: seq<Manager>, c: ClassName, from: nat)
    requires from <= |ms|
    ensures forall call :: call in ScanCalls(ms, c, from) ==>
      call.GetClassMetadata? || call.GetMetadataFactory? || call.HasMetadataFor?
    decreases |ms| - from
  {
    if from < |ms| && !Qualifies(ms[from], c) {
      ScanCallsOnlyProbe(ms, c, from + 1);
    }
  }

  /** The registry is asked `getManagerForClass` exactly once, and
      `getManagers` once when the direct lookup is null and never
      otherwise. */
  lemma RegistryCallCounts(reg: Registry, c: ClassName)
    ensures multiset(ExpectedCalls(reg, c))[GetManagerForClass(c)] == 1
    ensures multiset(ExpectedCalls(reg, c))[GetManagers] ==
      if c in reg.managerForClass then 0 else 1
  {
    if c !in reg.managerForClass {
      var scan := ScanCalls(reg.managers, c, 0);
      ScanCallsOnlyProbe(reg.managers, c, 0);
      assert GetManagers !in scan;
      assert GetManagerForClass(c) !in scan;
      assert ExpectedCalls(reg, c) == [GetManagerForClass(c)] + [GetManagers] + scan;
    }
  }

  // ---------------------------------------------------------------------
  // The manager-resolution half of the scenarios of Tests/Util/RepositoryUtilsTest.php

  /** A manager that knows nothing about any class. */
  function PlainManager(name: string): Manager
  {
    Manager(name, _ => OtherClassMetadata, _ => false)
  }

  /** The direct lookup finds the manager: it is returned and only
      `getManagerForClass` is called. */
  lemma DirectLookupScenario()
    ensures GetRequiredManager(Registry(map["stdClass" := PlainManager("default")], []), "stdClass")
      == Success(PlainManager("default"))
    ensures ExpectedCalls(Registry(map["stdClass" := PlainManager("default")], []), "stdClass")
      == [GetManagerForClass("stdClass")]
  {
  }

  /** Neither the direct lookup nor the (empty) list of managers finds one:
      not found for the class, after one `getManagers` call. */
  lemma NoManagerScenario()
    ensures GetRequiredManager(Registry(map[], []), "stdClass")
      == Failure(ObjectManagerNotFound("stdClass"))
    ensures ExpectedCalls(Registry(map[], []), "stdClass")
      == [GetManagerForClass("stdClass"), GetManagers]
  {
  }

  // ---------------------------------------------------------------------
  // A scenario of `isValidManager`

  /** The only manager that has metadata for the class marks it as an ORM
      mapped superclass: it is skipped, and neither its metadata factory nor
      `hasMetadataFor` is asked. */
  lemma MappedSuperclassScenario()
    ensures GetRequiredManager(Registry(map[], [Manager("orm", _ => OrmClassMetadata(true), _ => true)]), "Base")
      == Failure(ObjectManagerNotFound("Base"))
    ensures ExpectedCalls(Registry(map[], [Manager("orm", _ => OrmClassMetadata(true), _ => true)]), "Base")
      == [GetManagerForClass("Base"), GetManagers, GetClassMetadata(0)]
  {
  }
}
